/**
 * What the Go rewrite guarantees about a whole instruction list: the input
 * is copied unchanged, each known `pick ` line is followed by exactly its
 * branches (never the branch being rebased), and push sections appear only
 * at empty lines or, failing those, at the end.
 */
module GoRestackProperties {
  import opened Seqs
  import opened Instructions
  import opened GoRestack

  /** The branches moved, line by line: the reference for everything written as directives. */
  function AllMoves(cfg: Config, lines: seq<string>): seq<string>
    decreases |lines|
  {
    if lines == [] then [] else AllMoves(cfg, lines[..|lines| - 1]) + LineMoves(cfg, lines[|lines| - 1])
  }

  ghost predicate HasEmpty(lines: seq<string>) {
    exists j :: 0 <= j < |lines| && lines[j] == ""
  }

  /** The views of a push block, a copied line, its directives and an optional empty line. */
  lemma PiecesViews(out: seq<Line>, push: seq<Line>, line: string, moved: seq<string>, pad: bool)
    requires Echoed(push) == [] && UpdatedNames(push) == []
    ensures var whole := out + push + [Echo(line)] + Updates(moved) + Pad(pad);
      && Echoed(whole) == Echoed(out) + [line]
      && UpdatedNames(whole) == UpdatedNames(out) + moved
      && PushedNames(whole) == PushedNames(out) + PushedNames(push)
      && Headers(whole) == Headers(out) + Headers(push)
  {
    var a := out + push;
    var b := a + [Echo(line)];
    var c := b + Updates(moved);
    var tail := Pad(pad);
    ViewsAppend(out, push);
    ViewsSnoc(a, Echo(line));
    UpdatesViews(moved);
    ViewsAppend(b, Updates(moved));
    ViewsAppend(c, tail);
    PadViews(pad);
    assert Echoed(a) == Echoed(out) + [] == Echoed(out);
    assert UpdatedNames(a) == UpdatedNames(out) + [] == UpdatedNames(out);
    assert Echoed(c) == Echoed(b) + [] == Echoed(b);
    assert PushedNames(c) == PushedNames(b) + [] == PushedNames(b);
    assert Echoed(c + tail) == Echoed(c) + [] == Echoed(c);
    assert UpdatedNames(c + tail) == UpdatedNames(c) + [] == UpdatedNames(c);
    assert PushedNames(c + tail) == PushedNames(c) + [] == PushedNames(c);
  }

  /** What one step adds to each view of the output. */
  lemma StepViews(cfg: Config, s: State, line: string)
    ensures var s' := Step(cfg, s, line);
      var emits := line == "" && s.branches != [] && cfg.remote != [];
      && Echoed(s'.out) == Echoed(s.out) + [line]
      && UpdatedNames(s'.out) == UpdatedNames(s.out) + LineMoves(cfg, line)
      && PushedNames(s'.out) == PushedNames(s.out) + (if emits then s.branches else [])
      && Headers(s'.out) == Headers(s.out) + (if emits then 1 else 0)
  {
    var moved := LineMoves(cfg, line);
    var push := if line == "" then PushSection(cfg.remote, s.branches) else [];
    PushSectionViews(cfg.remote, s.branches);
    assert Echoed([]) == [] && UpdatedNames([]) == [] && PushedNames([]) == [] && Headers([]) == 0;
    PiecesViews(s.out, push, line, moved, moved != []);
  }

  /** The facts that hold after the loop has consumed `input`. */
  ghost predicate Invariant(cfg: Config, input: seq<string>, s: State) {
    && Echoed(s.out) == input
    && s.branches == AllMoves(cfg, input)
    && UpdatedNames(s.out) == s.branches
    && (s.wrote <==> HasEmpty(input))
    && (!s.wrote ==> PushedNames(s.out) == [] && Headers(s.out) == 0)
    && (cfg.remote == [] ==> PushedNames(s.out) == [] && Headers(s.out) == 0)
    && (forall i :: 0 <= i < |s.branches| ==> s.branches[i] != cfg.rebasing)
  }

  lemma InvariantStep(cfg: Config, input: seq<string>, s: State, line: string)
    requires Invariant(cfg, input, s)
    ensures Invariant(cfg, input + [line], Step(cfg, s, line))
  {
    var s' := Step(cfg, s, line);
    var input' := input + [line];
    StepViews(cfg, s, line);
    assert input'[..|input'| - 1] == input;
    assert HasEmpty(input') <==> HasEmpty(input) || line == "" by {
      if HasEmpty(input) {
        var j :| 0 <= j < |input| && input[j] == "";
        assert input'[j] == input[j];
      }
      if HasEmpty(input') {
        var j :| 0 <= j < |input'| && input'[j] == "";
        if j < |input| {
          assert input[j] == input'[j];
        }
      }
      assert input'[|input|] == line;
    }
    var moved := LineMoves(cfg, line);
    forall i | 0 <= i < |s'.branches| ensures s'.branches[i] != cfg.rebasing {
      if i >= |s.branches| {
        assert s'.branches[i] == moved[i - |s.branches|];
      }
    }
  }

  lemma {:induction false} InvariantRun(cfg: Config, input: seq<string>)
    ensures Invariant(cfg, input, Run(cfg, input))
    decreases |input|
  {
    if input == [] {
      assert Echoed([]) == [] && UpdatedNames([]) == [] && PushedNames([]) == [] && Headers([]) == 0;
    } else {
      var init := input[..|input| - 1];
      var line := input[|input| - 1];
      assert init + [line] == input;
      InvariantRun(cfg, init);
      InvariantStep(cfg, init, Run(cfg, init), line);
      assert Run(cfg, input) == Step(cfg, Run(cfg, init), line);
    }
  }

  /**
   * The rewritten list copies every input line in order and moves exactly
   * the branches of the known `pick ` lines, line by line, never the branch
   * being rebased. Without a remote there is no push section; without an
   * empty line there is at most one, at the end, listing every moved branch.
   */
  lemma RestackLinesProperties(cfg: Config, input: seq<string>)
    ensures var out := RestackLines(cfg, input);
      && Echoed(out) == input
      && UpdatedNames(out) == AllMoves(cfg, input)
      && (forall i :: 0 <= i < |UpdatedNames(out)| ==> UpdatedNames(out)[i] != cfg.rebasing)
      && (cfg.remote == [] ==> PushedNames(out) == [] && Headers(out) == 0)
      && (!HasEmpty(input) ==>
            && PushedNames(out) == (if cfg.remote != [] then UpdatedNames(out) else [])
            && Headers(out) == (if cfg.remote != [] && UpdatedNames(out) != [] then 1 else 0))
  {
    var s := Run(cfg, input);
    InvariantRun(cfg, input);
    assert RestackLines(cfg, input) == Finish(cfg, s).out;
    FinishCopies(cfg, input, s);
    FinishPushes(cfg, input, s);
  }

  /** The section at the end copies nothing and moves nothing. */
  lemma FinishCopies(cfg: Config, input: seq<string>, s: State)
    requires Invariant(cfg, input, s)
    ensures var out := Finish(cfg, s).out;
      && Echoed(out) == input
      && UpdatedNames(out) == AllMoves(cfg, input)
      && (forall i :: 0 <= i < |UpdatedNames(out)| ==> UpdatedNames(out)[i] != cfg.rebasing)
  {
    if !s.wrote {
      var block := PushSection(cfg.remote, s.branches);
      PushSectionViews(cfg.remote, s.branches);
      ViewsAppend(s.out, block);
      assert Echoed(s.out + block) == Echoed(s.out) + [] == Echoed(s.out);
      assert UpdatedNames(s.out + block) == UpdatedNames(s.out) + [] == UpdatedNames(s.out);
    }
  }

  /** The section at the end: none without a remote, and all moved branches when no empty line came first. */
  lemma FinishPushes(cfg: Config, input: seq<string>, s: State)
    requires Invariant(cfg, input, s)
    ensures var out := Finish(cfg, s).out;
      && (cfg.remote == [] ==> PushedNames(out) == [] && Headers(out) == 0)
      && (!HasEmpty(input) ==>
            && PushedNames(out) == (if cfg.remote != [] then s.branches else [])
            && Headers(out) == (if cfg.remote != [] && s.branches != [] then 1 else 0))
  {
    if !s.wrote {
      var block := PushSection(cfg.remote, s.branches);
      PushSectionViews(cfg.remote, s.branches);
      ViewsAppend(s.out, block);
      assert PushedNames(s.out + block) == [] + PushedNames(block) == PushedNames(block);
      assert Headers(s.out + block) == Headers(block);
    }
  }

  /** No line moves a branch. */
  ghost predicate Untouched(cfg: Config, input: seq<string>) {
    forall j :: 0 <= j < |input| ==> LineMoves(cfg, input[j]) == []
  }

  lemma {:induction false} UntouchedRun(cfg: Config, input: seq<string>)
    requires Untouched(cfg, input)
    ensures var s := Run(cfg, input); s.branches == [] && s.out == Echoes(input)
    decreases |input|
  {
    if input != [] {
      var init := input[..|input| - 1];
      var line := input[|input| - 1];
      assert LineMoves(cfg, line) == [];
      assert PushSection(cfg.remote, []) == [];
      assert Untouched(cfg, init) by {
        forall j | 0 <= j < |init| ensures init[j] == input[j] { }
      }
      UntouchedRun(cfg, init);
      EchoesSnoc(input);
    }
  }

  /**
   * An instruction list in which no `pick ` line moves a branch (its commit
   * is unknown, or only the branch being rebased is there) comes back
   * unchanged, empty lines included: with no branch moved, every push
   * section is empty.
   */
  lemma UntouchedIsUnchanged(cfg: Config, input: seq<string>)
    requires Untouched(cfg, input)
    ensures RenderAll(RestackLines(cfg, input)) == input
  {
    UntouchedRun(cfg, input);
    var s := Run(cfg, input);
    assert PushSection(cfg.remote, s.branches) == [];
    assert Finish(cfg, s).out == s.out + [];
    assert RestackLines(cfg, input) == Echoes(input);
    RenderEchoes(input);
  }

  /** A known commit whose only branch is the one being rebased moves nothing. */
  lemma OnlyRebasingMovesNothing(cfg: Config, line: string)
    requires PickKey(line).Some? && PickKey(line).value in cfg.known
    requires forall r :: r in cfg.known[PickKey(line).value] ==> ShortName(r) == cfg.rebasing
    ensures LineMoves(cfg, line) == []
  {
    MovedOnlyRebasing(cfg.known[PickKey(line).value], cfg.rebasing);
  }

  lemma {:induction false} MovedOnlyRebasing(refs: seq<string>, rebasing: string)
    requires forall r :: r in refs ==> ShortName(r) == rebasing
    ensures Moved(refs, rebasing) == []
    decreases |refs|
  {
    if refs != [] {
      assert refs[0] in refs;
      assert forall r :: r in refs[1..] ==> r in refs;
      MovedOnlyRebasing(refs[1..], rebasing);
    }
  }
}
