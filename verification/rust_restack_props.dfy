/**
 * What the Rust rewrite guarantees about a whole instruction list: the input
 * is copied unchanged, exactly the branches at picked commits are moved
 * (never the branch being rebased), and the push section appears at most
 * once and lists only moved branches.
 */
module RustRestackProperties {
  import opened Wrappers
  import opened Seqs
  import opened Instructions
  import opened RustRestack

  /** Some line of `input` picks a commit whose abbreviated hash is `h`. */
  ghost predicate Picked(input: seq<string>, h: string) {
    exists j :: 0 <= j < |input| && PickedHash(input[j]) == Some(h)
  }

  ghost predicate HasComment(input: seq<string>) {
    exists j :: 0 <= j < |input| && IsComment(input[j])
  }

  /** What the output shows after the loop has consumed `input`. */
  ghost predicate OutputInvariant(cfg: Config, input: seq<string>, r: Restacker) {
    && Echoed(r.out) == input
    && UpdatedNames(r.out) == Names(r.updated)
    && IsPrefix(PushedNames(r.out), Names(r.updated))
    && Headers(r.out) <= (if r.wrotePush then 1 else 0)
    && (!r.wrotePush ==> PushedNames(r.out) == [])
    && (cfg.remote.None? ==> PushedNames(r.out) == [] && Headers(r.out) == 0)
    && (r.wrotePush <==> HasComment(input))
  }

  /** Which branches are moved or about to be, after the loop has consumed `input`. */
  ghost predicate BranchInvariant(cfg: Config, input: seq<string>, r: Restacker) {
    && (forall i :: 0 <= i < |r.updated| ==> r.updated[i].name != cfg.rebaseBranch)
    && (forall b :: b in r.updated || b in r.pending ==> b in cfg.branches && Picked(input, b.shorthash))
    && Complete(cfg, input, r)
  }

  /**
   * Every branch other than the one being rebased that points at a commit
   * some line of `input` picks is moved or about to be.
   */
  ghost predicate Complete(cfg: Config, input: seq<string>, r: Restacker) {
    forall j, b ::
      (0 <= j < |input| && b in cfg.branches && PickedHash(input[j]) == Some(b.shorthash) && b.name != cfg.rebaseBranch)
      ==> b in r.updated || b in r.pending
  }

  ghost predicate Invariant(cfg: Config, input: seq<string>, r: Restacker) {
    OutputInvariant(cfg, input, r) && BranchInvariant(cfg, input, r)
  }

  lemma InvariantStart(cfg: Config)
    ensures Invariant(cfg, [], Start)
  {
    assert Echoed([]) == [] && UpdatedNames([]) == [] && PushedNames([]) == [] && Headers([]) == 0;
  }

  /** What flushing preserves: the kept branches move from pending to updated. */
  lemma KeptMembers(pending: seq<Branch>, excluded: string)
    ensures forall b :: b in Kept(pending, excluded) ==> b in pending && b.name != excluded
    ensures forall b :: b in pending && b.name != excluded ==> b in Kept(pending, excluded)
  {
    var k := Kept(pending, excluded);
    SubseqElements(k, pending);
    assert forall b :: b in k ==> b.name != excluded by {
      forall b | b in k ensures b.name != excluded {
        var i :| 0 <= i < |k| && k[i] == b;
      }
    }
  }

  lemma MatchingMembers(branches: seq<Branch>, hash: string)
    ensures forall b :: b in Matching(branches, hash) ==> b in branches && b.shorthash == hash
  {
    var m := Matching(branches, hash);
    SubseqElements(m, branches);
    forall b | b in m ensures b.shorthash == hash {
      var i :| 0 <= i < |m| && m[i] == b;
    }
  }

  /** The branches a step adds to `updated`. */
  lemma StepAdded(cfg: Config, r: Restacker, line: string)
    ensures var r' := Step(cfg, r, line);
      && |r.updated| <= |r'.updated|
      && r'.updated == r.updated + r'.updated[|r.updated|..]
      && forall b :: b in r'.updated[|r.updated|..] ==> b in r.pending && b.name != cfg.rebaseBranch
  {
    StepState(cfg, r, line);
    KeptMembers(r.pending, cfg.rebaseBranch);
  }

  lemma HasCommentSnoc(input: seq<string>, line: string)
    ensures HasComment(input + [line]) <==> HasComment(input) || IsComment(line)
  {
    var input' := input + [line];
    if HasComment(input) {
      var j :| 0 <= j < |input| && IsComment(input[j]);
      assert input'[j] == input[j];
    }
    if HasComment(input') {
      var j :| 0 <= j < |input'| && IsComment(input'[j]);
      if j < |input| {
        assert input[j] == input'[j];
      }
    }
    assert input'[|input|] == line;
  }

  lemma OutputStep(cfg: Config, input: seq<string>, r: Restacker, line: string)
    requires OutputInvariant(cfg, input, r)
    ensures OutputInvariant(cfg, input + [line], Step(cfg, r, line))
  {
    var r' := Step(cfg, r, line);
    StepState(cfg, r, line);
    StepViews(cfg, r, line);
    StepAdded(cfg, r, line);
    var added := r'.updated[|r.updated|..];
    NamesAppend(r.updated, added);
    var emits := IsComment(line) && EmitsPush(cfg, r);
    var pushed := PushedNames(r.out) + (if emits then Names(r.updated) else []);
    PrefixAfterAppend(PushedNames(r.out), Names(r.updated), emits);
    PrefixExtend(pushed, Names(r.updated), Names(added));
    HasCommentSnoc(input, line);
  }

  lemma ExclusionStep(cfg: Config, r: Restacker, line: string)
    requires forall i :: 0 <= i < |r.updated| ==> r.updated[i].name != cfg.rebaseBranch
    ensures var r' := Step(cfg, r, line);
      forall i :: 0 <= i < |r'.updated| ==> r'.updated[i].name != cfg.rebaseBranch
  {
    var r' := Step(cfg, r, line);
    StepAdded(cfg, r, line);
    var added := r'.updated[|r.updated|..];
    forall i | 0 <= i < |r'.updated|
      ensures r'.updated[i].name != cfg.rebaseBranch
    {
      if i >= |r.updated| {
        assert r'.updated[i] == added[i - |r.updated|];
      }
    }
  }

  lemma PickedGrows(input: seq<string>, line: string)
    ensures forall h :: Picked(input, h) ==> Picked(input + [line], h)
    ensures PickedHash(line).Some? ==> Picked(input + [line], PickedHash(line).value)
  {
    var input' := input + [line];
    forall h | Picked(input, h) ensures Picked(input', h) {
      var j :| 0 <= j < |input| && PickedHash(input[j]) == Some(h);
      assert input'[j] == input[j];
    }
    assert input'[|input|] == line;
  }

  lemma ProvenanceStep(cfg: Config, input: seq<string>, r: Restacker, line: string)
    requires forall b :: b in r.updated || b in r.pending ==> b in cfg.branches && Picked(input, b.shorthash)
    ensures var r' := Step(cfg, r, line);
      forall b :: b in r'.updated || b in r'.pending ==> b in cfg.branches && Picked(input + [line], b.shorthash)
  {
    var r' := Step(cfg, r, line);
    StepState(cfg, r, line);
    StepAdded(cfg, r, line);
    PickedGrows(input, line);
    if PickedHash(line).Some? {
      MatchingMembers(cfg.branches, PickedHash(line).value);
    }
    assert forall b :: b in r'.updated ==> b in r.updated || b in r'.updated[|r.updated|..];
  }

  lemma CompletenessStep(cfg: Config, input: seq<string>, r: Restacker, line: string)
    requires Complete(cfg, input, r)
    ensures Complete(cfg, input + [line], Step(cfg, r, line))
  {
    var r' := Step(cfg, r, line);
    var input' := input + [line];
    StepState(cfg, r, line);
    KeptMembers(r.pending, cfg.rebaseBranch);
    assert forall b :: b in r.updated ==> b in r'.updated;
    forall j, b | 0 <= j < |input'| && b in cfg.branches && PickedHash(input'[j]) == Some(b.shorthash)
        && b.name != cfg.rebaseBranch
      ensures b in r'.updated || b in r'.pending
    {
      if j < |input| {
        assert input'[j] == input[j];
      } else {
        assert input'[j] == line;
      }
    }
  }

  /** One step keeps the invariant, with the line appended to the input. */
  lemma InvariantStep(cfg: Config, input: seq<string>, r: Restacker, line: string)
    requires Invariant(cfg, input, r)
    ensures Invariant(cfg, input + [line], Step(cfg, r, line))
  {
    OutputStep(cfg, input, r, line);
    ExclusionStep(cfg, r, line);
    ProvenanceStep(cfg, input, r, line);
    CompletenessStep(cfg, input, r, line);
  }

  /** The loop keeps the invariant over the whole input. */
  lemma {:induction false} InvariantRun(cfg: Config, input: seq<string>)
    ensures Invariant(cfg, input, Run(cfg, input))
    decreases |input|
  {
    if input == [] {
      InvariantStart(cfg);
    } else {
      var init := input[..|input| - 1];
      var line := input[|input| - 1];
      assert init + [line] == input;
      InvariantRun(cfg, init);
      var r := Run(cfg, init);
      assert Run(cfg, input) == Step(cfg, r, line);
      InvariantStep(cfg, init, r, line);
    }
  }

  /** The end of input keeps the branch facts and leaves nothing pending. */
  lemma FinishBranches(cfg: Config, input: seq<string>, r: Restacker)
    requires BranchInvariant(cfg, input, r)
    ensures Finish(cfg, r).pending == [] && BranchInvariant(cfg, input, Finish(cfg, r))
  {
    var f := UpdatePreviousBranches(cfg, r);
    var k := Kept(r.pending, cfg.rebaseBranch);
    KeptMembers(r.pending, cfg.rebaseBranch);
    assert Finish(cfg, r).updated == r.updated + k;
    forall i | 0 <= i < |f.r.updated| ensures f.r.updated[i].name != cfg.rebaseBranch {
      if i >= |r.updated| {
        assert f.r.updated[i] == k[i - |r.updated|];
      }
    }
  }

  /** What the output shows once the end of input has been handled. */
  lemma FinishOutput(cfg: Config, input: seq<string>, r: Restacker)
    requires OutputInvariant(cfg, input, r)
    ensures var r' := Finish(cfg, r);
      && Echoed(r'.out) == input
      && UpdatedNames(r'.out) == Names(r'.updated)
      && IsPrefix(PushedNames(r'.out), Names(r'.updated))
      && Headers(r'.out) <= 1
      && (cfg.remote.None? ==> PushedNames(r'.out) == [] && Headers(r'.out) == 0)
      && (cfg.remote.Some? && !HasComment(input) && r'.updated != [] ==>
            PushedNames(r'.out) == Names(r'.updated) && Headers(r'.out) == 1)
  {
    var f := UpdatePreviousBranches(cfg, r);
    FlushKeepsOutput(cfg, input, r);
    assert Finish(cfg, r) == WritePushSection(cfg, f.r, true, false);
    assert OutputInvariant(cfg, input, f.r);
    EndSectionCopies(cfg, input, f.r);
    EndSectionPrefix(cfg, f.r);
    EndSectionHeaders(cfg, f.r);
    if EmitsPush(cfg, f.r) {
      EndSectionComplete(cfg, f.r);
    }
  }

  /** The final flush keeps the output invariant. */
  lemma FlushKeepsOutput(cfg: Config, input: seq<string>, r: Restacker)
    requires OutputInvariant(cfg, input, r)
    ensures OutputInvariant(cfg, input, UpdatePreviousBranches(cfg, r).r)
  {
    var f := UpdatePreviousBranches(cfg, r);
    var kept := Kept(r.pending, cfg.rebaseBranch);
    FlushViews(cfg, r);
    NamesAppend(r.updated, kept);
    assert Names(f.r.updated) == Names(r.updated) + Names(kept);
    PrefixExtend(PushedNames(r.out), Names(r.updated), Names(kept));
  }

  /** The push section written at the end copies nothing and moves nothing. */
  lemma EndSectionCopies(cfg: Config, input: seq<string>, q: Restacker)
    requires Echoed(q.out) == input && UpdatedNames(q.out) == Names(q.updated)
    ensures var r' := WritePushSection(cfg, q, true, false);
      Echoed(r'.out) == input && UpdatedNames(r'.out) == Names(r'.updated)
  {
    WritePushSectionViews(cfg, q, true, false);
  }

  /** The push section written at the end pushes moved branches only. */
  lemma EndSectionPrefix(cfg: Config, q: Restacker)
    requires IsPrefix(PushedNames(q.out), Names(q.updated))
    requires !q.wrotePush ==> PushedNames(q.out) == []
    ensures var r' := WritePushSection(cfg, q, true, false);
      IsPrefix(PushedNames(r'.out), Names(r'.updated))
  {
    WritePushSectionViews(cfg, q, true, false);
    PrefixAfterAppend(PushedNames(q.out), Names(q.updated), EmitsPush(cfg, q));
  }

  /** At most one header in all, and none without a remote. */
  lemma EndSectionHeaders(cfg: Config, q: Restacker)
    requires Headers(q.out) <= (if q.wrotePush then 1 else 0)
    requires cfg.remote.None? ==> PushedNames(q.out) == [] && Headers(q.out) == 0
    ensures var r' := WritePushSection(cfg, q, true, false);
      && Headers(r'.out) <= 1
      && (cfg.remote.None? ==> PushedNames(r'.out) == [] && Headers(r'.out) == 0)
  {
    WritePushSectionViews(cfg, q, true, false);
    assert PushedNames(q.out) + [] == PushedNames(q.out);
  }

  /** Without an earlier push section, the one at the end pushes every moved branch. */
  lemma EndSectionComplete(cfg: Config, q: Restacker)
    requires EmitsPush(cfg, q) && PushedNames(q.out) == [] && Headers(q.out) == 0
    ensures var out' := WritePushSection(cfg, q, true, false).out;
      PushedNames(out') == Names(q.updated) && Headers(out') == 1
  {
    WritePushSectionViews(cfg, q, true, false);
    var u := Names(q.updated);
    assert [] + u == u;
  }

  /** Names of moved branches, as seen in the output. */
  lemma NamesMembers(bs: seq<Branch>)
    ensures forall n :: n in Names(bs) ==> exists b :: b in bs && b.name == n
    ensures forall b :: b in bs ==> b.name in Names(bs)
  {
    forall n | n in Names(bs) ensures exists b :: b in bs && b.name == n {
      var i :| 0 <= i < |bs| && Names(bs)[i] == n;
      assert bs[i] in bs;
    }
    forall b | b in bs ensures b.name in Names(bs) {
      var i :| 0 <= i < |bs| && bs[i] == b;
      assert Names(bs)[i] == b.name;
    }
  }

  /**
   * The rewritten list copies every input line in order, has at most one push
   * section and none without a remote, and that section lists moved branches
   * only; without a comment line it comes at the end and lists every moved
   * branch.
   */
  lemma RestackLinesOutput(cfg: Config, input: seq<string>)
    ensures var out := RestackLines(cfg, input);
      && Echoed(out) == input
      && Headers(out) <= 1
      && IsPrefix(PushedNames(out), UpdatedNames(out))
      && (cfg.remote.None? ==> PushedNames(out) == [] && Headers(out) == 0)
      && (cfg.remote.Some? && !HasComment(input) && UpdatedNames(out) != [] ==>
            PushedNames(out) == UpdatedNames(out) && Headers(out) == 1)
  {
    var r := Run(cfg, input);
    InvariantRun(cfg, input);
    FinishOutput(cfg, input, r);
  }

  /**
   * The rewritten list moves exactly the branches at picked commits, never
   * the branch being rebased.
   */
  lemma RestackLinesBranches(cfg: Config, input: seq<string>)
    ensures var out := RestackLines(cfg, input);
      && (forall n :: n in UpdatedNames(out) ==> n != cfg.rebaseBranch)
      && (forall n :: n in UpdatedNames(out) ==>
            exists b :: b in cfg.branches && b.name == n && Picked(input, b.shorthash))
      && (forall j, b ::
            (0 <= j < |input| && b in cfg.branches && PickedHash(input[j]) == Some(b.shorthash) && b.name != cfg.rebaseBranch)
            ==> b.name in UpdatedNames(out))
  {
    var r := Run(cfg, input);
    InvariantRun(cfg, input);
    FinishOutput(cfg, input, r);
    FinishBranches(cfg, input, r);
    var r' := Finish(cfg, r);
    FinalNames(cfg, input, r');
  }

  lemma FinalNames(cfg: Config, input: seq<string>, r: Restacker)
    requires BranchInvariant(cfg, input, r) && r.pending == []
    ensures forall n :: n in Names(r.updated) ==> n != cfg.rebaseBranch
    ensures forall n :: n in Names(r.updated) ==>
      exists b :: b in cfg.branches && b.name == n && Picked(input, b.shorthash)
    ensures forall j, b ::
      (0 <= j < |input| && b in cfg.branches && PickedHash(input[j]) == Some(b.shorthash) && b.name != cfg.rebaseBranch)
      ==> b.name in Names(r.updated)
  {
    NamesMembers(r.updated);
    forall n | n in Names(r.updated) ensures n != cfg.rebaseBranch {
      var b :| b in r.updated && b.name == n;
      var i :| 0 <= i < |r.updated| && r.updated[i] == b;
    }
  }

  /** No line is empty and no line picks the commit of a known branch. */
  ghost predicate Untouched(cfg: Config, input: seq<string>) {
    forall j :: 0 <= j < |input| ==>
      input[j] != "" && forall b :: b in cfg.branches ==> PickedHash(input[j]) != Some(b.shorthash)
  }

  /** With nothing moved or pending, a non-empty line is only copied. */
  lemma QuietStep(cfg: Config, r: Restacker, line: string)
    requires r.pending == [] && r.updated == [] && line != ""
    ensures Step(cfg, r, line).out == r.out + [Echo(line)] && Step(cfg, r, line).updated == []
  {
    assert Kept([], cfg.rebaseBranch) == [];
    var r2 := if IsComment(line) then WritePushSection(cfg, r, false, true) else r;
    assert r2.out == r.out && r2.pending == [] && r2.updated == [];
    assert FlushUnlessFixup(cfg, r2, line).out == r.out;
  }

  lemma NoMatch(cfg: Config, line: string)
    requires forall b :: b in cfg.branches ==> PickedHash(line) != Some(b.shorthash)
    ensures PickedHash(line).Some? ==> Matching(cfg.branches, PickedHash(line).value) == []
  {
    if PickedHash(line).Some? {
      var m := Matching(cfg.branches, PickedHash(line).value);
      MatchingMembers(cfg.branches, PickedHash(line).value);
      assert forall i :: 0 <= i < |m| ==> m[i] in m;
    }
  }

  /** An untouched line, from a quiet state, leaves the state quiet. */
  lemma UntouchedStep(cfg: Config, r: Restacker, line: string)
    requires r.pending == [] && r.updated == [] && line != ""
    requires forall b :: b in cfg.branches ==> PickedHash(line) != Some(b.shorthash)
    ensures var r' := Step(cfg, r, line); r'.pending == [] && r'.updated == [] && r'.out == r.out + [Echo(line)]
  {
    StepState(cfg, r, line);
    QuietStep(cfg, r, line);
    NoMatch(cfg, line);
  }

  lemma UntouchedPrefix(cfg: Config, input: seq<string>)
    requires Untouched(cfg, input) && input != []
    ensures Untouched(cfg, input[..|input| - 1])
    ensures input[|input| - 1] != ""
    ensures forall b :: b in cfg.branches ==> PickedHash(input[|input| - 1]) != Some(b.shorthash)
  {
    var init := input[..|input| - 1];
    assert forall j | 0 <= j < |init| :: init[j] == input[j];
  }

  lemma {:induction false} UntouchedRun(cfg: Config, input: seq<string>)
    requires Untouched(cfg, input)
    ensures var r := Run(cfg, input); r.pending == [] && r.updated == [] && r.out == Echoes(input)
    decreases |input|
  {
    if input != [] {
      var init := input[..|input| - 1];
      var line := input[|input| - 1];
      UntouchedPrefix(cfg, input);
      UntouchedRun(cfg, init);
      var r := Run(cfg, init);
      assert Run(cfg, input) == Step(cfg, r, line);
      UntouchedStep(cfg, r, line);
      EchoesSnoc(input);
    }
  }

  /**
   * An instruction list that mentions no branch's commit and has no empty
   * line comes back unchanged.
   */
  lemma UntouchedIsUnchanged(cfg: Config, input: seq<string>)
    requires Untouched(cfg, input)
    ensures RenderAll(RestackLines(cfg, input)) == input
  {
    UntouchedRun(cfg, input);
    var r := Run(cfg, input);
    assert Kept([], cfg.rebaseBranch) == [];
    assert UpdatePreviousBranches(cfg, r).r.out == r.out;
    assert Finish(cfg, r).out == r.out;
    RenderEchoes(input);
  }

  /** An empty line with nothing to flush is written twice. */
  lemma EmptyLineDoubled(cfg: Config, r: Restacker)
    requires Kept(r.pending, cfg.rebaseBranch) == []
    ensures Step(cfg, r, "").out == r.out + [Blank, Echo("")]
  {
  }

  /**
   * At the first comment line with a remote and updated branches, the push
   * section comes before the directives of the branches still pending: it
   * lists only the branches moved before the comment.
   */
  lemma CommentPushesBeforeFlush(cfg: Config, r: Restacker, line: string)
    requires IsComment(line) && EmitsPush(cfg, r)
    ensures var kept := Names(Kept(r.pending, cfg.rebaseBranch));
      Step(cfg, r, line).out
        == r.out + PushSection(cfg.remote.value, Names(r.updated), false, true)
           + Updates(kept) + (if kept != [] then [Blank] else []) + [Echo(line)]
  {
    FixupIsPlain(line);
    var r2 := WritePushSection(cfg, r, false, true);
    var r3 := FlushUnlessFixup(cfg, r2, line);
    assert r3 == UpdatePreviousBranches(cfg, r2).r;
    assert Kept(r2.pending, cfg.rebaseBranch) == Kept(r.pending, cfg.rebaseBranch);
  }
}
