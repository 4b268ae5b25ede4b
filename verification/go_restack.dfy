/**
 * The instruction-list rewriter of restack.go (`GitRestacker.Restack`).
 *
 * One left-to-right pass. Right after every `pick ` line whose commit is
 * known, one `exec git branch -f <name>` per branch at that commit (except
 * the branch being rebased) and an empty line. At every empty input line, a
 * commented-out push section for every branch moved so far; at the end of
 * input, one only if no empty line was seen.
 */
module GoRestack {
  import opened Wrappers
  import opened Seqs
  import opened Text
  import opened Instructions

  /**
   * What the rewriter reads but never changes: the remote (empty when none
   * was given), the branch being rebased, and the refs known for each
   * abbreviated commit hash.
   */
  datatype Config = Config(remote: string, rebasing: string, known: map<string, seq<string>>)

  /** The loop's variables `branches` and `wrotePushSection`, and everything written to `dst`. */
  datatype State = State(branches: seq<string>, wrote: bool, out: seq<Line>)

  const Start: State := State([], false, [])

  /** `_pushSectionPrefix` without its leading newline, which is the empty line before it. */
  const PushHeaderText: string := "# Uncomment this section to push the changes."

  const HeadsPrefix: string := "refs/heads/"

  /** `writePushSection`: nothing without branches or without a remote. */
  function PushSection(remote: string, branches: seq<string>): (block: seq<Line>)
    ensures branches == [] || remote == [] ==> block == []
    ensures branches != [] && remote != [] ==>
      && |block| == 2 + |branches|
      && block[0] == Blank && block[1] == PushHeader(PushHeaderText)
      && forall i :: 0 <= i < |branches| ==> block[2 + i] == PushCommand(remote, branches[i])
  {
    if |branches| == 0 || |remote| == 0 then [] else [Blank, PushHeader(PushHeaderText)] + PushCommands(remote, branches)
  }

  lemma PushSectionViews(remote: string, branches: seq<string>)
    ensures var block := PushSection(remote, branches);
      var emits := branches != [] && remote != [];
      && Echoed(block) == [] && UpdatedNames(block) == []
      && PushedNames(block) == (if emits then branches else [])
      && Headers(block) == (if emits then 1 else 0)
  {
    assert Echoed([]) == [] && UpdatedNames([]) == [] && PushedNames([]) == [] && Headers([]) == 0;
    if branches != [] && remote != [] {
      PushCommandsViews(remote, branches);
      ViewsOne(Blank);
      ViewsOne(PushHeader(PushHeaderText));
      var head := [Blank, PushHeader(PushHeaderText)];
      assert head == [Blank] + [PushHeader(PushHeaderText)];
      ViewsAppend([Blank], [PushHeader(PushHeaderText)]);
      ViewsAppend(head, PushCommands(remote, branches));
      assert PushSection(remote, branches) == head + PushCommands(remote, branches);
    }
  }

  /** A ref with a leading `refs/heads/` removed. */
  function ShortName(ref: string): string {
    TrimPrefix(ref, HeadsPrefix)
  }

  function ShortNames(refs: seq<string>): (ns: seq<string>)
    ensures |ns| == |refs| && forall i :: 0 <= i < |refs| ==> ns[i] == ShortName(refs[i])
  {
    seq(|refs|, i requires 0 <= i < |refs| => ShortName(refs[i]))
  }

  /**
   * The branches the inner loop writes a directive for: the refs at the
   * commit with `refs/heads/` trimmed, in order, skipping the branch being
   * rebased.
   */
  function Moved(refs: seq<string>, rebasing: string): (names: seq<string>)
    ensures IsSubseq(names, ShortNames(refs))
    ensures forall i :: 0 <= i < |names| ==> names[i] != rebasing
    ensures forall i :: 0 <= i < |refs| && ShortName(refs[i]) != rebasing ==> ShortName(refs[i]) in names
    // Only the rebasing branch is dropped, as often as it occurs.
    ensures |names| == |refs| - Count(ShortNames(refs), rebasing)
    decreases |refs|
  {
    if refs == [] then []
    else
      var rest := Moved(refs[1..], rebasing);
      assert ShortNames(refs) == [ShortName(refs[0])] + ShortNames(refs[1..]);
      assert ShortNames(refs)[1..] == ShortNames(refs[1..]);
      assert forall i :: 1 <= i < |refs| ==> refs[i] == refs[1..][i - 1];
      if ShortName(refs[0]) == rebasing then
        SubseqSkipPrefix(rest, [ShortName(refs[0])], ShortNames(refs[1..]));
        rest
      else
        [ShortName(refs[0])] + rest
  }

  /** The key the line looks up, for a line starting with `pick `. */
  function PickKey(line: string): Option<string> {
    if !HasPrefix(line, "pick ") then None
    else
      var parts := SplitN(line, ' ', 3);
      if |parts| < 2 then None else Some(parts[1])
  }

  /** The branches a line moves on its own: empty unless its commit is known. */
  function LineMoves(cfg: Config, line: string): seq<string> {
    match PickKey(line)
    case None => []
    case Some(key) => if key in cfg.known then Moved(cfg.known[key], cfg.rebasing) else []
  }

  /** One iteration of the `for scanner.Scan()` loop. */
  function Step(cfg: Config, s: State, line: string): (s': State)
    ensures s'.branches == s.branches + LineMoves(cfg, line)
    ensures s'.wrote == (s.wrote || line == "")
    // The push section (if any) comes first, then the line, then its directives.
    ensures var moved := LineMoves(cfg, line);
      s'.out == s.out + (if line == "" then PushSection(cfg.remote, s.branches) else [])
        + [Echo(line)] + Updates(moved) + Pad(moved != [])
  {
    var push := if line == "" then PushSection(cfg.remote, s.branches) else [];
    var s2 := s.(out := s.out + push + [Echo(line)], wrote := s.wrote || line == "");
    var moved := LineMoves(cfg, line);
    s2.(out := s2.out + Updates(moved) + Pad(moved != []), branches := s2.branches + moved)
  }

  /**
   * `out'` is `out` followed by `push`, then `e`, then one directive per
   * name of `moved`, then an empty line exactly when `moved` is not empty.
   */
  ghost predicate Placed(out: seq<Line>, push: seq<Line>, e: Line, moved: seq<string>, out': seq<Line>) {
    var i := |out'| - |moved| - (if moved != [] then 1 else 0) - 1;
    && |out| <= i && IsPrefix(out, out')
    && out'[i] == e
    && out'[|out|..i] == push
    && (forall k :: 0 <= k < |moved| ==> out'[i + 1 + k] == BranchUpdate(moved[k]))
    && (moved != [] ==> out'[|out'| - 1] == Blank)
  }

  lemma Placement(out: seq<Line>, push: seq<Line>, e: Line, moved: seq<string>, upd: seq<Line>, pad: seq<Line>)
    requires |upd| == |moved| && forall k :: 0 <= k < |moved| ==> upd[k] == BranchUpdate(moved[k])
    requires pad == (if moved != [] then [Blank] else [])
    ensures Placed(out, push, e, moved, out + push + [e] + upd + pad)
  {
    var tail := upd + pad;
    var out' := out + push + [e] + upd + pad;
    assert out' == out + push + [e] + tail;
    ConcatParts(out, push, e, tail);
    var i := |out| + |push|;
    assert |tail| == |moved| + (if moved != [] then 1 else 0);
    assert i == |out'| - |moved| - (if moved != [] then 1 else 0) - 1;
    assert out'[i + 1..] == tail;
    forall k | 0 <= k < |moved| ensures out'[i + 1 + k] == BranchUpdate(moved[k]) {
      assert out'[i + 1 + k] == tail[k] == upd[k];
    }
    if moved != [] {
      assert out'[|out'| - 1] == tail[|tail| - 1] == Blank;
    }
  }

  /**
   * Where one iteration writes: after the old output, the push section (at
   * an empty line only), then the line itself, then one directive per moved
   * branch, and a final empty line exactly when a directive was written.
   */
  lemma StepOrder(cfg: Config, s: State, line: string)
    ensures Placed(s.out, if line == "" then PushSection(cfg.remote, s.branches) else [], Echo(line),
                   LineMoves(cfg, line), Step(cfg, s, line).out)
  {
    var moved := LineMoves(cfg, line);
    var push := if line == "" then PushSection(cfg.remote, s.branches) else [];
    Placement(s.out, push, Echo(line), moved, Updates(moved), Pad(moved != []));
  }

  function Run(cfg: Config, lines: seq<string>): State
    decreases |lines|
  {
    if lines == [] then Start else Step(cfg, Run(cfg, lines[..|lines| - 1]), lines[|lines| - 1])
  }

  /** Lines 112-116: a push section at the end only if none was written at an empty line. */
  function Finish(cfg: Config, s: State): State {
    if s.wrote then s else s.(out := s.out + PushSection(cfg.remote, s.branches))
  }

  /** The rewritten instruction list, given the branch being rebased and the known refs. */
  function RestackLines(cfg: Config, input: seq<string>): seq<Line> {
    Finish(cfg, Run(cfg, input)).out
  }

  /**
   * `Restack`: a failure to find the branch being rebased or to list the
   * refs is returned before anything is written.
   */
  function Restack<E>(remote: string, rebasing: Result<string, E>, known: Result<map<string, seq<string>>, E>,
                      input: seq<string>): (res: Result<seq<string>, E>)
    ensures rebasing.Err? ==> res == Err(rebasing.error)
    ensures rebasing.Ok? && known.Err? ==> res == Err(known.error)
    ensures rebasing.Ok? && known.Ok? ==> res.Ok?
  {
    if rebasing.Err? then Err(rebasing.error)
    else if known.Err? then Err(known.error)
    else Ok(RenderAll(RestackLines(Config(remote, rebasing.value, known.value), input)))
  }
}
