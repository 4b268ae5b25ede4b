/**
 * The instruction-list rewriter of src/restack.rs.
 *
 * One left-to-right pass over the lines of a rebase todo list. Branches that
 * point at the commit of a `pick`/`reword`/`edit` line become pending; they
 * are flushed as `exec git branch -f <name>` lines just before the next line
 * that is not a `fixup`/`squash`, or at the end of input. A commented-out
 * push section listing every moved branch is written once: at the first
 * comment line, or at the end of input.
 */
module RustRestack {
  import opened Wrappers
  import opened Seqs
  import opened Text
  import opened Instructions
  import opened RustErrors

  /** `git::Branch`: a local branch and the abbreviated hash it points at. */
  datatype Branch = Branch(name: string, shorthash: string)

  /** What a `Restacker` reads but never changes. */
  datatype Config = Config(remote: Option<string>, rebaseBranch: string, branches: seq<Branch>)

  /**
   * The changing fields of `Restacker` (`last_line_branches`,
   * `updated_branches`, `wrote_push`) and everything written to `dst`.
   */
  datatype Restacker = Restacker(pending: seq<Branch>, updated: seq<Branch>, wrotePush: bool, out: seq<Line>)

  const Start: Restacker := Restacker([], [], false, [])

  const PushHeaderText: string := "# Uncomment this section to push changes."

  function Names(bs: seq<Branch>): (ns: seq<string>)
    ensures |ns| == |bs|
    ensures forall i :: 0 <= i < |bs| ==> ns[i] == bs[i].name
  {
    seq(|bs|, i requires 0 <= i < |bs| => bs[i].name)
  }

  lemma NamesAppend(a: seq<Branch>, b: seq<Branch>)
    ensures Names(a + b) == Names(a) + Names(b)
  {
  }

  function CountNamed(bs: seq<Branch>, name: string): nat
    decreases |bs|
  {
    if bs == [] then 0 else (if bs[0].name == name then 1 else 0) + CountNamed(bs[1..], name)
  }

  function CountHash(bs: seq<Branch>, hash: string): nat
    decreases |bs|
  {
    if bs == [] then 0 else (if bs[0].shorthash == hash then 1 else 0) + CountHash(bs[1..], hash)
  }

  /**
   * `kept` is `pending` with exactly the branches named `excluded` taken
   * out, the others kept in their order.
   */
  ghost predicate KeepsAllBut(kept: seq<Branch>, pending: seq<Branch>, excluded: string) {
    && IsSubseq(kept, pending)
    && (forall i :: 0 <= i < |kept| ==> kept[i].name != excluded)
    && (forall b :: b in pending && b.name != excluded ==> b in kept)
    && |kept| == |pending| - CountNamed(pending, excluded)
  }

  /**
   * The branches that the `drain(0..)` loop of `update_previous_branches`
   * writes a directive for: every pending branch except the one being
   * rebased, in pending order.
   */
  function Kept(pending: seq<Branch>, excluded: string): (kept: seq<Branch>)
    ensures KeepsAllBut(kept, pending, excluded)
    decreases |pending|
  {
    if pending == [] then []
    else if pending[0].name == excluded then Kept(pending[1..], excluded)
    else
      var rest := Kept(pending[1..], excluded);
      assert forall b :: b in pending ==> b == pending[0] || b in pending[1..];
      [pending[0]] + rest
  }

  /** The result of `update_previous_branches`: the new state and whether it wrote anything. */
  datatype Flushed = Flushed(r: Restacker, wrote: bool)

  /**
   * `update_previous_branches`: one directive per pending branch other than
   * the branch being rebased (see `Kept`), in pending order, each recorded as
   * updated; then one empty line if any directive was written, which is also
   * what it reports. Pending is empty afterwards.
   */
  function UpdatePreviousBranches(cfg: Config, r: Restacker): (f: Flushed)
    ensures f.r.pending == [] && f.r.wrotePush == r.wrotePush
    ensures f.r.updated == r.updated + Kept(r.pending, cfg.rebaseBranch)
    ensures f.wrote <==> Kept(r.pending, cfg.rebaseBranch) != []
    ensures f.r.out == r.out + Updates(Names(Kept(r.pending, cfg.rebaseBranch))) + (if f.wrote then [Blank] else [])
  {
    var kept := Kept(r.pending, cfg.rebaseBranch);
    var pad := if kept != [] then [Blank] else [];
    Flushed(r.(pending := [], updated := r.updated + kept, out := r.out + Updates(Names(kept)) + pad), kept != [])
  }

  /** Directives for `names` and an optional empty line add exactly `names` to the updates. */
  lemma DirectivesViews(out: seq<Line>, names: seq<string>, pad: bool)
    ensures var out' := out + Updates(names) + (if pad then [Blank] else []);
      && Echoed(out') == Echoed(out)
      && UpdatedNames(out') == UpdatedNames(out) + names
      && PushedNames(out') == PushedNames(out)
      && Headers(out') == Headers(out)
  {
    UpdatesViews(names);
    ViewsAppend(out, Updates(names));
    ViewsAppend(out + Updates(names), if pad then [Blank] else []);
    ViewsOne(Blank);
  }

  /** Flushing adds the kept branches to the updates and touches no other view. */
  lemma FlushViews(cfg: Config, r: Restacker)
    ensures var out' := UpdatePreviousBranches(cfg, r).r.out;
      && Echoed(out') == Echoed(r.out)
      && UpdatedNames(out') == UpdatedNames(r.out) + Names(Kept(r.pending, cfg.rebaseBranch))
      && PushedNames(out') == PushedNames(r.out)
      && Headers(out') == Headers(r.out)
  {
    var kept := Kept(r.pending, cfg.rebaseBranch);
    DirectivesViews(r.out, Names(kept), kept != []);
  }

  /** The header, then one push command per name, in order. */
  function Section(remote: string, names: seq<string>): (ls: seq<Line>)
    ensures |ls| == 1 + |names| && ls[0] == PushHeader(PushHeaderText)
    ensures forall i :: 0 <= i < |names| ==> ls[1 + i] == PushCommand(remote, names[i])
  {
    [PushHeader(PushHeaderText)] + PushCommands(remote, names)
  }

  /** The lines of a push section: the section between two optional empty lines. */
  function PushSection(remote: string, names: seq<string>, padBefore: bool, padAfter: bool): seq<Line> {
    Pad(padBefore) + Section(remote, names) + Pad(padAfter)
  }

  /** A push section has one header, lists exactly `names`, and copies nothing. */
  lemma PushSectionViews(remote: string, names: seq<string>, padBefore: bool, padAfter: bool)
    ensures var block := PushSection(remote, names, padBefore, padAfter);
      && Echoed(block) == [] && UpdatedNames(block) == []
      && PushedNames(block) == names && Headers(block) == 1
  {
    var head := [PushHeader(PushHeaderText)];
    var cmds := PushCommands(remote, names);
    ViewsOne(PushHeader(PushHeaderText));
    PushCommandsViews(remote, names);
    ViewsAppend(head, cmds);
    assert PushedNames(head + cmds) == [] + names == names;
    assert Echoed(head + cmds) == [] && UpdatedNames(head + cmds) == [];
    PaddedViews(Section(remote, names), padBefore, padAfter);
  }

  /** The push section would produce lines: first call, something updated, a remote. */
  predicate EmitsPush(cfg: Config, r: Restacker) {
    !r.wrotePush && r.updated != [] && cfg.remote.Some?
  }

  /**
   * `write_push_section`: only the first call does anything, and it marks
   * the section written even when it writes no line. It writes lines only
   * when some branch was updated and a remote is set, listing every branch
   * updated so far.
   */
  function WritePushSection(cfg: Config, r: Restacker, padBefore: bool, padAfter: bool): (r': Restacker)
    ensures r'.wrotePush && r'.pending == r.pending && r'.updated == r.updated
    ensures r.wrotePush ==> r' == r
    ensures !EmitsPush(cfg, r) ==> r'.out == r.out
    ensures EmitsPush(cfg, r) ==> r'.out == r.out + PushSection(cfg.remote.value, Names(r.updated), padBefore, padAfter)
  {
    if r.wrotePush then r
    else if r.updated == [] || cfg.remote.None? then r.(wrotePush := true)
    else r.(wrotePush := true, out := r.out + PushSection(cfg.remote.value, Names(r.updated), padBefore, padAfter))
  }

  /** Writing the push section copies nothing, moves nothing, and pushes the updated branches once. */
  lemma WritePushSectionViews(cfg: Config, r: Restacker, padBefore: bool, padAfter: bool)
    ensures var r' := WritePushSection(cfg, r, padBefore, padAfter);
      && Echoed(r'.out) == Echoed(r.out) && UpdatedNames(r'.out) == UpdatedNames(r.out)
      && PushedNames(r'.out) == PushedNames(r.out) + (if EmitsPush(cfg, r) then Names(r.updated) else [])
      && Headers(r'.out) == Headers(r.out) + (if EmitsPush(cfg, r) then 1 else 0)
  {
    var out' := WritePushSection(cfg, r, padBefore, padAfter).out;
    if EmitsPush(cfg, r) {
      var block := PushSection(cfg.remote.value, Names(r.updated), padBefore, padAfter);
      assert out' == r.out + block;
      PushSectionViews(cfg.remote.value, Names(r.updated), padBefore, padAfter);
      ViewsAppend(r.out, block);
      assert Echoed(out') == Echoed(r.out) + [] == Echoed(r.out);
      assert UpdatedNames(out') == UpdatedNames(r.out) + [] == UpdatedNames(r.out);
    } else {
      assert out' == r.out;
      assert PushedNames(r.out) + [] == PushedNames(r.out);
    }
  }

  /** The first space-separated piece of a line (`parts.next()`). */
  function Verb(line: string): string {
    SplitN(line, ' ', 3)[0]
  }

  /** The second piece, if the line has a space. */
  function HashToken(line: string): Option<string> {
    var parts := SplitN(line, ' ', 3);
    if |parts| >= 2 then Some(parts[1]) else None
  }

  predicate IsFixupVerb(v: string) {
    v == "f" || v == "fixup" || v == "s" || v == "squash"
  }

  predicate IsPickVerb(v: string) {
    v == "p" || v == "pick" || v == "r" || v == "reword" || v == "e" || v == "edit"
  }

  /** `line.get(0..1) == Some("#")`. */
  predicate IsComment(line: string) {
    |line| > 0 && line[0] == '#'
  }

  /** The hash a line looks up in the branch list, if it looks one up. */
  function PickedHash(line: string): Option<string> {
    if IsPickVerb(Verb(line)) then HashToken(line) else None
  }

  /** A fixup/squash line is neither empty nor a comment. */
  lemma FixupIsPlain(line: string)
    ensures IsFixupVerb(Verb(line)) ==> line != "" && !IsComment(line)
  {
    SplitNHeadIsPrefix(line, ' ', 3);
    if IsFixupVerb(Verb(line)) {
      assert line[0] == Verb(line)[0];
    }
  }

  /**
   * The branches whose abbreviated hash equals `hash` exactly, in branch
   * list order (`filter(|b| b.shorthash == hash)`).
   */
  function Matching(branches: seq<Branch>, hash: string): (m: seq<Branch>)
    ensures IsSubseq(m, branches)
    ensures forall i :: 0 <= i < |m| ==> m[i].shorthash == hash
    ensures forall b :: b in branches && b.shorthash == hash ==> b in m
    ensures |m| == CountHash(branches, hash)
    decreases |branches|
  {
    if branches == [] then []
    else if branches[0].shorthash == hash then
      var rest := Matching(branches[1..], hash);
      assert forall b :: b in branches ==> b == branches[0] || b in branches[1..];
      [branches[0]] + rest
    else Matching(branches[1..], hash)
  }

  /** Lines 35-45: an empty line flushes, and is re-added if nothing was flushed. */
  function EmptyLine(cfg: Config, r: Restacker): (r': Restacker)
    ensures r'.pending == [] && r'.wrotePush == r.wrotePush
    ensures r'.updated == r.updated + Kept(r.pending, cfg.rebaseBranch)
    ensures r'.out == r.out + Updates(Names(Kept(r.pending, cfg.rebaseBranch))) + [Blank]
  {
    var f := UpdatePreviousBranches(cfg, r);
    if f.wrote then f.r else f.r.(out := f.r.out + [Blank])
  }

  /** Lines 55-66: every line except a fixup/squash flushes pending branches. */
  function FlushUnlessFixup(cfg: Config, r: Restacker, line: string): (r': Restacker)
    ensures IsFixupVerb(Verb(line)) ==> r' == r
    ensures !IsFixupVerb(Verb(line)) ==>
      var kept := Kept(r.pending, cfg.rebaseBranch);
      && r'.pending == [] && r'.wrotePush == r.wrotePush
      && r'.updated == r.updated + kept
      && r'.out == r.out + Updates(Names(kept)) + Pad(kept != [])
  {
    if IsFixupVerb(Verb(line)) then r else UpdatePreviousBranches(cfg, r).r
  }

  /** Lines 69-85: copy the line, then collect the branches of its commit. */
  function CopyAndCollect(cfg: Config, r: Restacker, line: string): (r': Restacker)
    ensures r'.out == r.out + [Echo(line)]
    ensures r'.updated == r.updated && r'.wrotePush == r.wrotePush
    ensures PickedHash(line).Some? ==> r'.pending == r.pending + Matching(cfg.branches, PickedHash(line).value)
    ensures PickedHash(line).None? ==> r'.pending == r.pending
  {
    var copied := r.(out := r.out + [Echo(line)]);
    match PickedHash(line)
    case None => copied
    case Some(hash) => copied.(pending := copied.pending + Matching(cfg.branches, hash))
  }

  /** A pick/reword/edit line is not a fixup/squash line. */
  lemma PickIsNotFixup(line: string)
    ensures PickedHash(line).Some? ==> !IsFixupVerb(Verb(line))
  {
  }

  /** One iteration of the `for line in src.lines()` loop. */
  function Step(cfg: Config, r: Restacker, line: string): (r': Restacker)
  {
    var r1 := if line == "" then EmptyLine(cfg, r) else r;
    var r2 := if IsComment(line) then WritePushSection(cfg, r1, false, true) else r1;
    CopyAndCollect(cfg, FlushUnlessFixup(cfg, r2, line), line)
  }

  lemma EmptyLineExtends(cfg: Config, r: Restacker)
    ensures IsPrefix(r.out, EmptyLine(cfg, r).out)
  {
    var k := Kept(r.pending, cfg.rebaseBranch);
    PrefixExtend(r.out, r.out, Updates(Names(k)) + [Blank]);
    assert r.out + Updates(Names(k)) + [Blank] == r.out + (Updates(Names(k)) + [Blank]);
  }

  lemma WritePushSectionExtends(cfg: Config, r: Restacker, padBefore: bool, padAfter: bool)
    ensures IsPrefix(r.out, WritePushSection(cfg, r, padBefore, padAfter).out)
  {
    if EmitsPush(cfg, r) {
      PrefixExtend(r.out, r.out, PushSection(cfg.remote.value, Names(r.updated), padBefore, padAfter));
    }
  }

  lemma FlushExtends(cfg: Config, r: Restacker, line: string)
    ensures IsPrefix(r.out, FlushUnlessFixup(cfg, r, line).out)
  {
    var k := Kept(r.pending, cfg.rebaseBranch);
    var pad := if k != [] then [Blank] else [];
    PrefixExtend(r.out, r.out, Updates(Names(k)) + pad);
    assert r.out + Updates(Names(k)) + pad == r.out + (Updates(Names(k)) + pad);
  }

  /** The line is written verbatim, once, after anything it triggers. */
  lemma StepAppends(cfg: Config, r: Restacker, line: string)
    ensures var out' := Step(cfg, r, line).out;
      |r.out| < |out'| && IsPrefix(r.out, out') && out'[|out'| - 1] == Echo(line)
  {
    var r1 := if line == "" then EmptyLine(cfg, r) else r;
    var r2 := if IsComment(line) then WritePushSection(cfg, r1, false, true) else r1;
    var r3 := FlushUnlessFixup(cfg, r2, line);
    EmptyLineExtends(cfg, r);
    WritePushSectionExtends(cfg, r1, false, true);
    FlushExtends(cfg, r2, line);
    PrefixTransitive(r.out, r1.out, r2.out);
    PrefixTransitive(r.out, r2.out, r3.out);
    assert Step(cfg, r, line).out == r3.out + [Echo(line)];
    PrefixExtend(r.out, r3.out, [Echo(line)]);
  }

  /**
   * What a step does to the branch bookkeeping: fixup/squash lines never
   * flush and every other line flushes first; only pick/reword/edit lines
   * with a hash collect branches, replacing the flushed ones; the push
   * section is marked written at the first comment line.
   */
  lemma StepState(cfg: Config, r: Restacker, line: string)
    ensures var r' := Step(cfg, r, line);
      && (IsFixupVerb(Verb(line)) ==> r'.updated == r.updated)
      && (!IsFixupVerb(Verb(line)) ==> r'.updated == r.updated + Kept(r.pending, cfg.rebaseBranch))
      && (PickedHash(line).Some? ==> r'.pending == Matching(cfg.branches, PickedHash(line).value))
      && (PickedHash(line).None? ==> r'.pending == (if IsFixupVerb(Verb(line)) then r.pending else []))
      && r'.wrotePush == (r.wrotePush || IsComment(line))
  {
    FixupIsPlain(line);
    PickIsNotFixup(line);
    if line == "" {
      var r1 := EmptyLine(cfg, r);
      assert Kept(r1.pending, cfg.rebaseBranch) == [];
    }
  }

  /** The empty-line stage adds the kept branches to the updates and touches no other view. */
  lemma EmptyLineViews(cfg: Config, r: Restacker)
    ensures var out' := EmptyLine(cfg, r).out;
      && Echoed(out') == Echoed(r.out)
      && UpdatedNames(out') == UpdatedNames(r.out) + Names(Kept(r.pending, cfg.rebaseBranch))
      && PushedNames(out') == PushedNames(r.out)
      && Headers(out') == Headers(r.out)
  {
    var kept := Kept(r.pending, cfg.rebaseBranch);
    DirectivesViews(r.out, Names(kept), true);
  }

  /** What one step adds to each view of the output. */
  ghost predicate StepViewsHold(cfg: Config, r: Restacker, line: string) {
    var r' := Step(cfg, r, line);
    var emits := IsComment(line) && EmitsPush(cfg, r);
    && |r.updated| <= |r'.updated|
    && Echoed(r'.out) == Echoed(r.out) + [line]
    && UpdatedNames(r'.out) == UpdatedNames(r.out) + Names(r'.updated[|r.updated|..])
    && PushedNames(r'.out) == PushedNames(r.out) + (if emits then Names(r.updated) else [])
    && Headers(r'.out) == Headers(r.out) + (if emits then 1 else 0)
  }

  /** An empty line ends the group and is copied; its own flush finds nothing pending. */
  lemma EmptyStep(cfg: Config, r: Restacker)
    ensures var r1 := EmptyLine(cfg, r);
      && Step(cfg, r, "").out == r1.out + [Echo("")]
      && Step(cfg, r, "").updated == r1.updated
  {
    FixupIsPlain("");
    var r1 := EmptyLine(cfg, r);
    var f := UpdatePreviousBranches(cfg, r1);
    assert Kept(r1.pending, cfg.rebaseBranch) == [];
    assert f.r.out == r1.out && f.r.updated == r1.updated;
  }

  lemma StepViewsEmpty(cfg: Config, r: Restacker)
    ensures StepViewsHold(cfg, r, "")
  {
    var r1 := EmptyLine(cfg, r);
    var r' := Step(cfg, r, "");
    EmptyStep(cfg, r);
    ViewsSnoc(r1.out, Echo(""));
    EmptyLineViews(cfg, r);
    var k := Kept(r.pending, cfg.rebaseBranch);
    assert r'.updated == r.updated + k;
    assert r'.updated[|r.updated|..] == k;
  }

  lemma StepViewsFixup(cfg: Config, r: Restacker, line: string)
    requires IsFixupVerb(Verb(line))
    ensures StepViewsHold(cfg, r, line)
  {
    FixupIsPlain(line);
    var r' := CopyAndCollect(cfg, r, line);
    assert r' == Step(cfg, r, line);
    ViewsSnoc(r.out, Echo(line));
    assert r'.updated[|r.updated|..] == [];
  }

  lemma StepViewsOther(cfg: Config, r: Restacker, line: string)
    requires line != "" && !IsFixupVerb(Verb(line))
    ensures StepViewsHold(cfg, r, line)
  {
    var r2 := if IsComment(line) then WritePushSection(cfg, r, false, true) else r;
    var r3 := UpdatePreviousBranches(cfg, r2).r;
    var r' := CopyAndCollect(cfg, r3, line);
    assert r' == Step(cfg, r, line);
    ViewsSnoc(r3.out, Echo(line));
    if IsComment(line) {
      WritePushSectionViews(cfg, r, false, true);
    }
    FlushViews(cfg, r2);
    var k := Kept(r.pending, cfg.rebaseBranch);
    assert r2.pending == r.pending && r2.updated == r.updated;
    assert r'.updated == r.updated + k;
    assert r'.updated[|r.updated|..] == k;
  }

  lemma StepViews(cfg: Config, r: Restacker, line: string)
    ensures var r' := Step(cfg, r, line);
      var emits := IsComment(line) && EmitsPush(cfg, r);
      && |r.updated| <= |r'.updated|
      && Echoed(r'.out) == Echoed(r.out) + [line]
      && UpdatedNames(r'.out) == UpdatedNames(r.out) + Names(r'.updated[|r.updated|..])
      && PushedNames(r'.out) == PushedNames(r.out) + (if emits then Names(r.updated) else [])
      && Headers(r'.out) == Headers(r.out) + (if emits then 1 else 0)
  {
    if line == "" {
      StepViewsEmpty(cfg, r);
    } else if IsFixupVerb(Verb(line)) {
      StepViewsFixup(cfg, r, line);
    } else {
      StepViewsOther(cfg, r, line);
    }
  }

  /** The state after the loop has consumed `lines`. */
  function Run(cfg: Config, lines: seq<string>): Restacker
    decreases |lines|
  {
    if lines == [] then Start else Step(cfg, Run(cfg, lines[..|lines| - 1]), lines[|lines| - 1])
  }

  /** Lines 88-89: the final flush, then the push section with a leading empty line. */
  function Finish(cfg: Config, r: Restacker): Restacker {
    WritePushSection(cfg, UpdatePreviousBranches(cfg, r).r, true, false)
  }

  /** The rewritten instruction list for `input`. */
  function RestackLines(cfg: Config, input: seq<string>): seq<Line> {
    Finish(cfg, Run(cfg, input)).out
  }

  /**
   * `restack`: the working directory, then the rebase head name and the
   * branch list, which git reports for that directory (a failure of any of
   * them is reported, with context, before anything is written); the remote
   * name is always passed on as `Some`.
   */
  function Restack(remoteName: string, cwd: Result<string, Error>, rebaseHead: Result<string, Error>,
                   branches: Result<seq<Branch>, Error>, input: seq<string>): (res: Result<seq<string>, Error>)
    ensures cwd.Err? ==> res == Err(WithContext(cwd.error, "determine working directory"))
    ensures cwd.Ok? && rebaseHead.Err? ==> res == Err(WithContext(rebaseHead.error, "determine the rebase head"))
    ensures cwd.Ok? && rebaseHead.Ok? && branches.Err? ==> res == Err(WithContext(branches.error, "list branches"))
    ensures cwd.Ok? && rebaseHead.Ok? && branches.Ok? ==> res.Ok?
  {
    if cwd.Err? then Err(WithContext(cwd.error, "determine working directory"))
    else if rebaseHead.Err? then Err(WithContext(rebaseHead.error, "determine the rebase head"))
    else if branches.Err? then Err(WithContext(branches.error, "list branches"))
    else
      var cfg := Config(Some(remoteName), rebaseHead.value, branches.value);
      Ok(RenderAll(RestackLines(cfg, input)))
  }
}
