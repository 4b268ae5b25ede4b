/**
 * Lines of a rewritten rebase instruction list, tagged by who wrote them.
 *
 * Both restack engines copy every input line and add lines of their own;
 * keeping the two apart lets the properties of the rewrite be stated over
 * the copied lines, the branch updates and the push section separately.
 * `Render` gives the text each line is written as (every line is followed by
 * a newline in the output file).
 */
module Instructions {
  import opened Seqs

  datatype Line =
    | Echo(text: string)                          // an input line, copied verbatim
    | Blank                                       // an empty line the rewriter adds
    | BranchUpdate(name: string)                  // exec git branch -f <name>
    | PushHeader(text: string)                    // the comment opening the push section
    | PushCommand(remote: string, name: string)   // # exec git push -f <remote> <name>

  function Render(l: Line): string {
    match l
    case Echo(t) => t
    case Blank => ""
    case BranchUpdate(n) => "exec git branch -f " + n
    case PushHeader(t) => t
    case PushCommand(r, n) => "# exec git push -f " + r + " " + n
  }

  function RenderAll(ls: seq<Line>): seq<string> {
    FlatMap(ls, RenderOne)
  }

  function RenderOne(l: Line): seq<string> {
    [Render(l)]
  }

  function EchoOf(l: Line): seq<string> {
    if l.Echo? then [l.text] else []
  }

  function UpdateOf(l: Line): seq<string> {
    if l.BranchUpdate? then [l.name] else []
  }

  function PushOf(l: Line): seq<string> {
    if l.PushCommand? then [l.name] else []
  }

  function HeaderOf(l: Line): seq<string> {
    if l.PushHeader? then [l.text] else []
  }

  /** The copied input lines, in output order. */
  function Echoed(ls: seq<Line>): seq<string> {
    FlatMap(ls, EchoOf)
  }

  /** The branches moved by `exec git branch -f`, in output order. */
  function UpdatedNames(ls: seq<Line>): seq<string> {
    FlatMap(ls, UpdateOf)
  }

  /** The branches listed in push commands, in output order. */
  function PushedNames(ls: seq<Line>): seq<string> {
    FlatMap(ls, PushOf)
  }

  /** The number of push-section headers. */
  function Headers(ls: seq<Line>): nat {
    |FlatMap(ls, HeaderOf)|
  }

  /** All four views distribute over concatenation. */
  lemma ViewsAppend(a: seq<Line>, b: seq<Line>)
    ensures Echoed(a + b) == Echoed(a) + Echoed(b)
    ensures UpdatedNames(a + b) == UpdatedNames(a) + UpdatedNames(b)
    ensures PushedNames(a + b) == PushedNames(a) + PushedNames(b)
    ensures Headers(a + b) == Headers(a) + Headers(b)
    ensures RenderAll(a + b) == RenderAll(a) + RenderAll(b)
  {
    FlatMapAppend(a, b, EchoOf);
    FlatMapAppend(a, b, UpdateOf);
    FlatMapAppend(a, b, PushOf);
    FlatMapAppend(a, b, HeaderOf);
    FlatMapAppend(a, b, RenderOne);
  }

  /** What the views see of a single line. */
  lemma ViewsOne(l: Line)
    ensures Echoed([l]) == EchoOf(l)
    ensures UpdatedNames([l]) == UpdateOf(l)
    ensures PushedNames([l]) == PushOf(l)
    ensures Headers([l]) == |HeaderOf(l)|
    ensures RenderAll([l]) == [Render(l)]
  {
    FlatMapSingle(l, EchoOf);
    FlatMapSingle(l, UpdateOf);
    FlatMapSingle(l, PushOf);
    FlatMapSingle(l, HeaderOf);
    FlatMapSingle(l, RenderOne);
  }

  /** Appending one line extends every view by what that line contributes. */
  lemma ViewsSnoc(a: seq<Line>, l: Line)
    ensures Echoed(a + [l]) == Echoed(a) + EchoOf(l)
    ensures UpdatedNames(a + [l]) == UpdatedNames(a) + UpdateOf(l)
    ensures PushedNames(a + [l]) == PushedNames(a) + PushOf(l)
    ensures Headers(a + [l]) == Headers(a) + |HeaderOf(l)|
    ensures RenderAll(a + [l]) == RenderAll(a) + [Render(l)]
  {
    ViewsAppend(a, [l]);
    ViewsOne(l);
  }

  /** An optional empty line. */
  function Pad(pad: bool): (ls: seq<Line>)
    ensures |ls| == (if pad then 1 else 0) && forall i :: 0 <= i < |ls| ==> ls[i] == Blank
  {
    if pad then [Blank] else []
  }

  /** An optional empty line shows in no view. */
  lemma PadViews(pad: bool)
    ensures Echoed(Pad(pad)) == [] && UpdatedNames(Pad(pad)) == [] && PushedNames(Pad(pad)) == [] && Headers(Pad(pad)) == 0
  {
    ViewsOne(Blank);
  }

  /** Optional empty lines around `mid` show in no view. */
  lemma PaddedViews(mid: seq<Line>, padBefore: bool, padAfter: bool)
    ensures var ls := Pad(padBefore) + mid + Pad(padAfter);
      && Echoed(ls) == Echoed(mid) && UpdatedNames(ls) == UpdatedNames(mid)
      && PushedNames(ls) == PushedNames(mid) && Headers(ls) == Headers(mid)
  {
    var before := Pad(padBefore);
    var after := Pad(padAfter);
    PadViews(padBefore);
    PadViews(padAfter);
    ViewsAppend(before, mid);
    ViewsAppend(before + mid, after);
    assert Echoed(before + mid) == [] + Echoed(mid) == Echoed(mid);
    assert UpdatedNames(before + mid) == [] + UpdatedNames(mid) == UpdatedNames(mid);
    assert PushedNames(before + mid) == [] + PushedNames(mid) == PushedNames(mid);
    assert Echoed(before + mid + after) == Echoed(mid) + [] == Echoed(mid);
    assert UpdatedNames(before + mid + after) == UpdatedNames(mid) + [] == UpdatedNames(mid);
    assert PushedNames(before + mid + after) == PushedNames(mid) + [] == PushedNames(mid);
  }

  /** The branch updates for `names`, one line each, in order. */
  function Updates(names: seq<string>): (ls: seq<Line>)
    ensures |ls| == |names|
    ensures forall i :: 0 <= i < |names| ==> ls[i] == BranchUpdate(names[i])
  {
    if names == [] then [] else Updates(names[..|names| - 1]) + [BranchUpdate(names[|names| - 1])]
  }

  /** The push commands for `names`, one line each, in order. */
  function PushCommands(remote: string, names: seq<string>): (ls: seq<Line>)
    ensures |ls| == |names|
    ensures forall i :: 0 <= i < |names| ==> ls[i] == PushCommand(remote, names[i])
  {
    if names == [] then [] else PushCommands(remote, names[..|names| - 1]) + [PushCommand(remote, names[|names| - 1])]
  }

  /** A run of lines that are neither copies nor push lines, naming `names`. */
  lemma {:induction false} UpdatesViews(names: seq<string>)
    ensures Echoed(Updates(names)) == []
    ensures UpdatedNames(Updates(names)) == names
    ensures PushedNames(Updates(names)) == []
    ensures Headers(Updates(names)) == 0
    decreases |names|
  {
    if names != [] {
      var init := names[..|names| - 1];
      UpdatesViews(init);
      ViewsSnoc(Updates(init), BranchUpdate(names[|names| - 1]));
    }
  }

  lemma {:induction false} PushCommandsViews(remote: string, names: seq<string>)
    ensures Echoed(PushCommands(remote, names)) == []
    ensures UpdatedNames(PushCommands(remote, names)) == []
    ensures PushedNames(PushCommands(remote, names)) == names
    ensures Headers(PushCommands(remote, names)) == 0
    decreases |names|
  {
    if names != [] {
      var init := names[..|names| - 1];
      PushCommandsViews(remote, init);
      ViewsSnoc(PushCommands(remote, init), PushCommand(remote, names[|names| - 1]));
    }
  }

  /** The copied lines appear, in order, in the rendered text. */
  lemma {:induction false} EchoedIsSubseqOfRendered(ls: seq<Line>)
    ensures IsSubseq(Echoed(ls), RenderAll(ls))
    decreases |ls|
  {
    if ls != [] {
      var init := ls[..|ls| - 1];
      var l := ls[|ls| - 1];
      assert ls == init + [l];
      EchoedIsSubseqOfRendered(init);
      ViewsSnoc(init, l);
      if l.Echo? {
        SubseqRefl([l.text]);
      }
      SubseqConcat(Echoed(init), RenderAll(init), EchoOf(l), [Render(l)]);
    }
  }

  /** Every line copied, nothing added. */
  function Echoes(input: seq<string>): (ls: seq<Line>)
    ensures |ls| == |input| && forall i :: 0 <= i < |input| ==> ls[i] == Echo(input[i])
  {
    seq(|input|, i requires 0 <= i < |input| => Echo(input[i]))
  }

  lemma EchoesSnoc(input: seq<string>)
    requires input != []
    ensures Echoes(input) == Echoes(input[..|input| - 1]) + [Echo(input[|input| - 1])]
  {
  }

  /** Copying every line renders the input back. */
  lemma {:induction false} RenderEchoes(input: seq<string>)
    ensures RenderAll(Echoes(input)) == input
    decreases |input|
  {
    if input != [] {
      var init := input[..|input| - 1];
      RenderEchoes(init);
      EchoesSnoc(input);
      ViewsSnoc(Echoes(init), Echo(input[|input| - 1]));
    }
  }
}
