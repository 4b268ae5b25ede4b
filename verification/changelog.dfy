/**
 * The release-notes extractor of scripts/extract_changelog.go: it finds the
 * section of CHANGELOG.md for one version and prints its body.
 *
 * A section starts with a line `<version> <anything>`, underlined by a line
 * of dashes; its body runs from the first non-empty line after the
 * underline until a line starting with `v` that follows a content line, or
 * two empty lines in a row, or the end of the file. Single empty lines
 * inside the body are reproduced.
 */
module Changelog {
  import opened Wrappers
  import opened Seqs
  import opened Text

  /** The states of `run`, numbered as in the source (`state` starts at 0). */
  datatype State = Searching | FoundVersionNumber | FoundHeader | Printing | FoundEmptyLine

  function Rank(s: State): nat {
    match s
    case Searching => 0
    case FoundVersionNumber => 1
    case FoundHeader => 2
    case Printing => 3
    case FoundEmptyLine => 4
  }

  /**
   * What `run` writes: a line to `out`, or the empty line `fmt.Println`
   * writes to standard output (which is also `out` when run as a program).
   */
  datatype Event = Out(line: string) | Blank

  datatype ChangelogError =
    | UnexpectedAfterVersion(line: string)
    | VersionNotFound(version: string)

  datatype Outcome = Outcome(events: seq<Event>, err: Option<ChangelogError>)

  /** One line's effect: go on in a state, or return (nil or an error). */
  datatype Step = Next(state: State, written: seq<Event>) | Stop(err: Option<ChangelogError>)

  predicate IsVersionLine(version: string, line: string) {
    HasPrefix(line, version + " ")
  }

  predicate IsDash(c: char) {
    c == '-'
  }

  predicate AllDashes(line: string) {
    forall k :: 0 <= k < |line| ==> line[k] == '-'
  }

  /** `strings.Trim(line, "-") == ""` holds exactly for lines made of dashes, the empty line included. */
  lemma TrimDashesEmpty(line: string)
    ensures TrimBy(line, IsDash) == [] <==> AllDashes(line)
  {
    TrimByEmpty(line, IsDash);
  }

  /** The printing state's handling of a line, which `foundHeader` falls through to. */
  function PrintLine(line: string): Step {
    if HasPrefix(line, "v") then Stop(None)
    else if line == "" then Next(FoundEmptyLine, [])
    else Next(Printing, [Out(line)])
  }

  /** One pass of the loop body. */
  function StepLine(version: string, st: State, line: string): (s: Step)
    ensures s.Stop? && s.err.Some? ==> st == FoundVersionNumber && !AllDashes(line)
    ensures s.Next? ==> Rank(st) <= Rank(s.state) || (st == FoundEmptyLine && s.state == Printing)
    ensures s.Next? && Rank(st) < Rank(Printing) && s.written != [] ==> st == FoundHeader
    ensures s.Next? ==> s.written == [] || (line != "" && (s.written == [Out(line)] || s.written == [Blank, Out(line)]))
    // The section ends at a line starting with `v` met while printing, or at a second empty line.
    ensures (st == Printing || (st == FoundHeader && line != "")) && HasPrefix(line, "v") ==> s == Stop(None)
    ensures st == FoundEmptyLine && line == "" ==> s == Stop(None)
    // Any other non-empty line met while printing is printed as it is.
    ensures (st == Printing || st == FoundHeader) && line != "" && !HasPrefix(line, "v") ==> s == Next(Printing, [Out(line)])
  {
    match st
    case Searching => Next(if IsVersionLine(version, line) then FoundVersionNumber else Searching, [])
    // `strings.Trim(line, "-") == ""`, which TrimDashesEmpty shows is `AllDashes(line)`.
    case FoundVersionNumber => if AllDashes(line) then Next(FoundHeader, []) else Stop(Some(UnexpectedAfterVersion(line)))
    case FoundHeader => if line == "" then Next(FoundHeader, []) else PrintLine(line)
    case Printing => PrintLine(line)
    case FoundEmptyLine => if line == "" then Stop(None) else Next(Printing, [Blank, Out(line)])
  }

  /** The loop from state `st` over the remaining lines, then the check at the end of the file. */
  function Extract(version: string, st: State, lines: seq<string>): (o: Outcome)
    decreases |lines|
  {
    if lines == [] then
      Outcome([], if Rank(st) < Rank(Printing) then Some(VersionNotFound(version)) else None)
    else
      match StepLine(version, st, lines[0])
      case Stop(err) => Outcome([], err)
      case Next(st', written) =>
        var rest := Extract(version, st', lines[1..]);
        Outcome(written + rest.events, rest.err)
  }

  /** One line that moves on: its output comes before the rest of the run's. */
  lemma ExtractNext(version: string, st: State, lines: seq<string>, st': State, written: seq<Event>)
    requires lines != [] && StepLine(version, st, lines[0]) == Next(st', written)
    ensures Extract(version, st, lines).events == written + Extract(version, st', lines[1..]).events
    ensures Extract(version, st, lines).err == Extract(version, st', lines[1..]).err
  {
  }

  /** One line that returns: nothing more is written. */
  lemma ExtractStop(version: string, st: State, lines: seq<string>, err: Option<ChangelogError>)
    requires lines != [] && StepLine(version, st, lines[0]) == Stop(err)
    ensures Extract(version, st, lines) == Outcome([], err)
  {
  }

  /** `run` on the lines of CHANGELOG.md. */
  function Run(version: string, lines: seq<string>): (o: Outcome) {
    Extract(version, Searching, lines)
  }

  /** The lines as they appear on standard output. */
  function Render(events: seq<Event>): (text: seq<string>)
    ensures |text| == |events|
    ensures forall k :: 0 <= k < |events| ==> text[k] == (if events[k].Out? then events[k].line else "")
  {
    seq(|events|, k requires 0 <= k < |events| => if events[k].Out? then events[k].line else "")
  }

  /** The lines written with `fmt.Fprintln(out, line)`. */
  function OutLines(events: seq<Event>): seq<string>
    decreases |events|
  {
    if events == [] then []
    else (if events[0].Out? then [events[0].line] else []) + OutLines(events[1..])
  }

  /** Every error is reported before anything is written, and only before the body was reached. */
  lemma {:induction false} ErrorsWriteNothing(version: string, st: State, lines: seq<string>)
    ensures var o := Extract(version, st, lines);
      o.err.Some? ==> o.events == [] && Rank(st) < Rank(Printing)
    decreases |lines|
  {
    if lines != [] {
      match StepLine(version, st, lines[0])
      case Stop(_) =>
      case Next(st', _) =>
        ErrorsWriteNothing(version, st', lines[1..]);
    }
  }

  /** Written lines are never empty, and `fmt.Println`'s empty line is always followed by one. */
  predicate WellFormed(ev: seq<Event>) {
    && (forall k :: 0 <= k < |ev| && ev[k].Out? ==> ev[k].line != "")
    && (forall k :: 0 <= k < |ev| && ev[k].Blank? ==> k + 1 < |ev| && ev[k + 1].Out?)
  }

  lemma WellFormedPrepend(written: seq<Event>, line: string, rest: seq<Event>)
    requires written == [] || (line != "" && (written == [Out(line)] || written == [Blank, Out(line)]))
    requires WellFormed(rest)
    ensures WellFormed(written + rest)
  {
    var ev := written + rest;
    assert forall k :: |written| <= k < |ev| ==> ev[k] == rest[k - |written|];
  }

  lemma {:induction false} WrittenShape(version: string, st: State, lines: seq<string>)
    ensures WellFormed(Extract(version, st, lines).events)
    decreases |lines|
  {
    if lines != [] {
      match StepLine(version, st, lines[0])
      case Stop(_) =>
      case Next(st', written) =>
        WrittenShape(version, st', lines[1..]);
        WellFormedPrepend(written, lines[0], Extract(version, st', lines[1..]).events);
    }
  }

  /** The written lines are input lines, verbatim and in input order. */
  lemma {:induction false} WrittenInOrder(version: string, st: State, lines: seq<string>)
    ensures IsSubseq(OutLines(Extract(version, st, lines).events), lines)
    decreases |lines|
  {
    if lines != [] {
      match StepLine(version, st, lines[0])
      case Stop(_) =>
      case Next(st', written) =>
        WrittenInOrder(version, st', lines[1..]);
        var rest := Extract(version, st', lines[1..]).events;
        var restOut := OutLines(rest);
        assert lines == [lines[0]] + lines[1..];
        if written == [] {
          assert written + rest == rest;
          SubseqSkipPrefix(restOut, [lines[0]], lines[1..]);
        } else if written == [Out(lines[0])] {
          assert (written + rest)[1..] == rest;
          assert OutLines(written + rest) == [lines[0]] + restOut;
        } else {
          assert written == [Blank, Out(lines[0])];
          assert (written + rest)[1..] == [Out(lines[0])] + rest;
          assert ([Out(lines[0])] + rest)[1..] == rest;
          assert OutLines(written + rest) == [lines[0]] + restOut;
        }
    }
  }

  lemma RenderAppend(a: seq<Event>, b: seq<Event>)
    ensures Render(a + b) == Render(a) + Render(b)
  {
  }

  /**
   * Once printing, the output is the input itself from the current line on,
   * cut where the section ends: nothing is skipped or reordered. After a
   * single empty line, that empty line comes first.
   */
  lemma {:induction false} BodyIsContiguous(version: string, st: State, lines: seq<string>)
    requires st == Printing || st == FoundEmptyLine
    ensures var text := Render(Extract(version, st, lines).events);
      IsPrefix(text, if st == Printing then lines else [""] + lines)
  {
    if st == Printing {
      BodyFromPrinting(version, lines);
    } else {
      BodyFromEmptyLine(version, lines);
    }
  }

  lemma {:induction false} BodyFromPrinting(version: string, lines: seq<string>)
    ensures IsPrefix(Render(Extract(version, Printing, lines).events), lines)
    decreases |lines|, 1
  {
    if lines != [] {
      var line, tail := lines[0], lines[1..];
      var events := Extract(version, Printing, lines).events;
      if HasPrefix(line, "v") {
        assert events == [];
      } else if line == "" {
        BodyFromEmptyLine(version, tail);
        assert events == Extract(version, FoundEmptyLine, tail).events;
        assert [""] + tail == lines;
      } else {
        var restEvents := Extract(version, Printing, tail).events;
        BodyFromPrinting(version, tail);
        assert events == [Out(line)] + restEvents;
        RenderAppend([Out(line)], restEvents);
        assert Render([Out(line)]) == [line];
        PrefixPrepend([line], Render(restEvents), tail);
        assert [line] + tail == lines;
      }
    }
  }

  lemma {:induction false} BodyFromEmptyLine(version: string, lines: seq<string>)
    ensures IsPrefix(Render(Extract(version, FoundEmptyLine, lines).events), [""] + lines)
    decreases |lines|, 0
  {
    if lines != [] {
      var line, tail := lines[0], lines[1..];
      var events := Extract(version, FoundEmptyLine, lines).events;
      if line == "" {
        assert events == [];
      } else {
        var restEvents := Extract(version, Printing, tail).events;
        BodyFromPrinting(version, tail);
        assert events == [Blank, Out(line)] + restEvents;
        RenderAppend([Blank, Out(line)], restEvents);
        assert Render([Blank, Out(line)]) == ["", line];
        PrefixPrepend(["", line], Render(restEvents), tail);
        assert ["", line] + tail == [""] + lines;
      }
    }
  }

  /** `rank` indexes the first line that starts the version's section. */
  ghost predicate FirstVersionLine(version: string, lines: seq<string>, i: int) {
    && 0 <= i < |lines|
    && IsVersionLine(version, lines[i])
    && forall k :: 0 <= k < i ==> !IsVersionLine(version, lines[k])
  }

  /** Some line of `lines` from index `from` on is not empty. */
  ghost predicate HasContentFrom(lines: seq<string>, from: int) {
    exists j :: from <= j < |lines| && 0 <= j && lines[j] != ""
  }

  /**
   * The changelog has a usable section for `version`: its first version
   * line is underlined with dashes and some non-empty line follows.
   */
  ghost predicate HasSection(version: string, lines: seq<string>) {
    exists i :: FirstVersionLine(version, lines, i)
      && i + 1 < |lines| && AllDashes(lines[i + 1]) && HasContentFrom(lines, i + 2)
  }

  lemma {:induction false} FromPrintingSucceeds(version: string, st: State, lines: seq<string>)
    requires Rank(st) >= Rank(Printing)
    ensures Extract(version, st, lines).err.None?
  {
    ErrorsWriteNothing(version, st, lines);
  }

  /** Content from `from + 1` on in `lines` is content from `from` on in its tail. */
  lemma ContentShift(lines: seq<string>, from: nat)
    requires lines != []
    ensures HasContentFrom(lines, from + 1) <==> HasContentFrom(lines[1..], from)
  {
    if HasContentFrom(lines, from + 1) {
      var j :| from + 1 <= j < |lines| && lines[j] != "";
      assert lines[1..][j - 1] == lines[j];
    }
    if HasContentFrom(lines[1..], from) {
      var j :| from <= j < |lines[1..]| && lines[1..][j] != "";
      assert lines[j + 1] == lines[1..][j];
    }
  }

  lemma {:induction false} HeaderSucceeds(version: string, lines: seq<string>)
    ensures Extract(version, FoundHeader, lines).err.None? <==> HasContentFrom(lines, 0)
    decreases |lines|
  {
    if lines != [] {
      if lines[0] == "" {
        HeaderSucceeds(version, lines[1..]);
        ContentShift(lines, 0);
        assert HasContentFrom(lines, 0) ==> HasContentFrom(lines, 1);
      } else {
        assert HasContentFrom(lines, 0);
        match StepLine(version, FoundHeader, lines[0])
        case Stop(_) =>
        case Next(st', _) =>
          FromPrintingSucceeds(version, st', lines[1..]);
      }
    }
  }

  /** When the first line is a version line, the section is the one it starts. */
  lemma SectionAtHead(version: string, lines: seq<string>)
    requires lines != [] && IsVersionLine(version, lines[0])
    ensures HasSection(version, lines) <==>
      |lines| >= 2 && AllDashes(lines[1]) && HasContentFrom(lines[1..], 1)
  {
    assert FirstVersionLine(version, lines, 0);
    if HasSection(version, lines) {
      var i :| FirstVersionLine(version, lines, i)
        && i + 1 < |lines| && AllDashes(lines[i + 1]) && HasContentFrom(lines, i + 2);
      assert i == 0;
    }
    ContentShift(lines, 1);
  }

  /** A first line that is no version line does not affect whether there is a section. */
  lemma SectionSkip(version: string, lines: seq<string>)
    requires lines != [] && !IsVersionLine(version, lines[0])
    ensures HasSection(version, lines) <==> HasSection(version, lines[1..])
  {
    var rest := lines[1..];
    if HasSection(version, lines) {
      var i :| FirstVersionLine(version, lines, i)
        && i + 1 < |lines| && AllDashes(lines[i + 1]) && HasContentFrom(lines, i + 2);
      assert i > 0;
      assert FirstVersionLine(version, rest, i - 1) by {
        forall k | 0 <= k < i - 1 ensures !IsVersionLine(version, rest[k]) {
          assert rest[k] == lines[k + 1];
        }
      }
      ContentShift(lines, i + 1);
      assert rest[i] == lines[i + 1];
    }
    if HasSection(version, rest) {
      var i :| FirstVersionLine(version, rest, i)
        && i + 1 < |rest| && AllDashes(rest[i + 1]) && HasContentFrom(rest, i + 2);
      assert FirstVersionLine(version, lines, i + 1) by {
        forall k | 0 <= k < i + 1 ensures !IsVersionLine(version, lines[k]) {
          if k > 0 {
            assert lines[k] == rest[k - 1];
          }
        }
      }
      ContentShift(lines, i + 2);
      assert lines[i + 2] == rest[i + 1];
    }
  }

  lemma {:induction false} SearchSucceeds(version: string, lines: seq<string>)
    ensures Extract(version, Searching, lines).err.None? <==> HasSection(version, lines)
    decreases |lines|
  {
    if lines == [] {
    } else if IsVersionLine(version, lines[0]) {
      var rest := lines[1..];
      SectionAtHead(version, lines);
      assert Extract(version, Searching, lines) == Extract(version, FoundVersionNumber, rest);
      if rest != [] && AllDashes(rest[0]) {
        assert Extract(version, FoundVersionNumber, rest) == Extract(version, FoundHeader, rest[1..]);
        HeaderSucceeds(version, rest[1..]);
        ContentShift(rest, 0);
      }
    } else {
      SearchSucceeds(version, lines[1..]);
      SectionSkip(version, lines);
      assert Extract(version, Searching, lines) == Extract(version, Searching, lines[1..]);
    }
  }

  /**
   * `run` returns nil exactly when the changelog has a section for the
   * version, as `HasSection` describes it; otherwise it fails having written
   * nothing.
   */
  lemma RunSucceedsIff(version: string, lines: seq<string>)
    ensures Run(version, lines).err.None? <==> HasSection(version, lines)
    ensures Run(version, lines).err.Some? ==> Run(version, lines).events == []
  {
    SearchSucceeds(version, lines);
    ErrorsWriteNothing(version, Searching, lines);
  }

  /** Lines before the first version line are skipped without effect. */
  lemma {:induction false} SkipToVersion(version: string, lines: seq<string>, i: int)
    requires FirstVersionLine(version, lines, i)
    ensures Extract(version, Searching, lines) == Extract(version, FoundVersionNumber, lines[i + 1..])
    decreases i
  {
    if i > 0 {
      assert FirstVersionLine(version, lines[1..], i - 1) by {
        forall k | 0 <= k < i - 1 ensures !IsVersionLine(version, lines[1..][k]) {
          assert lines[1..][k] == lines[k + 1];
        }
      }
      SkipToVersion(version, lines[1..], i - 1);
      assert lines[1..][i..] == lines[i + 1..];
    }
  }

  /** A line of dashes after the version line moves on to the header state. */
  lemma PastUnderline(version: string, lines: seq<string>)
    requires lines != [] && AllDashes(lines[0])
    ensures Extract(version, FoundVersionNumber, lines) == Extract(version, FoundHeader, lines[1..])
  {
    ExtractNext(version, FoundVersionNumber, lines, FoundHeader, []);
  }

  /** Empty lines after the underline are skipped; the first content line is handled as in printing. */
  lemma {:induction false} SkipToBody(version: string, lines: seq<string>, j: int)
    requires 0 <= j < |lines| && lines[j] != ""
    requires forall k :: 0 <= k < j ==> lines[k] == ""
    ensures Extract(version, FoundHeader, lines) == Extract(version, Printing, lines[j..])
    decreases j
  {
    if j > 0 {
      assert lines[0] == "";
      assert forall k :: 0 <= k < j - 1 ==> lines[1..][k] == lines[k + 1];
      SkipToBody(version, lines[1..], j - 1);
      assert lines[1..][j - 1..] == lines[j..];
    }
  }

  /** Up to the first content line below the underline, `run` only moves through its states. */
  lemma ReachBody(version: string, lines: seq<string>, i: int, j: int)
    requires FirstVersionLine(version, lines, i) && i + 1 < |lines| && AllDashes(lines[i + 1])
    requires i + 2 <= j < |lines| && lines[j] != ""
    requires forall k :: i + 2 <= k < j ==> lines[k] == ""
    ensures Run(version, lines) == Extract(version, Printing, lines[j..])
  {
    SkipToVersion(version, lines, i);
    var afterVersion := lines[i + 1..];
    PastUnderline(version, afterVersion);
    var body := afterVersion[1..];
    assert body == lines[i + 2..];
    SkipToBody(version, body, j - i - 2);
    assert body[j - i - 2..] == lines[j..];
  }

  /**
   * What `run` writes for a changelog with a section for the version: an
   * unbroken run of input lines starting at the first content line below
   * the underline. Nothing before it is written.
   */
  lemma SectionBody(version: string, lines: seq<string>, i: int, j: int)
    requires FirstVersionLine(version, lines, i) && i + 1 < |lines| && AllDashes(lines[i + 1])
    requires i + 2 <= j < |lines| && lines[j] != ""
    requires forall k :: i + 2 <= k < j ==> lines[k] == ""
    ensures Run(version, lines).err.None?
    ensures IsPrefix(Render(Run(version, lines).events), lines[j..])
  {
    ReachBody(version, lines, i, j);
    BodyIsContiguous(version, Printing, lines[j..]);
    FromPrintingSucceeds(version, Printing, lines[j..]);
  }

  /**
   * Reading a body that starts at line `j`, the section stops before line
   * `k`: at the end of the file; at a line starting with `v` that is the
   * first one or follows a content line; or at an empty line that is the
   * last one or is followed by another empty line.
   */
  ghost predicate StopsAt(lines: seq<string>, j: int, k: int) {
    || k == |lines|
    || (0 <= j <= k < |lines| &&
        (|| (HasPrefix(lines[k], "v") && (k == j || lines[k - 1] != ""))
         || (lines[k] == "" && (k + 1 == |lines| || lines[k + 1] == ""))))
  }

  /** `e` is the first place after `j` where the section stops. */
  ghost predicate SectionEnd(lines: seq<string>, j: int, e: int) {
    && 0 <= j <= e <= |lines|
    && StopsAt(lines, j, e)
    && forall k :: j <= k < e ==> !StopsAt(lines, j, k)
  }

  /** Every body has an end, and only one: the first stopping place at or after `k`. */
  ghost function FirstStop(lines: seq<string>, j: int, k: int): (e: int)
    requires 0 <= j <= k <= |lines|
    requires forall m :: j <= m < k ==> !StopsAt(lines, j, m)
    ensures SectionEnd(lines, j, e)
    ensures forall e' :: SectionEnd(lines, j, e') ==> e' == e
    decreases |lines| - k
  {
    if StopsAt(lines, j, k) then k else FirstStop(lines, j, k + 1)
  }

  /** Past a content line, reading on from the next line stops at the same place. */
  lemma EndShift(lines: seq<string>, j: int, from: int, e: int)
    requires SectionEnd(lines, j, e) && j < from <= e && lines[from - 1] != ""
    ensures SectionEnd(lines, from, e)
  {
    forall k | from <= k < e ensures !StopsAt(lines, from, k) {
      assert !StopsAt(lines, j, k);
    }
  }

  /** Once printing from line `j`, the output is exactly the lines from `j` up to the section's end. */
  lemma {:induction false} PrintingEnd(version: string, lines: seq<string>, j: int, e: int)
    requires SectionEnd(lines, j, e)
    ensures Render(Extract(version, Printing, lines[j..]).events) == lines[j..e]
    decreases |lines| - j, 1
  {
    if j < |lines| {
      var line, rest := lines[j], lines[j..];
      assert rest[0] == line && rest[1..] == lines[j + 1..];
      if HasPrefix(line, "v") {
        assert StopsAt(lines, j, j);
        ExtractStop(version, Printing, rest, None);
      } else if line == "" && (j + 1 == |lines| || lines[j + 1] == "") {
        assert StopsAt(lines, j, j);
        ExtractNext(version, Printing, rest, FoundEmptyLine, []);
        if j + 1 < |lines| {
          assert lines[j + 1..][0] == "";
          ExtractStop(version, FoundEmptyLine, lines[j + 1..], None);
        }
      } else if line == "" {
        PrintingEndAfterEmpty(version, lines, j, e);
      } else {
        PrintingEndAfterContent(version, lines, j, e);
      }
    }
  }

  /** A single empty line inside the body is reproduced, with the content line after it. */
  lemma {:induction false} PrintingEndAfterEmpty(version: string, lines: seq<string>, j: int, e: int)
    requires SectionEnd(lines, j, e) && j + 1 < |lines| && lines[j] == "" && lines[j + 1] != ""
    ensures Render(Extract(version, Printing, lines[j..]).events) == lines[j..e]
    decreases |lines| - j, 0
  {
    var next, from := lines[j + 1], j + 2;
    assert lines[j..e] == ["", next] + lines[from..e] by {
      assert !StopsAt(lines, j, j) && !StopsAt(lines, j, j + 1);
    }
    EndShift(lines, j, from, e);
    PrintingEnd(version, lines, from, e);
    EmptyThenContent(version, lines[j..]);
    assert lines[j..][2..] == lines[from..];
    RenderAppend([Blank, Out(next)], Extract(version, Printing, lines[from..]).events);
    assert Render([Blank, Out(next)]) == ["", next];
  }

  /** While printing, an empty line then a content line write `fmt.Println`'s empty line and that line. */
  lemma EmptyThenContent(version: string, lines: seq<string>)
    requires |lines| >= 2 && lines[0] == "" && lines[1] != ""
    ensures Extract(version, Printing, lines).events ==
      [Blank, Out(lines[1])] + Extract(version, Printing, lines[2..]).events
  {
    var tail := lines[1..];
    assert tail[0] == lines[1] && tail[1..] == lines[2..];
    ExtractNext(version, Printing, lines, FoundEmptyLine, []);
    ExtractNext(version, FoundEmptyLine, tail, Printing, [Blank, Out(lines[1])]);
  }

  /** A content line of the body is printed, and reading goes on. */
  lemma {:induction false} PrintingEndAfterContent(version: string, lines: seq<string>, j: int, e: int)
    requires SectionEnd(lines, j, e) && j < |lines| && lines[j] != "" && !HasPrefix(lines[j], "v")
    ensures Render(Extract(version, Printing, lines[j..]).events) == lines[j..e]
    decreases |lines| - j, 0
  {
    var line, from := lines[j], j + 1;
    var rest := lines[j..];
    assert rest[0] == line && rest[1..] == lines[from..];
    assert lines[j..e] == [line] + lines[from..e] by {
      assert !StopsAt(lines, j, j);
    }
    EndShift(lines, j, from, e);
    PrintingEnd(version, lines, from, e);
    ExtractNext(version, Printing, rest, Printing, [Out(line)]);
    RenderAppend([Out(line)], Extract(version, Printing, lines[from..]).events);
    assert Render([Out(line)]) == [line];
  }

  /**
   * The whole of what `run` writes for a changelog with a section for the
   * version: the input lines from the first content line below the
   * underline up to where the section ends, and nothing else.
   */
  lemma SectionText(version: string, lines: seq<string>, i: int, j: int, e: int)
    requires FirstVersionLine(version, lines, i) && i + 1 < |lines| && AllDashes(lines[i + 1])
    requires i + 2 <= j < |lines| && lines[j] != ""
    requires forall k :: i + 2 <= k < j ==> lines[k] == ""
    requires SectionEnd(lines, j, e)
    ensures Run(version, lines).err.None?
    ensures Render(Run(version, lines).events) == lines[j..e]
  {
    ReachBody(version, lines, i, j);
    PrintingEnd(version, lines, j, e);
    FromPrintingSucceeds(version, Printing, lines[j..]);
  }
}
