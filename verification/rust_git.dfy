/**
 * The pure parts of the Rust implementation's git access: the description
 * of a command used in error messages, the parsing of `git show-ref` output,
 * the `.git` directory computed from `git rev-parse --git-dir`, and the
 * search of git's rebase state for the branch being rebased.
 *
 * Processes and files are parameters: `open` and `read` are what
 * `File::open` and `read_to_string` return for a path, and a command's
 * output arrives as text or as its lines.
 */
module RustGit {
  import opened Wrappers
  import opened Text
  import opened Seqs
  import opened RustErrors
  import RustRestack

  type Branch = RustRestack.Branch

  const HeadsPrefix: string := "refs/heads/"

  /** `args[k]` is the first argument that is not a flag. */
  predicate IsSubcommandAt(args: seq<string>, k: int) {
    && 0 <= k < |args|
    && !HasPrefix(args[k], "-")
    && forall i :: 0 <= i < k ==> HasPrefix(args[i], "-")
  }

  /** The first argument that is not a flag (does not start with `-`). */
  function Subcommand(args: seq<string>): (sub: Option<string>)
    ensures sub.None? <==> forall i :: 0 <= i < |args| ==> HasPrefix(args[i], "-")
    ensures sub.Some? ==> exists k :: IsSubcommandAt(args, k) && args[k] == sub.value
    decreases |args|
  {
    if args == [] then None
    else if !HasPrefix(args[0], "-") then Some(args[0])
    else
      var rest := Subcommand(args[1..]);
      assert forall i :: 1 <= i < |args| ==> args[i] == args[1..][i - 1];
      rest
  }

  /**
   * `cmd_desc`: the program followed by its subcommand, the first argument
   * that is not a flag; the program alone when every argument is a flag.
   */
  function CmdDesc(program: string, args: seq<string>): (desc: string)
    ensures (forall i :: 0 <= i < |args| ==> HasPrefix(args[i], "-")) ==> desc == program
    ensures forall k :: IsSubcommandAt(args, k) ==> desc == program + " " + args[k]
  {
    match Subcommand(args)
    case None => program
    case Some(sub) => program + " " + sub
  }

  /** The commands the Rust implementation runs are described by their subcommand. */
  lemma CmdDescExamples()
    ensures CmdDesc("git", ["show-ref", "--heads", "--abbrev"]) == "git show-ref"
    ensures CmdDesc("git", ["rev-parse", "--git-dir"]) == "git rev-parse"
    ensures CmdDesc("git", ["config", "--global", "sequence.editor", "restack edit"]) == "git config"
    ensures CmdDesc("git", ["--version"]) == "git"
  {
    assert "git " + "show-ref" == "git show-ref";
    assert "git " + "rev-parse" == "git rev-parse";
    assert "git " + "config" == "git config";
    SubcommandFirst(["show-ref", "--heads", "--abbrev"]);
    SubcommandFirst(["rev-parse", "--git-dir"]);
    SubcommandFirst(["config", "--global", "sequence.editor", "restack edit"]);
    assert HasPrefix("--version", "-");
  }

  /** A first argument that is not a flag is the subcommand. */
  lemma SubcommandFirst(args: seq<string>)
    requires args != [] && args[0] != [] && args[0][0] != '-'
    ensures CmdDesc("git", args) == "git " + args[0]
  {
    assert !HasPrefix(args[0], "-");
  }

  /** The line `git show-ref` prints for a branch. */
  function ShowRefLine(b: Branch): string {
    b.shorthash + " " + HeadsPrefix + b.name
  }

  /**
   * The closure in `list_branches` for one output line: the first two
   * space-separated pieces are the hash and the ref, later pieces are
   * ignored, and a ref outside `refs/heads/` is skipped.
   */
  function ParseShowRefLine(line: string): (b: Option<Branch>)
    ensures b.Some? <==> |Split(line, ' ')| >= 2 && HasPrefix(Split(line, ' ')[1], HeadsPrefix)
    ensures b.Some? ==>
      && ' ' !in b.value.shorthash && ' ' !in b.value.name
      && HasPrefix(line, ShowRefLine(b.value))
      && (|line| == |ShowRefLine(b.value)| || line[|ShowRefLine(b.value)|] == ' ')
  {
    var parts := Split(line, ' ');
    if |parts| < 2 then None
    else match StripPrefix(parts[1], HeadsPrefix)
      case None => None
      case Some(name) =>
        ParsedLineShape(line, name);
        Some(RustRestack.Branch(name, parts[0]))
  }

  /** A line with at least two pieces starts with the first two, separated by a space. */
  lemma ParseShowRefLineShape(line: string)
    requires |Split(line, ' ')| >= 2
    ensures var parts := Split(line, ' ');
      var head := parts[0] + " " + parts[1];
      HasPrefix(line, head) && (|line| == |head| || line[|head|] == ' ')
  {
    var parts := Split(line, ' ');
    JoinSplit(line, ' ');
    assert Join(parts, ' ') == parts[0] + [' '] + Join(parts[1..], ' ');
    var tail := parts[1..];
    if |tail| == 1 {
      assert Join(tail, ' ') == parts[1];
    } else {
      assert Join(tail, ' ') == parts[1] + [' '] + Join(tail[1..], ' ');
    }
  }

  /** An accepted line starts with the line printed for its branch. */
  lemma ParsedLineShape(line: string, name: string)
    requires |Split(line, ' ')| >= 2 && StripPrefix(Split(line, ' ')[1], HeadsPrefix) == Some(name)
    ensures var b := RustRestack.Branch(name, Split(line, ' ')[0]);
      && ' ' !in b.shorthash && ' ' !in b.name
      && HasPrefix(line, ShowRefLine(b))
      && (|line| == |ShowRefLine(b)| || line[|ShowRefLine(b)|] == ' ')
  {
    var parts := Split(line, ' ');
    var b := RustRestack.Branch(name, parts[0]);
    ParseShowRefLineShape(line);
    assert HeadsPrefix + name == parts[1];
    assert ShowRefLine(b) == parts[0] + " " + parts[1];
    assert forall i :: 0 <= i < |name| ==> name[i] == parts[1][|HeadsPrefix| + i];
  }

  /** `refs/heads/` stripped from a branch's ref leaves the branch name. */
  lemma StripHeadsPrefix(name: string)
    ensures StripPrefix(HeadsPrefix + name, HeadsPrefix) == Some(name)
  {
    var r := StripPrefix(HeadsPrefix + name, HeadsPrefix);
    assert HasPrefix(HeadsPrefix + name, HeadsPrefix);
    assert (HeadsPrefix + r.value)[|HeadsPrefix|..] == r.value;
    assert (HeadsPrefix + name)[|HeadsPrefix|..] == name;
  }

  /** The first two pieces of a printed line, whatever follows, are the hash and the ref. */
  lemma PrintedLinePieces(b: Branch, tail: string)
    requires ' ' !in b.shorthash && ' ' !in b.name
    requires tail == [] || tail[0] == ' '
    ensures var parts := Split(ShowRefLine(b) + tail, ' ');
      |parts| >= 2 && parts[0] == b.shorthash && parts[1] == HeadsPrefix + b.name
  {
    var ref := HeadsPrefix + b.name;
    assert forall i :: 0 <= i < |HeadsPrefix| ==> HeadsPrefix[i] != ' ';
    assert ' ' !in ref by {
      assert forall i :: 0 <= i < |ref| ==> ref[i] == if i < |HeadsPrefix| then HeadsPrefix[i] else b.name[i - |HeadsPrefix|];
    }
    assert ShowRefLine(b) == b.shorthash + [' '] + ref;
    SplitTwo(b.shorthash, ' ', ref, tail);
  }

  /**
   * Parsing the line printed for a branch gives the branch back, whatever
   * further pieces follow it: the converse of `ParseShowRefLine`'s contract.
   */
  lemma ParseShowRefLineRoundTrip(b: Branch, tail: string)
    requires ' ' !in b.shorthash && ' ' !in b.name
    requires tail == [] || tail[0] == ' '
    ensures ParseShowRefLine(ShowRefLine(b) + tail) == Some(b)
  {
    PrintedLinePieces(b, tail);
    StripHeadsPrefix(b.name);
  }

  /** The loop in `list_branches`: the branches of the accepted lines, in output order. */
  function ParseShowRef(lines: seq<string>): (bs: seq<Branch>)
    ensures |bs| <= |lines|
    ensures forall b :: b in bs <==> exists i :: 0 <= i < |lines| && ParseShowRefLine(lines[i]) == Some(b)
    decreases |lines|
  {
    if lines == [] then []
    else
      var init := lines[..|lines| - 1];
      var last := lines[|lines| - 1];
      assert forall i :: 0 <= i < |init| ==> init[i] == lines[i];
      ParseShowRef(init) + (match ParseShowRefLine(last) case None => [] case Some(b) => [b])
  }

  /** Parsing one more line adds that line's branch, if any, at the end. */
  lemma ParseSnoc(lines: seq<string>, line: string)
    ensures ParseShowRef(lines + [line]) == ParseShowRef(lines) + (match ParseShowRefLine(line) case None => [] case Some(b) => [b])
  {
    var all := lines + [line];
    assert all[..|all| - 1] == lines;
  }
  /** The parsed branches come from the accepted lines one for one, in the order of the lines. */
  lemma {:induction false} ParseShowRefOrder(lines: seq<string>) returns (f: seq<int>)
    ensures Picks(lines, ParseShowRef(lines), f, ParseShowRefLine)
    decreases |lines|
  {
    if lines == [] {
      f := [];
    } else {
      var init, last := lines[..|lines| - 1], lines[|lines| - 1];
      assert lines == init + [last];
      var g := ParseShowRefOrder(init);
      ParseSnoc(init, last);
      f := PicksSnoc(init, last, ParseShowRef(init), g, ParseShowRefLine);
    }
  }

  /** The output printed for a list of branches, one line each. */
  function ShowRefLines(bs: seq<Branch>): (lines: seq<string>)
    ensures |lines| == |bs| && forall i :: 0 <= i < |bs| ==> lines[i] == ShowRefLine(bs[i])
    decreases |bs|
  {
    if bs == [] then [] else ShowRefLines(bs[..|bs| - 1]) + [ShowRefLine(bs[|bs| - 1])]
  }

  /** The output printed for a list of branches parses back to that list, in order. */
  lemma {:induction false} ParseShowRefRoundTrip(bs: seq<Branch>)
    requires forall i :: 0 <= i < |bs| ==> ' ' !in bs[i].shorthash && ' ' !in bs[i].name
    ensures ParseShowRef(ShowRefLines(bs)) == bs
    decreases |bs|
  {
    if bs != [] {
      var init := bs[..|bs| - 1];
      var last := bs[|bs| - 1];
      assert bs == init + [last];
      assert forall i :: 0 <= i < |init| ==> init[i] == bs[i];
      ParseShowRefLineRoundTrip(last, []);
      assert ShowRefLine(last) + [] == ShowRefLine(last);
      ParseSnoc(ShowRefLines(init), ShowRefLine(last));
      assert ShowRefLines(bs) == ShowRefLines(init) + [ShowRefLine(last)];
      ParseShowRefRoundTrip(init);
    }
  }

  /**
   * `git_dir` once `git rev-parse --git-dir` has printed `out` in `dir`: the
   * output without trailing whitespace, joined onto `dir` when relative.
   */
  function GitDir(dir: string, out: string): (gitDir: string)
    ensures HasPrefix(TrimEnd(out), "/") ==> gitDir == TrimEnd(out)
    ensures !HasPrefix(TrimEnd(out), "/") ==>
      && HasPrefix(gitDir, dir)
      && |TrimEnd(out)| <= |gitDir| && gitDir[|gitDir| - |TrimEnd(out)|..] == TrimEnd(out)
      && |gitDir| == |dir| + |TrimEnd(out)| + (if NeedsSeparator(dir) then 1 else 0)
      && (NeedsSeparator(dir) ==> gitDir[|dir|] == '/')
  {
    JoinPath(dir, TrimEnd(out))
  }

  /** The state directories git may keep a rebase in, in the order they are tried. */
  const RebaseStateDirs: seq<string> := ["rebase-apply", "rebase-merge"]

  /** `git_dir.join(state_dir).join("head-name")`. */
  function HeadFile(gitDir: string, stateDir: string): string {
    JoinPath(JoinPath(gitDir, stateDir), "head-name")
  }

  /** The branch named by the contents of a `head-name` file. */
  function BranchOfHeadName(content: string): string {
    var name := TrimSpace(content);
    match StripPrefix(name, HeadsPrefix)
    case Some(short) => short
    case None => name
  }

  /** What git writes to `head-name` when it rebases a branch, read back. */
  lemma BranchOfHeadNameRoundTrip(name: string, post: string)
    requires name == [] || !IsSpace(name[|name| - 1])
    requires forall i :: 0 <= i < |post| ==> IsSpace(post[i])
    ensures BranchOfHeadName(HeadsPrefix + name + post) == name
  {
    var core := HeadsPrefix + name;
    assert core[0] == 'r';
    assert core[|core| - 1] == if name == [] then '/' else name[|name| - 1];
    assert [] + core + post == HeadsPrefix + name + post;
    TrimSpacePadded([], core, post);
    var r := StripPrefix(core, HeadsPrefix);
    assert HasPrefix(core, HeadsPrefix);
    assert (HeadsPrefix + r.value)[|HeadsPrefix|..] == r.value;
    assert core[|HeadsPrefix|..] == name;
  }

  /**
   * The verdict of one state directory: `None` when its `head-name` is not
   * found, so the next directory is tried; otherwise the result.
   */
  function Probe(path: string, open: string -> Option<IoError>, read: string -> Result<string, IoError>):
    (v: Option<Result<string, Error>>)
    ensures v.None? <==> open(path).Some? && open(path).value.kind == NotFound
    ensures v.Some? && v.value.Ok? ==> open(path).None? && read(path).Ok? && v.value.value == BranchOfHeadName(read(path).value)
    ensures v.Some? && open(path).Some? ==> v.value == Err(Error(["failed to open " + path], Io(open(path).value)))
    ensures v.Some? && open(path).None? && read(path).Err? ==>
      v.value == Err(Error(["failed to read rebase state from " + path], Io(read(path).error)))
  {
    match open(path)
    case Some(e) =>
      if e.kind == NotFound then None
      else
        assert ["failed to open " + path] + [] == ["failed to open " + path];
        Some(Err(WithContext(FromIo(e), "failed to open " + path)))
    case None =>
      match read(path)
      case Err(e) =>
        assert ["failed to read rebase state from " + path] + [] == ["failed to read rebase state from " + path];
        Some(Err(WithContext(FromIo(e), "failed to read rebase state from " + path)))
      case Ok(content) => Some(Ok(BranchOfHeadName(content)))
  }

  /** Directory `k` is the first whose file is found or cannot be opened. */
  predicate FirstDecisive(gitDir: string, dirs: seq<string>, k: int,
                          open: string -> Option<IoError>, read: string -> Result<string, IoError>)
  {
    && 0 <= k < |dirs|
    && Probe(HeadFile(gitDir, dirs[k]), open, read).Some?
    && forall i :: 0 <= i < k ==> Probe(HeadFile(gitDir, dirs[i]), open, read).None?
  }

  /** The error when no state directory holds a `head-name` file. */
  function NotRebasingError(gitDir: string): Error {
    Error([], Message("repository " + gitDir + " is not currently rebasing"))
  }

  /**
   * The loop over the state directories: the first directory whose file is
   * found (or cannot be opened) decides; when none is found the repository
   * is not rebasing, which is an error.
   */
  function SearchStateDirs(gitDir: string, dirs: seq<string>,
                           open: string -> Option<IoError>, read: string -> Result<string, IoError>): (r: Result<string, Error>)
    ensures (forall i :: 0 <= i < |dirs| ==> Probe(HeadFile(gitDir, dirs[i]), open, read).None?) ==> r == Err(NotRebasingError(gitDir))
    ensures forall k :: FirstDecisive(gitDir, dirs, k, open, read) ==> r == Probe(HeadFile(gitDir, dirs[k]), open, read).value
    decreases |dirs|
  {
    if dirs == [] then Err(NotRebasingError(gitDir))
    else
      var rest := SearchStateDirs(gitDir, dirs[1..], open, read);
      assert forall i :: 0 <= i < |dirs[1..]| ==> dirs[1..][i] == dirs[i + 1];
      assert forall k :: 0 < k && FirstDecisive(gitDir, dirs, k, open, read) ==> FirstDecisive(gitDir, dirs[1..], k - 1, open, read);
      match Probe(HeadFile(gitDir, dirs[0]), open, read)
      case None => rest
      case Some(v) => v
  }

  /**
   * `rebase_head_name`: a failure to find the `.git` directory is reported
   * before any file is looked at; then `rebase-apply` decides if its file is
   * found, else `rebase-merge`, else the repository is not rebasing.
   */
  function RebaseHeadName(gitDir: Result<string, Error>,
                          open: string -> Option<IoError>, read: string -> Result<string, IoError>): (r: Result<string, Error>)
    ensures gitDir.Err? ==> r == Err(WithContext(gitDir.error, "cannot find .git directory"))
    ensures gitDir.Ok? ==>
      var apply := HeadFile(gitDir.value, "rebase-apply");
      var merge := HeadFile(gitDir.value, "rebase-merge");
      && (Probe(apply, open, read).Some? ==> r == Probe(apply, open, read).value)
      && (Probe(apply, open, read).None? && Probe(merge, open, read).Some? ==> r == Probe(merge, open, read).value)
      && (Probe(apply, open, read).None? && Probe(merge, open, read).None? ==> r == Err(NotRebasingError(gitDir.value)))
  {
    match gitDir
    case Err(e) => Err(WithContext(e, "cannot find .git directory"))
    case Ok(dir) => SearchStateDirs(dir, RebaseStateDirs, open, read)
  }

  /** Whatever the files hold, the answer is never an empty name for want of a rebase: that is an error. */
  lemma NotRebasingIsAnError(dir: string, open: string -> Option<IoError>, read: string -> Result<string, IoError>)
    requires forall d :: d in RebaseStateDirs ==> open(HeadFile(dir, d)) == Some(IoError(NotFound, Some(ENOENT)))
    ensures RebaseHeadName(Ok(dir), open, read) == Err(NotRebasingError(dir))
  {
    assert RebaseStateDirs[0] in RebaseStateDirs && RebaseStateDirs[1] in RebaseStateDirs;
  }

  /** During a merge-based rebase of `name`, the name is read back from `rebase-merge/head-name`. */
  lemma MergeRebase(dir: string, open: string -> Option<IoError>, read: string -> Result<string, IoError>, name: string)
    requires name == [] || !IsSpace(name[|name| - 1])
    requires open(HeadFile(dir, "rebase-apply")) == Some(IoError(NotFound, Some(ENOENT)))
    requires open(HeadFile(dir, "rebase-merge")).None?
    requires read(HeadFile(dir, "rebase-merge")) == Ok(HeadsPrefix + name + "\n")
    ensures RebaseHeadName(Ok(dir), open, read) == Ok(name)
  {
    BranchOfHeadNameRoundTrip(name, "\n");
  }
}
