/**
 * The git access of the Go implementation (git.go): the branch being
 * rebased, read from git's rebase state, and the branch list parsed from
 * `git show-ref --heads --abbrev` and sorted by name.
 *
 * The environment, the filesystem and the subprocess are parameters: `env`
 * is the value of GIT_DIR, `stat` and `read` are what `os.Stat` and
 * `ioutil.ReadFile` return for a path, and the command's output arrives as
 * its lines.
 */
module GoGit {
  import opened Wrappers
  import opened Text
  import opened Seqs
  import opened StringOrder
  import opened GoErrors

  datatype Branch = Branch(name: string, hash: string)

  const HeadsPrefix: string := "refs/heads/"

  /** The line `git show-ref` prints for a branch. */
  function ShowRefLine(b: Branch): string {
    b.hash + " " + HeadsPrefix + b.name
  }

  /**
   * One line of `git show-ref`: kept only when it has exactly two
   * space-separated fields, the hash and the ref; the branch name is the ref
   * without `refs/heads/`, or the whole ref when it lacks that prefix.
   */
  function ParseShowRefLine(line: string): (b: Option<Branch>)
    ensures b.Some? <==> |Split(line, ' ')| == 2
    ensures b.Some? ==>
      && ' ' !in b.value.hash && ' ' !in b.value.name
      && (line == b.value.hash + " " + HeadsPrefix + b.value.name || line == b.value.hash + " " + b.value.name)
  {
    var toks := Split(line, ' ');
    if |toks| != 2 then None
    else
      JoinSplit(line, ' ');
      assert Join(toks, ' ') == toks[0] + [' '] + toks[1];
      Some(Branch(TrimPrefix(toks[1], HeadsPrefix), toks[0]))
  }

  /** A ref without its `refs/heads/` prefix is what was after the prefix. */
  lemma TrimHeadsPrefix(name: string)
    ensures TrimPrefix(HeadsPrefix + name, HeadsPrefix) == name
  {
    var r := TrimPrefix(HeadsPrefix + name, HeadsPrefix);
    assert HasPrefix(HeadsPrefix + name, HeadsPrefix);
    assert (HeadsPrefix + r)[|HeadsPrefix|..] == r;
    assert (HeadsPrefix + name)[|HeadsPrefix|..] == name;
  }

  /** Parsing the line printed for a branch gives the branch back. */
  lemma ParseShowRefLineRoundTrip(b: Branch)
    requires ' ' !in b.hash && ' ' !in b.name
    ensures ParseShowRefLine(ShowRefLine(b)) == Some(b)
  {
    var ref := HeadsPrefix + b.name;
    assert ' ' !in ref;
    assert ShowRefLine(b) == Join([b.hash, ref], ' ');
    SplitJoin([b.hash, ref], ' ');
    TrimHeadsPrefix(b.name);
  }

  /**
   * `parseGitShowRef`: the branches of the well-formed lines, in the order of
   * the lines; every other line is skipped.
   */
  function ParseGitShowRef(lines: seq<string>): (bs: seq<Branch>)
    ensures |bs| <= |lines|
    ensures forall b :: b in bs <==> exists i :: 0 <= i < |lines| && ParseShowRefLine(lines[i]) == Some(b)
    decreases |lines|
  {
    if lines == [] then []
    else
      var init := lines[..|lines| - 1];
      var last := lines[|lines| - 1];
      assert forall i :: 0 <= i < |init| ==> init[i] == lines[i];
      ParseGitShowRef(init) + (match ParseShowRefLine(last) case None => [] case Some(b) => [b])
  }

  /** Parsing one more line adds that line's branch, if any, at the end. */
  lemma ParseSnoc(lines: seq<string>, line: string)
    ensures ParseGitShowRef(lines + [line]) == ParseGitShowRef(lines) + (match ParseShowRefLine(line) case None => [] case Some(b) => [b])
  {
    var all := lines + [line];
    assert all[..|all| - 1] == lines;
  }
  /** The parsed branches come from the accepted lines one for one, in the order of the lines. */
  lemma {:induction false} ParseGitShowRefOrder(lines: seq<string>) returns (f: seq<int>)
    ensures Picks(lines, ParseGitShowRef(lines), f, ParseShowRefLine)
    decreases |lines|
  {
    if lines == [] {
      f := [];
    } else {
      var init, last := lines[..|lines| - 1], lines[|lines| - 1];
      assert lines == init + [last];
      var g := ParseGitShowRefOrder(init);
      ParseSnoc(init, last);
      f := PicksSnoc(init, last, ParseGitShowRef(init), g, ParseShowRefLine);
    }
  }

  /** The output `git show-ref` prints for a list of branches, one line each. */
  function ShowRefLines(bs: seq<Branch>): (lines: seq<string>)
    ensures |lines| == |bs| && forall i :: 0 <= i < |bs| ==> lines[i] == ShowRefLine(bs[i])
    decreases |bs|
  {
    if bs == [] then [] else ShowRefLines(bs[..|bs| - 1]) + [ShowRefLine(bs[|bs| - 1])]
  }

  /** The output printed for a list of branches parses back to that list. */
  lemma {:induction false} ParseGitShowRefRoundTrip(bs: seq<Branch>)
    requires forall i :: 0 <= i < |bs| ==> ' ' !in bs[i].hash && ' ' !in bs[i].name
    ensures ParseGitShowRef(ShowRefLines(bs)) == bs
    decreases |bs|
  {
    if bs != [] {
      var init := bs[..|bs| - 1];
      var last := bs[|bs| - 1];
      assert bs == init + [last];
      assert forall i :: 0 <= i < |init| ==> init[i] == bs[i];
      ParseShowRefLineRoundTrip(last);
      ParseSnoc(ShowRefLines(init), ShowRefLine(last));
      assert ShowRefLines(bs) == ShowRefLines(init) + [ShowRefLine(last)];
      ParseGitShowRefRoundTrip(init);
    }
  }

  /** Names never decrease along the list. */
  ghost predicate SortedByName(bs: seq<Branch>) {
    forall i, j :: 0 <= i < j < |bs| ==> !Less(bs[j].name, bs[i].name)
  }

  /** `b` placed before the first branch whose name is not below its own. */
  function Insert(b: Branch, bs: seq<Branch>): (r: seq<Branch>)
    requires SortedByName(bs)
    ensures multiset(r) == multiset(bs) + multiset{b}
    ensures SortedByName(r)
    decreases |bs|
  {
    if bs == [] || !Less(bs[0].name, b.name) then
      InsertFront(b, bs);
      [b] + bs
    else
      assert SortedByName(bs[1..]);
      var rest := Insert(b, bs[1..]);
      assert bs == [bs[0]] + bs[1..];
      InsertBehind(b, bs, rest);
      [bs[0]] + rest
  }

  lemma InsertFront(b: Branch, bs: seq<Branch>)
    requires SortedByName(bs)
    requires bs == [] || !Less(bs[0].name, b.name)
    ensures SortedByName([b] + bs)
  {
    var r := [b] + bs;
    forall i, j | 0 <= i < j < |r| ensures !Less(r[j].name, r[i].name) {
      if i == 0 {
        if j > 1 {
          NotLessTransitive(b.name, bs[0].name, bs[j - 1].name);
        }
      } else {
        assert r[i] == bs[i - 1] && r[j] == bs[j - 1];
      }
    }
  }

  lemma InsertBehind(b: Branch, bs: seq<Branch>, rest: seq<Branch>)
    requires bs != [] && SortedByName(bs) && Less(bs[0].name, b.name)
    requires multiset(rest) == multiset(bs[1..]) + multiset{b} && SortedByName(rest)
    ensures SortedByName([bs[0]] + rest)
  {
    var r := [bs[0]] + rest;
    forall i, j | 0 <= i < j < |r| ensures !Less(r[j].name, r[i].name) {
      if i == 0 {
        var x := rest[j - 1];
        assert x in multiset(rest);
        if x == b {
          LessAsymmetric(bs[0].name, b.name);
        } else {
          assert x in multiset(bs[1..]);
          var k :| 0 <= k < |bs[1..]| && bs[1..][k] == x;
          assert bs[k + 1] == x;
        }
      } else {
        assert r[i] == rest[i - 1] && r[j] == rest[j - 1];
      }
    }
  }

  /**
   * `sort.Slice` by name: the same branches, ordered by name. Go's sort is
   * not stable, so only the order of names is promised; this is one of the
   * orders it may produce.
   */
  function SortByName(bs: seq<Branch>): (r: seq<Branch>)
    ensures multiset(r) == multiset(bs)
    ensures SortedByName(r)
    decreases |bs|
  {
    if bs == [] then []
    else
      assert bs == [bs[0]] + bs[1..];
      Insert(bs[0], SortByName(bs[1..]))
  }

  /**
   * `ListBranches` once `git show-ref` has run: the branches of its
   * well-formed lines, sorted by name.
   */
  function ListBranches(output: seq<string>): (bs: seq<Branch>)
    ensures multiset(bs) == multiset(ParseGitShowRef(output))
    ensures SortedByName(bs)
    ensures forall b :: b in bs <==> exists i :: 0 <= i < |output| && ParseShowRefLine(output[i]) == Some(b)
  {
    var parsed := ParseGitShowRef(output);
    var sorted := SortByName(parsed);
    assert forall b :: b in sorted <==> b in multiset(parsed);
    sorted
  }

  /** The state directories git may keep a rebase in, in the order they are tried. */
  const RebaseStateDirs: seq<string> := ["rebase-apply", "rebase-merge"]

  /** GIT_DIR, or `.git` when it is unset or empty. */
  function GitDir(env: string): (dir: string)
    ensures dir != []
    ensures env != [] ==> dir == env
    ensures env == [] ==> dir == ".git"
  {
    if env == "" then ".git" else env
  }

  /** The `head-name` file of a state directory (without `filepath.Clean`). */
  function HeadFile(gitDir: string, stateDir: string): string {
    gitDir + "/" + stateDir + "/head-name"
  }

  /** The branch named by the contents of a `head-name` file. */
  function BranchOfHeadName(content: string): string {
    TrimPrefix(TrimSpace(content), HeadsPrefix)
  }

  /** What git writes to `head-name` when it rebases a branch, read back. */
  lemma BranchOfHeadNameRoundTrip(name: string, post: string)
    requires name == [] || !IsSpace(name[|name| - 1])
    requires forall i :: 0 <= i < |post| ==> IsSpace(post[i])
    ensures BranchOfHeadName(HeadsPrefix + name + post) == name
  {
    var core := HeadsPrefix + name;
    assert core[0] == 'r';
    assert core[|core| - 1] == if name == [] then '/' else name[|name| - 1];
    assert [] + core + post == HeadsPrefix + name + post;
    TrimSpacePadded([], core, post);
    TrimHeadsPrefix(name);
  }

  /**
   * The verdict of one state directory: `None` when its `head-name` does not
   * exist, so the next directory is tried; otherwise the result of the search.
   */
  function Probe(path: string, stat: string -> Option<GoError>, read: string -> Result<string, GoError>):
    (v: Option<Result<string, GoError>>)
    ensures v.None? <==> stat(path).Some? && IsNotExist(stat(path).value)
    ensures v.Some? && v.value.Ok? ==> stat(path).None? && read(path).Ok? && v.value.value == BranchOfHeadName(read(path).value)
    ensures v.Some? && v.value.Err? && stat(path).None? ==> read(path).Err? && v.value.error.Annotated? && v.value.error.cause == read(path).error
    ensures v.Some? && stat(path).Some? ==> v.value == Err(stat(path).value)
  {
    match stat(path)
    case Some(e) => if IsNotExist(e) then None else Some(Err(e))
    case None =>
      match read(path)
      case Err(e) => Some(Err(Annotated("read \"" + path + "\"", e)))
      case Ok(content) => Some(Ok(BranchOfHeadName(content)))
  }

  /** Directory `k` is the first whose file exists or cannot be inspected. */
  predicate FirstDecisive(gitDir: string, dirs: seq<string>, k: int,
                          stat: string -> Option<GoError>, read: string -> Result<string, GoError>)
  {
    && 0 <= k < |dirs|
    && Probe(HeadFile(gitDir, dirs[k]), stat, read).Some?
    && forall i :: 0 <= i < k ==> Probe(HeadFile(gitDir, dirs[i]), stat, read).None?
  }

  /**
   * The loop over the state directories: the first directory whose file
   * exists (or cannot be inspected) decides the result; when none exists the
   * result is the empty name, meaning no rebase is in progress.
   */
  function SearchStateDirs(gitDir: string, dirs: seq<string>,
                           stat: string -> Option<GoError>, read: string -> Result<string, GoError>): (r: Result<string, GoError>)
    ensures (forall i :: 0 <= i < |dirs| ==> Probe(HeadFile(gitDir, dirs[i]), stat, read).None?) ==> r == Ok("")
    ensures forall k :: FirstDecisive(gitDir, dirs, k, stat, read) ==> r == Probe(HeadFile(gitDir, dirs[k]), stat, read).value
    decreases |dirs|
  {
    if dirs == [] then Ok("")
    else
      var rest := SearchStateDirs(gitDir, dirs[1..], stat, read);
      assert forall i :: 0 <= i < |dirs[1..]| ==> dirs[1..][i] == dirs[i + 1];
      assert forall k :: 0 < k && FirstDecisive(gitDir, dirs, k, stat, read) ==> FirstDecisive(gitDir, dirs[1..], k - 1, stat, read);
      match Probe(HeadFile(gitDir, dirs[0]), stat, read)
      case None => rest
      case Some(v) => v
  }

  /**
   * `RebaseHeadName`: the branch recorded under `rebase-apply`, else under
   * `rebase-merge`, else the empty name. A file that cannot be inspected for
   * any reason other than not existing ends the search with that error.
   */
  function RebaseHeadName(env: string, stat: string -> Option<GoError>, read: string -> Result<string, GoError>):
    (r: Result<string, GoError>)
    ensures var apply := HeadFile(GitDir(env), "rebase-apply");
      var merge := HeadFile(GitDir(env), "rebase-merge");
      && (Probe(apply, stat, read).Some? ==> r == Probe(apply, stat, read).value)
      && (Probe(apply, stat, read).None? ==> r == (if Probe(merge, stat, read).Some? then Probe(merge, stat, read).value else Ok("")))
  {
    SearchStateDirs(GitDir(env), RebaseStateDirs, stat, read)
  }

  /** Outside a rebase (neither file exists) the answer is the empty name. */
  lemma NotRebasing(env: string, stat: string -> Option<GoError>, read: string -> Result<string, GoError>)
    requires forall d :: d in RebaseStateDirs ==> stat(HeadFile(GitDir(env), d)) == Some(PathError("stat", HeadFile(GitDir(env), d), Errno(ENOENT)))
    ensures RebaseHeadName(env, stat, read) == Ok("")
  {
    assert RebaseStateDirs[0] in RebaseStateDirs && RebaseStateDirs[1] in RebaseStateDirs;
  }

  /** During a merge-based rebase of `name`, the name is read back from `rebase-merge/head-name`. */
  lemma MergeRebase(env: string, stat: string -> Option<GoError>, read: string -> Result<string, GoError>, name: string)
    requires name == [] || !IsSpace(name[|name| - 1])
    requires stat(HeadFile(GitDir(env), "rebase-apply")) == Some(PathError("stat", HeadFile(GitDir(env), "rebase-apply"), Errno(ENOENT)))
    requires stat(HeadFile(GitDir(env), "rebase-merge")).None?
    requires read(HeadFile(GitDir(env), "rebase-merge")) == Ok(HeadsPrefix + name + "\n")
    ensures RebaseHeadName(env, stat, read) == Ok(name)
  {
    BranchOfHeadNameRoundTrip(name, "\n");
  }
}
