# restack, modelled in Dafny

restack rewrites the todo list of an interactive `git rebase`. It makes one
pass over the lines. After each commit that a local branch points at, it
injects an `exec git branch -f <branch>` line, so the branch follows its
commit through the rebase. It then adds a commented-out section of
`git push -f` commands for the branches it moved. The repository holds two
generations of this engine, and each is modelled as its own function:

- `src/restack.rs`, the Rust engine. Module `RustRestack`, with the whole-run
  properties in `RustRestackProperties`.
- `restack.go`, the older Go engine. Module `GoRestack`, with
  `GoRestackProperties`.

Around them, the model covers:

- **Rename with a cross-device fallback.** `GoRename` models `io.go` and
  `RustRename` models `src/io.rs`. Both run over an abstract filesystem
  (`FileSystem`), and every OS call takes an injected outcome.
- **Git plumbing with no process in it.** `GoGit` models `git.go`, and
  `RustGit` models `src/git/rebase_head.rs` and `src/git/shell.rs`. This
  covers:
  - `git show-ref` parsing;
  - the search of git's rebase state for the branch being rebased;
  - the `.git` directory computation;
  - the command description used in error messages.
- **The changelog-section extractor** `scripts/extract_changelog.go`
  (`Changelog`). `run` writes body lines to its `out` writer but the
  empty line between paragraphs with `fmt.Println`, to standard output.
  `Changelog.Render` interleaves the two streams into one. That is exact
  because `main` passes standard output as `out` (line 19). In the
  Changelog rows, "the output" means this interleaved text.

Output is modelled as tagged lines (`Instructions.Line`): copied input lines,
branch updates, the push header and push commands. `Instructions.Render`
gives the text of each line. The properties are stated over four views of
the output:

- the copied lines (`Echoed`);
- the moved branches (`UpdatedNames`);
- the pushed branches (`PushedNames`);
- the number of push headers (`Headers`).

Git, the filesystem and the environment are parameters:

- the branch being rebased;
- the branch list (Rust), or the map from commit hash to refs (Go);
- `stat`/`open`/`read` oracles from path to result;
- the value of `GIT_DIR`;
- the output of `git show-ref` and `git rev-parse`, given as text.

Errors are values:

- `GoErrors` covers `errors.Is`, `os.IsNotExist` and `multierr`.
- `RustErrors` covers `io::Error` with its kind and raw errno, and
  `anyhow::Error` with its context chain.

Shared vocabulary lives in four modules:

- `Wrappers`: `Option` and `Result`.
- `Seqs`: subsequences, flat-map, counting, and the map from parsed items to the lines they came from.
- `Text`: prefixes, `Split`/`SplitN`/`Join`, Unicode whitespace trimming and
  Rust `Path::join`.
- `StringOrder`: Go's string `<`.

## Model

| member | source | states |
|---|---|---|
| RustRestack.Kept | src/restack.rs:136-143 | The branches flushed from the pending list: exactly the pending ones not named after the rebase branch, in order, none dropped and none added. |
| RustRestack.UpdatePreviousBranches | src/restack.rs:134-151 | A flush empties the pending list and appends the kept branches to the updated list. It writes one directive per kept branch, followed by one empty line exactly when a directive was written, and it reports whether it wrote one. With nothing kept it writes nothing. |
| RustRestack.FlushViews | src/restack.rs:134-151 | A flush adds the kept branch names to the moved-branch view and leaves the copied lines, pushes and headers alone. |
| RustRestack.PushSection | src/restack.rs:118-127 | The push block: an optional leading empty line, the header, one push command per updated branch in update order, and an optional trailing empty line. |
| RustRestack.PushSectionViews | src/restack.rs:118-127 | The push block pushes exactly the given names, has one header and copies no input. |
| RustRestack.WritePushSection | src/restack.rs:104-130 | The first call marks the section written even when it writes nothing, and later calls change nothing. Output appears only when some branch was updated and a remote is set. Pending and updated branches are untouched. |
| RustRestack.FixupIsPlain | src/restack.rs:49-61 | A fixup or squash line is neither empty nor a comment. |
| RustRestack.Matching | src/restack.rs:83-85 | The branches collected for a pick line: the branches whose short hash equals the line's hash exactly, in list order, each as often as it occurs. |
| RustRestack.EmptyLine | src/restack.rs:35-45 | At an empty input line the pending branches are flushed, and one empty line is written whether or not directives were. |
| RustRestack.FlushUnlessFixup | src/restack.rs:56-66 | A fixup/squash line leaves the state alone. Any other line moves exactly the kept pending branches (the pending ones not named after the rebase branch) to the updated list. It writes one directive for each of them, then one empty line when there was any, and leaves nothing pending. |
| RustRestack.CopyAndCollect | src/restack.rs:68-85 | The line is copied verbatim. Only a pick/reword/edit line with a hash adds branches to the pending list, namely the matching ones. |
| RustRestack.PickIsNotFixup | src/restack.rs:58-81 | A line that collects branches is never a fixup/squash line. |
| RustRestack.StepAppends | src/restack.rs:33-86 | One loop iteration only appends to the output, and its last line is the input line, copied verbatim. |
| RustRestack.StepState | src/restack.rs:33-86 | Fixup/squash lines keep the updated list. Any other line first appends the kept pending branches. A pick line's matches replace the pending list, while other lines leave it empty or, for fixups, unchanged. The push flag is set at the first comment. |
| RustRestack.StepViews | src/restack.rs:33-86 | One iteration adds its line to the copied lines and the newly updated branches to the moved view. It adds a push block of the previously updated branches only at a comment that emits it. |
| RustRestack.EmptyLineViews | src/restack.rs:35-45 | At an empty line, the moved view grows by exactly the kept pending branches. |
| RustRestack.Restack | src/restack.rs:13-19 | The first failure is returned with its context, in this order: the working directory ("determine working directory"), the rebase head ("determine the rebase head"), then the branch list ("list branches"). Otherwise the rewrite succeeds. |
| RustRestackProperties.OutputStep | src/restack.rs:33-86 | The output invariant survives one iteration. The invariant covers: copied lines equal the input so far; the moved view equals the updated list; pushes are a prefix of it; at most one header; the push flag is set iff a comment was seen. |
| RustRestackProperties.ExclusionStep | src/restack.rs:136-143 | No iteration ever puts the rebase branch in the updated list. |
| RustRestackProperties.ProvenanceStep | src/restack.rs:71-85 | Every pending or updated branch is a listed branch whose hash was picked by some earlier line. |
| RustRestackProperties.CompletenessStep | src/restack.rs:71-85 | Every listed branch (other than the rebase branch) whose hash some line picked is pending or updated. |
| RustRestackProperties.InvariantRun | src/restack.rs:33-86 | The output and branch invariants hold after the loop over any input. |
| RustRestackProperties.FinishOutput | src/restack.rs:88-89 | After the final flush and push section: every input line is copied; at most one header; without a remote, no push section; with a remote, no comment and some update, every updated branch is pushed. |
| RustRestackProperties.FinishBranches | src/restack.rs:88-89 | The final flush leaves nothing pending and keeps the branch invariant. |
| RustRestackProperties.RestackLinesOutput | src/restack.rs:33-89 | For the whole rewrite: copied lines equal the input in order; at most one push header; pushed branches are a prefix of the moved ones; no remote means no push section; without a comment line the section lists every moved branch. |
| RustRestackProperties.RestackLinesBranches | src/restack.rs:33-89 | For the whole rewrite: the rebase branch is never moved; each moved branch is a listed branch whose hash was picked; each listed branch picked by some line (except the rebase branch) is moved. |
| RustRestackProperties.UntouchedIsUnchanged | src/restack.rs:33-89 | An input with no empty line and no pick of a known hash comes back exactly as it was. |
| RustRestackProperties.EmptyLineDoubled | src/restack.rs:39-44 | An empty input line with nothing to flush is written twice. |
| RustRestackProperties.CommentPushesBeforeFlush | src/restack.rs:47-69 | At the first comment line the push section is written before the pending directives, so it lists only branches moved before the comment. |
| Instructions.EchoedIsSubseqOfRendered | src/restack.rs:69 | The copied lines appear, in order, within the rendered output, so the input is a subsequence of the output. |
| GoRestack.PushSection | restack.go:121-139 | Nothing when the branch list or the remote is empty. Otherwise: an empty line, the header "Uncomment this section to push the changes.", then one push command per branch in order. |
| GoRestack.PushSectionViews | restack.go:123-137 | A non-empty push section pushes exactly the given branches with one header; an empty one pushes nothing. |
| GoRestack.Moved | restack.go:93-104 | The branches moved for a known commit: its refs without `refs/heads/`, in order, all except the rebasing branch. Exactly as many names are dropped as there are refs naming the rebasing branch. |
| GoRestack.StepOrder | restack.go:60-110 | The order of one iteration's output after what was there: at an empty line the push section, then the copied line, then one directive per moved branch, then one empty line exactly when a directive was written. |
| GoRestack.Restack | restack.go:40-52 | An error from the rebase head is returned first, then one from the branch inventory; otherwise the rewrite succeeds. |
| GoRestackProperties.StepViews | restack.go:60-110 | One iteration adds its line to the copied lines and exactly the line's moves to the moved view. A push block of all branches so far appears only at an empty line with a remote and some branch. |
| GoRestackProperties.InvariantRun | restack.go:60-110 | After the loop: copied lines equal the input; the moved view equals the moves of all lines so far; the push flag is set iff an empty line was seen; no push without a flag or a remote; the rebasing branch is never moved. |
| GoRestackProperties.RestackLinesProperties | restack.go:60-119 | For the whole rewrite: the input is copied in order; exactly the moves of the known `pick ` lines are written, never the rebasing branch; no remote means no push; with no empty line the single end section pushes every moved branch. |
| GoRestackProperties.UntouchedIsUnchanged | restack.go:60-119 | An input in which no `pick ` line moves a branch comes back exactly as it was, empty lines included, since every push section is then empty. |
| GoRestackProperties.OnlyRebasingMovesNothing | restack.go:93-97 | A commit whose only branch is the one being rebased adds no directive. |
| GoRestackProperties.MovedOnlyRebasing | restack.go:93-97 | Refs that all name the rebasing branch move nothing. |
| GoErrors.Append | io.go:57-63 | `multierr.Append`: nil only when both are nil, and the parts are both sides' parts in order. |
| GoErrors.Combine | io.go:69-72 | `multierr.Combine` of Sync and Chmod keeps both errors, in that order. |
| GoErrors.AppendKeeps | io.go:69-72 | An error among the parts of either side is among the parts of the result. |
| FileSystem.Created | io.go:59 | Creating a path leaves an empty file there. An existing file keeps its mode, and a new one gets 0o666. No other path changes. |
| FileSystem.Renamed | io.go:15 | A rename gives the destination the source's file and removes the source unless both are the same path; nothing else changes. |
| GoRename.PathCall | io.go:48-56 | A call on a path succeeds exactly when it is not made to fail and the path exists. |
| GoRename.UnsafeRenameFile | io.go:39-73 | Success exactly when the source exists and no step fails. Then the destination holds the source's bytes and mode, and the source is gone. Any error leaves the source as it was. Only the two paths change. |
| GoRename.RenameFile | io.go:14-34 | A successful rename returns nil with no fallback. Only an error matching EXDEV (through path, link and combined errors) takes the fallback. Any other error is returned as is, with nothing changed. The source disappears only on success. |
| GoRename.CreateFailureChangesNothing | io.go:59-62 | A failure to create the destination returns an error and changes nothing. |
| GoRename.MissingSource | io.go:48-51 | A missing source makes the fallback fail, with a not-exist error when nothing else fails first, and changes nothing. |
| GoRename.SyncAndChmodBothRun | io.go:69-72 | After the copy, Chmod runs whether or not Sync failed, and the error of each is part of the result. |
| RustRename.FirstFailing | src/io.rs:40-53 | A failing step such that every step before it succeeds, or none exactly when every step succeeds. |
| RustRename.FirstFailingStages | src/io.rs:40-53 | The steps are tried in the order metadata, open source, create destination, copy, set permissions, remove source. |
| RustRename.UnsafeRename | src/io.rs:40-53 | It succeeds exactly when no step fails. Otherwise the error is the first failing step's error with that step's context. An error leaves the source in place. Success moves the source's bytes and the mode read at the start to the destination and removes the source. |
| RustRename.RenameImpl | src/io.rs:8-32 | An Ok rename moves the file with no further step. Only raw OS error 18 takes the fallback. Any other error is returned wrapped, with nothing changed. |
| GoGit.ParseShowRefLine | git.go:105-115 | A line yields a branch exactly when it splits into two space-separated fields. The hash and the name contain no space, and the line is the hash, a space and the ref (`refs/heads/` plus the name, or the name itself). |
| GoGit.ParseShowRefLineRoundTrip | git.go:106-114 | The line printed for a branch parses back to that branch. |
| GoGit.ParseGitShowRef | git.go:101-118 | The result holds exactly the branches of the well-formed lines, never more entries than lines. |
| GoGit.ParseGitShowRefOrder | git.go:101-118 | The branches come from the well-formed lines one for one, in the order of the lines, with no well-formed line skipped. |
| GoGit.ParseGitShowRefRoundTrip | git.go:101-118 | The output printed for a list of branches parses back to the same list, in order. |
| GoGit.SortByName | git.go:95-97 | The same branches (as a multiset), ordered by name. |
| GoGit.ListBranches | git.go:94-98 | The parsed branches, the same multiset, sorted by name, holding exactly the branches of the well-formed lines. |
| GoGit.GitDir | git.go:52-55 | `GIT_DIR` when non-empty, `.git` otherwise. |
| GoGit.Probe | git.go:58-73 | A not-exist stat error moves on. Any other stat error is returned as is. A read error is returned annotated. Otherwise the result is the trimmed contents without `refs/heads/`. |
| GoGit.SearchStateDirs | git.go:57-76 | The first directory whose file exists or cannot be inspected decides. With none, the result is the empty name and no error. |
| GoGit.RebaseHeadName | git.go:45-77 | `rebase-apply` is consulted before `rebase-merge`, and the empty name means no rebase. |
| GoGit.BranchOfHeadNameRoundTrip | git.go:72-73 | `refs/heads/<name>` followed by trailing whitespace reads back as `<name>`. |
| GoGit.NotRebasing | git.go:57-76 | When neither `head-name` exists, the answer is the empty name without error. |
| GoGit.MergeRebase | git.go:57-73 | During a merge-based rebase of a branch, that branch's name is read back. |
| StringOrder.LessTotal | git.go:95-97 | Any two different names are ordered one way or the other. |
| StringOrder.LessTransitive | git.go:95-97 | The name order is transitive. |
| RustGit.Subcommand | src/git/shell.rs:213-216 | The first argument not starting with `-`, or none exactly when every argument does. |
| RustGit.CmdDesc | src/git/shell.rs:211-221 | The program, a space and the first non-flag argument, or the program alone when all arguments are flags. |
| RustGit.ParseShowRefLine | src/git/shell.rs:127-138 | A line yields a branch exactly when it has at least two space-separated pieces and the second starts with `refs/heads/`. The line then starts with the printed form of that branch, followed by nothing or a space. |
| RustGit.ParseShowRefLineRoundTrip | src/git/shell.rs:127-138 | The line printed for a branch parses back to that branch, whatever further pieces follow. |
| RustGit.ParseShowRef | src/git/shell.rs:121-139 | The result holds exactly the branches of the accepted lines, never more entries than lines. |
| RustGit.ParseShowRefOrder | src/git/shell.rs:121-139 | The branches come from the accepted lines one for one, in the order of the lines, with no accepted line skipped. |
| RustGit.ParseShowRefRoundTrip | src/git/shell.rs:121-139 | The output printed for a list of branches parses back to the same list, in order. |
| RustGit.GitDir | src/git/shell.rs:86-93 | The output with trailing whitespace removed: as is when absolute. Otherwise it is joined onto the queried directory: the result starts with the directory and ends with the output. A single `/` sits between them exactly when the directory is non-empty and does not already end in `/`. |
| RustGit.Probe | src/git/rebase_head.rs:25-41 | A NotFound open error moves on. Any other open error is returned with "failed to open <path>". A read error is returned with "failed to read rebase state from <path>". Otherwise the result is the trimmed contents without `refs/heads/`. |
| RustGit.SearchStateDirs | src/git/rebase_head.rs:24-46 | The first directory whose file is found or cannot be opened decides. With none, the result is the "not currently rebasing" error. |
| RustGit.RebaseHeadName | src/git/rebase_head.rs:21-47 | A failure to find `.git` is reported first, with "cannot find .git directory". Then `rebase-apply` is consulted before `rebase-merge`. |
| RustGit.NotRebasingIsAnError | src/git/rebase_head.rs:46 | With neither `head-name` present, the answer is an error, not an empty name. |
| RustGit.MergeRebase | src/git/rebase_head.rs:24-40 | During a merge-based rebase of a branch, that branch's name is read back. |
| RustGit.BranchOfHeadNameRoundTrip | src/git/rebase_head.rs:39-40 | `refs/heads/<name>` followed by trailing whitespace reads back as `<name>`. |
| Text.SplitJoin | git.go:106 | Splitting pieces joined by a separator they do not contain gives the pieces back. |
| Text.JoinPath | src/git/shell.rs:90-93 | Joining an absolute path gives that path. Joining a relative one gives the base, then a single `/` exactly when the base is non-empty and does not already end in `/`, then the joined path. |
| Text.TrimSpacePadded | git.go:72 | Trimming whitespace recovers a text from any whitespace around it. |
| Changelog.TrimDashesEmpty | scripts/extract_changelog.go:51 | Trimming dashes gives the empty string exactly for lines made of dashes, including the empty line. |
| Changelog.StepLine | scripts/extract_changelog.go:44-82 | An error comes only from a non-dash line right after the version line. A step writes nothing, the line itself, or an empty line followed by the line itself, and what it writes is never empty. While printing, a line starting with `v` ends the section, and so does a second empty line. Any other non-empty line is printed as it is. |
| Changelog.ErrorsWriteNothing | scripts/extract_changelog.go:44-93 | Every error is returned before anything was written and before the body was reached. |
| Changelog.WrittenShape | scripts/extract_changelog.go:71-78 | Written lines are never empty, and each `fmt.Println` empty line is followed by a written line. |
| Changelog.WrittenInOrder | scripts/extract_changelog.go:62-79 | The written lines are input lines, verbatim and in input order. |
| Changelog.BodyIsContiguous | scripts/extract_changelog.go:62-79 | From the printing state the output is an unbroken prefix of the remaining input. |
| Changelog.HeaderSucceeds | scripts/extract_changelog.go:56-61 | Below the underline, the run succeeds exactly when some non-empty line follows. |
| Changelog.SearchSucceeds | scripts/extract_changelog.go:44-61 | From the start, the run succeeds exactly when the first version line is followed by a dash line and then by some non-empty line. |
| Changelog.RunSucceedsIff | scripts/extract_changelog.go:32-94 | `run` returns nil exactly when the changelog has such a section, and it fails having written nothing otherwise. |
| Changelog.SectionBody | scripts/extract_changelog.go:44-79 | With a section, the output is an unbroken run of input lines starting at the first content line below the underline. |
| Changelog.FirstStop | scripts/extract_changelog.go:62-79 | Every body has exactly one end: the first place where the section stops. |
| Changelog.PrintingEnd | scripts/extract_changelog.go:62-79 | From the printing state, the output is exactly the input lines up to the section's end: a line starting with `v` after a content line, two empty lines, or the end of the file. |
| Changelog.SectionText | scripts/extract_changelog.go:44-79 | With a section, the output is exactly the input lines from the first content line below the underline up to the section's end. |

## Left out

- I/O errors of writers, readers and scanners (`Fprintln`, `writeln!`, `scanner.Err()`, `lines()` read errors) are not modelled. Input arrives as a sequence of lines, already split; bufio's 64 KiB line limit and the final-newline handling are not modelled.
- Subprocess handling is not modelled. This covers spawning `git`, its exit status, the stderr reader thread, `cmd.Wait()` in Go's `ListBranches`, and `run_cmd`/`run_cmd_stdout`. Only the parsing of the output is modelled. The `git_dir` UTF-8 check is left out because strings are sequences of characters.
- `restack.go:49` calls `ListHeads`, which the `Git` interface in git.go:27-33 does not declare. The hash-to-refs map it returns is therefore an input of `GoRestack.Restack`.
- The wiring of `restack` in src/restack.rs:14-19 is reduced to its inputs. The working directory, the rebase head and the branch listing become parameters of `RustRestack.Restack`, each a result that may carry an error. The order and context of those errors are kept. The `git::Shell` is not modelled.
- Edit orchestration, setup, the command line, the changelog program's `main`, and opening CHANGELOG.md are not modelled. Their only logic is process and file handling.
- GoGit.HeadFile: the path is joined with `/` without `filepath.Clean`, so a `GIT_DIR` with a trailing slash or `..` is not normalised.
- GoGit.Probe: the annotation is `read "<path>"` without Go's `%q` escaping and without the `: <cause>` text. The cause is kept as a separate field.
- GoGit.SortByName: `sort.Slice` is not stable. The contract promises only what Go does (same branches, names in order), and the function returns one of the allowed orders.
- GoRename.UnsafeRenameFile: a failed copy leaves the destination empty. A real partial copy may leave some of the data there.
- RustRename.UnsafeRename: a failed copy leaves the destination empty. Close errors are not modelled because Rust drops files without reporting them.
- FileSystem.Created: the mode of a new file is 0o666, without the process umask.
- Directories, links and durability (`Sync`) have no filesystem effect in the model. Sync is only a step that may fail.
- Changelog: the `default` branch of the switch is unreachable, because the state is an enumeration. Failing to open CHANGELOG.md and scanner errors are not modelled.

## Where the code and its tests disagree

The model follows the code:

- The Rust header text at src/restack.rs:121 is "Uncomment this section to push changes.". src/restack/tests.rs expects "push the changes.", and the Go engine uses the latter (restack.go:121).
- src/restack/tests.rs drives a `Config::new(..).restack(..)` API with an optional remote. The code's free function at src/restack.rs:13 always passes `Some(remote_name)`, so `RustRestack.Restack` sets the remote.
- At a comment line, src/restack.rs writes the push section before flushing the pending branches (lines 49-53 precede line 63). The test `comment_after_instructions` (src/restack/tests.rs:318-343) expects the flush first: its last branch directive comes before the push section. `RustRestackProperties.CommentPushesBeforeFlush` states the code's order.
- The Rust engine writes the push section only at the first comment line or at the end, never at an empty line. An empty input line with nothing to flush is written twice (lines 43 and 69).
- restack_test.go expects deferred fixup handling. restack.go flushes right after each `pick ` line and ignores fixup and squash lines.
