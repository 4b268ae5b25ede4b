/**
 * `renameFile` and `unsafeRenameFile` of io.go: an atomic rename, with a
 * copy-then-delete fallback when the rename crosses devices.
 *
 * Every OS call is one step that may fail: a `Faults` value says which
 * steps fail and with what error. A step on a missing source fails with
 * ENOENT on its own.
 */
module GoRename {
  import opened Wrappers
  import opened GoErrors
  import opened FileSystem

  /** The injected outcome of each OS call, `None` when the call succeeds. */
  datatype Faults = Faults(
    rename: Option<GoError>,
    stat: Option<GoError>,
    open: Option<GoError>,
    create: Option<GoError>,
    copy: Option<GoError>,
    sync: Option<GoError>,
    chmod: Option<GoError>,
    closeW: Option<GoError>,
    closeR: Option<GoError>,
    remove: Option<GoError>)

  /** The returned error and the filesystem afterwards. */
  datatype Outcome = Outcome(err: Option<GoError>, fs: FS)

  /** A call on `p` that fails when injected to, or with ENOENT when `p` is missing. */
  function PathCall(fs: FS, op: string, p: string, fault: Option<GoError>): (e: Option<GoError>)
    ensures e.None? <==> fault.None? && p in fs
  {
    if fault.Some? then fault else if p !in fs then Some(PathError(op, p, Errno(ENOENT))) else None
  }

  /**
   * The deferred calls at lines 40-46, 57 and 63, in the order Go runs them:
   * close the destination, close the source, then remove the source only if
   * no error has been recorded.
   */
  function Deferred(err: Option<GoError>, fs: FS, src: string, f: Faults, closeW: bool): Outcome {
    var e1 := if closeW then Append(err, f.closeW) else err;
    var e2 := Append(e1, f.closeR);
    if e2.Some? then Outcome(e2, fs)
    else if f.remove.Some? then Outcome(f.remove, fs)
    else Outcome(None, Removed(fs, src))
  }

  /**
   * `unsafeRenameFile`. It succeeds exactly when the source exists and no
   * step fails; then the destination holds the source's bytes and mode,
   * whatever it held before, and the source is gone. The source is removed
   * only when every earlier step, both closes included, returned nil, so any
   * error leaves it where it was. Only the two paths are touched.
   */
  function UnsafeRenameFile(fs: FS, src: string, dst: string, f: Faults): (o: Outcome)
    ensures o.err.None? <==> src in fs && FallbackClean(f)
    ensures o.err.None? && src != dst ==> dst in o.fs && o.fs[dst] == fs[src] && src !in o.fs
    ensures o.err.Some? ==> (src in o.fs <==> src in fs) && (src != dst && src in fs ==> o.fs[src] == fs[src])
    ensures SameExcept(fs, o.fs, {src, dst})
  {
    var statErr := PathCall(fs, "stat", src, f.stat);
    if statErr.Some? then Outcome(statErr, fs)
    else
      var info := fs[src];
      var openErr := PathCall(fs, "open", src, f.open);
      if openErr.Some? then Outcome(openErr, fs)
      else if f.create.Some? then Deferred(f.create, fs, src, f, false)
      else
        var fs1 := Created(fs, dst);
        if f.copy.Some? then Deferred(f.copy, fs1, src, f, true)
        else
          // The source is read through its open handle, so when it is also the
          // destination it has just been truncated.
          var fs2 := WithData(fs1, dst, fs1[src].data);
          var fs3 := if f.chmod.None? then WithMode(fs2, dst, info.mode) else fs2;
          Deferred(Combine(f.sync, f.chmod), fs3, src, f, true)
  }

  /**
   * `renameFile`: a successful rename returns nil and moves the file with no
   * fallback; only an error that `errors.Is` matches to EXDEV, at any depth,
   * takes the fallback; any other error is returned as it is, with nothing
   * changed.
   */
  function RenameFile(fs: FS, src: string, dst: string, f: Faults): (o: Outcome)
    ensures f.rename.None? && src in fs ==> o == Outcome(None, Renamed(fs, src, dst))
    ensures f.rename.Some? && Is(f.rename.value, EXDEV) ==> o == UnsafeRenameFile(fs, src, dst, f)
    ensures f.rename.Some? && !Is(f.rename.value, EXDEV) ==> o == Outcome(f.rename, fs)
    ensures SameExcept(fs, o.fs, {src, dst})
    ensures src in fs && src !in o.fs ==> o.err.None?
  {
    var err := if f.rename.Some? then f.rename
      else if src !in fs then Some(LinkError("rename", src, dst, Errno(ENOENT)))
      else None;
    if err.None? then Outcome(None, Renamed(fs, src, dst))
    else if Is(err.value, EXDEV) then UnsafeRenameFile(fs, src, dst, f)
    else Outcome(err, fs)
  }

  /** Every step of the fallback succeeds. */
  predicate FallbackClean(f: Faults) {
    && f.stat.None? && f.open.None? && f.create.None? && f.copy.None?
    && f.sync.None? && f.chmod.None? && f.closeW.None? && f.closeR.None? && f.remove.None?
  }

  /** A failure to create the destination changes nothing. */
  lemma CreateFailureChangesNothing(fs: FS, src: string, dst: string, f: Faults)
    requires src in fs && f.stat.None? && f.open.None? && f.create.Some?
    ensures var o := UnsafeRenameFile(fs, src, dst, f); o.err.Some? && o.fs == fs
  {
  }

  /** A missing source makes the fallback fail with a not-exist error when nothing else fails first. */
  lemma MissingSource(fs: FS, src: string, dst: string, f: Faults)
    requires src !in fs
    ensures var o := UnsafeRenameFile(fs, src, dst, f); o.err.Some? && o.fs == fs
    ensures f.stat.None? ==> IsNotExist(UnsafeRenameFile(fs, src, dst, f).err.value)
  {
  }

  /**
   * Sync and Chmod are both attempted once the contents are copied: the
   * destination gets the source's mode whether or not Sync failed, and a
   * Sync failure is reported even when Chmod succeeds.
   */
  lemma SyncAndChmodBothRun(fs: FS, src: string, dst: string, f: Faults)
    requires src in fs && src != dst
    requires f.stat.None? && f.open.None? && f.create.None? && f.copy.None?
    ensures var o := UnsafeRenameFile(fs, src, dst, f);
      && (f.chmod.None? ==> dst in o.fs && o.fs[dst] == fs[src])
      && (f.sync.Some? ==> o.err.Some? && forall e :: e in Errors(f.sync) ==> e in Errors(o.err))
      && (f.chmod.Some? ==> o.err.Some? && forall e :: e in Errors(f.chmod) ==> e in Errors(o.err))
  {
    var combined := Combine(f.sync, f.chmod);
    var e1 := Append(combined, f.closeW);
    var e2 := Append(e1, f.closeR);
    assert Errors(e2) == Errors(f.sync) + Errors(f.chmod) + Errors(f.closeW) + Errors(f.closeR);
  }
}
