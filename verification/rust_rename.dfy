/**
 * `rename`, `rename_impl` and `unsafe_rename` of src/io.rs: an atomic
 * rename, with a copy-then-delete fallback when the OS reports error 18
 * (EXDEV, a rename across devices).
 *
 * Every OS call is one step that may fail: a `Faults` value says which
 * steps fail and with what error. A step on a missing source fails with
 * NotFound on its own. Closing the two files is not checked by the source
 * (they are dropped), so it has no step here.
 */
module RustRename {
  import opened Wrappers
  import opened RustErrors
  import opened FileSystem

  /** The injected outcome of each OS call, `None` when the call succeeds. */
  datatype Faults = Faults(
    rename: Option<IoError>,
    metadata: Option<IoError>,
    open: Option<IoError>,
    create: Option<IoError>,
    copy: Option<IoError>,
    setPermissions: Option<IoError>,
    remove: Option<IoError>)

  /** The steps of `unsafe_rename`, in the order it runs them. */
  datatype Stage = Metadata | OpenSource | CreateDestination | Copy | SetPermissions | RemoveSource

  const Stages: seq<Stage> := [Metadata, OpenSource, CreateDestination, Copy, SetPermissions, RemoveSource]

  /** The returned error and the filesystem afterwards. */
  datatype Outcome = Outcome(res: Result<(), Error>, fs: FS)

  const NotFoundError: IoError := IoError(NotFound, Some(ENOENT))

  /** The context message each step adds to its error. */
  function StageContext(s: Stage, src: string): string {
    match s
    case Metadata => "cannot inspect " + src
    case OpenSource => "cannot open source"
    case CreateDestination => "cannot open destination"
    case Copy => "copy contents"
    case SetPermissions => "cannot update destination permissions"
    case RemoveSource => "cannot delete source file"
  }

  /**
   * The error of step `s` on its own: the injected fault, or NotFound for a
   * missing source at the steps that read it.
   */
  function StageError(s: Stage, fs: FS, src: string, f: Faults): Option<IoError> {
    match s
    case Metadata => if f.metadata.Some? then f.metadata else if src !in fs then Some(NotFoundError) else None
    case OpenSource => if f.open.Some? then f.open else if src !in fs then Some(NotFoundError) else None
    case CreateDestination => f.create
    case Copy => f.copy
    case SetPermissions => f.setPermissions
    case RemoveSource => f.remove
  }

  /** The first of `stages` that fails, if any. */
  function FirstFailing(stages: seq<Stage>, fs: FS, src: string, f: Faults): (s: Option<Stage>)
    ensures s.Some? ==> s.value in stages && StageError(s.value, fs, src, f).Some?
    ensures s.None? <==> forall i :: 0 <= i < |stages| ==> StageError(stages[i], fs, src, f).None?
    // Every stage before the one returned succeeds.
    ensures s.Some? ==> exists k :: 0 <= k < |stages| && stages[k] == s.value && FailsFirstAt(stages, fs, src, f, k)
    decreases |stages|
  {
    if stages == [] then None
    else if StageError(stages[0], fs, src, f).Some? then
      assert FailsFirstAt(stages, fs, src, f, 0);
      Some(stages[0])
    else
      FailsFirstShift(stages, fs, src, f);
      FirstFailing(stages[1..], fs, src, f)
  }

  /** Past a stage that succeeds, the first failing stage of the rest is the first of all. */
  lemma FailsFirstShift(stages: seq<Stage>, fs: FS, src: string, f: Faults)
    requires stages != [] && StageError(stages[0], fs, src, f).None?
    ensures forall k :: FailsFirstAt(stages[1..], fs, src, f, k) ==>
      FailsFirstAt(stages, fs, src, f, k + 1) && stages[k + 1] == stages[1..][k]
  {
  }

  /** Stage `k` of `stages` is the first that fails. */
  ghost predicate FailsFirstAt(stages: seq<Stage>, fs: FS, src: string, f: Faults, k: int) {
    && 0 <= k < |stages|
    && StageError(stages[k], fs, src, f).Some?
    && forall i :: 0 <= i < k ==> StageError(stages[i], fs, src, f).None?
  }

  /** The error a failing step returns. */
  function StageFailure(s: Stage, fs: FS, src: string, f: Faults): Error
    requires StageError(s, fs, src, f).Some?
  {
    WithContext(FromIo(StageError(s, fs, src, f).value), StageContext(s, src))
  }

  /**
   * `unsafe_rename`: the first failing step, in the fixed order, decides the
   * error and no later step runs. Removing the source is the last step, so
   * any failure leaves it where it was; on success the destination holds the
   * source's bytes and the permissions read from the source before copying,
   * and the source is gone. Only the two paths are touched.
   */
  function UnsafeRename(fs: FS, src: string, dst: string, f: Faults): (o: Outcome)
    ensures var first := FirstFailing(Stages, fs, src, f);
      && (o.res.Ok? <==> first.None?)
      && (first.Some? ==> o.res == Err(StageFailure(first.value, fs, src, f)))
    ensures o.res.Err? ==> (src in o.fs <==> src in fs) && (src != dst && src in fs ==> o.fs[src] == fs[src])
    ensures o.res.Ok? && src != dst ==> dst in o.fs && o.fs[dst] == fs[src] && src !in o.fs
    ensures SameExcept(fs, o.fs, {src, dst})
  {
    FirstFailingStages(fs, src, f);
    if StageError(Metadata, fs, src, f).Some? then Failed(Metadata, fs, src, f, fs)
    else
      var md := fs[src].mode;
      if StageError(OpenSource, fs, src, f).Some? then Failed(OpenSource, fs, src, f, fs)
      else if f.create.Some? then Failed(CreateDestination, fs, src, f, fs)
      else
        var fs1 := Created(fs, dst);
        if f.copy.Some? then Failed(Copy, fs, src, f, fs1)
        else
          // The source is read through its open handle, so when it is also the
          // destination it has just been truncated.
          var fs2 := WithData(fs1, dst, fs1[src].data);
          if f.setPermissions.Some? then Failed(SetPermissions, fs, src, f, fs2)
          else
            var fs3 := WithMode(fs2, dst, md);
            if f.remove.Some? then Failed(RemoveSource, fs, src, f, fs3)
            else Outcome(Ok(()), Removed(fs3, src))
  }

  /** Step `s` failed; `now` is the filesystem at that point. */
  function Failed(s: Stage, fs: FS, src: string, f: Faults, now: FS): (o: Outcome)
    requires StageError(s, fs, src, f).Some?
    ensures o.res.Err? && o.fs == now
  {
    Outcome(Err(StageFailure(s, fs, src, f)), now)
  }

  /** The first failing step of `unsafe_rename`, spelled out. */
  lemma FirstFailingStages(fs: FS, src: string, f: Faults)
    ensures FirstFailing(Stages, fs, src, f) ==
      if StageError(Metadata, fs, src, f).Some? then Some(Metadata)
      else if StageError(OpenSource, fs, src, f).Some? then Some(OpenSource)
      else if f.create.Some? then Some(CreateDestination)
      else if f.copy.Some? then Some(Copy)
      else if f.setPermissions.Some? then Some(SetPermissions)
      else if f.remove.Some? then Some(RemoveSource)
      else None
  {
    assert StageError(CreateDestination, fs, src, f) == f.create && StageError(Copy, fs, src, f) == f.copy;
    assert StageError(SetPermissions, fs, src, f) == f.setPermissions && StageError(RemoveSource, fs, src, f) == f.remove;
    FirstFailingOfSix(Metadata, OpenSource, CreateDestination, Copy, SetPermissions, RemoveSource, fs, src, f);
  }

  /** `FirstFailing` on six stages, one unfolding at a time. */
  lemma FirstFailingOfSix(a: Stage, b: Stage, c: Stage, d: Stage, e: Stage, g: Stage, fs: FS, src: string, f: Faults)
    ensures FirstFailing([a, b, c, d, e, g], fs, src, f) ==
      if StageError(a, fs, src, f).Some? then Some(a)
      else if StageError(b, fs, src, f).Some? then Some(b)
      else if StageError(c, fs, src, f).Some? then Some(c)
      else if StageError(d, fs, src, f).Some? then Some(d)
      else if StageError(e, fs, src, f).Some? then Some(e)
      else if StageError(g, fs, src, f).Some? then Some(g)
      else None
  {
    var s6, s5, s4, s3, s2, s1 := [a, b, c, d, e, g], [b, c, d, e, g], [c, d, e, g], [d, e, g], [e, g], [g];
    assert s6[1..] == s5 && s5[1..] == s4 && s4[1..] == s3 && s3[1..] == s2 && s2[1..] == s1 && s1[1..] == [];
    FirstFailingCons(s1, fs, src, f);
    FirstFailingCons(s2, fs, src, f);
    FirstFailingCons(s3, fs, src, f);
    FirstFailingCons(s4, fs, src, f);
    FirstFailingCons(s5, fs, src, f);
    FirstFailingCons(s6, fs, src, f);
  }

  /** One unfolding of `FirstFailing`. */
  lemma FirstFailingCons(stages: seq<Stage>, fs: FS, src: string, f: Faults)
    requires stages != []
    ensures FirstFailing(stages, fs, src, f) ==
      if StageError(stages[0], fs, src, f).Some? then Some(stages[0]) else FirstFailing(stages[1..], fs, src, f)
  {
  }

  /** `rename_impl` with the injected `fs::rename`. */
  function RenameImpl(fs: FS, src: string, dst: string, f: Faults): (o: Outcome)
    ensures f.rename.None? && src in fs ==> o == Outcome(Ok(()), Renamed(fs, src, dst))
    ensures f.rename.Some? && f.rename.value.raw == Some(EXDEV) ==> o == UnsafeRename(fs, src, dst, f)
    ensures f.rename.Some? && f.rename.value.raw != Some(EXDEV) ==> o == Outcome(Err(FromIo(f.rename.value)), fs)
  {
    var err := if f.rename.Some? then f.rename else if src !in fs then Some(NotFoundError) else None;
    match err
    case None => Outcome(Ok(()), Renamed(fs, src, dst))
    case Some(e) => if e.raw == Some(EXDEV) then UnsafeRename(fs, src, dst, f) else Outcome(Err(FromIo(e)), fs)
  }
}
