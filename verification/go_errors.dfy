/**
 * The error values of the Go implementation, as far as the modelled code
 * inspects them: `syscall.Errno`, `*os.PathError`, `*os.LinkError`, errors
 * made by `fmt.Errorf` with `%v` (which hide their cause from `errors.Is`),
 * and the combined errors of `go.uber.org/multierr`.
 */
module GoErrors {
  import opened Wrappers

  datatype GoError =
    | Errno(code: int)
    | PathError(op: string, path: string, err: GoError)
    | LinkError(op: string, oldPath: string, newPath: string, err: GoError)
    | Annotated(msg: string, cause: GoError)
    | Multi(errs: seq<GoError>)

  /** Linux errno values the code relies on. */
  const ENOENT: int := 2
  const EXDEV: int := 18

  /**
   * `errors.Is(e, syscall.Errno(code))`: path and link errors unwrap to their
   * cause, a combined error matches if any part does, `%v` annotations do
   * not unwrap.
   */
  predicate Is(e: GoError, code: int)
    decreases e
  {
    match e
    case Errno(c) => c == code
    case PathError(_, _, inner) => Is(inner, code)
    case LinkError(_, _, _, inner) => Is(inner, code)
    case Annotated(_, _) => false
    case Multi(errs) => exists i :: 0 <= i < |errs| && Is(errs[i], code)
  }

  /**
   * `os.IsNotExist`: looks through one path or link error only, and does not
   * follow any other wrapping.
   */
  predicate IsNotExist(e: GoError) {
    match e
    case PathError(_, _, inner) => inner == Errno(ENOENT)
    case LinkError(_, _, _, inner) => inner == Errno(ENOENT)
    case _ => e == Errno(ENOENT)
  }

  /** The individual errors an optional error stands for (`multierr.Errors`). */
  function Errors(e: Option<GoError>): seq<GoError> {
    match e
    case None => []
    case Some(Multi(errs)) => errs
    case Some(one) => [one]
  }

  /**
   * `multierr.Append`: nil on either side gives the other side; otherwise one
   * combined error holding the parts of both, in order.
   */
  function Append(a: Option<GoError>, b: Option<GoError>): (r: Option<GoError>)
    ensures r.None? <==> a.None? && b.None?
    ensures Errors(r) == Errors(a) + Errors(b)
  {
    if a.None? then b
    else if b.None? then a
    else Some(Multi(Errors(a) + Errors(b)))
  }

  /** `multierr.Combine` of two results: both are kept, in order. */
  function Combine(a: Option<GoError>, b: Option<GoError>): (r: Option<GoError>)
    ensures r.None? <==> a.None? && b.None?
    ensures Errors(r) == Errors(a) + Errors(b)
  {
    Append(a, b)
  }

  /** An error found among the parts of a combined result is one of them. */
  lemma AppendKeeps(a: Option<GoError>, b: Option<GoError>, e: GoError)
    requires e in Errors(a) || e in Errors(b)
    ensures Append(a, b).Some? && e in Errors(Append(a, b))
  {
  }
}
