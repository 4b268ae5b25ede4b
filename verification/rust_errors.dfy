/** The error values of the Rust implementation: `std::io::Error` and `anyhow::Error`. */
module RustErrors {
  import opened Wrappers

  /** `std::io::ErrorKind`, as far as the modelled code tells kinds apart. */
  datatype ErrorKind = NotFound | PermissionDenied | InvalidData | OtherKind

  /** `std::io::Error`: a kind and, for errors reported by the OS, the raw errno. */
  datatype IoError = IoError(kind: ErrorKind, raw: Option<int>)

  /** The root cause of an `anyhow::Error`. */
  datatype Cause = Io(io: IoError) | Message(text: string)

  /** `anyhow::Error`: a root cause wrapped in context messages, outermost first. */
  datatype Error = Error(context: seq<string>, cause: Cause)

  /** Linux errno values the code relies on. */
  const ENOENT: int := 2
  const EXDEV: int := 18

  /** `anyhow::Error::new` on an I/O error: no context yet. */
  function FromIo(e: IoError): Error {
    Error([], Io(e))
  }

  /** `anyhow::Context::context`: one more message around `e`. */
  function WithContext(e: Error, msg: string): Error {
    Error([msg] + e.context, e.cause)
  }
}
