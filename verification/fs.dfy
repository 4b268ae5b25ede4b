/**
 * An abstract filesystem for the rename fallbacks: a map from path to file
 * contents and permission bits. Directories, devices, links and durability
 * are not represented.
 */
module FileSystem {

  newtype byte = x: int | 0 <= x < 256

  datatype File = File(data: seq<byte>, mode: nat)

  type FS = map<string, File>

  /** Permission bits of a file created by Go's `os.Create` or Rust's `File::create` (0o666). */
  const NewFileMode: nat := 438

  /** `a` and `b` agree on every path outside `changed`. */
  ghost predicate SameExcept(a: FS, b: FS, changed: set<string>) {
    forall q :: q !in changed ==> (q in a <==> q in b) && (q in a ==> a[q] == b[q])
  }

  /** Creating `p`: an existing file is truncated and keeps its mode; a new one gets `NewFileMode`. */
  function Created(fs: FS, p: string): (r: FS)
    ensures p in r && r[p] == File([], if p in fs then fs[p].mode else NewFileMode)
    ensures SameExcept(fs, r, {p})
  {
    fs[p := File([], if p in fs then fs[p].mode else NewFileMode)]
  }

  function WithData(fs: FS, p: string, data: seq<byte>): (r: FS)
    requires p in fs
    ensures p in r && r[p] == fs[p].(data := data)
    ensures SameExcept(fs, r, {p})
  {
    fs[p := fs[p].(data := data)]
  }

  function WithMode(fs: FS, p: string, mode: nat): (r: FS)
    requires p in fs
    ensures p in r && r[p] == fs[p].(mode := mode)
    ensures SameExcept(fs, r, {p})
  {
    fs[p := fs[p].(mode := mode)]
  }

  function Removed(fs: FS, p: string): (r: FS)
    ensures p !in r
    ensures SameExcept(fs, r, {p})
  {
    fs - {p}
  }

  /** A successful same-device rename: `dst` takes `src`'s file, `src` is gone unless it is `dst`. */
  function Renamed(fs: FS, src: string, dst: string): (r: FS)
    requires src in fs
    ensures dst in r && r[dst] == fs[src]
    ensures src != dst ==> src !in r
    ensures SameExcept(fs, r, {src, dst})
  {
    Removed(fs, src)[dst := fs[src]]
  }
}
