/**
 * String operations of the Go and Rust standard libraries that the modelled
 * code relies on, over `string` (a sequence of Unicode scalar values).
 */
module Text {
  import opened Wrappers

  /** `s` starts with `p` (Go `strings.HasPrefix`, Rust `starts_with`). */
  predicate HasPrefix(s: string, p: string) {
    |p| <= |s| && s[..|p|] == p
  }

  /** Rust `strip_prefix`: the remainder after `p`, if `s` starts with it. */
  function StripPrefix(s: string, p: string): (r: Option<string>)
    ensures r.Some? <==> HasPrefix(s, p)
    ensures r.Some? ==> p + r.value == s
  {
    if HasPrefix(s, p) then Some(s[|p|..]) else None
  }

  /** Go `strings.TrimPrefix`: `s` without a leading `p`, or `s` unchanged. */
  function TrimPrefix(s: string, p: string): (r: string)
    ensures HasPrefix(s, p) ==> p + r == s
    ensures !HasPrefix(s, p) ==> r == s
  {
    StripPrefix(s, p).GetOr(s)
  }

  /** Position of the first `c` in `s`. */
  function IndexOf(s: string, c: char): (i: nat)
    requires c in s
    ensures i < |s| && s[i] == c && c !in s[..i]
  {
    if s[0] == c then 0
    else
      assert c in s[1..] by {
        var k :| 0 <= k < |s| && s[k] == c;
        assert s[1..][k - 1] == c;
      }
      var j := IndexOf(s[1..], c);
      assert s[..j + 1] == [s[0]] + s[1..][..j];
      j + 1
  }

  /**
   * Go `strings.Split(s, sep)` and Rust `s.split(sep)` for a one-character
   * separator: the pieces between separators, always at least one.
   */
  function Split(s: string, sep: char): (parts: seq<string>)
    ensures |parts| >= 1
    ensures forall i :: 0 <= i < |parts| ==> sep !in parts[i]
    decreases |s|
  {
    if sep !in s then [s]
    else
      var i := IndexOf(s, sep);
      [s[..i]] + Split(s[i + 1..], sep)
  }

  /**
   * Go `strings.SplitN(s, sep, n)` and Rust `s.splitn(n, sep)`: at most `n`
   * pieces, the last one holding the unsplit remainder.
   */
  function SplitN(s: string, sep: char, n: nat): (parts: seq<string>)
    requires n >= 1
    ensures 1 <= |parts| <= n
    decreases n
  {
    if n == 1 || sep !in s then [s]
    else
      var i := IndexOf(s, sep);
      [s[..i]] + SplitN(s[i + 1..], sep, n - 1)
  }

  /** The first piece is a prefix of the split string. */
  lemma SplitNHeadIsPrefix(s: string, sep: char, n: nat)
    requires n >= 1
    ensures HasPrefix(s, SplitN(s, sep, n)[0])
  {
  }

  /** The inverse of splitting: pieces glued back with the separator. */
  function Join(parts: seq<string>, sep: char): string
    requires |parts| >= 1
  {
    if |parts| == 1 then parts[0] else parts[0] + [sep] + Join(parts[1..], sep)
  }

  lemma {:induction false} JoinSplit(s: string, sep: char)
    ensures Join(Split(s, sep), sep) == s
    decreases |s|
  {
    if sep in s {
      var i := IndexOf(s, sep);
      var head, tail := s[..i], s[i + 1..];
      assert s == head + [sep] + tail;
      var parts := Split(s, sep);
      assert parts == [head] + Split(tail, sep);
      assert parts[0] == head && parts[1..] == Split(tail, sep);
      JoinSplit(tail, sep);
    }
  }

  lemma {:induction false} SplitJoin(parts: seq<string>, sep: char)
    requires |parts| >= 1
    requires forall i :: 0 <= i < |parts| ==> sep !in parts[i]
    ensures Split(Join(parts, sep), sep) == parts
    decreases |parts|
  {
    if |parts| > 1 {
      var rest := Join(parts[1..], sep);
      assert Join(parts, sep) == parts[0] + [sep] + rest;
      SplitCons(parts[0], sep, rest);
      SplitJoin(parts[1..], sep);
      assert [parts[0]] + parts[1..] == parts;
    }
  }

  /** Splitting a text whose first piece is `a` gives `a`, then the pieces of the rest. */
  lemma SplitCons(a: string, sep: char, rest: string)
    requires sep !in a
    ensures Split(a + [sep] + rest, sep) == [a] + Split(rest, sep)
  {
    var s := a + [sep] + rest;
    assert s[|a|] == sep;
    var i := IndexOf(s, sep);
    assert forall j :: 0 <= j < |a| ==> s[j] == a[j] && a[j] in a;
    assert forall j :: 0 <= j < i ==> s[..i][j] == s[j];
    assert i == |a|;
    assert s[..i] == a;
    assert s[i + 1..] == rest;
  }

  /** A text without the separator is one piece. */
  lemma SplitNone(s: string, sep: char)
    requires sep !in s
    ensures Split(s, sep) == [s]
  {
  }

  /** The first two pieces of `a sep b rest`, where `rest` is empty or starts a new piece. */
  lemma SplitTwo(a: string, sep: char, b: string, rest: string)
    requires sep !in a && sep !in b
    requires rest == [] || rest[0] == sep
    ensures var parts := Split(a + [sep] + b + rest, sep);
      |parts| >= 2 && parts[0] == a && parts[1] == b
  {
    var t := b + rest;
    assert a + [sep] + b + rest == a + [sep] + t;
    SplitCons(a, sep, t);
    SplitHead(b, sep, rest);
  }

  /** The first piece of `b rest`, where `rest` is empty or starts a new piece. */
  lemma SplitHead(b: string, sep: char, rest: string)
    requires sep !in b
    requires rest == [] || rest[0] == sep
    ensures Split(b + rest, sep)[0] == b
  {
    if rest == [] {
      assert b + rest == b;
      SplitNone(b, sep);
    } else {
      assert b + rest == b + [sep] + rest[1..];
      SplitCons(b, sep, rest[1..]);
    }
  }

  /**
   * The Unicode `White_Space` property, which both Go's `unicode.IsSpace`
   * (used by `strings.TrimSpace`) and Rust's `char::is_whitespace` (used by
   * `trim` and `trim_end`) test.
   */
  predicate IsSpace(c: char) {
    || ('\t' <= c <= '\r')
    || c == ' '
    || c == '\U{0085}'
    || c == '\U{00A0}'
    || c == '\U{1680}'
    || ('\U{2000}' <= c <= '\U{200A}')
    || c == '\U{2028}'
    || c == '\U{2029}'
    || c == '\U{202F}'
    || c == '\U{205F}'
    || c == '\U{3000}'
  }

  /** `s` without its longest prefix of characters satisfying `drop`. */
  function TrimLeftBy(s: string, drop: char -> bool): (r: string)
    ensures |r| <= |s| && r == s[|s| - |r|..]
    ensures forall i :: 0 <= i < |s| - |r| ==> drop(s[i])
    ensures r == [] || !drop(r[0])
    decreases |s|
  {
    if s != [] && drop(s[0]) then TrimLeftBy(s[1..], drop) else s
  }

  /** `s` without its longest suffix of characters satisfying `drop`. */
  function TrimRightBy(s: string, drop: char -> bool): (r: string)
    ensures |r| <= |s| && r == s[..|r|]
    ensures forall i :: |r| <= i < |s| ==> drop(s[i])
    ensures r == [] || !drop(r[|r| - 1])
    decreases |s|
  {
    if s != [] && drop(s[|s| - 1]) then TrimRightBy(s[..|s| - 1], drop) else s
  }

  /** `s` without leading and trailing characters satisfying `drop`. */
  function TrimBy(s: string, drop: char -> bool): string {
    TrimRightBy(TrimLeftBy(s, drop), drop)
  }

  /** Go `strings.TrimSpace` and Rust `str::trim`. */
  function TrimSpace(s: string): string {
    TrimBy(s, IsSpace)
  }

  /** Rust `str::trim_end`. */
  function TrimEnd(s: string): string {
    TrimRightBy(s, IsSpace)
  }

  /** Trimming leaves nothing exactly when every character is dropped. */
  lemma TrimByEmpty(s: string, drop: char -> bool)
    ensures TrimBy(s, drop) == [] <==> forall k :: 0 <= k < |s| ==> drop(s[k])
  {
    var l := TrimLeftBy(s, drop);
    if l != [] {
      assert l[0] == s[|s| - |l|] && !drop(l[0]);
    }
  }

  /** Trimming drops exactly the leading run of `drop` characters. */
  lemma {:induction false} TrimLeftPadded(pre: string, rest: string, drop: char -> bool)
    requires forall i :: 0 <= i < |pre| ==> drop(pre[i])
    requires rest == [] || !drop(rest[0])
    ensures TrimLeftBy(pre + rest, drop) == rest
    decreases |pre|
  {
    if pre != [] {
      assert (pre + rest)[1..] == pre[1..] + rest;
      TrimLeftPadded(pre[1..], rest, drop);
    }
  }

  /** Trimming drops exactly the trailing run of `drop` characters. */
  lemma {:induction false} TrimRightPadded(rest: string, post: string, drop: char -> bool)
    requires forall i :: 0 <= i < |post| ==> drop(post[i])
    requires rest == [] || !drop(rest[|rest| - 1])
    ensures TrimRightBy(rest + post, drop) == rest
    decreases |post|
  {
    if post != [] {
      var post' := post[..|post| - 1];
      assert (rest + post)[..|rest + post| - 1] == rest + post';
      TrimRightPadded(rest, post', drop);
    } else {
      assert rest + post == rest;
    }
  }

  /** `TrimSpace` recovers a text from any whitespace padding around it. */
  lemma TrimSpacePadded(pre: string, core: string, post: string)
    requires forall i :: 0 <= i < |pre| ==> IsSpace(pre[i])
    requires forall i :: 0 <= i < |post| ==> IsSpace(post[i])
    requires core != [] && !IsSpace(core[0]) && !IsSpace(core[|core| - 1])
    ensures TrimSpace(pre + core + post) == core
  {
    assert pre + core + post == pre + (core + post);
    TrimLeftPadded(pre, core + post, IsSpace);
    TrimRightPadded(core, post, IsSpace);
  }

  /**
   * The Rust standard library's `Path::join` of a relative `p` (and its
   * replacement by an absolute one) on a Unix platform.
   */
  function JoinPath(base: string, p: string): (r: string)
    ensures HasPrefix(p, "/") ==> r == p
    ensures !HasPrefix(p, "/") ==> HasPrefix(r, base) && |p| <= |r| && r[|r| - |p|..] == p
    // Between the two, exactly one `/` when the base needs one, and nothing otherwise.
    ensures !HasPrefix(p, "/") ==> |r| == |base| + |p| + (if NeedsSeparator(base) then 1 else 0)
    ensures !HasPrefix(p, "/") && NeedsSeparator(base) ==> r[|base|] == '/'
  {
    if HasPrefix(p, "/") then p
    else if NeedsSeparator(base) then base + "/" + p
    else base + p
  }

  /** A non-empty path that does not already end in `/` takes one before a relative component. */
  predicate NeedsSeparator(base: string) {
    base != [] && base[|base| - 1] != '/'
  }
}
