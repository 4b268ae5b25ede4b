/** Sequence facts shared by the line-driven components of the model. */
module Seqs {
  import opened Wrappers

  /** `a` is obtained from `b` by deleting zero or more elements. */
  predicate IsSubseq<T(==)>(a: seq<T>, b: seq<T>)
    decreases |b|
  {
    if a == [] then true
    else if b == [] then false
    else if a[0] == b[0] then IsSubseq(a[1..], b[1..])
    else IsSubseq(a, b[1..])
  }

  /** `p` is a prefix of `s`. */
  predicate IsPrefix<T(==)>(p: seq<T>, s: seq<T>) {
    |p| <= |s| && s[..|p|] == p
  }

  lemma PrefixExtend<T>(p: seq<T>, s: seq<T>, t: seq<T>)
    requires IsPrefix(p, s)
    ensures IsPrefix(p, s + t)
  {
    assert (s + t)[..|p|] == s[..|p|];
  }

  lemma PrefixPrepend<T>(q: seq<T>, p: seq<T>, s: seq<T>)
    requires IsPrefix(p, s)
    ensures IsPrefix(q + p, q + s)
  {
    assert (q + s)[..|q + p|] == q + s[..|p|];
  }

  lemma PrefixTransitive<T>(p: seq<T>, q: seq<T>, s: seq<T>)
    requires IsPrefix(p, q) && IsPrefix(q, s)
    ensures IsPrefix(p, s)
  {
    assert s[..|p|] == s[..|q|][..|p|];
  }

  /** Where the parts of `a + b + [x] + c` sit. */
  lemma ConcatParts<T>(a: seq<T>, b: seq<T>, x: T, c: seq<T>)
    ensures var s := a + b + [x] + c;
      var i := |a| + |b|;
      && |s| == i + 1 + |c| && IsPrefix(a, s) && s[|a|..i] == b && s[i] == x && s[i + 1..] == c
  {
    var s := a + b + [x] + c;
    assert s == a + (b + ([x] + c));
  }

  /** Appending `s` to nothing, or nothing to a prefix of `s`, leaves a prefix of `s`. */
  lemma PrefixAfterAppend<T>(p: seq<T>, s: seq<T>, appended: bool)
    requires IsPrefix(p, s) && (appended ==> p == [])
    ensures IsPrefix(p + (if appended then s else []), s)
  {
    if appended {
      assert p + s == s;
    } else {
      assert p + [] == p;
    }
  }

  /** How many times `x` occurs in `s`. */
  function Count<T(==)>(s: seq<T>, x: T): nat
    decreases |s|
  {
    if s == [] then 0 else (if s[0] == x then 1 else 0) + Count(s[1..], x)
  }

  /** Concatenation of `f` applied to every element, in order. */
  function FlatMap<T, U>(s: seq<T>, f: T -> seq<U>): seq<U>
    decreases |s|
  {
    if s == [] then [] else FlatMap(s[..|s| - 1], f) + f(s[|s| - 1])
  }

  lemma {:induction false} FlatMapAppend<T, U>(a: seq<T>, b: seq<T>, f: T -> seq<U>)
    ensures FlatMap(a + b, f) == FlatMap(a, f) + FlatMap(b, f)
    decreases |b|
  {
    if b == [] {
      assert a + b == a;
    } else {
      var b' := b[..|b| - 1];
      assert (a + b)[..|a + b| - 1] == a + b';
      assert (a + b)[|a + b| - 1] == b[|b| - 1];
      FlatMapAppend(a, b', f);
    }
  }

  lemma FlatMapSingle<T, U>(x: T, f: T -> seq<U>)
    ensures FlatMap([x], f) == f(x)
  {
    assert [x][..0] == [];
  }

  lemma {:induction false} SubseqSkipPrefix<T>(a: seq<T>, b: seq<T>, c: seq<T>)
    requires IsSubseq(a, c)
    ensures IsSubseq(a, b + c)
    decreases |b|
  {
    if b == [] {
      assert b + c == c;
    } else {
      SubseqSkipPrefix(a, b[1..], c);
      assert (b + c)[1..] == b[1..] + c;
      if a != [] && a[0] == (b + c)[0] {
        SubseqDropHead(a, b[1..] + c);
      }
    }
  }

  lemma {:induction false} SubseqDropHead<T>(a: seq<T>, b: seq<T>)
    requires a != [] && IsSubseq(a, b)
    ensures IsSubseq(a[1..], b)
    decreases |b|
  {
    assert b != [];
    if a[0] != b[0] {
      SubseqDropHead(a, b[1..]);
      if a[1..] != [] && a[1..][0] == b[0] {
        SubseqDropHead(a[1..], b[1..]);
      }
    } else if a[1..] != [] && a[1..][0] != b[0] {
    } else if a[1..] != [] {
      SubseqDropHead(a[1..], b[1..]);
    }
  }

  /** Subsequences compose under concatenation. */
  lemma {:induction false} SubseqConcat<T>(a: seq<T>, b: seq<T>, c: seq<T>, d: seq<T>)
    requires IsSubseq(a, b) && IsSubseq(c, d)
    ensures IsSubseq(a + c, b + d)
    decreases |b|
  {
    if a == [] {
      assert a + c == c;
      SubseqSkipPrefix(c, b, d);
    } else {
      assert b != [];
      assert (b + d)[1..] == b[1..] + d;
      if a[0] == b[0] {
        SubseqConcat(a[1..], b[1..], c, d);
        assert (a + c)[1..] == a[1..] + c;
      } else {
        SubseqConcat(a, b[1..], c, d);
      }
    }
  }

  lemma {:induction false} SubseqRefl<T>(a: seq<T>)
    ensures IsSubseq(a, a)
    decreases |a|
  {
    if a != [] {
      SubseqRefl(a[1..]);
    }
  }

  /** Every element of a subsequence occurs in the sequence. */
  lemma {:induction false} SubseqElements<T>(a: seq<T>, b: seq<T>)
    requires IsSubseq(a, b)
    ensures forall x :: x in a ==> x in b
    decreases |b|
  {
    if a != [] {
      assert forall x :: x in b[1..] ==> x in b;
      if a[0] == b[0] {
        SubseqElements(a[1..], b[1..]);
        assert forall x :: x in a ==> x == a[0] || x in a[1..];
      } else {
        SubseqElements(a, b[1..]);
      }
    }
  }

  /**
   * `f` maps each element of `ys` to the element of `xs` it was parsed
   * from: taken in increasing order, and every element that parses is one
   * of them.
   */
  ghost predicate Picks<A, B>(xs: seq<A>, ys: seq<B>, f: seq<int>, parse: A -> Option<B>) {
    && |f| == |ys|
    && (forall k :: 0 <= k < |f| ==> 0 <= f[k] < |xs| && parse(xs[f[k]]) == Some(ys[k]))
    && (forall k, m :: 0 <= k < m < |f| ==> f[k] < f[m])
    && (forall i :: 0 <= i < |xs| && parse(xs[i]).Some? ==> i in f)
  }

  /** Parsing one more element extends the map by that element's index when it parses. */
  lemma PicksSnoc<A, B>(xs: seq<A>, x: A, ys: seq<B>, g: seq<int>, parse: A -> Option<B>) returns (f: seq<int>)
    requires Picks(xs, ys, g, parse)
    ensures Picks(xs + [x], ys + (match parse(x) case None => [] case Some(y) => [y]), f, parse)
  {
    match parse(x)
    case None =>
      f := g;
      PicksSkip(xs, x, ys, g, parse);
      assert ys + [] == ys;
    case Some(y) =>
      f := g + [|xs|];
      PicksTake(xs, x, y, ys, g, parse);
  }

  lemma PicksSkip<A, B>(xs: seq<A>, x: A, ys: seq<B>, g: seq<int>, parse: A -> Option<B>)
    requires Picks(xs, ys, g, parse) && parse(x).None?
    ensures Picks(xs + [x], ys, g, parse)
  {
    var all := xs + [x];
    assert forall i :: 0 <= i < |xs| ==> all[i] == xs[i];
  }

  lemma PicksTake<A, B>(xs: seq<A>, x: A, y: B, ys: seq<B>, g: seq<int>, parse: A -> Option<B>)
    requires Picks(xs, ys, g, parse) && parse(x) == Some(y)
    ensures Picks(xs + [x], ys + [y], g + [|xs|], parse)
  {
    var all, ys', f := xs + [x], ys + [y], g + [|xs|];
    forall k | 0 <= k < |f| ensures 0 <= f[k] < |all| && parse(all[f[k]]) == Some(ys'[k]) {
      if k < |g| {
        assert f[k] == g[k] && ys'[k] == ys[k] && all[g[k]] == xs[g[k]];
      } else {
        assert f[k] == |xs| && ys'[k] == y && all[|xs|] == x;
      }
    }
    forall k, m | 0 <= k < m < |f| ensures f[k] < f[m] {
      if m < |g| {
        assert f[k] == g[k] && f[m] == g[m];
      } else {
        assert f[k] == g[k] && f[m] == |xs|;
      }
    }
    forall i | 0 <= i < |all| && parse(all[i]).Some? ensures i in f {
      if i < |xs| {
        assert all[i] == xs[i] && i in g;
      } else {
        assert f[|g|] == i;
      }
    }
  }
}
