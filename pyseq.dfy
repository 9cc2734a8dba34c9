/**
 * Python list operations on Dafny sequences: slicing with negative and
 * out-of-range bounds, indexing that may raise IndexError, `[x] * n`,
 * `xs * n` and concatenation of a list of lists.
 */
module PySeq {
  import opened Wrappers

  /** A slice bound resolved against a length: a negative bound counts from the end; then clamped to `[0, len]`. */
  function Bound(i: int, len: nat): (b: nat)
    ensures b <= len
    ensures 0 <= i <= len ==> b == i
    ensures i > len ==> b == len
    ensures i < 0 ==> b == if len + i < 0 then 0 else len + i
  {
    if i < 0 then (if len + i < 0 then 0 else len + i)
    else if i > len then len
    else i
  }

  /** `s[lo:hi]`. */
  function Slice<T>(s: seq<T>, lo: int, hi: int): seq<T> {
    var a, b := Bound(lo, |s|), Bound(hi, |s|);
    if a <= b then s[a..b] else []
  }

  /** `s[lo:]`. */
  function SliceFrom<T>(s: seq<T>, lo: int): seq<T> {
    s[Bound(lo, |s|)..]
  }

  /** `s[:k]` (also `s[0:k]`): the first `k` elements, or all but the last `-k` when `k` is negative. */
  function Prefix<T>(s: seq<T>, k: int): (r: seq<T>)
    ensures |r| <= |s| && r == s[..|r|]
    ensures 0 <= k ==> |r| == if k < |s| then k else |s|
    ensures k < 0 ==> |r| == if |s| + k < 0 then 0 else |s| + k
  {
    Slice(s, 0, k)
  }

  /** `s[i]`: `None` where Python raises IndexError; a negative index counts from the end. */
  function Index<T>(s: seq<T>, i: int): (r: Option<T>)
    ensures r.None? <==> i < -|s| || |s| <= i
    ensures 0 <= i < |s| ==> r == Some(s[i])
    ensures -|s| <= i < 0 ==> r == Some(s[|s| + i])
  {
    if 0 <= i < |s| then Some(s[i])
    else if -|s| <= i < 0 then Some(s[|s| + i])
    else None
  }

  /** The position of the first `x` in `s`, or `|s|` when there is none. */
  function IndexOf<T(==)>(s: seq<T>, x: T): (i: nat)
    ensures i <= |s|
    ensures i < |s| <==> x in s
    ensures i < |s| ==> s[i] == x
    ensures forall j :: 0 <= j < i ==> s[j] != x
  {
    if s == [] then 0
    else if s[0] == x then 0
    else 1 + IndexOf(s[1..], x)
  }

  /** `[x] * n`. */
  function Repeat<T>(x: T, n: int): (r: seq<T>)
    ensures |r| == if n < 0 then 0 else n
    ensures forall i :: 0 <= i < |r| ==> r[i] == x
  {
    if n <= 0 then [] else Repeat(x, n - 1) + [x]
  }

  /** `xs * n`: `n` copies of `xs` one after the other. */
  function Times<T>(xs: seq<T>, n: int): seq<T>
    decreases if n < 0 then 0 else n
  {
    if n <= 0 then [] else Times(xs, n - 1) + xs
  }

  /** The position of element `j` of block `i` when blocks of width `w` are laid end to end. */
  function Row(i: nat, j: nat, w: nat): nat {
    i * w + j
  }

  lemma {:induction false} TimesLength<T>(xs: seq<T>, n: nat)
    ensures |Times(xs, n)| == n * |xs|
  {
    if n > 0 {
      TimesLength(xs, n - 1);
      assert (n - 1) * |xs| + |xs| == n * |xs|;
    }
  }

  /** Row `i·|xs| + j` of `xs * n` is `xs[j]`. */
  lemma {:induction false} TimesAt<T>(xs: seq<T>, n: nat, i: nat, j: nat)
    requires i < n && j < |xs|
    ensures Row(i, j, |xs|) < |Times(xs, n)|
    ensures Times(xs, n)[Row(i, j, |xs|)] == xs[j]
  {
    var w := |xs|;
    TimesLength(xs, n);
    RowBelow(i, j, w, n);
    var t := Times(xs, n - 1);
    TimesLength(xs, n - 1);
    if i < n - 1 {
      TimesAt(xs, n - 1, i, j);
    } else {
      assert Row(i, j, w) == |t| + j;
    }
  }

  /** A position inside block `i < n` lies before the end of `n` blocks. */
  lemma RowBelow(i: nat, j: nat, w: nat, n: nat)
    requires i < n && j < w
    ensures Row(i, j, w) < n * w
  {
    assert (i + 1) * w == i * w + w;
    assert (i + 1) * w <= n * w by {
      MulMonotone(i + 1, n, w);
    }
  }

  lemma {:induction false} MulMonotone(a: nat, b: nat, w: nat)
    requires a <= b
    ensures a * w <= b * w
    decreases b - a
  {
    if a < b {
      MulMonotone(a + 1, b, w);
      assert (a + 1) * w == a * w + w;
    }
  }

  /** Concatenation of a list of lists (`l += piece` over the pieces). */
  function Flatten<T>(pieces: seq<seq<T>>): seq<T>
    decreases |pieces|
  {
    if pieces == [] then [] else Flatten(pieces[..|pieces| - 1]) + pieces[|pieces| - 1]
  }

  /** One more piece of a prefix of the pieces. */
  lemma FlattenSnoc<T>(pieces: seq<seq<T>>, i: nat)
    requires i < |pieces|
    ensures Flatten(pieces[..i + 1]) == Flatten(pieces[..i]) + pieces[i]
  {
    assert pieces[..i + 1][..i] == pieces[..i];
  }

  lemma {:induction false} FlattenAppend<T>(a: seq<seq<T>>, b: seq<seq<T>>)
    ensures Flatten(a + b) == Flatten(a) + Flatten(b)
    decreases |b|
  {
    if b != [] {
      var b' := b[..|b| - 1];
      assert (a + b)[..|a + b| - 1] == a + b';
      FlattenAppend(a, b');
      assert Flatten(a + b) == Flatten(a + b') + b[|b| - 1];
      assert (a + b)[|a + b| - 1] == b[|b| - 1];
      assert Flatten(b) == Flatten(b') + b[|b| - 1];
      assert Flatten(a) + (Flatten(b') + b[|b| - 1]) == (Flatten(a) + Flatten(b')) + b[|b| - 1];
    } else {
      assert a + b == a;
    }
  }

  /** `a` can be obtained from `b` by deleting elements (relative order kept). */
  predicate Subsequence<T(==)>(a: seq<T>, b: seq<T>)
    decreases |b|
  {
    if a == [] then true
    else if b == [] then false
    else if a[|a| - 1] == b[|b| - 1] then Subsequence(a[..|a| - 1], b[..|b| - 1])
    else Subsequence(a, b[..|b| - 1])
  }

  lemma {:induction false} SubsequenceExtend<T>(a: seq<T>, b: seq<T>, x: T)
    requires Subsequence(a, b)
    ensures Subsequence(a, b + [x])
    decreases |b|, 1
  {
    assert (b + [x])[..|b|] == b;
    if a != [] && a[|a| - 1] == x {
      SubsequenceDrop(a, b);
    }
  }

  /** Appending the same element to both sides keeps a subsequence one. */
  lemma SubsequenceBoth<T>(a: seq<T>, b: seq<T>, x: T)
    requires Subsequence(a, b)
    ensures Subsequence(a + [x], b + [x])
  {
    assert (a + [x])[..|a|] == a && (b + [x])[..|b|] == b;
  }

  lemma {:induction false} SubsequenceDrop<T>(a: seq<T>, b: seq<T>)
    requires a != [] && Subsequence(a, b)
    ensures Subsequence(a[..|a| - 1], b)
    decreases |b|, 0
  {
    var a', b' := a[..|a| - 1], b[..|b| - 1];
    assert b' + [b[|b| - 1]] == b;
    if a[|a| - 1] != b[|b| - 1] {
      SubsequenceDrop(a, b');
    }
    SubsequenceExtend(a', b', b[|b| - 1]);
  }

  lemma {:induction false} FlattenUniformLength<T>(pieces: seq<seq<T>>, w: nat)
    requires forall i :: 0 <= i < |pieces| ==> |pieces[i]| == w
    ensures |Flatten(pieces)| == |pieces| * w
    decreases |pieces|
  {
    if pieces != [] {
      FlattenUniformLength(pieces[..|pieces| - 1], w);
      assert (|pieces| - 1) * w + w == |pieces| * w;
    }
  }

  /** In a concatenation of pieces of one width `w`, position `i·w + j` holds element `j` of piece `i`. */
  lemma {:induction false} FlattenAt<T>(pieces: seq<seq<T>>, w: nat, i: nat, j: nat)
    requires forall k :: 0 <= k < |pieces| ==> |pieces[k]| == w
    requires i < |pieces| && j < w
    ensures Row(i, j, w) < |Flatten(pieces)|
    ensures Flatten(pieces)[Row(i, j, w)] == pieces[i][j]
    decreases |pieces|
  {
    var init := pieces[..|pieces| - 1];
    FlattenUniformLength(pieces, w);
    FlattenUniformLength(init, w);
    RowBelow(i, j, w, |pieces|);
    if i < |pieces| - 1 {
      FlattenAt(init, w, i, j);
    } else {
      assert Row(i, j, w) == |Flatten(init)| + j;
    }
  }
}
