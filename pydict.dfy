/**
 * Python's insertion-ordered `dict` and `collections.Counter`, as values.
 *
 * A dict is its keys in insertion order plus the map from keys to values.
 * Assigning to a key that is already present keeps its position; a new key
 * goes to the end.  A Counter is a dict of natural numbers whose lookup of a
 * missing key gives 0 instead of raising KeyError.
 */
module PyDict {
  import opened PySeq


  predicate Distinct<T(==)>(s: seq<T>) {
    forall i, j :: 0 <= i < j < |s| ==> s[i] != s[j]
  }

  /** Dropping the last element of a repetition-free sequence leaves one without that element. */
  lemma DistinctInit<T>(s: seq<T>)
    requires s != [] && Distinct(s)
    ensures Distinct(s[..|s| - 1]) && s[|s| - 1] !in s[..|s| - 1]
  {
    var init := s[..|s| - 1];
    forall i, j | 0 <= i < j < |init| ensures init[i] != init[j] {
      assert init[i] == s[i] && init[j] == s[j];
    }
    forall i | 0 <= i < |init| ensures init[i] != s[|s| - 1] {
      assert init[i] == s[i];
    }
  }

  datatype Dict<K, V> = Dict(keys: seq<K>, m: map<K, V>) {

    /** The keys are listed once each, and exactly the keys of the map are listed. */
    ghost predicate Valid() {
      && Distinct(keys)
      && (forall k :: k in m ==> k in keys)
      && (forall k :: k in keys ==> k in m)
    }

    /** `d[k] = v`. */
    function Put(k: K, v: V): (r: Dict<K, V>)
      ensures Valid() ==> r.Valid()
    {
      if k in m then Dict(keys, m[k := v]) else Dict(keys + [k], m[k := v])
    }

    /** `list(d.values())`. */
    function Values(): (vs: seq<V>)
      requires Valid()
      ensures |vs| == |keys|
      ensures forall i :: 0 <= i < |keys| ==> vs[i] == m[keys[i]]
    {
      seq(|keys|, i requires 0 <= i < |keys| && keys[i] in m => m[keys[i]])
    }

    /** `list(d.items())`. */
    function Items(): (items: seq<(K, V)>)
      requires Valid()
      ensures |items| == |keys|
      ensures forall i :: 0 <= i < |keys| ==> items[i] == (keys[i], m[keys[i]])
    {
      seq(|keys|, i requires 0 <= i < |keys| && keys[i] in m => (keys[i], m[keys[i]]))
    }
  }

  function Empty<K, V>(): (d: Dict<K, V>)
    ensures d.Valid()
  {
    Dict([], map[])
  }

  /** Putting twice under one key is putting once with the second value. */
  lemma PutPut<K, V>(d: Dict<K, V>, k: K, v1: V, v2: V)
    ensures d.Put(k, v1).Put(k, v2) == d.Put(k, v2)
  {
  }

  // ---------------------------------------------------------------- distinct first occurrences

  /** The distinct elements of `xs` in order of first occurrence (the keys of `dict.fromkeys(xs)`). */
  function Dedup<T(==)>(xs: seq<T>): (d: seq<T>)
    ensures Distinct(d)
    ensures forall x :: x in d ==> x in xs
    ensures forall x :: x in xs ==> x in d
    ensures |d| <= |xs|
    decreases |xs|
  {
    if xs == [] then []
    else
      var d := Dedup(xs[..|xs| - 1]);
      var x := xs[|xs| - 1];
      assert xs == xs[..|xs| - 1] + [x];
      if x in d then d else d + [x]
  }

  /** Removing repetitions shortens exactly the sequences that have some. */
  lemma {:induction false} DedupLength<T>(xs: seq<T>)
    ensures |Dedup(xs)| == |xs| <==> Distinct(xs)
    decreases |xs|
  {
    if xs != [] {
      var init := xs[..|xs| - 1];
      var x := xs[|xs| - 1];
      DedupLength(init);
      assert xs == init + [x];
      if Distinct(xs) {
        DistinctInit(xs);
      } else if x !in init {
        assert !Distinct(init) by {
          var i, j :| 0 <= i < j < |xs| && xs[i] == xs[j];
          assert j < |xs| - 1 by {
            assert xs[i] == init[i];
          }
          assert init[i] == init[j];
        }
      }
    }
  }

  /** An element of a prefix first occurs in the whole sequence where it first occurs in the prefix. */
  lemma IndexOfPrefix<T>(s: seq<T>, k: nat, y: T)
    requires k <= |s| && y in s[..k]
    ensures IndexOf(s, y) == IndexOf(s[..k], y)
  {
    var q, p := IndexOf(s[..k], y), IndexOf(s, y);
    assert q < k && s[q] == y;
    assert p <= q;
    assert p < k && s[..k][p] == s[p];
  }

  /** `Dedup` lists the distinct elements by increasing position of first occurrence. */
  lemma {:induction false} DedupOrder<T>(xs: seq<T>)
    ensures forall i, j :: 0 <= i < j < |Dedup(xs)| ==> IndexOf(xs, Dedup(xs)[i]) < IndexOf(xs, Dedup(xs)[j])
    decreases |xs|
  {
    if xs != [] {
      var init, x := xs[..|xs| - 1], xs[|xs| - 1];
      var d := Dedup(init);
      DedupOrder(init);
      assert xs[..|xs| - 1] == init;
      forall y | y in d ensures IndexOf(xs, y) == IndexOf(init, y) < |init| {
        IndexOfPrefix(xs, |xs| - 1, y);
      }
      if x !in d {
        assert Dedup(xs) == d + [x];
        assert IndexOf(xs, x) == |init|;
      } else {
        assert Dedup(xs) == d;
      }
    }
  }

  /** Removing repetitions from a repetition-free sequence changes nothing. */
  lemma {:induction false} DedupOfDistinct<T>(xs: seq<T>)
    requires Distinct(xs)
    ensures Dedup(xs) == xs
    decreases |xs|
  {
    if xs != [] {
      var init := xs[..|xs| - 1];
      DistinctInit(xs);
      DedupOfDistinct(init);
      assert init + [xs[|xs| - 1]] == xs;
    }
  }

  // ---------------------------------------------------------------- sums over a dict

  /** The sum of `m[k]` over the listed keys. */
  function SumOver<K>(keys: seq<K>, m: map<K, nat>): nat
    requires forall k :: k in keys ==> k in m
    decreases |keys|
  {
    if keys == [] then 0
    else SumOver(keys[..|keys| - 1], m) + m[keys[|keys| - 1]]
  }

  lemma {:induction false} SumOverUpdateAbsent<K>(keys: seq<K>, m: map<K, nat>, k: K, v: nat)
    requires forall x :: x in keys ==> x in m
    requires k !in keys
    ensures SumOver(keys, m[k := v]) == SumOver(keys, m)
    decreases |keys|
  {
    if keys != [] {
      SumOverUpdateAbsent(keys[..|keys| - 1], m, k, v);
    }
  }

  lemma {:induction false} SumOverUpdatePresent<K>(keys: seq<K>, m: map<K, nat>, k: K, v: nat)
    requires forall x :: x in keys ==> x in m
    requires Distinct(keys) && k in keys
    ensures SumOver(keys, m[k := v]) + m[k] == SumOver(keys, m) + v
    decreases |keys|
  {
    var init := keys[..|keys| - 1];
    var last := keys[|keys| - 1];
    assert keys == init + [last];
    DistinctInit(keys);
    if last == k {
      SumOverUpdateAbsent(init, m, k, v);
    } else {
      SumOverUpdatePresent(init, m, k, v);
    }
  }

  /** The sum of all the values of a dict of naturals (`sum(c.values())`). */
  function Total<K>(c: Dict<K, nat>): nat
    requires c.Valid()
  {
    SumOver(c.keys, c.m)
  }

  // ---------------------------------------------------------------- Counter

  /** `c[k]` on a Counter: a missing key counts 0. */
  function Count<K>(c: Dict<K, nat>, k: K): nat {
    if k in c.m then c.m[k] else 0
  }

  /** `Counter(xs)`: each distinct element, in order of first occurrence, with its number of occurrences. */
  function CounterOf<K>(xs: seq<K>): Dict<K, nat>
    decreases |xs|
  {
    if xs == [] then Empty()
    else
      var c := CounterOf(xs[..|xs| - 1]);
      var x := xs[|xs| - 1];
      c.Put(x, Count(c, x) + 1)
  }

  lemma {:induction false} CounterOfKeys<K>(xs: seq<K>)
    ensures CounterOf(xs).Valid()
    ensures CounterOf(xs).keys == Dedup(xs)
    decreases |xs|
  {
    if xs != [] {
      var init := xs[..|xs| - 1];
      CounterOfKeys(init);
    }
  }

  lemma {:induction false} CounterOfCounts<K>(xs: seq<K>)
    ensures forall k :: Count(CounterOf(xs), k) == multiset(xs)[k]
    ensures forall k :: k in CounterOf(xs).m ==> CounterOf(xs).m[k] > 0
    decreases |xs|
  {
    if xs != [] {
      var init := xs[..|xs| - 1];
      var x := xs[|xs| - 1];
      CounterOfCounts(init);
      assert xs == init + [x];
      assert multiset(xs) == multiset(init) + multiset{x};
    }
  }

  /** Counting one more occurrence of `x` adds one to the total. */
  lemma TotalIncrement<K>(c: Dict<K, nat>, x: K)
    requires c.Valid()
    ensures c.Put(x, Count(c, x) + 1).Valid()
    ensures Total(c.Put(x, Count(c, x) + 1)) == Total(c) + 1
  {
    if x in c.m {
      SumOverUpdatePresent(c.keys, c.m, x, c.m[x] + 1);
    } else {
      SumOverUpdateAbsent(c.keys, c.m, x, 1);
      var c' := c.Put(x, 1);
      assert c'.keys[..|c'.keys| - 1] == c.keys;
    }
  }

  lemma {:induction false} CounterOfTotal<K>(xs: seq<K>)
    ensures CounterOf(xs).Valid()
    ensures Total(CounterOf(xs)) == |xs|
    decreases |xs|
  {
    if xs != [] {
      var init := xs[..|xs| - 1];
      var c, x := CounterOf(init), xs[|xs| - 1];
      assert CounterOf(xs) == c.Put(x, Count(c, x) + 1);
      CounterOfTotal(init);
      TotalIncrement(c, x);
    }
  }

  /**
   * `Counter(xs)` lists the distinct elements of `xs` in order of first
   * occurrence, gives each its number of occurrences (all positive), and its
   * values add up to the length of `xs`.
   */
  lemma CounterOfSpec<K>(xs: seq<K>)
    ensures CounterOf(xs).Valid()
    ensures CounterOf(xs).keys == Dedup(xs)
    ensures forall k :: Count(CounterOf(xs), k) == multiset(xs)[k]
    ensures forall k :: k in CounterOf(xs).m ==> CounterOf(xs).m[k] > 0
    ensures Total(CounterOf(xs)) == |xs|
  {
    CounterOfKeys(xs);
    CounterOfCounts(xs);
    CounterOfTotal(xs);
  }

  /** `a[k] += m[k]`, for every listed key in turn. */
  function AddEach<K>(a: Dict<K, nat>, ks: seq<K>, m: map<K, nat>): Dict<K, nat>
    requires forall k :: k in ks ==> k in m
    decreases |ks|
  {
    if ks == [] then a
    else
      var a' := AddEach(a, ks[..|ks| - 1], m);
      var k := ks[|ks| - 1];
      a'.Put(k, Count(a', k) + m[k])
  }

  lemma {:induction false} AddEachSpec<K>(a: Dict<K, nat>, ks: seq<K>, m: map<K, nat>)
    requires a.Valid()
    requires forall k :: k in ks ==> k in m
    requires Distinct(ks)
    ensures AddEach(a, ks, m).Valid()
    ensures forall x :: Count(AddEach(a, ks, m), x) == Count(a, x) + (if x in ks then m[x] else 0)
    decreases |ks|
  {
    if ks != [] {
      var init := ks[..|ks| - 1];
      var k := ks[|ks| - 1];
      assert ks == init + [k];
      DistinctInit(ks);
      AddEachSpec(a, init, m);
    }
  }

  /** The listed keys whose value is positive, in order. */
  function Positive<K>(keys: seq<K>, m: map<K, nat>): (r: seq<K>)
    requires forall k :: k in keys ==> k in m
    ensures forall k :: k in r ==> k in keys && m[k] > 0
    ensures forall k :: k in keys && m[k] > 0 ==> k in r
    decreases |keys|
  {
    if keys == [] then []
    else (if m[keys[0]] > 0 then [keys[0]] else []) + Positive(keys[1..], m)
  }

  lemma {:induction false} PositiveDistinct<K>(keys: seq<K>, m: map<K, nat>)
    requires forall k :: k in keys ==> k in m
    requires Distinct(keys)
    ensures Distinct(Positive(keys, m))
    decreases |keys|
  {
    if keys != [] {
      assert Distinct(keys[1..]) by {
        forall i, j | 0 <= i < j < |keys[1..]| ensures keys[1..][i] != keys[1..][j] {
          assert keys[1..][i] == keys[i + 1] && keys[1..][j] == keys[j + 1];
        }
      }
      PositiveDistinct(keys[1..], m);
      assert keys[0] !in keys[1..] by {
        forall i | 0 <= i < |keys[1..]| ensures keys[1..][i] != keys[0] {
          assert keys[1..][i] == keys[i + 1];
        }
      }
    }
  }

  /** `Counter._keep_positive`: drop the entries whose count is not positive. */
  function KeepPositive<K>(c: Dict<K, nat>): Dict<K, nat>
    requires c.Valid()
  {
    Dict(Positive(c.keys, c.m), map k | k in c.m && c.m[k] > 0 :: c.m[k])
  }

  /** `a += b` on Counters: add `b`'s counts into `a` in `b`'s order, then drop non-positive entries. */
  function AddCounts<K>(a: Dict<K, nat>, b: Dict<K, nat>): Dict<K, nat>
    requires a.Valid() && b.Valid()
  {
    AddEachSpec(a, b.keys, b.m);
    KeepPositive(AddEach(a, b.keys, b.m))
  }

  /** After `a += b` every count is the sum of the two counts, and only positive counts are listed. */
  lemma AddCountsSpec<K>(a: Dict<K, nat>, b: Dict<K, nat>)
    requires a.Valid() && b.Valid()
    ensures AddCounts(a, b).Valid()
    ensures forall x :: Count(AddCounts(a, b), x) == Count(a, x) + Count(b, x)
    ensures forall x :: x in AddCounts(a, b).m ==> AddCounts(a, b).m[x] > 0
  {
    var s := AddEach(a, b.keys, b.m);
    AddEachSpec(a, b.keys, b.m);
    PositiveDistinct(s.keys, s.m);
  }
}
