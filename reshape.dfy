/**
 * The tables the chart methods of `Wordie` (wordie.py) build before they hand
 * them to Plotly: the top-k word list and the src/targ/vals columns of
 * `wordcount_sankey`, the segments of `sent_over_time`, and the sentence-length
 * histogram of `pie_chart` and `subplot_bar` with its truncation, filter and
 * grid placement.
 */
module Reshape {
  import opened PyStr
  import opened PyDict
  import opened PySeq

  // ---------------------------------------------------------------- merging the counters

  /** `merged = Counter()` followed by `merged += c` for each counter in turn. */
  function Merged<K>(cs: seq<Dict<K, nat>>): (r: Dict<K, nat>)
    requires forall i :: 0 <= i < |cs| ==> cs[i].Valid()
    ensures r.Valid()
    decreases |cs|
  {
    if cs == [] then Empty()
    else
      var a := Merged(cs[..|cs| - 1]);
      AddCountsSpec(a, cs[|cs| - 1]);
      AddCounts(a, cs[|cs| - 1])
  }

  /** The total count of `x` over all the counters. */
  function CountSum<K>(cs: seq<Dict<K, nat>>, x: K): nat
    decreases |cs|
  {
    if cs == [] then 0 else CountSum(cs[..|cs| - 1], x) + Count(cs[|cs| - 1], x)
  }

  /** The merged counter holds, for every word, the sum of its counts over the documents, and only positive counts. */
  lemma {:induction false} MergedCounts<K>(cs: seq<Dict<K, nat>>)
    requires forall i :: 0 <= i < |cs| ==> cs[i].Valid()
    ensures forall x :: Count(Merged(cs), x) == CountSum(cs, x)
    ensures forall x :: x in Merged(cs).m ==> Merged(cs).m[x] > 0
    decreases |cs|
  {
    if cs != [] {
      var init := cs[..|cs| - 1];
      MergedCounts(init);
      AddCountsSpec(Merged(init), cs[|cs| - 1]);
    }
  }

  /** The merging loop of `wordcount_sankey` over the documents' counters. */
  method MergeCounters<L>(wordcounts: Dict<L, Dict<string, nat>>) returns (merged: Dict<string, nat>)
    requires wordcounts.Valid()
    requires forall l :: l in wordcounts.m ==> wordcounts.m[l].Valid()
    ensures merged == Merged(wordcounts.Values())
  {
    var cs := wordcounts.Values();
    assert forall j :: 0 <= j < |cs| ==> cs[j].Valid();
    merged := Empty();
    for i := 0 to |wordcounts.keys|
      invariant merged == Merged(cs[..i])
    {
      var doc := wordcounts.keys[i];
      MergedSnoc(cs, i);
      merged := AddCounts(merged, wordcounts.m[doc]);
    }
    assert cs[..|cs|] == cs;
  }

  /** Merging one more counter of a prefix adds its counts. */
  lemma MergedSnoc<K>(cs: seq<Dict<K, nat>>, i: nat)
    requires forall j :: 0 <= j < |cs| ==> cs[j].Valid()
    requires i < |cs|
    ensures Merged(cs[..i + 1]) == AddCounts(Merged(cs[..i]), cs[i])
  {
    assert cs[..i + 1][..i] == cs[..i];
  }

  // ---------------------------------------------------------------- stable sort by decreasing count

  /** Insert `x` after every element whose count is at least its own. */
  function InsertDesc<K>(s: seq<(K, nat)>, x: (K, nat)): seq<(K, nat)>
    decreases |s|
  {
    if s == [] then [x]
    else if s[0].1 >= x.1 then [s[0]] + InsertDesc(s[1..], x)
    else [x] + s
  }

  /** `sorted(items, key=lambda x: x[1], reverse=True)`; Python's sort is stable, also when reversed. */
  function SortDesc<K>(items: seq<(K, nat)>): seq<(K, nat)>
    decreases |items|
  {
    if items == [] then [] else InsertDesc(SortDesc(items[..|items| - 1]), items[|items| - 1])
  }

  ghost predicate NonIncreasing<K>(s: seq<(K, nat)>) {
    forall i, j :: 0 <= i < j < |s| ==> s[i].1 >= s[j].1
  }

  /** The elements whose count is `v`, in order. */
  function WithCount<K>(s: seq<(K, nat)>, v: nat): seq<(K, nat)>
    decreases |s|
  {
    if s == [] then [] else (if s[0].1 == v then [s[0]] else []) + WithCount(s[1..], v)
  }

  predicate IsPrefix<T(==)>(a: seq<T>, b: seq<T>) {
    |a| <= |b| && b[..|a|] == a
  }

  lemma {:induction false} WithCountAppend<K>(a: seq<(K, nat)>, b: seq<(K, nat)>, v: nat)
    ensures WithCount(a + b, v) == WithCount(a, v) + WithCount(b, v)
    decreases |a|
  {
    if a == [] {
      assert a + b == b;
    } else {
      var h: seq<(K, nat)> := if a[0].1 == v then [a[0]] else [];
      assert (a + b)[0] == a[0] && (a + b)[1..] == a[1..] + b;
      assert WithCount(a + b, v) == h + WithCount(a[1..] + b, v);
      WithCountAppend(a[1..], b, v);
      assert WithCount(a, v) == h + WithCount(a[1..], v);
    }
  }

  lemma {:induction false} WithCountNone<K>(s: seq<(K, nat)>, v: nat)
    requires forall i :: 0 <= i < |s| ==> s[i].1 < v
    ensures WithCount(s, v) == []
    decreases |s|
  {
    if s != [] {
      WithCountNone(s[1..], v);
    }
  }

  lemma {:induction false} InsertDescPerm<K>(s: seq<(K, nat)>, x: (K, nat))
    ensures multiset(InsertDesc(s, x)) == multiset(s) + multiset{x}
    decreases |s|
  {
    if s != [] && s[0].1 >= x.1 {
      assert s == [s[0]] + s[1..];
      InsertDescPerm(s[1..], x);
    }
  }

  /** Every element of `InsertDesc(t, x)` has a count at most `c` when `x` and every element of `t` do. */
  lemma InsertDescBelow<K>(t: seq<(K, nat)>, x: (K, nat), c: nat)
    requires x.1 <= c && forall k :: 0 <= k < |t| ==> t[k].1 <= c
    ensures forall j :: 0 <= j < |InsertDesc(t, x)| ==> InsertDesc(t, x)[j].1 <= c
  {
    var r := InsertDesc(t, x);
    InsertDescPerm(t, x);
    forall j | 0 <= j < |r| ensures r[j].1 <= c {
      assert r[j] in multiset(r);
      if r[j] != x {
        assert r[j] in multiset(t);
        var k :| 0 <= k < |t| && t[k] == r[j];
      }
    }
  }

  lemma {:induction false} InsertDescSpec<K>(s: seq<(K, nat)>, x: (K, nat))
    requires NonIncreasing(s)
    ensures NonIncreasing(InsertDesc(s, x))
    ensures multiset(InsertDesc(s, x)) == multiset(s) + multiset{x}
    decreases |s|
  {
    InsertDescPerm(s, x);
    if s != [] && s[0].1 >= x.1 {
      var t := s[1..];
      InsertDescSpec(t, x);
      assert forall k :: 0 <= k < |t| ==> t[k] == s[k + 1];
      InsertDescBelow(t, x, s[0].1);
    }
  }

  /** Inserting keeps, for every count, the order of the elements with that count, and puts `x` last among them. */
  lemma {:induction false} InsertDescStable<K>(s: seq<(K, nat)>, x: (K, nat), v: nat)
    requires NonIncreasing(s)
    ensures WithCount(InsertDesc(s, x), v) == WithCount(s, v) + WithCount([x], v)
    decreases |s|
  {
    var wx := WithCount([x], v);
    assert wx == if x.1 == v then [x] else [] by {
      assert [x][1..] == [];
    }
    if s == [] {
    } else if s[0].1 >= x.1 {
      var t := s[1..];
      NonIncreasingTail(s);
      InsertDescStable(t, x, v);
      var r := InsertDesc(t, x);
      var h: seq<(K, nat)> := if s[0].1 == v then [s[0]] else [];
      assert InsertDesc(s, x) == [s[0]] + r;
      assert ([s[0]] + r)[0] == s[0] && ([s[0]] + r)[1..] == r;
      assert WithCount(InsertDesc(s, x), v) == h + WithCount(r, v);
      assert WithCount(s, v) == h + WithCount(t, v);
      assert h + (WithCount(t, v) + wx) == (h + WithCount(t, v)) + wx;
    } else {
      InsertDescFrontStable(s, x, v);
    }
  }

  /** When `x` goes in front, it still comes after every element of its count, since there is none. */
  lemma InsertDescFrontStable<K>(s: seq<(K, nat)>, x: (K, nat), v: nat)
    requires NonIncreasing(s) && s != [] && s[0].1 < x.1
    ensures WithCount(InsertDesc(s, x), v) == WithCount(s, v) + WithCount([x], v)
  {
    var wx := WithCount([x], v);
    assert wx == if x.1 == v then [x] else [] by {
      assert [x][1..] == [];
    }
    assert InsertDesc(s, x) == [x] + s;
    WithCountAppend([x], s, v);
    if x.1 == v {
      assert forall i :: 0 <= i < |s| ==> s[i].1 < v by {
        forall i | 0 <= i < |s| ensures s[i].1 < v {
          assert i == 0 || s[0].1 >= s[i].1;
        }
      }
      WithCountNone(s, v);
      assert [x] + [] == [] + [x];
    } else {
      assert [] + WithCount(s, v) == WithCount(s, v) + [];
    }
  }

  /** The tail of a non-increasing sequence is non-increasing. */
  lemma NonIncreasingTail<K>(s: seq<(K, nat)>)
    requires s != [] && NonIncreasing(s)
    ensures NonIncreasing(s[1..])
  {
    var t := s[1..];
    forall i, j | 0 <= i < j < |t| ensures t[i].1 >= t[j].1 {
      assert t[i] == s[i + 1] && t[j] == s[j + 1];
    }
  }

  /**
   * `SortDesc` is a stable sort by decreasing count: the result is
   * non-increasing, a permutation of the input, and keeps the input order of
   * the elements of each count.
   */
  lemma {:induction false} SortDescSpec<K>(items: seq<(K, nat)>)
    ensures NonIncreasing(SortDesc(items))
    ensures multiset(SortDesc(items)) == multiset(items)
    ensures forall v :: WithCount(SortDesc(items), v) == WithCount(items, v)
    decreases |items|
  {
    if items != [] {
      var init := items[..|items| - 1];
      var x := items[|items| - 1];
      assert items == init + [x];
      SortDescSpec(init);
      InsertDescSpec(SortDesc(init), x);
      forall v ensures WithCount(SortDesc(items), v) == WithCount(items, v) {
        InsertDescStable(SortDesc(init), x, v);
        WithCountAppend(init, [x], v);
      }
    }
  }

  // ---------------------------------------------------------------- the top k words

  /** `sorted(merged.items(), key=lambda x: x[1], reverse=True)[:k]`. */
  function TopItems<K>(c: Dict<K, nat>, k: int): seq<(K, nat)>
    requires c.Valid()
  {
    Prefix(SortDesc(c.Items()), k)
  }

  /** `[x[0] for x in ...]`: the words of the top items. */
  function TopWords<K>(c: Dict<K, nat>, k: int): (ws: seq<K>)
    requires c.Valid()
    ensures |ws| == |TopItems(c, k)|
    ensures forall i :: 0 <= i < |ws| ==> ws[i] == TopItems(c, k)[i].0
  {
    var t := TopItems(c, k);
    seq(|t|, i requires 0 <= i < |t| => t[i].0)
  }

  lemma {:induction false} DistinctMultiplicity<T>(s: seq<T>, x: T)
    requires Distinct(s)
    ensures multiset(s)[x] <= 1
    decreases |s|
  {
    if s != [] {
      var init := s[..|s| - 1];
      assert s == init + [s[|s| - 1]];
      assert Distinct(init) by {
        forall i, j | 0 <= i < j < |init| ensures init[i] != init[j] {
          assert init[i] == s[i] && init[j] == s[j];
        }
      }
      DistinctMultiplicity(init, x);
      if x == s[|s| - 1] {
        assert x !in init by {
          forall i | 0 <= i < |init| ensures init[i] != x {
            assert init[i] == s[i];
          }
        }
      }
    }
  }

  lemma TwoPositions<T>(s: seq<T>, i: nat, j: nat)
    requires i < j < |s| && s[i] == s[j]
    ensures multiset(s)[s[i]] >= 2
  {
    assert s == s[..j] + s[j..];
    assert s[i] in s[..j];
    assert s[j] in s[j..];
  }

  /** The items of a dict are the pairs of a key with its value, listed once each. */
  lemma ItemsFacts<K>(c: Dict<K, nat>)
    requires c.Valid()
    ensures Distinct(c.Items())
    ensures forall e :: e in c.Items() ==> e.0 in c.m && e.1 == c.m[e.0]
    ensures forall x :: x in c.m ==> (x, c.m[x]) in c.Items()
  {
    var items := c.Items();
    forall x | x in c.m ensures (x, c.m[x]) in items {
      var i :| 0 <= i < |c.keys| && c.keys[i] == x;
      assert items[i] == (x, c.m[x]);
    }
  }

  /** Every top item is an item of the dict, and so is everything the sort moves. */
  lemma SortedItems<K>(c: Dict<K, nat>)
    requires c.Valid()
    ensures |SortDesc(c.Items())| == |c.keys|
    ensures forall e :: e in SortDesc(c.Items()) ==> e in c.Items()
    ensures forall e :: e in c.Items() ==> e in SortDesc(c.Items())
    ensures Distinct(SortDesc(c.Items()))
  {
    var items := c.Items();
    var sorted := SortDesc(items);
    SortDescSpec(items);
    ItemsFacts(c);
    assert |sorted| == |multiset(sorted)| == |multiset(items)| == |items|;
    forall e | e in sorted ensures e in items {
      assert e in multiset(sorted);
    }
    forall e | e in items ensures e in sorted {
      assert e in multiset(items);
    }
    forall i, j | 0 <= i < j < |sorted| ensures sorted[i] != sorted[j] {
      if sorted[i] == sorted[j] {
        TwoPositions(sorted, i, j);
        DistinctMultiplicity(items, sorted[i]);
        assert false;
      }
    }
  }

  lemma {:induction false} WithCountPrefix<K>(s: seq<(K, nat)>, n: nat, v: nat)
    requires n <= |s|
    ensures IsPrefix(WithCount(s[..n], v), WithCount(s, v))
    decreases n
  {
    if n > 0 {
      var h: seq<(K, nat)> := if s[0].1 == v then [s[0]] else [];
      assert s[..n][1..] == s[1..][..n - 1];
      WithCountPrefix(s[1..], n - 1, v);
      assert WithCount(s[..n], v) == h + WithCount(s[1..][..n - 1], v);
      assert WithCount(s, v) == h + WithCount(s[1..], v);
    }
  }

  /** Each top item is the pair of a word of the dict with its count, at the same place as in the sorted items. */
  lemma TopItemsAreItems<K>(c: Dict<K, nat>, k: int)
    requires c.Valid()
    ensures |TopItems(c, k)| <= |SortDesc(c.Items())|
    ensures forall i :: 0 <= i < |TopItems(c, k)| ==>
              && TopItems(c, k)[i] == SortDesc(c.Items())[i]
              && TopWords(c, k)[i] in c.m
              && TopItems(c, k)[i] == (TopWords(c, k)[i], c.m[TopWords(c, k)[i]])
  {
    var sorted := SortDesc(c.Items());
    var top := TopItems(c, k);
    SortedItems(c);
    ItemsFacts(c);
    assert top == sorted[..|top|];
    forall i | 0 <= i < |top| ensures top[i] == sorted[i] && top[i] in c.Items() {
      var e := sorted[i];
      assert e in sorted;
      assert e in c.Items();
    }
  }

  lemma TopWordsDistinct<K>(c: Dict<K, nat>, k: int)
    requires c.Valid()
    ensures Distinct(TopWords(c, k))
  {
    var ws := TopWords(c, k);
    TopItemsAreItems(c, k);
    SortedItems(c);
    forall i, j | 0 <= i < j < |ws| ensures ws[i] != ws[j] {
      assert SortDesc(c.Items())[i] != SortDesc(c.Items())[j];
    }
  }

  lemma TopWordsOrdered<K>(c: Dict<K, nat>, k: int)
    requires c.Valid()
    ensures forall w :: w in TopWords(c, k) ==> w in c.m
    ensures forall i, j :: 0 <= i < j < |TopWords(c, k)| ==>
              c.m[TopWords(c, k)[i]] >= c.m[TopWords(c, k)[j]]
  {
    TopItemsAreItems(c, k);
    SortDescSpec(c.Items());
  }

  lemma TopWordsMaximal<K>(c: Dict<K, nat>, k: int)
    requires c.Valid()
    ensures forall w :: w in TopWords(c, k) ==> w in c.m
    ensures forall w, i :: w in c.m && w !in TopWords(c, k) && 0 <= i < |TopWords(c, k)| ==>
              c.m[w] <= c.m[TopWords(c, k)[i]]
  {
    TopItemsAreItems(c, k);
    forall w, i | w in c.m && w !in TopWords(c, k) && 0 <= i < |TopWords(c, k)|
      ensures c.m[w] <= c.m[TopWords(c, k)[i]]
    {
      LeftOutBelow(c, k, w, i);
    }
  }

  /** A word left out of the top list counts no more than the `i`-th word picked. */
  lemma LeftOutBelow<K>(c: Dict<K, nat>, k: int, w: K, i: nat)
    requires c.Valid() && w in c.m && w !in TopWords(c, k) && i < |TopWords(c, k)|
    ensures TopWords(c, k)[i] in c.m && c.m[w] <= c.m[TopWords(c, k)[i]]
  {
    var sorted := SortDesc(c.Items());
    var ws := TopWords(c, k);
    TopItemsAreItems(c, k);
    SortedItems(c);
    ItemsFacts(c);
    assert (w, c.m[w]) in sorted;
    var p :| 0 <= p < |sorted| && sorted[p] == (w, c.m[w]);
    assert p >= |ws|;
    SortDescSpec(c.Items());
    assert sorted[i].1 >= sorted[p].1;
  }

  lemma TopItemsTies<K>(c: Dict<K, nat>, k: int)
    requires c.Valid()
    ensures forall v :: IsPrefix(WithCount(TopItems(c, k), v), WithCount(c.Items(), v))
  {
    var sorted := SortDesc(c.Items());
    var top := TopItems(c, k);
    SortDescSpec(c.Items());
    assert top == sorted[..|top|];
    forall v ensures IsPrefix(WithCount(top, v), WithCount(c.Items(), v)) {
      WithCountPrefix(sorted, |top|, v);
    }
  }

  /**
   * The word list `wordcount_sankey` picks: as many words as `[:k]` leaves of
   * the distinct words, each listed once, by non-increasing count; every word
   * left out counts no more than any word picked; and among equal counts the
   * picked words are the first ones in the merged counter's order.
   */
  lemma TopWordsSpec<K>(c: Dict<K, nat>, k: int)
    requires c.Valid()
    ensures 0 <= k ==> |TopWords(c, k)| == if k < |c.keys| then k else |c.keys|
    ensures k < 0 ==> |TopWords(c, k)| == if |c.keys| + k < 0 then 0 else |c.keys| + k
    ensures Distinct(TopWords(c, k))
    ensures forall w :: w in TopWords(c, k) ==> w in c.m
    ensures forall i, j :: 0 <= i < j < |TopWords(c, k)| ==>
              c.m[TopWords(c, k)[i]] >= c.m[TopWords(c, k)[j]]
    ensures forall w, i :: w in c.m && w !in TopWords(c, k) && 0 <= i < |TopWords(c, k)| ==>
              c.m[w] <= c.m[TopWords(c, k)[i]]
    ensures forall v :: IsPrefix(WithCount(TopItems(c, k), v), WithCount(c.Items(), v))
  {
    SortedItems(c);
    TopWordsDistinct(c, k);
    TopWordsOrdered(c, k);
    TopWordsMaximal(c, k);
    TopItemsTies(c, k);
  }

  // ---------------------------------------------------------------- filter_wordcount

  /** One document's counter cut down to the requested words: each once, with its Counter lookup (0 when absent). */
  function Restrict(c: Dict<string, nat>, keys: seq<string>): Dict<string, nat> {
    Dict(Dedup(keys), map k | k in keys :: Count(c, k))
  }

  /**
   * `filter_wordcount(dct, keys)`.  The result is a defaultdict, which gets an
   * entry for a label only when a key is assigned under it, so no key means no label.
   */
  function Filtered(dct: Dict<string, Dict<string, nat>>, keys: seq<string>): Dict<string, Dict<string, nat>>
    requires dct.Valid()
  {
    if keys == [] then Empty()
    else Dict(dct.keys, map l | l in dct.m :: Restrict(dct.m[l], keys))
  }

  /**
   * The filtered dict keeps the labels in order (all of them when some key is
   * requested); each inner dict has exactly the requested keys, in order of
   * first request, with the document's count, 0 for a word it lacks.
   */
  lemma FilteredSpec(dct: Dict<string, Dict<string, nat>>, keys: seq<string>)
    requires dct.Valid()
    ensures Filtered(dct, keys).Valid()
    ensures Filtered(dct, keys).keys == if keys == [] then [] else dct.keys
    ensures forall l :: l in Filtered(dct, keys).m ==>
              && Filtered(dct, keys).m[l].Valid()
              && Filtered(dct, keys).m[l].keys == Dedup(keys)
              && (forall w :: w in Filtered(dct, keys).m[l].m <==> w in keys)
              && (forall w :: w in keys ==> Filtered(dct, keys).m[l].m[w] == Count(dct.m[l], w))
  {
    var f := Filtered(dct, keys);
    forall l | l in f.m ensures f.m[l].Valid() {
      assert forall w :: w in f.m[l].m <==> w in Dedup(keys);
    }
  }

  /** `Filtered` over the first `i` labels. */
  function FilteredUpTo(dct: Dict<string, Dict<string, nat>>, keys: seq<string>, i: nat): Dict<string, Dict<string, nat>>
    requires dct.Valid() && i <= |dct.keys|
  {
    if keys == [] then Empty()
    else Dict(dct.keys[..i], map l | l in dct.keys[..i] :: Restrict(dct.m[l], keys))
  }

  lemma RestrictStep(c: Dict<string, nat>, ks: seq<string>, x: string)
    ensures Restrict(c, ks).Put(x, Count(c, x)) == Restrict(c, ks + [x])
  {
    assert (ks + [x])[..|ks|] == ks;
    var r := Restrict(c, ks).Put(x, Count(c, x));
    var t := Restrict(c, ks + [x]);
    assert r.keys == t.keys;
    assert r.m == t.m;
  }

  /** With a key requested, adding the next label's restricted counter extends `FilteredUpTo` by one label. */
  lemma FilteredUpToStep(dct: Dict<string, Dict<string, nat>>, keys: seq<string>, i: nat)
    requires dct.Valid() && keys != [] && i < |dct.keys|
    ensures FilteredUpTo(dct, keys, i).Put(dct.keys[i], Restrict(dct.m[dct.keys[i]], keys)) == FilteredUpTo(dct, keys, i + 1)
  {
    var doc := dct.keys[i];
    assert dct.keys[..i + 1] == dct.keys[..i] + [doc];
    assert doc !in dct.keys[..i] by {
      forall k | 0 <= k < i ensures dct.keys[..i][k] != doc {
        assert dct.keys[..i][k] == dct.keys[k];
      }
    }
    var a := FilteredUpTo(dct, keys, i).Put(doc, Restrict(dct.m[doc], keys));
    var b := FilteredUpTo(dct, keys, i + 1);
    assert a.keys == b.keys;
    assert a.m == b.m;
  }

  lemma FilteredUpToAll(dct: Dict<string, Dict<string, nat>>, keys: seq<string>)
    requires dct.Valid()
    ensures FilteredUpTo(dct, keys, |dct.keys|) == Filtered(dct, keys)
  {
    assert dct.keys[..|dct.keys|] == dct.keys;
    if keys != [] {
      var a := FilteredUpTo(dct, keys, |dct.keys|);
      var b := Filtered(dct, keys);
      assert a.m == b.m;
    }
  }

  /** The inner loop of `filter_wordcount` for one label: each requested key with the label's count, 0 when missing. */
  method RestrictCounts(c: Dict<string, nat>, keys: seq<string>) returns (row: Dict<string, nat>)
    ensures row == Restrict(c, keys)
  {
    row := Empty();
    assert row == Restrict(c, keys[..0]);
    for j := 0 to |keys|
      invariant row == Restrict(c, keys[..j])
    {
      assert keys[..j + 1] == keys[..j] + [keys[j]];
      RestrictStep(c, keys[..j], keys[j]);
      row := row.Put(keys[j], Count(c, keys[j]));
    }
    assert keys[..|keys|] == keys;
  }

  /**
   * The loops of `filter_wordcount`: `filtered[label][key] = dct[label][key]`
   * for every label and key.  The label's entry holds the finished inner dict;
   * it is created only when some key is assigned under it, as the defaultdict does.
   */
  method FilterWordcount(dct: Dict<string, Dict<string, nat>>, keys: seq<string>) returns (filtered: Dict<string, Dict<string, nat>>)
    requires dct.Valid()
    ensures filtered == Filtered(dct, keys)
  {
    filtered := Empty();
    for i := 0 to |dct.keys|
      invariant filtered == FilteredUpTo(dct, keys, i)
    {
      var doc := dct.keys[i];
      var row := RestrictCounts(dct.m[doc], keys);
      if keys != [] {
        FilteredUpToStep(dct, keys, i);
        filtered := filtered.Put(doc, row);
      }
    }
    FilteredUpToAll(dct, keys);
  }

  // ---------------------------------------------------------------- the src / targ / vals columns

  /** Each label repeated once per entry of its inner dict. */
  function SrcPieces(counts: Dict<string, Dict<string, nat>>): (pieces: seq<seq<string>>)
    requires counts.Valid()
    ensures |pieces| == |counts.keys|
  {
    seq(|counts.keys|, i requires 0 <= i < |counts.keys| => Repeat(counts.keys[i], |counts.m[counts.keys[i]].keys|))
  }

  /** Each label's inner values, in the inner dict's order. */
  function ValsPieces(counts: Dict<string, Dict<string, nat>>): (pieces: seq<seq<nat>>)
    requires counts.Valid() && forall l :: l in counts.m ==> counts.m[l].Valid()
    ensures |pieces| == |counts.keys|
  {
    seq(|counts.keys|, i requires 0 <= i < |counts.keys| => counts.m[counts.keys[i]].Values())
  }

  /** The column-building loops of `wordcount_sankey` (`src`, `targ`, `vals`). */
  method FlowColumns(counts: Dict<string, Dict<string, nat>>, wordList: seq<string>)
    returns (src: seq<string>, targ: seq<string>, vals: seq<nat>)
    requires counts.Valid() && forall l :: l in counts.m ==> counts.m[l].Valid()
    ensures src == Flatten(SrcPieces(counts))
    ensures targ == Times(wordList, |counts.keys|)
    ensures vals == Flatten(ValsPieces(counts))
  {
    var sp, vp := SrcPieces(counts), ValsPieces(counts);
    src := [];
    for i := 0 to |counts.keys|
      invariant src == Flatten(sp[..i])
    {
      var doc := counts.keys[i];
      FlattenSnoc(sp, i);
      src := src + Repeat(doc, |counts.m[doc].keys|);
    }
    targ := Times(wordList, |counts.keys|);
    vals := [];
    for i := 0 to |counts.keys|
      invariant vals == Flatten(vp[..i])
    {
      var doc := counts.keys[i];
      FlattenSnoc(vp, i);
      vals := vals + counts.m[doc].Values();
    }
    assert sp[..|sp|] == sp && vp[..|vp|] == vp;
  }

  /** Every label of the filtered dict contributes one row per distinct requested word. */
  lemma FilteredPieces(dct: Dict<string, Dict<string, nat>>, keys: seq<string>)
    requires dct.Valid()
    ensures Filtered(dct, keys).Valid()
    ensures forall l :: l in Filtered(dct, keys).m ==> Filtered(dct, keys).m[l].Valid()
    ensures Filtered(dct, keys).keys == if keys == [] then [] else dct.keys
    ensures |Flatten(SrcPieces(Filtered(dct, keys)))| == |Filtered(dct, keys).keys| * |Dedup(keys)|
    ensures |Flatten(ValsPieces(Filtered(dct, keys)))| == |Filtered(dct, keys).keys| * |Dedup(keys)|
  {
    var f := Filtered(dct, keys);
    FilteredSpec(dct, keys);
    var W := |Dedup(keys)|;
    var sp, vp := SrcPieces(f), ValsPieces(f);
    forall i | 0 <= i < |sp| ensures |sp[i]| == W {
      assert f.keys[i] in f.m;
    }
    forall i | 0 <= i < |vp| ensures |vp[i]| == W {
      assert f.keys[i] in f.m;
    }
    FlattenUniformLength(sp, W);
    FlattenUniformLength(vp, W);
  }

  /** Row `i·W + j` of the columns: label `i`, and the count of word `j` in document `i`. */
  lemma FlowRowAt(dct: Dict<string, Dict<string, nat>>, wordList: seq<string>, i: nat, j: nat)
    requires dct.Valid() && Distinct(wordList)
    requires i < |dct.keys| && j < |wordList|
    ensures Filtered(dct, wordList).Valid()
    ensures forall l :: l in Filtered(dct, wordList).m ==> Filtered(dct, wordList).m[l].Valid()
    ensures Row(i, j, |wordList|) < |Flatten(SrcPieces(Filtered(dct, wordList)))|
    ensures Row(i, j, |wordList|) < |Flatten(ValsPieces(Filtered(dct, wordList)))|
    ensures Flatten(SrcPieces(Filtered(dct, wordList)))[Row(i, j, |wordList|)] == dct.keys[i]
    ensures Flatten(ValsPieces(Filtered(dct, wordList)))[Row(i, j, |wordList|)] == Count(dct.m[dct.keys[i]], wordList[j])
  {
    var f := Filtered(dct, wordList);
    var W := |wordList|;
    FilteredSpec(dct, wordList);
    DedupOfDistinct(wordList);
    var sp, vp := SrcPieces(f), ValsPieces(f);
    forall k | 0 <= k < |sp| ensures |sp[k]| == W {
      assert f.keys[k] in f.m;
    }
    forall k | 0 <= k < |vp| ensures |vp[k]| == W {
      assert f.keys[k] in f.m;
    }
    FlattenAt(sp, W, i, j);
    FlattenAt(vp, W, i, j);
    var doc := dct.keys[i];
    assert f.keys[i] == doc;
    assert doc in f.m;
    assert vp[i] == f.m[doc].Values();
    assert f.m[doc].keys == wordList;
    assert wordList[j] in wordList;
  }

  /**
   * With a repetition-free word list of `W` words over `D` labels the three
   * columns have `D·W` rows, and row `i·W + j` is label `i`, word `j` and that
   * word's count in document `i` (0 when the document lacks it).
   */
  lemma FlowRows(dct: Dict<string, Dict<string, nat>>, wordList: seq<string>)
    requires dct.Valid() && Distinct(wordList)
    ensures Filtered(dct, wordList).Valid()
    ensures forall l :: l in Filtered(dct, wordList).m ==> Filtered(dct, wordList).m[l].Valid()
    ensures |Flatten(SrcPieces(Filtered(dct, wordList)))| == |dct.keys| * |wordList|
    ensures |Times(wordList, |Filtered(dct, wordList).keys|)| == |dct.keys| * |wordList|
    ensures |Flatten(ValsPieces(Filtered(dct, wordList)))| == |dct.keys| * |wordList|
    ensures forall i, j :: 0 <= i < |dct.keys| && 0 <= j < |wordList| ==>
              && Row(i, j, |wordList|) < |dct.keys| * |wordList|
              && Flatten(SrcPieces(Filtered(dct, wordList)))[Row(i, j, |wordList|)] == dct.keys[i]
              && Times(wordList, |Filtered(dct, wordList).keys|)[Row(i, j, |wordList|)] == wordList[j]
              && Flatten(ValsPieces(Filtered(dct, wordList)))[Row(i, j, |wordList|)] == Count(dct.m[dct.keys[i]], wordList[j])
  {
    FilteredPieces(dct, wordList);
    DedupOfDistinct(wordList);
    TimesLength(wordList, |dct.keys|);
    forall i, j | 0 <= i < |dct.keys| && 0 <= j < |wordList|
      ensures && Row(i, j, |wordList|) < |dct.keys| * |wordList|
              && Flatten(SrcPieces(Filtered(dct, wordList)))[Row(i, j, |wordList|)] == dct.keys[i]
              && Times(wordList, |Filtered(dct, wordList).keys|)[Row(i, j, |wordList|)] == wordList[j]
              && Flatten(ValsPieces(Filtered(dct, wordList)))[Row(i, j, |wordList|)] == Count(dct.m[dct.keys[i]], wordList[j])
    {
      RowBelow(i, j, |wordList|, |dct.keys|);
      FlowRowAt(dct, wordList, i, j);
      TimesAt(wordList, |dct.keys|, i, j);
    }
  }

  /**
   * The three columns have one length, as the DataFrame needs, exactly when
   * there is no label or the word list repeats no word; otherwise pandas raises.
   */
  lemma FlowLengths(dct: Dict<string, Dict<string, nat>>, wordList: seq<string>)
    requires dct.Valid()
    ensures Filtered(dct, wordList).Valid()
    ensures forall l :: l in Filtered(dct, wordList).m ==> Filtered(dct, wordList).m[l].Valid()
    ensures |Flatten(SrcPieces(Filtered(dct, wordList)))| == |Flatten(ValsPieces(Filtered(dct, wordList)))|
    ensures (|Flatten(SrcPieces(Filtered(dct, wordList)))| == |Times(wordList, |Filtered(dct, wordList).keys|)|)
              <==> (dct.keys == [] || Distinct(wordList))
  {
    FilteredPieces(dct, wordList);
    var D := |Filtered(dct, wordList).keys|;
    TimesLength(wordList, D);
    DedupLength(wordList);
    MulCancel(D, |Dedup(wordList)|, |wordList|);
  }

  /** For `w <= l`: `d·w == d·l` exactly when `d` is 0 or `w == l`. */
  lemma MulCancel(d: nat, w: nat, l: nat)
    requires w <= l
    ensures d * w == d * l <==> d == 0 || w == l
  {
    if d > 0 && w < l {
      MulMonotone(w + 1, l, d);
      assert (w + 1) * d == w * d + d;
      assert d * w == w * d && d * l == l * d;
    }
  }

  // ---------------------------------------------------------------- segments of sent_over_time

  /** `int(numwords / n)`: true division truncated toward zero. */
  function Step(numwords: nat, n: int): int
    requires n != 0
  {
    if n > 0 then numwords / n else -(numwords / -n)
  }

  /** Segment `i` (counting from 1) of `n`: `text[step*(i-1):i*step]`, the last one `text[step*(i-1):]`. */
  function Segment<T>(words: seq<T>, step: int, n: int, i: int): seq<T> {
    if i < n then Slice(words, step * (i - 1), i * step) else SliceFrom(words, step * (i - 1))
  }

  /** The segments `for i in range(1, n + 1)` visits, in order. */
  function Segments<T>(words: seq<T>, step: int, n: int): (segs: seq<seq<T>>)
    ensures |segs| == if n < 0 then 0 else n
  {
    seq(if n < 0 then 0 else n, i requires 0 <= i => Segment(words, step, n, i + 1))
  }

  lemma SegmentAt<T>(words: seq<T>, step: nat, n: nat, i: nat)
    requires i < n - 1 && step * n <= |words|
    ensures step * i <= step * (i + 1) <= |words|
    ensures Segments(words, step, n)[i] == words[step * i..step * (i + 1)]
  {
    MulMonotone(i, i + 1, step);
    MulMonotone(i + 1, n, step);
    assert step * i == i * step && step * (i + 1) == (i + 1) * step && step * n == n * step;
  }

  lemma {:induction false} SegmentsPrefix<T>(words: seq<T>, step: nat, n: nat, m: nat)
    requires m <= n - 1 && step * n <= |words|
    ensures step * m <= |words|
    ensures Flatten(Segments(words, step, n)[..m]) == words[..step * m]
    decreases m
  {
    var segs := Segments(words, step, n);
    MulMonotone(m, n, step);
    assert step * m == m * step && step * n == n * step;
    if m > 0 {
      SegmentsPrefix(words, step, n, m - 1);
      SegmentAt(words, step, n, m - 1);
      assert segs[..m][..m - 1] == segs[..m - 1];
      assert words[..step * (m - 1)] + words[step * (m - 1)..step * m] == words[..step * m];
    }
  }

  lemma StepBound(numwords: nat, n: int)
    requires n > 0
    ensures 0 <= Step(numwords, n) && Step(numwords, n) * n <= numwords
  {
    assert Step(numwords, n) == numwords / n;
  }

  lemma SegmentLast<T>(words: seq<T>, step: nat, n: nat)
    requires n > 0 && step * n <= |words|
    ensures step * (n - 1) <= |words|
    ensures Segments(words, step, n)[n - 1] == words[step * (n - 1)..]
  {
    var k := step * (n - 1);
    MulPred(step, n);
    assert Segments(words, step, n)[n - 1] == Segment(words, step, n, n);
    assert Segment(words, step, n, n) == SliceFrom(words, k);
  }

  lemma MulPred(step: nat, n: nat)
    requires n > 0
    ensures step * (n - 1) + step == step * n
  {
  }

  lemma SegmentLengths<T>(words: seq<T>, step: nat, n: nat)
    requires step * n <= |words|
    ensures forall i :: 0 <= i < n - 1 ==> |Segments(words, step, n)[i]| == step
  {
    forall i | 0 <= i < n - 1 ensures |Segments(words, step, n)[i]| == step {
      SegmentAt(words, step, n, i);
      assert step * (i + 1) == step * i + step;
    }
  }

  lemma SegmentsFlatten<T>(words: seq<T>, step: nat, n: nat)
    requires n > 0 && step * n <= |words|
    ensures Flatten(Segments(words, step, n)) == words
  {
    var segs := Segments(words, step, n);
    SegmentsPrefix(words, step, n, n - 1);
    SegmentLast(words, step, n);
    var k := step * (n - 1);
    assert Flatten(segs[..n - 1]) == words[..k] && segs[n - 1] == words[k..];
    FlattenSnoc(segs, n - 1);
    assert segs[..n] == segs;
    assert words[..k] + words[k..] == words;
  }

  /**
   * With `n > 0` segments over at least `numwords` words, every segment but
   * the last has `numwords div n` words, and the segments laid end to end give
   * back the whole word list.
   */
  lemma SegmentsTile<T>(words: seq<T>, numwords: nat, n: int)
    requires n > 0 && numwords <= |words|
    ensures Step(numwords, n) >= 0
    ensures forall i :: 0 <= i < n - 1 ==> |Segments(words, Step(numwords, n), n)[i]| == Step(numwords, n)
    ensures Flatten(Segments(words, Step(numwords, n), n)) == words
  {
    StepBound(numwords, n);
    SegmentLengths(words, Step(numwords, n), n);
    SegmentsFlatten(words, Step(numwords, n), n);
  }

  // ---------------------------------------------------------------- the sentence-length histogram

  /**
   * The dict the histogram loops of `pie_chart` and `subplot_bar` build: a new
   * length is set to 1 and then, being present, incremented at once, so each
   * distinct length (in order of first appearance) maps to its number of
   * occurrences plus one.
   */
  function HistogramOf(vals: seq<nat>): (h: Dict<nat, nat>)
    ensures h.Valid()
  {
    Dict(Dedup(vals), LengthCounts(vals))
  }

  /** Each length that occurs, mapped to its number of occurrences plus one. */
  function LengthCounts(vals: seq<nat>): map<nat, nat> {
    map x | x in vals :: multiset(vals)[x] + 1
  }

  lemma LengthCountsSnoc(s: seq<nat>, x: nat)
    ensures LengthCounts(s + [x]) == LengthCounts(s)[x := multiset(s)[x] + 2]
  {
    assert multiset(s + [x]) == multiset(s) + multiset{x};
    if x !in s {
      assert multiset(s)[x] == 0;
    }
  }

  lemma HistogramKeysSnoc(s: seq<nat>, x: nat)
    ensures HistogramOf(s + [x]).keys == if x in Dedup(s) then Dedup(s) else Dedup(s) + [x]
  {
    assert (s + [x])[..|s|] == s;
  }

  /** One step of the histogram loop on a length seen before adds one to its entry. */
  lemma HistogramSnocPresent(s: seq<nat>, x: nat)
    requires x in HistogramOf(s).m
    ensures HistogramOf(s).Put(x, HistogramOf(s).m[x] + 1) == HistogramOf(s + [x])
  {
    HistogramKeysSnoc(s, x);
    LengthCountsSnoc(s, x);
    assert x in Dedup(s);
  }

  /** One step of the histogram loop on a new length appends it, set to 1 and at once raised to 2. */
  lemma HistogramSnocAbsent(s: seq<nat>, x: nat)
    requires x !in HistogramOf(s).m
    ensures HistogramOf(s).Put(x, 1).Put(x, 2) == HistogramOf(s + [x])
  {
    var h := HistogramOf(s);
    assert h == Dict(Dedup(s), LengthCounts(s));
    var h1 := Dict(Dedup(s) + [x], LengthCounts(s)[x := 1]);
    assert h.Put(x, 1) == h1;
    var h2 := Dict(Dedup(s) + [x], LengthCounts(s)[x := 2]);
    assert h1.Put(x, 2) == h2;
    HistogramKeysSnoc(s, x);
    LengthCountsSnoc(s, x);
    assert x !in s;
    assert multiset(s)[x] == 0;
  }

  /** The histogram loop (wordie.py:307-314 and 360-367). */
  method Histogram(vals: seq<nat>) returns (dct: Dict<nat, nat>)
    ensures dct == HistogramOf(vals)
  {
    dct := Empty();
    for i := 0 to |vals|
      invariant dct == HistogramOf(vals[..i])
    {
      var x := vals[i];
      assert vals[..i + 1] == vals[..i] + [x];
      if x !in dct.m {
        HistogramSnocAbsent(vals[..i], x);
        dct := dct.Put(x, 1);
      } else {
        HistogramSnocPresent(vals[..i], x);
      }
      if x in dct.m {
        dct := dct.Put(x, dct.m[x] + 1);
      }
    }
    assert vals[..|vals|] == vals;
  }

  /** The histogram is `Counter(vals)` with one added to every count. */
  lemma HistogramIsCounterPlusOne(vals: seq<nat>)
    ensures HistogramOf(vals).keys == CounterOf(vals).keys
    ensures forall x :: x in HistogramOf(vals).m <==> x in CounterOf(vals).m
    ensures forall x :: x in HistogramOf(vals).m ==> HistogramOf(vals).m[x] == CounterOf(vals).m[x] + 1
  {
    CounterOfSpec(vals);
    forall x | x in HistogramOf(vals).m ensures HistogramOf(vals).m[x] == CounterOf(vals).m[x] + 1 {
      assert Count(CounterOf(vals), x) == multiset(vals)[x];
    }
  }

  /** `sendf[0:slices]`: the histogram rows in first-appearance order (the sorted frame is discarded). */
  function PieRows(vals: seq<nat>, slices: int): seq<(nat, nat)> {
    Prefix(HistogramOf(vals).Items(), slices)
  }

  /**
   * The pie keeps the first `slices` distinct lengths in order of first
   * appearance (not the most common ones), each with its occurrences plus one.
   */
  lemma PieRowsSpec(vals: seq<nat>, slices: int)
    ensures |PieRows(vals, slices)| == |Prefix(Dedup(vals), slices)|
    ensures forall i :: 0 <= i < |PieRows(vals, slices)| ==>
              PieRows(vals, slices)[i] == (Dedup(vals)[i], multiset(vals)[Dedup(vals)[i]] + 1)
  {
    var items := HistogramOf(vals).Items();
    assert |items| == |Dedup(vals)|;
    forall i | 0 <= i < |PieRows(vals, slices)|
      ensures PieRows(vals, slices)[i] == (Dedup(vals)[i], multiset(vals)[Dedup(vals)[i]] + 1)
    {
      assert PieRows(vals, slices)[i] == items[i];
      assert Dedup(vals)[i] in vals;
    }
  }

  /** `sendf[sendf["num_words"] < max_words]`: the rows whose length is below the bound, in order. */
  function Below(rows: seq<(nat, nat)>, maxWords: int): seq<(nat, nat)>
    decreases |rows|
  {
    if rows == [] then []
    else Below(rows[..|rows| - 1], maxWords) + (if rows[|rows| - 1].0 < maxWords then [rows[|rows| - 1]] else [])
  }

  /** The rows of one subplot. */
  function SubplotRows(vals: seq<nat>, maxWords: int): seq<(nat, nat)> {
    Below(HistogramOf(vals).Items(), maxWords)
  }

  /** The filter keeps exactly the rows whose length is below the bound. */
  lemma {:induction false} BelowMembers(rows: seq<(nat, nat)>, maxWords: int)
    ensures forall e :: e in Below(rows, maxWords) ==> e in rows && e.0 < maxWords
    ensures forall e :: e in rows && e.0 < maxWords ==> e in Below(rows, maxWords)
    decreases |rows|
  {
    if rows != [] {
      var init := rows[..|rows| - 1];
      BelowMembers(init, maxWords);
      assert rows == init + [rows[|rows| - 1]];
    }
  }

  /** The filter keeps the relative order of the rows it keeps. */
  lemma {:induction false} BelowOrder(rows: seq<(nat, nat)>, maxWords: int)
    ensures Subsequence(Below(rows, maxWords), rows)
    decreases |rows|
  {
    if rows != [] {
      var init := rows[..|rows| - 1];
      var e := rows[|rows| - 1];
      var b := Below(init, maxWords);
      assert rows == init + [e];
      BelowOrder(init, maxWords);
      if e.0 < maxWords {
        assert Below(rows, maxWords) == b + [e];
        SubsequenceBoth<(nat, nat)>(b, init, e);
      } else {
        assert Below(rows, maxWords) == b;
        SubsequenceExtend<(nat, nat)>(b, init, e);
      }
    }
  }

  /** The filter keeps, in order, exactly the rows whose length is below the bound. */
  lemma BelowSpec(rows: seq<(nat, nat)>, maxWords: int)
    ensures Subsequence(Below(rows, maxWords), rows)
    ensures forall e :: e in Below(rows, maxWords) ==> e in rows && e.0 < maxWords
    ensures forall e :: e in rows && e.0 < maxWords ==> e in Below(rows, maxWords)
  {
    BelowMembers(rows, maxWords);
    BelowOrder(rows, maxWords);
  }

  // ---------------------------------------------------------------- subplot grid

  /** `math.ceil(d / 2)`. */
  function NumCols(d: nat): (c: nat)
    ensures d <= 2 * c <= d + 1
  {
    (d + 1) / 2
  }

  /**
   * The (row, column) the loop of `subplot_bar` computes for document `i`
   * (counting from 0): row 1 for the first `numCols` documents, row 2 after.
   */
  function Cell(i: nat, numCols: nat): (rc: (int, int))
    ensures rc.0 == 1 <==> i < numCols
    ensures i < 2 * numCols ==> 1 <= rc.0 <= 2 && 1 <= rc.1 <= numCols
    ensures rc.1 == if i < numCols then i + 1 else i + 1 - numCols
  {
    var p := i + 1;
    if p > numCols then (2, p - numCols) else (1, p)
  }

  /** Distinct documents get distinct cells of the `2 × ceil(d/2)` grid. */
  lemma {:induction false} CellsDistinct(d: nat, i: nat, j: nat)
    requires i < j < d
    ensures Cell(i, NumCols(d)) != Cell(j, NumCols(d))
    ensures 1 <= Cell(j, NumCols(d)).1 <= NumCols(d)
  {
    var c := NumCols(d);
    if Cell(i, c).0 == Cell(j, c).0 {
      assert Cell(i, c).1 < Cell(j, c).1;
    }
  }
}
