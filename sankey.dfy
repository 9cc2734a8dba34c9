/**
 * The data-preparation half of `make_sankey` and `_code_mapping` (sankey.py):
 * the column-count check, the upper-casing of the named columns, the pair
 * counts of `groupby(...).size()`, the threshold filter, the label codes, the
 * link values and the colour assignment.  A DataFrame is a `Frame` of named
 * columns; the link table it is reduced to is a sequence of `Link` rows.
 */
module Sankey {
  import opened Wrappers
  import opened PyStr
  import opened PyDict
  import opened PySeq

  // ---------------------------------------------------------------- frames

  /** One DataFrame column: text values, or integers. */
  datatype Column = Texts(texts: seq<string>) | Ints(ints: seq<int>)

  function Len(c: Column): nat {
    match c
    case Texts(t) => |t|
    case Ints(x) => |x|
  }

  /** Entry `i` of a column after `astype(str)`. */
  function EntryText(c: Column, i: nat): string
    requires i < Len(c)
  {
    match c
    case Texts(t) => t[i]
    case Ints(x) => IntToString(x[i])
  }

  /**
   * `column.astype(str).str.upper()`: a text column of the same length whose
   * entries are upper case and differ from the entries as text only in case.
   */
  function UpperColumn(c: Column): (r: Column)
    ensures r.Texts? && Len(r) == Len(c)
    ensures forall i :: 0 <= i < Len(c) ==>
              Upper(r.texts[i]) == r.texts[i] && Lower(r.texts[i]) == Lower(EntryText(c, i))
  {
    var t := seq(Len(c), i requires 0 <= i < Len(c) => EntryText(c, i));
    UpperAllFacts(t);
    Texts(seq(|t|, i requires 0 <= i < |t| => Upper(t[i])))
  }

  /**
   * Upper-casing a column twice is upper-casing it once, so a column named
   * twice in `cols` is upper-cased correctly (without `prep`, or with the two
   * names apart; a repeated neighbouring pair under `prep` fails, see
   * `PairClash`).
   */
  lemma UpperColumnIdempotent(c: Column)
    ensures UpperColumn(UpperColumn(c)) == UpperColumn(c)
  {
    var t := UpperColumn(c).texts;
    forall i | 0 <= i < |t| ensures Upper(t[i]) == t[i] {
      match c
      case Texts(s) => UpperIdempotent(s[i]);
      case Ints(x) => UpperIdempotent(IntToString(x[i]));
    }
  }

  /** The number of leading names of `cols` that are column names: where `df[col]` first raises KeyError. */
  function MissingIndex(names: seq<string>, cols: seq<string>): (k: nat)
    ensures k <= |cols|
    ensures forall j :: 0 <= j < k ==> cols[j] in names
    ensures k < |cols| ==> cols[k] !in names
  {
    if cols == [] || cols[0] !in names then 0 else 1 + MissingIndex(names, cols[1..])
  }

  /** The columns after every column named in `done` has been upper-cased. */
  function Uppered(names: seq<string>, columns: seq<Column>, done: seq<string>): (r: seq<Column>)
    requires |names| == |columns|
    ensures |r| == |columns|
  {
    seq(|columns|, c requires 0 <= c < |columns| => if names[c] in done then UpperColumn(columns[c]) else columns[c])
  }

  /** A DataFrame as `make_sankey` sees it: distinct column names, one column per name. */
  class Frame {
    var names: seq<string>
    var columns: seq<Column>

    ghost predicate Valid()
      reads this
    {
      |names| == |columns| && Distinct(names)
    }

    constructor (names: seq<string>, columns: seq<Column>)
      requires |names| == |columns| && Distinct(names)
      ensures Valid()
      ensures this.names == names && this.columns == columns
    {
      this.names := names;
      this.columns := columns;
    }

    /**
     * `for col in cols: df[col] = df[col].astype(str).str.upper()`: the
     * columns are converted in order until a name is missing, which raises
     * KeyError and leaves the columns converted so far converted.
     */
    method UpperColumns(cols: seq<string>) returns (missing: Option<string>)
      requires Valid()
      modifies this
      ensures Valid() && names == old(names)
      ensures missing == if MissingIndex(names, cols) < |cols| then Some(cols[MissingIndex(names, cols)]) else None
      ensures columns == Uppered(names, old(columns), cols[..MissingIndex(names, cols)])
    {
      ghost var start := columns;
      missing := None;
      assert cols[..0] == [];
      for i := 0 to |cols|
        invariant Valid() && names == old(names)
        invariant forall j :: 0 <= j < i ==> cols[j] in names
        invariant columns == Uppered(names, start, cols[..i])
      {
        var c := IndexOf(names, cols[i]);
        assert cols[..i + 1] == cols[..i] + [cols[i]];
        if c == |names| {
          missing := Some(cols[i]);
          assert MissingIndex(names, cols) == i by {
            MissingIndexAt(names, cols, i);
          }
          return;
        }
        UpperedStep(names, start, cols[..i], c);
        columns := columns[c := UpperColumn(columns[c])];
      }
      assert cols[..|cols|] == cols;
      MissingIndexAt(names, cols, |cols|);
    }
  }

  lemma {:induction false} MissingIndexAt(names: seq<string>, cols: seq<string>, i: nat)
    requires i <= |cols|
    requires forall j :: 0 <= j < i ==> cols[j] in names
    requires i < |cols| ==> cols[i] !in names
    ensures MissingIndex(names, cols) == i
    decreases i
  {
    if i > 0 {
      MissingIndexAt(names, cols[1..], i - 1);
    }
  }

  /** Converting column `c` extends the converted set by its name. */
  lemma UpperedStep(names: seq<string>, columns: seq<Column>, done: seq<string>, c: nat)
    requires |names| == |columns| && Distinct(names) && c < |names|
    ensures Uppered(names, columns, done)[c := UpperColumn(Uppered(names, columns, done)[c])]
            == Uppered(names, columns, done + [names[c]])
  {
    UpperColumnIdempotent(columns[c]);
    var a := Uppered(names, columns, done)[c := UpperColumn(Uppered(names, columns, done)[c])];
    var b := Uppered(names, columns, done + [names[c]]);
    forall d | 0 <= d < |columns| ensures a[d] == b[d] {
      if d != c {
        assert names[d] != names[c];
      }
    }
  }

  // ---------------------------------------------------------------- links

  /** One row of the link table: `source`, `target`, `count`. */
  datatype Link = Link(source: string, target: string, count: int)

  /** The row pairs of two columns (pandas keeps columns of one length; the shorter one bounds the pairs). */
  function Zip(a: seq<string>, b: seq<string>): (rows: seq<(string, string)>)
    ensures |rows| == if |a| < |b| then |a| else |b|
    ensures forall i :: 0 <= i < |rows| ==> rows[i] == (a[i], b[i])
  {
    seq(if |a| < |b| then |a| else |b|, i requires 0 <= i < |a| && i < |b| => (a[i], b[i]))
  }

  /** The order `groupby` sorts its group keys in: by the first column, then the second. */
  predicate PairLess(a: string, b: string, c: string, d: string) {
    Less(a, c) || (a == c && Less(b, d))
  }

  ghost predicate StrictlySorted(s: seq<Link>) {
    forall i, j :: 0 <= i < j < |s| ==> PairLess(s[i].source, s[i].target, s[j].source, s[j].target)
  }

  lemma PairLessTransitive(a: string, b: string, c: string, d: string, e: string, f: string)
    requires PairLess(a, b, c, d) && PairLess(c, d, e, f)
    ensures PairLess(a, b, e, f)
  {
    if Less(a, c) && Less(c, e) { LessTransitive(a, c, e); }
    if a == c && c == e {
      LessIrreflexive(a);
      LessTransitive(b, d, f);
    }
  }

  lemma PairLessIrreflexive(a: string, b: string)
    ensures !PairLess(a, b, a, b)
  {
    LessIrreflexive(a);
    LessIrreflexive(b);
  }

  lemma PairLessTotal(a: string, b: string, c: string, d: string)
    ensures (a == c && b == d) || PairLess(a, b, c, d) || PairLess(c, d, a, b)
  {
    LessTotal(a, c);
    LessTotal(b, d);
  }

  /** How many rows hold the pair `(a, b)`. */
  function Occurrences(rows: seq<(string, string)>, a: string, b: string): nat
    decreases |rows|
  {
    if rows == [] then 0
    else Occurrences(rows[..|rows| - 1], a, b) + (if rows[|rows| - 1] == (a, b) then 1 else 0)
  }

  /** The total count of the links for the pair `(a, b)`. */
  function LinkCount(s: seq<Link>, a: string, b: string): int
    decreases |s|
  {
    if s == [] then 0
    else (if s[0].source == a && s[0].target == b then s[0].count else 0) + LinkCount(s[1..], a, b)
  }

  /** The sum of the `count` column. */
  function CountTotal(s: seq<Link>): int
    decreases |s|
  {
    if s == [] then 0 else s[0].count + CountTotal(s[1..])
  }

  /** One more row with the pair `(a, b)` in the sorted group table. */
  function InsertPair(s: seq<Link>, a: string, b: string): seq<Link>
    decreases |s|
  {
    if s == [] then [Link(a, b, 1)]
    else if s[0].source == a && s[0].target == b then [s[0].(count := s[0].count + 1)] + s[1..]
    else if PairLess(a, b, s[0].source, s[0].target) then [Link(a, b, 1)] + s
    else [s[0]] + InsertPair(s[1..], a, b)
  }

  /** `groupby([x, y]).size().reset_index(name='count')` on the rows `rows`. */
  function PairCounts(rows: seq<(string, string)>): seq<Link>
    decreases |rows|
  {
    if rows == [] then []
    else InsertPair(PairCounts(rows[..|rows| - 1]), rows[|rows| - 1].0, rows[|rows| - 1].1)
  }

  lemma {:induction false} InsertPairCounts(s: seq<Link>, a: string, b: string)
    ensures forall x, y :: LinkCount(InsertPair(s, a, b), x, y) == LinkCount(s, x, y) + (if (x, y) == (a, b) then 1 else 0)
    ensures CountTotal(InsertPair(s, a, b)) == CountTotal(s) + 1
    decreases |s|
  {
    if s != [] && !(s[0].source == a && s[0].target == b) && !PairLess(a, b, s[0].source, s[0].target) {
      InsertPairCounts(s[1..], a, b);
      assert ([s[0]] + InsertPair(s[1..], a, b))[1..] == InsertPair(s[1..], a, b);
    } else if s != [] {
      assert ([Link(a, b, 1)] + s)[1..] == s;
    }
  }

  /** Every link of `r` has the pair `(a, b)` or a pair of some link of `s`. */
  ghost predicate PairsFrom(r: seq<Link>, s: seq<Link>, a: string, b: string) {
    forall l :: l in r ==> (l.source == a && l.target == b) || exists i :: 0 <= i < |s| && s[i].source == l.source && s[i].target == l.target
  }

  ghost predicate PositiveCounts(s: seq<Link>) {
    forall i :: 0 <= i < |s| ==> s[i].count > 0
  }

  /** Inserting a pair that heads the table only raises its count. */
  lemma InsertPairHit(s: seq<Link>, a: string, b: string)
    requires StrictlySorted(s) && PositiveCounts(s)
    requires s != [] && s[0].source == a && s[0].target == b
    ensures StrictlySorted(InsertPair(s, a, b)) && PositiveCounts(InsertPair(s, a, b))
    ensures PairsFrom(InsertPair(s, a, b), s, a, b)
  {
    var r := InsertPair(s, a, b);
    assert forall i :: 0 <= i < |r| ==> r[i].source == s[i].source && r[i].target == s[i].target;
    forall l | l in r
      ensures (l.source == a && l.target == b) || exists i :: 0 <= i < |s| && s[i].source == l.source && s[i].target == l.target
    {
      var i :| 0 <= i < |r| && r[i] == l;
      assert s[i].source == l.source && s[i].target == l.target;
    }
  }

  /** A pair below the head of the table goes in front. */
  lemma InsertPairFront(s: seq<Link>, a: string, b: string)
    requires StrictlySorted(s) && PositiveCounts(s)
    requires s != [] && PairLess(a, b, s[0].source, s[0].target)
    ensures InsertPair(s, a, b) == [Link(a, b, 1)] + s
    ensures StrictlySorted(InsertPair(s, a, b)) && PositiveCounts(InsertPair(s, a, b))
    ensures PairsFrom(InsertPair(s, a, b), s, a, b)
  {
    PairLessIrreflexive(a, b);
    var r := [Link(a, b, 1)] + s;
    forall i, j | 0 <= i < j < |r| ensures PairLess(r[i].source, r[i].target, r[j].source, r[j].target) {
      if i == 0 && j > 1 {
        PairLessTransitive(a, b, s[0].source, s[0].target, s[j - 1].source, s[j - 1].target);
      }
    }
    forall l | l in r
      ensures (l.source == a && l.target == b) || exists i :: 0 <= i < |s| && s[i].source == l.source && s[i].target == l.target
    {
      var i :| 0 <= i < |r| && r[i] == l;
      if i > 0 {
        assert s[i - 1] == l;
      }
    }
  }

  /** Every link of the tail after inserting a pair above the head lies above the head. */
  lemma InsertPairAbove(s: seq<Link>, a: string, b: string, j: nat)
    requires StrictlySorted(s)
    requires s != [] && !(s[0].source == a && s[0].target == b) && !PairLess(a, b, s[0].source, s[0].target)
    requires PairsFrom(InsertPair(s[1..], a, b), s[1..], a, b)
    requires j < |InsertPair(s[1..], a, b)|
    ensures PairLess(s[0].source, s[0].target, InsertPair(s[1..], a, b)[j].source, InsertPair(s[1..], a, b)[j].target)
  {
    var t := s[1..];
    var l := InsertPair(t, a, b)[j];
    assert l in InsertPair(t, a, b);
    if l.source == a && l.target == b {
      PairLessTotal(a, b, s[0].source, s[0].target);
    } else {
      var k :| 0 <= k < |t| && t[k].source == l.source && t[k].target == l.target;
      assert t[k] == s[k + 1];
    }
  }

  /** A pair above the head of the table goes into its tail. */
  lemma InsertPairSkip(s: seq<Link>, a: string, b: string)
    requires StrictlySorted(s) && PositiveCounts(s)
    requires s != [] && !(s[0].source == a && s[0].target == b) && !PairLess(a, b, s[0].source, s[0].target)
    requires StrictlySorted(InsertPair(s[1..], a, b)) && PositiveCounts(InsertPair(s[1..], a, b))
    requires PairsFrom(InsertPair(s[1..], a, b), s[1..], a, b)
    ensures StrictlySorted(InsertPair(s, a, b)) && PositiveCounts(InsertPair(s, a, b))
    ensures PairsFrom(InsertPair(s, a, b), s, a, b)
  {
    var t := s[1..];
    var u := InsertPair(t, a, b);
    var r := [s[0]] + u;
    assert InsertPair(s, a, b) == r;
    forall j | 0 <= j < |u| ensures PairLess(s[0].source, s[0].target, u[j].source, u[j].target) {
      InsertPairAbove(s, a, b, j);
    }
    ConsSorted(s[0], u);
    InsertPairTailFrom(s, a, b);
  }

  /** A link below every link of a strictly sorted table can go in front of it. */
  lemma ConsSorted(x: Link, u: seq<Link>)
    requires StrictlySorted(u)
    requires forall j :: 0 <= j < |u| ==> PairLess(x.source, x.target, u[j].source, u[j].target)
    ensures StrictlySorted([x] + u)
  {
    var r := [x] + u;
    forall i, j | 0 <= i < j < |r| ensures PairLess(r[i].source, r[i].target, r[j].source, r[j].target) {
      if i == 0 {
        assert r[j] == u[j - 1];
      } else {
        assert r[i] == u[i - 1] && r[j] == u[j - 1];
      }
    }
  }

  lemma InsertPairTailFrom(s: seq<Link>, a: string, b: string)
    requires s != []
    requires PairsFrom(InsertPair(s[1..], a, b), s[1..], a, b)
    ensures PairsFrom([s[0]] + InsertPair(s[1..], a, b), s, a, b)
  {
    var t := s[1..];
    var u := InsertPair(t, a, b);
    forall l | l in [s[0]] + u
      ensures (l.source == a && l.target == b) || exists i :: 0 <= i < |s| && s[i].source == l.source && s[i].target == l.target
    {
      if l != s[0] {
        assert l in u;
        if !(l.source == a && l.target == b) {
          var k :| 0 <= k < |t| && t[k].source == l.source && t[k].target == l.target;
          assert s[k + 1] == t[k];
        }
      }
    }
  }

  lemma {:induction false} InsertPairSorted(s: seq<Link>, a: string, b: string)
    requires StrictlySorted(s)
    requires forall i :: 0 <= i < |s| ==> s[i].count > 0
    ensures StrictlySorted(InsertPair(s, a, b))
    ensures forall i :: 0 <= i < |InsertPair(s, a, b)| ==> InsertPair(s, a, b)[i].count > 0
    ensures forall l :: l in InsertPair(s, a, b) ==>
              (l.source == a && l.target == b) || exists i :: 0 <= i < |s| && s[i].source == l.source && s[i].target == l.target
    decreases |s|
  {
    if s == [] {
    } else if s[0].source == a && s[0].target == b {
      InsertPairHit(s, a, b);
    } else if PairLess(a, b, s[0].source, s[0].target) {
      InsertPairFront(s, a, b);
    } else {
      var t := s[1..];
      assert StrictlySorted(t) by {
        forall i, j | 0 <= i < j < |t| ensures PairLess(t[i].source, t[i].target, t[j].source, t[j].target) {
          assert t[i] == s[i + 1] && t[j] == s[j + 1];
        }
      }
      InsertPairSorted(t, a, b);
      InsertPairSkip(s, a, b);
    }
  }

  /** In a strictly sorted table, a link's count is the total count of its pair. */
  lemma {:induction false} LinkCountSorted(s: seq<Link>, i: nat)
    requires StrictlySorted(s) && i < |s|
    ensures LinkCount(s, s[i].source, s[i].target) == s[i].count
    decreases |s|
  {
    var t := s[1..];
    assert StrictlySorted(t) by {
      forall p, q | 0 <= p < q < |t| ensures PairLess(t[p].source, t[p].target, t[q].source, t[q].target) {
        assert t[p] == s[p + 1] && t[q] == s[q + 1];
      }
    }
    if i == 0 {
      LinkCountAbsent(t, s[0].source, s[0].target);
    } else {
      LinkCountSorted(t, i - 1);
      assert t[i - 1] == s[i];
      if s[0].source == s[i].source && s[0].target == s[i].target {
        PairLessIrreflexive(s[0].source, s[0].target);
      }
    }
  }

  /** A table that is sorted after `(a, b)` has no count for it. */
  lemma {:induction false} LinkCountAbsent(t: seq<Link>, a: string, b: string)
    requires forall j :: 0 <= j < |t| ==> PairLess(a, b, t[j].source, t[j].target)
    ensures LinkCount(t, a, b) == 0
    decreases |t|
  {
    if t != [] {
      PairLessIrreflexive(a, b);
      LinkCountAbsent(t[1..], a, b);
    }
  }

  /** A pair with a count has a link. */
  lemma {:induction false} LinkCountPresent(s: seq<Link>, a: string, b: string)
    requires LinkCount(s, a, b) != 0
    ensures exists i :: 0 <= i < |s| && s[i].source == a && s[i].target == b
    decreases |s|
  {
    if !(s[0].source == a && s[0].target == b) {
      LinkCountPresent(s[1..], a, b);
      var i :| 0 <= i < |s[1..]| && s[1..][i].source == a && s[1..][i].target == b;
      assert s[i + 1] == s[1..][i];
    }
  }

  lemma {:induction false} PairCountsFacts(rows: seq<(string, string)>)
    ensures StrictlySorted(PairCounts(rows))
    ensures forall i :: 0 <= i < |PairCounts(rows)| ==> PairCounts(rows)[i].count > 0
    ensures forall a, b :: LinkCount(PairCounts(rows), a, b) == Occurrences(rows, a, b)
    ensures CountTotal(PairCounts(rows)) == |rows|
    decreases |rows|
  {
    if rows != [] {
      var init := rows[..|rows| - 1];
      var last := rows[|rows| - 1];
      PairCountsFacts(init);
      InsertPairSorted(PairCounts(init), last.0, last.1);
      InsertPairCounts(PairCounts(init), last.0, last.1);
    }
  }

  /**
   * The group table of one column pair: sorted by pair with no pair twice,
   * each link counting the rows with its pair, every pair of the rows
   * present, and the counts adding up to the number of rows.
   */
  lemma PairCountsSpec(rows: seq<(string, string)>)
    ensures StrictlySorted(PairCounts(rows))
    ensures forall i :: 0 <= i < |PairCounts(rows)| ==>
              PairCounts(rows)[i].count == Occurrences(rows, PairCounts(rows)[i].source, PairCounts(rows)[i].target) > 0
    ensures forall a, b :: Occurrences(rows, a, b) > 0 ==>
              exists i :: 0 <= i < |PairCounts(rows)| && PairCounts(rows)[i].source == a && PairCounts(rows)[i].target == b
    ensures CountTotal(PairCounts(rows)) == |rows|
  {
    var r := PairCounts(rows);
    PairCountsFacts(rows);
    forall i | 0 <= i < |r| ensures r[i].count == Occurrences(rows, r[i].source, r[i].target) {
      LinkCountSorted(r, i);
    }
    forall a, b | Occurrences(rows, a, b) > 0
      ensures exists i :: 0 <= i < |r| && r[i].source == a && r[i].target == b
    {
      LinkCountPresent(r, a, b);
    }
  }

  /** The text values of the column called `name` (none when it is missing or numeric). */
  function ColumnTexts(names: seq<string>, columns: seq<Column>, name: string): seq<string>
    requires |names| == |columns|
  {
    var c := IndexOf(names, name);
    if c < |columns| && columns[c].Texts? then columns[c].texts else []
  }

  /** The group table of the column pair `cols[i]`, `cols[i + 1]`. */
  function PairTable(names: seq<string>, columns: seq<Column>, cols: seq<string>, i: nat): seq<Link>
    requires |names| == |columns| && i + 1 < |cols|
  {
    PairCounts(Zip(ColumnTexts(names, columns, cols[i]), ColumnTexts(names, columns, cols[i + 1])))
  }

  /** The `prep` link table: the group tables of the neighbouring column pairs, one after the other. */
  function PrepLinks(names: seq<string>, columns: seq<Column>, cols: seq<string>): seq<Link>
    requires |names| == |columns| && |cols| >= 1
  {
    Flatten(PairTables(names, columns, cols))
  }

  /** The group tables of the neighbouring column pairs, in order. */
  function PairTables(names: seq<string>, columns: seq<Column>, cols: seq<string>): (ts: seq<seq<Link>>)
    requires |names| == |columns| && |cols| >= 1
    ensures |ts| == |cols| - 1
    ensures forall i :: 0 <= i < |cols| - 1 ==> ts[i] == PairTable(names, columns, cols, i)
  {
    seq(|cols| - 1, i requires 0 <= i < |cols| - 1 => PairTable(names, columns, cols, i))
  }

  /** The text values of a column; a numeric column here is empty. */
  function TextsOf(c: Column): seq<string> {
    if c.Texts? then c.texts else []
  }

  /** The columns, renamed `source`, `target`, `count`, as a link table; the renaming needs exactly three columns. */
  function RenamedLinks(columns: seq<Column>): Result<seq<Link>, SankeyError> {
    if |columns| != 3 then Failure(ColumnCountMismatch)
    else if columns[2].Texts? then (if columns[2].texts == [] then Success([]) else Failure(TextCounts))
    else if (columns[0].Ints? && columns[0].ints != []) || (columns[1].Ints? && columns[1].ints != []) then Failure(NumericLabels)
    else
      var src, tgt, cnt := TextsOf(columns[0]), TextsOf(columns[1]), columns[2].ints;
      var n := if |src| < |tgt| then |src| else |tgt|;
      var n := if n < |cnt| then n else |cnt|;
      Success(seq(n, i requires 0 <= i < n => Link(src[i], tgt[i], cnt[i])))
  }

  // ---------------------------------------------------------------- threshold filter

  /** `sankey_df[sankey_df['count'] >= threshold]`. */
  function AtLeast(links: seq<Link>, threshold: int): seq<Link>
    decreases |links|
  {
    if links == [] then []
    else AtLeast(links[..|links| - 1], threshold) +
         (if links[|links| - 1].count >= threshold then [links[|links| - 1]] else [])
  }

  /** The filter keeps exactly the links whose count reaches the threshold. */
  lemma {:induction false} AtLeastMembers(links: seq<Link>, threshold: int)
    ensures forall l :: l in AtLeast(links, threshold) <==> l in links && l.count >= threshold
    decreases |links|
  {
    if links != [] {
      var init := links[..|links| - 1];
      var l := links[|links| - 1];
      AtLeastMembers(init, threshold);
      assert init + [l] == links;
    }
  }

  /** The filter keeps, in order, exactly the links whose count reaches the threshold. */
  lemma {:induction false} AtLeastSpec(links: seq<Link>, threshold: int)
    ensures forall l :: l in AtLeast(links, threshold) <==> l in links && l.count >= threshold
    ensures Subsequence(AtLeast(links, threshold), links)
    decreases |links|
  {
    AtLeastMembers(links, threshold);
    if links != [] {
      var init := links[..|links| - 1];
      var l := links[|links| - 1];
      AtLeastSpec(init, threshold);
      var k := AtLeast(init, threshold);
      assert init + [l] == links;
      if l.count >= threshold {
        assert AtLeast(links, threshold) == k + [l];
        SubsequenceBoth(k, init, l);
      } else {
        assert AtLeast(links, threshold) == k;
        SubsequenceExtend(k, init, l);
      }
    }
  }

  // ---------------------------------------------------------------- _code_mapping

  ghost predicate StrictlyIncreasing(s: seq<string>) {
    forall i, j :: 0 <= i < j < |s| ==> Less(s[i], s[j])
  }

  /** `x` added to a sorted list of distinct labels. */
  function InsertLabel(s: seq<string>, x: string): seq<string>
    decreases |s|
  {
    if s == [] then [x]
    else if s[0] == x then s
    else if Less(x, s[0]) then [x] + s
    else [s[0]] + InsertLabel(s[1..], x)
  }

  /** `sorted(set(xs))`. */
  function SortedSet(xs: seq<string>): seq<string>
    decreases |xs|
  {
    if xs == [] then [] else InsertLabel(SortedSet(xs[..|xs| - 1]), xs[|xs| - 1])
  }

  lemma {:induction false} InsertLabelSpec(s: seq<string>, x: string)
    requires StrictlyIncreasing(s)
    ensures StrictlyIncreasing(InsertLabel(s, x))
    ensures forall y :: y in InsertLabel(s, x) <==> y in s || y == x
    decreases |s|
  {
    if s == [] {
    } else if s[0] == x {
    } else if Less(x, s[0]) {
      var r := [x] + s;
      forall i, j | 0 <= i < j < |r| ensures Less(r[i], r[j]) {
        if i == 0 && j > 1 {
          LessTransitive(x, s[0], s[j - 1]);
        }
      }
    } else {
      var t := s[1..];
      assert StrictlyIncreasing(t) by {
        forall i, j | 0 <= i < j < |t| ensures Less(t[i], t[j]) {
          assert t[i] == s[i + 1] && t[j] == s[j + 1];
        }
      }
      InsertLabelSpec(t, x);
      LessTotal(x, s[0]);
      var u := InsertLabel(t, x);
      var r := [s[0]] + u;
      forall i, j | 0 <= i < j < |r| ensures Less(r[i], r[j]) {
        if i == 0 {
          assert u[j - 1] in u;
          if u[j - 1] != x {
            var k :| 0 <= k < |t| && t[k] == u[j - 1];
            assert t[k] == s[k + 1];
          }
        }
      }
      forall y | y in s ensures y in r {
        if y != s[0] {
          assert y in t;
        }
      }
    }
  }

  /** The labels are strictly increasing and exactly the distinct values given. */
  lemma {:induction false} SortedSetSpec(xs: seq<string>)
    ensures StrictlyIncreasing(SortedSet(xs))
    ensures forall y :: y in SortedSet(xs) <==> y in xs
    decreases |xs|
  {
    if xs != [] {
      var init := xs[..|xs| - 1];
      SortedSetSpec(init);
      InsertLabelSpec(SortedSet(init), xs[|xs| - 1]);
      assert init + [xs[|xs| - 1]] == xs;
    }
  }

  /** `list(df[src]) + list(df[targ])`. */
  function Endpoints(links: seq<Link>): (e: seq<string>)
    ensures |e| == 2 * |links|
  {
    seq(|links|, i requires 0 <= i < |links| => links[i].source) +
    seq(|links|, i requires 0 <= i < |links| => links[i].target)
  }

  /** The `labels` of `_code_mapping`. */
  function Labels(links: seq<Link>): seq<string> {
    SortedSet(Endpoints(links))
  }

  /** The `source` column after `df.replace({src: lc_map, ...})`: each label by its position in `labels`. */
  function SourceCodes(links: seq<Link>): (codes: seq<nat>)
    ensures |codes| == |links|
  {
    var labels := Labels(links);
    seq(|links|, i requires 0 <= i < |links| => IndexOf(labels, links[i].source))
  }

  function TargetCodes(links: seq<Link>): (codes: seq<nat>)
    ensures |codes| == |links|
  {
    var labels := Labels(links);
    seq(|links|, i requires 0 <= i < |links| => IndexOf(labels, links[i].target))
  }

  lemma IndexOfIncreasing(s: seq<string>, i: nat)
    requires StrictlyIncreasing(s) && i < |s|
    ensures IndexOf(s, s[i]) == i
  {
    var k := IndexOf(s, s[i]);
    if k < i {
      LessIrreflexive(s[i]);
    }
  }

  /** A label is a source or a target of some link. */
  lemma LabelsAreEndpoints(links: seq<Link>)
    ensures forall y :: y in Labels(links) <==> exists i :: 0 <= i < |links| && (links[i].source == y || links[i].target == y)
  {
    var labels, e := Labels(links), Endpoints(links);
    SortedSetSpec(e);
    forall y | y in labels ensures exists i :: 0 <= i < |links| && (links[i].source == y || links[i].target == y) {
      var k :| 0 <= k < |e| && e[k] == y;
      if k < |links| {
        assert links[k].source == y;
      } else {
        assert links[k - |links|].target == y;
      }
    }
    forall i | 0 <= i < |links| ensures links[i].source in labels && links[i].target in labels {
      assert e[i] == links[i].source;
      assert e[|links| + i] == links[i].target;
    }
  }

  /** Label `c` is the code of the source or target its first occurrence among the endpoints comes from. */
  lemma CodeCovered(links: seq<Link>, c: nat)
    requires c < |Labels(links)|
    ensures c in SourceCodes(links) + TargetCodes(links)
  {
    var labels, e := Labels(links), Endpoints(links);
    var src, tgt := SourceCodes(links), TargetCodes(links);
    SortedSetSpec(e);
    assert labels[c] in labels;
    var k :| 0 <= k < |e| && e[k] == labels[c];
    IndexOfIncreasing(labels, c);
    if k < |links| {
      assert e[k] == links[k].source;
      assert src[k] == c;
      assert (src + tgt)[k] == c;
    } else {
      var j := k - |links|;
      assert e[k] == links[j].target;
      assert tgt[j] == c;
      assert (src + tgt)[|links| + j] == c;
    }
  }

  /** Every label is the code of some source or target. */
  lemma CodesCoverLabels(links: seq<Link>)
    ensures forall c :: 0 <= c < |Labels(links)| ==> c in SourceCodes(links) + TargetCodes(links)
  {
    forall c | 0 <= c < |Labels(links)| ensures c in SourceCodes(links) + TargetCodes(links) {
      CodeCovered(links, c);
    }
  }

  /**
   * `_code_mapping`: the labels are strictly increasing and exactly the
   * sources and targets; every code is a position in `labels` holding the
   * value it replaced; and every label is the code of some source or target.
   */
  lemma CodeMappingSpec(links: seq<Link>)
    ensures StrictlyIncreasing(Labels(links))
    ensures forall y :: y in Labels(links) <==> exists i :: 0 <= i < |links| && (links[i].source == y || links[i].target == y)
    ensures forall i :: 0 <= i < |links| ==>
              && SourceCodes(links)[i] < |Labels(links)| && Labels(links)[SourceCodes(links)[i]] == links[i].source
              && TargetCodes(links)[i] < |Labels(links)| && Labels(links)[TargetCodes(links)[i]] == links[i].target
    ensures forall c :: 0 <= c < |Labels(links)| ==> c in SourceCodes(links) + TargetCodes(links)
  {
    SortedSetSpec(Endpoints(links));
    LabelsAreEndpoints(links);
    CodesCoverLabels(links);
  }

  // ---------------------------------------------------------------- nodes and colours

  /** The values below `bound` that occur in `xs`, increasing; `np.unique` on codes that all lie below `bound`. */
  function UniqueBelow(xs: seq<nat>, bound: nat): seq<nat>
    decreases bound
  {
    if bound == 0 then [] else UniqueBelow(xs, bound - 1) + (if bound - 1 in xs then [bound - 1] else [])
  }

  function Range(n: nat): (r: seq<nat>)
    ensures |r| == n && forall i :: 0 <= i < n ==> r[i] == i
  {
    seq(n, i requires 0 <= i < n => i)
  }

  /** With every value below `bound` present, the unique values are `0, 1, …, bound - 1`. */
  lemma {:induction false} UniqueBelowAll(xs: seq<nat>, bound: nat)
    requires forall c :: 0 <= c < bound ==> c in xs
    ensures UniqueBelow(xs, bound) == Range(bound)
    decreases bound
  {
    if bound > 0 {
      UniqueBelowAll(xs, bound - 1);
      assert Range(bound - 1) + [bound - 1] == Range(bound);
    }
  }

  /** Plotly's qualitative palette `px.colors.qualitative.Plotly`. */
  const PALETTE: seq<string> :=
    ["#636EFA", "#EF553B", "#00CC96", "#AB63FA", "#FFA15A",
     "#19D3F3", "#FF6692", "#B6E880", "#FF97FF", "#FECB52"]

  /** The value of one hexadecimal digit (0 for a character that is none). */
  function HexValue(c: char): nat {
    if '0' <= c <= '9' then c as int - '0' as int
    else if 'A' <= c <= 'F' then c as int - 'A' as int + 10
    else if 'a' <= c <= 'f' then c as int - 'a' as int + 10
    else 0
  }

  /** `hex_to_rgb` on a `#RRGGBB` colour. */
  function HexToRgb(h: string): (nat, nat, nat)
    requires |h| == 7
  {
    (16 * HexValue(h[1]) + HexValue(h[2]),
     16 * HexValue(h[3]) + HexValue(h[4]),
     16 * HexValue(h[5]) + HexValue(h[6]))
  }

  /** `'rgba' + str(hex_to_rgb(h) + (0.3,))`. */
  function Rgba(h: string): string
    requires |h| == 7
  {
    var (r, g, b) := HexToRgb(h);
    "rgba(" + IntToString(r) + ", " + IntToString(g) + ", " + IntToString(b) + ", 0.3)"
  }

  predicate IsHexDigit(c: char) {
    '0' <= c <= '9' || 'A' <= c <= 'F' || 'a' <= c <= 'f'
  }

  /** A colour written `#RRGGBB`. */
  predicate IsHexColour(h: string) {
    |h| == 7 && h[0] == '#' && forall k :: 1 <= k < 7 ==> IsHexDigit(h[k])
  }

  /** The palette has ten colours, each written `#RRGGBB`. */
  lemma PaletteShape()
    ensures |PALETTE| == 10
    ensures forall i :: 0 <= i < 10 ==> IsHexColour(PALETTE[i])
  {
  }

  /** The colour of palette entry `i mod 10` as a link colour. */
  function LinkColour(i: nat): string {
    PaletteShape();
    Rgba(PALETTE[i % 10])
  }

  /** The colour of palette entry `i mod 10` as a node colour. */
  function NodeColour(i: nat): string {
    PALETTE[i % 10]
  }

  // ---------------------------------------------------------------- the diagram data

  datatype SankeyError =
    | TooFewColumns        // fewer than two columns named
    | MissingColumn(name: string)  // `df[col]` raises KeyError
    | ColumnCountMismatch  // renaming to three names needs exactly three columns
    | TextCounts           // `>=` between a text count column and the threshold raises TypeError
    | NumericLabels        // a numeric source or target column, not modelled
    | RepeatedGrouper(name: string)  // groupby on two columns of one name raises ValueError
    | CountClash           // `reset_index(name='count')` beside a grouping column named `count` raises ValueError

  /** What `make_sankey` hands to Plotly: the labels, the link columns and the colours. */
  datatype SankeyData = SankeyData(
    labels: seq<string>, source: seq<nat>, target: seq<nat>, values: seq<int>,
    linkColours: seq<string>, nodeColours: seq<string>)

  /** `vals` is truthy: given and not the empty string. */
  predicate Truthy(vals: Option<string>) {
    vals.Some? && vals.value != ""
  }

  /** The diagram data of a filtered link table (sankey.py:72-90). */
  function Diagram(links: seq<Link>, useCounts: bool): SankeyData {
    var labels := Labels(links);
    var src, tgt := SourceCodes(links), TargetCodes(links);
    var nodes := UniqueBelow(src + tgt, |labels|);
    SankeyData(
      labels, src, tgt,
      if useCounts then seq(|links|, i requires 0 <= i < |links| => links[i].count) else Repeat(1, |links|),
      seq(|links|, i requires 0 <= i < |links| => LinkColour(IndexOf(nodes, src[i]))),
      seq(|nodes|, i requires 0 <= i < |nodes| => NodeColour(i)))
  }

  /**
   * Pair `i` of the `prep` loop raises ValueError: its two names are one
   * column (the groupby fails), or one of them is `count`, which
   * `reset_index(name='count')` cannot insert a second time.
   */
  predicate PairClash(cols: seq<string>, i: nat)
    requires i < |cols| - 1
  {
    cols[i] == cols[i + 1] || cols[i] == "count" || cols[i + 1] == "count"
  }

  /** The error pair `i` raises: the groupby's comes first. */
  function PairError(cols: seq<string>, i: nat): SankeyError
    requires i < |cols| - 1
  {
    if cols[i] == cols[i + 1] then RepeatedGrouper(cols[i]) else CountClash
  }

  /** The first pair position `i >= s` that raises, or `|cols| - 1` when none does. */
  function ClashFrom(cols: seq<string>, s: nat): (k: nat)
    requires s < |cols|
    ensures s <= k <= |cols| - 1
    ensures k < |cols| - 1 ==> PairClash(cols, k)
    ensures forall i :: s <= i < k ==> !PairClash(cols, i)
    decreases |cols| - s
  {
    if s == |cols| - 1 || PairClash(cols, s) then s else ClashFrom(cols, s + 1)
  }

  /**
   * The first pair position `i` that raises, or `|cols| - 1` when none does:
   * where the `prep` loop first fails.
   */
  function ClashIndex(cols: seq<string>): (k: nat)
    requires |cols| >= 1
    ensures k <= |cols| - 1
    ensures k < |cols| - 1 ==> PairClash(cols, k)
    ensures forall i :: 0 <= i < k ==> !PairClash(cols, i)
  {
    ClashFrom(cols, 0)
  }

  /** Every name of `cols` is in a pair, so a `count` among them makes some pair raise. */
  lemma CountClashes(cols: seq<string>, p: nat)
    requires 2 <= |cols| && p < |cols| && cols[p] == "count"
    ensures ClashIndex(cols) < |cols| - 1
  {
    if ClashIndex(cols) == |cols| - 1 {
      var i := if p < |cols| - 1 then p else p - 1;
      assert PairClash(cols, i);
    }
  }

  /** The outcome of the `prep` loop: the concatenated group counts, or the ValueError of the first pair that raises. */
  function PrepResult(names: seq<string>, columns: seq<Column>, cols: seq<string>): Result<seq<Link>, SankeyError>
    requires |names| == |columns| && |cols| >= 1
  {
    if ClashIndex(cols) < |cols| - 1 then Failure(PairError(cols, ClashIndex(cols)))
    else Success(PrepLinks(names, columns, cols))
  }

  /** `make_sankey` on a frame with the given names and columns. */
  function SankeyOf(names: seq<string>, columns: seq<Column>, cols: seq<string>, vals: Option<string>,
                    threshold: int, prep: bool): Result<SankeyData, SankeyError>
    requires |names| == |columns|
  {
    if |cols| < 2 then Failure(TooFewColumns)
    else if MissingIndex(names, cols) < |cols| then Failure(MissingColumn(cols[MissingIndex(names, cols)]))
    else
      var up := Uppered(names, columns, cols);
      var links := if prep then PrepResult(names, up, cols) else RenamedLinks(up);
      match links
      case Failure(e) => Failure(e)
      case Success(ls) => Success(Diagram(AtLeast(ls, threshold), prep || Truthy(vals)))
  }

  /**
   * The diagram has one node per label, node `i` coloured with palette entry
   * `i mod 10`; each link has its source's colour, as an rgba string at
   * opacity 0.3; the values are the counts when asked for and 1 otherwise.
   */
  lemma DiagramSpec(links: seq<Link>, useCounts: bool)
    ensures |Diagram(links, useCounts).nodeColours| == |Diagram(links, useCounts).labels|
    ensures forall i :: 0 <= i < |Diagram(links, useCounts).labels| ==> Diagram(links, useCounts).nodeColours[i] == PALETTE[i % 10]
    ensures |Diagram(links, useCounts).linkColours| == |links|
    ensures forall i :: 0 <= i < |links| ==>
              Diagram(links, useCounts).linkColours[i] == LinkColour(Diagram(links, useCounts).source[i])
    ensures |Diagram(links, useCounts).values| == |links|
    ensures forall i :: 0 <= i < |links| ==> Diagram(links, useCounts).values[i] == if useCounts then links[i].count else 1
  {
    DiagramNodes(links, useCounts);
    DiagramLinks(links, useCounts);
  }

  /** With every label used by some link, the nodes are all the labels, in order. */
  lemma DiagramNodes(links: seq<Link>, useCounts: bool)
    ensures UniqueBelow(SourceCodes(links) + TargetCodes(links), |Labels(links)|) == Range(|Labels(links)|)
    ensures |Diagram(links, useCounts).nodeColours| == |Diagram(links, useCounts).labels|
    ensures forall i :: 0 <= i < |Diagram(links, useCounts).labels| ==> Diagram(links, useCounts).nodeColours[i] == PALETTE[i % 10]
  {
    var labels := Labels(links);
    var nodes := UniqueBelow(SourceCodes(links) + TargetCodes(links), |labels|);
    CodesCoverLabels(links);
    UniqueBelowAll(SourceCodes(links) + TargetCodes(links), |labels|);
    var d := Diagram(links, useCounts);
    assert d.labels == labels && |d.nodeColours| == |nodes| == |labels|;
    forall i | 0 <= i < |labels| ensures d.nodeColours[i] == PALETTE[i % 10] {
      assert d.nodeColours[i] == NodeColour(i);
    }
  }

  /** Each link takes the colour of its source node. */
  lemma DiagramLinks(links: seq<Link>, useCounts: bool)
    ensures |Diagram(links, useCounts).linkColours| == |links|
    ensures forall i :: 0 <= i < |links| ==>
              Diagram(links, useCounts).linkColours[i] == LinkColour(Diagram(links, useCounts).source[i])
  {
    var src := SourceCodes(links);
    var nodes := UniqueBelow(src + TargetCodes(links), |Labels(links)|);
    DiagramNodes(links, useCounts);
    SourceCodesBelow(links);
    forall i | 0 <= i < |links| ensures IndexOf(nodes, src[i]) == src[i] {
      assert nodes[src[i]] == src[i];
    }
  }

  /** Every source code is a position in the label list. */
  lemma SourceCodesBelow(links: seq<Link>)
    ensures forall i :: 0 <= i < |links| ==> SourceCodes(links)[i] < |Labels(links)|
  {
    LabelsAreEndpoints(links);
    forall i | 0 <= i < |links| ensures SourceCodes(links)[i] < |Labels(links)| {
      assert links[i].source in Labels(links);
    }
  }


  /**
   * `make_sankey` fails exactly when fewer than two columns are named, a named
   * column is missing, with `prep` a pair raises (two neighbouring names the
   * same, or a name `count`), or, without `prep`, the frame is not three
   * columns with text labels and numeric counts; otherwise, with `prep` set,
   * its values are the group counts.
   */
  lemma SankeyErrors(names: seq<string>, columns: seq<Column>, cols: seq<string>, vals: Option<string>,
                     threshold: int, prep: bool)
    requires |names| == |columns|
    ensures SankeyOf(names, columns, cols, vals, threshold, prep) == Failure(TooFewColumns) <==> |cols| < 2
    ensures |cols| >= 2 ==>
              (SankeyOf(names, columns, cols, vals, threshold, prep).Failure? <==>
                 MissingIndex(names, cols) < |cols| ||
                 (prep && ClashIndex(cols) < |cols| - 1) ||
                 (!prep && RenamedLinks(Uppered(names, columns, cols)).Failure?))
    ensures |cols| >= 2 && MissingIndex(names, cols) == |cols| && prep && ClashIndex(cols) < |cols| - 1 ==>
              SankeyOf(names, columns, cols, vals, threshold, prep) == Failure(PairError(cols, ClashIndex(cols)))
    ensures |cols| >= 2 && prep && "count" in cols ==> SankeyOf(names, columns, cols, vals, threshold, prep).Failure?
    ensures |cols| >= 2 && MissingIndex(names, cols) == |cols| && prep && ClashIndex(cols) == |cols| - 1 ==>
              SankeyOf(names, columns, cols, vals, threshold, prep)
                == Success(Diagram(AtLeast(PrepLinks(names, Uppered(names, columns, cols), cols), threshold), true))
  {
    if |cols| >= 2 && prep && "count" in cols {
      var p :| 0 <= p < |cols| && cols[p] == "count";
      CountClashes(cols, p);
    }
  }

  /** `make_sankey` (sankey.py:45-90) on the frame `df`, which it changes as pandas does. */
  method MakeSankey(df: Frame, cols: seq<string>, vals: Option<string>, threshold: int, prep: bool)
    returns (r: Result<SankeyData, SankeyError>)
    requires df.Valid()
    modifies df
    ensures df.Valid()
    ensures r == SankeyOf(old(df.names), old(df.columns), cols, vals, threshold, prep)
    ensures df.columns == if |cols| < 2 then old(df.columns)
                          else Uppered(old(df.names), old(df.columns), cols[..MissingIndex(old(df.names), cols)])
    ensures df.names == if |cols| >= 2 && MissingIndex(old(df.names), cols) == |cols| && !prep && |old(df.names)| == 3
                        then ["source", "target", "count"] else old(df.names)
  {
    if |cols| < 2 {
      return Failure(TooFewColumns);
    }
    var missing := df.UpperColumns(cols);
    if missing.Some? {
      return Failure(MissingColumn(missing.value));
    }
    assert cols[..|cols|] == cols;
    var links: seq<Link>;
    if prep {
      var prepped := PrepTables(df.names, df.columns, cols);
      if prepped.Failure? {
        return Failure(prepped.error);
      }
      links := prepped.value;
    } else {
      if |df.columns| != 3 {
        return Failure(ColumnCountMismatch);
      }
      df.names := ["source", "target", "count"];
      var renamed := RenamedLinks(df.columns);
      if renamed.Failure? {
        return Failure(renamed.error);
      }
      links := renamed.value;
    }
    r := Success(Diagram(AtLeast(links, threshold), prep || Truthy(vals)));
  }

  /**
   * The `prep` loop: `sankey_df = pd.concat([sankey_df, cur_df])` for each
   * neighbouring column pair, stopping at the first pair that raises
   * (`PairClash`).
   */
  method PrepTables(names: seq<string>, columns: seq<Column>, cols: seq<string>)
    returns (r: Result<seq<Link>, SankeyError>)
    requires |names| == |columns| && |cols| >= 1
    ensures r == PrepResult(names, columns, cols)
  {
    ghost var tables := PairTables(names, columns, cols);
    var links := [];
    for i := 0 to |cols| - 1
      invariant links == Flatten(tables[..i])
      invariant ClashFrom(cols, i) == ClashIndex(cols)
    {
      if PairClash(cols, i) {
        return Failure(PairError(cols, i));
      }
      var cur := PairTable(names, columns, cols, i);
      FlattenSnoc(tables, i);
      links := links + cur;
    }
    assert tables[..|cols| - 1] == tables;
    r := Success(links);
  }

}
