/**
 * The `Wordie` framework object (wordie.py): its document store
 * `data` (attribute → label → value), the operations that fill it, and the
 * chart methods, which leave the store alone and return the tables they would
 * hand to Plotly instead of a figure.
 */
module Framework {
  import opened Wrappers
  import opened PyStr
  import opened PyDict
  import opened PySeq
  import opened Extraction
  import opened Reshape
  import Sankey

  /** `self.data`: attribute → (label → value), a `defaultdict(dict)`. */
  type Store = map<string, Dict<string, Value>>

  /** `self.data[a]`: a missing attribute reads as an empty dict. */
  function Attr(data: Store, a: string): (d: Dict<string, Value>)
    ensures a !in data ==> d == Empty()
  {
    if a in data then data[a] else Empty()
  }

  function TextOf(v: Value): string {
    if v.PlainText? then v.text else ""
  }

  function CountsOf(v: Value): Dict<string, nat> {
    if v.WordCount? then v.counts else Empty()
  }

  function NumWordsOf(v: Value): nat {
    if v.NumWords? then v.n else 0
  }

  function LengthsOf(v: Value): seq<nat> {
    if v.SentenceLength? then v.lengths else []
  }

  /** A value as the default parser stores it under attribute `a`: of that attribute's kind, a counter well formed. */
  ghost predicate ValueOk(a: string, v: Value) {
    AttributeOf(v) == a && (v.WordCount? ==> v.counts.Valid())
  }

  /** A results dict of the default parser: the five attributes, a valid counter, no more counted words than words. */
  ghost predicate ParsedResult(r: Dict<string, Value>) {
    && WellFormedResult(r)
    && r.m["wordcount"].counts.Valid()
    && NumWordsOf(r.m["numwords"]) <= |SplitWhitespace(TextOf(r.m["plain_text"]))|
  }

  /** The labels of the store, in load order. */
  function DocLabels(data: Store): seq<string> {
    Attr(data, "sentiment").keys
  }

  /** No document has more counted words than whitespace-separated words. */
  ghost predicate WordsBound(data: Store) {
    forall l :: l in Attr(data, "numwords").m && l in Attr(data, "plain_text").m ==>
      NumWordsOf(Attr(data, "numwords").m[l]) <= |SplitWhitespace(TextOf(Attr(data, "plain_text").m[l]))|
  }

  /**
   * A store filled by default parses: only the five attributes, all or none of
   * them, each a well-formed dict over the one label order of the store,
   * every value of its attribute's kind, and `WordsBound`.
   */
  ghost predicate StoreValid(data: Store) {
    && (forall a :: a in data ==> a in ATTRIBUTES)
    && (data == map[] || forall a :: a in ATTRIBUTES ==> a in data)
    && (forall a :: a in data ==> data[a].Valid() && data[a].keys == DocLabels(data))
    && (forall a, l :: a in data && l in data[a].m ==> ValueOk(a, data[a].m[l]))
    && WordsBound(data)
  }

  /** Only a word count is stored under `wordcount`. */
  lemma WordCountKind(v: Value)
    requires AttributeOf(v) == "wordcount"
    ensures v.WordCount?
  {
    assert "plain_text"[0] != "wordcount"[0] && "numwords"[0] != "wordcount"[0];
    assert "sentiment"[0] != "wordcount"[0] && "sentence_length"[0] != "wordcount"[0];
  }

  /** Every attribute of a valid store is a well-formed dict over the store's labels. */
  lemma StoreAttr(data: Store, a: string)
    requires StoreValid(data) && a in ATTRIBUTES
    ensures Attr(data, a).Valid() && Attr(data, a).keys == DocLabels(data)
  {
    if a !in data {
      assert data == map[];
    }
  }

  /** Only word counts are stored under `wordcount`. */
  lemma StoreCounters(data: Store)
    requires StoreValid(data)
    ensures forall l :: l in Attr(data, "wordcount").m ==>
              Attr(data, "wordcount").m[l].WordCount? && Attr(data, "wordcount").m[l].counts.Valid()
  {
    forall l | l in Attr(data, "wordcount").m
      ensures Attr(data, "wordcount").m[l].WordCount? && Attr(data, "wordcount").m[l].counts.Valid()
    {
      assert ValueOk("wordcount", data["wordcount"].m[l]);
      WordCountKind(data["wordcount"].m[l]);
    }
  }

  /** Every label of a valid store has a plain text and a word count no larger than its number of words. */
  lemma StoreTexts(data: Store)
    requires StoreValid(data)
    ensures forall l :: l in DocLabels(data) ==>
              (l in Attr(data, "plain_text").m && l in Attr(data, "numwords").m &&
               NumWordsOf(Attr(data, "numwords").m[l]) <= |SplitWhitespace(TextOf(Attr(data, "plain_text").m[l]))|)
  {
    assert ATTRIBUTES[0] == "plain_text" && ATTRIBUTES[2] == "numwords";
    StoreAttr(data, "plain_text");
    StoreAttr(data, "numwords");
    forall l | l in DocLabels(data)
      ensures l in Attr(data, "plain_text").m && l in Attr(data, "numwords").m &&
              NumWordsOf(Attr(data, "numwords").m[l]) <= |SplitWhitespace(TextOf(Attr(data, "plain_text").m[l]))|
    {
      assert WordsBound(data);
    }
  }

  /** What the chart methods rely on in a valid store. */
  lemma StoreFacts(data: Store)
    requires StoreValid(data)
    ensures forall a :: a in ATTRIBUTES ==> Attr(data, a).Valid() && Attr(data, a).keys == DocLabels(data)
    ensures forall l :: l in Attr(data, "wordcount").m ==>
              Attr(data, "wordcount").m[l].WordCount? && Attr(data, "wordcount").m[l].counts.Valid()
    ensures forall l :: l in DocLabels(data) ==>
              (l in Attr(data, "plain_text").m && l in Attr(data, "numwords").m &&
               NumWordsOf(Attr(data, "numwords").m[l]) <= |SplitWhitespace(TextOf(Attr(data, "plain_text").m[l]))|)
  {
    forall a | a in ATTRIBUTES ensures Attr(data, a).Valid() && Attr(data, a).keys == DocLabels(data) {
      StoreAttr(data, a);
    }
    StoreCounters(data);
    StoreTexts(data);
  }

  // ---------------------------------------------------------------- _save_results

  /** `self.data[k][label] = v` for the keys `keys` of `results`, in order. */
  function SaveAll(data: Store, doc: string, keys: seq<string>, results: Dict<string, Value>): Store
    requires forall k :: k in keys ==> k in results.m
    decreases |keys|
  {
    if keys == [] then data
    else
      var d := SaveAll(data, doc, keys[..|keys| - 1], results);
      var k := keys[|keys| - 1];
      d[k := Attr(d, k).Put(doc, results.m[k])]
  }

  /** The store after `_save_results(label, results)`. */
  function Saved(data: Store, doc: string, results: Dict<string, Value>): Store
    requires results.Valid()
  {
    SaveAll(data, doc, results.keys, results)
  }

  lemma {:induction false} SaveAllAt(data: Store, doc: string, keys: seq<string>, results: Dict<string, Value>, k: string)
    requires forall k :: k in keys ==> k in results.m
    requires Distinct(keys)
    ensures k in SaveAll(data, doc, keys, results) <==> k in keys || k in data
    ensures k in keys ==> SaveAll(data, doc, keys, results)[k] == Attr(data, k).Put(doc, results.m[k])
    ensures k !in keys && k in data ==> SaveAll(data, doc, keys, results)[k] == data[k]
    decreases |keys|
  {
    if keys != [] {
      var init := keys[..|keys| - 1];
      var last := keys[|keys| - 1];
      DistinctInit(keys);
      SaveAllAt(data, doc, init, results, k);
      assert keys == init + [last];
    }
  }

  /** `_save_results` on one attribute `k`. */
  lemma SavedAt(data: Store, doc: string, results: Dict<string, Value>, k: string)
    requires results.Valid()
    ensures k in Saved(data, doc, results) <==> k in results.m || k in data
    ensures k in results.m ==> Saved(data, doc, results)[k] == Attr(data, k).Put(doc, results.m[k])
    ensures k !in results.m && k in data ==> Saved(data, doc, results)[k] == data[k]
  {
    SaveAllAt(data, doc, results.keys, results, k);
  }

  /**
   * `_save_results` writes last-write-wins: under every attribute of the
   * results the label now maps to the result's value, keeping its place when
   * it was there and going last otherwise, and every other label and every
   * other attribute is left as it was.
   */
  lemma SavedSpec(data: Store, doc: string, results: Dict<string, Value>)
    requires results.Valid()
    ensures forall k :: k in results.m ==> k in Saved(data, doc, results)
    ensures forall k :: k in results.m ==> Saved(data, doc, results)[k].m == Attr(data, k).m[doc := results.m[k]]
    ensures forall k :: k in results.m ==>
              Saved(data, doc, results)[k].keys ==
                if doc in Attr(data, k).m then Attr(data, k).keys else Attr(data, k).keys + [doc]
    ensures forall k :: k !in results.m ==> (k in Saved(data, doc, results) <==> k in data)
    ensures forall k :: k !in results.m && k in data ==> Saved(data, doc, results)[k] == data[k]
  {
    forall k {
      SavedAt(data, doc, results, k);
    }
  }

  /** Saving under one label twice is saving once with the second result, when it has every attribute of the first. */
  lemma SaveTwice(data: Store, doc: string, r1: Dict<string, Value>, r2: Dict<string, Value>)
    requires r1.Valid() && r2.Valid()
    requires forall k :: k in r1.m ==> k in r2.m
    ensures Saved(Saved(data, doc, r1), doc, r2) == Saved(data, doc, r2)
  {
    var s1 := Saved(data, doc, r1);
    var a, b := Saved(s1, doc, r2), Saved(data, doc, r2);
    forall k ensures (k in a <==> k in b) && (k in a ==> a[k] == b[k]) {
      SavedAt(data, doc, r1, k);
      SavedAt(s1, doc, r2, k);
      SavedAt(data, doc, r2, k);
      if k in r1.m {
        PutPut(Attr(data, k), doc, r1.m[k], r2.m[k]);
      }
    }
  }

  /** The label order after saving a default parse. */
  function LabelsAfter(data: Store, doc: string): seq<string> {
    if doc in Attr(data, "sentiment").m then DocLabels(data) else DocLabels(data) + [doc]
  }

  /** One attribute after saving: the label put into a dict over the store's labels, which then runs over `LabelsAfter`. */
  lemma SavedAttrShape(data: Store, doc: string, r: Dict<string, Value>, a: string)
    requires r.Valid() && a in r.m
    requires Attr(data, a).Valid() && Attr(data, a).keys == DocLabels(data) && Attr(data, "sentiment").Valid()
    ensures a in Saved(data, doc, r)
    ensures Saved(data, doc, r)[a] == Attr(data, a).Put(doc, r.m[a])
    ensures Saved(data, doc, r)[a].Valid() && Saved(data, doc, r)[a].keys == LabelsAfter(data, doc)
  {
    SavedAt(data, doc, r, a);
    assert doc in Attr(data, a).m <==> doc in Attr(data, "sentiment").m;
  }

  lemma SavedShape(data: Store, doc: string, r: Dict<string, Value>)
    requires StoreValid(data) && ParsedResult(r)
    ensures forall a :: a in Saved(data, doc, r) <==> a in ATTRIBUTES
    ensures forall a :: a in Saved(data, doc, r) ==>
              && Saved(data, doc, r)[a] == Attr(data, a).Put(doc, r.m[a])
              && Saved(data, doc, r)[a].Valid()
              && Saved(data, doc, r)[a].keys == LabelsAfter(data, doc)
  {
    StoreFacts(data);
    assert forall a :: a in r.m <==> a in ATTRIBUTES;
    forall a ensures (a in Saved(data, doc, r) <==> a in ATTRIBUTES) {
      SavedAt(data, doc, r, a);
    }
    forall a | a in ATTRIBUTES
      ensures && Saved(data, doc, r)[a] == Attr(data, a).Put(doc, r.m[a])
              && Saved(data, doc, r)[a].Valid()
              && Saved(data, doc, r)[a].keys == LabelsAfter(data, doc)
    {
      SavedAttrShape(data, doc, r, a);
    }
  }

  /** A default parse holds values of the right kind. */
  lemma ParsedValues(r: Dict<string, Value>, a: string)
    requires ParsedResult(r) && a in r.m
    ensures ValueOk(a, r.m[a])
  {
    if r.m[a].WordCount? {
      assert a == "wordcount";
    }
  }

  /** Saving values of their attributes' kinds into a store of such values leaves only such values. */
  lemma SavedValuesOk(data: Store, doc: string, r: Dict<string, Value>)
    requires r.Valid()
    requires forall a :: a in r.m ==> ValueOk(a, r.m[a])
    requires forall a, l :: a in data && l in data[a].m ==> ValueOk(a, data[a].m[l])
    ensures forall a, l :: a in Saved(data, doc, r) && l in Saved(data, doc, r)[a].m ==>
              ValueOk(a, Saved(data, doc, r)[a].m[l])
  {
    var s := Saved(data, doc, r);
    forall a, l | a in s && l in s[a].m ensures ValueOk(a, s[a].m[l]) {
      SavedAt(data, doc, r, a);
      if a in r.m {
        var d := Attr(data, a);
        assert s[a] == d.Put(doc, r.m[a]);
        if l != doc {
          assert s[a].m[l] == d.m[l];
        }
      }
    }
  }

  lemma SavedValues(data: Store, doc: string, r: Dict<string, Value>)
    requires StoreValid(data) && ParsedResult(r)
    ensures forall a, l :: a in Saved(data, doc, r) && l in Saved(data, doc, r)[a].m ==>
              ValueOk(a, Saved(data, doc, r)[a].m[l])
  {
    forall a | a in r.m ensures ValueOk(a, r.m[a]) {
      ParsedValues(r, a);
    }
    SavedValuesOk(data, doc, r);
  }

  /** Putting one document whose counted words fit its text keeps every document within the bound. */
  lemma PutBound(nw: Dict<string, Value>, pt: Dict<string, Value>, doc: string, n: Value, p: Value)
    requires forall l :: l in nw.m && l in pt.m ==> NumWordsOf(nw.m[l]) <= |SplitWhitespace(TextOf(pt.m[l]))|
    requires NumWordsOf(n) <= |SplitWhitespace(TextOf(p))|
    ensures forall l :: l in nw.Put(doc, n).m && l in pt.Put(doc, p).m ==>
              NumWordsOf(nw.Put(doc, n).m[l]) <= |SplitWhitespace(TextOf(pt.Put(doc, p).m[l]))|
  {
    var nw', pt' := nw.Put(doc, n), pt.Put(doc, p);
    forall l | l in nw'.m && l in pt'.m
      ensures NumWordsOf(nw'.m[l]) <= |SplitWhitespace(TextOf(pt'.m[l]))|
    {
      if l != doc {
        assert nw'.m[l] == nw.m[l] && pt'.m[l] == pt.m[l];
      }
    }
  }

  lemma SavedBound(data: Store, doc: string, r: Dict<string, Value>)
    requires StoreValid(data) && ParsedResult(r)
    ensures WordsBound(Saved(data, doc, r))
  {
    var s := Saved(data, doc, r);
    assert ATTRIBUTES[0] == "plain_text" && ATTRIBUTES[2] == "numwords";
    assert "numwords" in r.m && "plain_text" in r.m;
    SavedAt(data, doc, r, "numwords");
    SavedAt(data, doc, r, "plain_text");
    assert WordsBound(data);
    PutBound(Attr(data, "numwords"), Attr(data, "plain_text"), doc, r.m["numwords"], r.m["plain_text"]);
  }

  /** Saving a default parse keeps the store well formed. */
  lemma SavedValid(data: Store, doc: string, r: Dict<string, Value>)
    requires StoreValid(data) && ParsedResult(r)
    ensures StoreValid(Saved(data, doc, r))
  {
    var s := Saved(data, doc, r);
    SavedShape(data, doc, r);
    assert "sentiment" in s by {
      assert ATTRIBUTES[3] == "sentiment";
    }
    assert DocLabels(s) == LabelsAfter(data, doc);
    SavedValues(data, doc, r);
    SavedBound(data, doc, r);
  }

  // ---------------------------------------------------------------- load_text

  /** `load_text`'s label: the file name unless a label is given (a given empty label is kept). */
  function DocLabel(given: Option<string>, filename: string): (doc: string)
    ensures given.None? ==> doc == filename
    ensures given.Some? ==> doc == given.value
  {
    if given.None? then filename else given.value
  }

  /**
   * `load_stop_words`: with a non-empty stopfile name, the raw text of that
   * file (`stopText`); otherwise NLTK's English list (`english`).
   */
  function LoadStopWords(stopfile: Option<string>, stopText: string, english: set<string>): (sw: StopList)
    ensures sw.RawText? <==> stopfile.Some? && stopfile.value != ""
  {
    if stopfile.Some? && stopfile.value != "" then RawText(stopText) else Listed(english)
  }

  /** A default parse meets `ParsedResult`. */
  lemma ExtractParsed(text: string, stop: StopList, analyze: string -> Polarity)
    ensures ParsedResult(Extract(text, stop, analyze))
  {
    var plain := CleanText(text);
    var words := Words(text, stop);
    var r := Results(plain, CounterOf(words), |words|, analyze(plain), SentenceLengths(Split(text, ".")));
    assert Extract(text, stop, analyze) == r;
    ResultsFields(plain, CounterOf(words), |words|, analyze(plain), SentenceLengths(Split(text, ".")));
    CounterOfKeys(words);
    KeptWordsLength(SplitWhitespace(plain), stop);
    assert r.m["wordcount"].counts.Valid();
    assert NumWordsOf(r.m["numwords"]) <= |SplitWhitespace(TextOf(r.m["plain_text"]))|;
  }

  /** After loading a file with no label, each attribute holds its parse under the file name. */
  lemma LoadedUnderFilename(data: Store, filename: string, r: Dict<string, Value>)
    requires r.Valid()
    ensures forall k :: k in r.m ==>
              k in Saved(data, DocLabel(None, filename), r) &&
              filename in Saved(data, DocLabel(None, filename), r)[k].m &&
              Saved(data, DocLabel(None, filename), r)[k].m[filename] == r.m[k]
  {
    SavedSpec(data, filename, r);
  }

  datatype ChartError =
    | SankeyFailed(error: Sankey.SankeyError)
    | LengthMismatch   // `pd.DataFrame.from_dict` on columns of different lengths
    | ZeroDivision     // `numwords / n` with `n == 0`
    | IndexError       // `x[file_num]` out of range

  // ---------------------------------------------------------------- wordcount_sankey

  /** The counters of a `wordcount` attribute. */
  function CounterTable(d: Dict<string, Value>): (wc: Dict<string, Dict<string, nat>>)
    requires d.Valid() && forall l :: l in d.m ==> d.m[l].WordCount? && d.m[l].counts.Valid()
    ensures wc.Valid() && forall l :: l in wc.m ==> wc.m[l].Valid()
    ensures wc.keys == d.keys
    ensures forall l :: l in d.m ==> d.m[l] == WordCount(wc.m[l])
  {
    Dict(d.keys, map l | l in d.m :: CountsOf(d.m[l]))
  }

  /** `self.data['wordcount']` with its counters, in the order of the store's labels. */
  function WordCounts(data: Store): (wc: Dict<string, Dict<string, nat>>)
    requires StoreValid(data)
    ensures wc.Valid() && forall l :: l in wc.m ==> wc.m[l].Valid()
    ensures wc.keys == DocLabels(data)
  {
    StoreFacts(data);
    CounterTable(Attr(data, "wordcount"))
  }

  /** The `word_list` of `wordcount_sankey`: the given one, or the top `k` words of the merged counters. */
  function WordList(wc: Dict<string, Dict<string, nat>>, wordList: Option<seq<string>>, k: int): seq<string>
    requires wc.Valid() && forall l :: l in wc.m ==> wc.m[l].Valid()
  {
    if wordList.Some? then wordList.value else TopWords(Merged(wc.Values()), k)
  }

  /** The columns `src`, `targ` and `vals` of `wordcount_sankey`. */
  function FlowFrame(wc: Dict<string, Dict<string, nat>>, words: seq<string>): (seq<string>, seq<string>, seq<nat>)
    requires wc.Valid() && forall l :: l in wc.m ==> wc.m[l].Valid()
  {
    var f := Filtered(wc, words);
    FilteredPieces(wc, words);
    (Flatten(SrcPieces(f)), Times(words, |f.keys|), Flatten(ValsPieces(f)))
  }

  function IntsOf(xs: seq<nat>): (r: seq<int>)
    ensures |r| == |xs| && forall i :: 0 <= i < |xs| ==> r[i] == xs[i]
  {
    seq(|xs|, i requires 0 <= i < |xs| => xs[i] as int)
  }

  /** What `make_sankey` is called on, and what it returns, for three flow columns. */
  function FlowSankey(src: seq<string>, targ: seq<string>, vals: seq<nat>): Result<Sankey.SankeyData, ChartError> {
    if |src| != |targ| || |src| != |vals| then Failure(LengthMismatch)
    else
      match Sankey.SankeyOf(["src", "targ", "vals"], [Sankey.Texts(src), Sankey.Texts(targ), Sankey.Ints(IntsOf(vals))],
                            ["src", "targ"], Some("vals"), 0, false)
      case Failure(e) => Failure(SankeyFailed(e))
      case Success(d) => Success(d)
  }

  /** What `wordcount_sankey` computes before rendering. */
  function SankeyTable(wc: Dict<string, Dict<string, nat>>, wordList: Option<seq<string>>, k: int): Result<Sankey.SankeyData, ChartError>
    requires wc.Valid() && forall l :: l in wc.m ==> wc.m[l].Valid()
  {
    var (src, targ, vals) := FlowFrame(wc, WordList(wc, wordList, k));
    FlowSankey(src, targ, vals)
  }

  /** `make_sankey` on the flow columns fails only where the frame cannot be built, with LengthMismatch. */
  lemma FlowSankeySpec(src: seq<string>, targ: seq<string>, vals: seq<nat>)
    ensures FlowSankey(src, targ, vals).Failure? <==> |src| != |targ| || |src| != |vals|
    ensures FlowSankey(src, targ, vals).Failure? ==> FlowSankey(src, targ, vals).error == LengthMismatch
  {
    if |src| == |targ| == |vals| {
      FlowSankeySucceeds(src, targ, vals);
    }
  }

  /** Text columns of equal length with an integer column never make `make_sankey` fail. */
  lemma FlowSankeySucceeds(src: seq<string>, targ: seq<string>, vals: seq<nat>)
    requires |src| == |targ| == |vals|
    ensures FlowSankey(src, targ, vals).Success?
  {
    var names, cols := ["src", "targ", "vals"], ["src", "targ"];
    var columns := [Sankey.Texts(src), Sankey.Texts(targ), Sankey.Ints(IntsOf(vals))];
    assert Sankey.MissingIndex(names, cols[1..]) == 1 by {
      assert cols[1..][1..] == [];
    }
    var up := Sankey.Uppered(names, columns, cols);
    assert up[0].Texts? && up[1].Texts? && up[2] == columns[2];
  }

  /** `wordcount_sankey` fails exactly when there are documents and the word list repeats a word. */
  lemma SankeyTableFails(wc: Dict<string, Dict<string, nat>>, wordList: Option<seq<string>>, k: int)
    requires wc.Valid() && forall l :: l in wc.m ==> wc.m[l].Valid()
    ensures SankeyTable(wc, wordList, k).Failure? <==> wc.keys != [] && !Distinct(WordList(wc, wordList, k))
  {
    var words := WordList(wc, wordList, k);
    FlowLengths(wc, words);
    var frame := FlowFrame(wc, words);
    FlowSankeySpec(frame.0, frame.1, frame.2);
  }

  /** Its only error is pandas' refusal of columns of different lengths. */
  lemma SankeyTableError(wc: Dict<string, Dict<string, nat>>, wordList: Option<seq<string>>, k: int)
    requires wc.Valid() && forall l :: l in wc.m ==> wc.m[l].Valid()
    ensures SankeyTable(wc, wordList, k).Failure? ==> SankeyTable(wc, wordList, k).error == LengthMismatch
  {
    var frame := FlowFrame(wc, WordList(wc, wordList, k));
    FlowSankeySpec(frame.0, frame.1, frame.2);
  }

  /** The top-k word list never repeats a word, so without a word list `wordcount_sankey` never fails. */
  lemma SankeyTableTopWords(wc: Dict<string, Dict<string, nat>>, k: int)
    requires wc.Valid() && forall l :: l in wc.m ==> wc.m[l].Valid()
    ensures SankeyTable(wc, None, k).Success?
  {
    var words := WordList(wc, None, k);
    TopWordsDistinct(Merged(wc.Values()), k);
    assert Distinct(words);
    SankeyTableFails(wc, None, k);
  }



  // ---------------------------------------------------------------- sent_over_time

  /** The score of segment `i` (counting from 1) of a word list. */
  function SegmentScore(words: seq<string>, step: int, n: int, i: int, analyze: string -> Polarity): real {
    Score(analyze(Join(" ", Segment(words, step, n, i))))
  }

  /** The scores of the `n` segments of one word list, in order. */
  function SegmentScoresOf(words: seq<string>, step: int, n: int, analyze: string -> Polarity): (vals: seq<real>)
    ensures |vals| == |Segments(words, step, n)|
    ensures forall i :: 0 <= i < |vals| ==> vals[i] == Score(analyze(Join(" ", Segments(words, step, n)[i])))
  {
    seq(if n < 0 then 0 else n, i requires 0 <= i => SegmentScore(words, step, n, i + 1, analyze))
  }

  /** The row of `sent_over_time` for one document: its words cut into `n` segments of `numwords div n` words. */
  function SentimentRow(text: string, numwords: nat, n: int, analyze: string -> Polarity): seq<real>
    requires n != 0
  {
    SegmentScoresOf(SplitWhitespace(text), Step(numwords, n), n, analyze)
  }

  /** The rows of `sent_over_time` for the documents `labels`, or the error of `numwords / n`. */
  function SentimentRows(labels: seq<string>, plain: Dict<string, Value>, numwords: Dict<string, Value>,
                         n: int, analyze: string -> Polarity): (r: Result<seq<seq<real>>, ChartError>)
    requires forall l :: l in labels ==> l in plain.m && l in numwords.m
    ensures r.Failure? <==> n == 0 && labels != []
    ensures r.Failure? ==> r.error == ZeroDivision
    ensures r.Success? ==> |r.value| == |labels|
  {
    if n == 0 && labels != [] then Failure(ZeroDivision)
    else if n == 0 then Success([])
    else Success(seq(|labels|, i requires 0 <= i < |labels| =>
                   SentimentRow(TextOf(plain.m[labels[i]]), NumWordsOf(numwords.m[labels[i]]), n, analyze)))
  }

  /**
   * For `n > 0` a document's row has `n` scores, and its segments (all but
   * the last of `numwords div n` words, the last taking the rest) tile its
   * word list, provided `numwords` is no more than its number of words.
   */
  lemma SentimentRowSpec(text: string, numwords: nat, n: int, analyze: string -> Polarity)
    requires n > 0 && numwords <= |SplitWhitespace(text)|
    ensures |SentimentRow(text, numwords, n, analyze)| == n
    ensures forall i :: 0 <= i < n - 1 ==> |Segments(SplitWhitespace(text), Step(numwords, n), n)[i]| == Step(numwords, n)
    ensures Flatten(Segments(SplitWhitespace(text), Step(numwords, n), n)) == SplitWhitespace(text)
  {
    SegmentsTile(SplitWhitespace(text), numwords, n);
  }

  /** What `sent_over_time` computes before rendering, one row per label of the store. */
  function SentimentTable(data: Store, n: int, analyze: string -> Polarity): Result<seq<seq<real>>, ChartError>
    requires StoreValid(data)
  {
    StoreFacts(data);
    SentimentRows(DocLabels(data), Attr(data, "plain_text"), Attr(data, "numwords"), n, analyze)
  }

  // ---------------------------------------------------------------- pie_chart and subplot_bar

  /** `list(d.values())` for a `sentence_length` attribute. */
  function LengthLists(d: Dict<string, Value>): (x: seq<seq<nat>>)
    requires d.Valid()
    ensures |x| == |d.keys|
    ensures forall i :: 0 <= i < |d.keys| ==> x[i] == LengthsOf(d.m[d.keys[i]])
  {
    seq(|d.keys|, i requires 0 <= i < |d.keys| => LengthsOf(d.m[d.keys[i]]))
  }

  /** What `pie_chart` computes before rendering. */
  function PieTable(lists: seq<seq<nat>>, slices: int, fileNum: int): Result<seq<(nat, nat)>, ChartError> {
    match Index(lists, fileNum)
    case None => Failure(IndexError)
    case Some(vals) => Success(PieRows(vals, slices))
  }

  /**
   * `pie_chart` fails exactly when `file_num` is no index of the document
   * list (negative ones count from the end); otherwise it shows the first
   * `slices` distinct lengths of that document, each with its occurrences plus one.
   */
  lemma PieTableSpec(lists: seq<seq<nat>>, slices: int, fileNum: int)
    ensures PieTable(lists, slices, fileNum).Failure? <==> fileNum < -|lists| || |lists| <= fileNum
    ensures Index(lists, fileNum).Some? ==>
              var vals := Index(lists, fileNum).value;
              && PieTable(lists, slices, fileNum) == Success(PieRows(vals, slices))
              && |PieRows(vals, slices)| == |Prefix(Dedup(vals), slices)|
              && forall i :: 0 <= i < |PieRows(vals, slices)| ==>
                   PieRows(vals, slices)[i] == (Dedup(vals)[i], multiset(vals)[Dedup(vals)[i]] + 1)
  {
    if Index(lists, fileNum).Some? {
      PieRowsSpec(Index(lists, fileNum).value, slices);
    }
  }

  /** One subplot: its grid cell and its bars. */
  datatype Panel = Panel(row: int, col: int, bars: seq<(nat, nat)>)

  /** The panel `subplot_bar` draws for document `i` of a grid with `numCols` columns. */
  function PanelOf(vals: seq<nat>, i: nat, numCols: nat, maxWords: int): Panel {
    var rc := Cell(i, numCols);
    Panel(rc.0, rc.1, SubplotRows(vals, maxWords))
  }

  /** The inner loop of `sent_over_time`: `vals.append(get_score(...))` for `i` in `range(1, n + 1)`. */
  method SegmentScores(words: seq<string>, step: int, n: int, analyze: string -> Polarity) returns (vals: seq<real>)
    ensures vals == SegmentScoresOf(words, step, n, analyze)
  {
    vals := [];
    var i := 1;
    while i <= n
      invariant 1 <= i && (n >= 0 ==> i <= n + 1) && (n < 0 ==> i == 1)
      invariant |vals| == i - 1
      invariant forall j :: 0 <= j < i - 1 ==> vals[j] == SegmentScore(words, step, n, j + 1, analyze)
      decreases n + 1 - i
    {
      var val: real;
      if i < n {
        val := Score(analyze(Join(" ", Slice(words, step * (i - 1), i * step))));
      } else {
        val := Score(analyze(Join(" ", SliceFrom(words, step * (i - 1)))));
      }
      vals := vals + [val];
      i := i + 1;
    }
  }

  /** The word list of `wordcount_sankey`: the given one, or the top `k` words of the merged counters. */
  method ChooseWords(wc: Dict<string, Dict<string, nat>>, wordList: Option<seq<string>>, k: int) returns (words: seq<string>)
    requires wc.Valid() && forall l :: l in wc.m ==> wc.m[l].Valid()
    ensures words == WordList(wc, wordList, k)
  {
    if wordList.None? {
      var merged := MergeCounters(wc);
      words := TopWords(merged, k);
    } else {
      words := wordList.value;
    }
  }

  /** `pd.DataFrame.from_dict` on the three flow columns, then `make_sankey` on the frame. */
  method MakeFlowSankey(src: seq<string>, targ: seq<string>, vals: seq<nat>) returns (r: Result<Sankey.SankeyData, ChartError>)
    ensures r == FlowSankey(src, targ, vals)
  {
    if |src| != |targ| || |src| != |vals| {
      return Failure(LengthMismatch);
    }
    var df := new Sankey.Frame(["src", "targ", "vals"], [Sankey.Texts(src), Sankey.Texts(targ), Sankey.Ints(IntsOf(vals))]);
    var res := Sankey.MakeSankey(df, ["src", "targ"], Some("vals"), 0, false);
    if res.Failure? {
      return Failure(SankeyFailed(res.error));
    }
    r := Success(res.value);
  }

  /** The outer loop of `sent_over_time`, over the labels of the `sentiment` attribute. */
  method SentimentLoop(labels: seq<string>, plain: Dict<string, Value>, numwords: Dict<string, Value>,
                       n: int, analyze: string -> Polarity) returns (r: Result<seq<seq<real>>, ChartError>)
    requires forall l :: l in labels ==> l in plain.m && l in numwords.m
    ensures r == SentimentRows(labels, plain, numwords, n, analyze)
  {
    var rows: seq<seq<real>> := [];
    for i := 0 to |labels|
      invariant n != 0 || i == 0
      invariant |rows| == i
      invariant forall j :: 0 <= j < i ==>
                  rows[j] == SentimentRow(TextOf(plain.m[labels[j]]), NumWordsOf(numwords.m[labels[j]]), n, analyze)
    {
      var d := labels[i];
      var text := SplitWhitespace(TextOf(plain.m[d]));
      if n == 0 {
        return Failure(ZeroDivision);
      }
      var step := Step(NumWordsOf(numwords.m[d]), n);
      var vals := SegmentScores(text, step, n, analyze);
      rows := rows + [vals];
    }
    if n == 0 {
      return Success([]);
    }
    assert rows == seq(|labels|, i requires 0 <= i < |labels| =>
                     SentimentRow(TextOf(plain.m[labels[i]]), NumWordsOf(numwords.m[labels[i]]), n, analyze));
    r := Success(rows);
  }

  /** The panels `subplot_bar` draws for the sentence lengths `x` of the documents. */
  function SubplotPanels(x: seq<seq<nat>>, maxWords: int): (ps: seq<Panel>)
    ensures |ps| == |x|
  {
    seq(|x|, i requires 0 <= i < |x| => PanelOf(x[i], i, NumCols(|x|), maxWords))
  }

  /**
   * Every document gets the bars of its lengths below `max_words`, in a cell
   * of the two-row grid of `ceil(d/2)` columns, and no two documents get the same cell.
   */
  lemma SubplotPanelsSpec(x: seq<seq<nat>>, maxWords: int)
    ensures forall i :: 0 <= i < |x| ==>
              && SubplotPanels(x, maxWords)[i].bars == SubplotRows(x[i], maxWords)
              && 1 <= SubplotPanels(x, maxWords)[i].row <= 2
              && 1 <= SubplotPanels(x, maxWords)[i].col <= NumCols(|x|)
    ensures forall i, j :: 0 <= i < j < |x| ==>
              (SubplotPanels(x, maxWords)[i].row, SubplotPanels(x, maxWords)[i].col) !=
              (SubplotPanels(x, maxWords)[j].row, SubplotPanels(x, maxWords)[j].col)
  {
    forall i, j | 0 <= i < j < |x|
      ensures (SubplotPanels(x, maxWords)[i].row, SubplotPanels(x, maxWords)[i].col) !=
              (SubplotPanels(x, maxWords)[j].row, SubplotPanels(x, maxWords)[j].col)
    {
      CellsDistinct(|x|, i, j);
    }
  }

  /** One pass of the trace loop of `subplot_bar`: the histogram of a document, its short rows, and its grid cell. */
  method PanelFor(vals: seq<nat>, i: nat, numCols: nat, maxWords: int) returns (panel: Panel)
    ensures panel == PanelOf(vals, i, numCols, maxWords)
  {
    var dct := Histogram(vals);
    var bars := Below(dct.Items(), maxWords);
    var p, row := i + 1, 1;
    if p > numCols {
      p := p - numCols;
      if row == 1 {
        row := 2;
      }
    }
    panel := Panel(row, p, bars);
  }

  /** The grid columns and the trace loop of `subplot_bar`. */
  method Panels(x: seq<seq<nat>>, maxWords: int) returns (numCols: nat, panels: seq<Panel>)
    ensures numCols == NumCols(|x|)
    ensures panels == SubplotPanels(x, maxWords)
  {
    numCols := NumCols(|x|);
    panels := [];
    ghost var all := SubplotPanels(x, maxWords);
    for i := 0 to |x|
      invariant panels == all[..i]
    {
      var panel := PanelFor(x[i], i, numCols, maxWords);
      assert panel == all[i];
      assert all[..i + 1] == all[..i] + [panel];
      panels := panels + [panel];
    }
    assert all[..|x|] == all;
  }

  /** The loop of `subplot_bar` collecting the labels as subplot titles. */
  method Titles(d: Dict<string, Value>) returns (titles: seq<string>)
    ensures titles == d.keys
  {
    titles := [];
    for i := 0 to |d.keys|
      invariant titles == d.keys[..i]
    {
      titles := titles + [d.keys[i]];
    }
    assert d.keys[..|d.keys|] == d.keys;
  }

  /** `list(self.data['sentence_length'].values())`. */
  function StoredLengths(data: Store): (x: seq<seq<nat>>)
    requires StoreValid(data)
    ensures |x| == |DocLabels(data)|
  {
    assert ATTRIBUTES[4] == "sentence_length";
    StoreAttr(data, "sentence_length");
    LengthLists(Attr(data, "sentence_length"))
  }

  /** The document store of the framework. */
  class Wordie {
    var data: Store

    ghost predicate Valid()
      reads this
    {
      StoreValid(data)
    }

    /** `__init__`: an empty store. */
    constructor ()
      ensures Valid() && data == map[]
    {
      data := map[];
    }

    /** `_save_results`: `self.data[k][label] = v` for every item of the results. */
    method SaveResults(doc: string, results: Dict<string, Value>)
      requires results.Valid()
      modifies this
      ensures data == Saved(old(data), doc, results)
      ensures old(Valid()) && ParsedResult(results) ==> Valid()
    {
      ghost var start := data;
      for i := 0 to |results.keys|
        invariant data == SaveAll(start, doc, results.keys[..i], results)
      {
        var k := results.keys[i];
        assert results.keys[..i + 1][..i] == results.keys[..i];
        data := data[k := Attr(data, k).Put(doc, results.m[k])];
      }
      assert results.keys[..|results.keys|] == results.keys;
      if StoreValid(start) && ParsedResult(results) {
        SavedValid(start, doc, results);
      }
    }

    /**
     * `load_text` with the default parser on a file whose contents are
     * `contents`; `stopText` is the stopfile's contents when one is named.
     */
    method LoadText(filename: string, contents: string, given: Option<string>, stopfile: Option<string>,
                    stopText: string, english: set<string>, analyze: string -> Polarity)
      requires Valid()
      modifies this
      ensures Valid()
      ensures data == Saved(old(data), DocLabel(given, filename),
                            Extract(Lower(contents), LoadStopWords(stopfile, stopText, english), analyze))
    {
      var sw := LoadStopWords(stopfile, stopText, english);
      var results := DefaultParser(contents, sw, analyze);
      ExtractParsed(Lower(contents), sw, analyze);
      SaveResults(DocLabel(given, filename), results);
    }

    /** `wordcount_sankey`: the diagram data, or the error pandas or `make_sankey` raises. */
    method WordcountSankey(wordList: Option<seq<string>>, k: int) returns (r: Result<Sankey.SankeyData, ChartError>)
      requires Valid()
      ensures r == SankeyTable(WordCounts(data), wordList, k)
    {
      var wordcounts := WordCounts(data);
      var words := ChooseWords(wordcounts, wordList, k);
      var counts := FilterWordcount(wordcounts, words);
      FilteredPieces(wordcounts, words);
      var src, targ, vals := FlowColumns(counts, words);
      r := MakeFlowSankey(src, targ, vals);
    }

    /** `sent_over_time`: per document, the scores of its `n` segments. */
    method SentOverTime(n: int, analyze: string -> Polarity) returns (r: Result<seq<seq<real>>, ChartError>)
      requires Valid()
      ensures r == SentimentTable(data, n, analyze)
    {
      StoreFacts(data);
      r := SentimentLoop(DocLabels(data), Attr(data, "plain_text"), Attr(data, "numwords"), n, analyze);
    }

    /** `pie_chart`: the rows of the pie of document `file_num`. */
    method PieChart(slices: int, fileNum: int) returns (r: Result<seq<(nat, nat)>, ChartError>)
      requires Valid()
      ensures r == PieTable(StoredLengths(data), slices, fileNum)
    {
      var x := StoredLengths(data);
      var vals := Index(x, fileNum);
      if vals.None? {
        return Failure(IndexError);
      }
      var dct := Histogram(vals.value);
      // `sendf.sort_values('num_sen')` returns a sorted copy that is dropped.
      r := Success(Prefix(dct.Items(), slices));
    }

    /**
     * `subplot_bar`: the subplot titles, the number of grid columns and, per
     * document, its cell and its bars of lengths below `max_words`.
     */
    method SubplotBar(maxWords: int) returns (titles: seq<string>, numCols: nat, panels: seq<Panel>)
      requires Valid()
      ensures titles == DocLabels(data)
      ensures numCols == NumCols(|DocLabels(data)|)
      ensures panels == SubplotPanels(StoredLengths(data), maxWords)
    {
      assert ATTRIBUTES[4] == "sentence_length";
      StoreAttr(data, "sentence_length");
      var sl := Attr(data, "sentence_length");
      titles := Titles(sl);
      var x := LengthLists(sl);
      numCols, panels := Panels(x, maxWords);
    }
  }
}
