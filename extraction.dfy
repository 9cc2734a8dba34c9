/**
 * The text-cleaning pipeline of `Wordie._default_parser` (wordie.py), shared by
 * `ZoomTranscript._default_parser` (transcripts.py): lower-case, split into
 * sentences on '.', delete a fixed punctuation set, split on whitespace, drop
 * stop words, and collect the five attributes of one document.
 */
module Extraction {
  import opened PyStr
  import opened PyDict
  import opened PySeq

  /**
   * The characters deleted from the text.  The Python literal's `\,` is not an
   * escape, so it stands for a backslash and a comma; the apostrophe is kept.
   */
  const PUNC: set<char> :=
    {'!', '(', ')', '-', '[', ']', '{', '}', ';', ':', '"', '\\', ',', '<', '>',
     '.', '/', '?', '@', '#', '$', '%', '^', '&', '*', '_', '~'}

  /**
   * The stop list `load_stop_words` hands over: NLTK's English list, or, when a
   * stopfile is given, that file's raw text, so that `in` becomes a substring test.
   */
  datatype StopList = Listed(words: set<string>) | RawText(text: string)

  /** `w in sw_lst`. */
  predicate IsStop(stop: StopList, w: string) {
    match stop
    case Listed(ws) => w in ws
    case RawText(t) => Contains(t, w)
  }

  /** `word.split("'")[0]`: the part of a word before its first apostrophe. */
  function Head(word: string): string {
    Split(word, "'")[0]
  }

  /** The head of a word is the longest prefix without an apostrophe. */
  lemma {:induction false} HeadSpec(word: string)
    ensures |Head(word)| <= |word| && word[..|Head(word)|] == Head(word)
    ensures '\'' !in Head(word)
    ensures |Head(word)| < |word| ==> word[|Head(word)|] == '\''
    decreases |word|
  {
    if word != [] {
      assert word[..1] == [word[0]];
      if word[0] != '\'' {
        HeadSpec(word[1..]);
        assert Head(word) == [word[0]] + Head(word[1..]);
      }
    }
  }

  // ---------------------------------------------------------------- del_stopwords

  /** The words `del_stopwords` keeps: those whose head is not a stop word, in order. */
  function KeptWords(words: seq<string>, stop: StopList): seq<string>
    decreases |words|
  {
    if words == [] then []
    else
      var w := words[|words| - 1];
      KeptWords(words[..|words| - 1], stop) + (if IsStop(stop, Head(w)) then [] else [w])
  }

  /** `del_stopwords` keeps exactly the words whose head is not a stop word, each as often as it occurs. */
  lemma {:induction false} KeptWordsCounts(words: seq<string>, stop: StopList)
    ensures forall w :: multiset(KeptWords(words, stop))[w] ==
                          if IsStop(stop, Head(w)) then 0 else multiset(words)[w]
    decreases |words|
  {
    if words != [] {
      var init := words[..|words| - 1];
      var w := words[|words| - 1];
      KeptWordsCounts(init, stop);
      assert words == init + [w];
      assert multiset(words) == multiset(init) + multiset{w};
    }
  }

  /** `del_stopwords` keeps the relative order of the words it keeps. */
  lemma {:induction false} KeptWordsOrder(words: seq<string>, stop: StopList)
    ensures Subsequence(KeptWords(words, stop), words)
    decreases |words|
  {
    if words != [] {
      var init := words[..|words| - 1];
      var w := words[|words| - 1];
      KeptWordsOrder(init, stop);
      var k := KeptWords(init, stop);
      assert init + [w] == words;
      if IsStop(stop, Head(w)) {
        assert KeptWords(words, stop) == k + [] == k;
        SubsequenceExtend(k, init, w);
      } else {
        assert KeptWords(words, stop) == k + [w];
        SubsequenceBoth(k, init, w);
      }
    }
  }

  /** `del_stopwords` never returns more words than it is given. */
  lemma {:induction false} KeptWordsLength(words: seq<string>, stop: StopList)
    ensures |KeptWords(words, stop)| <= |words|
    decreases |words|
  {
    if words != [] {
      KeptWordsLength(words[..|words| - 1], stop);
    }
  }

  /** `Wordie.del_stopwords`. */
  method DelStopwords(text: seq<string>, stop: StopList) returns (valid: seq<string>)
    ensures valid == KeptWords(text, stop)
  {
    valid := [];
    for i := 0 to |text|
      invariant valid == KeptWords(text[..i], stop)
    {
      var word := text[i];
      assert text[..i + 1][..i] == text[..i];
      if !IsStop(stop, Head(word)) {
        valid := valid + [word];
      }
    }
    assert text[..|text|] == text;
  }

  // ---------------------------------------------------------------- sen_len

  /** The number of `' '`-separated pieces of each sentence. */
  function SentenceLengths(sentences: seq<string>): (lens: seq<nat>)
    ensures |lens| == |sentences|
  {
    seq(|sentences|, i requires 0 <= i < |sentences| => |Split(sentences[i], " ")|)
  }

  /** `Wordie.sen_len`: one entry per sentence, its number of spaces plus one. */
  method SenLen(sentences: seq<string>) returns (lens: seq<nat>)
    ensures lens == SentenceLengths(sentences)
    ensures forall i :: 0 <= i < |sentences| ==> lens[i] == multiset(sentences[i])[' '] + 1
  {
    lens := [];
    for i := 0 to |sentences|
      invariant |lens| == i
      invariant forall j :: 0 <= j < i ==> lens[j] == |Split(sentences[j], " ")|
      invariant forall j :: 0 <= j < i ==> lens[j] == multiset(sentences[j])[' '] + 1
    {
      SplitCharCount(sentences[i], ' ');
      lens := lens + [|Split(sentences[i], " ")|];
    }
  }

  // ---------------------------------------------------------------- one document

  /** A sentiment score as NLTK's SentimentIntensityAnalyzer reports it. */
  datatype Polarity = Polarity(neg: real, neu: real, pos: real, compound: real)

  /** `Wordie.get_score`: positive minus negative. */
  function Score(p: Polarity): real {
    p.pos - p.neg
  }

  /** One value of the document store; its constructor names the attribute it belongs to. */
  datatype Value =
    | PlainText(text: string)
    | WordCount(counts: Dict<string, nat>)
    | NumWords(n: nat)
    | Sentiment(scores: Polarity)
    | SentenceLength(lengths: seq<nat>)

  const ATTRIBUTES: seq<string> := ["plain_text", "wordcount", "numwords", "sentiment", "sentence_length"]

  /** The attribute a value of this kind is stored under. */
  function AttributeOf(v: Value): string {
    match v
    case PlainText(_) => "plain_text"
    case WordCount(_) => "wordcount"
    case NumWords(_) => "numwords"
    case Sentiment(_) => "sentiment"
    case SentenceLength(_) => "sentence_length"
  }

  /** A results dict as the default parsers build it: the five attributes, each with a value of its kind. */
  ghost predicate WellFormedResult(r: Dict<string, Value>) {
    && r.Valid()
    && r.keys == ATTRIBUTES
    && forall a :: a in r.m ==> AttributeOf(r.m[a]) == a
  }

  lemma AttributesDistinct()
    ensures Distinct(ATTRIBUTES)
  {
    assert ATTRIBUTES[1][0] != ATTRIBUTES[3][0];
  }

  /** The `results` dict literal of the default parsers, keys in their written order. */
  function Results(plain: string, counts: Dict<string, nat>, numwords: nat,
                   sentiment: Polarity, lengths: seq<nat>): Dict<string, Value> {
    Dict(ATTRIBUTES,
         map["plain_text" := PlainText(plain),
             "wordcount" := WordCount(counts),
             "numwords" := NumWords(numwords),
             "sentiment" := Sentiment(sentiment),
             "sentence_length" := SentenceLength(lengths)])
  }

  /** Each attribute of the results literal holds the value given for it. */
  lemma ResultsFields(plain: string, counts: Dict<string, nat>, numwords: nat, sentiment: Polarity, lengths: seq<nat>)
    ensures Results(plain, counts, numwords, sentiment, lengths).m["plain_text"] == PlainText(plain)
    ensures Results(plain, counts, numwords, sentiment, lengths).m["wordcount"] == WordCount(counts)
    ensures Results(plain, counts, numwords, sentiment, lengths).m["numwords"] == NumWords(numwords)
    ensures Results(plain, counts, numwords, sentiment, lengths).m["sentiment"] == Sentiment(sentiment)
    ensures Results(plain, counts, numwords, sentiment, lengths).m["sentence_length"] == SentenceLength(lengths)
  {
    AttributesDistinct();
  }

  /** The results literal has the five attributes, once each, each holding a value of its kind. */
  lemma ResultsWellFormed(plain: string, counts: Dict<string, nat>, numwords: nat, sentiment: Polarity, lengths: seq<nat>)
    ensures WellFormedResult(Results(plain, counts, numwords, sentiment, lengths))
  {
    AttributesDistinct();
    var r := Results(plain, counts, numwords, sentiment, lengths);
    forall a | a in r.m ensures a in ATTRIBUTES && AttributeOf(r.m[a]) == a {
      ResultsFields(plain, counts, numwords, sentiment, lengths);
    }
  }

  /** The text after punctuation is deleted (`plain_text`). */
  function CleanText(text: string): string {
    Delete(text, PUNC)
  }

  /** The words counted for a text: the whitespace-split clean text without stop words. */
  function Words(text: string, stop: StopList): seq<string> {
    KeptWords(SplitWhitespace(CleanText(text)), stop)
  }

  /** The results dict built from an already lower-cased text. */
  function Extract(text: string, stop: StopList, analyze: string -> Polarity): (r: Dict<string, Value>)
    ensures WellFormedResult(r)
  {
    var plain := CleanText(text);
    var words := Words(text, stop);
    ResultsWellFormed(plain, CounterOf(words), |words|, analyze(plain), SentenceLengths(Split(text, ".")));
    Results(plain, CounterOf(words), |words|, analyze(plain), SentenceLengths(Split(text, ".")))
  }

  /**
   * Every counted word is non-empty, holds no whitespace and no punctuation,
   * and has a head that is not a stop word; each whitespace-separated word of
   * the clean text whose head is not a stop word is counted as often as it occurs.
   */
  lemma WordsSpec(text: string, stop: StopList)
    ensures forall w :: w in Words(text, stop) ==>
              && w != [] && !IsStop(stop, Head(w))
              && forall i :: 0 <= i < |w| ==> w[i] !in PUNC && !IsSpace(w[i])
    ensures forall w :: multiset(Words(text, stop))[w] ==
              if IsStop(stop, Head(w)) then 0 else multiset(SplitWhitespace(CleanText(text)))[w]
  {
    var ws := SplitWhitespace(CleanText(text));
    KeptWordsCounts(ws, stop);
    SplitWhitespaceWords(CleanText(text));
    forall w | w in Words(text, stop)
      ensures && w != [] && !IsStop(stop, Head(w))
              && forall i :: 0 <= i < |w| ==> w[i] !in PUNC && !IsSpace(w[i])
    {
      assert multiset(Words(text, stop))[w] > 0;
      assert w in ws;
      forall i | 0 <= i < |w| ensures w[i] !in PUNC {
        assert w[i] in w;
      }
    }
  }

  /**
   * `sentence_length` has one entry per '.'-separated sentence, one more than the
   * number of '.' in the text, and each entry is the sentence's spaces plus one.
   */
  lemma SentenceLengthsSpec(text: string)
    ensures |SentenceLengths(Split(text, "."))| == multiset(text)['.'] + 1
    ensures forall i :: 0 <= i < |Split(text, ".")| ==>
              SentenceLengths(Split(text, "."))[i] == multiset(Split(text, ".")[i])[' '] + 1
  {
    SplitCharCount(text, '.');
    forall i | 0 <= i < |Split(text, ".")|
      ensures SentenceLengths(Split(text, "."))[i] == multiset(Split(text, ".")[i])[' '] + 1
    {
      SplitCharCount(Split(text, ".")[i], ' ');
    }
  }

  /**
   * One parse yields the five attributes with values of their kinds; the word
   * counts are the multiplicities of the kept words and add up to `numwords`.
   */
  lemma ExtractSpec(text: string, stop: StopList, analyze: string -> Polarity)
    ensures WellFormedResult(Extract(text, stop, analyze))
    ensures Extract(text, stop, analyze).m["numwords"] == NumWords(|Words(text, stop)|)
    ensures Extract(text, stop, analyze).m["wordcount"].counts.Valid()
    ensures forall w :: Count(Extract(text, stop, analyze).m["wordcount"].counts, w) == multiset(Words(text, stop))[w]
    ensures Total(Extract(text, stop, analyze).m["wordcount"].counts) == |Words(text, stop)|
  {
    var plain := CleanText(text);
    var words := Words(text, stop);
    ResultsFields(plain, CounterOf(words), |words|, analyze(plain), SentenceLengths(Split(text, ".")));
    CounterOfSpec(words);
  }

  /** The pipeline from `text.split('.')` on (wordie.py:49-68, transcripts.py:57-76), on a lower-cased text. */
  method Pipeline(text: string, stop: StopList, analyze: string -> Polarity) returns (results: Dict<string, Value>)
    ensures results == Extract(text, stop, analyze)
    ensures WellFormedResult(results)
  {
    var sentences := Split(text, ".");
    var plain := Delete(text, PUNC);
    var words := SplitWhitespace(plain);
    words := DelStopwords(words, stop);
    var lens := SenLen(sentences);
    results := Results(plain, CounterOf(words), |words|, analyze(plain), lens);
    ResultsWellFormed(plain, CounterOf(words), |words|, analyze(plain), lens);
  }

  /** `Wordie._default_parser` on the file's contents (the file read is left to the caller). */
  method DefaultParser(contents: string, stop: StopList, analyze: string -> Polarity) returns (results: Dict<string, Value>)
    ensures results == Extract(Lower(contents), stop, analyze)
    ensures WellFormedResult(results)
  {
    results := Pipeline(Lower(contents), stop, analyze);
  }
}
