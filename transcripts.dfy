/**
 * `ZoomTranscript` (transcripts.py): a `Wordie` whose default parser first
 * cuts one speaker's words out of a Zoom transcript.  The transcript is
 * lower-cased and split on a delimiter (by default `user avatar`) into one
 * section per turn; each section in which the speaker's name occurs loses
 * its first two lines (name and timestamp) and contributes its remaining
 * lines joined by single spaces.  The contributions are appended with no
 * separator; the result then goes through the parse pipeline of `Wordie`.
 */
module Transcripts {
  import opened Wrappers
  import opened PyStr
  import opened PyDict
  import opened PySeq
  import opened Extraction
  import opened Framework

  /** The default `delimiter` of `transcript_reader`. */
  const DEFAULT_DELIMITER: string := "user avatar"

  /** `str.split` with an empty separator raises ValueError. */
  datatype ReadError = EmptySeparator

  // ---------------------------------------------------------------- one section

  /** The lines of a section after `del split[:2]`. */
  function BodyLines(section: string): seq<string> {
    SliceFrom(Split(section, "\n"), 2)
  }

  /** What a retained section adds to `cleaned`: its lines after the first two, joined by single spaces. */
  function Contribution(section: string): string {
    Join(" ", BodyLines(section))
  }

  /** A section of one or two lines (no more than one newline) contributes nothing. */
  lemma ShortSectionSilent(section: string)
    requires multiset(section)['\n'] <= 1
    ensures Contribution(section) == ""
  {
    SplitCharCount(section, '\n');
    assert BodyLines(section) == [];
  }

  /** A contribution has no newline, and every other character of it is a space or comes from the section. */
  lemma ContributionChars(section: string, x: char)
    ensures x in Contribution(section) ==> x != '\n' && (x == ' ' || x in section)
  {
    var lines := Split(section, "\n");
    var body := BodyLines(section);
    assert forall p :: p in body ==> p in lines;
    SplitCharPiecesAvoid(section, '\n');
    JoinAvoids(" ", body, '\n');
    if x != ' ' && x !in section {
      SplitPiecesWithin(section, "\n");
      JoinAvoids(" ", body, x);
    }
  }

  // ---------------------------------------------------------------- all sections

  /** `cleaned` after the loop over `sections`. */
  function Cleaned(sections: seq<string>, speaker: string): string
    decreases |sections|
  {
    if sections == [] then ""
    else
      var last := sections[|sections| - 1];
      Cleaned(sections[..|sections| - 1], speaker) + (if Contains(last, speaker) then Contribution(last) else "")
  }

  /** The sections are processed in order: cleaning a concatenation appends the two results. */
  lemma {:induction false} CleanedAppend(a: seq<string>, b: seq<string>, speaker: string)
    ensures Cleaned(a + b, speaker) == Cleaned(a, speaker) + Cleaned(b, speaker)
    decreases |b|
  {
    if b == [] {
      assert a + b == a;
    } else {
      var b' := b[..|b| - 1];
      assert (a + b)[..|a + b| - 1] == a + b';
      assert (a + b)[|a + b| - 1] == b[|b| - 1];
      CleanedAppend(a, b', speaker);
    }
  }

  /** One section yields its contribution when the speaker occurs in it, and nothing otherwise. */
  lemma CleanedSingle(section: string, speaker: string)
    ensures Cleaned([section], speaker) == if Contains(section, speaker) then Contribution(section) else ""
  {
    assert [section][..0] == [];
  }

  /** When the speaker occurs in no section the result is empty. */
  lemma {:induction false} CleanedNone(sections: seq<string>, speaker: string)
    requires forall i :: 0 <= i < |sections| ==> !Contains(sections[i], speaker)
    ensures Cleaned(sections, speaker) == ""
    decreases |sections|
  {
    if sections != [] {
      CleanedNone(sections[..|sections| - 1], speaker);
    }
  }

  /** A character that is no space and occurs in no section does not occur in the result; nor does a newline. */
  lemma {:induction false} CleanedChars(sections: seq<string>, speaker: string, x: char)
    requires x == '\n' || (x != ' ' && forall i :: 0 <= i < |sections| ==> x !in sections[i])
    ensures x !in Cleaned(sections, speaker)
    decreases |sections|
  {
    if sections != [] {
      var last := sections[|sections| - 1];
      CleanedChars(sections[..|sections| - 1], speaker, x);
      ContributionChars(last, x);
    }
  }

  // ---------------------------------------------------------------- transcript_reader

  /** `transcript_reader` on the transcript's contents. */
  function TranscriptText(contents: string, speaker: string, delimiter: string): Result<string, ReadError> {
    if delimiter == [] then Failure(EmptySeparator)
    else Success(Cleaned(Split(Lower(contents), delimiter), speaker))
  }

  /**
   * The reader fails exactly on an empty delimiter.  Its output has no
   * newline and, coming from the lower-cased transcript, no upper-case
   * letter; so a speaker name with an upper-case letter never matches and
   * yields the empty string.
   */
  lemma TranscriptTextSpec(contents: string, speaker: string, delimiter: string)
    ensures TranscriptText(contents, speaker, delimiter).Failure? <==> delimiter == []
    ensures TranscriptText(contents, speaker, delimiter).Success? ==>
              var t := TranscriptText(contents, speaker, delimiter).value;
              '\n' !in t && forall i :: 0 <= i < |t| ==> !IsUpperAscii(t[i])
    ensures TranscriptText(contents, speaker, delimiter).Success? && (exists i :: 0 <= i < |speaker| && IsUpperAscii(speaker[i])) ==>
              TranscriptText(contents, speaker, delimiter).value == ""
  {
    if delimiter != [] {
      var low := Lower(contents);
      var sections := Split(low, delimiter);
      SplitPiecesWithin(low, delimiter);
      CleanedChars(sections, speaker, '\n');
      var t := Cleaned(sections, speaker);
      forall i | 0 <= i < |t| ensures !IsUpperAscii(t[i]) {
        var x := t[i];
        if IsUpperAscii(x) {
          forall j | 0 <= j < |sections| ensures x !in sections[j] {
            assert sections[j] in sections;
          }
          CleanedChars(sections, speaker, x);
          assert false;
        }
      }
      if exists i :: 0 <= i < |speaker| && IsUpperAscii(speaker[i]) {
        var i :| 0 <= i < |speaker| && IsUpperAscii(speaker[i]);
        forall j | 0 <= j < |sections| ensures !Contains(sections[j], speaker) {
          assert sections[j] in sections;
          if Contains(sections[j], speaker) {
            ContainsChars(sections[j], speaker, speaker[i]);
          }
        }
        CleanedNone(sections, speaker);
      }
    }
  }

  /** `transcript_reader(filename, speaker, delimiter)` with the file's contents given. */
  method TranscriptReader(contents: string, speaker: string, delimiter: string) returns (r: Result<string, ReadError>)
    ensures r == TranscriptText(contents, speaker, delimiter)
  {
    if delimiter == [] {
      return Failure(EmptySeparator);
    }
    var transcript := Lower(contents);
    var sections := Split(transcript, delimiter);
    var cleaned := "";
    for i := 0 to |sections|
      invariant cleaned == Cleaned(sections[..i], speaker)
    {
      var section := sections[i];
      assert sections[..i + 1][..i] == sections[..i];
      if Contains(section, speaker) {
        var split := Split(section, "\n");
        split := SliceFrom(split, 2);
        cleaned := cleaned + Join(" ", split);
      }
    }
    assert sections[..|sections|] == sections;
    r := Success(cleaned);
  }

  /** The reader with its default delimiter never fails. */
  lemma DefaultDelimiterReads(contents: string, speaker: string)
    ensures TranscriptText(contents, speaker, DEFAULT_DELIMITER).Success?
  {
  }

  // ---------------------------------------------------------------- _default_parser and load_text

  /** `ZoomTranscript._default_parser`: the reader's output through the parse pipeline, with no second lower-casing. */
  function TranscriptParse(contents: string, speaker: string, delimiter: string, stop: StopList,
                           analyze: string -> Polarity): Result<Dict<string, Value>, ReadError> {
    match TranscriptText(contents, speaker, delimiter)
    case Failure(e) => Failure(e)
    case Success(text) => Success(Extract(text, stop, analyze))
  }

  /**
   * A transcript parse has the five attributes, one sentence length per
   * `.`-separated piece of the reader's output (its number of periods plus
   * one), and the stop-word-filtered words counted in `numwords` and in the counter.
   */
  lemma TranscriptParseSpec(contents: string, speaker: string, delimiter: string, stop: StopList,
                            analyze: string -> Polarity)
    ensures TranscriptParse(contents, speaker, delimiter, stop, analyze).Failure? <==> delimiter == []
    ensures TranscriptParse(contents, speaker, delimiter, stop, analyze).Success? ==>
              var text := TranscriptText(contents, speaker, delimiter).value;
              var r := TranscriptParse(contents, speaker, delimiter, stop, analyze).value;
              && ParsedResult(r)
              && "sentence_length" in r.m && "numwords" in r.m && "wordcount" in r.m
              && r.m["wordcount"].WordCount? && r.m["wordcount"].counts.Valid()
              && |LengthsOf(r.m["sentence_length"])| == multiset(text)['.'] + 1
              && r.m["numwords"] == NumWords(Total(r.m["wordcount"].counts))
  {
    if delimiter != [] {
      var text := TranscriptText(contents, speaker, delimiter).value;
      var plain, words := CleanText(text), Words(text, stop);
      var lengths := SentenceLengths(Split(text, "."));
      assert TranscriptParse(contents, speaker, delimiter, stop, analyze).value
          == Results(plain, CounterOf(words), |words|, analyze(plain), lengths);
      ExtractParsed(text, stop, analyze);
      ResultsFields(plain, CounterOf(words), |words|, analyze(plain), lengths);
      CounterOfTotal(words);
      SentenceLengthsSpec(text);
    }
  }

  /** `ZoomTranscript._default_parser(transcript, stopfile, speaker=..., delimiter=...)`. */
  method TranscriptParser(contents: string, speaker: string, delimiter: string, stop: StopList,
                          analyze: string -> Polarity) returns (r: Result<Dict<string, Value>, ReadError>)
    ensures r == TranscriptParse(contents, speaker, delimiter, stop, analyze)
  {
    var text := TranscriptReader(contents, speaker, delimiter);
    if text.Failure? {
      return Failure(text.error);
    }
    var results := Pipeline(text.value, stop, analyze);
    r := Success(results);
  }

  /**
   * `ZoomTranscript.load_text` with the default parser: on an empty
   * delimiter the store is left as it was and the error is returned;
   * otherwise the transcript's parse is saved under its label.
   */
  method LoadTranscript(w: Wordie, filename: string, contents: string, given: Option<string>, speaker: string,
                        delimiter: string, stopfile: Option<string>, stopText: string, english: set<string>,
                        analyze: string -> Polarity) returns (err: Option<ReadError>)
    requires w.Valid()
    modifies w
    ensures w.Valid()
    ensures err.Some? <==> delimiter == []
    ensures delimiter == [] ==> w.data == old(w.data)
    ensures delimiter != [] ==>
              w.data == Saved(old(w.data), DocLabel(given, filename),
                              Extract(TranscriptText(contents, speaker, delimiter).value,
                                      LoadStopWords(stopfile, stopText, english), analyze))
  {
    var sw := LoadStopWords(stopfile, stopText, english);
    var results := TranscriptParser(contents, speaker, delimiter, sw, analyze);
    if results.Failure? {
      return Some(results.error);
    }
    ExtractParsed(TranscriptText(contents, speaker, delimiter).value, sw, analyze);
    w.SaveResults(DocLabel(given, filename), results.value);
    err := None;
  }
}
