# wordie: a verified model of a text-comparison framework

`wordie` loads text documents into a store, extracts per-document statistics
and turns them into tables that Plotly draws. This project models the parts
that go from text to data:

- the `Wordie` document store (`wordie.py`).
  - `self.data` maps an attribute name to a dict from document label to value.
  - `_save_results` writes a parse into the store; later writes win.
  - `load_text` picks the label and runs the default parser.
- the default parse pipeline.
  - It lower-cases the text and splits sentences on `.`.
  - It deletes a fixed punctuation set and splits on whitespace.
  - `del_stopwords` drops stop words by the part of each word before its first apostrophe.
  - The result dict has five attributes: `plain_text`, `wordcount` (a `Counter`), `numwords`, `sentiment` and `sentence_length` (from `sen_len`).
- the tables behind the charts.
  - `wordcount_sankey`: merges the counters, takes the top `k` by a stable sort, then builds `filter_wordcount` and the `src`/`targ`/`vals` columns.
  - `sent_over_time`: cuts each text into `n` word segments and scores each one.
  - `pie_chart` and `subplot_bar`: histograms of sentence lengths, the truncation and filter of their rows, and the subplot grid.
- `ZoomTranscript` (`transcripts.py`).
  - `transcript_reader` lower-cases the transcript and splits it on a delimiter.
  - It keeps the sections that mention the speaker, drops the first two lines of each, and appends what remains.
  - The overriding `_default_parser` runs that text through the same pipeline.
- `sankey.py`.
  - `_code_mapping`: sorted distinct labels and their integer codes.
  - The data half of `make_sankey`: the column check, upper-casing, per-pair group counts, the threshold filter, the values column and the colour assignment.

## Modules

- `wrappers.dfy`, module `Wrappers`: `Option` and `Result`. A `Failure` stands for the exception Python would raise.
- `pystr.dfy`, module `PyStr`: the Python string operations the code uses.
  - `split(sep)`, `split()`, `join`, `translate` deletion, `in` as a substring test, `lower`/`upper` and string order.
- `pydict.dfy`, module `PyDict`: an insertion-ordered `Dict` (a key list and a map).
  - Assigning to an existing key keeps its place.
  - `Counter` construction; `c[k]` is 0 for a missing key; `a += b`.
- `pyseq.dfy`, module `PySeq`: slices with negative or over-long bounds, indexing with `IndexError`, `[x] * n`, `xs * n` and concatenation of pieces.
- `extraction.dfy`, module `Extraction`: the parse pipeline and its helpers.
- `reshape.dfy`, module `Reshape`: the table-building code inside the chart methods of `Wordie`.
- `sankey.dfy`, module `Sankey`: `_code_mapping` and `make_sankey` up to the figure. The data frame is a class `Frame`, because `make_sankey` changes its argument.
- `framework.dfy`, module `Framework`: the class `Wordie` (its `data` field, `_save_results`, `load_text`) and the chart methods, which return their tables.
- `transcripts.dfy`, module `Transcripts`: `ZoomTranscript`.

## Behaviour as the code has it

A few behaviours differ from what the names or comments suggest. The model follows the code in each case:

- The histogram loops of `pie_chart` and `subplot_bar` set a new length to 1 and then, in a second `if`, add 1 at once. Each length therefore maps to its occurrences plus one.
- `pie_chart` discards the result of `sort_values`. Its slice keeps the first `slices` lengths in order of first appearance, not the most common ones.
- `transcript_reader` appends the contributions of consecutive sections with no separator between them.
- A section with at most two lines contributes nothing.
- With a stop file, `load_stop_words` returns the file's raw text. `word in sw_lst` is then a substring test.
- With NLTK's list, it is a membership test.
- `filter_wordcount` uses a `defaultdict`, which creates a label's entry only when a key is assigned under it. With an empty key list the result has no labels; otherwise it has all of them.
- A user `word_list` that repeats a word makes `targ` longer than `src` and `vals`. pandas then refuses to build the frame, as soon as there is a document.
- The top-`k` list never repeats a word.
- `make_sankey` with `prep` and the same name at two neighbouring places in `cols` selects two columns of one name for a pair. pandas' groupby then raises ValueError (`RepeatedGrouper`). The same name at places that are not neighbours is harmless.
- `make_sankey` with `prep` and a column named `count` among `cols` always fails. Every name is in some pair, and `reset_index(name='count')` raises ValueError when a grouping column already has that name (`CountClash`). The first pair that raises decides the error; on a pair of one name the groupby raises first.
- `ZoomTranscript._default_parser` does not lower-case a second time. It relies on `transcript_reader` having done so.

## Model

| member | source | states |
|---|---|---|
| PyStr.Lower | wordie.py:46 | lower-casing keeps the length and leaves no upper-case ASCII letter; each upper-case letter becomes the lower-case letter that upper-cases back to it, every other character is kept |
| PyStr.Upper | sankey.py:52 | upper-casing keeps the length and leaves no lower-case ASCII letter; each lower-case letter becomes the upper-case letter that lower-cases back to it, every other character is kept |
| PyStr.LowerUpper | sankey.py:52 | upper-casing loses only case: lower-casing afterwards gives the lower-cased original |
| PyStr.UpperIdempotent | sankey.py:51-52 | upper-casing twice is upper-casing once |
| PyStr.SplitJoin | transcripts.py:31 | joining the pieces of `s.split(sep)` with `sep` gives `s` back |
| PyStr.SplitCharCount | wordie.py:49 | splitting on one character yields one more piece than the character's occurrences |
| PyStr.SplitCharPiecesAvoid | transcripts.py:36 | no piece of a split on a character contains it |
| PyStr.SplitPiecesWithin | transcripts.py:31 | every character of a piece of a split occurs in the split string |
| PyStr.SplitWhitespaceWords | wordie.py:56 | each word of `split()` is non-empty, has no whitespace and only characters of the text |
| PyStr.JoinAvoids | transcripts.py:42 | joining pieces free of a character, with a separator free of it, gives a string free of it |
| PyStr.Delete | wordie.py:53 | `translate` deletion keeps exactly the characters outside the deleted set, and never lengthens |
| PyStr.ContainsChars | transcripts.py:35 | a substring consists of characters of the string |
| PyDict.Dict.Put | wordie.py:94 | assignment keeps a dict well formed: keys listed once, exactly the mapped keys |
| PyDict.PutPut | wordie.py:94 | assigning twice under one key is assigning once with the second value |
| PyDict.Dedup | wordie.py:307-314 | the keys a dict gets from a sequence: repetition-free, and exactly the elements that occur |
| PyDict.DedupOrder | wordie.py:307-314 | those keys are listed by increasing position of first occurrence |
| PyDict.CounterOfSpec | wordie.py:63 | `Counter(words)` lists the distinct words by first occurrence and gives each its number of occurrences, all positive, summing to the number of words |
| PyDict.AddCountsSpec | wordie.py:184 | after `a += b` every count is the sum of both counts, and only positive counts remain |
| PySeq.Prefix | wordie.py:322 | `s[0:k]` has `min(k, len)` elements for `k >= 0`, all but the last `-k` otherwise, and is a prefix of `s`; its bound goes through `Bound`, which counts a negative bound from the end and clamps it |
| PySeq.Repeat | wordie.py:196 | `[x] * n` has `max(n, 0)` copies of `x` |
| PySeq.TimesAt | wordie.py:199 | row `i·len(xs) + j` of `xs * n` is `xs[j]` |
| PySeq.FlattenAt | wordie.py:194-196 | in pieces of one width `w` laid end to end, position `i·w + j` holds element `j` of piece `i` |
| Extraction.HeadSpec | wordie.py:83 | `word.split("'")[0]` is the longest apostrophe-free prefix of the word |
| Extraction.KeptWordsCounts | wordie.py:79-86 | a word whose head is a stop word is dropped; any other word is kept as often as it occurs |
| Extraction.KeptWordsOrder | wordie.py:79-86 | the kept words are in their input order |
| Extraction.KeptWordsLength | wordie.py:79-86 | no more words come out than go in |
| Extraction.DelStopwords | wordie.py:71-86 | the loop returns exactly the kept words |
| Extraction.SenLen | wordie.py:151-165 | one entry per sentence, its number of spaces plus one |
| Extraction.SentenceLengthsSpec | wordie.py:49-66 | `sentence_length` has one more entry than the text has periods; each entry is its sentence's spaces plus one |
| Extraction.ResultsWellFormed | wordie.py:61-67 | the results literal (`Results`; `ResultsFields` reads its attributes back) has the five attributes once each, each holding a value of its kind |
| Extraction.Extract | wordie.py:49-68 | a parse always yields a well-formed results dict |
| Extraction.WordsSpec | wordie.py:52-59 | counted words are non-empty, without whitespace or punctuation, and have non-stop heads; each other word of the clean text counts as often as it occurs |
| Extraction.ExtractSpec | wordie.py:52-67 | `numwords` is the number of kept words; the counter counts each kept word and totals `numwords` |
| Extraction.Pipeline | wordie.py:49-68 | the pipeline's steps compute the parse of the lower-cased text |
| Extraction.DefaultParser | wordie.py:33-68 | the default parser is the parse of the lower-cased file contents |
| Framework.SavedAt | wordie.py:93-94 | after saving, attribute `k` of the results is the old attribute (`Attr`, empty when missing, as the `defaultdict` gives) with the label set to the result's value; any other attribute is unchanged |
| Framework.SavedSpec | wordie.py:88-94 | saving is last-write-wins: the label maps to the new value, keeps its place or goes last, and every other label and attribute is unchanged |
| Framework.SaveTwice | wordie.py:88-94 | saving one label twice equals saving once with the second result, when the second has every attribute of the first |
| Framework.SavedValid | wordie.py:88-94 | saving a default parse keeps the store well formed: five attributes over one label order, values of their kinds, counted words within the text |
| Framework.LoadStopWords | wordie.py:120-130 | the stop list is the stop file's raw text exactly when a non-empty stop file name is given |
| Framework.ExtractParsed | wordie.py:61-67 | a default parse has the five attributes, a valid counter and no more counted words than words |
| Framework.LoadedUnderFilename | wordie.py:112-117 | loading without a label (`DocLabel` of no label) stores each attribute of the parse under the file name |
| Framework.WordCounts | wordie.py:177 | `self.data['wordcount']` is a dict of valid counters over the store's labels |
| Framework.SankeyTableFails | wordie.py:187-211 | `wordcount_sankey` fails exactly when there is a document and the word list repeats a word |
| Framework.SankeyTableError | wordie.py:207-208 | its only failure is pandas' refusal of columns of different lengths |
| Framework.SankeyTableTopWords | wordie.py:180-211 | without a user word list `wordcount_sankey` never fails |
| Framework.FlowSankeySpec | wordie.py:207-211 | building the frame and `make_sankey` fail exactly when the three columns differ in length |
| Framework.FlowSankeySucceeds | wordie.py:207-211 | three columns of one length always give a diagram |
| Framework.ChooseWords | wordie.py:180-187 | the word list is the user's, or the top `k` words of the merged counters |
| Framework.MakeFlowSankey | wordie.py:207-211 | building the frame and calling `make_sankey` gives the flow diagram or its error |
| Framework.SegmentScoresOf | wordie.py:244-258 | there is one score per segment: the score of the segment's words joined by spaces |
| Framework.SegmentScores | wordie.py:244-258 | the inner loop of `sent_over_time` computes the segment scores in order |
| Framework.SentimentRows | wordie.py:237-239 | `numwords / n` fails with ZeroDivisionError exactly when `n` is 0 and there is a document; otherwise there is one row per label |
| Framework.SentimentLoop | wordie.py:237-258 | the outer loop computes the rows of all labels, or the division error |
| Framework.SentimentRowSpec | wordie.py:238-255 | for `n > 0` a row has `n` scores, and the segments tile the document's word list |
| Framework.StoredLengths | wordie.py:347 | `list(self.data['sentence_length'].values())` (`LengthLists`) has one list of sentence lengths per document of the store |
| Framework.PieTableSpec | wordie.py:301-322 | `pie_chart` fails exactly on an out-of-range `file_num`; for any valid one, negative ones counting from the end (`Index`), it gives the first `slices` distinct lengths of that document in first-appearance order, each with its occurrences plus one |
| Framework.SubplotPanels | wordie.py:355-387 | there is one panel per document |
| Framework.SubplotPanelsSpec | wordie.py:350-381 | every document gets its rows below `max_words` in a cell of the 2 × `ceil(d/2)` grid, and no two documents get the same cell |
| Framework.PanelFor | wordie.py:357-381 | one pass of the trace loop builds the document's panel: its histogram's short rows and its cell |
| Framework.Panels | wordie.py:350-387 | the grid has `ceil(d/2)` columns and the trace loop builds all the panels |
| Framework.Titles | wordie.py:339-343 | the subplot titles are the labels in order |
| Framework.Wordie.constructor | wordie.py:30-31 | a new framework has an empty, well-formed store |
| Framework.Wordie.SaveResults | wordie.py:88-94 | the store becomes the saved store, and stays well formed when a default parse is saved |
| Framework.Wordie.LoadText | wordie.py:96-117 | loading saves the default parse of the lower-cased contents under the chosen label, and keeps the store well formed |
| Framework.Wordie.WordcountSankey | wordie.py:167-211 | the method returns the diagram data of the store's word counts, or pandas' error |
| Framework.Wordie.SentOverTime | wordie.py:224-258 | the method returns the segment scores of every document, or the division error |
| Framework.Wordie.PieChart | wordie.py:288-322 | the method returns the pie rows of document `file_num`, or the index error |
| Framework.Wordie.SubplotBar | wordie.py:330-387 | the method returns the titles (the labels), the grid width and each document's panel |
| Reshape.Merged | wordie.py:180-184 | merging counters gives a well-formed counter |
| Reshape.MergedCounts | wordie.py:180-184 | the merged counter gives every word the sum of its counts over the documents, and lists only positive counts |
| Reshape.MergeCounters | wordie.py:180-184 | the merging loop computes the merge of the documents' counters in label order |
| Reshape.SortDescSpec | wordie.py:187 | the sort by count with `reverse=True` is non-increasing, a permutation, and stable among equal counts |
| Reshape.TopWordsSpec | wordie.py:180-187 | the top list (`TopWords`, the words of the sorted items cut at `k`) has `min(k, distinct words)` words, repetition-free and non-increasing by merged count; no word left out counts more than a picked one; ties keep merged order |
| Reshape.FilteredSpec | wordie.py:140-148 | the filtered dict keeps the labels (none without keys); each inner dict has exactly the requested keys with the document's count, 0 when absent |
| Reshape.RestrictCounts | wordie.py:145-146 | the inner loop builds one label's restricted counter |
| Reshape.FilterWordcount | wordie.py:133-148 | the loops compute the filtered dict |
| Reshape.FlowColumns | wordie.py:194-204 | the `src`, `targ` and `vals` loops compute the three columns: the labels repeated, the word list repeated, the inner values |
| Reshape.FlowRows | wordie.py:190-204 | with `W` distinct words over `D` labels, each column has `D·W` rows; row `i·W + j` is label `i`, word `j` and, from the inner dict's `values()`, its count in document `i` |
| Reshape.FlowLengths | wordie.py:190-208 | the three columns have one length exactly when there is no label or the word list repeats no word |
| Reshape.StepBound | wordie.py:239 | for `n > 0` the step is a natural number with `step·n <= numwords` |
| Reshape.Segments | wordie.py:244-255 | `range(1, n + 1)` gives `n` segments, or none for `n <= 0` |
| Reshape.SegmentsTile | wordie.py:238-255 | every segment but the last has `numwords div n` words, and the segments laid end to end give back all words |
| Reshape.Histogram | wordie.py:307-314 | the histogram loop computes the histogram of the lengths |
| Reshape.HistogramIsCounterPlusOne | wordie.py:307-314 | the histogram has `Counter`'s keys and order, with each count raised by one |
| Reshape.PieRowsSpec | wordie.py:317-322 | the pie rows (the histogram's `items()`, sliced) are the first `slices` distinct lengths in first-appearance order, each with its occurrences plus one |
| Reshape.BelowSpec | wordie.py:368-369 | the filter keeps, in order, exactly the rows of lengths below `max_words` |
| Reshape.NumCols | wordie.py:350 | `ceil(d/2)` columns give room for `d` documents in two rows, with at most one cell to spare |
| Reshape.Cell | wordie.py:376-381 | document `i` goes to row 1, column `i+1` while `i < num_cols`, else to row 2, column `i+1-num_cols` |
| Reshape.CellsDistinct | wordie.py:350-381 | distinct documents get distinct cells, each within the grid |
| Sankey.UpperColumn | sankey.py:52 | `astype(str).str.upper()` gives a text column of the same length; each entry is upper case and equals, apart from case, the same entry as text (`EntryText`) |
| Sankey.UpperColumnIdempotent | sankey.py:51-52 | converting a column twice is converting it once |
| Sankey.MissingIndex | sankey.py:51-52 | the position of the first named column that is missing, where `df[col]` raises KeyError |
| Sankey.Frame.constructor | sankey.py:31 | a frame of distinct column names, each with its column |
| Sankey.Frame.UpperColumns | sankey.py:51-52 | the named columns are converted in order up to the first missing one, which is reported; the columns converted before it stay converted |
| Sankey.PairCountsSpec | sankey.py:58-62 | on the rows of a column pair (`Zip`), the group table is sorted with no pair twice; each link counts the rows with its pair; every pair present gets a link; the counts total the number of rows |
| Sankey.ClashIndex | sankey.py:58-60 | the first pair position that raises ValueError (two names the same, or either name `count`; `PairClash`); no earlier pair raises |
| Sankey.CountClashes | sankey.py:58-60 | a `count` anywhere among at least two names makes some pair raise |
| Sankey.PrepTables | sankey.py:54-62 | the `prep` loop concatenates, in order, the group tables of the neighbouring column pairs (`PairTables`); it fails at the first pair that raises, with `RepeatedGrouper` for a pair of one name and otherwise `CountClash` (`PrepResult`) |
| Sankey.AtLeastSpec | sankey.py:69 | the threshold filter keeps, in order, exactly the links whose count reaches it |
| Sankey.SortedSetSpec | sankey.py:17 | `sorted(set(..))` is strictly increasing and holds exactly the values given |
| Sankey.Endpoints | sankey.py:17 | the sources and targets together, two per link |
| PySeq.IndexOf | sankey.py:23-26 | the code of a value is the position of its first occurrence in the labels |
| Sankey.CodeMappingSpec | sankey.py:15-28 | the labels are increasing and exactly the endpoints; each code lies within the labels and maps back to the value it replaced; every label is some link's code |
| Sankey.UniqueBelowAll | sankey.py:80-81 | when every code below the label count occurs, `np.unique` gives `0 .. len(labels) - 1` |
| Sankey.PaletteShape | sankey.py:84 | the palette has ten colours, each `#` followed by six hexadecimal digits |
| Sankey.DiagramSpec | sankey.py:74-90 | there is one node per label, with node `i` coloured with palette entry `i mod 10`; each link takes its source's colour at opacity 0.3; the values are the counts when `vals` is set, else all 1 |
| Sankey.DiagramNodes | sankey.py:80-90 | the nodes are all the labels in order, each coloured by its position |
| Sankey.DiagramLinks | sankey.py:82-86 | each link takes the colour of its source node |
| Sankey.SankeyErrors | sankey.py:45-90 | it fails exactly with fewer than two columns, a missing column, with `prep` a pair that raises (two neighbouring names the same, or a name `count`, with that pair's error), or without `prep` an unrenamable frame; with `prep`, `count` among the names always fails; with `prep`, present columns and no such pair the values are the group counts |
| Sankey.MakeSankey | sankey.py:45-90 | the method computes the diagram data or error, and leaves the frame's columns converted and renamed as pandas does |
| Transcripts.ShortSectionSilent | transcripts.py:36-42 | a section of at most two lines contributes nothing |
| Transcripts.ContributionChars | transcripts.py:36-42 | a contribution has no newline; its other characters are spaces or come from the section |
| Transcripts.CleanedAppend | transcripts.py:33-42 | sections are processed in order, and their contributions are appended with no separator |
| Transcripts.CleanedSingle | transcripts.py:35-42 | one section contributes its body lines joined by spaces when the speaker occurs in it, else nothing |
| Transcripts.CleanedNone | transcripts.py:33-44 | when no section mentions the speaker the result is empty |
| Transcripts.CleanedChars | transcripts.py:33-44 | the output has no newline, and holds no non-space character that occurs in no section |
| Transcripts.TranscriptTextSpec | transcripts.py:28-44 | the reader fails exactly on an empty delimiter; its output has no newline and no upper-case letter, so a speaker with one never matches |
| Transcripts.TranscriptReader | transcripts.py:20-44 | the reader's loop computes the cleaned text of the lower-cased transcript, or the empty-separator error |
| Transcripts.DefaultDelimiterReads | transcripts.py:20 | the default delimiter never makes the reader fail |
| Transcripts.TranscriptParseSpec | transcripts.py:54-76 | a transcript parse has the five attributes; `sentence_length` has one more entry than the reader's output has periods; `numwords` is the counter's total |
| Transcripts.TranscriptParser | transcripts.py:46-76 | the parser runs the reader's output through the pipeline without lower-casing again |
| Transcripts.LoadTranscript | transcripts.py:78-80 | an empty delimiter leaves the store unchanged and reports the error; any other saves the transcript's parse under its label, keeping the store well formed |

## Left out

- Rendering is left out because it consists of foreign library calls: Plotly figures, traces, `make_subplots`, layouts, `fig.show()`, `px.pie`, and the bar widths and text of `sent_over_time`. The chart methods return the tables they would draw.
- Sentiment analysis is a parameter `analyze: string -> Polarity`, because NLTK's `SentimentIntensityAnalyzer` is an external model. `get_score` is real-number subtraction, with no floating-point rounding.
- NLTK's English stop list is a parameter `english`.
- File reads are left out. The file and stop-file contents are parameters.
- `WordieError.verify_text` is not part of this model, because it checks the file name and reads the file. It asserts that the name ends in `.txt` and that the file is not empty (exception.py:17-20), so `_default_parser` raises AssertionError for other names and for empty files (wordie.py:42-43). Extraction.DefaultParser and Framework.Wordie.LoadText accept any name and any contents and save a parse.
- `exception.py` apart from that check, and `main.py`, are not part of this model; `main.py` is fixed wiring of file paths and chart calls.
- The `parser` argument of `load_text` is not modelled, because a user-supplied parser is arbitrary code. Only the default parser is modelled.
- Reshape.Step: `int(numwords / n)` divides as floating point and truncates (wordie.py:239). The model divides exactly and truncates toward zero. The two agree as long as `numwords` is below 2^52, where floating-point division of integers is exact enough to truncate correctly.
- Extra keyword arguments of `_default_parser` are not modelled.
- Case conversion covers ASCII letters only. Unicode case mapping is not modelled.
- The `defaultdict` read side effects are left out. `self.data[a]` on a missing attribute reads as an empty dict, but the entry it would create is not modelled. A valid store never lacks an attribute once a document is loaded.
- Framework.Wordie.SaveResults: the store stays well formed only when a default parse is saved. Results from a custom parser are outside the model.
- `ZoomTranscript` is not a subclass here. A module-level `Transcripts.LoadTranscript` takes a `Wordie` and runs the inherited `load_text` with the overriding parser.
- Reshape.FilterWordcount stores each label's finished inner dict in one step instead of key by key. The resulting dict is the same, because the defaultdict makes the label's entry on the first key.
- `sendf.sort_values('num_sen')` is a no-op, because its result is discarded.
- In `subplot_bar`, `make_subplots(cols=0)` with no documents is left out, since it is a Plotly error. The model then just has no panels.
- Only the columns of a DataFrame that the code reads are modelled. pandas dtypes, indexes and duplicate column names are not.
- Sankey.MakeSankey: without `prep`, renaming needs exactly three columns (else `ColumnCountMismatch`). A text `count` column with rows fails the `>=` comparison (`TextCounts`). A numeric source or target column with rows is reported as `NumericLabels`, since pandas' mixing of numbers and codes is not modelled. Zipped columns of unequal length are cut to the shortest.
- `np.unique` is modelled on codes that all lie below the label count, which `_code_mapping` guarantees.
- `title` and the `pad`/`thickness` options of `make_sankey` only reach the figure, so they are left out.
