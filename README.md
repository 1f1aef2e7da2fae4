# Sidechat scraper, modelled in Dafny

The repository has four parts. This project models them and proves properties
of the model:

- **the scraper** (`sidechat_scraper.py`). It reads its settings from the
  environment. It pages through the Sidechat posts API with a cursor and
  saves each page as a `batch_NNNN_<timestamp>.json` file. It also appends
  one line per post to `sidechat_posts.txt`, in the form `epoch:"escaped
  text"`, and writes `scrape_metadata.json` at the start and at the end of
  a run;
- **the merger** (`extract_texts.py`). It re-reads every batch file in
  sorted-name order and re-encodes the posts with the same line format. It
  drops repeated lines, keeping the first, and sorts the rest by epoch;
- **the word-frequency tool** (`word_frequency.py`). It reads the corpus
  file back and counts, month by month, the posts that contain a word
  (case-insensitively) against all posts. It then draws the bar chart of
  those counts;
- **the sentiment tool** (`sentiment_over_time.py`). It loads the corpus
  with a stricter line pattern, scores each message (the word-lexicon
  scorer is modelled; the other two are parameters) and groups the scores
  by period.

Modules:

- `Strings`: the Python `str` operations the scripts use, on ASCII.
- `IsoTime`: `datetime.fromisoformat(...).timestamp()` on offset-carrying
  ISO 8601 stamps.
- `LineCodec`: the shared line format and the per-post encoder.
- `Sorting`: Python's stable `sorted`.
- `Scraper`, `ExtractTexts`, `WordFrequency` and `Sentiment`: one per
  script.

The scraper's loop is modelled in two forms:

- as a pure specification, `Scraper.Loop`/`Scraper.Scrape`, over a `World`
  value. The world holds the corpus file, the batch files, the metadata
  file, a trace of requests, rate-limit sleeps, batch saves and corpus
  appends, a clock counter and a counter of responses used;
- as the `SidechatScraper` class, whose methods update that state in place
  and are proved to agree with the specification.

The HTTP service is a scripted list of responses, and the clock is a
function from reading number to ISO text.

Behaviours of the code worth noting:

- the escaping step escapes `"`, LF and CR, but not the backslash. So
  `Unescape(Escape(t)) == t` holds only for texts without a backslash
  (`LineCodec.UnescapeEscape`). The two-character text backslash, `n` and
  the one-character text line feed encode to the same line, which reads back
  as the line feed (`LineCodec.BackslashBreaksInjectivity`);
- reading a line back never fails on a missing closing quote. A lone `"`
  reads as the empty text (`WordFrequency.LoneQuoteIsEmpty`);
- the batch cap is checked before each request, not after a save;
- a response whose body is not JSON counts as a failed request: after the
  rate-limit sleep, the loop sees `{}`.

## Model

| member | source | states |
|---|---|---|
| Strings.Strip | sidechat_scraper.py:131 | `str.strip()`: the result is the slice of the input that remains once the whitespace before and after it is dropped, and it neither starts nor ends with whitespace |
| Strings.StripIdempotent | extract_texts.py:36 | stripping an already stripped text changes nothing |
| Strings.Lower | word_frequency.py:69 | `str.lower()` keeps the length and maps each character on its own, `A`-`Z` to `a`-`z` |
| Strings.Replace | sidechat_scraper.py:135 | `str.replace`: a text without the pattern is returned unchanged (the rewrite of the other texts is `Strings.ReplaceFirst`) |
| Strings.ReplaceFirst | sidechat_scraper.py:135 | `str.replace` scans from the left: the text before the first occurrence is copied, that occurrence becomes the replacement, and the rest is rewritten afresh, so occurrences never overlap |
| Strings.ContainsIff | word_frequency.py:77 | the substring test `in` holds exactly when the pattern occurs at some index |
| Strings.ReplaceCharAbsent | sidechat_scraper.py:119 | after replacing a character by a text without `d`, no `d` remains when `d` was that character or absent before |
| Strings.Split | sentiment_over_time.py:47 | `str.split()` yields only non-empty tokens without whitespace |
| Strings.SplitWord | sentiment_over_time.py:47 | a text without whitespace is exactly one token |
| Strings.SplitSpace | sentiment_over_time.py:47 | a whitespace character separates and is dropped: the tokens of `a + c + b` are those of `a` followed by those of `b`; with `SplitWord` and the empty text this fixes `split()` on every text |
| Strings.NatToStringRoundTrip | sidechat_scraper.py:119 | the decimal digits of `n` read back as `n` |
| Strings.IntToString | sidechat_scraper.py:136 | the text of an integer is non-empty, has no `:`, no `"` and no surrounding whitespace, and is all digits exactly when the integer is not negative |
| Strings.IntToStringRoundTrip | extract_texts.py:80 | `int(str(i)) == i` for every integer |
| Strings.ParseInt | word_frequency.py:19 | `int()` succeeds exactly on a stripped text of at least one digit with at most one leading sign, and gives the digits' decimal value, negated after `-` |
| Strings.SplitFirst | extract_texts.py:80 | `split(':', 1)` on a text with a `:` cuts it at the first `:` |
| Strings.SplitFirstUnique | word_frequency.py:39 | splitting `a + ":" + b` with no `:` in `a` gives back `(a, b)` |
| IsoTime.DaysInMonth | extract_texts.py:15 | months have 28 to 31 days; February has 29 exactly in leap years |
| IsoTime.NextDayIsOneLater | extract_texts.py:15-16 | the day count of the calendar date after a valid date is one more |
| IsoTime.UnixEpochIsDayZero | extract_texts.py:16 | 1970-01-01 is day 0 of the count |
| IsoTime.ToEpoch | extract_texts.py:16 | `int(dt.timestamp())` is the fractional epoch second truncated toward zero |
| IsoTime.NextDayAdds86400 | extract_texts.py:16 | the same time of day one calendar day later is 86400 seconds later |
| IsoTime.ParseDateTime | extract_texts.py:15 | a stamp `fromisoformat` accepts is a valid date and time with an offset under 24 hours (the stamps it reads back are `IsoTime.FormatRoundTrip`) |
| IsoTime.ParseOffset | extract_texts.py:15 | `±HH:MM` is accepted iff both fields are digits and `HH*3600 + MM*60` is under 24 hours; the fields are not range-checked one by one |
| IsoTime.FormatRoundTrip | extract_texts.py:15 | every valid date-time with a whole-minute offset is parsed back exactly from its `isoformat` text |
| IsoTime.IsoToEpochOfFormat | sidechat_scraper.py:60-63 | `iso_to_epoch` (`IsoToEpoch`) of such a text is the date-time's epoch: the exact instant truncated toward zero |
| IsoTime.ParseFraction | extract_texts.py:15 | a fraction is accepted iff it is absent or a `.` followed by at least one digit; it is 0 to 999999 microseconds, and 0 when absent |
| IsoTime.FractionValue | extract_texts.py:15 | one to six fraction digits are the microseconds padded with zeros on the right |
| IsoTime.FractionIgnoresExtra | extract_texts.py:15 | digits after the sixth do not change the value |
| IsoTime.MillisecondFraction | sidechat_scraper.py:60-63 | the API's millisecond fraction `.789` is 789000 microseconds |
| IsoTime.ZuluIsUtc | sidechat_scraper.py:62 | replacing a trailing `Z` by `+00:00` changes nothing about the epoch |
| IsoTime.EpochOriginIsZero | sidechat_scraper.py:60-63 | `1970-01-01T00:00:00Z` converts to epoch 0 |
| LineCodec.Escape | sidechat_scraper.py:135 | the three chained replaces escape `"`, LF and CR character by character |
| LineCodec.Unescape | word_frequency.py:48 | every pattern of the readers' replaces starts with a backslash, so a text without one is read unchanged |
| LineCodec.EscapeKeepsLength | extract_texts.py:40 | escaping never shortens a text |
| LineCodec.UnescapeEscape | word_frequency.py:48 | reading the escapes back restores any text without a backslash |
| LineCodec.EscapeHasNoLineBreak | sidechat_scraper.py:134-136 | an escaped text holds no LF and no CR, so each post is one line |
| LineCodec.BackslashBreaksInjectivity | sidechat_scraper.py:135 | the two-character text backslash-n and a newline encode to the same line and read back as the newline |
| LineCodec.EncodeLine | sidechat_scraper.py:136 | the line `epoch:"escaped text"` holds no LF and no CR, so the corpus file gets exactly one line per post |
| LineCodec.EncodePost | sidechat_scraper.py:130-136 | a post yields a line iff `text` and `created_at` are strings, the stripped text is non-empty and `created_at` converts; it is skipped iff either key is missing or the text is blank, or the element is a string or list that fails an `in` test; a scalar element, and a string or list that passes both, raise `TypeError`; every other case raises |
| LineCodec.EncodeAllKeepsOrder | extract_texts.py:34-41 | `EncodeAll`, the per-post loop: without a raise, the lines are those of the yielding posts, in post order |
| LineCodec.EncodeAllStopsAtRaise | extract_texts.py:43-44 | once a post raises, later posts add nothing |
| LineCodec.CollectLines | sidechat_scraper.py:127-136 | the loop over the posts returns the lines and the error that the encoding specification gives |
| LineCodec.EpochOfEncodedLine | extract_texts.py:80 | the text before the first `:` of an encoded line is the epoch, and it reads back as that epoch |
| Sorting.SortBy | extract_texts.py:66 | the sort returns a permutation of its input |
| Sorting.SortBySorted | extract_texts.py:80 | under a total preorder the result is sorted |
| Sorting.SortByStable | extract_texts.py:80 | elements with equal keys keep their input order (Python's sort is stable) |
| Sorting.SortBySortedNoop | extract_texts.py:80 | sorting a sorted list changes nothing |
| Sorting.LexLeTotalPreorder | extract_texts.py:66 | string comparison is a total preorder |
| Sorting.LexLeAntisymmetric | extract_texts.py:66 | two strings that compare both ways are equal |
| ExtractTexts.PostsOf | extract_texts.py:26-32 | `data.posts` takes precedence over a top-level `posts`; a file with neither, an unreadable one, or one where a `null` (or other non-container) `data` or posts list raises the caught `TypeError` yields no posts |
| ExtractTexts.ExtractPostsFromFile | extract_texts.py:18-46 | the lines of one batch file are those of the encoder over its posts list |
| ExtractTexts.PartialOnError | extract_texts.py:43-46 | when post `k` is the first to raise, the file still yields the lines of the posts before it |
| ExtractTexts.BatchEntries | extract_texts.py:56 | the glob keeps exactly the `batch_*.json` entries |
| ExtractTexts.SortedBatchFilesOrder | extract_texts.py:66 | the files are visited in non-decreasing name order, each batch file as often as it is listed |
| ExtractTexts.DedupDistinct | extract_texts.py:71-77 | `Dedup`'s lines have no repeats and are exactly the input's lines |
| ExtractTexts.DedupFirstOccurrenceOrder | extract_texts.py:71-77 | deduplication keeps lines in the order of their first occurrence |
| ExtractTexts.DedupNoopIff | extract_texts.py:71-77 | deduplication changes nothing iff the lines are already distinct |
| ExtractTexts.DedupLines | extract_texts.py:72-77 | the seen-set loop computes the deduplication |
| ExtractTexts.EpochLeTotalPreorder | extract_texts.py:80 | comparing lines by their epoch prefix is a total preorder |
| ExtractTexts.CorpusProperties | extract_texts.py:79-80 | the written corpus (`Corpus`) is a permutation of the deduplicated lines, sorted by epoch, with equal epochs left in first-occurrence order |
| ExtractTexts.CorpusDistinct | extract_texts.py:71-86 | the corpus has no repeated line and holds exactly the lines read |
| ExtractTexts.CorpusIdempotent | extract_texts.py:71-80 | merging an already merged corpus gives it back unchanged |
| ExtractTexts.Merge | extract_texts.py:48-86 | `main` stops without a data directory or without batch files, and otherwise writes the deduplicated, epoch-sorted lines of the sorted batch files |
| WordFrequency.ParseTimestampOfInt | word_frequency.py:16-22 | `parse_timestamp` (`ParseTimestamp`) of `str(epoch)` is the local time of `epoch`; out of range it gives no time, and on overflow the read raises |
| WordFrequency.Unquote | word_frequency.py:41-45 | a text that starts and ends with `"` loses its first and last character; any other text is kept |
| WordFrequency.LoneQuoteIsEmpty | word_frequency.py:42-43 | a lone `"` both starts and ends with a quote and reads as the empty text |
| WordFrequency.SplitLine | word_frequency.py:31-39 | a line yields an epoch and text part iff its stripped form has a `:` |
| WordFrequency.SplitLineShape | word_frequency.py:39 | the epoch part has no `:`, and the epoch part, the `:` and the text part make up the stripped line |
| WordFrequency.NonIntegerEpochDropped | word_frequency.py:50-52 | `ReadLine` skips a line whose epoch part is not an integer |
| WordFrequency.SplitEncodedLine | word_frequency.py:39-48 | an encoded line of a backslash-free text splits back into the epoch's digits and the text |
| WordFrequency.ReadEncodedLine | word_frequency.py:31-52 | `ReadLine` of an encoded line gives back its post, or skips it when the epoch has no local time, or raises on overflow |
| WordFrequency.CollectFails | word_frequency.py:57-59 | reading the file returns nothing iff some line raises |
| WordFrequency.CollectAppend | word_frequency.py:30-52 | reading two runs of lines is reading each in turn |
| WordFrequency.ReadEncodedCorpus | word_frequency.py:24-61 | a corpus of encoded, backslash-free, convertible posts reads back as exactly those posts, in order |
| WordFrequency.RaiseDiscards | word_frequency.py:57-59 | one raising line discards every post read |
| WordFrequency.ExtractPostsFromFile | word_frequency.py:24-61 | the reading loop returns the posts of the reading specification |
| WordFrequency.MonthOf | word_frequency.py:73 | the month key keeps year and month and zeroes day and time |
| WordFrequency.Inc | word_frequency.py:74 | a `defaultdict(int)` increment adds one at the key and leaves the others alone |
| WordFrequency.TallyCounts | word_frequency.py:74 | the tally of a sequence holds each element's multiplicity |
| WordFrequency.SearchWordInPosts | word_frequency.py:63-81 | the loop's totals are the per-month counts of all posts, its matches the matching posts in order, and its counts the per-month counts of the matches |
| WordFrequency.MatchingMembers | word_frequency.py:77 | a post matches iff the lower-cased word occurs in its lower-cased text |
| WordFrequency.MatchingSubsequence | word_frequency.py:77-79 | the matches' months are a sub-multiset of all posts' months |
| WordFrequency.EmptyWordMatchesAll | word_frequency.py:77 | the empty word matches every post |
| WordFrequency.CountsWithinTotals | word_frequency.py:74-78 | every month with a match is a month with posts, and its count is at most its total |
| WordFrequency.TotalsAddUp | word_frequency.py:74 | the monthly totals add up to the number of posts |
| WordFrequency.SortedMonths | word_frequency.py:90 | `sorted(keys)` lists each month once, in strictly increasing order |
| WordFrequency.PercentBounds | word_frequency.py:94 | a count between 1 and its total gives a percentage in (0, 100] |
| WordFrequency.HistogramOfTally | word_frequency.py:83-101 | the chart has one bar per month with a match, in month order, its height the count or a percentage in (0, 100] |
| WordFrequency.HistogramOfSearch | word_frequency.py:83-101 | the same, stated for the counts and totals of a search |
| WordFrequency.SafeWordProperties | word_frequency.py:164 | `SafeWord`, `re.sub(r'[^\w\-_]', '_', word)`, keeps word characters and `-`, turns every other character into `_`, and leaves no `/` or `.` |
| WordFrequency.SafeWordIdempotent | word_frequency.py:164 | sanitising a sanitised word changes nothing |
| WordFrequency.OutputName | word_frequency.py:162-168 | an explicit non-empty `--output` is used as given |
| WordFrequency.DefaultOutputStaysInDirectory | word_frequency.py:163-168 | the default name is `visualizations/word_frequency_<safe word>.png` and has no further `/` |
| WordFrequency.MainSucceeds | word_frequency.py:149-204 | `main` (`WordFrequencyMain`) returns 0 iff the input exists and some post read contains the word, and then draws bars; otherwise it returns 1 and draws nothing |
| Sentiment.DigitPrefix | sentiment_over_time.py:27 | `\d+` takes the longest run of leading digits |
| Sentiment.MatchLineIff | sentiment_over_time.py:27 | `MatchLine`, `^(\d+):"(.+)"$`, matches with groups `(d, c)` iff the line is `d:"c"` with `d` non-empty digits and `c` non-empty without a line feed |
| Sentiment.GreedyContent | sentiment_over_time.py:27 | the greedy content group keeps inner quotes |
| Sentiment.LoadMessages | sentiment_over_time.py:16-35 | the loop keeps, in order, the messages of the lines the pattern matches |
| Sentiment.LoadEncodedLine | sentiment_over_time.py:27-33 | `LoadLine` reads an encoded line with a non-negative epoch and a non-empty, backslash-free text back as that message |
| Sentiment.NegativeEpochSkipped | sentiment_over_time.py:27 | a line with a negative epoch does not match the pattern |
| Sentiment.EmptyTextSkipped | sentiment_over_time.py:27 | a line with an empty text does not match the pattern |
| Sentiment.LoadEncodedCorpus | sentiment_over_time.py:16-35 | a corpus of such lines loads as exactly its messages, in order |
| Sentiment.CountIn | sentiment_over_time.py:48-49 | a lexicon count is at most the number of words |
| Sentiment.ScoreProperties | sentiment_over_time.py:51-54 | the lexicon score lies in [-1, 1], is positive iff more positive words, negative iff more negative words, 0 with none, and ±1 when only one kind occurs |
| Sentiment.LexiconScoreOfToken | sentiment_over_time.py:47-54 | `LexiconScore` of a one-word text is 1, -1 or 0 as its lower-cased word is positive, negative or neither |
| Sentiment.LexiconCountsAdd | sentiment_over_time.py:47-49 | whitespace separates words: the positive and negative counts of `a + c + b` are the sums of those of `a` and `b`, which with the one-word case gives the counts of every text |
| Sentiment.LexiconWordScores | sentiment_over_time.py:44-54 | `Good` lower-cases to a positive word and scores 1 |
| Sentiment.PunctuationDefeatsLexicon | sentiment_over_time.py:47 | `good!` scores 0, since `split()` keeps punctuation |
| Sentiment.AnalyzeSentiment | sentiment_over_time.py:82-91 | the result is an error iff the method is unknown; `lexicon` gives the lexicon score |
| Sentiment.ScoresOfKnownMethod | sentiment_over_time.py:102 | with a known method every message gets its score, in order |
| Sentiment.ScoresOfUnknownMethod | sentiment_over_time.py:102 | with an unknown method and some message, scoring raises the unknown-method error |
| Sentiment.CreateTimeline | sentiment_over_time.py:93-128 | no messages, then a timestamp past 9223372036 seconds (`pd.to_datetime` overflows 64-bit nanoseconds), then an unknown method, then an unknown granularity decide the error; otherwise every message gets its score and the granularity's period |
| Sentiment.FarFutureRejected | sentiment_over_time.py:98 | a message stamped `99999999999` stops the timeline with the out-of-range error before any scoring |
| Scraper.LoadSettings | sidechat_scraper.py:23-37 | the settings load iff `REQUEST_INTERVAL` parses and the token and group id are non-empty, with errors in that order; the loaded values are the environment's |
| Scraper.DefaultSettings | sidechat_scraper.py:24-32 | with only the two required variables: output `data`, type `hot`, no initial cursor, both outputs on, 1000 ms interval |
| Scraper.MaxBatchesSetting | sidechat_scraper.py:219-221 | an unset or empty `MAX_BATCHES` means no cap; otherwise it is `int()` of the value, which can fail |
| Scraper.CursorParam | sidechat_scraper.py:72-73 | the `cursor` parameter is sent iff the cursor is truthy, and then it is the cursor |
| Scraper.Pad4 | sidechat_scraper.py:119 | `{n:04d}` is at least four digits, reads back as `n`, and has no leading zero beyond four digits |
| Scraper.FileStampClean | sidechat_scraper.py:119 | the file-name stamp has no `:` and no `.` |
| Scraper.BatchFileNameShape | sidechat_scraper.py:119 | a batch file name is `batch_`, the padded number, `_`, the cleaned stamp and `.json` |
| Scraper.Request | sidechat_scraper.py:65-95 | a request uses one response; it yields posts only from a received response |
| Scraper.Round | sidechat_scraper.py:172-198 | a pass that continues has made a request |
| Scraper.LoopEnds | sidechat_scraper.py:172-198 | the loop specification `Loop` ends in a state that the loop's final description holds for |
| Scraper.AfterIsAppend | sidechat_scraper.py:138-142 | completed passes only append to the corpus file, the batch files and the trace |
| Scraper.ScrapeSavesPages | sidechat_scraper.py:157-198 | in the run specification `Scrape`, save `k` is batch `k+1`, requested with the previous page's cursor (the initial one first) and stamped with clock reading `k+1`; every save but the last moved on to a new, truthy cursor; one request per save, plus the one that found no page |
| Scraper.ScrapeRespectsCap | sidechat_scraper.py:173-175 | a positive cap bounds the requests, a negative one allows none, none or 0 never stops the loop, and stopping at the cap means exactly that many batches |
| Scraper.ScrapeStops | sidechat_scraper.py:179-195 | the loop ends on a missing `posts`, an empty `posts`, a missing or repeated cursor, or a raise while encoding the last page |
| Scraper.ScrapeOutputs | sidechat_scraper.py:97-145 | the corpus file gains the lines of every save that did not raise, a batch file is written for every save, and each request uses one response |
| Scraper.ScrapeMetadata | sidechat_scraper.py:161-206 | the metadata file holds the start members, and unless a save raised, the end time, `batch_number - 1` as `total_batches` (one short when the cursor ends the loop) and the posts saved |
| Scraper.SidechatScraper.constructor | sidechat_scraper.py:23-57 | the object holds the settings, and the corpus file is emptied when cleaned output is on |
| Scraper.SidechatScraper.MakeRequest | sidechat_scraper.py:65-95 | the new state and the body are those of the request specification |
| Scraper.SidechatScraper.SaveBatch | sidechat_scraper.py:97-145 | the new state and the raised error are those of the save specification `SaveStep` |
| Scraper.SidechatScraper.Paginate | sidechat_scraper.py:157-198 | the loop ends in the loop specification's final state and stop reason |
| Scraper.SidechatScraper.CompleteMetadata | sidechat_scraper.py:200-206 | the metadata gets the end time, `batch_number - 1` and the post total, and the clock advances one reading |
| Scraper.SidechatScraper.ScrapeAllPosts | sidechat_scraper.py:147-212 | the method's final state and stop reason are those of the run specification |
| Scraper.Truncated | sidechat_scraper.py:52-57 | setting up empties the corpus file when cleaned output is on and touches nothing else |
| Scraper.MainStatus | sidechat_scraper.py:214-229 | `main` (`MainOutcome`) returns 0 iff the settings load, `MAX_BATCHES` parses and no save raised; bad settings leave every file untouched |
| Scraper.RunMain | sidechat_scraper.py:214-229 | the object-based `main` agrees with the `main` specification |

## Left out

- HTTP transport, TLS, headers and the response's status line are not modelled. A response is one of three things: it failed, it is not JSON, or it is a received body. The service is a scripted list, and past its end every request fails.
- The console output (`print`) is not modelled. The world's trace records the requests, the rate-limit sleeps, the batch saves and the corpus appends only.
- `datetime.now()` is a clock parameter: the `k`-th reading is `clock(k)`. Local-time conversion (`datetime.fromtimestamp`) is a parameter of the word-frequency reader, and it may fail.
- File contents are values: the corpus file is a list of lines, and the batch and metadata files are records. JSON layout and `indent=2` are not modelled. A batch file's JSON holds the posts as read; the model does not re-serialise them.
- The file system is modelled as values: the data directory's listing and whether the input file exists. `mkdir` is not modelled.
- Strings are ASCII: `strip`, `lower`, `split` and `int()` follow Python's ASCII behaviour only. Unicode whitespace, Unicode case mapping, Unicode digits, underscores in `int()` literals and `\w` on non-ASCII letters are not modelled.
- IsoTime.ParseDateTime: accepts `YYYY-MM-DDTHH:MM:SS` with an optional fraction and a `±HH:MM` offset. Naive stamps without an offset are rejected, since they depend on the local time zone; other `fromisoformat` spellings (week dates, a space separator, a comma before the fraction, seconds in the offset) are treated as errors. The fraction follows Python 3.11 and later: any number of digits, the first six counted (3.7 to 3.10 accept only three or six).
- The matplotlib charts, the pandas DataFrame and its mean, standard deviation and `round(3)`, and the statistics printed after a chart are left out. Floating point is modelled as exact `real`.
- Sentiment.AnalyzeSentiment: the TextBlob scorer and the punctuation-and-emoji `simple` scorer are function parameters. Their floating-point and Unicode-emoji rules are not modelled.
- Sentiment.CreateTimeline: the periods of `to_period('W'/'D'/'Y'/'M')` and the per-period aggregation are not computed. The model stops at the granularity check and the per-message scores. Every timestamp past 9223372036 seconds, including those too large for a 64-bit column, is one out-of-range error.
- Sentiment: `--compare` mode and `print_summary_stats` only plot and print. They are not modelled.
- ExtractTexts.Merge: the corpus is sorted by the `Sorting.SortBy` insertion sort, a function on values. The in-place `list.sort` is not modelled as an array algorithm. Sorting is modelled only by its properties: a stable permutation, sorted by key.
- WordFrequency.SortedMonths: a ghost function. It picks the earliest month with a choice, so the chart it feeds (`CreateHistogram`) is ghost too.
- ExtractTexts.PostsOf: a `data` member that is a string or a list, and a posts list that is an object or a string, are not representable. Python would search or iterate such values as strings, lists or dictionaries, and the model has no such values.
- Scraper: a response body that is not a JSON object, a `posts` member that is neither a list nor `null` (`null` reads as an empty list and stops the loop), and a `cursor` that is not a string are not representable.
- A post's `text` that is neither a string nor missing makes `.strip()` raise. A `created_at` that is not a string, or that `fromisoformat` rejects, raises too. These raises, and the `TypeError` of a `posts` element that is not an object, are the encoding errors `TextNotString`, `BadTimestamp` and `NotAnObject`; the exception's message is not modelled.
- LineCodec.EncodePost: a `posts` element that is a string or a list is kept only as the answers of its two `in` tests, not its contents.
