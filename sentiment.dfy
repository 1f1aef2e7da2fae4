/** sentiment_over_time.py: the strict reader of the corpus file, the
    lexicon sentiment score, the choice of scoring method and the checks
    `create_sentiment_timeline` makes before it groups the scores.

    TextBlob's polarity and the punctuation-based score are parameters
    (`textblob`, `simple`); pandas' grouping and the plots are not modelled. */
module Sentiment {
  import opened Strings
  import opened LineCodec

  // ---------------------------------------------------------------- the line pattern

  /** The longest run of digits at the start of `s`: what `\d+` takes. */
  function DigitPrefix(s: string): (d: string)
    ensures |d| <= |s| && d == s[..|d|] && AllDigits(d)
    ensures |d| < |s| ==> !IsDigit(s[|d|])
  {
    if s == [] || !IsDigit(s[0]) then [] else [s[0]] + DigitPrefix(s[1..])
  }

  /** `re.match(r'^(\d+):"(.+)"$', line)`: the digits and the content.
      `\d+` cannot stop before a `:`, so it takes every leading digit; the
      greedy `.+` runs to the last `"`, which must end the line, and never
      crosses a line feed. */
  function MatchLine(t: string): Option<(string, string)> {
    var d := DigitPrefix(t);
    if |d| >= 1 && |t| >= |d| + 4 && t[|d|] == ':' && t[|d| + 1] == '"' && t[|t| - 1] == '"'
       && '\n' !in t[|d| + 2..|t| - 1]
    then Some((d, t[|d| + 2..|t| - 1]))
    else None
  }

  /** The shape the pattern describes: at least one digit, `:"`, at least one
      character other than a line feed, and the closing `"`. */
  predicate Shaped(t: string, d: string, c: string) {
    d != [] && AllDigits(d) && c != [] && '\n' !in c && t == d + ":\"" + c + "\""
  }

  lemma {:induction false} DigitPrefixOf(d: string, rest: string)
    requires AllDigits(d)
    requires rest == [] || !IsDigit(rest[0])
    ensures DigitPrefix(d + rest) == d
  {
    if d != [] {
      assert (d + rest)[1..] == d[1..] + rest;
      DigitPrefixOf(d[1..], rest);
      assert d == [d[0]] + d[1..];
    } else {
      assert d + rest == rest;
    }
  }

  /** A line matches exactly when it has the pattern's shape, and then the
      groups are its digits and everything between the first `:"` and the
      final `"`. */
  lemma MatchLineIff(t: string, d: string, c: string)
    ensures MatchLine(t) == Some((d, c)) <==> Shaped(t, d, c)
  {
    if Shaped(t, d, c) {
      var rest := ":\"" + c + "\"";
      assert t == d + rest;
      DigitPrefixOf(d, rest);
      assert t[|d| + 2..|t| - 1] == c;
    }
    if MatchLine(t) == Some((d, c)) {
      var dp := DigitPrefix(t);
      assert t == dp + ":\"" + c + "\"";
    }
  }

  /** The match is greedy: a quote inside the content stays in it. */
  lemma GreedyContent()
    ensures MatchLine("7:\"a\"b\"") == Some(("7", "a\"b"))
  {
    MatchLineIff("7:\"a\"b\"", "7", "a\"b");
  }

  // ---------------------------------------------------------------- loading

  /** `{'timestamp': ..., 'text': ...}`. */
  datatype Message = Message(timestamp: nat, text: string)

  /** One line of `load_messages`: stripped, matched, the digits read as an
      integer and the content unescaped. */
  function LoadLine(line: string): Option<Message> {
    match MatchLine(Strip(line))
    case None => None
    case Some((d, c)) => Some(Message(DigitsValue(d), Unescape(c)))
  }

  /** What the loop body makes of each line. */
  function LoadLines(lines: seq<string>): (os: seq<Option<Message>>)
    ensures |os| == |lines|
  {
    seq(|lines|, i requires 0 <= i < |lines| => LoadLine(lines[i]))
  }

  /** The messages present, in order. */
  function Present(os: seq<Option<Message>>): (ms: seq<Message>)
    ensures |ms| <= |os|
  {
    if os == [] then []
    else Present(os[..|os| - 1]) + match os[|os| - 1] case None => [] case Some(m) => [m]
  }

  /** The messages of the lines that match, in file order. */
  function Messages(lines: seq<string>): seq<Message> {
    Present(LoadLines(lines))
  }

  lemma PresentPrefix(os: seq<Option<Message>>, i: nat)
    requires i < |os|
    ensures Present(os[..i + 1]) == Present(os[..i]) + match os[i] case None => [] case Some(m) => [m]
  {
    assert os[..i + 1][..i] == os[..i];
  }

  /** Lines without a match leave no trace; when every line matches, there
      is one message per line, in order. */
  lemma {:induction false} PresentAll(os: seq<Option<Message>>)
    requires forall i :: 0 <= i < |os| ==> os[i].Some?
    ensures |Present(os)| == |os|
    ensures forall i :: 0 <= i < |os| ==> Present(os)[i] == os[i].value
  {
    if os != [] {
      PresentAll(os[..|os| - 1]);
    }
  }

  /** `load_messages(filepath)`: the line loop over the file's lines. */
  method LoadMessages(lines: seq<string>) returns (messages: seq<Message>)
    ensures messages == Messages(lines)
  {
    ghost var os := LoadLines(lines);
    messages := [];
    var i := 0;
    while i < |lines|
      invariant 0 <= i <= |lines|
      invariant messages == Present(os[..i])
    {
      PresentPrefix(os, i);
      var m := LoadLine(lines[i]);
      assert m == os[i];
      if m.Some? {
        messages := messages + [m.value];
      }
      i := i + 1;
    }
    assert os[..i] == os;
  }

  /** The strict reader reads an encoded line back as its epoch and text
      when the epoch is not negative and the text is non-empty and holds no
      backslash. */
  lemma LoadEncodedLine(epoch: nat, text: string)
    requires text != [] && '\\' !in text
    ensures LoadLine(EncodeLine(epoch, text)) == Some(Message(epoch, text))
  {
    var line := EncodeLine(epoch, text);
    var d := IntToString(epoch);
    var c := Escape(text);
    assert line == d + ":\"" + c + "\"";
    assert line[0] == d[0] && line[|line| - 1] == '"';
    StripNoop(line);
    EscapeHasNoLineBreak(text);
    assert c != [] by {
      EscapeKeepsLength(text);
    }
    MatchLineIff(line, d, c);
    NatToStringRoundTrip(epoch);
    UnescapeEscape(text);
  }

  /** `\d+` has no sign, so a line with a negative epoch is skipped. */
  lemma NegativeEpochSkipped(epoch: int, text: string)
    requires epoch < 0
    ensures LoadLine(EncodeLine(epoch, text)) == None
  {
    var line := EncodeLine(epoch, text);
    var d := IntToString(epoch);
    assert d[0] == '-';
    assert line[0] == d[0];
    StripNoop(line);
    assert !IsDigit(line[0]);
    assert DigitPrefix(line) == [];
    assert MatchLine(line) == None;
  }

  /** `.+` needs a character, so a line with empty text is skipped. */
  lemma EmptyTextSkipped(epoch: int)
    ensures LoadLine(EncodeLine(epoch, [])) == None
  {
    var line := EncodeLine(epoch, []);
    var d := IntToString(epoch);
    EscapeKeepsLength([]);
    assert line == d + ":\"\"";
    StripNoop(line);
    assert MatchLine(line) == None;
  }

  /** A corpus the encoder wrote is loaded back in order, message for post. */
  lemma LoadEncodedCorpus(lines: seq<string>, epochs: seq<nat>, texts: seq<string>)
    requires |lines| == |epochs| == |texts|
    requires forall i :: 0 <= i < |lines| ==> lines[i] == EncodeLine(epochs[i], texts[i])
    requires forall i :: 0 <= i < |texts| ==> texts[i] != [] && '\\' !in texts[i]
    ensures |Messages(lines)| == |lines|
    ensures forall i :: 0 <= i < |lines| ==> Messages(lines)[i] == Message(epochs[i], texts[i])
  {
    var os := LoadLines(lines);
    forall i | 0 <= i < |os|
      ensures os[i] == Some(Message(epochs[i], texts[i]))
    {
      LoadEncodedLine(epochs[i], texts[i]);
    }
    PresentAll(os);
  }

  // ---------------------------------------------------------------- the lexicon score

  const PositiveWords: set<string> := {"good", "great", "awesome", "amazing", "love", "wonderful",
    "excellent", "fantastic", "perfect", "happy", "joy", "beautiful", "best", "nice", "cool", "fun",
    "excited", "glad", "pleased", "satisfied"}

  const NegativeWords: set<string> := {"bad", "terrible", "awful", "horrible", "hate", "worst",
    "stupid", "dumb", "sucks", "annoying", "frustrated", "angry", "sad", "disappointed", "disgusting",
    "boring", "lame", "trash", "garbage", "crappy"}

  /** `sum(1 for word in words if word in lexicon)`. */
  function CountIn(words: seq<string>, lexicon: set<string>): (n: nat)
    ensures n <= |words|
  {
    if words == [] then 0
    else CountIn(words[..|words| - 1], lexicon) + if words[|words| - 1] in lexicon then 1 else 0
  }

  /** `(p - n) / total`, or 0 when no word of either kind occurs. */
  function Score(p: nat, n: nat): real {
    if p + n == 0 then 0.0 else (p as real - n as real) / (p + n) as real
  }

  /** `analyze_sentiment_lexicon(text)`: tokens of the lowercased text. */
  function LexiconScore(text: string): real {
    var words := Split(Lower(text));
    Score(CountIn(words, PositiveWords), CountIn(words, NegativeWords))
  }

  /** The score lies in [-1, 1], has the sign of `p - n`, and is 1 or -1
      when only one kind of word occurs. */
  lemma ScoreProperties(p: nat, n: nat)
    ensures -1.0 <= Score(p, n) <= 1.0
    ensures Score(p, n) > 0.0 <==> p > n
    ensures Score(p, n) < 0.0 <==> p < n
    ensures p + n == 0 ==> Score(p, n) == 0.0
    ensures p > 0 && n == 0 ==> Score(p, n) == 1.0
    ensures n > 0 && p == 0 ==> Score(p, n) == -1.0
  {
    if p + n > 0 {
      DivBounds(p as real - n as real, (p + n) as real);
    }
  }

  /** A quotient of a numerator no larger in size than its positive
      denominator. */
  lemma DivBounds(a: real, t: real)
    requires t > 0.0 && -t <= a <= t
    ensures -1.0 <= a / t <= 1.0
    ensures a / t > 0.0 <==> a > 0.0
    ensures a / t < 0.0 <==> a < 0.0
    ensures a == t ==> a / t == 1.0
    ensures a == -t ==> a / t == -1.0
  {
    var s := a / t;
    assert s * t == a;
    assert (s - 1.0) * t == a - t;
    assert (s + 1.0) * t == a + t;
  }

  lemma {:induction false} CountInAppend(xs: seq<string>, ys: seq<string>, lexicon: set<string>)
    ensures CountIn(xs + ys, lexicon) == CountIn(xs, lexicon) + CountIn(ys, lexicon)
    decreases |ys|
  {
    if ys == [] {
      assert xs + ys == xs;
    } else {
      assert (xs + ys)[..|xs + ys| - 1] == xs + ys[..|ys| - 1];
      CountInAppend(xs, ys[..|ys| - 1], lexicon);
    }
  }

  lemma LowerAround(a: string, c: char, b: string)
    requires IsSpace(c)
    ensures Lower(a + [c] + b) == Lower(a) + [c] + Lower(b)
  {
    var x, y := Lower(a + [c] + b), Lower(a) + [c] + Lower(b);
    assert |x| == |y|;
    forall i | 0 <= i < |x|
      ensures x[i] == y[i]
    {
      if i < |a| {
        assert (a + [c] + b)[i] == a[i];
      } else if i == |a| {
        assert (a + [c] + b)[i] == c;
      } else {
        assert (a + [c] + b)[i] == b[i - |a| - 1];
      }
    }
  }

  /** Whitespace separates words for the lexicon: the positive and the
      negative counts of `a + c + b` are the sums of those of `a` and `b`.
      With `LexiconScoreOfToken` for a single token, this gives the counts,
      and so the score, of every text. */
  lemma LexiconCountsAdd(a: string, c: char, b: string)
    requires IsSpace(c)
    ensures var ws, wa, wb := Split(Lower(a + [c] + b)), Split(Lower(a)), Split(Lower(b));
      CountIn(ws, PositiveWords) == CountIn(wa, PositiveWords) + CountIn(wb, PositiveWords)
      && CountIn(ws, NegativeWords) == CountIn(wa, NegativeWords) + CountIn(wb, NegativeWords)
  {
    LowerAround(a, c, b);
    SplitSpace(Lower(a), c, Lower(b));
    CountInAppend(Split(Lower(a)), Split(Lower(b)), PositiveWords);
    CountInAppend(Split(Lower(a)), Split(Lower(b)), NegativeWords);
  }

  /** A one-token text scores by whether its lowercase form is, exactly, a
      word of either lexicon. */
  lemma LexiconScoreOfToken(w: string)
    requires IsWord(Lower(w))
    ensures LexiconScore(w) ==
      Score(if Lower(w) in PositiveWords then 1 else 0, if Lower(w) in NegativeWords then 1 else 0)
  {
    var ws := Split(Lower(w));
    SplitWord(Lower(w));
    CountInOne(Lower(w), PositiveWords);
    CountInOne(Lower(w), NegativeWords);
    assert LexiconScore(w) == Score(CountIn(ws, PositiveWords), CountIn(ws, NegativeWords));
  }

  lemma CountInOne(x: string, lexicon: set<string>)
    ensures CountIn([x], lexicon) == if x in lexicon then 1 else 0
  {
    assert [x][..0] == [];
  }

  /** Tokens count only when they are exactly a lexicon word: `Good`
      lowercases to a positive word and scores 1 ... */
  lemma LexiconWordScores()
    ensures LexiconScore("Good") == 1.0
  {
    assert Lower("Good") == "good";
    LexiconScoreOfToken("Good");
    GoodIsOnlyPositive();
    ScoreProperties(1, 0);
  }

  /** ... while `good!` carries punctuation and scores nothing. */
  lemma PunctuationDefeatsLexicon()
    ensures LexiconScore("good!") == 0.0
  {
    assert Lower("good!") == "good!";
    LexiconScoreOfToken("good!");
    PunctuatedIsNeither();
    ScoreProperties(0, 0);
  }

  lemma GoodIsOnlyPositive()
    ensures "good" in PositiveWords && "good" !in NegativeWords
  {
  }

  lemma PunctuatedIsNeither()
    ensures "good!" !in PositiveWords && "good!" !in NegativeWords
  {
  }

  // ---------------------------------------------------------------- method and granularity

  datatype Error = UnknownMethod(scorer: string) | UnknownGranularity(granularity: string)
                 | MissingColumn(column: string) | OutOfBoundsDatetime

  /** The largest whole second `pd.to_datetime(..., unit='s')` represents:
      nanoseconds since 1970 are a signed 64-bit integer. */
  const MaxDatetimeSeconds := 9223372036

  lemma MaxDatetimeSecondsIsInt64Bound()
    ensures MaxDatetimeSeconds * 1000000000 <= 0x7FFF_FFFF_FFFF_FFFF < (MaxDatetimeSeconds + 1) * 1000000000
  {
  }

  /** Every timestamp converts to a pandas datetime. */
  predicate InDatetimeRange(messages: seq<Message>) {
    forall i :: 0 <= i < |messages| ==> messages[i].timestamp <= MaxDatetimeSeconds
  }

  datatype Result<T> = Ok(value: T) | Err(error: Error)

  predicate KnownMethod(scorer: string) {
    scorer == "textblob" || scorer == "lexicon" || scorer == "simple"
  }

  /** `analyze_sentiment(text, method)`. */
  function AnalyzeSentiment(text: string, scorer: string, textblob: string -> real,
                            simple: string -> real): (r: Result<real>)
    ensures r.Err? <==> !KnownMethod(scorer)
    ensures r.Err? ==> r.error == UnknownMethod(scorer)
    ensures scorer == "lexicon" ==> r == Ok(LexiconScore(text))
  {
    if scorer == "textblob" then Ok(textblob(text))
    else if scorer == "lexicon" then Ok(LexiconScore(text))
    else if scorer == "simple" then Ok(simple(text))
    else Err(UnknownMethod(scorer))
  }

  /** The pandas period `to_period` is given for each granularity. */
  datatype Period = Day | Week | Month | Year

  function PeriodOf(granularity: string): Option<Period> {
    if granularity == "month" then Some(Month)
    else if granularity == "week" then Some(Week)
    else if granularity == "day" then Some(Day)
    else if granularity == "year" then Some(Year)
    else None
  }

  /** The timeline before grouping: each message's score and the period it
      is grouped by. */
  datatype Timeline = Timeline(scores: seq<real>, period: Period)

  /** `df['text'].apply(...)`: the scores of the messages in order; the first
      message raises when the method is unknown. */
  function Scores(messages: seq<Message>, scorer: string, textblob: string -> real,
                  simple: string -> real): Result<seq<real>>
  {
    if messages == [] then Ok([])
    else
      match Scores(messages[..|messages| - 1], scorer, textblob, simple)
      case Err(e) => Err(e)
      case Ok(ss) =>
        match AnalyzeSentiment(messages[|messages| - 1].text, scorer, textblob, simple)
        case Err(e) => Err(e)
        case Ok(s) => Ok(ss + [s])
  }

  lemma {:induction false} ScoresOfKnownMethod(messages: seq<Message>, scorer: string,
                                               textblob: string -> real, simple: string -> real)
    requires KnownMethod(scorer)
    ensures Scores(messages, scorer, textblob, simple).Ok?
    ensures |Scores(messages, scorer, textblob, simple).value| == |messages|
    ensures forall i :: 0 <= i < |messages| ==>
      Ok(Scores(messages, scorer, textblob, simple).value[i])
      == AnalyzeSentiment(messages[i].text, scorer, textblob, simple)
  {
    if messages != [] {
      ScoresOfKnownMethod(messages[..|messages| - 1], scorer, textblob, simple);
    }
  }

  lemma {:induction false} ScoresOfUnknownMethod(messages: seq<Message>, scorer: string,
                                                 textblob: string -> real, simple: string -> real)
    requires !KnownMethod(scorer) && messages != []
    ensures Scores(messages, scorer, textblob, simple) == Err(UnknownMethod(scorer))
  {
    if |messages| > 1 {
      ScoresOfUnknownMethod(messages[..|messages| - 1], scorer, textblob, simple);
    }
  }

  lemma ScoresOfAnyMethod(messages: seq<Message>, scorer: string,
                          textblob: string -> real, simple: string -> real)
    requires messages != []
    ensures KnownMethod(scorer) ==>
      var r := Scores(messages, scorer, textblob, simple);
      r.Ok? && |r.value| == |messages|
      && forall i :: 0 <= i < |messages| ==>
           Ok(r.value[i]) == AnalyzeSentiment(messages[i].text, scorer, textblob, simple)
    ensures !KnownMethod(scorer) ==> Scores(messages, scorer, textblob, simple) == Err(UnknownMethod(scorer))
  {
    if KnownMethod(scorer) {
      ScoresOfKnownMethod(messages, scorer, textblob, simple);
    } else {
      ScoresOfUnknownMethod(messages, scorer, textblob, simple);
    }
  }

  /** `create_sentiment_timeline(messages, method, granularity)` up to the
      grouping. Which error wins: an empty list has no `timestamp` column,
      then a timestamp past the datetime range stops `pd.to_datetime`, then
      an unknown method stops the scoring, then an unknown granularity;
      with none of them every message gets its score. */
  function CreateTimeline(messages: seq<Message>, scorer: string, granularity: string,
                          textblob: string -> real, simple: string -> real): (r: Result<Timeline>)
    ensures messages == [] ==> r == Err(MissingColumn("timestamp"))
    ensures messages != [] && !InDatetimeRange(messages) ==> r == Err(OutOfBoundsDatetime)
    ensures messages != [] && InDatetimeRange(messages) && !KnownMethod(scorer) ==> r == Err(UnknownMethod(scorer))
    ensures messages != [] && InDatetimeRange(messages) && KnownMethod(scorer) && PeriodOf(granularity).None? ==>
            r == Err(UnknownGranularity(granularity))
    ensures r.Ok? <==> messages != [] && InDatetimeRange(messages) && KnownMethod(scorer) && PeriodOf(granularity).Some?
    ensures r.Ok? ==>
            r.value.period == PeriodOf(granularity).value
            && |r.value.scores| == |messages|
            && (forall i :: 0 <= i < |messages| ==>
                  Ok(r.value.scores[i]) == AnalyzeSentiment(messages[i].text, scorer, textblob, simple))
  {
    if messages == [] then Err(MissingColumn("timestamp"))
    else if !InDatetimeRange(messages) then Err(OutOfBoundsDatetime)
    else
      ScoresOfAnyMethod(messages, scorer, textblob, simple);
      match Scores(messages, scorer, textblob, simple)
      case Err(e) => Err(e)
      case Ok(ss) =>
        match PeriodOf(granularity)
        case None => Err(UnknownGranularity(granularity))
        case Some(p) => Ok(Timeline(ss, p))
  }

  /** A message dated after 2262-04-11 stops the timeline before any
      scoring, whatever the method and the granularity. */
  lemma FarFutureRejected(text: string, scorer: string, granularity: string,
                          textblob: string -> real, simple: string -> real)
    ensures CreateTimeline([Message(99999999999, text)], scorer, granularity, textblob, simple)
            == Err(OutOfBoundsDatetime)
  {
    assert !InDatetimeRange([Message(99999999999, text)]) by {
      assert [Message(99999999999, text)][0].timestamp > MaxDatetimeSeconds;
    }
  }
}
