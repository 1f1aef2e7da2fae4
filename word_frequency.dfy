/** word_frequency.py: the lenient reader of the corpus file, the per-month
    count of the posts that contain a word, the sorted month list the
    histogram plots, and the default name of the chart file.

    `datetime.fromtimestamp` works in the local time zone, so it is a
    parameter `local`; the chart itself is not modelled. */
module WordFrequency {
  import opened Strings
  import opened LineCodec

  // ---------------------------------------------------------------- timestamps

  /** A naive local `datetime` (the whole seconds of an integer epoch). */
  datatype LocalTime = LocalTime(year: int, month: int, day: int, hour: int, minute: int, second: int)

  /** `datetime.fromtimestamp(epoch)`: a local date-time, a `ValueError` or
      `OSError` for an epoch the platform cannot convert, or an
      `OverflowError`, which `parse_timestamp` does not catch. */
  datatype Conversion = Converted(time: LocalTime) | OutOfRange | Overflow

  /** What `parse_timestamp` gives back: a date-time, `None`, or an
      exception it lets through. */
  datatype Stamp = Stamped(time: LocalTime) | NoStamp | StampRaises

  /** `parse_timestamp(epoch_str)` (word_frequency.py:16-22): `int()`, then
      the local conversion; a `ValueError` from either, or an `OSError`,
      gives `None`. */
  function ParseTimestamp(epochStr: string, local: int -> Conversion): Stamp {
    match ParseInt(epochStr)
    case None => NoStamp
    case Some(epoch) =>
      match local(epoch)
      case Converted(t) => Stamped(t)
      case OutOfRange => NoStamp
      case Overflow => StampRaises
  }

  /** Only the integer in the string matters: `str(epoch)` reads back as
      the conversion of `epoch`, and text that is not an integer is no time. */
  lemma ParseTimestampOfInt(epoch: int, local: int -> Conversion)
    ensures ParseTimestamp(IntToString(epoch), local) ==
      match local(epoch)
      case Converted(t) => Stamped(t)
      case OutOfRange => NoStamp
      case Overflow => StampRaises
  {
    IntToStringRoundTrip(epoch);
  }

  // ---------------------------------------------------------------- one line

  /** `text_part[1:-1]`: without the first and the last character; a
      single character leaves the empty string. */
  function Inner(s: string): (r: string)
    ensures |s| >= 2 ==> s == s[..1] + r + s[|s| - 1..]
    ensures |s| < 2 ==> r == []
  {
    if |s| >= 2 then s[1..|s| - 1] else []
  }

  /** The quote removal of word_frequency.py:42-45: only a text part that
      both starts and ends with `"` loses its first and last character. */
  function Unquote(tp: string): (r: string)
    ensures StartsWith(tp, "\"") && EndsWith(tp, "\"") ==> r == Inner(tp)
    ensures !(StartsWith(tp, "\"") && EndsWith(tp, "\"")) ==> r == tp
  {
    if StartsWith(tp, "\"") && EndsWith(tp, "\"") then Inner(tp) else tp
  }

  /** A lone `"` is both the opening and the closing quote. */
  lemma LoneQuoteIsEmpty()
    ensures Unquote("\"") == []
  {
    assert StartsWith("\"", "\"") && EndsWith("\"", "\"");
  }

  /** The epoch part and the unescaped text of a line (word_frequency.py:31-48):
      blank lines and lines without `:` give nothing; otherwise the stripped
      line splits at its first `:` only. */
  function SplitLine(line: string): (r: Option<(string, string)>)
    ensures r.Some? <==> ':' in Strip(line)
  {
    var t := Strip(line);
    if t == [] || ':' !in t then None
    else
      var (epochStr, textPart) := SplitFirst(t, ':');
      Some((epochStr, Unescape(Unquote(textPart))))
  }

  /** The epoch part is everything before the first `:` of the stripped
      line, and the text is what follows it, unquoted and unescaped. */
  lemma SplitLineShape(line: string)
    requires ':' in Strip(line)
    ensures var (e, text) := SplitLine(line).value;
      exists tp :: Strip(line) == e + [':'] + tp && ':' !in e && text == Unescape(Unquote(tp))
  {
    var tp := SplitFirst(Strip(line), ':').1;
    assert Strip(line) == SplitLine(line).value.0 + [':'] + tp;
  }

  /** A post of the corpus file as the reader keeps it. */
  datatype TextPost = TextPost(time: LocalTime, text: string)

  /** What the loop body does with one line. */
  datatype LineResult = NoPost | Read(post: TextPost) | LineRaises

  function ReadLine(line: string, local: int -> Conversion): LineResult {
    match SplitLine(line)
    case None => NoPost
    case Some((epochStr, text)) =>
      match ParseTimestamp(epochStr, local)
      case Stamped(t) => Read(TextPost(t, text))
      case NoStamp => NoPost
      case StampRaises => LineRaises
  }

  /** A line whose epoch part is not an integer is dropped. */
  lemma NonIntegerEpochDropped(line: string, local: int -> Conversion)
    requires SplitLine(line).Some? && ParseInt(SplitLine(line).value.0).None?
    ensures ReadLine(line, local) == NoPost
  {
    ReadLineUnfold(line, local);
  }

  lemma ReadLineUnfold(line: string, local: int -> Conversion)
    requires SplitLine(line).Some?
    ensures ReadLine(line, local) == match ParseTimestamp(SplitLine(line).value.0, local)
      case Stamped(t) => Read(TextPost(t, SplitLine(line).value.1))
      case NoStamp => NoPost
      case StampRaises => LineRaises
  {
  }

  /** A text part between quotes loses exactly the quotes. */
  lemma UnquoteQuoted(u: string)
    ensures Unquote("\"" + u + "\"") == u
  {
    var tp := "\"" + u + "\"";
    assert StartsWith(tp, "\"") && EndsWith(tp, "\"") by {
      assert tp[..1] == "\"" && tp[|tp| - 1..] == "\"";
    }
    assert tp[1..|tp| - 1] == u;
  }

  /** An encoded line splits into the epoch's digits and its original text,
      provided the text holds no backslash. */
  lemma SplitEncodedLine(epoch: int, text: string)
    requires '\\' !in text
    ensures SplitLine(EncodeLine(epoch, text)) == Some((IntToString(epoch), text))
  {
    var line := EncodeLine(epoch, text);
    var d := IntToString(epoch);
    var tp := "\"" + Escape(text) + "\"";
    assert line == d + [':'] + tp;
    assert line[0] == d[0] && line[|line| - 1] == '"';
    StripNoop(line);
    EpochOfEncodedLine(epoch, text);
    assert ':' in line by {
      assert line[|d|] == ':';
    }
    UnquoteQuoted(Escape(text));
    UnescapeEscape(text);
  }

  /** An encoded line is read back as its text whenever the text holds no
      backslash: the whole line survives `strip`, its first `:` ends the
      epoch, the quotes come off and the escapes are undone. */
  lemma ReadEncodedLine(epoch: int, text: string, local: int -> Conversion)
    requires '\\' !in text
    ensures ReadLine(EncodeLine(epoch, text), local) ==
      match local(epoch)
      case Converted(t) => Read(TextPost(t, text))
      case OutOfRange => NoPost
      case Overflow => LineRaises
  {
    SplitEncodedLine(epoch, text);
    ParseTimestampOfInt(epoch, local);
  }

  // ---------------------------------------------------------------- the file

  /** The input file: missing, unreadable part-way (a decoding error), or
      its lines. */
  datatype TextFile = NotFound | Unreadable | Lines(lines: seq<string>)

  /** What the loop body does with each line of `lines`. */
  function ReadLines(lines: seq<string>, local: int -> Conversion): (rs: seq<LineResult>)
    ensures |rs| == |lines|
  {
    seq(|lines|, i requires 0 <= i < |lines| => ReadLine(lines[i], local))
  }

  /** One turn of the loop: a post is appended, a line without one is
      skipped, and an exception ends the reading. */
  function Step(acc: Option<seq<TextPost>>, r: LineResult): Option<seq<TextPost>> {
    match acc
    case None => None
    case Some(ps) =>
      match r
      case NoPost => Some(ps)
      case Read(p) => Some(ps + [p])
      case LineRaises => None
  }

  /** The posts of a sequence of line results, in order, or `None` when one
      of them raised. */
  function Collect(rs: seq<LineResult>): (r: Option<seq<TextPost>>)
    ensures r.Some? ==> |r.value| <= |rs|
  {
    if rs == [] then Some([]) else Step(Collect(rs[..|rs| - 1]), rs[|rs| - 1])
  }

  lemma CollectPrefix(rs: seq<LineResult>, i: nat)
    requires i < |rs|
    ensures Collect(rs[..i + 1]) == Step(Collect(rs[..i]), rs[i])
  {
    assert rs[..i + 1][..i] == rs[..i];
  }

  /** `extract_posts_from_file`: any exception discards the posts read so far. */
  function ExtractPosts(file: TextFile, local: int -> Conversion): seq<TextPost> {
    match file
    case Lines(lines) => (match Collect(ReadLines(lines, local)) case Some(ps) => ps case None => [])
    case _ => []
  }

  /** Reading is line by line: the posts of two pieces of a file are the
      posts of each piece, one after the other, unless either piece raises. */
  lemma {:induction false} CollectAppend(a: seq<LineResult>, b: seq<LineResult>)
    ensures Collect(a + b) ==
      if Collect(a).Some? && Collect(b).Some? then Some(Collect(a).value + Collect(b).value) else None
    decreases |b|
  {
    if b == [] {
      assert a + b == a;
      assert Collect(b) == Some([]);
      if Collect(a).Some? {
        assert Collect(a).value + [] == Collect(a).value;
      }
    } else {
      var init := b[..|b| - 1];
      assert (a + b)[..|a + b| - 1] == a + init;
      assert (a + b)[|a + b| - 1] == b[|b| - 1];
      CollectAppend(a, init);
      var ca, ci := Collect(a), Collect(init);
      if ca.Some? && ci.Some? {
        match b[|b| - 1] {
          case NoPost =>
          case Read(p) =>
            assert ca.value + (ci.value + [p]) == (ca.value + ci.value) + [p];
          case LineRaises =>
        }
      }
    }
  }

  /** Reading fails exactly when some line raises. */
  lemma {:induction false} CollectFails(rs: seq<LineResult>)
    ensures Collect(rs).None? <==> exists i :: 0 <= i < |rs| && rs[i].LineRaises?
  {
    if rs != [] {
      var init := rs[..|rs| - 1];
      CollectFails(init);
      if exists i :: 0 <= i < |init| && init[i].LineRaises? {
        var i :| 0 <= i < |init| && init[i].LineRaises?;
        assert rs[i] == init[i];
      }
      if exists i :: 0 <= i < |rs| && rs[i].LineRaises? {
        var i :| 0 <= i < |rs| && rs[i].LineRaises?;
        if i < |init| {
          assert init[i] == rs[i];
        }
      }
    }
  }

  /** When every line is read as a post, the posts are those of the lines,
      in order. */
  lemma {:induction false} CollectAllRead(rs: seq<LineResult>)
    requires forall i :: 0 <= i < |rs| ==> rs[i].Read?
    ensures Collect(rs).Some? && |Collect(rs).value| == |rs|
    ensures forall i :: 0 <= i < |rs| ==> Collect(rs).value[i] == rs[i].post
  {
    if rs != [] {
      CollectAllRead(rs[..|rs| - 1]);
    }
  }

  /** A corpus written by the encoder, from backslash-free texts at epochs
      the platform converts, is read back as those texts at those times, in
      order. */
  lemma ReadEncodedCorpus(lines: seq<string>, epochs: seq<int>, texts: seq<string>, local: int -> Conversion)
    requires |lines| == |epochs| == |texts|
    requires forall i :: 0 <= i < |lines| ==> lines[i] == EncodeLine(epochs[i], texts[i])
    requires forall i :: 0 <= i < |texts| ==> '\\' !in texts[i] && local(epochs[i]).Converted?
    ensures |ExtractPosts(Lines(lines), local)| == |texts|
    ensures forall i :: 0 <= i < |texts| ==>
      ExtractPosts(Lines(lines), local)[i] == TextPost(local(epochs[i]).time, texts[i])
  {
    var rs := ReadLines(lines, local);
    forall i | 0 <= i < |rs|
      ensures rs[i] == Read(TextPost(local(epochs[i]).time, texts[i]))
    {
      ReadEncodedLine(epochs[i], texts[i], local);
    }
    CollectAllRead(rs);
  }

  /** One line that raises discards the whole file. */
  lemma RaiseDiscards(rs: seq<LineResult>, i: nat)
    requires i < |rs| && rs[i].LineRaises?
    ensures Collect(rs) == None
  {
    CollectFails(rs);
  }

  /** `extract_posts_from_file(filepath)`: the line loop, appending each
      post; an exception returns the empty list. */
  method ExtractPostsFromFile(file: TextFile, local: int -> Conversion) returns (posts: seq<TextPost>)
    ensures posts == ExtractPosts(file, local)
  {
    if !file.Lines? {
      return [];
    }
    var lines := file.lines;
    ghost var rs := ReadLines(lines, local);
    posts := [];
    var i := 0;
    while i < |lines|
      invariant 0 <= i <= |lines|
      invariant Collect(rs[..i]) == Some(posts)
    {
      var r := ReadLine(lines[i], local);
      assert r == rs[i];
      if r.LineRaises? {
        RaiseDiscards(rs, i);
        return [];
      }
      CollectPrefix(rs, i);
      if r.Read? {
        posts := posts + [r.post];
      }
      i := i + 1;
    }
    assert rs[..i] == rs;
  }

  // ---------------------------------------------------------------- counting by month

  /** `timestamp.replace(day=1, hour=0, minute=0, second=0, microsecond=0)`:
      the first instant of the post's month. */
  function MonthOf(t: LocalTime): (m: LocalTime)
    ensures m.year == t.year && m.month == t.month
    ensures m.day == 1 && m.hour == 0 && m.minute == 0 && m.second == 0
  {
    t.(day := 1, hour := 0, minute := 0, second := 0)
  }

  /** The month keys of the posts, in order. */
  function Months(posts: seq<TextPost>): (ms: seq<LocalTime>)
    ensures |ms| == |posts|
    ensures forall i :: 0 <= i < |posts| ==> ms[i] == MonthOf(posts[i].time)
  {
    if posts == [] then [] else Months(posts[..|posts| - 1]) + [MonthOf(posts[|posts| - 1].time)]
  }

  /** `search_word_lower in text.lower()`. */
  predicate Matches(p: TextPost, word: string) {
    Contains(Lower(p.text), Lower(word))
  }

  /** The posts that contain the word, in order. */
  function Matching(posts: seq<TextPost>, word: string): seq<TextPost> {
    if posts == [] then []
    else
      var last := posts[|posts| - 1];
      Matching(posts[..|posts| - 1], word) + (if Matches(last, word) then [last] else [])
  }

  /** `d[k] += 1` on a `defaultdict(int)`: a key is there once it was counted. */
  function Inc<K>(m: map<K, nat>, k: K): (r: map<K, nat>)
    ensures r.Keys == m.Keys + {k}
    ensures r[k] == (if k in m then m[k] else 0) + 1
    ensures forall j :: j in m && j != k ==> r[j] == m[j]
  {
    m[k := (if k in m then m[k] else 0) + 1]
  }

  /** The `defaultdict(int)` after `d[k] += 1` for each key of `ks` in turn. */
  function Tally<K>(ks: seq<K>): map<K, nat> {
    if ks == [] then map[] else Inc(Tally(ks[..|ks| - 1]), ks[|ks| - 1])
  }

  /** A tally holds exactly the keys that occur, each with the number of
      its occurrences. */
  lemma {:induction false} TallyCounts<K>(ks: seq<K>)
    ensures forall k :: k in Tally(ks) <==> k in multiset(ks)
    ensures forall k :: k in Tally(ks) ==> Tally(ks)[k] == multiset(ks)[k]
  {
    if ks != [] {
      var init := ks[..|ks| - 1];
      TallyCounts(init);
      assert ks == init + [ks[|ks| - 1]];
    }
  }

  lemma MonthsSnoc(posts: seq<TextPost>, p: TextPost)
    ensures Months(posts + [p]) == Months(posts) + [MonthOf(p.time)]
  {
    assert (posts + [p])[..|posts|] == posts;
  }

  lemma MatchingSnoc(posts: seq<TextPost>, p: TextPost, word: string)
    ensures Matching(posts + [p], word) == Matching(posts, word) + (if Matches(p, word) then [p] else [])
  {
    assert (posts + [p])[..|posts|] == posts;
  }

  lemma TallySnoc<K>(ks: seq<K>, k: K)
    ensures Tally(ks + [k]) == Inc(Tally(ks), k)
  {
    assert (ks + [k])[..|ks|] == ks;
  }

  lemma TallyMonthsSnoc(posts: seq<TextPost>, p: TextPost)
    ensures Tally(Months(posts + [p])) == Inc(Tally(Months(posts)), MonthOf(p.time))
  {
    MonthsSnoc(posts, p);
    TallySnoc(Months(posts), MonthOf(p.time));
  }

  /** One turn of the search loop, on the specification side. */
  lemma SearchStep(posts: seq<TextPost>, i: nat, word: string)
    requires i < |posts|
    ensures Tally(Months(posts[..i + 1])) == Inc(Tally(Months(posts[..i])), MonthOf(posts[i].time))
    ensures Matching(posts[..i + 1], word) ==
      Matching(posts[..i], word) + (if Matches(posts[i], word) then [posts[i]] else [])
  {
    assert posts[..i + 1] == posts[..i] + [posts[i]];
    TallyMonthsSnoc(posts[..i], posts[i]);
    MatchingSnoc(posts[..i], posts[i], word);
  }

  /** `search_word_in_posts(posts, search_word)`: every post counts towards
      its month's total; a post containing the word also counts towards its
      month's matches and is kept. */
  method SearchWordInPosts(posts: seq<TextPost>, word: string)
    returns (counts: map<LocalTime, nat>, totals: map<LocalTime, nat>, matching: seq<TextPost>)
    ensures totals == Tally(Months(posts))
    ensures matching == Matching(posts, word)
    ensures counts == Tally(Months(matching))
  {
    counts, totals, matching := map[], map[], [];
    var lowerWord := Lower(word);
    var i := 0;
    while i < |posts|
      invariant 0 <= i <= |posts|
      invariant totals == Tally(Months(posts[..i]))
      invariant matching == Matching(posts[..i], word)
      invariant counts == Tally(Months(matching))
    {
      var p := posts[i];
      var key := MonthOf(p.time);
      SearchStep(posts, i, word);
      totals := Inc(totals, key);
      if Contains(Lower(p.text), lowerWord) {
        TallyMonthsSnoc(matching, p);
        counts := Inc(counts, key);
        matching := matching + [p];
      }
      i := i + 1;
    }
    assert posts[..i] == posts;
  }

  /** The kept posts are exactly the posts that contain the word. */
  lemma {:induction false} MatchingMembers(posts: seq<TextPost>, word: string)
    ensures forall p :: p in Matching(posts, word) <==> p in posts && Matches(p, word)
  {
    if posts != [] {
      var init := posts[..|posts| - 1];
      MatchingMembers(init, word);
      assert posts == init + [posts[|posts| - 1]];
    }
  }

  /** The filter keeps the order of the posts: it never takes more of any
      post than there are. */
  lemma {:induction false} MatchingSubsequence(posts: seq<TextPost>, word: string)
    ensures multiset(Months(Matching(posts, word))) <= multiset(Months(posts))
    ensures |Matching(posts, word)| <= |posts|
  {
    if posts != [] {
      var init, last := posts[..|posts| - 1], posts[|posts| - 1];
      var mi := Matching(init, word);
      MatchingSubsequence(init, word);
      assert Months(posts) == Months(init) + [MonthOf(last.time)];
      if Matches(last, word) {
        assert Matching(posts, word) == mi + [last];
        MonthsSnoc(mi, last);
      } else {
        assert Matching(posts, word) == mi;
      }
    }
  }

  /** The empty word is in every text, so every post matches. */
  lemma {:induction false} EmptyWordMatchesAll(posts: seq<TextPost>)
    ensures Matching(posts, []) == posts
  {
    if posts != [] {
      var init := posts[..|posts| - 1];
      EmptyWordMatchesAll(init);
      assert StartsWith(Lower(posts[|posts| - 1].text), []);
      assert posts == init + [posts[|posts| - 1]];
    }
  }

  /** A month has matches only where it has posts, and never more matches
      than posts. */
  lemma CountsWithinTotals(posts: seq<TextPost>, word: string)
    ensures var counts, totals := Tally(Months(Matching(posts, word))), Tally(Months(posts));
      forall m :: m in counts ==> m in totals && counts[m] <= totals[m]
  {
    var a, b := Months(Matching(posts, word)), Months(posts);
    MatchingSubsequence(posts, word);
    TallyCounts(a);
    TallyCounts(b);
    forall m | m in Tally(a)
      ensures m in Tally(b) && Tally(a)[m] <= Tally(b)[m]
    {
      assert multiset(a)[m] <= multiset(b)[m];
    }
  }

  // ---------------------------------------------------------------- sums over keys

  function Get<K>(m: map<K, nat>, k: K): nat {
    if k in m then m[k] else 0
  }

  /** `sum(m[k] for k in ks)`, a missing key counting 0. */
  function SumOver<K>(m: map<K, nat>, ks: seq<K>): nat {
    if ks == [] then 0 else SumOver(m, ks[..|ks| - 1]) + Get(m, ks[|ks| - 1])
  }

  predicate Distinct<K(==)>(ks: seq<K>) {
    forall i, j :: 0 <= i < j < |ks| ==> ks[i] != ks[j]
  }

  function Occurrences<K(==)>(ks: seq<K>, k: K): nat {
    if ks == [] then 0 else Occurrences(ks[..|ks| - 1], k) + (if ks[|ks| - 1] == k then 1 else 0)
  }

  lemma {:induction false} SumOverInc<K>(m: map<K, nat>, k: K, ks: seq<K>)
    ensures SumOver(Inc(m, k), ks) == SumOver(m, ks) + Occurrences(ks, k)
  {
    if ks != [] {
      SumOverInc(m, k, ks[..|ks| - 1]);
    }
  }

  lemma {:induction false} DistinctOnce<K>(ks: seq<K>, k: K)
    requires Distinct(ks)
    ensures Occurrences(ks, k) == if k in ks then 1 else 0
  {
    if ks != [] {
      var init := ks[..|ks| - 1];
      DistinctOnce(init, k);
      assert ks == init + [ks[|ks| - 1]];
      if ks[|ks| - 1] == k {
        assert k !in init;
      }
    }
  }

  /** Summed over distinct keys that cover it, a tally adds up to the number
      of keys counted. */
  lemma {:induction false} TallySum<K>(xs: seq<K>, ks: seq<K>)
    requires Distinct(ks)
    requires forall x :: x in xs ==> x in ks
    ensures SumOver(Tally(xs), ks) == |xs|
  {
    if xs == [] {
      SumOverEmpty(ks);
    } else {
      var init, x := xs[..|xs| - 1], xs[|xs| - 1];
      TallySum(init, ks);
      SumOverInc(Tally(init), x, ks);
      DistinctOnce(ks, x);
    }
  }

  lemma {:induction false} SumOverEmpty<K>(ks: seq<K>)
    ensures SumOver(map[], ks) == 0
  {
    if ks != [] {
      SumOverEmpty(ks[..|ks| - 1]);
    }
  }

  // ---------------------------------------------------------------- the histogram

  /** Python's `<` on naive `datetime`s: chronological, field by field. */
  predicate Before(a: LocalTime, b: LocalTime) {
    a.year < b.year || (a.year == b.year &&
    (a.month < b.month || (a.month == b.month &&
    (a.day < b.day || (a.day == b.day &&
    (a.hour < b.hour || (a.hour == b.hour &&
    (a.minute < b.minute || (a.minute == b.minute && a.second < b.second)))))))))
  }

  lemma BeforeTotal(a: LocalTime, b: LocalTime)
    ensures a == b || Before(a, b) || Before(b, a)
    ensures !(Before(a, b) && Before(b, a))
  {
  }

  lemma BeforeTransitive(a: LocalTime, b: LocalTime, c: LocalTime)
    requires Before(a, b) && Before(b, c)
    ensures Before(a, c)
  {
  }

  ghost predicate IsEarliest(k: LocalTime, s: set<LocalTime>) {
    k in s && forall j :: j in s && j != k ==> Before(k, j)
  }

  lemma {:induction false} EarliestExists(s: set<LocalTime>)
    requires s != {}
    ensures exists k :: IsEarliest(k, s)
    decreases |s|
  {
    var x :| x in s;
    var rest := s - {x};
    if rest == {} {
      assert s == {x};
      assert IsEarliest(x, s);
    } else {
      EarliestExists(rest);
      var m :| IsEarliest(m, rest);
      BeforeTotal(x, m);
      if Before(x, m) {
        forall j | j in s && j != x
          ensures Before(x, j)
        {
          if j != m {
            BeforeTransitive(x, m, j);
          }
        }
        assert IsEarliest(x, s);
      } else {
        assert IsEarliest(m, s);
      }
    }
  }

  /** `sorted(keys)`: the months in chronological order, each once. */
  ghost function SortedMonths(s: set<LocalTime>): (r: seq<LocalTime>)
    ensures |r| == |s|
    ensures forall k :: k in r <==> k in s
    ensures forall i, j :: 0 <= i < j < |r| ==> Before(r[i], r[j])
    decreases |s|
  {
    if s == {} then []
    else
      EarliestExists(s);
      var k :| IsEarliest(k, s);
      var rest := SortedMonths(s - {k});
      PrependEarliest(k, s, rest);
      [k] + rest
  }

  /** The earliest month, then the others in order, is the whole set in order. */
  lemma PrependEarliest(k: LocalTime, s: set<LocalTime>, rest: seq<LocalTime>)
    requires IsEarliest(k, s) && |rest| == |s - {k}|
    requires forall x :: x in rest <==> x in s - {k}
    requires forall i, j :: 0 <= i < j < |rest| ==> Before(rest[i], rest[j])
    ensures |[k] + rest| == |s|
    ensures forall x :: x in [k] + rest <==> x in s
    ensures forall i, j :: 0 <= i < j < |[k] + rest| ==> Before(([k] + rest)[i], ([k] + rest)[j])
  {
    var r := [k] + rest;
    assert |s - {k}| == |s| - 1;
    forall i, j | 0 <= i < j < |r|
      ensures Before(r[i], r[j])
    {
      assert r[j] == rest[j - 1] && rest[j - 1] in s - {k};
      if i > 0 {
        assert r[i] == rest[i - 1];
      }
    }
  }

  lemma SortedDistinct(s: set<LocalTime>)
    ensures Distinct(SortedMonths(s))
  {
    var r := SortedMonths(s);
    forall i, j | 0 <= i < j < |r|
      ensures r[i] != r[j]
    {
      BeforeTotal(r[i], r[j]);
    }
  }

  /** `monthly_counts[month] / monthly_totals[month] * 100`, or `None` when
      the month has no posts (a `ZeroDivisionError`). */
  function Percent(count: nat, total: nat): Option<real> {
    if total == 0 then None else Some(count as real / total as real * 100.0)
  }

  lemma PercentBounds(count: nat, total: nat)
    requires 0 < count <= total
    ensures Percent(count, total).Some?
    ensures 0.0 < Percent(count, total).value <= 100.0
  {
    assert count as real / total as real <= 1.0;
  }

  /** What `create_histogram` plots: nothing when no month has a match, the
      bars in month order otherwise, or a division by zero for a normalised
      month without posts. */
  datatype Chart = NoMatches | Bars(months: seq<LocalTime>, heights: seq<real>) | DivisionByZero

  ghost function Heights(months: seq<LocalTime>, counts: map<LocalTime, nat>, totals: map<LocalTime, nat>,
                         normalize: bool): Option<seq<real>>
  {
    if months == [] then Some([])
    else
      var m := months[|months| - 1];
      var h := if normalize then Percent(Get(counts, m), Get(totals, m)) else Some(Get(counts, m) as real);
      match Heights(months[..|months| - 1], counts, totals, normalize)
      case None => None
      case Some(hs) => if h.None? then None else Some(hs + [h.value])
  }

  ghost function CreateHistogram(counts: map<LocalTime, nat>, totals: map<LocalTime, nat>, normalize: bool): Chart {
    if counts == map[] then NoMatches
    else
      var months := SortedMonths(counts.Keys);
      match Heights(months, counts, totals, normalize)
      case None => DivisionByZero
      case Some(hs) => Bars(months, hs)
  }

  lemma {:induction false} HeightsCounts(months: seq<LocalTime>, counts: map<LocalTime, nat>, totals: map<LocalTime, nat>)
    ensures Heights(months, counts, totals, false).Some?
    ensures |Heights(months, counts, totals, false).value| == |months|
    ensures forall i :: 0 <= i < |months| ==>
      Heights(months, counts, totals, false).value[i] == Get(counts, months[i]) as real
  {
    if months != [] {
      HeightsCounts(months[..|months| - 1], counts, totals);
    }
  }

  lemma {:induction false} HeightsPercentages(months: seq<LocalTime>, counts: map<LocalTime, nat>,
                                              totals: map<LocalTime, nat>)
    requires forall m :: m in months ==> 0 < Get(counts, m) <= Get(totals, m)
    ensures Heights(months, counts, totals, true).Some?
    ensures |Heights(months, counts, totals, true).value| == |months|
    ensures forall i :: 0 <= i < |months| ==> 0.0 < Heights(months, counts, totals, true).value[i] <= 100.0
  {
    if months != [] {
      var m := months[|months| - 1];
      HeightsPercentages(months[..|months| - 1], counts, totals);
      PercentBounds(Get(counts, m), Get(totals, m));
    }
  }

  /** The chart of the tally `counts` of month keys `ms`, where every month
      with a count has at least as many posts in `totals`. */
  lemma {:induction false} HistogramOfTally(ms: seq<LocalTime>, counts: map<LocalTime, nat>,
                                            totals: map<LocalTime, nat>, normalize: bool)
    requires counts == Tally(ms)
    requires forall m :: m in counts ==> m in totals && counts[m] <= totals[m]
    ensures var chart := CreateHistogram(counts, totals, normalize);
      (chart.NoMatches? <==> ms == [])
      && (ms != [] ==>
        chart.Bars?
        && chart.months == SortedMonths(counts.Keys)
        && |chart.heights| == |chart.months|
        && SumOver(counts, chart.months) == |ms|
        && (forall i :: 0 <= i < |chart.months| ==>
              if normalize then 0.0 < chart.heights[i] <= 100.0
              else chart.heights[i] == counts[chart.months[i]] as real))
  {
    TallyCounts(ms);
    if ms != [] {
      assert ms[0] in multiset(ms);
      assert counts != map[];
      var months := SortedMonths(counts.Keys);
      SortedDistinct(counts.Keys);
      TallySum(ms, months);
      if normalize {
        HeightsPercentages(months, counts, totals);
      } else {
        HeightsCounts(months, counts, totals);
      }
    }
  }

  /** The chart of a search: no chart exactly when nothing matched;
      otherwise one bar per month with a match, in chronological order,
      whose heights are the month's matches, adding up to the number of
      matching posts, or percentages of the month's posts in (0, 100]. */
  lemma HistogramOfSearch(posts: seq<TextPost>, word: string, normalize: bool)
    ensures var matching := Matching(posts, word);
      var counts, totals := Tally(Months(matching)), Tally(Months(posts));
      var chart := CreateHistogram(counts, totals, normalize);
      (chart.NoMatches? <==> matching == [])
      && (matching != [] ==>
        chart.Bars?
        && chart.months == SortedMonths(counts.Keys)
        && |chart.heights| == |chart.months|
        && SumOver(counts, chart.months) == |matching|
        && (forall i :: 0 <= i < |chart.months| ==>
              if normalize then 0.0 < chart.heights[i] <= 100.0
              else chart.heights[i] == counts[chart.months[i]] as real))
  {
    var matching := Matching(posts, word);
    var counts, totals := Tally(Months(matching)), Tally(Months(posts));
    CountsWithinTotals(posts, word);
    assert forall m :: m in Tally(Months(Matching(posts, word))) ==>
      m in Tally(Months(posts)) && Tally(Months(Matching(posts, word)))[m] <= Tally(Months(posts))[m];
    assert forall m :: m in counts ==> m in totals && counts[m] <= totals[m];
    HistogramOfTally(Months(matching), counts, totals, normalize);
  }

  /** Every post counts towards exactly one month: summed over the months
      in order, the totals add up to the number of posts. */
  lemma TotalsAddUp(posts: seq<TextPost>)
    ensures var totals := Tally(Months(posts));
      SumOver(totals, SortedMonths(totals.Keys)) == |posts|
  {
    var ms := Months(posts);
    var ks := SortedMonths(Tally(ms).Keys);
    TallyCounts(ms);
    SortedDistinct(Tally(ms).Keys);
    forall x | x in ms ensures x in ks {
      assert x in multiset(ms);
    }
    TallySum(ms, ks);
  }

  // ---------------------------------------------------------------- the chart's file name

  /** A character of `\w` (ASCII letters, digits, `_`). */
  predicate IsWordChar(c: char) {
    'a' <= c <= 'z' || 'A' <= c <= 'Z' || '0' <= c <= '9' || c == '_'
  }

  /** A character that `[^\w\-_]` does not match. */
  predicate IsSafe(c: char) {
    IsWordChar(c) || c == '-'
  }

  function SafeChar(c: char): (r: char)
    ensures IsSafe(r)
    ensures IsSafe(c) ==> r == c
  {
    if IsSafe(c) then c else '_'
  }

  /** `re.sub(r'[^\w\-_]', '_', word)`: each other character becomes `_`. */
  function SafeWord(word: string): (r: string)
    ensures |r| == |word|
    ensures forall i :: 0 <= i < |word| ==> r[i] == SafeChar(word[i])
  {
    seq(|word|, i requires 0 <= i < |word| => SafeChar(word[i]))
  }

  /** The sanitised word keeps every safe character, replaces only the
      others, and holds neither a path separator nor a dot. */
  lemma SafeWordProperties(word: string)
    ensures forall i :: 0 <= i < |word| ==> (SafeWord(word)[i] == word[i] <==> IsSafe(word[i]))
    ensures forall i :: 0 <= i < |word| && !IsSafe(word[i]) ==> SafeWord(word)[i] == '_'
    ensures '/' !in SafeWord(word) && '.' !in SafeWord(word)
  {
  }

  /** Sanitising twice changes nothing more. */
  lemma SafeWordIdempotent(word: string)
    ensures SafeWord(SafeWord(word)) == SafeWord(word)
  {
  }

  /** `args.output`, or when it is missing or empty the default chart path. */
  function OutputName(output: Option<string>, word: string): (r: string)
    ensures output.Some? && output.value != [] ==> r == output.value
  {
    if output.Some? && output.value != [] then output.value
    else "visualizations/word_frequency_" + SafeWord(word) + ".png"
  }

  /** The default chart lands directly in `visualizations/`, whatever the word. */
  lemma DefaultOutputStaysInDirectory(output: Option<string>, word: string)
    requires output.None? || output.value == []
    ensures var r := OutputName(output, word);
      StartsWith(r, "visualizations/") && EndsWith(r, ".png")
      && '/' !in r[|"visualizations/"|..] && |r| == |word| + 34
  {
    var r := OutputName(output, word);
    var pre := "visualizations/";
    SafeWordProperties(word);
    assert r == pre + ("word_frequency_" + SafeWord(word) + ".png");
    assert r[|pre|..] == "word_frequency_" + SafeWord(word) + ".png";
  }

  // ---------------------------------------------------------------- main

  /** What `main` ends with: its exit code, the chart path, whether it made
      the `visualizations` directory, and the chart when it drew one. */
  datatype Outcome = Outcome(code: int, output: string, madeDirectory: bool, chart: Option<Chart>)

  /** `main()`: the default chart path (making its directory) first, then a
      missing input, no posts read, or no post matching the word return 1;
      otherwise the histogram is drawn and 0 returned. */
  ghost function WordFrequencyMain(word: string, output: Option<string>, normalize: bool, file: TextFile,
                                   local: int -> Conversion): Outcome
  {
    var madeDirectory := output.None? || output.value == [];
    var out := OutputName(output, word);
    if file.NotFound? then Outcome(1, out, madeDirectory, None)
    else
      var posts := ExtractPosts(file, local);
      if posts == [] then Outcome(1, out, madeDirectory, None)
      else
        var matching := Matching(posts, word);
        var counts, totals := Tally(Months(matching)), Tally(Months(posts));
        if counts == map[] then Outcome(1, out, madeDirectory, None)
        else Outcome(0, out, madeDirectory, Some(CreateHistogram(counts, totals, normalize)))
  }

  /** `main` succeeds exactly when the file yields a post containing the
      word, and then always draws bars: normalising never divides by zero. */
  lemma MainSucceeds(word: string, output: Option<string>, normalize: bool, file: TextFile,
                     local: int -> Conversion)
    ensures var o := WordFrequencyMain(word, output, normalize, file, local);
      (o.code == 0 <==> !file.NotFound? && Matching(ExtractPosts(file, local), word) != [])
      && (o.code != 0 ==> o.code == 1 && o.chart.None?)
      && (o.code == 0 ==> o.chart.Some? && o.chart.value.Bars?)
  {
    if !file.NotFound? {
      var posts := ExtractPosts(file, local);
      var matching := Matching(posts, word);
      TallyEmpty(Months(matching));
      if posts == [] {
        assert matching == [];
      } else if matching != [] {
        HistogramOfSearch(posts, word, normalize);
      }
    }
  }

  /** A tally is empty exactly when nothing was counted. */
  lemma TallyEmpty<K>(ks: seq<K>)
    ensures Tally(ks) == map[] <==> ks == []
  {
    if ks != [] {
      TallyCounts(ks);
      assert ks[|ks| - 1] in multiset(ks);
    }
  }

}
