/** The corpus line format `<epoch>:"<escaped text>"`, shared by the scraper
    (sidechat_scraper.py, `save_batch`) and the re-extraction script
    (extract_texts.py, `extract_posts_from_file`), which carry identical
    copies of the per-post encoder, and the unescaping step that both readers
    (word_frequency.py and sentiment_over_time.py) apply.

    Escaping rewrites only `"`, line feed and carriage return; a backslash is
    written as it is, so texts that contain one need not survive a round trip
    (see `BackslashBreaksInjectivity`). */
module LineCodec {
  import opened Strings
  import opened IsoTime

  /** A member of a JSON object as Python sees it: absent, a string, or some
      other JSON value (`null`, a number, ...). */
  datatype Field = Missing | Str(s: string) | NonString

  /** One element of a page's `posts` list. An object is a post, of which
      only the two members the pipeline reads are kept. A JSON string or list
      answers `'text' in post` by a substring or membership test without
      raising: `hasText` and `hasCreatedAt` are the answers. A scalar
      (`null`, a number, a boolean) makes `in` raise a `TypeError`. */
  datatype Post =
    | Post(text: Field, createdAt: Field)
    | Searchable(hasText: bool, hasCreatedAt: bool)
    | Scalar

  // ---------------------------------------------------------------- escaping

  predicate Escapable(c: char) {
    c == '"' || c == '\n' || c == '\r'
  }

  /** The letter written after the backslash for an escapable character. */
  function Letter(c: char): (l: char)
    requires Escapable(c)
    ensures l != '\\'
  {
    if c == '"' then '"' else if c == '\n' then 'n' else 'r'
  }

  const AllEscapes: set<char> := {'"', '\n', '\r'}

  predicate EscapeSubset(es: set<char>) {
    forall c :: c in es ==> Escapable(c)
  }

  /** The characters of `t` with each member of `es` escaped: the state of
      the text between the three `replace` calls of the encoder. */
  function EscapeSet(t: string, es: set<char>): (r: string)
    requires EscapeSubset(es)
  {
    if t == [] then []
    else (if t[0] in es then ['\\', Letter(t[0])] else [t[0]]) + EscapeSet(t[1..], es)
  }

  /** The encoder's `replace('"', '\\"').replace('\n', '\\n').replace('\r', '\\r')`:
      the three chained replaces escape `"`, line feed and carriage return
      character by character. */
  function Escape(t: string): (r: string)
    ensures r == EscapeSet(t, AllEscapes)
  {
    EscapeNothing(t);
    EscapeStep(t, {}, '"');
    assert {} + {'"'} == {'"'};
    EscapeStep(t, {'"'}, '\n');
    assert {'"'} + {'\n'} == {'"', '\n'};
    EscapeStep(t, {'"', '\n'}, '\r');
    assert {'"', '\n'} + {'\r'} == AllEscapes;
    Replace(Replace(Replace(t, "\"", "\\\""), "\n", "\\n"), "\r", "\\r")
  }

  /** The readers' `replace('\\"', '"').replace('\\n', '\n').replace('\\r', '\r')`:
      every pattern starts with a backslash, so a text without one is read
      as it is. */
  function Unescape(x: string): (r: string)
    ensures '\\' !in x ==> r == x
  {
    if '\\' !in x then
      HeadAbsentNotContained(x, "\\\"");
      HeadAbsentNotContained(x, "\\n");
      HeadAbsentNotContained(x, "\\r");
      Replace(Replace(Replace(x, "\\\"", "\""), "\\n", "\n"), "\\r", "\r")
    else
      Replace(Replace(Replace(x, "\\\"", "\""), "\\n", "\n"), "\\r", "\r")
  }

  lemma {:induction false} EscapeNothing(t: string)
    ensures EscapeSet(t, {}) == t
  {
    if t != [] {
      EscapeNothing(t[1..]);
    }
  }

  lemma ReplaceOneChar(x: char, c: char, rep: string)
    ensures Replace([x], [c], rep) == if x == c then rep else [x]
  {
    if x == c {
      ReplaceHit([c], [], rep);
      assert [c] + [] == [c];
    } else {
      ReplaceSkip([x], [c], rep);
    }
  }

  /** One `replace` of the encoder adds one character to the escaped set. */
  lemma {:induction false} EscapeStep(t: string, es: set<char>, c: char)
    requires EscapeSubset(es) && Escapable(c) && c !in es
    ensures Replace(EscapeSet(t, es), [c], ['\\', Letter(c)]) == EscapeSet(t, es + {c})
  {
    if t != [] {
      var x := t[0];
      var head := if x in es then ['\\', Letter(x)] else [x];
      var rest := EscapeSet(t[1..], es);
      ReplaceCharConcat(head, rest, c, ['\\', Letter(c)]);
      EscapeStep(t[1..], es, c);
      if x in es {
        assert head == ['\\'] + [Letter(x)];
        ReplaceCharConcat(['\\'], [Letter(x)], c, ['\\', Letter(c)]);
        ReplaceOneChar('\\', c, ['\\', Letter(c)]);
        ReplaceOneChar(Letter(x), c, ['\\', Letter(c)]);
      } else {
        ReplaceOneChar(x, c, ['\\', Letter(c)]);
      }
    }
  }

  /** Escaping a character only ever lengthens the text. */
  lemma {:induction false} EscapeSetLength(t: string, es: set<char>)
    requires EscapeSubset(es)
    ensures |EscapeSet(t, es)| >= |t|
  {
    if t != [] {
      EscapeSetLength(t[1..], es);
    }
  }

  /** Escaping never shortens a text; in particular only the empty text
      escapes to the empty string. */
  lemma EscapeKeepsLength(t: string)
    ensures |Escape(t)| >= |t|
  {
    EscapeSetLength(t, AllEscapes);
  }

  /** One `replace` of the readers removes one character from the escaped set,
      provided the original text had no backslash. */
  lemma {:induction false} UnescapeStep(t: string, es: set<char>, c: char)
    requires EscapeSubset(es) && c in es && '\\' !in t
    ensures Replace(EscapeSet(t, es), ['\\', Letter(c)], [c]) == EscapeSet(t, es - {c})
  {
    var pat := ['\\', Letter(c)];
    if t != [] {
      var x := t[0];
      var rest := EscapeSet(t[1..], es);
      assert '\\' !in t[1..];
      UnescapeStep(t[1..], es, c);
      if x == c {
        assert EscapeSet(t, es) == pat + rest;
        ReplaceHit(pat, rest, [c]);
      } else if x in es {
        var s := EscapeSet(t, es);
        assert s == ['\\', Letter(x)] + rest;
        assert s[..2] != pat;
        assert s[1..] == [Letter(x)] + rest;
        ReplaceSkip([Letter(x)] + rest, pat, [c]);
        assert ([Letter(x)] + rest)[1..] == rest;
      } else {
        assert EscapeSet(t, es) == [x] + rest;
        ReplaceSkip([x] + rest, pat, [c]);
        assert ([x] + rest)[1..] == rest;
      }
    }
  }

  /** Decoding undoes encoding for every text without a backslash. */
  lemma UnescapeEscape(t: string)
    requires '\\' !in t
    ensures Unescape(Escape(t)) == t
  {
    UnescapeStep(t, AllEscapes, '"');
    assert AllEscapes - {'"'} == {'\n', '\r'};
    UnescapeStep(t, {'\n', '\r'}, '\n');
    assert {'\n', '\r'} - {'\n'} == {'\r'};
    UnescapeStep(t, {'\r'}, '\r');
    assert {'\r'} - {'\r'} == {};
    EscapeNothing(t);
  }

  lemma {:induction false} EscapeSetNoRaw(t: string, es: set<char>, c: char)
    requires EscapeSubset(es) && c in es && c != '"'
    ensures c !in EscapeSet(t, es)
  {
    if t != [] {
      EscapeSetNoRaw(t[1..], es, c);
    }
  }

  /** An escaped text never holds a raw line feed or carriage return, so an
      encoded line is one line of the corpus file. */
  lemma EscapeHasNoLineBreak(t: string)
    ensures '\n' !in Escape(t) && '\r' !in Escape(t)
  {
    EscapeSetNoRaw(t, AllEscapes, '\n');
    EscapeSetNoRaw(t, AllEscapes, '\r');
  }

  /** A backslash followed by `n` is encoded exactly like a real line feed:
      two different texts give the same line, and the readers turn the first
      into the second. */
  lemma BackslashBreaksInjectivity()
    ensures Escape("\\n") == Escape("\n") == "\\n"
    ensures forall e :: EncodeLine(e, "\\n") == EncodeLine(e, "\n")
    ensures "\\n" != "\n" && Unescape(Escape("\\n")) == "\n"
  {
    assert "\\n"[1..] == "n" && "n"[1..] == [];
    assert EscapeSet("\\n", AllEscapes) == "\\n";
    assert EscapeSet("\n", AllEscapes) == "\\n";
    UnescapeEscape("\n");
  }

  // ---------------------------------------------------------------- lines

  /** `f'{epoch}:"{escaped_text}"'`. */
  function EncodeLine(epoch: int, text: string): (line: string)
    ensures '\n' !in line && '\r' !in line
  {
    EscapeHasNoLineBreak(text);
    IntToString(epoch) + ":\"" + Escape(text) + "\""
  }

  /** Why iso_to_epoch or the text handling raised inside the per-post loop. */
  datatype EncodeError = TextNotString | BadTimestamp | NotAnObject

  /** What the loop body does with one post. */
  datatype PostOutcome = Skipped | Line(line: string) | Raised(error: EncodeError)

  /** The body of the per-post loop (sidechat_scraper.py:130-136,
      extract_texts.py:35-41): both members present, `text` stripped and
      non-empty, `created_at` converted; a non-string `text`, or a
      `created_at` that is not an ISO date-time, raises. `created_at` is
      only read once the stripped text is known to be non-empty. An element
      that is not an object raises on `in` (a scalar) or on `post['text']`
      (a string or list that passes both `in` tests), and is otherwise
      skipped. */
  function EncodePost(p: Post): (r: PostOutcome)
    ensures r.Line? <==> p.Post? && p.text.Str? && p.createdAt.Str? && Strip(p.text.s) != []
                         && IsoToEpoch(p.createdAt.s).Some?
    ensures r.Line? ==> r.line == EncodeLine(IsoToEpoch(p.createdAt.s).value, Strip(p.text.s))
    ensures r.Skipped? <==> (p.Post? && (p.text.Missing? || p.createdAt.Missing? || (p.text.Str? && Strip(p.text.s) == [])))
                            || (p.Searchable? && !(p.hasText && p.hasCreatedAt))
    ensures r == Raised(NotAnObject) <==> p.Scalar? || (p.Searchable? && p.hasText && p.hasCreatedAt)
  {
    if p.Scalar? then Raised(NotAnObject)
    else if p.Searchable? then (if p.hasText && p.hasCreatedAt then Raised(NotAnObject) else Skipped)
    else if p.text.Missing? || p.createdAt.Missing? then Skipped
    else if p.text.NonString? then Raised(TextNotString)
    else
      var text := Strip(p.text.s);
      if text == [] then Skipped
      else if p.createdAt.NonString? then Raised(BadTimestamp)
      else match IsoToEpoch(p.createdAt.s)
        case None => Raised(BadTimestamp)
        case Some(epoch) => Line(EncodeLine(epoch, text))
  }

  /** The lines produced from a list of posts, up to the first post that
      raises, and that post's error. */
  datatype Encoded = Encoded(lines: seq<string>, error: Option<EncodeError>)

  /** The lines of the loop over `posts`, stopping at the first raise. */
  function EncodeAll(posts: seq<Post>): (r: Encoded)
    ensures |r.lines| <= |posts|
  {
    if posts == [] then Encoded([], None)
    else
      var prev := EncodeAll(posts[..|posts| - 1]);
      if prev.error.Some? then prev
      else match EncodePost(posts[|posts| - 1])
        case Skipped => prev
        case Line(l) => Encoded(prev.lines + [l], None)
        case Raised(e) => Encoded(prev.lines, Some(e))
  }

  /** The posts of a list that each yield a line, in order: the reference
      for what `EncodeAll` keeps. */
  function Yielding(posts: seq<Post>): seq<Post> {
    if posts == [] then []
    else Yielding(posts[..|posts| - 1]) + (if EncodePost(posts[|posts| - 1]).Line? then [posts[|posts| - 1]] else [])
  }

  /** When no post raises, the lines are exactly one line per yielding post,
      in post order; when one raises, they are the lines of the posts before it. */
  lemma {:induction false} EncodeAllKeepsOrder(posts: seq<Post>)
    ensures var r := EncodeAll(posts);
      r.error.None? ==>
        |r.lines| == |Yielding(posts)|
        && forall k :: 0 <= k < |r.lines| ==> EncodePost(Yielding(posts)[k]) == Line(r.lines[k])
  {
    if posts != [] {
      var init, last := posts[..|posts| - 1], posts[|posts| - 1];
      EncodeAllKeepsOrder(init);
      var prev, ys := EncodeAll(init), Yielding(init);
      if prev.error.None? && EncodePost(last).Line? {
        assert Yielding(posts) == ys + [last];
        assert EncodeAll(posts).lines == prev.lines + [EncodePost(last).line];
      }
    }
  }

  /** A raise keeps the lines produced before it: the result on a list is the
      result on any longer list whose prefix already raised. */
  lemma {:induction false} EncodeAllStopsAtRaise(posts: seq<Post>, more: seq<Post>)
    requires EncodeAll(posts).error.Some?
    ensures EncodeAll(posts + more) == EncodeAll(posts)
    decreases |more|
  {
    if more != [] {
      var init := more[..|more| - 1];
      assert (posts + more)[..|posts + more| - 1] == posts + init;
      EncodeAllStopsAtRaise(posts, init);
    } else {
      assert posts + more == posts;
    }
  }

  /** The outcome of each post, as the loop body computes it. */
  function Outcomes(posts: seq<Post>): (os: seq<PostOutcome>)
    ensures |os| == |posts|
  {
    seq(|posts|, i requires 0 <= i < |posts| => EncodePost(posts[i]))
  }

  /** `EncodeAll` on outcomes already computed. */
  function Gather(os: seq<PostOutcome>): Encoded {
    if os == [] then Encoded([], None)
    else
      var prev := Gather(os[..|os| - 1]);
      if prev.error.Some? then prev
      else match os[|os| - 1]
        case Skipped => prev
        case Line(l) => Encoded(prev.lines + [l], None)
        case Raised(e) => Encoded(prev.lines, Some(e))
  }

  lemma {:induction false} EncodeAllIsGather(posts: seq<Post>)
    ensures EncodeAll(posts) == Gather(Outcomes(posts))
  {
    if posts != [] {
      var init := posts[..|posts| - 1];
      EncodeAllIsGather(init);
      assert Outcomes(posts)[..|posts| - 1] == Outcomes(init);
    }
  }

  lemma GatherPrefix(os: seq<PostOutcome>, i: nat)
    requires i < |os|
    ensures Gather(os[..i + 1]) ==
      var prev := Gather(os[..i]);
      if prev.error.Some? then prev
      else match os[i]
        case Skipped => prev
        case Line(l) => Encoded(prev.lines + [l], None)
        case Raised(e) => Encoded(prev.lines, Some(e))
  {
    assert os[..i + 1][..i] == os[..i];
  }

  lemma {:induction false} GatherStopsAtRaise(os: seq<PostOutcome>, more: seq<PostOutcome>)
    requires Gather(os).error.Some?
    ensures Gather(os + more) == Gather(os)
    decreases |more|
  {
    if more != [] {
      var init := more[..|more| - 1];
      assert (os + more)[..|os + more| - 1] == os + init;
      GatherStopsAtRaise(os, init);
    } else {
      assert os + more == os;
    }
  }

  /** The per-post loop, appending each line as the source does. */
  method CollectLines(posts: seq<Post>) returns (lines: seq<string>, error: Option<EncodeError>)
    ensures Encoded(lines, error) == EncodeAll(posts)
  {
    ghost var os := Outcomes(posts);
    lines, error := [], None;
    var i := 0;
    while i < |posts| && error.None?
      invariant 0 <= i <= |posts|
      invariant Encoded(lines, error) == Gather(os[..i])
    {
      var out := EncodePost(posts[i]);
      assert out == os[i];
      GatherPrefix(os, i);
      if out.Line? {
        lines := lines + [out.line];
      } else if out.Raised? {
        error := Some(out.error);
      }
      i := i + 1;
    }
    if error.Some? {
      GatherStopsAtRaise(os[..i], os[i..]);
      assert os[..i] + os[i..] == os;
    } else {
      assert os[..i] == os;
    }
    EncodeAllIsGather(posts);
  }

  // ---------------------------------------------------------------- the epoch prefix

  /** `int(line.split(':', 1)[0])`, the sort key of extract_texts.py:80. A
      line without an integer before its first `:` would make the source
      raise; no line the encoder writes has that shape (`EpochOfEncodedLine`),
      and the key is then 0. */
  function LineEpoch(line: string): int {
    if ':' in line then
      match ParseInt(SplitFirst(line, ':').0)
      case Some(v) => v
      case None => 0
    else 0
  }

  /** Splitting an encoded line at its first `:` recovers the epoch it was built from. */
  lemma EpochOfEncodedLine(epoch: int, text: string)
    ensures SplitFirst(EncodeLine(epoch, text), ':') == (IntToString(epoch), "\"" + Escape(text) + "\"")
    ensures LineEpoch(EncodeLine(epoch, text)) == epoch
  {
    var d := IntToString(epoch);
    var line := EncodeLine(epoch, text);
    assert line == d + [':'] + ("\"" + Escape(text) + "\"");
    SplitFirstUnique(d, "\"" + Escape(text) + "\"", ':');
    IntToStringRoundTrip(epoch);
  }
}
