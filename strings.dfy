/** Python `str` operations the pipeline relies on, restricted to ASCII:
    whitespace (`str.isspace`), `strip`, `lower`, `split()`, `replace`,
    the `in` substring test, `str(int)` and `int(str)`. */
module Strings {

  datatype Option<T> = None | Some(value: T)

  /** ASCII characters for which Python's `str.isspace` holds. */
  predicate IsSpace(c: char) {
    c == ' ' || c == '\t' || c == '\n' || c == '\r' || c == '\U{000B}' || c == '\U{000C}'
    || c == '\U{001C}' || c == '\U{001D}' || c == '\U{001E}' || c == '\U{001F}'
  }

  predicate IsDigit(c: char) { '0' <= c <= '9' }

  predicate AllDigits(s: string) { forall i :: 0 <= i < |s| ==> IsDigit(s[i]) }

  // ---------------------------------------------------------------- strip

  function StripLeft(s: string): (r: string)
    ensures |r| <= |s| && r == s[|s| - |r|..]
    ensures r == [] || !IsSpace(r[0])
    ensures forall i :: 0 <= i < |s| - |r| ==> IsSpace(s[i])
  {
    if s != [] && IsSpace(s[0]) then StripLeft(s[1..]) else s
  }

  function StripRight(s: string): (r: string)
    ensures |r| <= |s| && r == s[..|r|]
    ensures r == [] || !IsSpace(r[|r| - 1])
    ensures forall i :: |r| <= i < |s| ==> IsSpace(s[i])
  {
    if s != [] && IsSpace(s[|s| - 1]) then StripRight(s[..|s| - 1]) else s
  }

  predicate AllSpace(s: string) {
    forall k :: 0 <= k < |s| ==> IsSpace(s[k])
  }

  /** `r` is the slice of `s` at `i`, with only whitespace before and after it. */
  predicate Surrounded(s: string, r: string, i: int) {
    0 <= i <= |s| - |r| && r == s[i..i + |r|] && AllSpace(s[..i]) && AllSpace(s[i + |r|..])
  }

  /** `s.strip()`: the slice of `s` that neither starts nor ends with
      whitespace once the whitespace around it is dropped. */
  function Strip(s: string): (r: string)
    ensures r == [] || (!IsSpace(r[0]) && !IsSpace(r[|r| - 1]))
    ensures exists i :: Surrounded(s, r, i)
  {
    StripBothSides(s);
    StripRight(StripLeft(s))
  }

  lemma StripBothSides(s: string)
    ensures Surrounded(s, StripRight(StripLeft(s)), |s| - |StripLeft(s)|)
  {
    var l := StripLeft(s);
    var r := StripRight(l);
    LeadingSpace(s, l);
    TrailingSpace(l, r);
    SurroundedOf(s, l, r);
  }

  /** Whitespace dropped from the front of `s` and then from the back of
      what remains leaves `r` surrounded by whitespace in `s`. */
  lemma SurroundedOf(s: string, l: string, r: string)
    requires |l| <= |s| && l == s[|s| - |l|..] && AllSpace(s[..|s| - |l|])
    requires |r| <= |l| && r == l[..|r|] && AllSpace(l[|r|..])
    ensures Surrounded(s, r, |s| - |l|)
  {
    var i := |s| - |l|;
    assert r == s[i..i + |r|];
    assert l[|r|..] == s[i + |r|..];
  }


  /** What `lstrip` drops is whitespace. */
  lemma LeadingSpace(s: string, l: string)
    requires l == StripLeft(s)
    ensures AllSpace(s[..|s| - |l|])
  {
  }

  /** What `rstrip` drops is whitespace. */
  lemma TrailingSpace(l: string, r: string)
    requires r == StripRight(l)
    ensures AllSpace(l[|r|..])
  {
  }

  lemma StripRightNoop(s: string)
    requires s == [] || !IsSpace(s[|s| - 1])
    ensures StripRight(s) == s
  {
  }

  /** A string that neither starts nor ends with whitespace is left alone by `strip`. */
  lemma StripNoop(s: string)
    requires s == [] || (!IsSpace(s[0]) && !IsSpace(s[|s| - 1]))
    ensures Strip(s) == s
  {
    StripRightNoop(s);
  }

  lemma StripIdempotent(s: string)
    ensures Strip(Strip(s)) == Strip(s)
  {
    StripNoop(Strip(s));
  }

  // ---------------------------------------------------------------- lower

  function LowerChar(c: char): (r: char)
    ensures 'A' <= c <= 'Z' ==> r as int == c as int + 32
    ensures !('A' <= c <= 'Z') ==> r == c
  {
    if 'A' <= c <= 'Z' then (c as int + 32) as char else c
  }

  /** `s.lower()` on ASCII letters; other characters are kept. */
  function Lower(s: string): (r: string)
    ensures |r| == |s|
    ensures forall i :: 0 <= i < |s| ==> r[i] == LowerChar(s[i])
  {
    if s == [] then [] else [LowerChar(s[0])] + Lower(s[1..])
  }

  // ---------------------------------------------------------------- substring

  predicate StartsWith(s: string, p: string) {
    |p| <= |s| && s[..|p|] == p
  }

  predicate EndsWith(s: string, suffix: string) {
    |suffix| <= |s| && s[|s| - |suffix|..] == suffix
  }

  /** Python's `sub in s`. */
  predicate Contains(s: string, sub: string)
    decreases |s|
  {
    StartsWith(s, sub) || (s != [] && Contains(s[1..], sub))
  }

  lemma {:induction false} ContainsAt(s: string, sub: string, i: nat)
    requires i + |sub| <= |s| && s[i..i + |sub|] == sub
    ensures Contains(s, sub)
  {
    if i > 0 {
      assert s[1..][i - 1..i - 1 + |sub|] == sub;
      ContainsAt(s[1..], sub, i - 1);
    }
  }

  lemma {:induction false} ContainsWitness(s: string, sub: string) returns (i: nat)
    requires Contains(s, sub)
    ensures i + |sub| <= |s| && s[i..i + |sub|] == sub
  {
    if StartsWith(s, sub) {
      i := 0;
    } else {
      var j := ContainsWitness(s[1..], sub);
      i := j + 1;
      assert s[i..i + |sub|] == s[1..][j..j + |sub|];
    }
  }

  /** A pattern whose first character is absent does not occur. */
  lemma {:induction false} HeadAbsentNotContained(s: string, pat: string)
    requires pat != [] && pat[0] !in s
    ensures !Contains(s, pat)
  {
    if s != [] {
      assert !StartsWith(s, pat) by {
        if |pat| <= |s| {
          assert s[..|pat|][0] == s[0] != pat[0];
        }
      }
      assert pat[0] !in s[1..];
      HeadAbsentNotContained(s[1..], pat);
    }
  }

  predicate OccursAt(s: string, sub: string, i: int) {
    0 <= i && i + |sub| <= |s| && s[i..i + |sub|] == sub
  }

  /** `sub in s` holds exactly when `sub` occurs at some position of `s`. */
  lemma ContainsIff(s: string, sub: string)
    ensures Contains(s, sub) <==> exists i :: OccursAt(s, sub, i)
  {
    if Contains(s, sub) {
      var i := ContainsWitness(s, sub);
      assert OccursAt(s, sub, i);
    }
    if exists i :: OccursAt(s, sub, i) {
      var i :| OccursAt(s, sub, i);
      ContainsAt(s, sub, i);
    }
  }

  // ---------------------------------------------------------------- replace

  /** `s.replace(pat, rep)`: replace non-overlapping occurrences of `pat`,
      scanning from the left. */
  function Replace(s: string, pat: string, rep: string): (r: string)
    requires |pat| > 0
    ensures !Contains(s, pat) ==> r == s
    decreases |s|
  {
    if |s| < |pat| then s
    else if s[..|pat|] == pat then rep + Replace(s[|pat|..], pat, rep)
    else [s[0]] + Replace(s[1..], pat, rep)
  }

  /** Replacement scans from the left: the text before the first occurrence
      of `pat` is copied, that occurrence becomes `rep`, and the rest is
      rewritten afresh, so rewritten occurrences never overlap. With
      `Replace`'s own contract for a text without `pat`, this fixes the
      result on every input. */
  lemma {:induction false} ReplaceFirst(s: string, pat: string, rep: string, i: nat)
    requires |pat| > 0 && OccursAt(s, pat, i)
    requires forall j :: 0 <= j < i ==> !OccursAt(s, pat, j)
    ensures Replace(s, pat, rep) == s[..i] + rep + Replace(s[i + |pat|..], pat, rep)
    decreases i
  {
    if i == 0 {
      assert s[..|pat|] == pat;
    } else {
      var t := s[1..];
      NoOccurrenceInTail(s, pat, i);
      TailSlices(s, i, |pat|);
      ReplaceFirst(t, pat, rep, i - 1);
      ReplaceNoMatchHere(s, pat, rep);
      var tail := Replace(s[i + |pat|..], pat, rep);
      assert t[i - 1 + |pat|..] == s[i + |pat|..];
      assert Replace(t[i - 1 + |pat|..], pat, rep) == tail;
      assert Replace(s, pat, rep) == [s[0]] + (t[..i - 1] + rep + tail);
      ConsSlice(s, i, rep, tail);
    }
  }

  /** Slices of a sequence's tail are slices of the sequence one further on. */
  lemma TailSlices<T>(s: seq<T>, i: nat, n: nat)
    requires 0 < i && i + n <= |s|
    ensures s[1..][i - 1..i - 1 + n] == s[i..i + n]
    ensures s[1..][i - 1 + n..] == s[i + n..]
  {
  }

  /** The first element followed by a prefix of the tail is a prefix. */
  lemma ConsSlice<T>(s: seq<T>, i: nat, xs: seq<T>, ys: seq<T>)
    requires 0 < i <= |s|
    ensures [s[0]] + (s[1..][..i - 1] + xs + ys) == s[..i] + xs + ys
  {
    assert [s[0]] + s[1..][..i - 1] == s[..i];
  }

  /** No occurrence before `i` in `s` means none before `i - 1` in its tail. */
  lemma NoOccurrenceInTail(s: string, pat: string, i: nat)
    requires 0 < i <= |s| && forall j :: 0 <= j < i ==> !OccursAt(s, pat, j)
    ensures forall j :: 0 <= j < i - 1 ==> !OccursAt(s[1..], pat, j)
  {
    forall j | 0 <= j < i - 1
      ensures !OccursAt(s[1..], pat, j)
    {
      assert !OccursAt(s, pat, j + 1);
      if j + |pat| < |s| {
        assert s[1..][j..j + |pat|] == s[j + 1..j + 1 + |pat|];
      }
    }
  }

  /** Where `pat` does not occur at the front of a text long enough to hold
      it, the first character is copied through. */
  lemma ReplaceNoMatchHere(s: string, pat: string, rep: string)
    requires 0 < |pat| <= |s| && !OccursAt(s, pat, 0)
    ensures Replace(s, pat, rep) == [s[0]] + Replace(s[1..], pat, rep)
  {
    assert s[..|pat|] != pat;
  }

  /** A leading character that cannot begin `pat` is copied through. */
  lemma ReplaceSkip(s: string, pat: string, rep: string)
    requires |pat| > 0 && s != [] && s[0] != pat[0]
    ensures Replace(s, pat, rep) == [s[0]] + Replace(s[1..], pat, rep)
  {
  }

  /** A leading occurrence of `pat` is rewritten. */
  lemma ReplaceHit(pat: string, rest: string, rep: string)
    requires |pat| > 0
    ensures Replace(pat + rest, pat, rep) == rep + Replace(rest, pat, rep)
  {
    assert (pat + rest)[..|pat|] == pat;
    assert (pat + rest)[|pat|..] == rest;
  }

  /** Replacing a one-character pattern distributes over concatenation. */
  lemma {:induction false} ReplaceCharConcat(a: string, b: string, c: char, rep: string)
    ensures Replace(a + b, [c], rep) == Replace(a, [c], rep) + Replace(b, [c], rep)
    decreases |a|
  {
    if a == [] {
      assert a + b == b;
    } else {
      assert (a + b)[1..] == a[1..] + b;
      ReplaceCharConcat(a[1..], b, c, rep);
    }
  }

  /** After replacing the character `c` by a text without `d`, the result
      holds no `d` if `d` is `c` itself or was absent to begin with. */
  lemma {:induction false} ReplaceCharAbsent(s: string, c: char, rep: string, d: char)
    requires d !in rep && (d == c || d !in s)
    ensures d !in Replace(s, [c], rep)
    decreases |s|
  {
    if s != [] {
      assert d != c ==> d !in s[1..];
      ReplaceCharAbsent(s[1..], c, rep, d);
    }
  }

  // ---------------------------------------------------------------- split

  function TakeWord(s: string): (w: string)
    ensures |w| <= |s| && w == s[..|w|]
    ensures forall i :: 0 <= i < |w| ==> !IsSpace(w[i])
    ensures |w| < |s| ==> IsSpace(s[|w|])
  {
    if s == [] || IsSpace(s[0]) then [] else [s[0]] + TakeWord(s[1..])
  }

  /** A token of `split()`: non-empty, without whitespace. */
  predicate IsWord(w: string) {
    w != [] && forall i :: 0 <= i < |w| ==> !IsSpace(w[i])
  }

  /** `s.split()`: the maximal runs of non-whitespace characters, in order. */
  function Split(s: string): (ws: seq<string>)
    ensures forall k :: 0 <= k < |ws| ==> IsWord(ws[k])
    decreases |s|
  {
    var t := StripLeft(s);
    if t == [] then []
    else
      var w := TakeWord(t);
      assert IsWord(w);
      [w] + Split(t[|w|..])
  }

  lemma {:induction false} TakeAll(w: string)
    requires forall i :: 0 <= i < |w| ==> !IsSpace(w[i])
    ensures TakeWord(w) == w
  {
    if w != [] {
      TakeAll(w[1..]);
      assert w == [w[0]] + w[1..];
    }
  }

  /** A text without whitespace is one token. */
  lemma SplitWord(w: string)
    requires IsWord(w)
    ensures Split(w) == [w]
  {
    TakeAll(w);
    assert w[|w|..] == [];
  }

  /** Leading whitespace yields no token. */
  lemma SplitLeadingSpace(s: string)
    requires s != [] && IsSpace(s[0])
    ensures Split(s) == Split(s[1..])
  {
  }

  lemma {:induction false} TakeWordBeforeSpace(a: string, t: string)
    requires t != [] && IsSpace(t[0])
    ensures TakeWord(a + t) == TakeWord(a)
    decreases |a|
  {
    if a == [] {
      assert a + t == t;
    } else {
      assert (a + t)[1..] == a[1..] + t;
      TakeWordBeforeSpace(a[1..], t);
    }
  }

  /** Tokens never run across whitespace: the tokens of `a + t`, where `t`
      starts with whitespace, are those of `a` followed by those of `t`. */
  lemma {:induction false} SplitAppend(a: string, t: string)
    requires t != [] && IsSpace(t[0])
    ensures Split(a + t) == Split(a) + Split(t)
    decreases |a|
  {
    if a == [] {
      assert a + t == t;
    } else if IsSpace(a[0]) {
      SplitLeadingSpace(a + t);
      SplitLeadingSpace(a);
      assert (a + t)[1..] == a[1..] + t;
      SplitAppend(a[1..], t);
    } else {
      SplitFromWord(a);
      SplitAppend(a[|TakeWord(a)|..], t);
      SplitAppendWord(a, t);
    }
  }

  /** The step of `SplitAppend` for a text that starts with a token. */
  lemma SplitAppendWord(a: string, t: string)
    requires t != [] && IsSpace(t[0]) && a != [] && !IsSpace(a[0])
    requires |TakeWord(a)| <= |a|
    requires var rest := a[|TakeWord(a)|..]; Split(rest + t) == Split(rest) + Split(t)
    ensures Split(a + t) == Split(a) + Split(t)
  {
    var w := TakeWord(a);
    var rest := a[|w|..];
    TakeWordBeforeSpace(a, t);
    SplitFromWord(a);
    SplitFromWord(a + t);
    DropPrefix(a, t, |w|);
    var x, y, z := Split(rest), Split(t), Split(a + t);
    assert z == [w] + (x + y);
    assert Split(a) == [w] + x;
    ConcatAssoc([w], x, y);
  }

  /** A whitespace character separates and is dropped: the tokens of
      `a + c + b` are those of `a` followed by those of `b`. With `SplitWord`
      and `Split([]) == []`, this fixes `split()` on every text. */
  lemma SplitSpace(a: string, c: char, b: string)
    requires IsSpace(c)
    ensures Split(a + [c] + b) == Split(a) + Split(b)
  {
    assert a + [c] + b == a + ([c] + b);
    SplitAppend(a, [c] + b);
    SplitLeadingSpace([c] + b);
    assert ([c] + b)[1..] == b;
  }

  /** A text that starts with a token: that token, then the tokens of the rest. */
  lemma SplitFromWord(s: string)
    requires s != [] && !IsSpace(s[0])
    ensures |TakeWord(s)| > 0
    ensures Split(s) == [TakeWord(s)] + Split(s[|TakeWord(s)|..])
  {
    assert StripLeft(s) == s;
  }

  // ---------------------------------------------------------------- integers

  function DigitChar(d: nat): (c: char)
    requires d < 10
    ensures IsDigit(c)
  {
    ('0' as int + d) as char
  }

  function DigitValue(c: char): (d: nat)
    requires IsDigit(c)
    ensures d < 10 && DigitChar(d) == c
  {
    c as int - '0' as int
  }

  /** `str(n)` for a natural number: decimal, no leading zeros. */
  function NatToString(n: nat): (s: string)
    ensures s != [] && AllDigits(s)
    ensures |s| > 1 ==> s[0] != '0'
  {
    if n < 10 then [DigitChar(n)] else NatToString(n / 10) + [DigitChar(n % 10)]
  }

  /** The value of a string of decimal digits, as Python's `int` reads it. */
  function DigitsValue(s: string): (n: nat)
    requires AllDigits(s)
  {
    if s == [] then 0 else 10 * DigitsValue(s[..|s| - 1]) + DigitValue(s[|s| - 1])
  }

  lemma {:induction false} NatToStringRoundTrip(n: nat)
    ensures DigitsValue(NatToString(n)) == n
  {
    if n >= 10 {
      var s := NatToString(n);
      assert s[..|s| - 1] == NatToString(n / 10);
      NatToStringRoundTrip(n / 10);
    }
  }

  /** `str(i)`: an optional minus sign, then the decimal digits of `|i|`. */
  function IntToString(i: int): (s: string)
    ensures s != [] && ':' !in s && '"' !in s
    ensures !IsSpace(s[0]) && !IsSpace(s[|s| - 1])
    ensures i >= 0 <==> AllDigits(s)
  {
    if i >= 0 then NatToString(i) else "-" + NatToString(-i)
  }

  /** What `int()` accepts once the whitespace around it is stripped: one
      optional sign, then at least one digit. */
  predicate IntLiteral(t: string) {
    (t != [] && AllDigits(t)) || (|t| >= 2 && (t[0] == '-' || t[0] == '+') && AllDigits(t[1..]))
  }

  /** `int(s)` for ASCII decimal input: surrounding whitespace, one optional
      sign, then at least one digit; `None` where `int` raises. */
  function ParseInt(s: string): (r: Option<int>)
    ensures r.Some? <==> IntLiteral(Strip(s))
    ensures s != [] && AllDigits(s) ==> r == Some(DigitsValue(s))
    ensures var t := Strip(s);
      (t != [] && AllDigits(t) ==> r == Some(DigitsValue(t)))
      && (|t| >= 2 && t[0] == '-' && AllDigits(t[1..]) ==> r == Some(-(DigitsValue(t[1..]) as int)))
      && (|t| >= 2 && t[0] == '+' && AllDigits(t[1..]) ==> r == Some(DigitsValue(t[1..])))
  {
    AllDigitsNoSpace(s);
    ParseLiteral(Strip(s))
  }


  /** `int()` of an already stripped text. */
  function ParseLiteral(t: string): (r: Option<int>)
    ensures r.Some? <==> IntLiteral(t)
    ensures t != [] && AllDigits(t) ==> r == Some(DigitsValue(t))
    ensures |t| >= 2 && t[0] == '-' && AllDigits(t[1..]) ==> r == Some(-(DigitsValue(t[1..]) as int))
    ensures |t| >= 2 && t[0] == '+' && AllDigits(t[1..]) ==> r == Some(DigitsValue(t[1..]))
  {
    if t == [] then None
    else if t[0] == '-' || t[0] == '+' then
      assert !IsDigit(t[0]) && !AllDigits(t);
      var ds := t[1..];
      if ds != [] && AllDigits(ds) then
        var v: int := DigitsValue(ds);
        Some(if t[0] == '-' then -v else v)
      else None
    else if AllDigits(t) then Some(DigitsValue(t))
    else None
  }


  /** A string of digits has no surrounding whitespace to strip. */
  lemma AllDigitsNoSpace(s: string)
    ensures s != [] && AllDigits(s) ==> Strip(s) == s
  {
    if s != [] && AllDigits(s) {
      StripNoop(s);
    }
  }

  /** `int(str(i)) == i`. */
  lemma IntToStringRoundTrip(i: int)
    ensures ParseInt(IntToString(i)) == Some(i)
  {
    var s := IntToString(i);
    StripNoop(s);
    if i >= 0 {
      NatToStringRoundTrip(i);
    } else {
      assert s[1..] == NatToString(-i);
      NatToStringRoundTrip(-i);
    }
  }

  // ---------------------------------------------------------------- split at a character

  /** `s.split(c, 1)` when `c` occurs: the text before its first occurrence
      and the text after it. */
  function SplitFirst(s: string, c: char): (r: (string, string))
    requires c in s
    ensures s == r.0 + [c] + r.1 && c !in r.0
  {
    if s[0] == c then ([], s[1..])
    else
      var t := SplitFirst(s[1..], c);
      ([s[0]] + t.0, t.1)
  }

  lemma {:induction false} SplitFirstUnique(a: string, b: string, c: char)
    requires c !in a
    ensures SplitFirst(a + [c] + b, c) == (a, b)
  {
    if a == [] {
      assert a + [c] + b == [c] + b;
    } else {
      assert (a + [c] + b)[0] == a[0] != c;
      assert (a + [c] + b)[1..] == a[1..] + [c] + b;
      SplitFirstUnique(a[1..], b, c);
      assert [a[0]] + a[1..] == a;
    }
  }

  // ---------------------------------------------------------------- slices

  lemma SliceSplit<T>(xs: seq<T>, k: nat)
    requires k <= |xs|
    ensures xs == xs[..k] + xs[k..]
  {
  }

  lemma DropPrefix<T>(xs: seq<T>, ys: seq<T>, k: nat)
    requires k <= |xs|
    ensures (xs + ys)[k..] == xs[k..] + ys
  {
  }

  lemma ConcatAssoc<T>(xs: seq<T>, ys: seq<T>, zs: seq<T>)
    ensures xs + (ys + zs) == (xs + ys) + zs
  {
  }

  lemma PrefixSnoc<T>(xs: seq<T>, k: nat)
    requires k < |xs|
    ensures xs[..k + 1] == xs[..k] + [xs[k]]
  {
  }
}
