/** The offline merger of extract_texts.py: it reads every `batch_*.json`
    file of the data directory in sorted-name order, re-encodes their posts
    with the line codec, drops repeated lines keeping the first, and sorts
    the rest by the epoch before the first `:`. */
module ExtractTexts {
  import opened Strings
  import opened LineCodec
  import opened Sorting

  /** A member of a JSON object as the extractor meets it: absent, a value
      on which `in` or iteration raises `TypeError` (`null`, a number, a
      boolean), or the object or list the extractor expects. */
  datatype Member<T> = Absent | Unusable | Present(value: T)

  /** What the extractor sees of a JSON file: its `data` member (whose own
      `posts` member may in turn be absent, unusable or a list) and its
      top-level `posts` member. `Unreadable` stands for a file that cannot
      be opened or parsed. */
  datatype JsonFile = Unreadable | Object(data: Member<Member<seq<Post>>>, posts: Member<seq<Post>>)

  /** The posts list the extractor iterates, by the precedence of
      extract_texts.py:27-32; `None` when the file yields nothing, either
      because it has no posts list or because reading one raised
      `TypeError`, which the extractor catches. */
  function PostsOf(f: JsonFile): (r: Option<seq<Post>>)
    ensures f.Unreadable? ==> r.None?
    ensures f.Object? && f.data.Present? && f.data.value.Present? ==> r == Some(f.data.value.value)
    ensures f.Object? && (f.data.Unusable? || (f.data.Present? && f.data.value.Unusable?)) ==> r.None?
    ensures f.Object? && (f.data.Absent? || (f.data.Present? && f.data.value.Absent?)) ==>
      r == (if f.posts.Present? then Some(f.posts.value) else None)
  {
    match f
    case Unreadable => None
    case Object(data, posts) =>
      match data
      case Unusable => None
      case Present(Present(ps)) => Some(ps)
      case Present(Unusable) => None
      case _ =>
        match posts
        case Present(ps) => Some(ps)
        case _ => None
  }

  /** The lines `extract_posts_from_file` returns: the lines encoded before
      any error, which is caught and reported. */
  function FileLines(f: JsonFile): seq<string> {
    match PostsOf(f)
    case None => []
    case Some(ps) => EncodeAll(ps).lines
  }

  method ExtractPostsFromFile(f: JsonFile) returns (lines: seq<string>)
    ensures lines == FileLines(f)
  {
    lines := [];
    match PostsOf(f) {
      case None =>
      case Some(ps) =>
        var error;
        lines, error := CollectLines(ps);
    }
  }

  /** When post `k` is the first to raise, the file still yields the lines of
      the posts before it. */
  lemma PartialOnError(ps: seq<Post>, k: nat)
    requires k < |ps| && EncodePost(ps[k]).Raised? && EncodeAll(ps[..k]).error.None?
    ensures EncodeAll(ps) == Encoded(EncodeAll(ps[..k]).lines, Some(EncodePost(ps[k]).error))
  {
    PrefixSnoc(ps, k);
    EncodeAllSnocRaise(ps[..k], ps[k]);
    SliceSplit(ps, k + 1);
    EncodeAllStopsAtRaise(ps[..k + 1], ps[k + 1..]);
  }

  lemma EncodeAllSnocRaise(ps: seq<Post>, p: Post)
    requires EncodePost(p).Raised? && EncodeAll(ps).error.None?
    ensures EncodeAll(ps + [p]) == Encoded(EncodeAll(ps).lines, Some(EncodePost(p).error))
  {
    assert (ps + [p])[..|ps|] == ps;
  }

  // ---------------------------------------------------------------- the glob

  /** The names `batch_*.json` matches: the prefix and the suffix may not overlap. */
  predicate IsBatchName(name: string) {
    |name| >= 11 && StartsWith(name, "batch_") && EndsWith(name, ".json")
  }

  /** A directory entry: a file name and what the file holds. */
  type Entry = (string, JsonFile)

  function BatchEntries(listing: seq<Entry>): (r: seq<Entry>)
    ensures forall e :: e in r <==> e in listing && IsBatchName(e.0)
  {
    if listing == [] then []
    else
      BatchEntries(listing[..|listing| - 1])
      + (if IsBatchName(listing[|listing| - 1].0) then [listing[|listing| - 1]] else [])
  }

  predicate NameLe(a: Entry, b: Entry) {
    LexLe(a.0, b.0)
  }

  lemma NameLeTotalPreorder()
    ensures TotalPreorder(NameLe)
  {
    forall a: Entry, b: Entry ensures NameLe(a, b) || NameLe(b, a) {
      LexLeTotal(a.0, b.0);
    }
    forall a: Entry, b: Entry, c: Entry | NameLe(a, b) && NameLe(b, c) ensures NameLe(a, c) {
      LexLeTransitive(a.0, b.0, c.0);
    }
  }

  /** `sorted(batch_files)`. */
  function SortedBatchFiles(listing: seq<Entry>): seq<Entry> {
    SortBy(BatchEntries(listing), NameLe)
  }

  /** The batch files are visited in non-decreasing name order, each batch
      file exactly as often as it is listed. */
  lemma SortedBatchFilesOrder(listing: seq<Entry>)
    ensures var fs := SortedBatchFiles(listing);
      (forall i, j :: 0 <= i < j < |fs| ==> LexLe(fs[i].0, fs[j].0))
      && multiset(fs) == multiset(BatchEntries(listing))
      && (forall e :: e in fs <==> e in listing && IsBatchName(e.0))
  {
    NameLeTotalPreorder();
    SortBySorted(BatchEntries(listing), NameLe);
    var fs := SortedBatchFiles(listing);
    forall e ensures e in fs <==> e in BatchEntries(listing) {
      assert e in fs <==> e in multiset(fs);
    }
  }

  /** The lines of the files, concatenated in the given order (`all_posts.extend`). */
  function AllLines(files: seq<Entry>): seq<string> {
    if files == [] then [] else AllLines(files[..|files| - 1]) + FileLines(files[|files| - 1].1)
  }

  // ---------------------------------------------------------------- dedup

  /** The first occurrence of each line, in order of first occurrence. */
  function Dedup(xs: seq<string>): (r: seq<string>)
    ensures |r| <= |xs|
  {
    if xs == [] then []
    else
      var init := xs[..|xs| - 1];
      Dedup(init) + (if xs[|xs| - 1] in init then [] else [xs[|xs| - 1]])
  }

  predicate Distinct(xs: seq<string>) {
    forall i, j :: 0 <= i < j < |xs| ==> xs[i] != xs[j]
  }

  lemma {:induction false} DedupSameLines(xs: seq<string>)
    ensures forall x :: x in Dedup(xs) <==> x in xs
  {
    if xs != [] {
      var init := xs[..|xs| - 1];
      DedupSameLines(init);
      assert xs == init + [xs[|xs| - 1]];
    }
  }

  /** After dedup no line repeats, and every input line is still present. */
  lemma {:induction false} DedupDistinct(xs: seq<string>)
    ensures Distinct(Dedup(xs))
    ensures forall x :: x in Dedup(xs) <==> x in xs
  {
    DedupSameLines(xs);
    if xs != [] {
      var init := xs[..|xs| - 1];
      DedupDistinct(init);
    }
  }

  /** Index of the first occurrence of `x`. */
  function IndexOf(xs: seq<string>, x: string): (i: nat)
    requires x in xs
    ensures i < |xs| && xs[i] == x && x !in xs[..i]
  {
    if xs[0] == x then 0 else 1 + IndexOf(xs[1..], x)
  }

  lemma {:induction false} IndexOfSnoc(xs: seq<string>, y: string, x: string)
    requires x in xs
    ensures IndexOf(xs + [y], x) == IndexOf(xs, x)
  {
    if xs[0] != x {
      assert (xs + [y])[1..] == xs[1..] + [y];
      IndexOfSnoc(xs[1..], y, x);
    }
  }

  /** Every element of `d` occurs in `xs`, and `d` lists them in the order of
      their first occurrences in `xs`. */
  predicate FirstOccurrenceOrder(d: seq<string>, xs: seq<string>) {
    forall i, j :: 0 <= i < j < |d| ==> d[i] in xs && d[j] in xs && IndexOf(xs, d[i]) < IndexOf(xs, d[j])
  }

  /** Lines keep the order of their first occurrences. */
  lemma {:induction false} DedupFirstOccurrenceOrder(xs: seq<string>)
    ensures FirstOccurrenceOrder(Dedup(xs), xs)
  {
    DedupSameLines(xs);
    if xs != [] {
      var init, last := xs[..|xs| - 1], xs[|xs| - 1];
      assert xs == init + [last];
      DedupFirstOccurrenceOrder(init);
      DedupSameLines(init);
      var d0 := Dedup(init);
      var d := Dedup(xs);
      assert d == d0 + (if last in init then [] else [last]);
      forall i, j | 0 <= i < j < |d|
        ensures d[i] in xs && d[j] in xs && IndexOf(xs, d[i]) < IndexOf(xs, d[j])
      {
        assert d[i] == d0[i] && d0[i] in init;
        IndexOfSnoc(init, last, d[i]);
        if j < |d0| {
          assert d[j] == d0[j] && d0[j] in init;
          IndexOfSnoc(init, last, d[j]);
        } else {
          assert d[j] == last && last !in init;
          IndexOfNew(init, last);
        }
      }
    }
  }

  lemma {:induction false} IndexOfNew(xs: seq<string>, x: string)
    requires x !in xs
    ensures IndexOf(xs + [x], x) == |xs|
  {
    if xs != [] {
      assert (xs + [x])[1..] == xs[1..] + [x];
      IndexOfNew(xs[1..], x);
    }
  }

  /** Dedup changes nothing exactly when there is nothing to drop. */
  lemma {:induction false} DedupNoopIff(xs: seq<string>)
    ensures Dedup(xs) == xs <==> Distinct(xs)
  {
    DedupDistinct(xs);
    if Distinct(xs) && xs != [] {
      var init := xs[..|xs| - 1];
      assert Distinct(init);
      DedupNoopIff(init);
      assert xs == init + [xs[|xs| - 1]];
      forall k | 0 <= k < |init| ensures init[k] != xs[|xs| - 1] {
        assert init[k] == xs[k];
      }
      assert xs[|xs| - 1] !in init;
    }
  }

  /** The `seen` / `unique_posts` loop of extract_texts.py:72-77. */
  method DedupLines(all: seq<string>) returns (unique: seq<string>)
    ensures unique == Dedup(all)
  {
    var seen: set<string> := {};
    unique := [];
    var i := 0;
    while i < |all|
      invariant 0 <= i <= |all|
      invariant unique == Dedup(all[..i])
      invariant forall x :: x in seen <==> x in all[..i]
    {
      assert all[..i + 1] == all[..i] + [all[i]];
      if all[i] !in seen {
        seen := seen + {all[i]};
        unique := unique + [all[i]];
      }
      i := i + 1;
    }
    assert all[..|all|] == all;
  }

  // ---------------------------------------------------------------- sort by epoch

  /** The sort key comparison of extract_texts.py:80. */
  predicate EpochLe(a: string, b: string) {
    LineEpoch(a) <= LineEpoch(b)
  }

  lemma EpochLeTotalPreorder()
    ensures TotalPreorder(EpochLe)
  {
  }

  /** Dedup, then the stable sort by epoch: the written corpus. */
  function Corpus(all: seq<string>): seq<string> {
    SortBy(Dedup(all), EpochLe)
  }

  /** The corpus is a permutation of the deduplicated lines, non-decreasing in
      the epoch prefix, with lines of equal epoch left in dedup order. */
  lemma CorpusProperties(all: seq<string>, line: string)
    ensures var c := Corpus(all);
      multiset(c) == multiset(Dedup(all))
      && (forall i, j :: 0 <= i < j < |c| ==> LineEpoch(c[i]) <= LineEpoch(c[j]))
      && Ties(c, EpochLe, line) == Ties(Dedup(all), EpochLe, line)
  {
    EpochLeTotalPreorder();
    SortBySorted(Dedup(all), EpochLe);
    SortByStable(Dedup(all), EpochLe, line);
  }

  /** A permutation of a list without repeats has no repeats. */
  lemma DistinctPermutation(xs: seq<string>, ys: seq<string>)
    requires Distinct(xs) && multiset(xs) == multiset(ys)
    ensures Distinct(ys)
  {
    forall i, j | 0 <= i < j < |ys| ensures ys[i] != ys[j] {
      MultiplicityDistinct(xs, ys[i]);
      assert ys == ys[..j] + ys[j..];
      assert ys[..j][i] == ys[i] && ys[j..][0] == ys[j];
      assert multiset(ys)[ys[j]] == multiset(ys[..j])[ys[j]] + multiset(ys[j..])[ys[j]];
      assert multiset(ys[..j])[ys[i]] >= 1 && multiset(ys[j..])[ys[j]] >= 1;
    }
  }

  lemma {:induction false} MultiplicityDistinct(xs: seq<string>, x: string)
    requires Distinct(xs)
    ensures multiset(xs)[x] <= 1
  {
    if xs != [] {
      var init := xs[..|xs| - 1];
      assert xs == init + [xs[|xs| - 1]];
      assert Distinct(init);
      MultiplicityDistinct(init, x);
      forall k | 0 <= k < |init| ensures init[k] != xs[|xs| - 1] {
        assert init[k] == xs[k];
      }
      assert xs[|xs| - 1] !in init;
    }
  }

  /** The corpus has no repeated line and holds every input line. */
  lemma CorpusDistinct(all: seq<string>)
    ensures Distinct(Corpus(all))
    ensures forall x :: x in Corpus(all) <==> x in all
  {
    DedupDistinct(all);
    DistinctPermutation(Dedup(all), Corpus(all));
    forall x ensures x in Corpus(all) <==> x in Dedup(all) {
      assert x in Corpus(all) <==> x in multiset(Corpus(all));
    }
  }

  /** Merging the merged output again returns it unchanged. */
  lemma CorpusIdempotent(all: seq<string>)
    ensures Corpus(Corpus(all)) == Corpus(all)
  {
    var c := Corpus(all);
    CorpusDistinct(all);
    DedupNoopIff(c);
    EpochLeTotalPreorder();
    SortBySorted(Dedup(all), EpochLe);
    SortBySortedNoop(c, EpochLe);
  }

  /** The `for filepath in sorted(batch_files)` loop of extract_texts.py:66-69. */
  method ReadAll(files: seq<Entry>) returns (all: seq<string>)
    ensures all == AllLines(files)
  {
    all := [];
    var k := 0;
    while k < |files|
      invariant 0 <= k <= |files|
      invariant all == AllLines(files[..k])
    {
      var lines := ExtractPostsFromFile(files[k].1);
      assert files[..k + 1][..k] == files[..k];
      all := all + lines;
      k := k + 1;
    }
    assert files[..|files|] == files;
  }

  // ---------------------------------------------------------------- main

  /** How `main` ends: no data directory, no batch file, or the lines written
      to sidechat_posts.txt. */
  datatype Outcome = NoDataDir | NoBatchFiles | Written(lines: seq<string>)

  function MergeSpec(dataDirExists: bool, listing: seq<Entry>): Outcome {
    if !dataDirExists then NoDataDir
    else if BatchEntries(listing) == [] then NoBatchFiles
    else Written(Corpus(AllLines(SortedBatchFiles(listing))))
  }

  /** `main`: the data directory's entries are given as a listing. */
  method Merge(dataDirExists: bool, listing: seq<Entry>) returns (out: Outcome)
    ensures out == MergeSpec(dataDirExists, listing)
  {
    if !dataDirExists {
      return NoDataDir;
    }
    if BatchEntries(listing) == [] {
      return NoBatchFiles;
    }
    var all := ReadAll(SortedBatchFiles(listing));
    var unique := DedupLines(all);
    out := Written(SortBy(unique, EpochLe));
  }
}
