/** The Sidechat scraper of sidechat_scraper.py: configuration from the
    environment, one request per page with cursor pagination, and for every
    non-empty page a batch JSON file, lines appended to the live corpus file,
    and a metadata file written at the start and at the end of the run.

    The HTTP service is a scripted sequence of responses, one consumed per
    request (a request past its end fails); `datetime.now()` is a clock
    whose i-th reading is `clock(i)`; files are values in the object's
    fields; the console output is not modelled. */
module Scraper {
  import opened Strings
  import opened LineCodec

  // ---------------------------------------------------------------- settings

  datatype Settings = Settings(
    authToken: string,
    groupId: string,
    outputDir: string,
    postType: string,
    initialCursor: Option<string>,
    saveJson: bool,
    saveCleaned: bool,
    requestInterval: int)

  /** Why `__init__` raises: `int()` of REQUEST_INTERVAL fails (line 32), or
      a required variable is unset or empty (lines 34-37). */
  datatype SettingsError = BadRequestInterval | MissingAuthToken | MissingGroupId

  datatype Loaded = Configured(settings: Settings) | Invalid(error: SettingsError)

  /** `os.getenv(key)`. */
  function Getenv(env: map<string, string>, key: string): Option<string> {
    if key in env then Some(env[key]) else None
  }

  /** `os.getenv(key, default)`. */
  function GetenvOr(env: map<string, string>, key: string, default: string): string {
    if key in env then env[key] else default
  }

  /** Python truthiness of an optional string: present and non-empty. */
  predicate Truthy(v: Option<string>) {
    v.Some? && v.value != []
  }

  /** `value.lower() == "true"`. */
  predicate IsTrue(value: string) {
    Lower(value) == "true"
  }

  /** The settings `__init__` reads, or the error it raises, checked in the
      order of sidechat_scraper.py:25-37. */
  function LoadSettings(env: map<string, string>): (r: Loaded)
    ensures r == Invalid(BadRequestInterval) <==> ParseInt(GetenvOr(env, "REQUEST_INTERVAL", "1000")).None?
    ensures r == Invalid(MissingAuthToken) <==>
      ParseInt(GetenvOr(env, "REQUEST_INTERVAL", "1000")).Some? && !Truthy(Getenv(env, "SIDECHAT_AUTH_TOKEN"))
    ensures r == Invalid(MissingGroupId) <==>
      ParseInt(GetenvOr(env, "REQUEST_INTERVAL", "1000")).Some? && Truthy(Getenv(env, "SIDECHAT_AUTH_TOKEN"))
      && !Truthy(Getenv(env, "SIDECHAT_GROUP_ID"))
    ensures r.Configured? ==>
      r.settings.authToken != [] && r.settings.groupId != []
      && Some(r.settings.authToken) == Getenv(env, "SIDECHAT_AUTH_TOKEN")
      && Some(r.settings.groupId) == Getenv(env, "SIDECHAT_GROUP_ID")
      && Some(r.settings.requestInterval) == ParseInt(GetenvOr(env, "REQUEST_INTERVAL", "1000"))
  {
    var interval := ParseInt(GetenvOr(env, "REQUEST_INTERVAL", "1000"));
    var token := Getenv(env, "SIDECHAT_AUTH_TOKEN");
    var group := Getenv(env, "SIDECHAT_GROUP_ID");
    if interval.None? then Invalid(BadRequestInterval)
    else if !Truthy(token) then Invalid(MissingAuthToken)
    else if !Truthy(group) then Invalid(MissingGroupId)
    else Configured(Settings(
      token.value,
      group.value,
      GetenvOr(env, "OUTPUT_DIR", "data"),
      GetenvOr(env, "POST_TYPE", "hot"),
      Getenv(env, "INITIAL_CURSOR"),
      IsTrue(GetenvOr(env, "SAVE_JSON", "true")),
      IsTrue(GetenvOr(env, "SAVE_CLEANED", "true")),
      interval.value))
  }

  lemma ParseThousand()
    ensures ParseInt("1000") == Some(1000)
  {
    assert NatToString(1) == "1";
    assert NatToString(10) == "10";
    assert NatToString(100) == "100";
    assert NatToString(1000) == "1000";
    IntToStringRoundTrip(1000);
  }

  /** With only the two required variables set, every other setting takes
      its default: output to `data`, `hot` posts, no initial cursor, both
      output formats on, one request per second. */
  lemma DefaultSettings(token: string, group: string)
    requires token != [] && group != []
    ensures LoadSettings(map["SIDECHAT_AUTH_TOKEN" := token, "SIDECHAT_GROUP_ID" := group])
      == Configured(Settings(token, group, "data", "hot", None, true, true, 1000))
  {
    var env := map["SIDECHAT_AUTH_TOKEN" := token, "SIDECHAT_GROUP_ID" := group];
    RequiredOnly(token, group);
    ParseThousand();
    LowerTrue();
  }

  /** Looking up the environment that holds only the two required variables. */
  lemma RequiredOnly(token: string, group: string)
    ensures var env := map["SIDECHAT_AUTH_TOKEN" := token, "SIDECHAT_GROUP_ID" := group];
      GetenvOr(env, "REQUEST_INTERVAL", "1000") == "1000"
      && Getenv(env, "SIDECHAT_AUTH_TOKEN") == Some(token)
      && Getenv(env, "SIDECHAT_GROUP_ID") == Some(group)
      && GetenvOr(env, "OUTPUT_DIR", "data") == "data"
      && GetenvOr(env, "POST_TYPE", "hot") == "hot"
      && Getenv(env, "INITIAL_CURSOR") == None
      && GetenvOr(env, "SAVE_JSON", "true") == "true"
      && GetenvOr(env, "SAVE_CLEANED", "true") == "true"
  {
    var env := map["SIDECHAT_AUTH_TOKEN" := token, "SIDECHAT_GROUP_ID" := group];
    assert env.Keys == {"SIDECHAT_AUTH_TOKEN", "SIDECHAT_GROUP_ID"};
  }

  lemma LowerTrue()
    ensures IsTrue("true")
  {
    assert Lower("true") == "true";
  }

  /** `MAX_BATCHES` as `main` reads it: unset or empty means no limit
      (`Some(None)`); otherwise `int()` of it, `None` when that raises. */
  function MaxBatchesSetting(env: map<string, string>): (r: Option<Option<int>>)
    ensures !Truthy(Getenv(env, "MAX_BATCHES")) ==> r == Some(None)
    ensures Truthy(Getenv(env, "MAX_BATCHES")) ==>
      (r.None? <==> ParseInt(env["MAX_BATCHES"]).None?)
      && (r.Some? ==> r.value == ParseInt(env["MAX_BATCHES"]))
  {
    var v := Getenv(env, "MAX_BATCHES");
    if !Truthy(v) then Some(None)
    else match ParseInt(v.value)
      case None => None
      case Some(m) => Some(Some(m))
  }

  // ---------------------------------------------------------------- the service

  /** A response body as the loop reads it: the `posts` member (absent, or a
      list; a JSON `null` reads like an empty list) and the `cursor` member. */
  datatype Body = Body(posts: Option<seq<Post>>, cursor: Option<string>)

  /** `{}`, which `make_request` returns after a failure. */
  const EmptyBody := Body(None, None)

  /** One scripted answer of the service: a request error (connection error or
      error status), a successful status whose body is not JSON, or a body. */
  datatype Response = Failed | Unparsable | Received(body: Body)

  function ResponseAt(network: seq<Response>, i: nat): Response {
    if i < |network| then network[i] else Failed
  }

  /** The response passed `raise_for_status`, so the rate-limit sleep ran. */
  predicate Transported(r: Response) {
    !r.Failed?
  }

  function BodyOf(r: Response): Body {
    if r.Received? then r.body else EmptyBody
  }

  /** What the run does that is visible from outside, in order. */
  datatype Event =
    | Get(cursor: Option<string>)      // a request, with its `cursor` parameter if sent
    | Sleep(milliseconds: int)
    | Save(batchNumber: nat, cursor: Option<string>)
    | Append(lines: seq<string>)       // lines appended to the corpus file

  /** The `cursor` request parameter: sent only when the cursor is truthy. */
  function CursorParam(cursor: Option<string>): (p: Option<string>)
    ensures p.Some? <==> Truthy(cursor)
    ensures p.Some? ==> p == cursor
  {
    if Truthy(cursor) then cursor else None
  }

  /** The events of one `make_request`: the request, then a sleep when the
      response got through and the interval is positive (lines 77-84). */
  function RequestEvents(s: Settings, r: Response, cursor: Option<string>): seq<Event> {
    [Get(CursorParam(cursor))] + (if Transported(r) && s.requestInterval > 0 then [Sleep(s.requestInterval)] else [])
  }

  // ---------------------------------------------------------------- files

  datatype BatchMeta = BatchMeta(
    batchNumber: nat, timestamp: string, groupId: string, postType: string,
    cursor: Option<string>, totalPosts: nat)

  /** A batch JSON file: its name, its `metadata` object and its `data`. */
  datatype BatchFile = BatchFile(name: string, metadata: BatchMeta, data: Body)

  datatype Completion = Completion(endTime: string, totalBatches: int, totalPosts: nat)

  /** scrape_metadata.json; `completion` holds the members added at the end. */
  datatype Metadata = Metadata(
    startTime: string, groupId: string, postType: string, authTokenLength: nat,
    completion: Option<Completion>)

  /** Everything the scraper changes: the corpus file's lines, the batch files
      written, the metadata file, the events, and how many clock readings and
      scripted responses have been used. */
  datatype World = World(
    textFile: seq<string>,
    batchFiles: seq<BatchFile>,
    metadata: Option<Metadata>,
    trace: seq<Event>,
    ticks: nat,
    served: nat)

  function Zeros(n: nat): (z: string)
    ensures |z| == n && AllDigits(z)
    ensures forall i :: 0 <= i < n ==> z[i] == '0'
  {
    if n == 0 then [] else Zeros(n - 1) + ['0']
  }

  lemma {:induction false} ZerosValue(n: nat)
    ensures DigitsValue(Zeros(n)) == 0
  {
    if n > 0 {
      assert Zeros(n)[..n - 1] == Zeros(n - 1);
      ZerosValue(n - 1);
    }
  }

  lemma {:induction false} LeadingZerosValue(n: nat, d: string)
    requires AllDigits(d)
    ensures AllDigits(Zeros(n) + d) && DigitsValue(Zeros(n) + d) == DigitsValue(d)
    decreases |d|
  {
    var s := Zeros(n) + d;
    if d == [] {
      assert s == Zeros(n);
      ZerosValue(n);
    } else {
      assert s[..|s| - 1] == Zeros(n) + d[..|d| - 1];
      LeadingZerosValue(n, d[..|d| - 1]);
    }
  }

  /** `f"{n:04d}"`: the decimal digits of `n`, zero-padded to at least four. */
  function Pad4(n: nat): (r: string)
    ensures |r| == if |NatToString(n)| < 4 then 4 else |NatToString(n)|
    ensures AllDigits(r) && DigitsValue(r) == n
    ensures |r| > 4 ==> r[0] != '0'
  {
    var d := NatToString(n);
    LeadingZerosValue(if |d| < 4 then 4 - |d| else 0, d);
    NatToStringRoundTrip(n);
    Zeros(if |d| < 4 then 4 - |d| else 0) + d
  }

  /** `timestamp.replace(':', '-').replace('.', '_')`. */
  function FileStamp(timestamp: string): string {
    Replace(Replace(timestamp, ":", "-"), ".", "_")
  }

  /** The batch file name of sidechat_scraper.py:119. */
  function BatchFileName(n: nat, timestamp: string): string {
    "batch_" + Pad4(n) + "_" + FileStamp(timestamp) + ".json"
  }

  /** The time stamp in a batch file name has no `:` and no `.`. */
  lemma FileStampClean(timestamp: string)
    ensures ':' !in FileStamp(timestamp) && '.' !in FileStamp(timestamp)
  {
    var once := Replace(timestamp, ":", "-");
    ReplaceCharAbsent(timestamp, ':', "-", ':');
    ReplaceCharAbsent(once, '.', "_", ':');
    ReplaceCharAbsent(once, '.', "_", '.');
  }

  /** Batch `n`'s file name: `batch_`, at least four digits that read back
      as `n`, `_`, the cleaned time stamp and `.json`. */
  lemma BatchFileNameShape(n: nat, timestamp: string)
    ensures var name, k := BatchFileName(n, timestamp), |Pad4(n)|;
      k >= 4 && |name| == 12 + k + |FileStamp(timestamp)|
      && StartsWith(name, "batch_") && EndsWith(name, ".json")
      && AllDigits(name[6..6 + k]) && DigitsValue(name[6..6 + k]) == n && name[6 + k] == '_'
      && name[7 + k..|name| - 5] == FileStamp(timestamp)
  {
    var p, f := Pad4(n), FileStamp(timestamp);
    var name := BatchFileName(n, timestamp);
    var k := |p|;
    assert name == "batch_" + p + "_" + f + ".json";
    assert name[6..6 + k] == p;
    assert name[7 + k..|name| - 5] == f;
  }

  function PostsIn(data: Body): seq<Post> {
    if data.posts.Some? then data.posts.value else []
  }

  function BatchFileFor(s: Settings, n: nat, timestamp: string, cursor: Option<string>, data: Body): BatchFile {
    BatchFile(BatchFileName(n, timestamp),
              BatchMeta(n, timestamp, s.groupId, s.postType, cursor, |PostsIn(data)|),
              data)
  }

  function AppendEvents(lines: seq<string>): seq<Event> {
    if lines == [] then [] else [Append(lines)]
  }

  // ---------------------------------------------------------------- one request, one save

  /** `make_request(cursor)`: the world after it and the body it returns. */
  function Request(s: Settings, network: seq<Response>, w: World, cursor: Option<string>): (r: (World, Body))
    ensures r.0.served == w.served + 1
    ensures r.1.posts.Some? ==> w.served < |network| && ResponseAt(network, w.served).Received?
  {
    var resp := ResponseAt(network, w.served);
    (w.(trace := w.trace + RequestEvents(s, resp, cursor), served := w.served + 1), BodyOf(resp))
  }

  /** `save_batch(data, n, cursor)`: the world after it, and the error raised
      while encoding its posts, if any. The JSON file is written before the
      lines are encoded, so a raise leaves it in place but appends nothing. */
  function SaveStep(s: Settings, clock: nat -> string, w: World, data: Body, n: nat, cursor: Option<string>)
    : (r: (World, Option<EncodeError>))
  {
    var ts := clock(w.ticks);
    var files := if s.saveJson then w.batchFiles + [BatchFileFor(s, n, ts, cursor, data)] else w.batchFiles;
    var w1 := w.(batchFiles := files, ticks := w.ticks + 1, trace := w.trace + [Save(n, cursor)]);
    var enc := EncodeAll(PostsIn(data));
    if !s.saveCleaned then (w1, None)
    else if enc.error.Some? then (w1, enc.error)
    else (w1.(textFile := w1.textFile + enc.lines, trace := w1.trace + AppendEvents(enc.lines)), None)
  }

  // ---------------------------------------------------------------- the loop

  /** The fixed inputs of one run. */
  datatype Env = Env(settings: Settings, network: seq<Response>, clock: nat -> string, maxBatches: Option<int>)

  /** A call of `save_batch` the loop made, with the clock reading it used. */
  datatype Saved = Saved(number: nat, cursor: Option<string>, timestamp: string, data: Body)

  /** The loop's variables (`cursor`, `batch_number`, `total_posts`), the
      world, and the log of saves and of the cursors passed to `make_request`. */
  datatype LoopState = LoopState(
    world: World, cursor: Option<string>, batch: nat, total: nat,
    saves: seq<Saved>, requested: seq<Option<string>>)

  /** Why the loop ended; `Crash` is an exception out of `save_batch`. */
  datatype Stop = BatchLimit | NoData | NoPosts | CursorEnd | Crash(error: EncodeError)

  datatype Step = Next(state: LoopState) | Done(state: LoopState, stop: Stop)

  /** `max_batches and batch_number > max_batches`: 0 and `None` mean no cap. */
  predicate Capped(maxBatches: Option<int>, batch: int) {
    maxBatches.Some? && maxBatches.value != 0 && batch > maxBatches.value
  }

  /** `not next_cursor or next_cursor == cursor`. */
  predicate CursorEnds(next: Option<string>, cursor: Option<string>) {
    !Truthy(next) || next == cursor
  }

  /** One pass through the body of `while True` (lines 173-198). */
  function Round(env: Env, st: LoopState): (r: Step)
    ensures r.Next? ==> st.world.served < |env.network| && r.state.world.served == st.world.served + 1
  {
    if Capped(env.maxBatches, st.batch) then Done(st, BatchLimit)
    else
      var (w1, data) := Request(env.settings, env.network, st.world, st.cursor);
      var st1 := st.(world := w1, requested := st.requested + [st.cursor]);
      if data.posts.None? then Done(st1, NoData)
      else if data.posts.value == [] then Done(st1, NoPosts)
      else
        var (w2, err) := SaveStep(env.settings, env.clock, w1, data, st.batch, st.cursor);
        var st2 := st1.(world := w2, saves := st.saves + [Saved(st.batch, st.cursor, env.clock(w1.ticks), data)]);
        if err.Some? then Done(st2, Crash(err.value))
        else
          var st3 := st2.(total := st.total + |data.posts.value|);
          if CursorEnds(data.cursor, st.cursor) then Done(st3, CursorEnd)
          else Next(st3.(cursor := data.cursor, batch := st.batch + 1))
  }

  /** The loop from state `st` to its end. Every pass that does not end the
      loop consumes one scripted response, so the loop ends. */
  function Loop(env: Env, st: LoopState): (r: (LoopState, Stop))
    decreases |env.network| - st.world.served
  {
    match Round(env, st)
    case Done(st', stop) => (st', stop)
    case Next(st') => Loop(env, st')
  }

  /** The outcome of `scrape_all_posts`. */
  datatype Run = Run(world: World, saves: seq<Saved>, requested: seq<Option<string>>, stop: Stop)

  function StartMetadata(s: Settings, startTime: string): Metadata {
    Metadata(startTime, s.groupId, s.postType, |s.authToken|, None)
  }

  /** The world once the first metadata file is written (lines 162-170). */
  function Started(env: Env, w: World): World {
    w.(metadata := Some(StartMetadata(env.settings, env.clock(w.ticks))), ticks := w.ticks + 1)
  }

  function InitialState(env: Env, w: World): LoopState {
    LoopState(Started(env, w), env.settings.initialCursor, 1, 0, [], [])
  }

  /** `scrape_all_posts(max_batches)`: the metadata file, the loop, and the
      completed metadata, which a raise out of `save_batch` skips. */
  function Scrape(env: Env, w: World): Run {
    var (st, stop) := Loop(env, InitialState(env, w));
    if stop.Crash? then Run(st.world, st.saves, st.requested, stop)
    else
      var start := StartMetadata(env.settings, env.clock(w.ticks));
      var done := Completion(env.clock(st.world.ticks), st.batch as int - 1, st.total);
      Run(st.world.(metadata := Some(start.(completion := Some(done))), ticks := st.world.ticks + 1),
          st.saves, st.requested, stop)
  }

  // ---------------------------------------------------------------- the loop's invariant

  /** The events of one completed pass that saved `sv` and did not raise. */
  function RoundEvents(s: Settings, sv: Saved): seq<Event> {
    RequestEvents(s, Received(sv.data), sv.cursor) + [Save(sv.number, sv.cursor)]
    + (if s.saveCleaned then AppendEvents(EncodeAll(PostsIn(sv.data)).lines) else [])
  }

  /** The lines a save that did not raise appended to the corpus file. */
  function SaveLines(s: Settings, sv: Saved): seq<string> {
    if s.saveCleaned then EncodeAll(PostsIn(sv.data)).lines else []
  }

  /** The effect on the world of one completed pass that saved `sv`. */
  function ApplySave(s: Settings, w: World, sv: Saved): World {
    w.(textFile := w.textFile + SaveLines(s, sv),
       batchFiles := w.batchFiles + (if s.saveJson then [BatchFileFor(s, sv.number, sv.timestamp, sv.cursor, sv.data)] else []),
       trace := w.trace + RoundEvents(s, sv),
       ticks := w.ticks + 1,
       served := w.served + 1)
  }

  /** The world after the completed passes that saved `saves`, from `w0`. */
  function After(s: Settings, w0: World, saves: seq<Saved>): (w: World)
    ensures w.ticks == w0.ticks + |saves| && w.served == w0.served + |saves|
    ensures w.metadata == w0.metadata
  {
    if saves == [] then w0
    else ApplySave(s, After(s, w0, saves[..|saves| - 1]), saves[|saves| - 1])
  }

  /** The cursor passed to the request of pass `k`: the initial cursor, then
      the cursor of the previous page. */
  function CursorBefore(initial: Option<string>, saves: seq<Saved>, k: nat): Option<string>
    requires k <= |saves|
  {
    if k == 0 then initial else saves[k - 1].data.cursor
  }

  /** Save `k` came from pass `k`: number `k + 1`, the cursor of the previous
      page, clock reading and response number `k` from the start of the loop,
      a non-empty `posts` list, and a batch number under the cap. */
  predicate SavedAt(env: Env, w0: World, saves: seq<Saved>, k: nat)
    requires k < |saves|
  {
    var sv := saves[k];
    sv.number == k + 1
    && sv.cursor == CursorBefore(env.settings.initialCursor, saves, k)
    && sv.timestamp == env.clock(w0.ticks + k)
    && ResponseAt(env.network, w0.served + k) == Received(sv.data)
    && sv.data.posts.Some? && sv.data.posts.value != []
    && !Capped(env.maxBatches, k + 1)
  }

  /** Encoding the saved posts does not raise (or is switched off). */
  predicate NoRaise(s: Settings, sv: Saved) {
    !s.saveCleaned || EncodeAll(PostsIn(sv.data)).error.None?
  }

  /** The pass that saved `sv` went on to the next page. */
  predicate Continued(s: Settings, sv: Saved) {
    NoRaise(s, sv) && !CursorEnds(sv.data.cursor, sv.cursor)
  }

  function PostCount(saves: seq<Saved>): nat {
    if saves == [] then 0 else PostCount(saves[..|saves| - 1]) + |PostsIn(saves[|saves| - 1].data)|
  }

  /** What holds at the top of `while True`, relative to the world `w0` the
      loop started from. */
  predicate LoopInv(env: Env, w0: World, st: LoopState) {
    SavesInv(env, w0, st)
    && st.total == PostCount(st.saves)
    && st.world == After(env.settings, w0, st.saves)
  }

  /** The part of `LoopInv` about the saves, the requests and the counters. */
  predicate SavesInv(env: Env, w0: World, st: LoopState) {
    var S := st.saves;
    |st.requested| == |S| && st.batch == |S| + 1
    && (forall k :: 0 <= k < |S| ==> SavedAt(env, w0, S, k))
    && (forall k :: 0 <= k < |S| ==> st.requested[k] == S[k].cursor && Continued(env.settings, S[k]))
    && st.cursor == CursorBefore(env.settings.initialCursor, S, |S|)
    && st.world.ticks == w0.ticks + |S| && st.world.served == w0.served + |S|
  }

  lemma InitialLoopInv(env: Env, w: World)
    ensures LoopInv(env, Started(env, w), InitialState(env, w))
  {
  }

  lemma SnocPrefix<T>(xs: seq<T>, x: T)
    ensures (xs + [x])[..|xs|] == xs && (xs + [x])[|xs|] == x
  {
  }

  /** A pass that does not end the loop keeps the invariant. */
  lemma RoundKeepsInv(env: Env, w0: World, st: LoopState)
    requires LoopInv(env, w0, st) && Round(env, st).Next?
    ensures LoopInv(env, w0, Round(env, st).state)
  {
    var s := env.settings;
    var (w1, data) := Request(s, env.network, st.world, st.cursor);
    var (w2, err) := SaveStep(s, env.clock, w1, data, st.batch, st.cursor);
    var sv := Saved(st.batch, st.cursor, env.clock(w1.ticks), data);
    var st' := st.(world := w2, requested := st.requested + [st.cursor], saves := st.saves + [sv],
                   total := st.total + |data.posts.value|, cursor := data.cursor, batch := st.batch + 1);
    assert Round(env, st) == Next(st');
    SaveApplies(s, env.clock, st.world, w1, data, st.batch, st.cursor);
    NextSavesInv(env, w0, st, w1, data, st');
    NextWorld(env, w0, st, sv, st');
  }

  /** The saves, the requests and the counters after a pass that saved a
      page, did not raise and moved on to a new cursor. */
  lemma NextSavesInv(env: Env, w0: World, st: LoopState, w1: World, data: Body, st': LoopState)
    requires SavesInv(env, w0, st) && !Capped(env.maxBatches, st.batch)
    requires (w1, data) == Request(env.settings, env.network, st.world, st.cursor)
    requires data.posts.Some? && data.posts.value != []
    requires var sv := Saved(st.batch, st.cursor, env.clock(w1.ticks), data);
      Continued(env.settings, sv)
      && st'.saves == st.saves + [sv] && st'.requested == st.requested + [st.cursor]
      && st'.cursor == data.cursor && st'.batch == st.batch + 1
      && st'.world.ticks == st.world.ticks + 1 && st'.world.served == st.world.served + 1
    ensures SavesInv(env, w0, st')
  {
    var S := st.saves;
    var sv := Saved(st.batch, st.cursor, env.clock(w1.ticks), data);
    var S' := st'.saves;
    SnocPrefix(S, sv);
    SavedSoFar(env, w0, st, w1, data);
    forall k | 0 <= k < |S'|
      ensures st'.requested[k] == S'[k].cursor && Continued(env.settings, S'[k])
    {
      if k < |S| {
        assert S'[k] == S[k] && st'.requested[k] == st.requested[k];
      }
    }
  }

  /** The world and the post count after a pass that saved `sv` without
      raising. */
  lemma NextWorld(env: Env, w0: World, st: LoopState, sv: Saved, st': LoopState)
    requires LoopInv(env, w0, st)
    requires st'.saves == st.saves + [sv] && st'.world == ApplySave(env.settings, st.world, sv)
    requires st'.total == st.total + |PostsIn(sv.data)|
    ensures st'.total == PostCount(st'.saves) && st'.world == After(env.settings, w0, st'.saves)
  {
    SnocPrefix(st.saves, sv);
  }

  /** The world after the saves `S`, then a request that found no page. */
  function AfterEmptyRequest(env: Env, w0: World, S: seq<Saved>): World {
    var w := After(env.settings, w0, S);
    var resp := ResponseAt(env.network, w0.served + |S|);
    w.(trace := w.trace + RequestEvents(env.settings, resp, CursorBefore(env.settings.initialCursor, S, |S|)),
       served := w.served + 1)
  }

  /** The world when `save_batch` raised while encoding the last save of
      `S`: its JSON file is written and its lines are not appended. */
  function AfterCrash(env: Env, w0: World, S: seq<Saved>): World
    requires S != []
  {
    var s := env.settings;
    var sv := S[|S| - 1];
    var w := After(s, w0, S[..|S| - 1]);
    w.(batchFiles := w.batchFiles + (if s.saveJson then [BatchFileFor(s, sv.number, sv.timestamp, sv.cursor, sv.data)] else []),
       trace := w.trace + RequestEvents(s, Received(sv.data), sv.cursor) + [Save(sv.number, sv.cursor)],
       ticks := w.ticks + 1,
       served := w.served + 1)
  }

  /** Request `k` (from the start of the loop) carried the cursor of the
      page before save `k`, and batch `k + 1` was under the cap. */
  predicate RequestedAt(env: Env, S: seq<Saved>, requested: seq<Option<string>>, k: nat)
    requires k < |requested|
  {
    k <= |S| && requested[k] == CursorBefore(env.settings.initialCursor, S, k) && !Capped(env.maxBatches, k + 1)
  }

  predicate RequestsFrom(env: Env, S: seq<Saved>, requested: seq<Option<string>>) {
    forall k :: 0 <= k < |requested| ==> RequestedAt(env, S, requested, k)
  }

  /** What holds when the loop has ended with `stop`, relative to the world
      `w0` it started from. */
  predicate LoopFinal(env: Env, w0: World, st: LoopState, stop: Stop) {
    var S := st.saves;
    var n := |S|;
    var s := env.settings;
    (forall k :: 0 <= k < n ==> SavedAt(env, w0, S, k))
    && (forall k :: 0 <= k < n - 1 ==> Continued(s, S[k]))
    && |st.requested| == (if stop.NoData? || stop.NoPosts? then n + 1 else n)
    && RequestsFrom(env, S, st.requested)
    && match stop
       case BatchLimit =>
         (n > 0 ==> Continued(s, S[n - 1])) && Capped(env.maxBatches, n + 1)
         && st.batch == n + 1 && st.total == PostCount(S) && st.world == After(s, w0, S)
       case NoData =>
         (n > 0 ==> Continued(s, S[n - 1])) && BodyOf(ResponseAt(env.network, w0.served + n)).posts.None?
         && st.batch == n + 1 && st.total == PostCount(S) && st.world == AfterEmptyRequest(env, w0, S)
       case NoPosts =>
         (n > 0 ==> Continued(s, S[n - 1])) && BodyOf(ResponseAt(env.network, w0.served + n)).posts == Some([])
         && st.batch == n + 1 && st.total == PostCount(S) && st.world == AfterEmptyRequest(env, w0, S)
       case CursorEnd =>
         n > 0 && NoRaise(s, S[n - 1]) && CursorEnds(S[n - 1].data.cursor, S[n - 1].cursor)
         && st.batch == n && st.total == PostCount(S) && st.world == After(s, w0, S)
       case Crash(e) =>
         n > 0 && s.saveCleaned && EncodeAll(PostsIn(S[n - 1].data)).error == Some(e)
         && st.batch == n && st.total == PostCount(S[..n - 1]) && st.world == AfterCrash(env, w0, S)
  }

  lemma RoundEndsAtCap(env: Env, w0: World, st: LoopState)
    requires LoopInv(env, w0, st) && Capped(env.maxBatches, st.batch)
    ensures LoopFinal(env, w0, Round(env, st).state, Round(env, st).stop)
  {
    RequestedSoFar(env, w0, st);
  }

  lemma RoundEndsWithoutPage(env: Env, w0: World, st: LoopState)
    requires LoopInv(env, w0, st) && !Capped(env.maxBatches, st.batch)
    requires var data := Request(env.settings, env.network, st.world, st.cursor).1;
      data.posts.None? || data.posts.value == []
    ensures LoopFinal(env, w0, Round(env, st).state, Round(env, st).stop)
  {
    var (w1, data) := Request(env.settings, env.network, st.world, st.cursor);
    var stop := if data.posts.None? then NoData else NoPosts;
    var st1 := st.(world := w1, requested := st.requested + [st.cursor]);
    assert Round(env, st) == Done(st1, stop);
    EndWithoutPage(env, w0, st, w1, data);
  }

  lemma EndWithoutPage(env: Env, w0: World, st: LoopState, w1: World, data: Body)
    requires LoopInv(env, w0, st) && !Capped(env.maxBatches, st.batch)
    requires (w1, data) == Request(env.settings, env.network, st.world, st.cursor)
    requires data.posts.None? || data.posts.value == []
    ensures LoopFinal(env, w0, st.(world := w1, requested := st.requested + [st.cursor]),
                      if data.posts.None? then NoData else NoPosts)
  {
    EmptyRequestWorld(env, w0, st.saves, st.world, st.cursor, w1, data);
    RequestedAfterEmpty(env, w0, st);
  }

  /** The world after a request that found no page. */
  lemma EmptyRequestWorld(env: Env, w0: World, S: seq<Saved>, w: World, cursor: Option<string>, w1: World, data: Body)
    requires w == After(env.settings, w0, S)
    requires cursor == CursorBefore(env.settings.initialCursor, S, |S|)
    requires (w1, data) == Request(env.settings, env.network, w, cursor)
    ensures w1 == AfterEmptyRequest(env, w0, S)
  {
    RequestAt(env.settings, env.network, w, w0.served + |S|, cursor, w1, data);
  }

  /** `make_request` on a world that has used `n` responses. */
  lemma RequestAt(s: Settings, network: seq<Response>, w: World, n: nat, cursor: Option<string>, w1: World, data: Body)
    requires w.served == n && (w1, data) == Request(s, network, w, cursor)
    ensures w1 == w.(trace := w.trace + RequestEvents(s, ResponseAt(network, n), cursor), served := w.served + 1)
  {
  }

  /** The requests once a pass has found no page: the earlier ones and the
      one just made with the current cursor. */
  lemma RequestedAfterEmpty(env: Env, w0: World, st: LoopState)
    requires SavesInv(env, w0, st) && !Capped(env.maxBatches, st.batch)
    ensures RequestsFrom(env, st.saves, st.requested + [st.cursor])
  {
    RequestedSoFar(env, w0, st);
    RequestedOneMore(env, st.saves, st.requested, st.cursor);
  }

  /** One more request, with the cursor the saves `S` end at, under the cap. */
  lemma RequestedOneMore(env: Env, S: seq<Saved>, requested: seq<Option<string>>, c: Option<string>)
    requires |requested| == |S| && RequestsFrom(env, S, requested)
    requires c == CursorBefore(env.settings.initialCursor, S, |S|) && !Capped(env.maxBatches, |S| + 1)
    ensures RequestsFrom(env, S, requested + [c])
  {
    var r := requested + [c];
    forall k | 0 <= k < |r|
      ensures RequestedAt(env, S, r, k)
    {
      if k < |S| {
        assert RequestedAt(env, S, requested, k);
        assert r[k] == requested[k];
      }
    }
  }

  lemma RoundEndsAfterSave(env: Env, w0: World, st: LoopState)
    requires LoopInv(env, w0, st) && !Capped(env.maxBatches, st.batch) && Round(env, st).Done?
    requires var data := Request(env.settings, env.network, st.world, st.cursor).1;
      data.posts.Some? && data.posts.value != []
    ensures LoopFinal(env, w0, Round(env, st).state, Round(env, st).stop)
  {
    var s := env.settings;
    var (w1, data) := Request(s, env.network, st.world, st.cursor);
    var (w2, err) := SaveStep(s, env.clock, w1, data, st.batch, st.cursor);
    var sv := Saved(st.batch, st.cursor, env.clock(w1.ticks), data);
    var st2 := st.(world := w2, requested := st.requested + [st.cursor], saves := st.saves + [sv]);
    if err.Some? {
      assert Round(env, st) == Done(st2, Crash(err.value));
    } else {
      assert Round(env, st) == Done(st2.(total := st.total + |data.posts.value|), CursorEnd);
    }
    EndAfterSave(env, w0, st, w1, data, w2, err);
  }

  lemma EndAfterSave(env: Env, w0: World, st: LoopState, w1: World, data: Body, w2: World, err: Option<EncodeError>)
    requires LoopInv(env, w0, st) && !Capped(env.maxBatches, st.batch)
    requires (w1, data) == Request(env.settings, env.network, st.world, st.cursor)
    requires data.posts.Some? && data.posts.value != []
    requires (w2, err) == SaveStep(env.settings, env.clock, w1, data, st.batch, st.cursor)
    requires err.None? ==> CursorEnds(data.cursor, st.cursor)
    ensures var sv := Saved(st.batch, st.cursor, env.clock(w1.ticks), data);
      var st2 := st.(world := w2, requested := st.requested + [st.cursor], saves := st.saves + [sv]);
      if err.Some? then LoopFinal(env, w0, st2, Crash(err.value))
      else LoopFinal(env, w0, st2.(total := st.total + |data.posts.value|), CursorEnd)
  {
    var sv := Saved(st.batch, st.cursor, env.clock(w1.ticks), data);
    SavedSoFar(env, w0, st, w1, data);
    if err.Some? {
      EndCrash(env, w0, st, w1, data, w2, err.value);
    } else {
      EndCursor(env, w0, st, w1, data, w2);
    }
  }

  /** The facts about the saves and the requests that hold once a pass has
      saved the page it requested and ended the loop. */
  predicate SavesAndRequests(env: Env, w0: World, S: seq<Saved>, requested: seq<Option<string>>) {
    (forall k :: 0 <= k < |S| ==> SavedAt(env, w0, S, k))
    && (forall k :: 0 <= k < |S| - 1 ==> Continued(env.settings, S[k]))
    && |requested| == |S|
    && RequestsFrom(env, S, requested)
  }

  /** The saves and requests after one more pass that saved a page. */
  lemma SavedSoFar(env: Env, w0: World, st: LoopState, w1: World, data: Body)
    requires SavesInv(env, w0, st) && !Capped(env.maxBatches, st.batch)
    requires (w1, data) == Request(env.settings, env.network, st.world, st.cursor)
    requires data.posts.Some? && data.posts.value != []
    ensures var S' := st.saves + [Saved(st.batch, st.cursor, env.clock(w1.ticks), data)];
      var requested' := st.requested + [st.cursor];
      SavesAndRequests(env, w0, S', requested')
  {
    var S := st.saves;
    var sv := Saved(st.batch, st.cursor, env.clock(w1.ticks), data);
    var S' := S + [sv];
    var requested' := st.requested + [st.cursor];
    SnocPrefix(S, sv);
    forall k | 0 <= k < |S'|
      ensures SavedAt(env, w0, S', k)
    {
      if k < |S| {
        assert SavedAt(env, w0, S, k);
      }
    }
    forall k | 0 <= k < |S'| - 1
      ensures Continued(env.settings, S'[k])
    {
      assert S'[k] == S[k];
    }
    RequestedSoFar(env, w0, st);
    forall k | 0 <= k < |requested'|
      ensures RequestedAt(env, S', requested', k)
    {
      if k < |S| {
        assert RequestedAt(env, S, st.requested, k);
        assert requested'[k] == st.requested[k];
      }
    }
  }

  lemma EndCrash(env: Env, w0: World, st: LoopState, w1: World, data: Body, w2: World, e: EncodeError)
    requires LoopInv(env, w0, st) && !Capped(env.maxBatches, st.batch)
    requires (w1, data) == Request(env.settings, env.network, st.world, st.cursor)
    requires data.posts.Some? && data.posts.value != []
    requires (w2, Some(e)) == SaveStep(env.settings, env.clock, w1, data, st.batch, st.cursor)
    requires var S' := st.saves + [Saved(st.batch, st.cursor, env.clock(w1.ticks), data)];
      var requested' := st.requested + [st.cursor];
      SavesAndRequests(env, w0, S', requested')
    ensures var sv := Saved(st.batch, st.cursor, env.clock(w1.ticks), data);
      LoopFinal(env, w0, st.(world := w2, requested := st.requested + [st.cursor], saves := st.saves + [sv]),
                Crash(e))
  {
    var S := st.saves;
    var sv := Saved(st.batch, st.cursor, env.clock(w1.ticks), data);
    var S' := S + [sv];
    SnocPrefix(S, sv);
    assert w2 == AfterCrash(env, w0, S');
  }

  lemma EndCursor(env: Env, w0: World, st: LoopState, w1: World, data: Body, w2: World)
    requires LoopInv(env, w0, st) && !Capped(env.maxBatches, st.batch)
    requires (w1, data) == Request(env.settings, env.network, st.world, st.cursor)
    requires data.posts.Some? && data.posts.value != []
    requires (w2, None) == SaveStep(env.settings, env.clock, w1, data, st.batch, st.cursor)
    requires CursorEnds(data.cursor, st.cursor)
    requires var S' := st.saves + [Saved(st.batch, st.cursor, env.clock(w1.ticks), data)];
      var requested' := st.requested + [st.cursor];
      SavesAndRequests(env, w0, S', requested')
    ensures var sv := Saved(st.batch, st.cursor, env.clock(w1.ticks), data);
      LoopFinal(env, w0, st.(world := w2, requested := st.requested + [st.cursor], saves := st.saves + [sv],
                             total := st.total + |data.posts.value|),
                CursorEnd)
  {
    var s := env.settings;
    var S := st.saves;
    var sv := Saved(st.batch, st.cursor, env.clock(w1.ticks), data);
    var S' := S + [sv];
    SnocPrefix(S, sv);
    SaveApplies(s, env.clock, st.world, w1, data, st.batch, st.cursor);
    assert After(s, w0, S') == ApplySave(s, After(s, w0, S), sv);
    assert PostCount(S') == PostCount(S) + |PostsIn(sv.data)|;
    var st3 := st.(world := w2, requested := st.requested + [st.cursor], saves := S', total := st.total + |data.posts.value|);
    assert st3.saves == S';
    assert st3.world == After(s, w0, S');
    assert SavesAndRequests(env, w0, S', st3.requested);
    assert LoopFinal(env, w0, st3, CursorEnd);
  }

  /** A save that does not raise has the effect `ApplySave` describes. */
  lemma SaveApplies(s: Settings, clock: nat -> string, w: World, w1: World, data: Body, n: nat, cursor: Option<string>)
    requires w1 == w.(trace := w.trace + RequestEvents(s, Received(data), cursor), served := w.served + 1)
    requires SaveStep(s, clock, w1, data, n, cursor).1.None?
    ensures SaveStep(s, clock, w1, data, n, cursor).0 == ApplySave(s, w, Saved(n, cursor, clock(w1.ticks), data))
    ensures NoRaise(s, Saved(n, cursor, clock(w1.ticks), data))
  {
  }

  /** The requests made so far carried the cursors the saves record, each
      under the cap. */
  lemma RequestedSoFar(env: Env, w0: World, st: LoopState)
    requires SavesInv(env, w0, st)
    ensures RequestsFrom(env, st.saves, st.requested)
  {
    var S := st.saves;
    forall k | 0 <= k < |st.requested|
      ensures RequestedAt(env, S, st.requested, k)
    {
      assert SavedAt(env, w0, S, k);
      assert st.requested[k] == S[k].cursor;
    }
  }

  /** A pass that ends the loop leaves the loop's final description true. */
  lemma RoundEnds(env: Env, w0: World, st: LoopState)
    requires LoopInv(env, w0, st) && Round(env, st).Done?
    ensures LoopFinal(env, w0, Round(env, st).state, Round(env, st).stop)
  {
    if Capped(env.maxBatches, st.batch) {
      RoundEndsAtCap(env, w0, st);
    } else {
      var data := Request(env.settings, env.network, st.world, st.cursor).1;
      if data.posts.None? || data.posts.value == [] {
        RoundEndsWithoutPage(env, w0, st);
      } else {
        RoundEndsAfterSave(env, w0, st);
      }
    }
  }

  /** The loop ends in a state its final description holds for. */
  lemma {:induction false} LoopEnds(env: Env, w0: World, st: LoopState)
    requires LoopInv(env, w0, st)
    ensures LoopFinal(env, w0, Loop(env, st).0, Loop(env, st).1)
    decreases |env.network| - st.world.served
  {
    match Round(env, st)
    case Done(_, _) =>
      RoundEnds(env, w0, st);
    case Next(st') =>
      RoundKeepsInv(env, w0, st);
      LoopEnds(env, w0, st');
  }

  // ---------------------------------------------------------------- the run as a whole

  /** The lines appended to the corpus file by the saves `saves`. */
  function LinesOf(s: Settings, saves: seq<Saved>): seq<string> {
    if saves == [] then [] else LinesOf(s, saves[..|saves| - 1]) + SaveLines(s, saves[|saves| - 1])
  }

  /** The batch files written by the saves `saves`. */
  function FilesOf(s: Settings, saves: seq<Saved>): (files: seq<BatchFile>)
    ensures |files| == if s.saveJson then |saves| else 0
  {
    if saves == [] || !s.saveJson then []
    else
      var sv := saves[|saves| - 1];
      FilesOf(s, saves[..|saves| - 1]) + [BatchFileFor(s, sv.number, sv.timestamp, sv.cursor, sv.data)]
  }

  /** The events of the completed passes that saved `saves`. */
  function TraceOf(s: Settings, saves: seq<Saved>): seq<Event> {
    if saves == [] then [] else TraceOf(s, saves[..|saves| - 1]) + RoundEvents(s, saves[|saves| - 1])
  }

  /** The world after completed passes: the corpus file, the batch files and
      the events grow by what each save contributes, in order. */
  lemma AfterIsAppend(s: Settings, w0: World, saves: seq<Saved>)
    ensures After(s, w0, saves).textFile == w0.textFile + LinesOf(s, saves)
    ensures After(s, w0, saves).batchFiles == w0.batchFiles + FilesOf(s, saves)
    ensures After(s, w0, saves).trace == w0.trace + TraceOf(s, saves)
  {
    AfterText(s, w0, saves);
    AfterFiles(s, w0, saves);
    AfterTrace(s, w0, saves);
  }

  lemma {:induction false} AfterText(s: Settings, w0: World, saves: seq<Saved>)
    ensures After(s, w0, saves).textFile == w0.textFile + LinesOf(s, saves)
  {
    if saves != [] {
      var init := saves[..|saves| - 1];
      AfterText(s, w0, init);
      var w := After(s, w0, init);
      var sv := saves[|saves| - 1];
      assert After(s, w0, saves).textFile == w.textFile + SaveLines(s, sv);
      assert LinesOf(s, saves) == LinesOf(s, init) + SaveLines(s, sv);
      ConcatAssoc(w0.textFile, LinesOf(s, init), SaveLines(s, sv));
    }
  }

  lemma {:induction false} AfterFiles(s: Settings, w0: World, saves: seq<Saved>)
    ensures After(s, w0, saves).batchFiles == w0.batchFiles + FilesOf(s, saves)
  {
    if saves != [] {
      var init := saves[..|saves| - 1];
      AfterFiles(s, w0, init);
      var w := After(s, w0, init);
      assert After(s, w0, saves) == ApplySave(s, w, saves[|saves| - 1]);
    }
  }

  lemma {:induction false} AfterTrace(s: Settings, w0: World, saves: seq<Saved>)
    ensures After(s, w0, saves).trace == w0.trace + TraceOf(s, saves)
  {
    if saves != [] {
      var init := saves[..|saves| - 1];
      AfterTrace(s, w0, init);
      var w := After(s, w0, init);
      var sv := saves[|saves| - 1];
      assert After(s, w0, saves).trace == w.trace + RoundEvents(s, sv);
      assert TraceOf(s, saves) == TraceOf(s, init) + RoundEvents(s, sv);
      ConcatAssoc(w0.trace, TraceOf(s, init), RoundEvents(s, sv));
    }
  }

  /** The loop of `scrape_all_posts` ends, in a state its final description
      holds for, relative to the world once the first metadata file is written. */
  lemma ScrapeLoop(env: Env, w: World)
    ensures LoopFinal(env, Started(env, w), Loop(env, InitialState(env, w)).0, Loop(env, InitialState(env, w)).1)
  {
    InitialLoopInv(env, w);
    LoopEnds(env, Started(env, w), InitialState(env, w));
  }

  /** Save `k` is batch `k + 1` (`SavedAt`): it was requested with the cursor
      of the page before it (the initial cursor first), it used clock reading
      `k + 1` (reading `0` stamped the metadata file) and response `k` of the
      run, and its page held posts; every save but the last went on to a new,
      truthy cursor. The requests are one per save, plus the one that found no
      page when the run ended that way. */
  lemma ScrapeSavesPages(env: Env, w: World)
    ensures var r := Scrape(env, w);
      var S := r.saves;
      var w0 := Started(env, w);
      w0.ticks == w.ticks + 1 && w0.served == w.served
      && (forall k :: 0 <= k < |S| ==> SavedAt(env, w0, S, k))
      && (forall k :: 0 <= k < |S| - 1 ==>
            NoRaise(env.settings, S[k]) && Truthy(S[k].data.cursor) && S[k].data.cursor != S[k].cursor)
      && |r.requested| == (if r.stop.NoData? || r.stop.NoPosts? then |S| + 1 else |S|)
      && (forall k :: 0 <= k < |r.requested| ==> r.requested[k] == CursorBefore(env.settings.initialCursor, S, k))
  {
    ScrapeLoop(env, w);
    var st, stop := Loop(env, InitialState(env, w)).0, Loop(env, InitialState(env, w)).1;
    var r := Scrape(env, w);
    assert r.saves == st.saves && r.requested == st.requested && r.stop == stop;
    forall k | 0 <= k < |r.requested|
      ensures r.requested[k] == CursorBefore(env.settings.initialCursor, r.saves, k)
    {
      assert RequestedAt(env, st.saves, st.requested, k);
    }
  }

  /** `max_batches`: a positive cap bounds the requests (and so the saves), a
      negative one stops the loop before any request, and `None` or 0 never
      stops it. When the cap stops the loop, exactly `max_batches` batches
      were saved (none for a negative cap). */
  lemma ScrapeRespectsCap(env: Env, w: World)
    ensures var r := Scrape(env, w);
      var m := env.maxBatches;
      |r.saves| <= |r.requested|
      && (m.Some? && m.value > 0 ==> |r.requested| <= m.value)
      && (m.Some? && m.value < 0 ==> r.requested == [])
      && (m.None? || m.value == 0 ==> !r.stop.BatchLimit?)
      && (r.stop.BatchLimit? ==> m.Some? && m.value != 0 && |r.saves| == if m.value > 0 then m.value else 0)
  {
    ScrapeLoop(env, w);
    var st, stop := Loop(env, InitialState(env, w)).0, Loop(env, InitialState(env, w)).1;
    var r := Scrape(env, w);
    assert r.saves == st.saves && r.requested == st.requested && r.stop == stop;
    var n := |st.saves|;
    var m := env.maxBatches;
    if |st.requested| > 0 {
      var last := |st.requested| - 1;
      assert RequestedAt(env, st.saves, st.requested, last);
      assert RequestedAt(env, st.saves, st.requested, 0);
    }
  }

  /** Why the loop ended, in terms of the responses: no `posts` member, an
      empty `posts` list, a repeated or missing next cursor, or a raise while
      encoding the last page's posts. */
  lemma ScrapeStops(env: Env, w: World)
    ensures var r := Scrape(env, w);
      var S := r.saves;
      var n := |S|;
      var s := env.settings;
      (r.stop.NoData? ==> BodyOf(ResponseAt(env.network, w.served + n)).posts.None?)
      && (r.stop.NoPosts? ==> BodyOf(ResponseAt(env.network, w.served + n)).posts == Some([]))
      && (r.stop.CursorEnd? ==> n > 0 && NoRaise(s, S[n - 1]) && CursorEnds(S[n - 1].data.cursor, S[n - 1].cursor))
      && (r.stop.Crash? ==> n > 0 && s.saveCleaned && EncodeAll(PostsIn(S[n - 1].data)).error == Some(r.stop.error))
  {
    ScrapeLoop(env, w);
    var st, stop := Loop(env, InitialState(env, w)).0, Loop(env, InitialState(env, w)).1;
    var r := Scrape(env, w);
    assert r.saves == st.saves && r.requested == st.requested && r.stop == stop;
  }

  /** The saves whose lines reached the corpus file: all of them, except the
      last one when encoding its posts raised. */
  function Kept(saves: seq<Saved>, stop: Stop): seq<Saved> {
    if stop.Crash? && saves != [] then saves[..|saves| - 1] else saves
  }

  /** The events after the completed passes: the request that found no page,
      or the request and save that raised. */
  function LastEvents(env: Env, w0: World, saves: seq<Saved>, stop: Stop): seq<Event> {
    var s := env.settings;
    var n := |saves|;
    match stop
    case NoData => RequestEvents(s, ResponseAt(env.network, w0.served + n), CursorBefore(s.initialCursor, saves, n))
    case NoPosts => RequestEvents(s, ResponseAt(env.network, w0.served + n), CursorBefore(s.initialCursor, saves, n))
    case Crash(_) =>
      if n == 0 then []
      else RequestEvents(s, Received(saves[n - 1].data), saves[n - 1].cursor) + [Save(n, saves[n - 1].cursor)]
    case _ => []
  }

  /** The world and the counters when the loop has ended. */
  lemma FinalWorld(env: Env, w0: World, st: LoopState, stop: Stop)
    requires LoopFinal(env, w0, st, stop)
    ensures var S := st.saves;
      var s := env.settings;
      st.world.textFile == w0.textFile + LinesOf(s, Kept(S, stop))
      && st.world.batchFiles == w0.batchFiles + FilesOf(s, S)
      && st.world.trace == w0.trace + TraceOf(s, Kept(S, stop)) + LastEvents(env, w0, S, stop)
      && st.world.metadata == w0.metadata
      && st.world.ticks == w0.ticks + |S|
      && st.total == PostCount(Kept(S, stop))
      && st.batch == (if stop.CursorEnd? || stop.Crash? then |S| else |S| + 1)
  {
    if stop.Crash? {
      FinalWorldCrash(env, w0, st, stop);
    } else if stop.NoData? || stop.NoPosts? {
      FinalWorldEmpty(env, w0, st, stop);
    } else {
      FinalWorldSaved(env, w0, st, stop);
    }
  }

  lemma FinalWorldCrash(env: Env, w0: World, st: LoopState, stop: Stop)
    requires LoopFinal(env, w0, st, stop) && stop.Crash?
    ensures var S := st.saves;
      var s := env.settings;
      st.world.textFile == w0.textFile + LinesOf(s, Kept(S, stop))
      && st.world.batchFiles == w0.batchFiles + FilesOf(s, S)
      && st.world.trace == w0.trace + TraceOf(s, Kept(S, stop)) + LastEvents(env, w0, S, stop)
      && st.world.metadata == w0.metadata
      && st.world.ticks == w0.ticks + |S|
      && st.total == PostCount(Kept(S, stop))
      && st.batch == (if stop.CursorEnd? || stop.Crash? then |S| else |S| + 1)
  {
    var S := st.saves;
    var n := |S|;
    assert n > 0 && st.world == AfterCrash(env, w0, S);
    assert S[n - 1].number == n by {
      assert SavedAt(env, w0, S, n - 1);
    }
    assert Kept(S, stop) == S[..n - 1];
    CrashWorld(env, w0, S, st.world);
  }

  /** The world after the saves `S` when the last one raised, over plain
      variables. */
  lemma {:induction false} CrashWorld(env: Env, w0: World, S: seq<Saved>, w: World)
    requires S != [] && w == AfterCrash(env, w0, S) && S[|S| - 1].number == |S|
    ensures var s, K, sv := env.settings, S[..|S| - 1], S[|S| - 1];
      w.textFile == w0.textFile + LinesOf(s, K)
      && w.batchFiles == w0.batchFiles + FilesOf(s, S)
      && w.trace == w0.trace + TraceOf(s, K) + (RequestEvents(s, Received(sv.data), sv.cursor) + [Save(|S|, sv.cursor)])
      && w.metadata == w0.metadata
      && w.ticks == w0.ticks + |S|
  {
    var s, K, sv := env.settings, S[..|S| - 1], S[|S| - 1];
    AfterIsAppend(s, w0, K);
    assert S == K + [sv];
    assert FilesOf(s, S) == FilesOf(s, K) + (if s.saveJson then [BatchFileFor(s, sv.number, sv.timestamp, sv.cursor, sv.data)] else []);
  }

  lemma FinalWorldEmpty(env: Env, w0: World, st: LoopState, stop: Stop)
    requires LoopFinal(env, w0, st, stop) && (stop.NoData? || stop.NoPosts?)
    ensures var S := st.saves;
      var s := env.settings;
      st.world.textFile == w0.textFile + LinesOf(s, Kept(S, stop))
      && st.world.batchFiles == w0.batchFiles + FilesOf(s, S)
      && st.world.trace == w0.trace + TraceOf(s, Kept(S, stop)) + LastEvents(env, w0, S, stop)
      && st.world.metadata == w0.metadata
      && st.world.ticks == w0.ticks + |S|
      && st.total == PostCount(Kept(S, stop))
      && st.batch == (if stop.CursorEnd? || stop.Crash? then |S| else |S| + 1)
  {
    AfterIsAppend(env.settings, w0, st.saves);
    assert st.world == AfterEmptyRequest(env, w0, st.saves);
  }

  lemma FinalWorldSaved(env: Env, w0: World, st: LoopState, stop: Stop)
    requires LoopFinal(env, w0, st, stop) && (stop.BatchLimit? || stop.CursorEnd?)
    ensures var S := st.saves;
      var s := env.settings;
      st.world.textFile == w0.textFile + LinesOf(s, Kept(S, stop))
      && st.world.batchFiles == w0.batchFiles + FilesOf(s, S)
      && st.world.trace == w0.trace + TraceOf(s, Kept(S, stop)) + LastEvents(env, w0, S, stop)
      && st.world.metadata == w0.metadata
      && st.world.ticks == w0.ticks + |S|
      && st.total == PostCount(Kept(S, stop))
      && st.batch == (if stop.CursorEnd? || stop.Crash? then |S| else |S| + 1)
  {
    AfterIsAppend(env.settings, w0, st.saves);
    assert st.world == After(env.settings, w0, st.saves);
  }

  /** The files and events of a run: the corpus file gains the lines of every
      save that did not raise, in order; a batch file is written for every
      save (the one that raised too); the events are those of each pass. */
  lemma ScrapeOutputs(env: Env, w: World)
    ensures var r := Scrape(env, w);
      var s := env.settings;
      r.world.textFile == w.textFile + LinesOf(s, Kept(r.saves, r.stop))
      && r.world.batchFiles == w.batchFiles + FilesOf(s, r.saves)
      && r.world.trace == w.trace + TraceOf(s, Kept(r.saves, r.stop)) + LastEvents(env, Started(env, w), r.saves, r.stop)
      && r.world.served == w.served + |r.requested|
  {
    ScrapeLoop(env, w);
    var st, stop := Loop(env, InitialState(env, w)).0, Loop(env, InitialState(env, w)).1;
    FinalWorld(env, Started(env, w), st, stop);
    FinalServed(env, Started(env, w), st, stop);
  }

  lemma FinalServed(env: Env, w0: World, st: LoopState, stop: Stop)
    requires LoopFinal(env, w0, st, stop)
    ensures st.world.served == w0.served + |st.requested|
  {
  }

  /** scrape_metadata.json at the end of a run: the start members (clock
      reading 0, the group, the post type, the token's length), and unless
      `save_batch` raised, the end time (the reading after the last save),
      `total_batches` as `batch_number - 1` and the number of posts saved.
      When the loop ends on the cursor check, `batch_number` is still the
      number of the batch just saved, so `total_batches` is one less than the
      number of batches saved. */
  lemma ScrapeMetadata(env: Env, w: World)
    ensures var r := Scrape(env, w);
      var s := env.settings;
      var n := |r.saves|;
      var start := StartMetadata(s, env.clock(w.ticks));
      (r.stop.Crash? ==> r.world.metadata == Some(start))
      && (!r.stop.Crash? ==>
            r.world.metadata == Some(start.(completion := Some(Completion(
              env.clock(w.ticks + 1 + n),
              if r.stop.CursorEnd? then n - 1 else n,
              PostCount(r.saves))))))
  {
    ScrapeLoop(env, w);
    var st, stop := Loop(env, InitialState(env, w)).0, Loop(env, InitialState(env, w)).1;
    FinalCounters(env, Started(env, w), st, stop);
    ScrapeFromLoop(env, w, st, stop);
  }

  /** The metadata, the clock and the counters when the loop has ended. */
  lemma FinalCounters(env: Env, w0: World, st: LoopState, stop: Stop)
    requires LoopFinal(env, w0, st, stop)
    ensures st.world.metadata == w0.metadata && st.world.ticks == w0.ticks + |st.saves|
    ensures !stop.Crash? ==> st.total == PostCount(st.saves)
    ensures st.batch as int - 1 == if stop.CursorEnd? || stop.Crash? then |st.saves| - 1 else |st.saves|
  {
    FinalWorld(env, w0, st, stop);
    assert !stop.Crash? ==> Kept(st.saves, stop) == st.saves;
  }

  // ---------------------------------------------------------------- the scraper object

  /** `SidechatScraper`: the settings `__init__` read, the scripted service
      and clock it talks to, and the files and events it changes. */
  class SidechatScraper {
    const settings: Settings
    const network: seq<Response>
    const clock: nat -> string
    var textFile: seq<string>
    var batchFiles: seq<BatchFile>
    var metadata: Option<Metadata>
    var trace: seq<Event>
    var ticks: nat
    var served: nat

    function State(): World
      reads this
    {
      World(textFile, batchFiles, metadata, trace, ticks, served)
    }

    /** `__init__` once the settings are read, with `setup_output_directory`:
        with `SAVE_CLEANED` on, the corpus file is truncated. */
    constructor (settings: Settings, network: seq<Response>, clock: nat -> string, prior: World)
      ensures this.settings == settings && this.network == network && this.clock == clock
      ensures State() == Truncated(settings, prior)
    {
      this.settings := settings;
      this.network := network;
      this.clock := clock;
      textFile := if settings.saveCleaned then [] else prior.textFile;
      batchFiles := prior.batchFiles;
      metadata := prior.metadata;
      trace := prior.trace;
      ticks := prior.ticks;
      served := prior.served;
    }

    /** `make_request(cursor)`. */
    method MakeRequest(cursor: Option<string>) returns (data: Body)
      modifies this
      ensures (State(), data) == Request(settings, network, old(State()), cursor)
    {
      ghost var w := State();
      var resp := ResponseAt(network, served);
      var events := [Get(CursorParam(cursor))];
      if Transported(resp) && settings.requestInterval > 0 {
        events := events + [Sleep(settings.requestInterval)];
      }
      assert events == RequestEvents(settings, resp, cursor);
      trace := trace + events;
      served := served + 1;
      data := BodyOf(resp);
      assert State() == w.(trace := w.trace + events, served := w.served + 1);
      assert data == Request(settings, network, w, cursor).1;
      assert State() == Request(settings, network, w, cursor).0;
    }

    /** `save_batch(data, batch_number, cursor)`; `error` is the exception
        raised while encoding the posts. */
    method SaveBatch(data: Body, batchNumber: nat, cursor: Option<string>) returns (error: Option<EncodeError>)
      modifies this
      ensures (State(), error) == SaveStep(settings, clock, old(State()), data, batchNumber, cursor)
    {
      ghost var w := State();
      var timestamp := clock(ticks);
      ticks := ticks + 1;
      if settings.saveJson {
        batchFiles := batchFiles + [BatchFileFor(settings, batchNumber, timestamp, cursor, data)];
      }
      trace := trace + [Save(batchNumber, cursor)];
      ghost var w1 := State();
      assert w1 == w.(batchFiles := w1.batchFiles, ticks := w.ticks + 1, trace := w.trace + [Save(batchNumber, cursor)]);
      error := None;
      if settings.saveCleaned {
        var lines;
        lines, error := CollectLines(PostsIn(data));
        if error.None? && lines != [] {
          textFile := textFile + lines;
          trace := trace + AppendEvents(lines);
        }
        assert error.None? ==> State() == w1.(textFile := w1.textFile + lines, trace := w1.trace + AppendEvents(lines));
      }
    }

    /** `scrape_all_posts(max_batches)`; the result says why the loop ended,
        `Crash` standing for the exception that leaves the method. */
    method ScrapeAllPosts(maxBatches: Option<int>) returns (stop: Stop)
      modifies this
      ensures var r := Scrape(Env(settings, network, clock, maxBatches), old(State()));
        State() == r.world && stop == r.stop
    {
      ghost var env := Env(settings, network, clock, maxBatches);
      ghost var w := State();
      var start := StartMetadata(settings, clock(ticks));
      metadata := Some(start);
      ticks := ticks + 1;
      assert State() == Started(env, w);
      var batchNumber, totalPosts;
      stop, batchNumber, totalPosts := Paginate(maxBatches);
      ghost var final := Loop(env, InitialState(env, w)).0;
      ScrapeFromLoop(env, w, final, stop);
      if !stop.Crash? {
        CompleteMetadata(start, batchNumber, totalPosts);
      }
    }

    /** The `while True` loop of `scrape_all_posts` (lines 157-198), from the
        initial cursor and batch number 1: it ends in the state `Loop` gives
        and returns why it ended with the final `batch_number` and
        `total_posts`. */
    method Paginate(maxBatches: Option<int>) returns (stop: Stop, batchNumber: nat, totalPosts: nat)
      modifies this
      ensures var env := Env(settings, network, clock, maxBatches);
        var start := LoopState(old(State()), settings.initialCursor, 1, 0, [], []);
        var (final, why) := Loop(env, start);
        State() == final.world && batchNumber == final.batch && totalPosts == final.total && stop == why
    {
      var env := Env(settings, network, clock, maxBatches);
      ghost var init := LoopState(State(), settings.initialCursor, 1, 0, [], []);
      var cursor := settings.initialCursor;
      batchNumber := 1;
      totalPosts := 0;
      ghost var saves: seq<Saved> := [];
      ghost var requested: seq<Option<string>> := [];
      while true
        invariant Loop(env, LoopState(State(), cursor, batchNumber, totalPosts, saves, requested)) == Loop(env, init)
        decreases |network| - served
      {
        ghost var st := LoopState(State(), cursor, batchNumber, totalPosts, saves, requested);
        if Capped(maxBatches, batchNumber) {
          stop := BatchLimit;
          LoopAtCap(env, st);
          return;
        }
        var data := MakeRequest(cursor);
        requested := requested + [cursor];
        ghost var w1 := State();
        if data.posts.None? || data.posts.value == [] {
          stop := if data.posts.None? then NoData else NoPosts;
          LoopWithoutPage(env, st, w1, data);
          return;
        }
        ghost var timestamp := clock(ticks);
        var error := SaveBatch(data, batchNumber, cursor);
        ghost var w2 := State();
        saves := saves + [Saved(batchNumber, cursor, timestamp, data)];
        if error.Some? {
          stop := Crash(error.value);
          LoopAfterSave(env, st, w1, data, w2, error, LoopState(w2, cursor, batchNumber, totalPosts, saves, requested));
          return;
        }
        totalPosts := totalPosts + |data.posts.value|;
        var nextCursor := data.cursor;
        if CursorEnds(nextCursor, cursor) {
          stop := CursorEnd;
          LoopAfterSave(env, st, w1, data, w2, error, LoopState(w2, cursor, batchNumber, totalPosts, saves, requested));
          return;
        }
        cursor := nextCursor;
        batchNumber := batchNumber + 1;
        LoopAfterSave(env, st, w1, data, w2, error, LoopState(w2, cursor, batchNumber, totalPosts, saves, requested));
      }
    }

    /** The second write of scrape_metadata.json (lines 200-206): the start
        members with the end time, `batch_number - 1` and the post total. */
    method CompleteMetadata(start: Metadata, batchNumber: nat, totalPosts: nat)
      modifies this
      ensures State() == old(State()).(metadata := Some(start.(completion := Some(
                Completion(clock(old(ticks)), batchNumber as int - 1, totalPosts)))),
              ticks := old(ticks) + 1)
    {
      var done := Completion(clock(ticks), batchNumber as int - 1, totalPosts);
      metadata := Some(start.(completion := Some(done)));
      ticks := ticks + 1;
    }
  }

  /** The loop stops at once when the batch number is over the cap. */
  lemma LoopAtCap(env: Env, st: LoopState)
    requires Capped(env.maxBatches, st.batch)
    ensures Loop(env, st) == (st, BatchLimit)
  {
  }

  /** The loop stops after a request that found no page. */
  lemma LoopWithoutPage(env: Env, st: LoopState, w1: World, data: Body)
    requires !Capped(env.maxBatches, st.batch)
    requires (w1, data) == Request(env.settings, env.network, st.world, st.cursor)
    requires data.posts.None? || data.posts.value == []
    ensures Loop(env, st) == (st.(world := w1, requested := st.requested + [st.cursor]),
                              if data.posts.None? then NoData else NoPosts)
  {
    RoundWithoutPage(env, st, w1, data);
  }

  /** After a saved page the loop stops on a raise or a spent cursor, and
      otherwise goes on from the next cursor and batch number. */
  lemma LoopAfterSave(env: Env, st: LoopState, w1: World, data: Body, w2: World, err: Option<EncodeError>,
                      next: LoopState)
    requires !Capped(env.maxBatches, st.batch)
    requires (w1, data) == Request(env.settings, env.network, st.world, st.cursor)
    requires data.posts.Some? && data.posts.value != []
    requires (w2, err) == SaveStep(env.settings, env.clock, w1, data, st.batch, st.cursor)
    requires next.world == w2 && next.requested == st.requested + [st.cursor]
    requires next.saves == st.saves + [Saved(st.batch, st.cursor, env.clock(w1.ticks), data)]
    requires next.total == if err.Some? then st.total else st.total + |data.posts.value|
    requires next.cursor == if err.Some? || CursorEnds(data.cursor, st.cursor) then st.cursor else data.cursor
    requires next.batch == if err.Some? || CursorEnds(data.cursor, st.cursor) then st.batch else st.batch + 1
    ensures Loop(env, st) ==
        if err.Some? then (next, Crash(err.value))
        else if CursorEnds(data.cursor, st.cursor) then (next, CursorEnd)
        else Loop(env, next)
  {
    RoundAfterSave(env, st, w1, data, w2, err);
  }

  lemma ScrapeFromLoop(env: Env, w: World, final: LoopState, stop: Stop)
    requires Loop(env, InitialState(env, w)) == (final, stop)
    ensures var start := StartMetadata(env.settings, env.clock(w.ticks));
      var done := Completion(env.clock(final.world.ticks), final.batch as int - 1, final.total);
      Scrape(env, w) ==
        if stop.Crash? then Run(final.world, final.saves, final.requested, stop)
        else Run(final.world.(metadata := Some(start.(completion := Some(done))), ticks := final.world.ticks + 1),
                 final.saves, final.requested, stop)
  {
  }

  /** A pass whose request found no page. */
  lemma RoundWithoutPage(env: Env, st: LoopState, w1: World, data: Body)
    requires !Capped(env.maxBatches, st.batch)
    requires (w1, data) == Request(env.settings, env.network, st.world, st.cursor)
    requires data.posts.None? || data.posts.value == []
    ensures Round(env, st) == Done(st.(world := w1, requested := st.requested + [st.cursor]),
                                   if data.posts.None? then NoData else NoPosts)
  {
  }

  /** A pass whose request found a page, which `save_batch` saved. */
  lemma RoundAfterSave(env: Env, st: LoopState, w1: World, data: Body, w2: World, err: Option<EncodeError>)
    requires !Capped(env.maxBatches, st.batch)
    requires (w1, data) == Request(env.settings, env.network, st.world, st.cursor)
    requires data.posts.Some? && data.posts.value != []
    requires (w2, err) == SaveStep(env.settings, env.clock, w1, data, st.batch, st.cursor)
    ensures var st2 := st.(world := w2, requested := st.requested + [st.cursor],
                           saves := st.saves + [Saved(st.batch, st.cursor, env.clock(w1.ticks), data)]);
      var st3 := st2.(total := st.total + |data.posts.value|);
      Round(env, st) ==
        if err.Some? then Done(st2, Crash(err.value))
        else if CursorEnds(data.cursor, st.cursor) then Done(st3, CursorEnd)
        else Next(st3.(cursor := data.cursor, batch := st.batch + 1))
  {
  }

  /** The world once `setup_output_directory` has run. */
  function Truncated(s: Settings, w: World): (t: World)
    ensures t.textFile == if s.saveCleaned then [] else w.textFile
    ensures t.batchFiles == w.batchFiles && t.metadata == w.metadata && t.trace == w.trace
  {
    if s.saveCleaned then w.(textFile := []) else w
  }

  // ---------------------------------------------------------------- main

  /** The exit status of `main` and the world it leaves. */
  datatype Exit = Exit(code: int, world: World)

  /** `main()`: the constructor (which raises on bad settings before touching
      any file), then `MAX_BATCHES`, whose `int()` can raise after the corpus
      file was truncated, then the scrape. Any exception gives status 1. */
  function MainOutcome(vars: map<string, string>, network: seq<Response>, clock: nat -> string, w: World): Exit {
    match LoadSettings(vars)
    case Invalid(_) => Exit(1, w)
    case Configured(s) =>
      var w1 := Truncated(s, w);
      match MaxBatchesSetting(vars)
      case None => Exit(1, w1)
      case Some(m) =>
        var r := Scrape(Env(s, network, clock, m), w1);
        Exit(if r.stop.Crash? then 1 else 0, r.world)
  }

  /** `main` succeeds exactly when the settings load, `MAX_BATCHES` is unset,
      empty or an integer, and no post made `save_batch` raise; a failure to
      load the settings leaves every file as it was. */
  lemma MainStatus(vars: map<string, string>, network: seq<Response>, clock: nat -> string, w: World)
    ensures var e := MainOutcome(vars, network, clock, w);
      (e.code == 0 || e.code == 1)
      && (e.code == 0 <==>
            LoadSettings(vars).Configured? && MaxBatchesSetting(vars).Some?
            && !Scrape(Env(LoadSettings(vars).settings, network, clock, MaxBatchesSetting(vars).value),
                       Truncated(LoadSettings(vars).settings, w)).stop.Crash?)
      && (LoadSettings(vars).Invalid? ==> e.world == w)
      && (LoadSettings(vars).Configured? && MaxBatchesSetting(vars).None? ==>
            e.world == Truncated(LoadSettings(vars).settings, w))
  {
  }

  /** `main()` on the scraper object. */
  method RunMain(vars: map<string, string>, network: seq<Response>, clock: nat -> string, prior: World)
    returns (code: int, world: World)
    ensures Exit(code, world) == MainOutcome(vars, network, clock, prior)
  {
    var loaded := LoadSettings(vars);
    if loaded.Invalid? {
      return 1, prior;
    }
    var scraper := new SidechatScraper(loaded.settings, network, clock, prior);
    var maxBatches := MaxBatchesSetting(vars);
    if maxBatches.None? {
      return 1, scraper.State();
    }
    var stop := scraper.ScrapeAllPosts(maxBatches.value);
    code := if stop.Crash? then 1 else 0;
    world := scraper.State();
  }
}
