/** The two caches of parsed files keyed by modification time: concurrent callers stat, look at the
    cache, read and store back in separate steps, while writers replace the files. */
module ReadCache {
  import opened ContentHash
  import opened Json
  import opened SyncBundle
  import opened Wrappers

  type FilePath = string
  datatype File = File(mtime: int, content: Text)
  type Disk = map<FilePath, File>

  datatype Entry = Entry(path: FilePath, mtime: int, readAt: int, doc: Option<Value>)

  const TTL_MS: int := 10_000

  /** `parse` is `JSON.parse`, `None` if it throws; a parsed file of another shape is taken for null.
      One of the readers drops its entry when the file is missing, the other keeps it. */
  datatype Reader = Reader(parse: Text -> Option<Value>, accepts: Value -> bool, clearsOnMissing: bool)

  datatype Kind = StringField | ArrayField

  predicate IsOf(o: Option<Value>, kind: Kind) {
    o.Some? && match kind case StringField => o.value.Str? case ArrayField => o.value.Arr?
  }

  predicate HasFields(v: Value, fields: seq<(Text, Kind)>) {
    forall i :: 0 <= i < |fields| ==> IsOf(Field(v, fields[i].0), fields[i].1)
  }

  const MANIFEST_FIELDS: seq<(Text, Kind)> := [(Ascii("bundleId"), StringField), (Ascii("generatedAt"), StringField)]
  const MODEL_FIELDS: seq<(Text, Kind)> := [(Ascii("defaultModel"), StringField), (Ascii("catalog"), ArrayField)]

  function ManifestReader(parse: Text -> Option<Value>): Reader {
    Reader(parse, (v: Value) => HasFields(v, MANIFEST_FIELDS), true)
  }

  function ModelReader(parse: Text -> Option<Value>): Reader {
    Reader(parse, (v: Value) => HasFields(v, MODEL_FIELDS), false)
  }

  function Interpret(r: Reader, content: Option<Text>): Option<Value> {
    if content.None? then None
    else
      var doc := r.parse(content.value);
      if doc.Some? && r.accepts(doc.value) then doc else None
  }

  // ----- What a caller does between its awaits -----

  datatype Lookup = Answer(doc: Option<Value>) | MustRead(mtime: int)

  predicate Hit(cache: Option<Entry>, path: FilePath, mtime: int, forced: bool, clock: int) {
    !forced && cache.Some? && cache.value.path == path && cache.value.mtime == mtime && clock - cache.value.readAt < TTL_MS
  }

  function LookUp(cache: Option<Entry>, path: FilePath, st: Option<int>, forced: bool, clock: int): Lookup {
    if st.None? then Answer(None)
    else if Hit(cache, path, st.value, forced, clock) then Answer(cache.value.doc)
    else MustRead(st.value)
  }

  function CacheAfterStat(r: Reader, cache: Option<Entry>, st: Option<int>): Option<Entry> {
    if st.None? && r.clearsOnMissing then None else cache
  }

  class Cache {
    const reader: Reader
    var entry: Option<Entry>

    constructor (reader: Reader)
      ensures this.reader == reader && entry == None
    {
      this.reader := reader;
      entry := None;
    }

    /** From the answer of `stat` to a return or to `readFile`. */
    method AfterStat(path: FilePath, st: Option<int>, forced: bool, clock: int) returns (next: Lookup)
      modifies this
      ensures next == LookUp(old(entry), path, st, forced, clock)
      ensures entry == CacheAfterStat(reader, old(entry), st)
    {
      if st.None? {
        if reader.clearsOnMissing { entry := None; }
        return Answer(None);
      }
      if !forced && entry.Some? && entry.value.path == path && entry.value.mtime == st.value
         && clock - entry.value.readAt < TTL_MS {
        return Answer(entry.value.doc);
      }
      return MustRead(st.value);
    }

    /** From the answer of `readFile` to the return; the entry is filed under the earlier `stat`. */
    method AfterRead(path: FilePath, mtime: int, raw: Option<Text>, clock: int) returns (doc: Option<Value>)
      modifies this
      ensures doc == Interpret(reader, raw)
      ensures entry == Some(Entry(path, mtime, clock, doc))
    {
      doc := None;
      if raw.Some? {
        var parsed := reader.parse(raw.value);
        if parsed.Some? && reader.accepts(parsed.value) { doc := parsed; }
      }
      entry := Some(Entry(path, mtime, clock, doc));
    }
  }

  // ----- Callers and writers interleaved -----

  datatype Stage =
    | Begun
    | Statted(st: Option<int>)
    | Reading(mtime: int)
    | HasRead(filedUnder: int, raw: Option<Text>)
    | Returned(doc: Option<Value>, at: nat, clock: int)

  /** A call and the instant it began. An answer has its instant and what the clock showed. */
  datatype Call = Call(path: FilePath, forced: bool, began: nat, stage: Stage)

  /** `now` counts the disk states of `history` passed so far. */
  datatype World = World(now: nat, cache: Option<Entry>, calls: seq<Call>)

  datatype Action =
    | Write
    | Begin(path: FilePath, forced: bool)
    | Stat(call: nat)
    | Check(call: nat, clock: int)
    | Read(call: nat)
    | Store(call: nat, clock: int)

  function MtimeOf(disk: Disk, path: FilePath): Option<int> {
    if path in disk then Some(disk[path].mtime) else None
  }

  function ContentOf(disk: Disk, path: FilePath): Option<Text> {
    if path in disk then Some(disk[path].content) else None
  }

  /** What a plain read would give. */
  function View(r: Reader, disk: Disk, path: FilePath): Option<Value> { Interpret(r, ContentOf(disk, path)) }

  function Put(w: World, i: nat, stage: Stage): World
    requires i < |w.calls|
  {
    w.(calls := w.calls[i := w.calls[i].(stage := stage)])
  }

  /** One step of a writer or of a caller; a step whose turn it is not does nothing. */
  function Step(r: Reader, history: seq<Disk>, w: World, a: Action): World
    requires w.now < |history|
  {
    match a
    case Write => if w.now + 1 < |history| then w.(now := w.now + 1) else w
    case Begin(path, forced) => w.(calls := w.calls + [Call(path, forced, w.now, Begun)])
    case Stat(i) =>
      if i < |w.calls| && w.calls[i].stage.Begun? then Put(w, i, Statted(MtimeOf(history[w.now], w.calls[i].path))) else w
    case Check(i, clock) =>
      if i < |w.calls| && w.calls[i].stage.Statted? then
        var c := w.calls[i];
        var next := LookUp(w.cache, c.path, c.stage.st, c.forced, clock);
        Put(w.(cache := CacheAfterStat(r, w.cache, c.stage.st)), i,
            if next.Answer? then Returned(next.doc, w.now, clock) else Reading(next.mtime))
      else w
    case Read(i) =>
      if i < |w.calls| && w.calls[i].stage.Reading?
      then Put(w, i, HasRead(w.calls[i].stage.mtime, ContentOf(history[w.now], w.calls[i].path)))
      else w
    case Store(i, clock) =>
      if i < |w.calls| && w.calls[i].stage.HasRead? then
        var c := w.calls[i];
        var doc := Interpret(r, c.stage.raw);
        Put(w.(cache := Some(Entry(c.path, c.stage.filedUnder, clock, doc))), i, Returned(doc, w.now, clock))
      else w
  }

  function Run(r: Reader, history: seq<Disk>, actions: seq<Action>): (w: World)
    requires history != []
    ensures w.now < |history|
  {
    if actions == [] then World(0, None, [])
    else Step(r, history, Run(r, history, actions[..|actions| - 1]), actions[|actions| - 1])
  }

  // ----- What the answers mean -----

  /** A fresh read at some instant from `lo` to `hi` would give `doc`. */
  predicate ViewedBetween(r: Reader, history: seq<Disk>, path: FilePath, doc: Option<Value>, lo: nat, hi: nat) {
    exists j :: lo <= j <= hi && j < |history| && View(r, history[j], path) == doc
  }

  /** A modification time comes back only if the file read alike all the while. */
  ghost predicate Honest(r: Reader, history: seq<Disk>) {
    forall path, i, j, k :: 0 <= i <= j < k < |history| ==> HonestAt(r, history, path, i, j, k)
  }

  predicate HonestAt(r: Reader, history: seq<Disk>, path: FilePath, i: nat, j: nat, k: nat)
    requires i <= j < k < |history|
  {
    path in history[i] && path in history[k] && history[i][path].mtime == history[k][path].mtime ==>
      View(r, history[j], path) == View(r, history[k], path)
  }

  predicate StattedAt(history: seq<Disk>, path: FilePath, st: Option<int>, i: nat) {
    i < |history| && MtimeOf(history[i], path) == st
  }

  predicate StattedBetween(history: seq<Disk>, path: FilePath, st: Option<int>, lo: nat, hi: nat) {
    exists i :: lo <= i <= hi && StattedAt(history, path, st, i)
  }

  predicate ViewedAt(r: Reader, history: seq<Disk>, path: FilePath, doc: Option<Value>, j: nat) {
    j < |history| && View(r, history[j], path) == doc
  }

  predicate StattedThenViewed(r: Reader, history: seq<Disk>, path: FilePath, mtime: int, doc: Option<Value>, lo: nat, hi: nat) {
    exists i, j :: lo <= i <= j <= hi && StattedAt(history, path, Some(mtime), i) && ViewedAt(r, history, path, doc, j)
  }

  /** What holds of a call at each stage; `timely` is whether its answer can be relied on. */
  predicate CallOk(r: Reader, history: seq<Disk>, now: nat, c: Call, timely: bool) {
    c.began <= now &&
    match c.stage
    case Begun => true
    case Statted(st) => StattedBetween(history, c.path, st, c.began, now)
    case Reading(mtime) => StattedBetween(history, c.path, Some(mtime), c.began, now)
    case HasRead(mtime, raw) => StattedThenViewed(r, history, c.path, mtime, Interpret(r, raw), c.began, now)
    case Returned(doc, at, _) => at <= now && (timely ==> ViewedBetween(r, history, c.path, doc, c.began, at))
  }

  predicate EntryOk(r: Reader, history: seq<Disk>, now: nat, e: Entry) {
    StattedThenViewed(r, history, e.path, e.mtime, e.doc, 0, now)
  }

  ghost predicate Ok(r: Reader, history: seq<Disk>, w: World) {
    && w.now < |history|
    && (w.cache.Some? ==> EntryOk(r, history, w.now, w.cache.value))
    && forall i :: 0 <= i < |w.calls| ==> CallOk(r, history, w.now, w.calls[i], w.calls[i].forced || Honest(r, history))
  }

  lemma LaterCall(r: Reader, history: seq<Disk>, now: nat, later: nat, c: Call, timely: bool)
    requires CallOk(r, history, now, c, timely) && now <= later
    ensures CallOk(r, history, later, c, timely)
  {
    hide View, Interpret;
    match c.stage
    case Statted(st) =>
      var i :| c.began <= i <= now && StattedAt(history, c.path, st, i);
    case Reading(mtime) =>
      var i :| c.began <= i <= now && StattedAt(history, c.path, Some(mtime), i);
    case HasRead(mtime, raw) =>
      var i, j :| c.began <= i <= j <= now && StattedAt(history, c.path, Some(mtime), i) && ViewedAt(r, history, c.path, Interpret(r, raw), j);
    case _ =>
  }

  lemma LaterEntry(r: Reader, history: seq<Disk>, now: nat, later: nat, e: Entry)
    requires EntryOk(r, history, now, e) && now <= later
    ensures EntryOk(r, history, later, e)
  {
    hide View;
    var i, j :| 0 <= i <= j <= now && StattedAt(history, e.path, Some(e.mtime), i) && ViewedAt(r, history, e.path, e.doc, j);
  }

  /** The heart of it: a hit answers with something read during the call, or with something read
      before it that still is what the file says. */
  lemma HitIsTimely(r: Reader, history: seq<Disk>, now: nat, e: Entry, began: nat)
    requires Honest(r, history) && EntryOk(r, history, now, e) && now < |history|
    requires StattedBetween(history, e.path, Some(e.mtime), began, now)
    ensures ViewedBetween(r, history, e.path, e.doc, began, now)
  {
    hide View;
    var k :| began <= k <= now && StattedAt(history, e.path, Some(e.mtime), k);
    var i, j :| 0 <= i <= j <= now && StattedAt(history, e.path, Some(e.mtime), i) && ViewedAt(r, history, e.path, e.doc, j);
    if began <= j {
      assert View(r, history[j], e.path) == e.doc;
    } else {
      assert HonestAt(r, history, e.path, i, j, k);
      assert View(r, history[k], e.path) == e.doc;
    }
  }

  lemma MissingIsTimely(r: Reader, history: seq<Disk>, path: FilePath, began: nat, now: nat)
    requires StattedBetween(history, path, None, began, now)
    ensures ViewedBetween(r, history, path, None, began, now)
  {
    var i :| began <= i <= now && StattedAt(history, path, None, i);
    assert View(r, history[i], path) == None;
  }

  lemma StatIsOk(r: Reader, history: seq<Disk>, now: nat, c: Call, timely: bool)
    requires now < |history| && CallOk(r, history, now, c, timely) && c.stage.Begun?
    ensures CallOk(r, history, now, c.(stage := Statted(MtimeOf(history[now], c.path))), timely)
  {
    assert StattedAt(history, c.path, MtimeOf(history[now], c.path), now);
  }

  lemma CheckIsOk(r: Reader, history: seq<Disk>, w: World, c: Call, clock: int)
    requires w.now < |history| && CallOk(r, history, w.now, c, c.forced || Honest(r, history)) && c.stage.Statted?
    requires w.cache.Some? ==> EntryOk(r, history, w.now, w.cache.value)
    ensures var next := LookUp(w.cache, c.path, c.stage.st, c.forced, clock);
      CallOk(r, history, w.now, c.(stage := if next.Answer? then Returned(next.doc, w.now, clock) else Reading(next.mtime)),
             c.forced || Honest(r, history))
  {
    if c.stage.st.None? {
      MissingIsTimely(r, history, c.path, c.began, w.now);
    } else if Hit(w.cache, c.path, c.stage.st.value, c.forced, clock) && Honest(r, history) {
      HitIsTimely(r, history, w.now, w.cache.value, c.began);
    }
    hide EntryOk, Honest, ViewedBetween, StattedBetween;
  }

  lemma ReadIsOk(r: Reader, history: seq<Disk>, now: nat, c: Call, timely: bool)
    requires now < |history| && CallOk(r, history, now, c, timely) && c.stage.Reading?
    ensures CallOk(r, history, now, c.(stage := HasRead(c.stage.mtime, ContentOf(history[now], c.path))), timely)
  {
    var i :| c.began <= i <= now && StattedAt(history, c.path, Some(c.stage.mtime), i);
    assert ViewedAt(r, history, c.path, Interpret(r, ContentOf(history[now], c.path)), now);
  }

  lemma StoreIsOk(r: Reader, history: seq<Disk>, now: nat, c: Call, clock: int, timely: bool)
    requires now < |history| && CallOk(r, history, now, c, timely) && c.stage.HasRead?
    ensures var doc := Interpret(r, c.stage.raw);
      && CallOk(r, history, now, c.(stage := Returned(doc, now, clock)), timely)
      && EntryOk(r, history, now, Entry(c.path, c.stage.filedUnder, clock, doc))
  {
    hide View;
    var doc := Interpret(r, c.stage.raw);
    var i, j :| c.began <= i <= j <= now && StattedAt(history, c.path, Some(c.stage.filedUnder), i) && ViewedAt(r, history, c.path, doc, j);
    assert View(r, history[j], c.path) == doc;
  }

  lemma StepKeepsOk(r: Reader, history: seq<Disk>, w: World, a: Action)
    requires Ok(r, history, w)
    ensures Ok(r, history, Step(r, history, w, a))
  {
    hide EntryOk, Honest, CallOk, LookUp, Interpret;
    match a
    case Write =>
      var later := Step(r, history, w, a).now;
      forall i | 0 <= i < |w.calls|
        ensures CallOk(r, history, later, w.calls[i], w.calls[i].forced || Honest(r, history))
      {
        LaterCall(r, history, w.now, later, w.calls[i], w.calls[i].forced || Honest(r, history));
      }
      if w.cache.Some? { LaterEntry(r, history, w.now, later, w.cache.value); }
    case Begin(path, forced) =>
      BeginIsOk(r, history, w.now, path, forced, forced || Honest(r, history));
    case Stat(i) =>
      if i < |w.calls| && w.calls[i].stage.Begun? {
        StatIsOk(r, history, w.now, w.calls[i], w.calls[i].forced || Honest(r, history));
      }
    case Check(i, clock) =>
      if i < |w.calls| && w.calls[i].stage.Statted? { CheckIsOk(r, history, w, w.calls[i], clock); }
    case Read(i) =>
      if i < |w.calls| && w.calls[i].stage.Reading? {
        ReadIsOk(r, history, w.now, w.calls[i], w.calls[i].forced || Honest(r, history));
      }
    case Store(i, clock) =>
      if i < |w.calls| && w.calls[i].stage.HasRead? {
        StoreIsOk(r, history, w.now, w.calls[i], clock, w.calls[i].forced || Honest(r, history));
      }
  }

  lemma BeginIsOk(r: Reader, history: seq<Disk>, now: nat, path: FilePath, forced: bool, timely: bool)
    ensures CallOk(r, history, now, Call(path, forced, now, Begun), timely)
  {}

  lemma {:induction false} RunIsOk(r: Reader, history: seq<Disk>, actions: seq<Action>)
    requires history != []
    ensures Ok(r, history, Run(r, history, actions))
  {
    if actions != [] {
      RunIsOk(r, history, actions[..|actions| - 1]);
      hide Ok, Step;
      StepKeepsOk(r, history, Run(r, history, actions[..|actions| - 1]), actions[|actions| - 1]);
    }
  }

  /** Every answer is what a plain read would have given at some instant during the call. */
  ghost predicate AllTimely(r: Reader, history: seq<Disk>, w: World) {
    forall i :: 0 <= i < |w.calls| && w.calls[i].stage.Returned? ==> CallTimely(r, history, w.calls[i])
  }

  predicate CallTimely(r: Reader, history: seq<Disk>, c: Call)
    requires c.stage.Returned?
  {
    ViewedBetween(r, history, c.path, c.stage.doc, c.began, c.stage.at)
  }

  /** Bypassing the cache is enough by itself: the comparison before a write relies on that. */
  lemma FreshIsTimely(r: Reader, history: seq<Disk>, actions: seq<Action>, i: nat)
    requires history != []
    requires var w := Run(r, history, actions); i < |w.calls| && w.calls[i].forced && w.calls[i].stage.Returned?
    ensures CallTimely(r, history, Run(r, history, actions).calls[i])
  {
    RunIsOk(r, history, actions);
    hide Run, ViewedBetween, Honest;
  }

  // ----- A modification time that comes back -----

  function Writes(n: nat): seq<Action> { seq(n, _ => Write) }

  lemma {:induction false} RunWrites(r: Reader, history: seq<Disk>, actions: seq<Action>, n: nat)
    requires history != [] && Run(r, history, actions).now + n < |history|
    ensures Run(r, history, actions + Writes(n)) == Run(r, history, actions).(now := Run(r, history, actions).now + n)
  {
    if n == 0 {
      assert actions + Writes(0) == actions;
    } else {
      RunWrites(r, history, actions, n - 1);
      var longer := actions + Writes(n);
      assert longer[..|longer| - 1] == actions + Writes(n - 1);
    }
  }

  lemma RunMore(r: Reader, history: seq<Disk>, actions: seq<Action>, a: Action)
    requires history != []
    ensures Run(r, history, actions + [a]) == Step(r, history, Run(r, history, actions), a)
  {
    assert (actions + [a])[..|actions|] == actions;
  }

  lemma StatsAt(r: Reader, history: seq<Disk>, path: FilePath, i: nat) returns (actions: seq<Action>)
    requires i < |history| && path in history[i]
    ensures Run(r, history, actions) == World(i, None, [Call(path, false, i, Reading(history[i][path].mtime))])
  {
    assert Run(r, history, []) == World(0, None, []);
    hide Run, Writes;
    RunWrites(r, history, [], i);
    var a0 := [] + Writes(i);
    RunMore(r, history, a0, Begin(path, false));
    var a1 := a0 + [Begin(path, false)];
    RunMore(r, history, a1, Stat(0));
    var a2 := a1 + [Stat(0)];
    RunMore(r, history, a2, Check(0, 0));
    actions := a2 + [Check(0, 0)];
  }

  /** A caller that stats at `i` and reads at `j` files the one under the other. */
  lemma FilesAcrossWrites(r: Reader, history: seq<Disk>, path: FilePath, i: nat, j: nat) returns (actions: seq<Action>)
    requires i <= j < |history| && path in history[i]
    ensures var doc := View(r, history[j], path);
      Run(r, history, actions) ==
        World(j, Some(Entry(path, history[i][path].mtime, 0, doc)), [Call(path, false, i, Returned(doc, j, 0))])
  {
    var a3 := StatsAt(r, history, path, i);
    hide Run, Writes;
    RunWrites(r, history, a3, j - i);
    var a4 := a3 + Writes(j - i);
    RunMore(r, history, a4, Read(0));
    var a5 := a4 + [Read(0)];
    RunMore(r, history, a5, Store(0, 0));
    actions := a5 + [Store(0, 0)];
  }

  /** The next caller hits. */
  lemma HitsNow(r: Reader, history: seq<Disk>, before: seq<Action>, w: World, mtime: int, doc: Option<Value>) returns (actions: seq<Action>)
    requires history != [] && Run(r, history, before) == w && |w.calls| == 1
    requires w.cache.Some? && w.cache.value.readAt == 0 && w.cache.value.mtime == mtime && w.cache.value.doc == doc
    requires MtimeOf(history[w.now], w.cache.value.path) == Some(mtime)
    ensures var after := Run(r, history, actions);
      |after.calls| == 2 && after.calls[1] == Call(w.cache.value.path, false, w.now, Returned(doc, w.now, 0))
  {
    hide Run, MtimeOf;
    var path := w.cache.value.path;
    RunMore(r, history, before, Begin(path, false));
    var a1 := before + [Begin(path, false)];
    RunMore(r, history, a1, Stat(1));
    var a2 := a1 + [Stat(1)];
    RunMore(r, history, a2, Check(1, 0));
    actions := a2 + [Check(1, 0)];
  }

  /** If the modification time then comes back at `k`, the next caller is told what the file said
      at `j`. */
  lemma ComebackMisleads(r: Reader, history: seq<Disk>, path: FilePath, i: nat, j: nat, k: nat) returns (actions: seq<Action>)
    requires i <= j < k < |history| && path in history[i] && path in history[k]
    requires history[i][path].mtime == history[k][path].mtime
    ensures var w := Run(r, history, actions);
      |w.calls| == 2 && w.calls[1] == Call(path, false, k, Returned(View(r, history[j], path), k, 0))
  {
    var a0 := FilesAcrossWrites(r, history, path, i, j);
    hide View, Run, Writes, Step;
    RunWrites(r, history, a0, k - j);
    var a1 := a0 + Writes(k - j);
    actions := HitsNow(r, history, a1, Run(r, history, a1), history[i][path].mtime, View(r, history[j], path));
  }

  lemma DishonestIsUntimely(r: Reader, history: seq<Disk>, path: FilePath, i: nat, j: nat, k: nat)
    requires i <= j < k < |history| && !HonestAt(r, history, path, i, j, k)
    ensures exists actions :: !AllTimely(r, history, Run(r, history, actions))
  {
    var actions := ComebackMisleads(r, history, path, i, j, k);
    hide Run;
    var w := Run(r, history, actions);
    assert !CallTimely(r, history, w.calls[1]);
    assert !AllTimely(r, history, w);
  }

  /** Every answer of every interleaving is timely exactly if a modification time comes back only
      when the file has read alike all the while; in particular if no write reuses one. */
  lemma TimelyExactly(r: Reader, history: seq<Disk>)
    requires history != []
    ensures Honest(r, history)
      <==> forall actions :: AllTimely(r, history, Run(r, history, actions))
  {
    if Honest(r, history) {
      forall actions ensures AllTimely(r, history, Run(r, history, actions)) {
        RunIsOk(r, history, actions);
        hide Run, ViewedBetween, Honest;
      }
    } else {
      var path, i, j, k :| 0 <= i <= j < k < |history| && !HonestAt(r, history, path, i, j, k);
      DishonestIsUntimely(r, history, path, i, j, k);
    }
  }

  /** No write reuses a modification time: two states of the disk that agree on it have the same
      file all the while. */
  ghost predicate NoMtimeReused(history: seq<Disk>) {
    forall path, i, j, k :: 0 <= i <= j < k < |history| ==> NotReusedAt(history, path, i, j, k)
  }

  predicate NotReusedAt(history: seq<Disk>, path: FilePath, i: nat, j: nat, k: nat)
    requires i <= j < k < |history|
  {
    path in history[i] && path in history[k] && history[i][path].mtime == history[k][path].mtime ==>
      path in history[j] && history[j][path] == history[k][path]
  }

  lemma NoReuseIsTimely(r: Reader, history: seq<Disk>, actions: seq<Action>)
    requires history != [] && NoMtimeReused(history)
    ensures AllTimely(r, history, Run(r, history, actions))
  {
    assert Honest(r, history) by {
      forall path, i, j, k | 0 <= i <= j < k < |history| ensures HonestAt(r, history, path, i, j, k) {
        assert NotReusedAt(history, path, i, j, k);
      }
    }
    hide Run, Honest, AllTimely;
    TimelyExactly(r, history);
  }

  // ----- How stale an answer can be -----

  function ClockOf(a: Action): Option<int> {
    match a
    case Check(_, clock) => Some(clock)
    case Store(_, clock) => Some(clock)
    case _ => None
  }

  /** The clock does not go back. */
  ghost predicate Monotone(actions: seq<Action>) {
    forall m, n :: 0 <= m < n < |actions| && ClockOf(actions[m]).Some? && ClockOf(actions[n]).Some? ==>
      ClockOf(actions[m]).value <= ClockOf(actions[n]).value
  }

  /** The c-th call was told the same of the same file, which the file did say during that call, and
      this was less than the time to live before. */
  predicate BackedBy(r: Reader, history: seq<Disk>, calls: seq<Call>, i: nat, c: nat) {
    i < |calls| && c < |calls| &&
    match (calls[i].stage, calls[c].stage)
    case (Returned(doc, _, clock), Returned(told, _, before)) =>
      && calls[c].path == calls[i].path && told == doc && CallTimely(r, history, calls[c])
      && before <= clock < before + TTL_MS
    case _ => false
  }

  ghost predicate Recent(r: Reader, history: seq<Disk>, calls: seq<Call>, i: nat) {
    exists c :: BackedBy(r, history, calls, i, c)
  }

  ghost predicate AllRecent(r: Reader, history: seq<Disk>, calls: seq<Call>) {
    forall i :: 0 <= i < |calls| && calls[i].stage.Returned? ==> Recent(r, history, calls, i)
  }

  /** The call that filed an entry. */
  predicate FiledBy(r: Reader, history: seq<Disk>, calls: seq<Call>, e: Entry, c: nat) {
    && c < |calls| && calls[c].stage.Returned? && calls[c].path == e.path && calls[c].stage.doc == e.doc
    && calls[c].stage.clock == e.readAt && CallTimely(r, history, calls[c])
  }

  ghost predicate Filed(r: Reader, history: seq<Disk>, w: World) {
    w.cache.Some? ==> exists c :: FiledBy(r, history, w.calls, w.cache.value, c)
  }

  /** The entry was filed when some earlier clock reading was taken. */
  ghost predicate FiledEarlier(actions: seq<Action>, w: World) {
    w.cache.Some? ==> exists m :: 0 <= m < |actions| && ClockOf(actions[m]) == Some(w.cache.value.readAt)
  }

  /** Answers given are not taken back. */
  predicate Goes(calls: seq<Call>, later: seq<Call>) {
    |calls| <= |later| && forall c :: 0 <= c < |calls| && calls[c].stage.Returned? ==> later[c] == calls[c]
  }

  lemma StepGoes(r: Reader, history: seq<Disk>, w: World, a: Action)
    requires w.now < |history|
    ensures Goes(w.calls, Step(r, history, w, a).calls)
  {
    hide LookUp, Interpret, ContentOf, MtimeOf;
  }

  lemma RecentStays(r: Reader, history: seq<Disk>, calls: seq<Call>, later: seq<Call>, i: nat)
    requires Goes(calls, later) && i < |calls| && calls[i].stage.Returned? && Recent(r, history, calls, i)
    ensures Recent(r, history, later, i)
  {
    hide CallTimely;
    var c :| BackedBy(r, history, calls, i, c);
    assert BackedBy(r, history, later, i, c);
  }

  lemma FiledStays(r: Reader, history: seq<Disk>, calls: seq<Call>, later: seq<Call>, e: Entry, c: nat)
    requires Goes(calls, later) && FiledBy(r, history, calls, e, c)
    ensures FiledBy(r, history, later, e, c)
  {
    hide CallTimely;
  }

  lemma TimelyIsRecent(r: Reader, history: seq<Disk>, calls: seq<Call>, i: nat)
    requires i < |calls| && calls[i].stage.Returned? && CallTimely(r, history, calls[i])
    ensures Recent(r, history, calls, i)
  {
    hide CallTimely;
    assert BackedBy(r, history, calls, i, i);
  }

  lemma HitIsRecent(r: Reader, history: seq<Disk>, calls: seq<Call>, later: seq<Call>, e: Entry, i: nat)
    requires Goes(calls, later) && exists c :: FiledBy(r, history, calls, e, c)
    requires i < |later| && later[i].stage.Returned? && later[i].path == e.path && later[i].stage.doc == e.doc
    requires e.readAt <= later[i].stage.clock < e.readAt + TTL_MS
    ensures Recent(r, history, later, i)
  {
    hide CallTimely;
    var c :| FiledBy(r, history, calls, e, c);
    assert BackedBy(r, history, later, i, c);
  }

  /** The call a step answers, if it answers one. */
  lemma AnsweredIsRecent(r: Reader, history: seq<Disk>, w: World, a: Action, i: nat)
    requires Ok(r, history, w) && Filed(r, history, w)
    requires ClockOf(a).Some? && w.cache.Some? ==> w.cache.value.readAt <= ClockOf(a).value
    requires var next := Step(r, history, w, a);
      i < |next.calls| && next.calls[i].stage.Returned? && (i < |w.calls| ==> !w.calls[i].stage.Returned?)
    ensures Recent(r, history, Step(r, history, w, a).calls, i)
  {
    var next := Step(r, history, w, a);
    StepGoes(r, history, w, a);
    var c := w.calls[i];
    assert CallOk(r, history, w.now, c, c.forced || Honest(r, history));
    match a
    case Check(_, clock) =>
      hide Honest, ViewedBetween, Interpret, View;
      if c.stage.st.None? {
        MissingIsTimely(r, history, c.path, c.began, w.now);
        TimelyIsRecent(r, history, next.calls, i);
      } else {
        HitIsRecent(r, history, w.calls, next.calls, w.cache.value, i);
      }
    case Store(_, clock) =>
      hide Honest, ViewedBetween, Interpret, View;
      StoreIsOk(r, history, w.now, c, clock, true);
      TimelyIsRecent(r, history, next.calls, i);
    case _ =>
  }

  lemma StepKeepsFiled(r: Reader, history: seq<Disk>, w: World, a: Action)
    requires Ok(r, history, w) && Filed(r, history, w)
    ensures Filed(r, history, Step(r, history, w, a))
  {
    var next := Step(r, history, w, a);
    StepGoes(r, history, w, a);
    if a.Store? && a.call < |w.calls| && w.calls[a.call].stage.HasRead? {
      var c := w.calls[a.call];
      assert CallOk(r, history, w.now, c, c.forced || Honest(r, history));
      hide Honest, ViewedBetween, Interpret, View, Ok;
      StoreIsOk(r, history, w.now, c, a.clock, true);
      assert FiledBy(r, history, next.calls, next.cache.value, a.call);
    } else if next.cache.Some? {
      hide Honest, CallTimely, Interpret, View, Ok;
      var c :| FiledBy(r, history, w.calls, w.cache.value, c);
      FiledStays(r, history, w.calls, next.calls, w.cache.value, c);
    }
  }

  /** Every entry was filed before, so with a monotone clock no later reading is less. */
  lemma FiledBefore(actions: seq<Action>, w: World)
    requires actions != [] && Monotone(actions) && FiledEarlier(actions[..|actions| - 1], w)
    ensures ClockOf(actions[|actions| - 1]).Some? && w.cache.Some? ==>
      w.cache.value.readAt <= ClockOf(actions[|actions| - 1]).value
  {
    if w.cache.Some? {
      var front := actions[..|actions| - 1];
      var m :| 0 <= m < |front| && ClockOf(front[m]) == Some(w.cache.value.readAt);
      assert front[m] == actions[m];
    }
  }

  lemma StepKeepsFiledEarlier(r: Reader, history: seq<Disk>, actions: seq<Action>, w: World, a: Action)
    requires w.now < |history| && FiledEarlier(actions, w)
    ensures FiledEarlier(actions + [a], Step(r, history, w, a))
  {
    hide LookUp, Interpret, ContentOf, MtimeOf;
    var next := Step(r, history, w, a);
    if next.cache.Some? {
      if next.cache == w.cache {
        var m :| 0 <= m < |actions| && ClockOf(actions[m]) == Some(w.cache.value.readAt);
        assert (actions + [a])[m] == actions[m];
      } else {
        assert (actions + [a])[|actions|] == a;
      }
    }
  }

  lemma {:induction false} RunIsRecent(r: Reader, history: seq<Disk>, actions: seq<Action>)
    requires history != [] && Monotone(actions)
    ensures var w := Run(r, history, actions);
      && AllRecent(r, history, w.calls)
      && Filed(r, history, w)
      && FiledEarlier(actions, w)
  {
    if actions != [] {
      var front, a := actions[..|actions| - 1], actions[|actions| - 1];
      assert Monotone(front);
      RunIsRecent(r, history, front);
      RunIsOk(r, history, front);
      var w := Run(r, history, front);
      FiledBefore(actions, w);
      assert front + [a] == actions;
      hide Ok, Recent, Filed, FiledEarlier, Step, Monotone;
      StepKeepsFiled(r, history, w, a);
      StepKeepsFiledEarlier(r, history, front, w, a);
      StepGoes(r, history, w, a);
      var next := Step(r, history, w, a);
      forall i: nat | i < |next.calls| && next.calls[i].stage.Returned? ensures Recent(r, history, next.calls, i) {
        if i < |w.calls| && w.calls[i].stage.Returned? {
          RecentStays(r, history, w.calls, next.calls, i);
        } else {
          AnsweredIsRecent(r, history, w, a, i);
        }
      }
    }
  }

  /** Whatever the modification times do, an answer is at most the time to live old: it is what the
      file said during the call, or during another call that was answered less than ten seconds
      before by the clock. */
  lemma AnswersAreRecent(r: Reader, history: seq<Disk>, actions: seq<Action>, i: nat) returns (c: nat)
    requires history != [] && Monotone(actions)
    requires var w := Run(r, history, actions); i < |w.calls| && w.calls[i].stage.Returned?
    ensures BackedBy(r, history, Run(r, history, actions).calls, i, c)
  {
    RunIsRecent(r, history, actions);
    hide Run, CallTimely;
    assert Recent(r, history, Run(r, history, actions).calls, i);
    c :| BackedBy(r, history, Run(r, history, actions).calls, i, c);
  }

  // ----- What an answer is, whatever the clock shows -----

  /** The answer is what the file said at some instant before, be it before the call. */
  predicate WasRead(r: Reader, history: seq<Disk>, c: Call) {
    c.stage.Returned? ==> ViewedBetween(r, history, c.path, c.stage.doc, 0, c.stage.at)
  }

  lemma AnsweredWasRead(r: Reader, history: seq<Disk>, w: World, a: Action, i: nat)
    requires Ok(r, history, w)
    requires i < |Step(r, history, w, a).calls| && (i < |w.calls| ==> WasRead(r, history, w.calls[i]))
    ensures WasRead(r, history, Step(r, history, w, a).calls[i])
  {
    if i < |w.calls| && w.calls[i].stage.Statted? && a.Check? && a.call == i {
      var c := w.calls[i];
      assert CallOk(r, history, w.now, c, c.forced || Honest(r, history));
      hide Honest, View, Interpret;
      if c.stage.st.None? {
        MissingIsTimely(r, history, c.path, c.began, w.now);
      } else if w.cache.Some? {
        var e := w.cache.value;
        var k, j :| 0 <= k <= j <= w.now && StattedAt(history, e.path, Some(e.mtime), k) && ViewedAt(r, history, e.path, e.doc, j);
      }
    } else if i < |w.calls| && w.calls[i].stage.HasRead? && a.Store? && a.call == i {
      var c := w.calls[i];
      assert CallOk(r, history, w.now, c, c.forced || Honest(r, history));
      hide Honest, View, Interpret;
      StoreIsOk(r, history, w.now, c, a.clock, true);
    } else {
      hide Ok, View, Interpret, LookUp;
    }
  }

  lemma {:induction false} RunWasRead(r: Reader, history: seq<Disk>, actions: seq<Action>)
    requires history != []
    ensures forall c :: c in Run(r, history, actions).calls ==> WasRead(r, history, c)
  {
    if actions != [] {
      var front, a := actions[..|actions| - 1], actions[|actions| - 1];
      RunWasRead(r, history, front);
      RunIsOk(r, history, front);
      var w := Run(r, history, front);
      hide Ok, WasRead, Step;
      forall i | 0 <= i < |Step(r, history, w, a).calls| ensures WasRead(r, history, Step(r, history, w, a).calls[i]) {
        AnsweredWasRead(r, history, w, a, i);
      }
    }
  }

  /** In every run, on any clock, an answer is what the file of the call said at some instant up to
      the answer. */
  lemma AnswersWereRead(r: Reader, history: seq<Disk>, actions: seq<Action>, i: nat)
    requires history != []
    requires var w := Run(r, history, actions); i < |w.calls| && w.calls[i].stage.Returned?
    ensures var c := Run(r, history, actions).calls[i];
      ViewedBetween(r, history, c.path, c.stage.doc, 0, c.stage.at)
  {
    RunWasRead(r, history, actions);
    hide Run, ViewedBetween;
    assert Run(r, history, actions).calls[i] in Run(r, history, actions).calls;
  }

  /** So every answer that is not null has the shape its reader accepts. */
  lemma AnswersAccepted(r: Reader, history: seq<Disk>, actions: seq<Action>, i: nat)
    requires history != []
    requires var w := Run(r, history, actions); i < |w.calls| && w.calls[i].stage.Returned?
    ensures var doc := Run(r, history, actions).calls[i].stage.doc; doc.Some? ==> r.accepts(doc.value)
  {
    AnswersWereRead(r, history, actions, i);
    var c := Run(r, history, actions).calls[i];
    hide Run;
    var j :| 0 <= j <= c.stage.at && j < |history| && View(r, history[j], c.path) == c.stage.doc;
  }

  /** What callers of the two readers rely on. */
  lemma ManifestAnswers(parse: Text -> Option<Value>, history: seq<Disk>, actions: seq<Action>, i: nat)
    requires history != []
    requires var w := Run(ManifestReader(parse), history, actions); i < |w.calls| && w.calls[i].stage.Returned?
    ensures var doc := Run(ManifestReader(parse), history, actions).calls[i].stage.doc;
      doc.Some? ==> HasFields(doc.value, MANIFEST_FIELDS)
  {
    hide Run, HasFields;
    AnswersAccepted(ManifestReader(parse), history, actions, i);
  }

  lemma ModelAnswers(parse: Text -> Option<Value>, history: seq<Disk>, actions: seq<Action>, i: nat)
    requires history != []
    requires var w := Run(ModelReader(parse), history, actions); i < |w.calls| && w.calls[i].stage.Returned?
    ensures var doc := Run(ModelReader(parse), history, actions).calls[i].stage.doc;
      doc.Some? ==> HasFields(doc.value, MODEL_FIELDS)
  {
    hide Run, HasFields;
    AnswersAccepted(ModelReader(parse), history, actions, i);
  }

  // ----- Ten seconds -----

  /** An entry of the file as it is now answers for ten seconds by the clock, and not a millisecond
      longer; a forced read never uses it. */
  lemma TenSeconds(path: FilePath, mtime: int, readAt: int, doc: Option<Value>, forced: bool, clock: int)
    ensures LookUp(Some(Entry(path, mtime, readAt, doc)), path, Some(mtime), forced, clock) ==
      if !forced && clock <= readAt + 9999 then Answer(doc) else MustRead(mtime)
  {}

  /** When the file is missing the reader of manifests forgets what it has read, and the reader of
      models does not. */
  lemma MissingFile(parse: Text -> Option<Value>, e: Entry)
    ensures CacheAfterStat(ManifestReader(parse), Some(e), None) == None
    ensures CacheAfterStat(ModelReader(parse), Some(e), None) == Some(e)
  {}

  /** The fields the two readers ask for, under their names. */
  lemma ReadersByName(parse: Text -> Option<Value>, v: Value)
    ensures ManifestReader(parse).accepts(v) <==>
      && (match Field(v, Ascii("bundleId")) case Some(id) => id.Str? case None => false)
      && (match Field(v, Ascii("generatedAt")) case Some(t) => t.Str? case None => false)
    ensures ModelReader(parse).accepts(v) <==>
      && (match Field(v, Ascii("defaultModel")) case Some(m) => m.Str? case None => false)
      && (match Field(v, Ascii("catalog")) case Some(c) => c.Arr? case None => false)
  {
    hide Ascii, Field;
    assert MANIFEST_FIELDS[0].0 == Ascii("bundleId") && MANIFEST_FIELDS[1].0 == Ascii("generatedAt");
    assert MODEL_FIELDS[0].0 == Ascii("defaultModel") && MODEL_FIELDS[1].0 == Ascii("catalog");
  }
}
