/**
 * User ban checks, upserts and lifts of one user, interleaved at every Redis or
 * database call and every clock reading of a check; a writer reads the clock in the step
 * that uses it. Other users have other keys and other rows.
 * The user cache has no version, so its promise is bounded staleness: a verdict was
 * the database's answer at most a known time ago.
 *
 * Redis never serves an entry at or after the instant it dies, and may forget it
 * earlier. No Redis call fails.
 */
module UserBanProtocol {
  import opened Common
  import opened BanRecords

  /** The queries' target: the one user of this model. */
  const SUBJECT: Target := User(0)

  datatype CheckPoint =
    | AskCache
    | JudgePositive(entry: Entry)
    | DropCache
    | Stamp
    | Query(asked: Instant)
    | Put(entry: Entry, built: Instant)
    | Answered(banned: bool, at: nat)

  datatype UpsertPoint =
    | FindOpen
    | WriteRow(slot: Option<nat>)
    | CacheRow(row: Ban)
    | Upserted
    | UpsertFailed

  datatype LiftPoint =
    | FindLifted
    | LiftRow(slot: Option<nat>)
    | DeleteEntry
    | LiftDone
    | LiftFailed

  datatype Call =
    | Check(start: Instant, check: CheckPoint)
    | Upsert(start: Instant, until: Option<Instant>, upsert: UpsertPoint)
    | Lift(start: Instant, lift: LiftPoint)

  /** `steps` counts the steps of the run, so that a verdict can name its state. */
  datatype World = World(now: Instant, rows: seq<Ban>, cache: Option<Entry>, calls: map<nat, Call>, steps: nat)

  datatype Ttls = Ttls(negative: nat, permanent: nat)

  datatype Event = Tick(passed: nat) | Forget | Start(id: nat, call: Call) | Advance(id: nat)

  predicate Completed(call: Call) {
    match call
    case Check(_, point) => point.Answered?
    case Upsert(_, _, point) => point.Upserted? || point.UpsertFailed?
    case Lift(_, point) => point.LiftDone? || point.LiftFailed?
  }

  predicate Enabled(w: World, ev: Event) {
    match ev
    case Start(id, call) =>
      && id !in w.calls
      && call.start == w.now
      && match call {
        case Check(_, point) => point == AskCache
        case Upsert(_, _, point) => point == FindOpen
        case Lift(_, point) => point == FindLifted
      }
    case Advance(id) => id in w.calls && !Completed(w.calls[id])
    case _ => true
  }

  /** One step of a check. A negative entry is served as it is read: its expiry is not
      consulted. */
  function AdvanceCheck(w: World, ttls: Ttls, point: CheckPoint): (r: (World, CheckPoint))
    requires !point.Answered?
    ensures r.0.calls == w.calls && r.0.rows == w.rows && r.0.now == w.now && r.0.steps == w.steps
  {
    match point
    case AskCache =>
      if w.cache.None? || w.now >= w.cache.value.dies then (w, Stamp)
      else if w.cache.value.banned then (w, JudgePositive(w.cache.value))
      else (w, Answered(false, w.steps))
    case JudgePositive(entry) => (w, if EntryExpired(entry, w.now) then DropCache else Answered(true, w.steps))
    case DropCache => (w.(cache := None), Stamp)
    case Stamp => (w, Query(w.now))
    case Query(asked) =>
      (w, Put(QueryEntry(w.rows, Exactly(SUBJECT), asked, w.now, ttls.permanent, ttls.negative), w.now))
    case Put(entry, built) =>
      (w.(cache := Some(entry.(dies := w.now + entry.dies - built))), Answered(entry.banned, w.steps))
  }

  function AdvanceUpsert(w: World, ttls: Ttls, until: Option<Instant>, point: UpsertPoint): (r: (World, UpsertPoint))
    requires !point.Upserted? && !point.UpsertFailed?
    ensures r.0.calls == w.calls && r.0.now == w.now && r.0.steps == w.steps
  {
    match point
    case FindOpen => (w, WriteRow(Latest(w.rows, Exactly(SUBJECT), None)))
    case WriteRow(slot) =>
      var row := Ban(SUBJECT, until, w.now, None);
      if (slot.Some? && slot.value >= |w.rows|) || Refused(w.rows, slot, row) then (w, UpsertFailed)
      else (w.(rows := Store(w.rows, slot, row)), CacheRow(row))
    case CacheRow(row) => (w.(cache := Some(EntryFor(row, w.now, ttls.permanent))), Upserted)
  }

  function AdvanceLift(w: World, point: LiftPoint): (r: (World, LiftPoint))
    requires !point.LiftDone? && !point.LiftFailed?
    ensures r.0.calls == w.calls && r.0.now == w.now && r.0.steps == w.steps
  {
    match point
    case FindLifted => (w, LiftRow(Latest(w.rows, Exactly(SUBJECT), None)))
    case LiftRow(slot) =>
      if slot.None? then (w, DeleteEntry)
      else if slot.value >= |w.rows| then (w, LiftFailed)
      else (w.(rows := w.rows[slot.value := w.rows[slot.value].(liftedAt := Some(w.now))]), DeleteEntry)
    case DeleteEntry => (w.(cache := None), LiftDone)
  }

  function AdvanceCall(w: World, ttls: Ttls, call: Call): (r: (World, Call))
    requires !Completed(call)
    ensures r.0.calls == w.calls && r.0.now == w.now && r.0.steps == w.steps && r.1.start == call.start
  {
    match call
    case Check(start, point) =>
      var r := AdvanceCheck(w, ttls, point);
      (r.0, Check(start, r.1))
    case Upsert(start, until, point) =>
      var r := AdvanceUpsert(w, ttls, until, point);
      (r.0, Upsert(start, until, r.1))
    case Lift(start, point) =>
      var r := AdvanceLift(w, point);
      (r.0, Lift(start, r.1))
  }

  function Step(w: World, ttls: Ttls, ev: Event): (w': World)
    requires Enabled(w, ev)
    ensures w'.steps == w.steps + 1 && w'.now >= w.now
  {
    var w' := match ev {
      case Tick(passed) => w.(now := w.now + passed)
      case Forget => w.(cache := None)
      case Start(id, call) => w.(calls := w.calls[id := call])
      case Advance(id) =>
        var r := AdvanceCall(w, ttls, w.calls[id]);
        r.0.(calls := w.calls[id := r.1])
    };
    w'.(steps := w.steps + 1)
  }

  // ---------------------------------------------------------------- runs

  ghost predicate StepsTo(w: World, ttls: Ttls, ev: Event, w': World) {
    Enabled(w, ev) && w' == Step(w, ttls, ev)
  }

  ghost predicate StepAt(run: seq<World>, ttls: Ttls, events: seq<Event>, i: nat)
    requires i < |events| && |run| == |events| + 1
  {
    StepsTo(run[i], ttls, events[i], run[i + 1])
  }

  /** No call is still running more than `limit` after its start. */
  ghost predicate Timely(w: World, limit: nat) {
    forall id | id in w.calls && !Completed(w.calls[id]) :: w.now <= w.calls[id].start + limit
  }

  ghost predicate Run(run: seq<World>, ttls: Ttls, events: seq<Event>, limit: nat) {
    && |run| == |events| + 1
    && run[0].cache == None && run[0].calls == map[] && run[0].steps == 0
    && (forall i: nat {:trigger StepAt(run, ttls, events, i)} | i < |events| :: StepAt(run, ttls, events, i))
    && (forall i | 0 <= i < |run| :: Timely(run[i], limit))
  }

  lemma {:induction false} Forward(run: seq<World>, ttls: Ttls, events: seq<Event>, limit: nat, i: nat, j: nat)
    requires Run(run, ttls, events, limit) && i <= j < |run|
    ensures run[i].now <= run[j].now && run[j].steps == j
    decreases j
  {
    if j > 0 {
      assert StepAt(run, ttls, events, j - 1);
      Forward(run, ttls, events, limit, if i == j then i - 1 else i, j - 1);
    }
  }

  /** How long Redis may keep an entry of each kind. */
  function Life(ttls: Ttls, banned: bool): int {
    if banned then Seconds(Max(TEMP_BAN_CACHE_CAP_SECS, ttls.permanent)) else Seconds(Max(ttls.negative, 1))
  }

  /** How old a verdict of each kind may be. */
  function Lag(ttls: Ttls, limit: nat, banned: bool): int {
    Life(ttls, banned) + if banned then 2 * limit else limit
  }

  /** The step from `w` to `w'` is some check's database query. */
  ghost predicate Queries(w: World, w': World) {
    exists id :: QueriesAs(w, w', id)
  }

  ghost predicate QueriesAs(w: World, w': World, id: nat) {
    && id in w.calls && w.calls[id].Check? && w.calls[id].check.Query?
    && id in w'.calls && w'.calls[id].Check? && w'.calls[id].check.Put?
  }

  /** The entry is backed by the rows of state `k` and dies within its life of a write
      made at most `limit` after that state. A negative one is what a check's query read
      in that state. */
  ghost predicate EntryFrom(run: seq<World>, n: nat, ttls: Ttls, limit: nat, e: Entry, k: nat) {
    && k <= n < |run|
    && Backed(run[k].rows, Exactly(SUBJECT), e, run[k].now)
    && e.dies <= run[k].now + limit + Life(ttls, e.banned)
    && (!e.banned ==> k < n && Queries(run[k], run[k + 1]))
  }

  ghost predicate Sourced(run: seq<World>, n: nat, ttls: Ttls, limit: nat, e: Entry) {
    exists k :: EntryFrom(run, n, ttls, limit, e, k)
  }

  /** The entry about to be written by a call started at `start`. */
  ghost predicate PutFrom(run: seq<World>, n: nat, ttls: Ttls, start: Instant, e: Entry, built: Instant,
          asked: Instant, k: nat)
  {
    && k < n < |run|
    && Queries(run[k], run[k + 1])
    && start <= asked <= run[k].now
    && (e.banned <==> Banned(run[k].rows, Exactly(SUBJECT), asked))
    && Backed(run[k].rows, Exactly(SUBJECT), e, run[k].now)
    && e.dies - built <= Life(ttls, e.banned)
  }

  ghost predicate RowFrom(run: seq<World>, n: nat, start: Instant, row: Ban, k: nat) {
    && k <= n < |run|
    && start <= run[k].now
    && row.target == SUBJECT && row.Unlifted() && row in run[k].rows
  }

  /** The verdict completed in state `at` was the database's answer at state `k`, for a
      clock reading `t` that is recent. A clearance was read from the database by a check's
      query in that very state. */
  ghost predicate VerdictFrom(run: seq<World>, ttls: Ttls, limit: nat, banned: bool, at: nat, k: nat, t: Instant) {
    && k <= at < |run|
    && t <= run[k].now
    && (banned <==> Banned(run[k].rows, Exactly(SUBJECT), t))
    && run[at].now < t + Lag(ttls, limit, banned)
    && (!banned ==> k < at && Queries(run[k], run[k + 1]))
  }

  /** Some state so far had a row that bans the user and had not run out at `start`. */
  ghost predicate StillRunning(run: seq<World>, n: nat, start: Instant) {
    n < |run| && exists k | 0 <= k <= n :: Banned(run[k].rows, Exactly(SUBJECT), start)
  }

  ghost predicate Traced(run: seq<World>, ttls: Ttls, limit: nat, n: nat, call: Call)
    requires n < |run|
  {
    && call.start <= run[n].now
    && match call {
      case Check(start, point) => (
        match point {
          case JudgePositive(entry) => entry.banned && start < entry.dies && Sourced(run, n, ttls, limit, entry)
          case Query(asked) => start <= asked <= run[n].now
          case Put(entry, built) => exists asked, k :: PutFrom(run, n, ttls, start, entry, built, asked, k)
          case Answered(banned, at) =>
            && at <= n
            && (exists k, t :: VerdictFrom(run, ttls, limit, banned, at, k, t))
            && (banned ==> StillRunning(run, n, start))
          case _ => true
        })
      case Upsert(start, until, point) => point.CacheRow? ==> exists k :: RowFrom(run, n, start, point.row, k)
      case Lift(_, _) => true
    }
  }

  ghost predicate AllTraced(run: seq<World>, ttls: Ttls, limit: nat, n: nat)
    requires n < |run|
  {
    && (run[n].cache.Some? ==> Sourced(run, n, ttls, limit, run[n].cache.value))
    && (forall id | id in run[n].calls :: Traced(run, ttls, limit, n, run[n].calls[id]))
  }

  lemma StaysTraced(run: seq<World>, ttls: Ttls, events: seq<Event>, limit: nat, n: nat, call: Call)
    requires Run(run, ttls, events, limit) && n + 1 < |run| && Traced(run, ttls, limit, n, call)
    ensures Traced(run, ttls, limit, n + 1, call)
  {
    Forward(run, ttls, events, limit, n, n + 1);
    match call
    case Check(start, JudgePositive(entry)) =>
      var k: nat :| EntryFrom(run, n, ttls, limit, entry, k);
      assert EntryFrom(run, n + 1, ttls, limit, entry, k);
    case Check(start, Put(entry, built)) =>
      var asked, k: nat :| PutFrom(run, n, ttls, start, entry, built, asked, k);
      assert PutFrom(run, n + 1, ttls, start, entry, built, asked, k);
    case Upsert(start, until, CacheRow(row)) =>
      var k: nat :| RowFrom(run, n, start, row, k);
      assert RowFrom(run, n + 1, start, row, k);
    case _ =>
  }

  lemma ServedVerdictIsRecent(run: seq<World>, ttls: Ttls, events: seq<Event>, limit: nat, n: nat, e: Entry,
          start: Instant)
    requires Run(run, ttls, events, limit) && n < |run|
    requires Sourced(run, n, ttls, limit, e)
    requires start <= run[n].now <= start + limit
    requires if e.banned then start < e.dies && !EntryExpired(e, run[n].now) else run[n].now < e.dies
    ensures exists k, t :: VerdictFrom(run, ttls, limit, e.banned, n, k, t)
    ensures e.banned ==> StillRunning(run, n, start)
  {
    var k: nat :| EntryFrom(run, n, ttls, limit, e, k);
    Forward(run, ttls, events, limit, k, n);
    ServedEntryIsExact(run[k].rows, Exactly(SUBJECT), e, run[k].now, run[n].now);
    assert e.banned <==> Banned(run[k].rows, Exactly(SUBJECT), run[k].now);
    assert e.banned ==> Banned(run[k].rows, Exactly(SUBJECT), start);
    assert VerdictFrom(run, ttls, limit, e.banned, n, k, run[k].now);
  }

  lemma PutKeepsTrace(run: seq<World>, ttls: Ttls, events: seq<Event>, limit: nat, n: nat, start: Instant, e: Entry,
          built: Instant)
    requires Run(run, ttls, events, limit) && n + 1 < |run| && run[n + 1].now == run[n].now
    requires exists asked, k :: PutFrom(run, n, ttls, start, e, built, asked, k)
    requires start <= run[n].now <= start + limit
    ensures Sourced(run, n + 1, ttls, limit, e.(dies := run[n].now + e.dies - built))
    ensures exists k, t :: VerdictFrom(run, ttls, limit, e.banned, n, k, t)
    ensures e.banned ==> StillRunning(run, n, start)
  {
    var asked, k: nat :| PutFrom(run, n, ttls, start, e, built, asked, k);
    assert EntryFrom(run, n + 1, ttls, limit, e.(dies := run[n].now + e.dies - built), k);
    assert VerdictFrom(run, ttls, limit, e.banned, n, k, asked);
    assert e.banned ==> Banned(run[k].rows, Exactly(SUBJECT), start);
  }

  lemma SourcedStays(run: seq<World>, n: nat, ttls: Ttls, limit: nat, e: Entry)
    requires Sourced(run, n, ttls, limit, e) && n + 1 < |run|
    ensures Sourced(run, n + 1, ttls, limit, e)
  {
    var k: nat :| EntryFrom(run, n, ttls, limit, e, k);
    assert EntryFrom(run, n + 1, ttls, limit, e, k);
  }

  lemma PutIsTraced(run: seq<World>, ttls: Ttls, events: seq<Event>, limit: nat, n: nat, id: nat)
    requires Run(run, ttls, events, limit) && n + 1 < |run|
    requires events[n] == Advance(id) && id in run[n].calls && Traced(run, ttls, limit, n, run[n].calls[id])
    requires run[n].calls[id].Check? && run[n].calls[id].check.Put?
    ensures id in run[n + 1].calls && Traced(run, ttls, limit, n + 1, run[n + 1].calls[id])
    ensures run[n + 1].cache.Some? && Sourced(run, n + 1, ttls, limit, run[n + 1].cache.value)
  {
    assert StepAt(run, ttls, events, n);
    Forward(run, ttls, events, limit, n, n);
    assert Timely(run[n], limit);
    var Check(start, Put(entry, built)) := run[n].calls[id];
    PutKeepsTrace(run, ttls, events, limit, n, start, entry, built);
  }

  lemma AskedCacheIsTraced(run: seq<World>, ttls: Ttls, events: seq<Event>, limit: nat, n: nat, id: nat)
    requires Run(run, ttls, events, limit) && n + 1 < |run| && AllTraced(run, ttls, limit, n)
    requires events[n] == Advance(id) && id in run[n].calls && run[n].calls[id].Check?
    requires run[n].calls[id].check == AskCache
    ensures id in run[n + 1].calls && Traced(run, ttls, limit, n + 1, run[n + 1].calls[id])
  {
    var w := run[n];
    assert StepAt(run, ttls, events, n);
    Forward(run, ttls, events, limit, n, n);
    assert Timely(w, limit) && Traced(run, ttls, limit, n, w.calls[id]);
    if w.cache.Some? && w.now < w.cache.value.dies {
      if w.cache.value.banned {
        SourcedStays(run, n, ttls, limit, w.cache.value);
      } else {
        ServedVerdictIsRecent(run, ttls, events, limit, n, w.cache.value, w.calls[id].start);
      }
    }
  }

  lemma QueriedIsTraced(run: seq<World>, ttls: Ttls, events: seq<Event>, limit: nat, n: nat, id: nat)
    requires Run(run, ttls, events, limit) && n + 1 < |run| && AllTraced(run, ttls, limit, n)
    requires events[n] == Advance(id) && id in run[n].calls && run[n].calls[id].Check?
    requires run[n].calls[id].check.Query?
    ensures id in run[n + 1].calls && Traced(run, ttls, limit, n + 1, run[n + 1].calls[id])
  {
    var w := run[n];
    assert StepAt(run, ttls, events, n);
    var Check(start, Query(asked)) := w.calls[id];
    assert Traced(run, ttls, limit, n, w.calls[id]);
    var entry := QueryEntry(w.rows, Exactly(SUBJECT), asked, w.now, ttls.permanent, ttls.negative);
    assert QueriesAs(w, run[n + 1], id);
    assert PutFrom(run, n + 1, ttls, start, entry, w.now, asked, n);
  }

  lemma AdvancedCheckIsTraced(run: seq<World>, ttls: Ttls, events: seq<Event>, limit: nat, n: nat, id: nat)
    requires Run(run, ttls, events, limit) && n + 1 < |run| && AllTraced(run, ttls, limit, n)
    requires events[n] == Advance(id) && id in run[n].calls && run[n].calls[id].Check? && !run[n].calls[id].check.Put?
    ensures id in run[n + 1].calls && Traced(run, ttls, limit, n + 1, run[n + 1].calls[id])
  {
    var w := run[n];
    assert StepAt(run, ttls, events, n);
    Forward(run, ttls, events, limit, n, n);
    assert Timely(w, limit);
    assert Traced(run, ttls, limit, n, w.calls[id]);
    match w.calls[id].check
    case AskCache => AskedCacheIsTraced(run, ttls, events, limit, n, id);
    case JudgePositive(entry) =>
      if !EntryExpired(entry, w.now) {
        ServedVerdictIsRecent(run, ttls, events, limit, n, entry, w.calls[id].start);
      }
    case Query(_) => QueriedIsTraced(run, ttls, events, limit, n, id);
    case _ =>
  }

  lemma AdvancedUpsertIsTraced(run: seq<World>, ttls: Ttls, events: seq<Event>, limit: nat, n: nat, id: nat)
    requires Run(run, ttls, events, limit) && n + 1 < |run| && AllTraced(run, ttls, limit, n)
    requires events[n] == Advance(id) && id in run[n].calls && run[n].calls[id].Upsert?
    ensures id in run[n + 1].calls && Traced(run, ttls, limit, n + 1, run[n + 1].calls[id])
    ensures run[n + 1].cache.Some? ==> Sourced(run, n + 1, ttls, limit, run[n + 1].cache.value)
  {
    var w, w' := run[n], run[n + 1];
    assert StepAt(run, ttls, events, n);
    assert Timely(w, limit);
    var Upsert(start, until, point) := w.calls[id];
    if point.CacheRow? {
      var k: nat :| RowFrom(run, n, start, point.row, k);
      var i :| 0 <= i < |run[k].rows| && run[k].rows[i] == point.row;
      var entry := EntryFor(point.row, w.now, ttls.permanent);
      assert Hits(Exactly(SUBJECT), run[k].rows[i].target);
      assert EntryFrom(run, n + 1, ttls, limit, entry, k);
    } else {
      if w.cache.Some? {
        SourcedStays(run, n, ttls, limit, w.cache.value);
      }
      if w'.calls[id].upsert.CacheRow? {
        var row := w'.calls[id].upsert.row;
        assert w'.rows[if point.slot.Some? then point.slot.value else |w.rows|] == row;
        assert RowFrom(run, n + 1, start, row, n + 1);
      }
    }
  }

  lemma StepKeepsTraced(run: seq<World>, ttls: Ttls, events: seq<Event>, limit: nat, n: nat)
    requires Run(run, ttls, events, limit) && n + 1 < |run| && AllTraced(run, ttls, limit, n)
    ensures AllTraced(run, ttls, limit, n + 1)
  {
    var w, w', ev := run[n], run[n + 1], events[n];
    assert StepAt(run, ttls, events, n);
    if ev.Advance? && w.calls[ev.id].Check? && w.calls[ev.id].check.Put? {
      assert Traced(run, ttls, limit, n, w.calls[ev.id]);
      PutIsTraced(run, ttls, events, limit, n, ev.id);
    } else if ev.Advance? && w.calls[ev.id].Upsert? {
      AdvancedUpsertIsTraced(run, ttls, events, limit, n, ev.id);
    } else {
      if w'.cache.Some? {
        SourcedStays(run, n, ttls, limit, w.cache.value);
      }
      if ev.Advance? && w.calls[ev.id].Check? {
        AdvancedCheckIsTraced(run, ttls, events, limit, n, ev.id);
      }
    }
    forall id | id in w'.calls ensures Traced(run, ttls, limit, n + 1, w'.calls[id]) {
      if id in w.calls && w'.calls[id] == w.calls[id] {
        StaysTraced(run, ttls, events, limit, n, w.calls[id]);
      }
    }
  }

  lemma {:induction false} RunIsTraced(run: seq<World>, ttls: Ttls, events: seq<Event>, limit: nat, n: nat)
    requires Run(run, ttls, events, limit) && n < |run|
    ensures AllTraced(run, ttls, limit, n)
  {
    if n > 0 {
      RunIsTraced(run, ttls, events, limit, n - 1);
      StepKeepsTraced(run, ttls, events, limit, n - 1);
    }
  }

  // ---------------------------------------------------------------- what callers see

  /** Every verdict was the database's answer at most `Lag` before it was given, and no refusal
      is on account of a ban that had run out when the check started. */
  lemma VerdictIsRecent(run: seq<World>, ttls: Ttls, events: seq<Event>, limit: nat, n: nat, id: nat)
    requires Run(run, ttls, events, limit) && n < |run|
    requires id in run[n].calls && run[n].calls[id].Check? && run[n].calls[id].check.Answered?
    ensures var Answered(banned, at) := run[n].calls[id].check;
            && at <= n
            && (exists k, t :: VerdictFrom(run, ttls, limit, banned, at, k, t))
            && (banned ==> StillRunning(run, n, run[n].calls[id].start))
  {
    RunIsTraced(run, ttls, events, limit, n);
    assert Traced(run, ttls, limit, n, run[n].calls[id]);
  }

  /** A ban is written by the step out of state `d` and stays active. A verdict that
      still clears the user comes from a query that some check made in a state no later
      than `d`, and is given less than the call limit plus the negative TTL after the
      write. */
  lemma WrongClearanceIsBounded(run: seq<World>, ttls: Ttls, events: seq<Event>, limit: nat, n: nat, id: nat, d: nat)
    requires Run(run, ttls, events, limit) && n < |run|
    requires id in run[n].calls && run[n].calls[id].Check? && run[n].calls[id].check.Answered?
    requires !run[n].calls[id].check.banned
    requires forall k | d < k <= n :: Banned(run[k].rows, Exactly(SUBJECT), run[k].now)
    ensures var at := run[n].calls[id].check.at;
            exists k: nat, t :: VerdictFrom(run, ttls, limit, false, at, k, t) && k <= d
    ensures d <= run[n].calls[id].check.at ==>
              run[run[n].calls[id].check.at].now < run[d].now + limit + Seconds(Max(ttls.negative, 1))
  {
    VerdictIsRecent(run, ttls, events, limit, n, id);
    var at := run[n].calls[id].check.at;
    var k: nat, t :| VerdictFrom(run, ttls, limit, false, at, k, t);
    if d <= at {
      Forward(run, ttls, events, limit, k, d);
    }
  }

  /** No row of the user is open in any state after `d`. */
  ghost predicate ClosedAfter(run: seq<World>, d: nat, n: nat)
    requires n < |run|
  {
    forall k, i | d < k <= n && 0 <= i < |run[k].rows| :: run[k].rows[i].target == SUBJECT
          ==> !run[k].rows[i].Unlifted()
  }

  /** The same when a ban ends, by a lift, by an upsert or by itself: from state `d` on the
      rows do not ban the user at the instant of `d` or later. A verdict that still bans the
      user was the answer for a clock reading no later than `d`, and is given less than twice
      the call limit plus the longest positive TTL after it. After a lift it was read in a
      state no later than `d`. */
  lemma WrongRefusalIsBounded(run: seq<World>, ttls: Ttls, events: seq<Event>, limit: nat, n: nat, id: nat, d: nat)
    requires Run(run, ttls, events, limit) && d <= n < |run|
    requires id in run[n].calls && run[n].calls[id].Check? && run[n].calls[id].check.Answered?
    requires run[n].calls[id].check.banned
    requires forall k | d < k <= n :: !Banned(run[k].rows, Exactly(SUBJECT), run[d].now)
    ensures var at := run[n].calls[id].check.at;
            exists k: nat, t :: VerdictFrom(run, ttls, limit, true, at, k, t) && t <= run[d].now
                                && (ClosedAfter(run, d, n) ==> k <= d)
    ensures d <= run[n].calls[id].check.at ==>
              run[run[n].calls[id].check.at].now < run[d].now + 2 * limit
                    + Seconds(Max(TEMP_BAN_CACHE_CAP_SECS, ttls.permanent))
  {
    VerdictIsRecent(run, ttls, events, limit, n, id);
    var at := run[n].calls[id].check.at;
    var k: nat, t :| VerdictFrom(run, ttls, limit, true, at, k, t);
    if k <= d {
      Forward(run, ttls, events, limit, k, d);
    } else {
      assert !Banned(run[k].rows, Exactly(SUBJECT), run[d].now);
    }
  }
}
