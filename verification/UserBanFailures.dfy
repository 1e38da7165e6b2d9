/**
 * When a write that has returned is seen by every later check of the user: exactly when
 * writes overlap with no other call, and in particular when calls do not overlap at all.
 * With two calls in flight a check started after an upsert returned can clear the user,
 * and one started after a lift returned can refuse the user, as runs from an empty Redis
 * show.
 */
module UserBanFailures {
  import opened Common
  import opened BanRecords
  import opened UserBanProtocol
  import UserBanWrites

  function InFlight(w: World): set<nat> {
    set id | id in w.calls && !Completed(w.calls[id])
  }

  /** At most `callers` calls are in flight at once. */
  ghost predicate CrowdedRun(run: seq<World>, ttls: Ttls, events: seq<Event>, limit: nat, callers: nat) {
    && Run(run, ttls, events, limit)
    && (forall n | 0 <= n < |run| :: |InFlight(run[n])| <= callers)
  }

  /** A check that started after an upsert had returned clears the user although the
      database bans the user all the while. */
  ghost predicate MissesBan(run: seq<World>, n: nat, id: nat, c: nat, writer: nat) {
    && c <= n < |run|
    && writer in run[c].calls && run[c].calls[writer].Upsert? && run[c].calls[writer].upsert == Upserted
    && id !in run[c].calls
    && id in run[n].calls && run[n].calls[id].Check? && run[n].calls[id].check.Answered?
    && (forall k | c <= k <= n :: Banned(run[k].rows, Exactly(SUBJECT), run[k].now))
    && !run[n].calls[id].check.banned
  }

  /** A check that started after a lift had returned refuses the user although the database
      does not ban the user from then on. */
  ghost predicate MissesLift(run: seq<World>, n: nat, id: nat, c: nat, writer: nat) {
    && c <= n < |run|
    && writer in run[c].calls && run[c].calls[writer].Lift? && run[c].calls[writer].lift == LiftDone
    && id !in run[c].calls
    && id in run[n].calls && run[n].calls[id].Check? && run[n].calls[id].check.Answered?
    && (forall k | c <= k <= n :: !Banned(run[k].rows, Exactly(SUBJECT), run[c].now))
    && run[n].calls[id].check.banned
  }

  // ---------------------------------------------------------------- writes that run alone

  /** A write overlaps with no other call; checks may overlap with each other. */
  ghost predicate LoneWrites(w: World) {
    forall a, b | a in InFlight(w) && b in InFlight(w) && a != b :: w.calls[a].Check? && w.calls[b].Check?
  }

  ghost predicate LoneRun(run: seq<World>, ttls: Ttls, events: seq<Event>, limit: nat) {
    && Run(run, ttls, events, limit)
    && (forall n | 0 <= n < |run| :: LoneWrites(run[n]))
  }

  lemma FewAreLone(w: World)
    requires |InFlight(w)| <= 1
    ensures LoneWrites(w)
  {
    forall a, b | a in InFlight(w) && b in InFlight(w) ensures a == b {
      if a != b {
        SubsetSize({a, b}, InFlight(w));
      }
    }
  }

  lemma SoloIsLone(run: seq<World>, ttls: Ttls, events: seq<Event>, limit: nat, callers: nat)
    requires CrowdedRun(run, ttls, events, limit, callers) && callers <= 1
    ensures LoneRun(run, ttls, events, limit)
  {
    forall n | 0 <= n < |run| ensures LoneWrites(run[n]) {
      FewAreLone(run[n]);
    }
  }

  ghost predicate CacheBacked(w: World) {
    w.cache.Some? ==> Backed(w.rows, Exactly(SUBJECT), w.cache.value, w.now)
  }

  /** The call has changed the rows and not yet the cache. */
  predicate Replacing(call: Call) {
    (call.Upsert? && call.upsert.CacheRow?) || (call.Lift? && call.lift == DeleteEntry)
  }

  /** The rows ban the user at an instant from `start` on. */
  ghost predicate BannedFrom(rows: seq<Ban>, start: Instant) {
    exists t :: start <= t && Banned(rows, Exactly(SUBJECT), t)
  }

  /** What a call holds agrees with the rows. */
  ghost predicate Agrees(w: World, call: Call) {
    match call
    case Check(start, JudgePositive(entry)) =>
      start <= w.now && entry.banned && Backed(w.rows, Exactly(SUBJECT), entry, w.now)
    case Check(start, Query(asked)) => start <= asked <= w.now
    case Check(start, Put(entry, built)) =>
      && start <= w.now
      && Backed(w.rows, Exactly(SUBJECT), entry, w.now)
      && (entry.banned ==> BannedFrom(w.rows, start))
    case Check(start, _) => start <= w.now
    case Upsert(_, _, CacheRow(row)) => row in w.rows && row.target == SUBJECT && row.Unlifted()
    case _ => true
  }

  ghost predicate Settled(w: World) {
    && LoneWrites(w)
    && (forall id | id in InFlight(w) :: Agrees(w, w.calls[id]))
    && ((forall id | id in InFlight(w) :: !Replacing(w.calls[id])) ==> CacheBacked(w))
  }

  /** A verdict given in `w` by a check started at `start` is true of the rows. */
  ghost predicate TrueVerdict(w: World, start: Instant, banned: bool) {
    if banned then BannedFrom(w.rows, start) else !Banned(w.rows, Exactly(SUBJECT), w.now)
  }

  lemma CheckStaysSettled(w: World, ttls: Ttls, id: nat)
    requires Settled(w) && Enabled(w, Advance(id)) && w.calls[id].Check?
    ensures var w' := Step(w, ttls, Advance(id));
            && Agrees(w', w'.calls[id]) && CacheBacked(w') && w'.calls[id].Check?
            && w'.rows == w.rows && w'.now == w.now
    ensures var point := Step(w, ttls, Advance(id)).calls[id].check;
            point.Answered? ==> TrueVerdict(w, w.calls[id].start, point.banned)
  {
    assert id in InFlight(w) && Agrees(w, w.calls[id]);
    assert CacheBacked(w) by {
      forall other | other in InFlight(w) ensures !Replacing(w.calls[other]) {
        assert other != id ==> w.calls[other].Check?;
      }
    }
    var Check(start, point) := w.calls[id];
    match point
    case JudgePositive(entry) =>
      if !EntryExpired(entry, w.now) {
        ServedEntryIsExact(w.rows, Exactly(SUBJECT), entry, w.now, w.now);
        assert BannedFrom(w.rows, start);
      }
    case Query(asked) =>
      if Banned(w.rows, Exactly(SUBJECT), asked) {
        assert BannedFrom(w.rows, start);
      }
    case _ =>
  }

  lemma WriteStaysSettled(w: World, ttls: Ttls, id: nat)
    requires Settled(w) && Enabled(w, Advance(id)) && !w.calls[id].Check?
    ensures var w' := Step(w, ttls, Advance(id));
            Agrees(w', w'.calls[id]) && (!Replacing(w'.calls[id]) ==> CacheBacked(w'))
  {
    var w', call := Step(w, ttls, Advance(id)), w.calls[id];
    assert id in InFlight(w) && Agrees(w, call);
    if !Replacing(call) {
      forall other | other in InFlight(w) ensures !Replacing(w.calls[other]) {
        assert other == id;
      }
      if call.Upsert? && call.upsert.WriteRow? && w'.calls[id].upsert.CacheRow? {
        var slot := call.upsert.slot;
        assert w'.rows[if slot.Some? then slot.value else |w.rows|] == w'.calls[id].upsert.row;
      }
    } else if call.Upsert? {
      RowBacks(w.rows, call.upsert.row, w'.cache.value, w.now);
    }
  }

  /** Time does not undo what a call holds. */
  lemma AgreesLater(w: World, w': World, call: Call)
    requires Agrees(w, call) && w'.rows == w.rows && w.now <= w'.now
    ensures Agrees(w', call)
  {
  }

  lemma AdvanceStaysSettled(w: World, ttls: Ttls, id: nat)
    requires Settled(w) && Enabled(w, Advance(id)) && LoneWrites(Step(w, ttls, Advance(id)))
    ensures Settled(Step(w, ttls, Advance(id)))
  {
    var w' := Step(w, ttls, Advance(id));
    assert id in InFlight(w);
    if w.calls[id].Check? {
      CheckStaysSettled(w, ttls, id);
      forall other | other in InFlight(w') ensures Agrees(w', w'.calls[other]) {
        if other != id {
          assert other in InFlight(w);
          AgreesLater(w, w', w.calls[other]);
        }
      }
    } else {
      WriteStaysSettled(w, ttls, id);
      forall other | other in InFlight(w') ensures other == id {
        assert other in InFlight(w);
      }
      if Completed(w'.calls[id]) {
        assert CacheBacked(w');
      } else {
        assert id in InFlight(w');
      }
    }
  }

  lemma StepStaysSettled(w: World, ttls: Ttls, ev: Event)
    requires Settled(w) && Enabled(w, ev) && LoneWrites(Step(w, ttls, ev))
    ensures Settled(Step(w, ttls, ev))
  {
    var w' := Step(w, ttls, ev);
    if ev.Advance? {
      AdvanceStaysSettled(w, ttls, ev.id);
    } else {
      forall id | id in InFlight(w') ensures Agrees(w', w'.calls[id]) {
        if id in w.calls {
          assert id in InFlight(w);
          AgreesLater(w, w', w.calls[id]);
        }
      }
      forall id | id in InFlight(w) ensures id in InFlight(w') && w'.calls[id] == w.calls[id] {
      }
    }
  }

  /** At the step that gave the verdict, the database agreed. */
  ghost predicate Truthful(run: seq<World>, n: nat, id: nat)
    requires n < |run| && id in run[n].calls
  {
    run[n].calls[id].Check? && run[n].calls[id].check.Answered? ==>
      var at := run[n].calls[id].check.at;
      && at < n && id in run[at].calls
      && TrueVerdict(run[at], run[n].calls[id].start, run[n].calls[id].check.banned)
  }

  lemma StaysTruthful(run: seq<World>, ttls: Ttls, events: seq<Event>, limit: nat, n: nat, id: nat)
    requires Run(run, ttls, events, limit) && n + 1 < |run| && Settled(run[n])
    requires id in run[n].calls && Truthful(run, n, id)
    ensures id in run[n + 1].calls && Truthful(run, n + 1, id)
  {
    var w, ev := run[n], events[n];
    Forward(run, ttls, events, limit, n, n);
    assert StepAt(run, ttls, events, n);
    if ev == Advance(id) && w.calls[id].Check? {
      CheckStaysSettled(w, ttls, id);
    }
  }

  /** When writes run alone, what the calls and the cache hold agrees with the rows in every
      state, and every verdict was true when it was given. */
  lemma {:induction false} LoneWritesStaySettled(run: seq<World>, ttls: Ttls, events: seq<Event>, limit: nat, n: nat)
    requires LoneRun(run, ttls, events, limit) && n < |run|
    ensures Settled(run[n])
    ensures forall id | id in run[n].calls :: Truthful(run, n, id)
  {
    if n == 0 {
      assert InFlight(run[0]) == {};
    } else {
      var w, w', ev := run[n - 1], run[n], events[n - 1];
      LoneWritesStaySettled(run, ttls, events, limit, n - 1);
      Forward(run, ttls, events, limit, n - 1, n - 1);
      assert StepAt(run, ttls, events, n - 1);
      StepStaysSettled(w, ttls, ev);
      forall id | id in w'.calls ensures Truthful(run, n, id) {
        if id in w.calls {
          StaysTruthful(run, ttls, events, limit, n - 1, id);
        }
      }
    }
  }

  /** The special case of at most one call at a time. */
  lemma SoloRun(run: seq<World>, ttls: Ttls, events: seq<Event>, limit: nat, n: nat)
    requires CrowdedRun(run, ttls, events, limit, 1) && n < |run|
    ensures Settled(run[n])
    ensures forall id | id in run[n].calls :: Truthful(run, n, id)
  {
    SoloIsLone(run, ttls, events, limit, 1);
    LoneWritesStaySettled(run, ttls, events, limit, n);
  }

  lemma {:induction false} CallsStay(run: seq<World>, ttls: Ttls, events: seq<Event>, limit: nat, i: nat, j: nat,
          id: nat)
    requires Run(run, ttls, events, limit) && i <= j < |run| && id in run[i].calls
    ensures id in run[j].calls
    decreases j
  {
    if i < j {
      CallsStay(run, ttls, events, limit, i, j - 1, id);
      assert StepAt(run, ttls, events, j - 1);
    }
  }

  /** A call that is not there in state `c` starts no earlier. */
  lemma {:induction false} LateCallsStartLate(run: seq<World>, ttls: Ttls, events: seq<Event>, limit: nat, c: nat,
          n: nat, id: nat)
    requires Run(run, ttls, events, limit) && c <= n < |run| && id !in run[c].calls && id in run[n].calls
    ensures run[c].now <= run[n].calls[id].start
    decreases n
  {
    if c < n {
      assert StepAt(run, ttls, events, n - 1);
      if id in run[n - 1].calls {
        LateCallsStartLate(run, ttls, events, limit, c, n - 1, id);
      } else {
        Forward(run, ttls, events, limit, c, n - 1);
      }
    }
  }

  /** When writes run alone, every later check sees a returned ban and a returned lift. */
  lemma LoneWritesAreSeen(run: seq<World>, ttls: Ttls, events: seq<Event>, limit: nat, n: nat, id: nat, c: nat,
          writer: nat)
    requires LoneRun(run, ttls, events, limit)
    ensures !MissesBan(run, n, id, c, writer) && !MissesLift(run, n, id, c, writer)
  {
    if MissesBan(run, n, id, c, writer) || MissesLift(run, n, id, c, writer) {
      LoneWritesStaySettled(run, ttls, events, limit, n);
      assert Truthful(run, n, id);
      var at := run[n].calls[id].check.at;
      if at < c {
        CallsStay(run, ttls, events, limit, at, c, id);
      }
      LateCallsStartLate(run, ttls, events, limit, c, n, id);
      assert false;
    }
  }

  /** So, when writes run alone, every check started after an upsert returned says banned until
      the ban expires or another call writes. `k` is the step of the upsert's own write. */
  lemma LoneUpsertIsSeen(run: seq<World>, ttls: Ttls, events: seq<Event>, limit: nat, n: nat, id: nat, c: nat,
          writer: nat, k: nat)
    requires LoneRun(run, ttls, events, limit) && c <= n < |run|
    requires writer in run[c].calls && run[c].calls[writer].Upsert? && run[c].calls[writer].upsert == Upserted
    requires UserBanWrites.WritesIn(run, events, writer, k) && UserBanWrites.Quiet(run, events, k + 1, n)
    requires run[c].calls[writer].until.Some? ==> run[n].now < run[c].calls[writer].until.value
    requires id !in run[c].calls
    requires id in run[n].calls && run[n].calls[id].Check? && run[n].calls[id].check.Answered?
    ensures run[n].calls[id].check.banned
  {
    UserBanWrites.UpsertIsSeenInTime(run, ttls, events, limit, n, id, c, writer, k);
    LoneWritesAreSeen(run, ttls, events, limit, n, id, c, writer);
  }

  /** And every check started after a lift returned clears the user until another call
      writes. */
  lemma LoneLiftIsSeen(run: seq<World>, ttls: Ttls, events: seq<Event>, limit: nat, n: nat, id: nat, c: nat,
          writer: nat, f: nat, k: nat)
    requires LoneRun(run, ttls, events, limit) && OneOpenPerTarget(run[0].rows)
    requires UserBanWrites.OnlyLift(run, events, c, n, writer, f, k)
    requires id !in run[c].calls
    requires id in run[n].calls && run[n].calls[id].Check? && run[n].calls[id].check.Answered?
    ensures !run[n].calls[id].check.banned
  {
    UserBanWrites.LiftIsSeenInTime(run, ttls, events, limit, n, id, c, writer, f, k);
    forall m | c <= m <= n ensures !Banned(run[m].rows, Exactly(SUBJECT), run[c].now) {
      assert NoOpenRow(run[m].rows, SUBJECT);
    }
    LoneWritesAreSeen(run, ttls, events, limit, n, id, c, writer);
  }

  // ---------------------------------------------------------------- two calls

  ghost predicate Reachable(ttls: Ttls, limit: nat, callers: nat, w: World) {
    exists run, events :: CrowdedRun(run, ttls, events, limit, callers) && run[|run| - 1] == w
  }

  predicate Returned(call: Call) {
    (call.Upsert? && call.upsert == Upserted) || (call.Lift? && call.lift == LiftDone)
  }

  /** The run ends in `w`; in state `c`, at time zero, the write of `writer` had returned and
      `late` had not started, and the rows have been `rows` ever since. */
  ghost predicate Tells(run: seq<World>, ttls: Ttls, events: seq<Event>, limit: nat, callers: nat, c: nat, writer: nat,
          late: nat, rows: seq<Ban>, w: World)
  {
    && CrowdedRun(run, ttls, events, limit, callers)
    && run[|run| - 1] == w
    && c < |run| && run[c].now == 0 && late !in run[c].calls
    && writer in run[c].calls && writer in w.calls && run[c].calls[writer] == w.calls[writer]
          && Returned(w.calls[writer])
    && (forall k | c <= k < |run| :: run[k].rows == rows)
  }

  ghost predicate Story(ttls: Ttls, limit: nat, callers: nat, c: nat, writer: nat, late: nat, rows: seq<Ban>, w: World)
  {
    exists run, events :: Tells(run, ttls, events, limit, callers, c, writer, late, rows, w)
  }

  /** The step keeps calls within the limit and in-flight calls within two. */
  ghost predicate Allowed(w: World, ttls: Ttls, limit: nat, ev: Event) {
    && Enabled(w, ev)
    && Timely(Step(w, ttls, ev), limit)
    && exists a, b :: InFlight(Step(w, ttls, ev)) <= {a, b}
  }

  lemma OneMore(run: seq<World>, ttls: Ttls, events: seq<Event>, limit: nat, callers: nat, ev: Event)
    requires CrowdedRun(run, ttls, events, limit, callers) && callers >= 2 && Allowed(run[|run| - 1], ttls, limit, ev)
    ensures CrowdedRun(run + [Step(run[|run| - 1], ttls, ev)], ttls, events + [ev], limit, callers)
  {
    var w' := Step(run[|run| - 1], ttls, ev);
    var a, b :| InFlight(w') <= {a, b};
    SubsetSize(InFlight(w'), {a, b});
    var run', events' := run + [w'], events + [ev];
    forall i | 0 <= i < |events'| ensures StepsTo(run'[i], ttls, events'[i], run'[i + 1]) {
      if i < |events| {
        assert StepAt(run, ttls, events, i);
      }
    }
  }

  lemma Extend(ttls: Ttls, limit: nat, callers: nat, w: World, ev: Event) returns (w': World)
    requires Reachable(ttls, limit, callers, w) && callers >= 2 && Allowed(w, ttls, limit, ev)
    ensures w' == Step(w, ttls, ev) && Reachable(ttls, limit, callers, w')
  {
    var run, events :| CrowdedRun(run, ttls, events, limit, callers) && run[|run| - 1] == w;
    w' := Step(w, ttls, ev);
    OneMore(run, ttls, events, limit, callers, ev);
    assert (run + [w'])[|run + [w']| - 1] == w';
  }

  lemma Marks(ttls: Ttls, limit: nat, callers: nat, w: World, writer: nat, late: nat) returns (c: nat)
    requires Reachable(ttls, limit, callers, w)
    requires writer in w.calls && Returned(w.calls[writer]) && late !in w.calls && w.now == 0
    ensures Story(ttls, limit, callers, c, writer, late, w.rows, w)
  {
    var run, events :| CrowdedRun(run, ttls, events, limit, callers) && run[|run| - 1] == w;
    c := |run| - 1;
    assert Tells(run, ttls, events, limit, callers, c, writer, late, w.rows, w);
  }

  lemma Continue(ttls: Ttls, limit: nat, callers: nat, c: nat, writer: nat, late: nat, rows: seq<Ban>, w: World,
          ev: Event) returns (w': World)
    requires Story(ttls, limit, callers, c, writer, late, rows, w) && callers >= 2
    requires Allowed(w, ttls, limit, ev) && Step(w, ttls, ev).rows == rows
    ensures w' == Step(w, ttls, ev) && Story(ttls, limit, callers, c, writer, late, rows, w')
  {
    var run, events :| Tells(run, ttls, events, limit, callers, c, writer, late, rows, w);
    w' := Step(w, ttls, ev);
    OneMore(run, ttls, events, limit, callers, ev);
    assert Tells(run + [w'], ttls, events + [ev], limit, callers, c, writer, late, rows, w');
  }

  // A run in which no time passes.

  const OPEN_BAN := Ban(SUBJECT, None, 0, None)

  function Cleared(ttls: Ttls): Entry {
    NegativeEntry(0, ttls.negative)
  }

  /** The step leads to `w'`, a world at time zero with no other calls in flight than `a`
      and `b`. */
  lemma Leads(w: World, ttls: Ttls, limit: nat, ev: Event, w': World, a: nat, b: nat)
    requires Enabled(w, ev) && Step(w, ttls, ev) == w' && w'.now == 0
    requires forall id | id in w'.calls :: w'.calls[id].start == 0
    requires InFlight(w') <= {a, b}
    ensures Allowed(w, ttls, limit, ev)
  {
    assert Timely(w', limit);
  }

  const EMPTY := World(0, [], None, map[], 0)

  lemma EmptyIsReachable(ttls: Ttls, limit: nat, callers: nat)
    ensures Reachable(ttls, limit, callers, EMPTY)
  {
    assert InFlight(EMPTY) == {};
    assert CrowdedRun([EMPTY], ttls, [], limit, callers);
    assert [EMPTY][|[EMPTY]| - 1] == EMPTY;
  }

  /** A lone check has found no entry. */
  lemma CheckMisses(ttls: Ttls, limit: nat, callers: nat) returns (w: World)
    requires callers >= 2
    ensures Reachable(ttls, limit, callers, w)
    ensures w == World(0, [], None, map[1 := Check(0, Stamp)], 2)
  {
    EmptyIsReachable(ttls, limit, callers);
    var started := World(0, [], None, map[1 := Check(0, AskCache)], 1);
    Leads(EMPTY, ttls, limit, Start(1, Check(0, AskCache)), started, 1, 1);
    var _ := Extend(ttls, limit, callers, EMPTY, Start(1, Check(0, AskCache)));
    w := World(0, [], None, map[1 := Check(0, Stamp)], 2);
    Leads(started, ttls, limit, Advance(1), w, 1, 1);
    var _ := Extend(ttls, limit, callers, started, Advance(1));
  }

  /** It has read that there is no ban, and is about to store that. */
  lemma CheckReads(ttls: Ttls, limit: nat, callers: nat) returns (w: World)
    requires callers >= 2
    ensures Reachable(ttls, limit, callers, w)
    ensures w == World(0, [], None, map[1 := Check(0, Put(Cleared(ttls), 0))], 4)
  {
    var missed := CheckMisses(ttls, limit, callers);
    var stamped := World(0, [], None, map[1 := Check(0, Query(0))], 3);
    Leads(missed, ttls, limit, Advance(1), stamped, 1, 1);
    var _ := Extend(ttls, limit, callers, missed, Advance(1));
    w := World(0, [], None, map[1 := Check(0, Put(Cleared(ttls), 0))], 4);
    Leads(stamped, ttls, limit, Advance(1), w, 1, 1);
    var _ := Extend(ttls, limit, callers, stamped, Advance(1));
  }

  function Overtaken(ttls: Ttls, rows: seq<Ban>, cache: Option<Entry>, point: UpsertPoint, n: nat): World {
    World(0, rows, cache, map[1 := Check(0, Put(Cleared(ttls), 0)), 2 := Upsert(0, None, point)], n)
  }

  /** Meanwhile an upsert starts and looks for an open row. */
  lemma UpsertFinds(ttls: Ttls, limit: nat, callers: nat) returns (w: World)
    requires callers >= 2
    ensures Reachable(ttls, limit, callers, w) && w == Overtaken(ttls, [], None, WriteRow(None), 6)
  {
    var reading := CheckReads(ttls, limit, callers);
    var started := Overtaken(ttls, [], None, FindOpen, 5);
    Leads(reading, ttls, limit, Start(2, Upsert(0, None, FindOpen)), started, 1, 2);
    var _ := Extend(ttls, limit, callers, reading, Start(2, Upsert(0, None, FindOpen)));
    w := Overtaken(ttls, [], None, WriteRow(None), 6);
    Leads(started, ttls, limit, Advance(2), w, 1, 2);
    var _ := Extend(ttls, limit, callers, started, Advance(2));
  }

  /** It writes the row and the entry, and returns. */
  lemma UpsertOvertakes(ttls: Ttls, limit: nat, callers: nat) returns (w: World)
    requires callers >= 2
    ensures Reachable(ttls, limit, callers, w)
    ensures w == Overtaken(ttls, [OPEN_BAN], Some(EntryFor(OPEN_BAN, 0, ttls.permanent)), Upserted, 8)
  {
    var finds := UpsertFinds(ttls, limit, callers);
    var written := Overtaken(ttls, [OPEN_BAN], None, CacheRow(OPEN_BAN), 7);
    assert [] + [OPEN_BAN] == [OPEN_BAN];
    Leads(finds, ttls, limit, Advance(2), written, 1, 2);
    var _ := Extend(ttls, limit, callers, finds, Advance(2));
    w := Overtaken(ttls, [OPEN_BAN], Some(EntryFor(OPEN_BAN, 0, ttls.permanent)), Upserted, 8);
    Leads(written, ttls, limit, Advance(2), w, 1, 2);
    var _ := Extend(ttls, limit, callers, written, Advance(2));
  }

  function Late(ttls: Ttls, point: CheckPoint, n: nat): World {
    World(0, [OPEN_BAN], Some(Cleared(ttls)),
          map[1 := Check(0, Answered(false, 8)), 2 := Upsert(0, None, Upserted), 3 := Check(0, point)], n)
  }

  /** The slow check stores its clearance over the upsert's entry, and a check started
      after the upsert returned serves it although the row is open. */
  lemma LateNegativeWriteClears(ttls: Ttls, limit: nat, callers: nat)
    returns (run: seq<World>, events: seq<Event>, rows: seq<Ban>)
    requires callers >= 2
    ensures CrowdedRun(run, ttls, events, limit, callers)
    ensures exists n, id, c, writer :: MissesBan(run, n, id, c, writer)
    ensures run != [] && run[|run| - 1].rows == rows && forall t :: Banned(rows, Exactly(SUBJECT), t)
  {
    rows := [OPEN_BAN];
    var returned := UpsertOvertakes(ttls, limit, callers);
    var c := Marks(ttls, limit, callers, returned, 2, 3);
    var cleared := World(0, rows, Some(Cleared(ttls)),
          map[1 := Check(0, Answered(false, 8)), 2 := Upsert(0, None, Upserted)], 9);
    Leads(returned, ttls, limit, Advance(1), cleared, 1, 2);
    var _ := Continue(ttls, limit, callers, c, 2, 3, rows, returned, Advance(1));
    var last := LateCheckServes(ttls, limit, callers, c, cleared);
    run, events :| Tells(run, ttls, events, limit, callers, c, 2, 3, rows, last);
    forall t ensures Banned(rows, Exactly(SUBJECT), t) {
      assert rows[0].ActiveAt(t) && Hits(Exactly(SUBJECT), rows[0].target);
    }
    assert MissesBan(run, |run| - 1, 3, c, 2);
  }

  lemma LateCheckServes(ttls: Ttls, limit: nat, callers: nat, c: nat, w: World) returns (w': World)
    requires callers >= 2 && Story(ttls, limit, callers, c, 2, 3, [OPEN_BAN], w)
    requires w == World(0, [OPEN_BAN], Some(Cleared(ttls)),
          map[1 := Check(0, Answered(false, 8)), 2 := Upsert(0, None, Upserted)], 9)
    ensures w' == Late(ttls, Answered(false, 10), 11) && Story(ttls, limit, callers, c, 2, 3, [OPEN_BAN], w')
  {
    var started := Late(ttls, AskCache, 10);
    Leads(w, ttls, limit, Start(3, Check(0, AskCache)), started, 3, 3);
    var _ := Continue(ttls, limit, callers, c, 2, 3, [OPEN_BAN], w, Start(3, Check(0, AskCache)));
    w' := Late(ttls, Answered(false, 10), 11);
    Leads(started, ttls, limit, Advance(3), w', 3, 3);
    var _ := Continue(ttls, limit, callers, c, 2, 3, [OPEN_BAN], started, Advance(3));
  }

  // The same with a lift.

  const LIFTED_BAN := Ban(SUBJECT, None, 0, Some(0))

  function Positive(ttls: Ttls): Entry {
    EntryFor(OPEN_BAN, 0, ttls.permanent)
  }

  function Reading(point: CheckPoint, n: nat): World {
    World(0, [OPEN_BAN], None, map[1 := Check(0, point)], n)
  }

  lemma BannedCheckMisses(ttls: Ttls, limit: nat, callers: nat) returns (w: World)
    requires callers >= 2
    ensures Reachable(ttls, limit, callers, w) && w == Reading(Stamp, 2)
  {
    var first := World(0, [OPEN_BAN], None, map[], 0);
    assert InFlight(first) == {};
    assert CrowdedRun([first], ttls, [], limit, callers);
    assert [first][|[first]| - 1] == first;
    Leads(first, ttls, limit, Start(1, Check(0, AskCache)), Reading(AskCache, 1), 1, 1);
    var _ := Extend(ttls, limit, callers, first, Start(1, Check(0, AskCache)));
    w := Reading(Stamp, 2);
    Leads(Reading(AskCache, 1), ttls, limit, Advance(1), w, 1, 1);
    var _ := Extend(ttls, limit, callers, Reading(AskCache, 1), Advance(1));
  }

  /** A check has read the open ban, and is about to store that. */
  lemma BannedCheckReads(ttls: Ttls, limit: nat, callers: nat) returns (w: World)
    requires callers >= 2
    ensures Reachable(ttls, limit, callers, w) && w == Reading(Put(Positive(ttls), 0), 4)
  {
    w := BannedCheckMisses(ttls, limit, callers);
    Leads(w, ttls, limit, Advance(1), Reading(Query(0), 3), 1, 1);
    var _ := Extend(ttls, limit, callers, w, Advance(1));
    w := Reading(Put(Positive(ttls), 0), 4);
    assert Keeps(Exactly(SUBJECT), Some(0), [OPEN_BAN][0]);
    Leads(Reading(Query(0), 3), ttls, limit, Advance(1), w, 1, 1);
    var _ := Extend(ttls, limit, callers, Reading(Query(0), 3), Advance(1));
  }

  function Lifting(ttls: Ttls, rows: seq<Ban>, point: LiftPoint, n: nat): World {
    World(0, rows, None, map[1 := Check(0, Put(Positive(ttls), 0)), 2 := Lift(0, point)], n)
  }

  /** Meanwhile a lift starts and finds the row. */
  lemma LiftFinds(ttls: Ttls, limit: nat, callers: nat) returns (w: World)
    requires callers >= 2
    ensures Reachable(ttls, limit, callers, w) && w == Lifting(ttls, [OPEN_BAN], LiftRow(Some(0)), 6)
  {
    var reading := BannedCheckReads(ttls, limit, callers);
    var started := Lifting(ttls, [OPEN_BAN], FindLifted, 5);
    Leads(reading, ttls, limit, Start(2, Lift(0, FindLifted)), started, 1, 2);
    var _ := Extend(ttls, limit, callers, reading, Start(2, Lift(0, FindLifted)));
    w := Lifting(ttls, [OPEN_BAN], LiftRow(Some(0)), 6);
    assert Keeps(Exactly(SUBJECT), None, [OPEN_BAN][0]);
    Leads(started, ttls, limit, Advance(2), w, 1, 2);
    var _ := Extend(ttls, limit, callers, started, Advance(2));
  }

  /** It lifts the row, deletes the entry that is not there, and returns. */
  lemma LiftOvertakes(ttls: Ttls, limit: nat, callers: nat) returns (w: World)
    requires callers >= 2
    ensures Reachable(ttls, limit, callers, w) && w == Lifting(ttls, [LIFTED_BAN], LiftDone, 8)
  {
    var finds := LiftFinds(ttls, limit, callers);
    var lifted := Lifting(ttls, [LIFTED_BAN], DeleteEntry, 7);
    assert [OPEN_BAN][0 := LIFTED_BAN] == [LIFTED_BAN];
    Leads(finds, ttls, limit, Advance(2), lifted, 1, 2);
    var _ := Extend(ttls, limit, callers, finds, Advance(2));
    w := Lifting(ttls, [LIFTED_BAN], LiftDone, 8);
    Leads(lifted, ttls, limit, Advance(2), w, 1, 2);
    var _ := Extend(ttls, limit, callers, lifted, Advance(2));
  }

  /** The world after the slow check has stored the ban it read. */
  function Stored(ttls: Ttls): World {
    World(0, [LIFTED_BAN], Some(Positive(ttls)), map[1 := Check(0, Answered(true, 8)), 2 := Lift(0, LiftDone)], 9)
  }

  /** And a later check has started. */
  function Refusing(ttls: Ttls, point: CheckPoint, n: nat): World {
    World(0, [LIFTED_BAN], Some(Positive(ttls)),
          map[1 := Check(0, Answered(true, 8)), 2 := Lift(0, LiftDone), 3 := Check(0, point)], n)
  }

  lemma SlowCheckStores(ttls: Ttls, limit: nat, callers: nat) returns (c: nat)
    requires callers >= 2
    ensures Story(ttls, limit, callers, c, 2, 3, [LIFTED_BAN], Stored(ttls))
  {
    var returned := LiftOvertakes(ttls, limit, callers);
    c := Marks(ttls, limit, callers, returned, 2, 3);
    Leads(returned, ttls, limit, Advance(1), Stored(ttls), 1, 2);
    var _ := Continue(ttls, limit, callers, c, 2, 3, [LIFTED_BAN], returned, Advance(1));
  }

  lemma LateCheckStarts(ttls: Ttls, limit: nat, callers: nat, c: nat)
    requires callers >= 2 && Story(ttls, limit, callers, c, 2, 3, [LIFTED_BAN], Stored(ttls))
    ensures Story(ttls, limit, callers, c, 2, 3, [LIFTED_BAN], Refusing(ttls, AskCache, 10))
  {
    Leads(Stored(ttls), ttls, limit, Start(3, Check(0, AskCache)), Refusing(ttls, AskCache, 10), 3, 3);
    var _ := Continue(ttls, limit, callers, c, 2, 3, [LIFTED_BAN], Stored(ttls), Start(3, Check(0, AskCache)));
  }

  lemma LateCheckRefuses(ttls: Ttls, limit: nat, callers: nat, c: nat)
    requires callers >= 2 && Story(ttls, limit, callers, c, 2, 3, [LIFTED_BAN], Refusing(ttls, AskCache, 10))
    ensures Story(ttls, limit, callers, c, 2, 3, [LIFTED_BAN], Refusing(ttls, Answered(true, 11), 12))
  {
    var asked, judging := Refusing(ttls, AskCache, 10), Refusing(ttls, JudgePositive(Positive(ttls)), 11);
    Leads(asked, ttls, limit, Advance(3), judging, 3, 3);
    var _ := Continue(ttls, limit, callers, c, 2, 3, [LIFTED_BAN], asked, Advance(3));
    Leads(judging, ttls, limit, Advance(3), Refusing(ttls, Answered(true, 11), 12), 3, 3);
    var _ := Continue(ttls, limit, callers, c, 2, 3, [LIFTED_BAN], judging, Advance(3));
  }

  /** The slow check stores the ban it read before the lift, and a check started after the
      lift returned serves it although no row bans the user. */
  lemma LatePositiveWriteRefuses(ttls: Ttls, limit: nat, callers: nat)
    returns (run: seq<World>, events: seq<Event>, rows: seq<Ban>)
    requires callers >= 2
    ensures CrowdedRun(run, ttls, events, limit, callers)
    ensures exists n, id, c, writer :: MissesLift(run, n, id, c, writer)
    ensures run != [] && run[|run| - 1].rows == rows && forall t :: !Banned(rows, Exactly(SUBJECT), t)
  {
    rows := [LIFTED_BAN];
    var c := SlowCheckStores(ttls, limit, callers);
    LateCheckStarts(ttls, limit, callers, c);
    LateCheckRefuses(ttls, limit, callers, c);
    var last := Refusing(ttls, Answered(true, 11), 12);
    run, events :| Tells(run, ttls, events, limit, callers, c, 2, 3, rows, last);
    assert MissesLift(run, |run| - 1, 3, c, 2);
  }

  // ---------------------------------------------------------------- the exact conditions

  /** A returned user ban is seen by every later check, in every run, exactly when at most
      one call for the user is in flight at a time, whatever the TTLs and the call limit. */
  lemma BansNeedSolitude(ttls: Ttls, limit: nat, callers: nat)
    ensures (forall run, events, n, id, c, writer | CrowdedRun(run, ttls, events, limit, callers) ::
               !MissesBan(run, n, id, c, writer))
            <==> callers <= 1
  {
    if callers <= 1 {
      forall run, events, n: nat, id: nat, c: nat, writer: nat | CrowdedRun(run, ttls, events, limit, callers)
        ensures !MissesBan(run, n, id, c, writer)
      {
        SoloIsLone(run, ttls, events, limit, callers);
        LoneWritesAreSeen(run, ttls, events, limit, n, id, c, writer);
      }
    } else {
      var run, events, _ := LateNegativeWriteClears(ttls, limit, callers);
    }
  }

  /** The same of a returned lift. */
  lemma LiftsNeedSolitude(ttls: Ttls, limit: nat, callers: nat)
    ensures (forall run, events, n, id, c, writer | CrowdedRun(run, ttls, events, limit, callers) ::
               !MissesLift(run, n, id, c, writer))
            <==> callers <= 1
  {
    if callers <= 1 {
      forall run, events, n: nat, id: nat, c: nat, writer: nat | CrowdedRun(run, ttls, events, limit, callers)
        ensures !MissesLift(run, n, id, c, writer)
      {
        SoloIsLone(run, ttls, events, limit, callers);
        LoneWritesAreSeen(run, ttls, events, limit, n, id, c, writer);
      }
    } else {
      var run, events, _ := LatePositiveWriteRefuses(ttls, limit, callers);
    }
  }

  /** However many checks overlap, returned bans, and returned lifts, are seen by every later
      check, in every run, exactly when writes run alone. `lone` says whether they do. */
  lemma WritesNeedToRunAlone(ttls: Ttls, limit: nat, lone: bool)
    ensures (forall run, events, n, id, c, writer | Run(run, ttls, events, limit)
          && (lone ==> LoneRun(run, ttls, events, limit)) ::
               !MissesBan(run, n, id, c, writer))
            <==> lone
    ensures (forall run, events, n, id, c, writer | Run(run, ttls, events, limit)
          && (lone ==> LoneRun(run, ttls, events, limit)) ::
               !MissesLift(run, n, id, c, writer))
            <==> lone
  {
    if lone {
      forall run, events, n: nat, id: nat, c: nat, writer: nat | LoneRun(run, ttls, events, limit)
        ensures !MissesBan(run, n, id, c, writer)
      {
        LoneWritesAreSeen(run, ttls, events, limit, n, id, c, writer);
      }
      forall run, events, n: nat, id: nat, c: nat, writer: nat | LoneRun(run, ttls, events, limit)
        ensures !MissesLift(run, n, id, c, writer)
      {
        LoneWritesAreSeen(run, ttls, events, limit, n, id, c, writer);
      }
    } else {
      var run, events, _ := LateNegativeWriteClears(ttls, limit, 2);
      assert Run(run, ttls, events, limit);
      var run', events', _ := LatePositiveWriteRefuses(ttls, limit, 2);
      assert Run(run', ttls, events', limit);
    }
  }
}
