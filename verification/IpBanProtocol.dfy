/**
 * IP ban checks, upserts and lifts interleaved at every Redis or database call and every
 * clock reading of a check; a writer reads the clock in the step that uses it. The version
 * scheme (a check reads the version, then the database; a writer writes the database, then
 * bumps the version) makes a verdict stored under a version at least as fresh as that
 * version.
 *
 * Redis never serves an entry at or after the instant it dies, and may forget it at any
 * step before. No Redis call fails. Whether the version key may be lost is a parameter of
 * a run. `steps` counts the steps of the run, so that a call can name the states it passed
 * through; no decision reads it.
 */
module IpBanProtocol {
  import opened Common
  import opened BanRecords

  datatype CheckPoint =
    | AskExact
    | JudgeExact(found: Option<Entry>)
    | StampExact
    | QueryExact(asked: Instant)
    | PutExact(entry: Entry, built: Instant)
    | AskVersion
    | AskVerdict(v: nat)
    | JudgeVerdict(v: nat, found: Option<Entry>)
    | StampNetworks(v: nat)
    | QueryNetworks(v: nat, asked: Instant)
    | PutVerdict(v: nat, entry: Entry, built: Instant)
    | Answered(banned: bool, byNetworks: bool, at: nat)

  datatype WritePoint =
    | Find
    | Write(slot: Option<nat>)
    | Cache
    | Bump
    | Returned(bumpedAt: nat)
    | Failed

  /** A call in progress or completed; `born` is the step at which it started. */
  datatype Call =
    | Check(ip: Ip, born: nat, check: CheckPoint)
    | Upsert(target: Target, until: Option<Instant>, born: nat, write: WritePoint)
    | Lift(target: Target, born: nat, write: WritePoint)

  datatype World = World(
    now: Instant,
    rows: seq<Ban>,
    exact: map<Ip, Entry>,
    verdicts: map<(nat, Ip), Entry>,
    version: nat,
    calls: map<nat, Call>,
    steps: nat)

  datatype Ttls = Ttls(negative: nat, permanent: nat, verdict: nat)

  datatype Event =
    | Tick(passed: nat)
    | ForgetExact(ip: Ip)
    | ForgetVerdict(key: (nat, Ip))
    | LoseVersion
    | Start(id: nat, call: Call)
    | Advance(id: nat)

  /** What a GET returns at `now`. */
  function Get<K>(m: map<K, Entry>, k: K, now: Instant): Option<Entry> {
    if k in m && now < m[k].dies then Some(m[k]) else None
  }

  /** The TTL of an entry built earlier starts when it is stored. */
  function Stored(entry: Entry, built: Instant, now: Instant): Entry {
    entry.(dies := now + entry.dies - built)
  }

  predicate Completed(call: Call) {
    match call
    case Check(ip, born, point) => point.Answered?
    case Upsert(target, until, born, point) => point.Returned? || point.Failed?
    case Lift(target, born, point) => point.Returned? || point.Failed?
  }

  /** `keeps` says that the version key is never lost. */
  predicate Enabled(w: World, keeps: bool, ev: Event) {
    match ev
    case Start(id, call) =>
      && id !in w.calls
      && match call {
        case Check(ip, born, point) => born == w.steps && point == AskExact
        case Upsert(target, until, born, point) => born == w.steps && !target.User? && point == Find
        case Lift(target, born, point) => born == w.steps && !target.User? && point == Find
      }
    case Advance(id) =>
      && id in w.calls
      && !Completed(w.calls[id])
    case LoseVersion => !keeps
    case _ => true
  }

  // ---------------------------------------------------------------- one step

  /** One step of a check: the stores after it, and where the check then stands. */
  function AdvanceCheck(w: World, ttls: Ttls, ip: Ip, point: CheckPoint): (r: (World, CheckPoint))
    requires !point.Answered?
    ensures r.0.calls == w.calls && r.0.rows == w.rows && r.0.version == w.version && r.0.now == w.now
  {
    match point
    case AskExact => (w, JudgeExact(Get(w.exact, ip, w.now)))
    case JudgeExact(found) =>
      (w, if found.Some? && !EntryExpired(found.value, w.now) && found.value.banned then Answered(true, false, w.steps)
            else StampExact)
    case StampExact => (w, QueryExact(w.now))
    case QueryExact(asked) =>
      (w, PutExact(QueryEntry(w.rows, Exactly(Addr(ip)), asked, w.now, ttls.permanent, ttls.negative), w.now))
    case PutExact(entry, built) =>
      (w.(exact := w.exact[ip := Stored(entry, built, w.now)]),
       if entry.banned then Answered(true, false, w.steps) else AskVersion)
    case AskVersion => (w, AskVerdict(w.version))
    case AskVerdict(v) => (w, JudgeVerdict(v, Get(w.verdicts, (v, ip), w.now)))
    case JudgeVerdict(v, found) =>
      (w, if found.Some? && !EntryExpired(found.value, w.now) then Answered(found.value.banned, true, w.steps)
            else StampNetworks(v))
    case StampNetworks(v) => (w, QueryNetworks(v, w.now))
    case QueryNetworks(v, asked) =>
      (w, PutVerdict(v, NetworkEntry(w.rows, ip, asked, w.now, ttls.permanent, ttls.verdict), w.now))
    case PutVerdict(v, entry, built) =>
      (w.(verdicts := w.verdicts[(v, ip) := Stored(entry, built, w.now)]), Answered(entry.banned, true, w.steps))
  }

  function AdvanceUpsert(w: World, ttls: Ttls, target: Target, until: Option<Instant>,
          point: WritePoint): (r: (World, WritePoint))
    requires !point.Returned? && !point.Failed?
    ensures r.0.calls == w.calls && r.0.verdicts == w.verdicts && r.0.now == w.now
  {
    match point
    case Find => (w, Write(Latest(w.rows, Exactly(target), None)))
    case Write(slot) =>
      var row := Ban(target, until, w.now, None);
      if (slot.Some? && slot.value >= |w.rows|) || Refused(w.rows, slot, row) then (w, Failed)
      else (w.(rows := Store(w.rows, slot, row)), if target.Addr? then Cache else Bump)
    case Cache =>
      var entry := EntryFor(Ban(target, until, w.now, None), w.now, ttls.permanent);
      (if target.Addr? then w.(exact := w.exact[target.ip := entry]) else w, Bump)
    case Bump => (w.(version := w.version + 1), Returned(w.steps))
  }

  function AdvanceLift(w: World, target: Target, point: WritePoint): (r: (World, WritePoint))
    requires !point.Returned? && !point.Failed?
    ensures r.0.calls == w.calls && r.0.verdicts == w.verdicts && r.0.now == w.now
  {
    match point
    case Find => (w, Write(Latest(w.rows, Exactly(target), None)))
    case Write(slot) =>
      var next := if target.Addr? then Cache else Bump;
      if slot.None? then (w, next)
      else if slot.value >= |w.rows| then (w, Failed)
      else (w.(rows := w.rows[slot.value := w.rows[slot.value].(liftedAt := Some(w.now))]), next)
    case Cache => (if target.Addr? then w.(exact := w.exact - {target.ip}) else w, Bump)
    case Bump => (w.(version := w.version + 1), Returned(w.steps))
  }

  function AdvanceCall(w: World, ttls: Ttls, call: Call): (r: (World, Call))
    requires !Completed(call)
    ensures r.0.calls == w.calls && r.0.now == w.now
  {
    match call
    case Check(ip, born, point) =>
      var r := AdvanceCheck(w, ttls, ip, point);
      (r.0, Check(ip, born, r.1))
    case Upsert(target, until, born, point) =>
      var r := AdvanceUpsert(w, ttls, target, until, point);
      (r.0, Upsert(target, until, born, r.1))
    case Lift(target, born, point) =>
      var r := AdvanceLift(w, target, point);
      (r.0, Lift(target, born, r.1))
  }

  function Effect(w: World, ttls: Ttls, ev: Event): World
    requires Enabled(w, false, ev)
  {
    match ev
    case Tick(passed) => w.(now := w.now + passed)
    case ForgetExact(ip) => w.(exact := w.exact - {ip})
    case ForgetVerdict(key) => w.(verdicts := w.verdicts - {key})
    case LoseVersion => w.(version := 0)
    case Start(id, call) => w.(calls := w.calls[id := call])
    case Advance(id) =>
      var r := AdvanceCall(w, ttls, w.calls[id]);
      r.0.(calls := w.calls[id := r.1])
  }

  function Step(w: World, ttls: Ttls, ev: Event): (w': World)
    requires Enabled(w, false, ev)
  {
    Effect(w, ttls, ev).(steps := w.steps + 1)
  }

  lemma OthersWait(w: World, ttls: Ttls, ev: Event, id: nat)
    requires Enabled(w, false, ev) && ev != Advance(id) && id in w.calls
    ensures id in Step(w, ttls, ev).calls && Step(w, ttls, ev).calls[id] == w.calls[id]
  {
  }

  // ---------------------------------------------------------------- runs

  ghost predicate Initial(w: World) {
    w.exact == map[] && w.verdicts == map[] && w.calls == map[] && w.steps == 0
  }

  ghost predicate StepsTo(w: World, ttls: Ttls, keeps: bool, ev: Event, w': World) {
    Enabled(w, keeps, ev) && w' == Step(w, ttls, ev)
  }

  ghost predicate StepAt(run: seq<World>, ttls: Ttls, events: seq<Event>, keeps: bool, i: nat)
    requires i < |events| && |run| == |events| + 1
  {
    StepsTo(run[i], ttls, keeps, events[i], run[i + 1])
  }

  /** Any run: its states, and the events between them. */
  ghost predicate AnyRun(run: seq<World>, ttls: Ttls, events: seq<Event>, keeps: bool) {
    && |run| == |events| + 1
    && Initial(run[0])
    && forall i: nat {:trigger StepAt(run, ttls, events, keeps, i)} | i < |events| ::
         StepAt(run, ttls, events, keeps, i)
  }

  /** A run in which the version key is never lost. */
  ghost predicate Run(run: seq<World>, ttls: Ttls, events: seq<Event>) {
    AnyRun(run, ttls, events, true)
  }

  /** The step from `w` to `w'` is the network query of some check of `ip`, whose clock
      reading was `t`. */
  ghost predicate Queries(w: World, w': World, ip: Ip, t: Instant) {
    exists id :: QueriesAs(w, w', id, ip, t)
  }

  ghost predicate QueriesAs(w: World, w': World, id: nat, ip: Ip, t: Instant) {
    && id in w.calls && w.calls[id].Check? && w.calls[id].ip == ip
    && w.calls[id].check.QueryNetworks? && w.calls[id].check.asked == t
    && id in w'.calls && w'.calls[id].Check? && w'.calls[id].check.PutVerdict?
  }

  /** The answer `banned` for `ip` is what a check read from the database at state `k`,
      with a clock reading no earlier than state `j`, at which the version had reached
      `v`. */
  ghost predicate ReadAt(run: seq<World>, n: nat, ip: Ip, v: nat, banned: bool, j: nat, k: nat, t: Instant) {
    && j <= k < n < |run|
    && run[j].version >= v
    && run[j].now <= t <= run[k].now
    && Queries(run[k], run[k + 1], ip, t)
    && (banned <==> Banned(run[k].rows, Covering(ip), t))
  }

  ghost predicate Fresh(run: seq<World>, n: nat, ip: Ip, v: nat, banned: bool) {
    exists j, k, t :: ReadAt(run, n, ip, v, banned, j, k, t)
  }

  /** During the check, the database had no active row for the ip itself. */
  ghost predicate MissAt(run: seq<World>, n: nat, ip: Ip, born: nat, k: nat, t: Instant) {
    && born <= k <= n < |run|
    && run[born].now <= t <= run[k].now
    && !Banned(run[k].rows, Exactly(Addr(ip)), t)
  }

  ghost predicate ExactMiss(run: seq<World>, n: nat, ip: Ip, born: nat) {
    exists k, t :: MissAt(run, n, ip, born, k, t)
  }

  lemma MissStays(run: seq<World>, n: nat, m: nat, ip: Ip, born: nat)
    requires ExactMiss(run, n, ip, born) && n <= m < |run|
    ensures ExactMiss(run, m, ip, born)
  {
    var k: nat, t :| MissAt(run, n, ip, born, k, t);
    assert MissAt(run, m, ip, born, k, t);
  }

  /** The points a check reaches only after its query for the ip itself came back empty. */
  predicate PastExact(point: CheckPoint) {
    match point
    case AskExact | JudgeExact(_) | StampExact | QueryExact(_) => false
    case PutExact(entry, _) => !entry.banned
    case Answered(banned, byNetworks, _) => byNetworks
    case _ => true
  }

  lemma FreshStays(run: seq<World>, n: nat, m: nat, ip: Ip, v: nat, u: nat, banned: bool)
    requires Fresh(run, n, ip, v, banned) && n <= m < |run| && u <= v
    ensures Fresh(run, m, ip, u, banned)
  {
    var j: nat, k: nat, t :| ReadAt(run, n, ip, v, banned, j, k, t);
    assert ReadAt(run, m, ip, u, banned, j, k, t);
  }

  /** The clock and the step counter only go forward, whether or not the key is lost. */
  lemma {:induction false} ClockAdvances(run: seq<World>, ttls: Ttls, events: seq<Event>, keeps: bool, i: nat, j: nat)
    requires AnyRun(run, ttls, events, keeps) && i <= j < |run|
    ensures run[i].now <= run[j].now && run[j].steps == j
    decreases j
  {
    if j > 0 {
      assert StepAt(run, ttls, events, keeps, j - 1);
      ClockAdvances(run, ttls, events, keeps, if i == j then i - 1 else i, j - 1);
    }
  }

  /** The clock, the version and the step counter only go forward. */
  lemma {:induction false} Forward(run: seq<World>, ttls: Ttls, events: seq<Event>, i: nat, j: nat)
    requires Run(run, ttls, events) && i <= j < |run|
    ensures run[i].now <= run[j].now && run[i].version <= run[j].version && run[j].steps == j
    decreases j
  {
    if j > 0 {
      assert StepAt(run, ttls, events, true, j - 1);
      Forward(run, ttls, events, if i == j then i - 1 else i, j - 1);
    }
  }

  /** What a call holds between its steps. */
  ghost predicate CallFresh(run: seq<World>, n: nat, call: Call)
    requires n < |run|
  {
    match call
    case Check(ip, born, point) => (
      && born <= n
      && (PastExact(point) ==> ExactMiss(run, n, ip, born))
      && var since := run[born].version;
         match point {
           case QueryExact(asked) => run[born].now <= asked <= run[n].now
           case AskVerdict(v) => since <= v <= run[n].version
           case JudgeVerdict(v, found) =>
             since <= v <= run[n].version && (found.Some? ==> Fresh(run, n, ip, v, found.value.banned))
           case StampNetworks(v) => since <= v <= run[n].version
           case QueryNetworks(v, asked) =>
             && since <= v <= run[n].version
             && exists j | 0 <= j <= n :: run[j].version >= v && run[j].now <= asked <= run[n].now
           case PutVerdict(v, entry, _) =>
             since <= v <= run[n].version && Fresh(run, n, ip, v, entry.banned)
           case Answered(banned, byNetworks, at) =>
             born <= at < n && if byNetworks then Fresh(run, n, ip, since, banned) else banned
           case _ => true
         })
    case Upsert(target, until, born, point) => point.Returned? ==> BumpedAt(run, n, point.bumpedAt)
    case Lift(target, born, point) => point.Returned? ==> BumpedAt(run, n, point.bumpedAt)
  }

  ghost predicate BumpedAt(run: seq<World>, n: nat, b: nat) {
    b + 1 <= n < |run| && run[b + 1].version == run[b].version + 1
  }

  ghost predicate VerdictsFresh(run: seq<World>, n: nat)
    requires n < |run|
  {
    forall k | k in run[n].verdicts :: Fresh(run, n, k.1, k.0, run[n].verdicts[k].banned)
  }

  ghost predicate AllFresh(run: seq<World>, n: nat)
    requires n < |run|
  {
    && VerdictsFresh(run, n)
    && (forall id | id in run[n].calls :: CallFresh(run, n, run[n].calls[id]))
  }

  lemma CallStaysFresh(run: seq<World>, ttls: Ttls, events: seq<Event>, n: nat, call: Call)
    requires Run(run, ttls, events) && n + 1 < |run| && CallFresh(run, n, call)
    ensures CallFresh(run, n + 1, call)
  {
    Forward(run, ttls, events, n, n + 1);
    if call.Check? {
      if PastExact(call.check) {
        MissStays(run, n, n + 1, call.ip, call.born);
      }
      match call.check
      case JudgeVerdict(v, found) =>
        if found.Some? {
          FreshStays(run, n, n + 1, call.ip, v, v, found.value.banned);
        }
      case PutVerdict(v, entry, _) => FreshStays(run, n, n + 1, call.ip, v, v, entry.banned);
      case Answered(banned, byNetworks, _) =>
        if byNetworks {
          FreshStays(run, n, n + 1, call.ip, run[call.born].version, run[call.born].version, banned);
        }
      case _ =>
    }
  }

  lemma QueriedVerdictIsFresh(run: seq<World>, ttls: Ttls, events: seq<Event>, n: nat, id: nat)
    requires Run(run, ttls, events) && n + 1 < |run|
    requires events[n] == Advance(id) && id in run[n].calls && run[n].calls[id].Check?
    requires run[n].calls[id].check.QueryNetworks?
    requires CallFresh(run, n, run[n].calls[id])
    ensures id in run[n + 1].calls && CallFresh(run, n + 1, run[n + 1].calls[id])
  {
    var w := run[n];
    assert StepAt(run, ttls, events, true, n);
    var Check(ip, born, QueryNetworks(v, asked)) := w.calls[id];
    assert CallFresh(run, n, w.calls[id]);
    var j: nat :| j <= n && run[j].version >= v && run[j].now <= asked <= run[n].now;
    MissStays(run, n, n + 1, ip, born);
    Forward(run, ttls, events, n, n + 1);
    var entry := NetworkEntry(w.rows, ip, asked, w.now, ttls.permanent, ttls.verdict);
    assert run[n + 1].calls[id] == Check(ip, born, PutVerdict(v, entry, w.now));
    assert QueriesAs(w, run[n + 1], id, ip, asked);
    assert ReadAt(run, n + 1, ip, v, entry.banned, j, n, asked);
  }

  lemma AdvancedExactIsFresh(run: seq<World>, ttls: Ttls, events: seq<Event>, n: nat, id: nat)
    requires Run(run, ttls, events) && n + 1 < |run|
    requires events[n] == Advance(id) && id in run[n].calls && run[n].calls[id].Check?
    requires !HoldsVersion(run[n].calls[id].check)
    requires CallFresh(run, n, run[n].calls[id])
    ensures id in run[n + 1].calls && CallFresh(run, n + 1, run[n + 1].calls[id])
  {
    var w := run[n];
    assert StepAt(run, ttls, events, true, n);
    var Check(ip, born, point) := w.calls[id];
    assert CallFresh(run, n, w.calls[id]);
    Forward(run, ttls, events, born, n);
    Forward(run, ttls, events, n, n + 1);
    if PastExact(point) {
      MissStays(run, n, n + 1, ip, born);
    }
    if point.QueryExact? && !Banned(w.rows, Exactly(Addr(ip)), point.asked) {
      assert MissAt(run, n + 1, ip, born, n, point.asked);
    }
  }

  /** The points at which a check holds a version. */
  predicate HoldsVersion(point: CheckPoint) {
    point.AskVerdict? || point.JudgeVerdict? || point.StampNetworks? || point.QueryNetworks? || point.PutVerdict?
  }

  lemma StampedNetworksAreFresh(run: seq<World>, ttls: Ttls, events: seq<Event>, n: nat, id: nat)
    requires Run(run, ttls, events) && n + 1 < |run|
    requires events[n] == Advance(id) && id in run[n].calls && run[n].calls[id].Check?
    requires run[n].calls[id].check.StampNetworks? && CallFresh(run, n, run[n].calls[id])
    ensures id in run[n + 1].calls && CallFresh(run, n + 1, run[n + 1].calls[id])
  {
    assert StepAt(run, ttls, events, true, n);
    Forward(run, ttls, events, n, n + 1);
    MissStays(run, n, n + 1, run[n].calls[id].ip, run[n].calls[id].born);
    assert run[n].version >= run[n].calls[id].check.v && run[n].now <= run[n].now <= run[n + 1].now;
  }

  lemma AskedVerdictIsFresh(run: seq<World>, ttls: Ttls, events: seq<Event>, n: nat, id: nat)
    requires Run(run, ttls, events) && n + 1 < |run|
    requires events[n] == Advance(id) && id in run[n].calls && run[n].calls[id].Check?
    requires run[n].calls[id].check.AskVerdict?
    requires CallFresh(run, n, run[n].calls[id]) && VerdictsFresh(run, n)
    ensures id in run[n + 1].calls && CallFresh(run, n + 1, run[n + 1].calls[id])
  {
    var w := run[n];
    assert StepAt(run, ttls, events, true, n);
    var Check(ip, born, point) := w.calls[id];
    assert CallFresh(run, n, w.calls[id]);
    Forward(run, ttls, events, n, n + 1);
    MissStays(run, n, n + 1, ip, born);
    var v := point.v;
    if (v, ip) in w.verdicts {
      FreshStays(run, n, n + 1, ip, v, v, w.verdicts[(v, ip)].banned);
    }
    assert run[n + 1].calls[id] == Check(ip, born, JudgeVerdict(v, Get(w.verdicts, (v, ip), w.now)));
  }

  lemma JudgedVerdictIsFresh(run: seq<World>, ttls: Ttls, events: seq<Event>, n: nat, id: nat)
    requires Run(run, ttls, events) && n + 1 < |run|
    requires events[n] == Advance(id) && id in run[n].calls && run[n].calls[id].Check?
    requires run[n].calls[id].check.JudgeVerdict? || run[n].calls[id].check.PutVerdict?
    requires CallFresh(run, n, run[n].calls[id])
    ensures id in run[n + 1].calls && CallFresh(run, n + 1, run[n + 1].calls[id])
  {
    var w := run[n];
    assert StepAt(run, ttls, events, true, n);
    var Check(ip, born, point) := w.calls[id];
    assert CallFresh(run, n, w.calls[id]);
    Forward(run, ttls, events, n, n + 1);
    MissStays(run, n, n + 1, ip, born);
    if point.PutVerdict? {
      FreshStays(run, n, n + 1, ip, point.v, run[born].version, point.entry.banned);
    } else if point.found.Some? {
      FreshStays(run, n, n + 1, ip, point.v, run[born].version, point.found.value.banned);
    }
  }

  lemma AdvancedCheckIsFresh(run: seq<World>, ttls: Ttls, events: seq<Event>, n: nat, id: nat)
    requires Run(run, ttls, events) && n + 1 < |run| && AllFresh(run, n)
    requires events[n] == Advance(id) && id in run[n].calls && run[n].calls[id].Check?
    ensures id in run[n + 1].calls && CallFresh(run, n + 1, run[n + 1].calls[id])
  {
    assert StepAt(run, ttls, events, true, n);
    assert CallFresh(run, n, run[n].calls[id]);
    var point := run[n].calls[id].check;
    if !HoldsVersion(point) {
      AdvancedExactIsFresh(run, ttls, events, n, id);
    } else if point.QueryNetworks? {
      QueriedVerdictIsFresh(run, ttls, events, n, id);
    } else if point.StampNetworks? {
      StampedNetworksAreFresh(run, ttls, events, n, id);
    } else if point.AskVerdict? {
      AskedVerdictIsFresh(run, ttls, events, n, id);
    } else {
      JudgedVerdictIsFresh(run, ttls, events, n, id);
    }
  }

  lemma VerdictsStayFresh(run: seq<World>, ttls: Ttls, events: seq<Event>, n: nat, k: (nat, Ip))
    requires Run(run, ttls, events) && n + 1 < |run| && AllFresh(run, n) && k in run[n + 1].verdicts
    ensures Fresh(run, n + 1, k.1, k.0, run[n + 1].verdicts[k].banned)
  {
    var w, w' := run[n], run[n + 1];
    assert StepAt(run, ttls, events, true, n);
    if k in w.verdicts && w.verdicts[k] == w'.verdicts[k] {
      FreshStays(run, n, n + 1, k.1, k.0, k.0, w.verdicts[k].banned);
    } else {
      var id := events[n].id;
      var Check(ip, born, point) := w.calls[id];
      assert point.PutVerdict? && k == (point.v, ip);
      FreshStays(run, n, n + 1, ip, point.v, point.v, point.entry.banned);
    }
  }

  lemma AdvancedWriteIsFresh(run: seq<World>, ttls: Ttls, events: seq<Event>, n: nat, id: nat)
    requires Run(run, ttls, events) && n + 1 < |run|
    requires events[n] == Advance(id) && id in run[n].calls && !run[n].calls[id].Check?
    ensures id in run[n + 1].calls && CallFresh(run, n + 1, run[n + 1].calls[id])
  {
    assert StepAt(run, ttls, events, true, n);
    Forward(run, ttls, events, n, n);
  }

  lemma CallKeepsFresh(run: seq<World>, ttls: Ttls, events: seq<Event>, n: nat, id: nat)
    requires Run(run, ttls, events) && n + 1 < |run| && AllFresh(run, n) && id in run[n + 1].calls
    ensures CallFresh(run, n + 1, run[n + 1].calls[id])
  {
    var w, w' := run[n], run[n + 1];
    assert StepAt(run, ttls, events, true, n);
    if events[n] == Advance(id) {
      if w.calls[id].Check? {
        AdvancedCheckIsFresh(run, ttls, events, n, id);
      } else {
        AdvancedWriteIsFresh(run, ttls, events, n, id);
      }
    } else if id in w.calls {
      OthersWait(w, ttls, events[n], id);
      CallStaysFresh(run, ttls, events, n, w.calls[id]);
    } else {
      Forward(run, ttls, events, n, n);
    }
  }

  lemma StepKeepsFresh(run: seq<World>, ttls: Ttls, events: seq<Event>, n: nat)
    requires Run(run, ttls, events) && n + 1 < |run| && AllFresh(run, n)
    ensures AllFresh(run, n + 1)
  {
    var w, w' := run[n], run[n + 1];
    var ev := events[n];
    assert StepAt(run, ttls, events, true, n);
    Forward(run, ttls, events, n, n);
    forall k | k in w'.verdicts ensures Fresh(run, n + 1, k.1, k.0, w'.verdicts[k].banned) {
      VerdictsStayFresh(run, ttls, events, n, k);
    }
    forall id | id in w'.calls ensures CallFresh(run, n + 1, w'.calls[id]) {
      CallKeepsFresh(run, ttls, events, n, id);
    }
  }

  lemma {:induction false} RunIsFresh(run: seq<World>, ttls: Ttls, events: seq<Event>, n: nat)
    requires Run(run, ttls, events) && n < |run|
    ensures AllFresh(run, n)
  {
    if n > 0 {
      RunIsFresh(run, ttls, events, n - 1);
      StepKeepsFresh(run, ttls, events, n - 1);
    }
  }

  // ---------------------------------------------------------------- what callers see

  /** A check that clears an ip found no row for the ip itself during the check, and a
      network answer no older than the version at which the check started. */
  lemma CheckIsFresh(run: seq<World>, ttls: Ttls, events: seq<Event>, n: nat, id: nat)
    requires Run(run, ttls, events) && n < |run|
    requires id in run[n].calls && run[n].calls[id].Check? && run[n].calls[id].check.Answered?
    ensures var Check(ip, born, Answered(banned, byNetworks, at)) := run[n].calls[id];
            && born <= at < n
            && (byNetworks ==> Fresh(run, n, ip, run[born].version, banned) && ExactMiss(run, n, ip, born))
            && (!banned ==> byNetworks)
  {
    RunIsFresh(run, ttls, events, n);
    assert CallFresh(run, n, run[n].calls[id]);
  }

  lemma FreshReadFollowsBump(run: seq<World>, ttls: Ttls, events: seq<Event>, n: nat, b: nat, born: nat, j: nat)
    requires Run(run, ttls, events) && n < |run| && BumpedAt(run, n, b)
    requires b < born <= n && j <= n && run[j].version >= run[born].version
    ensures b < j
  {
    Forward(run, ttls, events, b + 1, born);
    if j <= b {
      Forward(run, ttls, events, j, b);
    }
  }

  /** If the database says the ip is covered throughout, from a completed bump to the
      end of a check that started after the bump, then the check says banned. */
  lemma SettledBanIsSeen(run: seq<World>, ttls: Ttls, events: seq<Event>, n: nat, id: nat, b: nat)
    requires Run(run, ttls, events) && n < |run|
    requires id in run[n].calls && run[n].calls[id].Check? && run[n].calls[id].check.Answered?
    requires b < run[n].calls[id].born && BumpedAt(run, n, b)
    requires forall k | b < k <= n :: Banned(run[k].rows, Covering(run[n].calls[id].ip), run[k].now)
    ensures run[n].calls[id].check.banned
  {
    CheckIsFresh(run, ttls, events, n, id);
    var Check(ip, born, Answered(banned, byNetworks, _)) := run[n].calls[id];
    if byNetworks {
      var j: nat, k: nat, t :| ReadAt(run, n, ip, run[born].version, banned, j, k, t);
      FreshReadFollowsBump(run, ttls, events, n, b, born, j);
      assert Banned(run[k].rows, Covering(ip), run[k].now);
    }
  }

  /** Once an upsert of a network has returned, every check that starts later says
      banned for every ip the network contains, as long as the rows ban the network. */
  lemma BannedNetworkIsSeen(run: seq<World>, ttls: Ttls, events: seq<Event>, n: nat, id: nat, c: nat, writer: nat)
    requires Run(run, ttls, events) && c <= n < |run|
    requires id in run[n].calls && run[n].calls[id].Check? && run[n].calls[id].check.Answered?
    requires writer in run[c].calls && run[c].calls[writer].Upsert? && run[c].calls[writer].write.Returned?
    requires c <= run[n].calls[id].born
    requires Hits(Covering(run[n].calls[id].ip), run[c].calls[writer].target)
    requires forall k | run[c].calls[writer].write.bumpedAt < k <= n ::
               Banned(run[k].rows, Exactly(run[c].calls[writer].target), run[k].now)
    ensures run[n].calls[id].check.banned
  {
    RunIsFresh(run, ttls, events, c);
    assert CallFresh(run, c, run[c].calls[writer]);
    var b := run[c].calls[writer].write.bumpedAt;
    assert BumpedAt(run, n, b);
    forall k | b < k <= n ensures Banned(run[k].rows, Covering(run[n].calls[id].ip), run[k].now) {
      var i :| 0 <= i < |run[k].rows| && Hits(Exactly(run[c].calls[writer].target), run[k].rows[i].target)
            && run[k].rows[i].ActiveAt(run[k].now);
    }
    SettledBanIsSeen(run, ttls, events, n, id, b);
  }

  /** A ban on the ip itself needs no version: it is seen by every check that runs
      while the row is active. */
  lemma ExactBanIsSeen(run: seq<World>, ttls: Ttls, events: seq<Event>, n: nat, id: nat)
    requires Run(run, ttls, events) && n < |run|
    requires id in run[n].calls && run[n].calls[id].Check? && run[n].calls[id].check.Answered?
    requires forall k | run[n].calls[id].born <= k <= n ::
          Banned(run[k].rows, Exactly(Addr(run[n].calls[id].ip)), run[k].now)
    ensures run[n].calls[id].check.banned
  {
    CheckIsFresh(run, ttls, events, n, id);
  }

  // ---------------------------------------------------------------- lifts

  /** Nothing in Redis or in flight claims a ban on the ip itself, and no check started at
      `since` or later has answered with one. */
  ghost predicate ExactClean(w: World, ip: Ip, since: nat) {
    && (ip in w.exact ==> !w.exact[ip].banned)
    && forall id | id in w.calls ::
         match w.calls[id] {
           case Check(x, born, point) =>
             x == ip ==> match point {
               case JudgeExact(found) => found.Some? ==> !found.value.banned
               case PutExact(entry, _) => !entry.banned
               case Answered(banned, byNetworks, _) => born < since || byNetworks
               case _ => true
             }
           case Upsert(target, until, born, point) => !(target == Addr(ip) && point == Cache)
           case Lift(target, born, point) => true
         }
  }

  lemma StepKeepsExactClean(w: World, ttls: Ttls, ev: Event, ip: Ip, since: nat)
    requires Enabled(w, true, ev) && ExactClean(w, ip, since)
    requires NoOpenRow(w.rows, Addr(ip)) && NoOpenRow(Step(w, ttls, ev).rows, Addr(ip))
    ensures ExactClean(Step(w, ttls, ev), ip, since)
  {
    var w' := Step(w, ttls, ev);
    if ev.Advance? {
      var r := AdvanceCall(w, ttls, w.calls[ev.id]);
      assert w'.rows == r.0.rows;
      match w.calls[ev.id]
      case Check(x, born, point) =>
      case Upsert(target, until, born, point) =>
        if point.Write? && r.1.write == Cache {
          assert w'.rows[if point.slot.Some? then point.slot.value else |w.rows|] == Ban(target, until, w.now, None);
        }
      case Lift(target, born, point) =>
    }
  }

  /** A clean state stays clean as long as no row of the ip itself is open. */
  lemma {:induction false} RunStaysExactClean(run: seq<World>, ttls: Ttls, events: seq<Event>, i: nat, n: nat, ip: Ip,
        since: nat)
    requires Run(run, ttls, events) && i <= n < |run|
    requires ExactClean(run[i], ip, since)
    requires forall k | i <= k <= n :: NoOpenRow(run[k].rows, Addr(ip))
    ensures ExactClean(run[n], ip, since)
    decreases n
  {
    if i < n {
      RunStaysExactClean(run, ttls, events, i, n - 1, ip, since);
      assert StepAt(run, ttls, events, true, n - 1);
      StepKeepsExactClean(run[n - 1], ttls, events[n - 1], ip, since);
    }
  }

  /** Once a lift has returned, every later check clears an ip that no open row of its own
      bans, as long as no active network covers it. */
  lemma LiftIsSeen(run: seq<World>, ttls: Ttls, events: seq<Event>, n: nat, id: nat, c: nat, writer: nat)
    requires Run(run, ttls, events) && c <= n < |run|
    requires id in run[n].calls && run[n].calls[id].Check? && run[n].calls[id].check.Answered?
    requires writer in run[c].calls && run[c].calls[writer].Lift? && run[c].calls[writer].write.Returned?
    requires c <= run[n].calls[id].born
    requires forall k | 0 <= k <= n :: NoOpenRow(run[k].rows, Addr(run[n].calls[id].ip))
    requires forall k | run[c].calls[writer].write.bumpedAt < k <= n ::
               !Banned(run[k].rows, Covering(run[n].calls[id].ip), run[run[c].calls[writer].write.bumpedAt].now)
    ensures !run[n].calls[id].check.banned
  {
    CheckIsFresh(run, ttls, events, n, id);
    RunStaysExactClean(run, ttls, events, 0, n, run[n].calls[id].ip, 0);
    NetworkRefusalIsOld(run, ttls, events, n, id, c, writer);
  }

  /** After a lift has returned, no later check answers banned on account of networks that
      are no longer active, whatever rows the ip itself has or had. */
  lemma NetworkRefusalIsOld(run: seq<World>, ttls: Ttls, events: seq<Event>, n: nat, id: nat, c: nat, writer: nat)
    requires Run(run, ttls, events) && c <= n < |run|
    requires id in run[n].calls && run[n].calls[id].Check? && run[n].calls[id].check.Answered?
    requires writer in run[c].calls && run[c].calls[writer].Lift? && run[c].calls[writer].write.Returned?
    requires c <= run[n].calls[id].born
    requires forall k | run[c].calls[writer].write.bumpedAt < k <= n ::
               !Banned(run[k].rows, Covering(run[n].calls[id].ip), run[run[c].calls[writer].write.bumpedAt].now)
    ensures run[n].calls[id].check.byNetworks ==> !run[n].calls[id].check.banned
  {
    RunIsFresh(run, ttls, events, c);
    assert CallFresh(run, c, run[c].calls[writer]);
    CheckIsFresh(run, ttls, events, n, id);
    var b := run[c].calls[writer].write.bumpedAt;
    var Check(ip, born, Answered(banned, byNetworks, _)) := run[n].calls[id];
    if byNetworks {
      var j: nat, k: nat, t :| ReadAt(run, n, ip, run[born].version, banned, j, k, t);
      FreshReadFollowsBump(run, ttls, events, n, b, born, j);
      Forward(run, ttls, events, b, j);
      assert !Banned(run[k].rows, Covering(ip), run[b].now);
    }
  }
}
