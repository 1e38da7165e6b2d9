/**
 * Where the theorems about ip bans end: runs from an empty Redis in which a lost version
 * key, or an open row of the ip itself, lets a check contradict a write that had returned, and
 * the exact conditions under which no run does.
 */
module IpBanFailures {
  import opened Common
  import opened BanRecords
  import opened IpBanProtocol
  import IpBanWrites

  // ---------------------------------------------------------------- building runs

  /** Some run ends in `w`. */
  ghost predicate Reachable(ttls: Ttls, keeps: bool, w: World) {
    exists run, events :: AnyRun(run, ttls, events, keeps) && run[|run| - 1] == w
  }

  ghost predicate RowsSince(run: seq<World>, b: nat, rows: seq<Ban>) {
    forall k | b < k < |run| :: run[k].rows == rows
  }

  /** The run ends in `w`; in the state after the bump `b`, `writer` had returned, and the
      rows have been `rows` ever since. */
  ghost predicate Tells(run: seq<World>, ttls: Ttls, events: seq<Event>, keeps: bool, b: nat, rows: seq<Ban>,
          writer: nat, call: Call, w: World)
  {
    && AnyRun(run, ttls, events, keeps)
    && b + 1 < |run| == w.steps + 1
    && run[|run| - 1] == w
    && writer in run[b + 1].calls && run[b + 1].calls[writer] == call
    && RowsSince(run, b, rows)
  }

  ghost predicate Story(ttls: Ttls, keeps: bool, b: nat, rows: seq<Ban>, writer: nat, call: Call, w: World) {
    exists run, events :: Tells(run, ttls, events, keeps, b, rows, writer, call, w)
  }

  lemma {:induction false} StepsCount(run: seq<World>, ttls: Ttls, events: seq<Event>, keeps: bool, n: nat)
    requires AnyRun(run, ttls, events, keeps) && n < |run|
    ensures run[n].steps == n
  {
    if n > 0 {
      StepsCount(run, ttls, events, keeps, n - 1);
      assert StepAt(run, ttls, events, keeps, n - 1);
    }
  }

  lemma OneMore(run: seq<World>, ttls: Ttls, events: seq<Event>, keeps: bool, ev: Event)
    requires AnyRun(run, ttls, events, keeps) && Enabled(run[|run| - 1], keeps, ev)
    ensures AnyRun(run + [Step(run[|run| - 1], ttls, ev)], ttls, events + [ev], keeps)
  {
    var run', events' := run + [Step(run[|run| - 1], ttls, ev)], events + [ev];
    forall i | 0 <= i < |events'| ensures StepsTo(run'[i], ttls, keeps, events'[i], run'[i + 1]) {
      if i < |events| {
        assert StepAt(run, ttls, events, keeps, i);
      }
    }
  }

  lemma Extend(ttls: Ttls, keeps: bool, w: World, ev: Event) returns (w': World)
    requires Reachable(ttls, keeps, w) && Enabled(w, keeps, ev)
    ensures w' == Step(w, ttls, ev) && Reachable(ttls, keeps, w')
  {
    var run, events :| AnyRun(run, ttls, events, keeps) && run[|run| - 1] == w;
    w' := Step(w, ttls, ev);
    OneMore(run, ttls, events, keeps, ev);
    assert (run + [w'])[|run + [w']| - 1] == w';
  }

  /** A write that is about to bump the version returns. */
  lemma Returns(ttls: Ttls, keeps: bool, w: World, writer: nat) returns (w': World)
    requires Reachable(ttls, keeps, w) && Enabled(w, keeps, Advance(writer))
    requires !w.calls[writer].Check? && w.calls[writer].write == Bump
    ensures w' == Step(w, ttls, Advance(writer))
    ensures writer in w'.calls && Story(ttls, keeps, w.steps, w.rows, writer, w'.calls[writer], w')
  {
    var run, events :| AnyRun(run, ttls, events, keeps) && run[|run| - 1] == w;
    w' := Step(w, ttls, Advance(writer));
    StepsCount(run, ttls, events, keeps, |run| - 1);
    OneMore(run, ttls, events, keeps, Advance(writer));
    assert Tells(run + [w'], ttls, events + [Advance(writer)], keeps, w.steps, w.rows, writer, w'.calls[writer], w');
  }

  lemma Continue(ttls: Ttls, keeps: bool, b: nat, rows: seq<Ban>, writer: nat, call: Call, w: World, ev: Event)
    returns (w': World)
    requires Story(ttls, keeps, b, rows, writer, call, w) && Enabled(w, keeps, ev) && Step(w, ttls, ev).rows == rows
    ensures w' == Step(w, ttls, ev) && Story(ttls, keeps, b, rows, writer, call, w')
  {
    var run, events :| Tells(run, ttls, events, keeps, b, rows, writer, call, w);
    w' := Step(w, ttls, ev);
    OneMore(run, ttls, events, keeps, ev);
    assert Tells(run + [w'], ttls, events + [ev], keeps, b, rows, writer, call, w');
  }

  // ---------------------------------------------------------------- stretches of a run

  ghost predicate Quiet(first: World, w: World, ttls: Ttls, keeps: bool, ev: Event, w': World) {
    Enabled(w, keeps, ev) && w' == Step(w, ttls, ev) && w'.rows == first.rows
  }

  /** The events `evs` lead along `path` and leave the rows alone. */
  ghost predicate Leads(path: seq<World>, ttls: Ttls, keeps: bool, evs: seq<Event>) {
    && |path| == |evs| + 1
    && (forall i {:trigger evs[i]} | 0 <= i < |evs| :: Quiet(path[0], path[i], ttls, keeps, evs[i], path[i + 1]))
  }

  ghost predicate Joins(path: seq<World>, ttls: Ttls, keeps: bool, evs: seq<Event>, w: World, w': World) {
    Leads(path, ttls, keeps, evs) && path[0] == w && path[|evs|] == w'
  }

  ghost predicate LeadsTo(w: World, ttls: Ttls, keeps: bool, w': World) {
    exists path, evs :: Joins(path, ttls, keeps, evs, w, w')
  }

  lemma Stay(w: World, ttls: Ttls, keeps: bool)
    ensures LeadsTo(w, ttls, keeps, w)
  {
    assert Joins([w], ttls, keeps, [], w, w);
  }

  lemma Then(w: World, ttls: Ttls, keeps: bool, v: World, ev: Event) returns (w': World)
    requires LeadsTo(w, ttls, keeps, v) && Enabled(v, keeps, ev) && Step(v, ttls, ev).rows == w.rows
    ensures w' == Step(v, ttls, ev) && LeadsTo(w, ttls, keeps, w')
  {
    var path, evs :| Joins(path, ttls, keeps, evs, w, v);
    w' := Step(v, ttls, ev);
    assert forall i | 0 <= i < |evs| :: (evs + [ev])[i] == evs[i];
    assert Joins(path + [w'], ttls, keeps, evs + [ev], w, w');
  }

  lemma ButLast(path: seq<World>, ttls: Ttls, keeps: bool, evs: seq<Event>)
    requires Leads(path, ttls, keeps, evs) && evs != []
    ensures Leads(path[..|evs|], ttls, keeps, evs[..|evs| - 1])
    ensures Enabled(path[|evs| - 1], keeps, evs[|evs| - 1])
          && path[|evs|] == Step(path[|evs| - 1], ttls, evs[|evs| - 1])
    ensures path[|evs|].rows == path[0].rows
  {
    var n := |evs| - 1;
    assert Quiet(path[0], path[n], ttls, keeps, evs[n], path[n + 1]);
    var init := evs[..n];
    forall i | 0 <= i < n ensures Quiet(path[0], path[i], ttls, keeps, init[i], path[i + 1]) {
      assert init[i] == evs[i];
    }
  }

  lemma {:induction false} ReachAlong(path: seq<World>, ttls: Ttls, keeps: bool, evs: seq<Event>)
    requires Leads(path, ttls, keeps, evs) && Reachable(ttls, keeps, path[0])
    ensures Reachable(ttls, keeps, path[|evs|])
    decreases |evs|
  {
    if evs != [] {
      var n := |evs| - 1;
      ButLast(path, ttls, keeps, evs);
      ReachAlong(path[..n + 1], ttls, keeps, evs[..n]);
      var _ := Extend(ttls, keeps, path[n], evs[n]);
    }
  }

  lemma Reach(w: World, ttls: Ttls, keeps: bool, w': World)
    requires Reachable(ttls, keeps, w) && LeadsTo(w, ttls, keeps, w')
    ensures Reachable(ttls, keeps, w')
  {
    var path, evs :| Joins(path, ttls, keeps, evs, w, w');
    ReachAlong(path, ttls, keeps, evs);
  }

  lemma {:induction false} ContinueAlong(path: seq<World>, ttls: Ttls, keeps: bool, evs: seq<Event>, b: nat,
          writer: nat, call: Call)
    requires Leads(path, ttls, keeps, evs) && Story(ttls, keeps, b, path[0].rows, writer, call, path[0])
    ensures Story(ttls, keeps, b, path[0].rows, writer, call, path[|evs|])
    decreases |evs|
  {
    if evs != [] {
      var n := |evs| - 1;
      ButLast(path, ttls, keeps, evs);
      ContinueAlong(path[..n + 1], ttls, keeps, evs[..n], b, writer, call);
      var _ := Continue(ttls, keeps, b, path[0].rows, writer, call, path[n], evs[n]);
    }
  }

  lemma Resume(w: World, ttls: Ttls, keeps: bool, w': World, b: nat, writer: nat, call: Call)
    requires Story(ttls, keeps, b, w.rows, writer, call, w) && LeadsTo(w, ttls, keeps, w')
    ensures Story(ttls, keeps, b, w.rows, writer, call, w')
  {
    var path, evs :| Joins(path, ttls, keeps, evs, w, w');
    ContinueAlong(path, ttls, keeps, evs, b, writer, call);
  }

  /** The world `w`, `n` steps later, with the check `id` at `point`. */
  function At(w: World, id: nat, ip: Ip, point: CheckPoint, n: nat): World {
    w.(calls := w.calls[id := Check(ip, w.steps, point)], steps := w.steps + n)
  }

  lemma Starts(w: World, ttls: Ttls, keeps: bool, id: nat, ip: Ip)
    requires id !in w.calls
    ensures LeadsTo(w, ttls, keeps, At(w, id, ip, AskExact, 1))
  {
    Stay(w, ttls, keeps);
    var _ := Then(w, ttls, keeps, w, Start(id, Check(ip, w.steps, AskExact)));
  }

  lemma StepIs(ttls: Ttls, before: World, id: nat, ip: Ip, point: CheckPoint, n: nat, after: World, next: CheckPoint)
    requires !point.Answered?
    requires AdvanceCheck(At(before, id, ip, point, n), ttls, ip, point) == (At(after, id, ip, point, n), next)
    requires before.calls == after.calls && before.steps == after.steps
    ensures Enabled(At(before, id, ip, point, n), true, Advance(id))
    ensures Step(At(before, id, ip, point, n), ttls, Advance(id)) == At(after, id, ip, next, n + 1)
  {
    var v, call := At(before, id, ip, point, n), Check(ip, before.steps, next);
    assert AdvanceCall(v, ttls, v.calls[id]) == (At(after, id, ip, point, n), call);
    assert v.calls[id := call] == before.calls[id := call];
  }

  /** The check takes a step from the stores of `before` to those of `after`. */
  lemma Moves(w: World, ttls: Ttls, keeps: bool, before: World, id: nat, ip: Ip, point: CheckPoint, n: nat,
          after: World, next: CheckPoint)
    requires LeadsTo(w, ttls, keeps, At(before, id, ip, point, n)) && !point.Answered?
    requires AdvanceCheck(At(before, id, ip, point, n), ttls, ip, point) == (At(after, id, ip, point, n), next)
    requires before.calls == after.calls && before.steps == after.steps && before.rows == after.rows == w.rows
    ensures LeadsTo(w, ttls, keeps, At(after, id, ip, next, n + 1))
  {
    StepIs(ttls, before, id, ip, point, n, after, next);
    var _ := Then(w, ttls, keeps, At(before, id, ip, point, n), Advance(id));
  }

  predicate NothingServed(w: World, ip: Ip) {
    var found := Get(w.exact, ip, w.now);
    found.Some? ==> !found.value.banned
  }

  /** A check of an ip without a positive exact entry queries the rows for the ip itself. */
  lemma QueriesExact(w: World, ttls: Ttls, keeps: bool, id: nat, ip: Ip)
    requires id !in w.calls && NothingServed(w, ip)
    ensures var entry := QueryEntry(w.rows, Exactly(Addr(ip)), w.now, w.now, ttls.permanent, ttls.negative);
            LeadsTo(w, ttls, keeps, At(w, id, ip, PutExact(entry, w.now), 5))
  {
    var found := Get(w.exact, ip, w.now);
    var entry := QueryEntry(w.rows, Exactly(Addr(ip)), w.now, w.now, ttls.permanent, ttls.negative);
    Starts(w, ttls, keeps, id, ip);
    Moves(w, ttls, keeps, w, id, ip, AskExact, 1, w, JudgeExact(found));
    Moves(w, ttls, keeps, w, id, ip, JudgeExact(found), 2, w, StampExact);
    Moves(w, ttls, keeps, w, id, ip, StampExact, 3, w, IpBanProtocol.QueryExact(w.now));
    Moves(w, ttls, keeps, w, id, ip, IpBanProtocol.QueryExact(w.now), 4, w, PutExact(entry, w.now));
  }

  /** A check that finds a positive exact entry answers banned. */
  lemma ServesExact(w: World, ttls: Ttls, keeps: bool, id: nat, ip: Ip)
    requires id !in w.calls && ip in w.exact && w.exact[ip].banned
    requires w.now < w.exact[ip].dies && !EntryExpired(w.exact[ip], w.now)
    ensures LeadsTo(w, ttls, keeps, At(w, id, ip, Answered(true, false, w.steps + 2), 3))
  {
    Starts(w, ttls, keeps, id, ip);
    Moves(w, ttls, keeps, w, id, ip, AskExact, 1, w, JudgeExact(Some(w.exact[ip])));
    Moves(w, ttls, keeps, w, id, ip, JudgeExact(Some(w.exact[ip])), 2, w, Answered(true, false, w.steps + 2));
  }

  /** What a check stores for an ip without an active row of its own. */
  function Missed(w: World, ttls: Ttls, ip: Ip): World {
    w.(exact := w.exact[ip := Stored(NegativeEntry(w.now, ttls.negative), w.now, w.now)])
  }

  /** A check of an ip without an open row of its own goes on to the networks. */
  lemma AsksVersion(w: World, ttls: Ttls, keeps: bool, id: nat, ip: Ip)
    requires id !in w.calls && NothingServed(w, ip) && NoOpenRow(w.rows, Addr(ip))
    ensures LeadsTo(w, ttls, keeps, At(Missed(w, ttls, ip), id, ip, AskVerdict(w.version), 7))
  {
    var entry := QueryEntry(w.rows, Exactly(Addr(ip)), w.now, w.now, ttls.permanent, ttls.negative);
    assert entry == NegativeEntry(w.now, ttls.negative);
    var stored := Missed(w, ttls, ip);
    QueriesExact(w, ttls, keeps, id, ip);
    Moves(w, ttls, keeps, w, id, ip, PutExact(entry, w.now), 5, stored, AskVersion);
    Moves(w, ttls, keeps, stored, id, ip, AskVersion, 6, stored, AskVerdict(w.version));
  }

  /** A check without a verdict to serve turns to the rows. */
  lemma TurnsToNetworks(w: World, ttls: Ttls, keeps: bool, id: nat, ip: Ip)
    requires id !in w.calls && NothingServed(w, ip) && NoOpenRow(w.rows, Addr(ip)) && (w.version, ip) !in w.verdicts
    ensures LeadsTo(w, ttls, keeps, At(Missed(w, ttls, ip), id, ip, StampNetworks(w.version), 9))
  {
    var stored, v := Missed(w, ttls, ip), w.version;
    AsksVersion(w, ttls, keeps, id, ip);
    Moves(w, ttls, keeps, stored, id, ip, AskVerdict(v), 7, stored, JudgeVerdict(v, None));
    Moves(w, ttls, keeps, stored, id, ip, JudgeVerdict(v, None), 8, stored, StampNetworks(v));
  }

  lemma QueriesNetworks(w: World, ttls: Ttls, keeps: bool, id: nat, ip: Ip)
    requires id !in w.calls && NothingServed(w, ip) && NoOpenRow(w.rows, Addr(ip)) && (w.version, ip) !in w.verdicts
    ensures LeadsTo(w, ttls, keeps, At(Missed(w, ttls, ip), id, ip, IpBanProtocol.QueryNetworks(w.version, w.now), 10))
  {
    var stored, v := Missed(w, ttls, ip), w.version;
    TurnsToNetworks(w, ttls, keeps, id, ip);
    Moves(w, ttls, keeps, stored, id, ip, StampNetworks(v), 9, stored, IpBanProtocol.QueryNetworks(v, w.now));
  }

  lemma FindsNoNetwork(w: World, ttls: Ttls, keeps: bool, id: nat, ip: Ip)
    requires id !in w.calls && w.rows == [] && NothingServed(w, ip) && (w.version, ip) !in w.verdicts
    ensures LeadsTo(w, ttls, keeps,
                    At(Missed(w, ttls, ip), id, ip,
                       PutVerdict(w.version, NegativeEntry(w.now, ttls.verdict), w.now), 11))
  {
    var stored, v := Missed(w, ttls, ip), w.version;
    var entry := NetworkEntry(w.rows, ip, w.now, w.now, ttls.permanent, ttls.verdict);
    assert entry == NegativeEntry(w.now, ttls.verdict);
    QueriesNetworks(w, ttls, keeps, id, ip);
    Moves(w, ttls, keeps, stored, id, ip, IpBanProtocol.QueryNetworks(v, w.now), 10, stored,
          PutVerdict(v, entry, w.now));
  }

  /** A check of an ip that nothing bans leaves a clearance under the current version. */
  lemma StoresClearance(w: World, ttls: Ttls, keeps: bool, id: nat, ip: Ip)
    requires id !in w.calls && w.rows == [] && NothingServed(w, ip) && (w.version, ip) !in w.verdicts
    ensures var stored := Missed(w, ttls, ip);
            var clearance := Stored(NegativeEntry(w.now, ttls.verdict), w.now, w.now);
            LeadsTo(w, ttls, keeps,
                    At(stored.(verdicts := w.verdicts[(w.version, ip) := clearance]), id, ip,
                          Answered(false, true, w.steps + 11), 12))
  {
    var stored, entry := Missed(w, ttls, ip), NegativeEntry(w.now, ttls.verdict);
    FindsNoNetwork(w, ttls, keeps, id, ip);
    Moves(w, ttls, keeps, stored, id, ip, PutVerdict(w.version, entry, w.now), 11,
          stored.(verdicts := w.verdicts[(w.version, ip) := Stored(entry, w.now, w.now)]),
                Answered(false, true, w.steps + 11));
  }

  /** A check that finds a clearance under the version it reads answers with it. */
  lemma ServesClearance(w: World, ttls: Ttls, keeps: bool, id: nat, ip: Ip)
    requires id !in w.calls && NothingServed(w, ip) && NoOpenRow(w.rows, Addr(ip))
    requires (w.version, ip) in w.verdicts && !w.verdicts[(w.version, ip)].banned
          && w.now < w.verdicts[(w.version, ip)].dies
    ensures LeadsTo(w, ttls, keeps, At(Missed(w, ttls, ip), id, ip, Answered(false, true, w.steps + 8), 9))
  {
    var stored, v := Missed(w, ttls, ip), w.version;
    var found := Some(w.verdicts[(v, ip)]);
    AsksVersion(w, ttls, keeps, id, ip);
    Moves(w, ttls, keeps, stored, id, ip, AskVerdict(v), 7, stored, JudgeVerdict(v, found));
    Moves(w, ttls, keeps, stored, id, ip, JudgeVerdict(v, found), 8, stored, Answered(false, true, w.steps + 8));
  }

  // ---------------------------------------------------------------- the version key

  /** A check that started after the upsert of a network had returned clears an ip of that
      network although the ban has not expired and no call wrote the network's rows since
      step `k`, in which the upsert wrote its own. */
  ghost predicate MissesNetworkBan(run: seq<World>, events: seq<Event>, n: nat, id: nat, c: nat, writer: nat, k: nat) {
    && c <= n < |run|
    && id in run[n].calls && run[n].calls[id].Check? && run[n].calls[id].check.Answered?
    && writer in run[c].calls && run[c].calls[writer].Upsert? && run[c].calls[writer].write.Returned?
    && c <= run[n].calls[id].born
    && Hits(Covering(run[n].calls[id].ip), run[c].calls[writer].target)
    && IpBanWrites.WritesIn(run, events, writer, k, run[c].calls[writer].target)
    && IpBanWrites.Quiet(run, events, run[c].calls[writer].target, k + 1, n)
    && (run[c].calls[writer].until.Some? ==> run[n].now < run[c].calls[writer].until.value)
    && !run[n].calls[id].check.banned
  }

  const EVERY_IPV4 := Net(false, 0, 0)
  const ONE_IPV4 := Ip(false, 0)

  function Empty(rows: seq<Ban>): World {
    World(0, rows, map[], map[], 0, map[], 0)
  }

  lemma EmptyIsReachable(ttls: Ttls, keeps: bool, rows: seq<Ban>)
    ensures Reachable(ttls, keeps, Empty(rows))
  {
    assert AnyRun([Empty(rows)], ttls, [], keeps);
    assert [Empty(rows)][|[Empty(rows)]| - 1] == Empty(rows);
  }

  const OPEN_NETWORK := Ban(Cidr(EVERY_IPV4), None, 0, None)

  /** A check leaves a clearance under version zero, and then an upsert bans the network. */
  lemma NetworkIsBanned(ttls: Ttls) returns (w: World)
    ensures 2 in w.calls && w.calls[2] == Upsert(Cidr(EVERY_IPV4), None, 12, Returned(15))
    ensures Story(ttls, false, 15, [OPEN_NETWORK], 2, w.calls[2], w)
    ensures forall id | id in w.calls && id != 2 :: w.calls[id].Check?
    ensures 3 !in w.calls && w.rows == [OPEN_NETWORK] && w.steps == 16 && w.now == 0 && NothingServed(w, ONE_IPV4)
    ensures (0, ONE_IPV4) in w.verdicts && w.verdicts[(0, ONE_IPV4)] == Stored(NegativeEntry(0, ttls.verdict), 0, 0)
  {
    EmptyIsReachable(ttls, false, []);
    StoresClearance(Empty([]), ttls, false, 1, ONE_IPV4);
    var clearance := Stored(NegativeEntry(0, ttls.verdict), 0, 0);
    w := At(Missed(Empty([]), ttls, ONE_IPV4).(verdicts := map[(0, ONE_IPV4) := clearance]),
            1, ONE_IPV4, Answered(false, true, 11), 12);
    assert map[][(0, ONE_IPV4) := Stored(NegativeEntry(0, ttls.verdict), 0, 0)] == w.verdicts;
    Reach(Empty([]), ttls, false, w);
    w := UpsertsNetwork(ttls, w);
  }

  lemma UpsertsNetwork(ttls: Ttls, w: World) returns (w': World)
    requires Reachable(ttls, false, w) && 2 !in w.calls && w.rows == [] && w.now == 0
    ensures 2 in w'.calls && w'.calls[2] == Upsert(Cidr(EVERY_IPV4), None, w.steps, Returned(w.steps + 3))
    ensures Story(ttls, false, w.steps + 3, [OPEN_NETWORK], 2, w'.calls[2], w')
    ensures w' == w.(rows := [OPEN_NETWORK], version := w.version + 1, calls := w.calls[2 := w'.calls[2]],
          steps := w.steps + 4)
  {
    var target := Cidr(EVERY_IPV4);
    var written := WritesNetwork(ttls, w);
    w' := Returns(ttls, false, written, 2);
    assert w'.calls == w.calls[2 := w'.calls[2]];
  }

  lemma WritesNetwork(ttls: Ttls, w: World) returns (w': World)
    requires Reachable(ttls, false, w) && 2 !in w.calls && w.rows == [] && w.now == 0
    ensures Reachable(ttls, false, w')
    ensures w' == w.(rows := [OPEN_NETWORK], calls := w.calls[2 := Upsert(Cidr(EVERY_IPV4), None, w.steps, Bump)],
          steps := w.steps + 3)
  {
    var target := Cidr(EVERY_IPV4);
    var started := Extend(ttls, false, w, Start(2, Upsert(target, None, w.steps, Find)));
    var found := Extend(ttls, false, started, Advance(2));
    assert found == w.(calls := w.calls[2 := Upsert(target, None, w.steps, Write(None))], steps := w.steps + 2);
    w' := Extend(ttls, false, found, Advance(2));
    assert w'.rows == [OPEN_NETWORK];
  }

  /** If the version key is lost, versions restart at zero, and the old clearance is served
      although the ban has returned and is active. */
  lemma LostVersionServesOldVerdict(ttls: Ttls) returns (run: seq<World>, events: seq<Event>, rows: seq<Ban>)
    ensures AnyRun(run, ttls, events, false)
    ensures exists n, id, c, writer, k :: MissesNetworkBan(run, events, n, id, c, writer, k)
    ensures run != [] && run[|run| - 1].rows == rows && forall t :: IpBanned(rows, ONE_IPV4, t)
  {
    var w := NetworkIsBanned(ttls);
    var writer := w.calls[2];
    var lost := Continue(ttls, false, 15, [OPEN_NETWORK], 2, writer, w, LoseVersion);
    ServesClearance(lost, ttls, false, 3, ONE_IPV4);
    var last := At(Missed(lost, ttls, ONE_IPV4), 3, ONE_IPV4, Answered(false, true, lost.steps + 8), 9);
    Resume(lost, ttls, false, last, 15, 2, writer);
    run, events :| Tells(run, ttls, events, false, 15, [OPEN_NETWORK], 2, writer, last);
    NetworkBanIsMissed(run, ttls, events, last);
    forall t ensures Banned([OPEN_NETWORK], Exactly(Cidr(EVERY_IPV4)), t)
          && Banned([OPEN_NETWORK], Covering(ONE_IPV4), t) {
      assert [OPEN_NETWORK][0].ActiveAt(t) && Hits(Covering(ONE_IPV4), [OPEN_NETWORK][0].target);
    }
    rows := [OPEN_NETWORK];
  }

  lemma NetworkBanIsMissed(run: seq<World>, ttls: Ttls, events: seq<Event>, last: World)
    requires 3 in last.calls && last.calls[3].Check? && last.calls[3].ip == ONE_IPV4 && last.calls[3].born >= 16
    requires last.calls[3].check.Answered? && !last.calls[3].check.banned
    requires forall id | id in last.calls && id != 2 :: last.calls[id].Check?
    requires Tells(run, ttls, events, false, 15, [OPEN_NETWORK], 2, Upsert(Cidr(EVERY_IPV4), None, 12, Returned(15)),
                   last)
    ensures exists n, id, c, writer, k :: MissesNetworkBan(run, events, n, id, c, writer, k)
  {
    var k, _ := IpBanWrites.UpsertStoresItsRow(run, ttls, events, false, 16, 2);
    IpBanWrites.LoneWriteIsQuiet(run, ttls, events, false, |run| - 1, 2, k, Cidr(EVERY_IPV4));
    assert MissesNetworkBan(run, events, |run| - 1, 3, 16, 2, k);
  }

  /** Every returned network ban is seen by every later check, in every run, exactly when
      the version key is never lost. */
  lemma NetworkBansNeedTheVersion(ttls: Ttls, keeps: bool)
    ensures (forall run, events, n, id, c, writer, k | AnyRun(run, ttls, events, keeps) ::
          !MissesNetworkBan(run, events, n, id, c, writer, k))
            <==> keeps
  {
    if keeps {
      forall run, events, n: nat, id: nat, c: nat, writer: nat, k: nat | AnyRun(run, ttls, events, keeps)
        ensures !MissesNetworkBan(run, events, n, id, c, writer, k)
      {
        if MissesNetworkBan(run, events, n, id, c, writer, k) {
          IpBanWrites.UpsertedNetworkIsSeen(run, ttls, events, n, id, c, writer, k);
        }
      }
    } else {
      var run, events, _ := LostVersionServesOldVerdict(ttls);
    }
  }

  // ---------------------------------------------------------------- open rows of the ip itself

  /** A check of `ip` that started after a lift had returned refuses although nothing bans
      the ip since the lift. */
  ghost predicate MissesLift(run: seq<World>, ip: Ip, n: nat, id: nat, c: nat, writer: nat) {
    && c <= n < |run|
    && id in run[n].calls && run[n].calls[id].Check? && run[n].calls[id].ip == ip && run[n].calls[id].check.Answered?
    && writer in run[c].calls && run[c].calls[writer].Lift? && run[c].calls[writer].write.Returned?
    && c <= run[n].calls[id].born
    && (forall k | run[c].calls[writer].write.bumpedAt < k <= n ::
          !IpBanned(run[k].rows, ip, run[run[c].calls[writer].write.bumpedAt].now))
    && run[n].calls[id].check.banned
  }

  ghost predicate NeverOpen(run: seq<World>, ip: Ip) {
    forall k | 0 <= k < |run| :: NoOpenRow(run[k].rows, Addr(ip))
  }

  function OpenRow(ip: Ip): Ban {
    Ban(Addr(ip), None, 0, None)
  }

  function LiftedRow(ip: Ip): Ban {
    Ban(Addr(ip), None, 0, Some(0))
  }

  /** A check has read the open row and not stored it yet when a lift comes and returns. */
  lemma LiftOvertakesCheck(ttls: Ttls, ip: Ip) returns (w: World)
    ensures 1 in w.calls && w.calls[1] == Check(ip, 0, PutExact(EntryFor(OpenRow(ip), 0, ttls.permanent), 0))
    ensures 2 in w.calls && w.calls[2] == Lift(Addr(ip), 5, Returned(9)) && 3 !in w.calls
    ensures w.rows == [LiftedRow(ip)] && w.now == 0
    ensures Story(ttls, true, 9, [LiftedRow(ip)], 2, w.calls[2], w)
  {
    var first := Empty([OpenRow(ip)]);
    EmptyIsReachable(ttls, true, [OpenRow(ip)]);
    QueriesExact(first, ttls, true, 1, ip);
    var entry := QueryEntry(first.rows, Exactly(Addr(ip)), 0, 0, ttls.permanent, ttls.negative);
    assert entry == EntryFor(OpenRow(ip), 0, ttls.permanent) by {
      assert Keeps(Exactly(Addr(ip)), Some(0), first.rows[0]);
    }
    var reading := At(first, 1, ip, PutExact(entry, 0), 5);
    Reach(first, ttls, true, reading);
    w := LiftsIt(ttls, ip, reading);
  }

  lemma LiftsIt(ttls: Ttls, ip: Ip, w: World) returns (w': World)
    requires Reachable(ttls, true, w) && 2 !in w.calls && w.rows == [OpenRow(ip)] && w.now == 0
    ensures 2 in w'.calls && w'.calls[2] == Lift(Addr(ip), w.steps, Returned(w.steps + 4))
    ensures w'.calls == w.calls[2 := w'.calls[2]] && w'.rows == [LiftedRow(ip)] && w'.now == 0
    ensures Story(ttls, true, w.steps + 4, [LiftedRow(ip)], 2, w'.calls[2], w')
  {
    var written := WritesLift(ttls, ip, w);
    var deleted := Extend(ttls, true, written, Advance(2));
    assert deleted.calls == w.calls[2 := Lift(Addr(ip), w.steps, Bump)];
    w' := Returns(ttls, true, deleted, 2);
    assert w'.calls == w.calls[2 := w'.calls[2]];
  }

  lemma WritesLift(ttls: Ttls, ip: Ip, w: World) returns (w': World)
    requires Reachable(ttls, true, w) && 2 !in w.calls && w.rows == [OpenRow(ip)] && w.now == 0
    ensures Reachable(ttls, true, w')
    ensures w' == w.(rows := [LiftedRow(ip)], calls := w.calls[2 := Lift(Addr(ip), w.steps, Cache)],
          steps := w.steps + 3)
  {
    var found := FindsOpenRow(ttls, ip, w);
    w' := Extend(ttls, true, found, Advance(2));
    assert w'.rows == [LiftedRow(ip)];
  }

  lemma FindsOpenRow(ttls: Ttls, ip: Ip, w: World) returns (w': World)
    requires Reachable(ttls, true, w) && 2 !in w.calls && w.rows == [OpenRow(ip)] && w.now == 0
    ensures Reachable(ttls, true, w')
    ensures w' == w.(calls := w.calls[2 := Lift(Addr(ip), w.steps, Write(Some(0)))], steps := w.steps + 2)
  {
    var started := Extend(ttls, true, w, Start(2, Lift(Addr(ip), w.steps, Find)));
    assert started == w.(calls := w.calls[2 := Lift(Addr(ip), w.steps, Find)], steps := w.steps + 1);
    assert Keeps(Exactly(Addr(ip)), None, [OpenRow(ip)][0]);
    w' := Extend(ttls, true, started, Advance(2));
  }

  /** The slow check stores the row it read before the lift, and a check started after the
      lift had returned serves it although nothing bans the ip any more. */
  lemma LateExactWriteOutlivesLift(ttls: Ttls, ip: Ip) returns (run: seq<World>, events: seq<Event>, rows: seq<Ban>)
    ensures Run(run, ttls, events)
    ensures exists n, id, c, writer :: MissesLift(run, ip, n, id, c, writer)
    ensures run != [] && run[|run| - 1].rows == rows && forall t :: !IpBanned(rows, ip, t)
  {
    var w := LiftOvertakesCheck(ttls, ip);
    var writer := w.calls[2];
    var late := Continue(ttls, true, 9, [LiftedRow(ip)], 2, writer, w, Advance(1));
    var entry := EntryFor(OpenRow(ip), 0, ttls.permanent);
    assert late.exact[ip] == Stored(entry, 0, 0);
    ServesExact(late, ttls, true, 3, ip);
    var last := At(late, 3, ip, Answered(true, false, late.steps + 2), 3);
    Resume(late, ttls, true, last, 9, 2, writer);
    run, events :| Tells(run, ttls, events, true, 9, [LiftedRow(ip)], 2, writer, last);
    rows := [LiftedRow(ip)];
    assert MissesLift(run, ip, |run| - 1, 3, 10, 2);
  }

  /** Every returned lift is seen by every later check of an ip, in every run, exactly when
      no row of the ip itself is open in the run. `own` says whether one may be. */
  lemma LiftsNeedNoOpenRow(ttls: Ttls, ip: Ip, own: bool)
    ensures (forall run, events, n, id, c, writer | Run(run, ttls, events) && (own || NeverOpen(run, ip)) ::
               !MissesLift(run, ip, n, id, c, writer))
            <==> !own
  {
    if own {
      var run, events, _ := LateExactWriteOutlivesLift(ttls, ip);
    } else {
      forall run, events, n: nat, id: nat, c: nat, writer: nat | Run(run, ttls, events) && NeverOpen(run, ip)
        ensures !MissesLift(run, ip, n, id, c, writer)
      {
        if MissesLift(run, ip, n, id, c, writer) {
          LiftIsSeen(run, ttls, events, n, id, c, writer);
        }
      }
    }
  }
}
