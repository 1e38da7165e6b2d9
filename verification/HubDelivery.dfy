/**
 * Delivery over every interleaving of registrations, snapshots, fan-out phases,
 * receives and departures, with the single subscriber running one fan-out at a time
 * (src/api/src/realtime/subscriber.rs) and one consumer per connection
 * (handle_ws_connection in src/api/src/users/handlers.rs).
 */
module HubDelivery {
  import opened HubState

  /** A consumer sends its snapshot, then what was buffered meanwhile, then what its
      channel yields, until it stops. */
  datatype Phase = Loading | Flushing(rest: seq<Message>) | Streaming | Stopped

  datatype Consumer = Consumer(user: UserId, phase: Phase, emitted: seq<Message>)

  /** The subscriber, idle or between the phases of a fan-out. */
  datatype Fan = Idle | Sending(user: UserId, payload: Message, todo: set<ConnId>, failed: set<ConnId>)

  /** `history` is everything fanned out to a connection's user since it registered;
      `gauge` is the metric of active connections. */
  datatype World = World(
    users: Users,
    channels: Channels,
    consumers: map<ConnId, Consumer>,
    history: map<ConnId, seq<Message>>,
    fan: Fan,
    gauge: nat)

  datatype Event =
    | Register(user: UserId, c: ConnId)
    | Refuse(user: UserId)
    | Bootstrap(c: ConnId)
    | Flush(c: ConnId)
    | Receive(c: ConnId)
    | EndOfStream(c: ConnId)
    | Stop(c: ConnId)
    | Unregister(c: ConnId)
    | CloseReceiver(c: ConnId)
    | Collect(user: UserId, payload: Message)
    | TrySend(c: ConnId)
    | Reap

  predicate InHub(w: World, c: ConnId) {
    c in w.consumers && c in ConnsOf(w.users, w.consumers[c].user)
  }

  /** A registration is refused by the per-user limit only if the global one lets it pass;
      one that the global limit refuses does nothing. */
  ghost predicate Enabled(w: World, limits: Limits, ev: Event) {
    match ev
    case Register(user, c) =>
      && c !in w.consumers
      && TotalConnections(w.users) < limits.global && |ConnsOf(w.users, user)| < limits.perUser
    case Refuse(user) => TotalConnections(w.users) < limits.global && |ConnsOf(w.users, user)| >= limits.perUser
    case Bootstrap(c) => c in w.consumers && w.consumers[c].phase == Loading
    case Flush(c) => c in w.consumers && w.consumers[c].phase.Flushing?
    case Receive(c) => c in w.consumers && w.consumers[c].phase == Streaming && c in w.channels && w.channels[c] != []
    case EndOfStream(c) =>
      // The channel is drained and no sender is left, neither in the hub nor in a fan-out.
      && c in w.consumers && w.consumers[c].phase == Streaming
      && (c in w.channels ==> w.channels[c] == [])
      && !InHub(w, c) && !(w.fan.Sending? && c in w.fan.todo)
    case Stop(c) => c in w.consumers
    case Unregister(c) => c in w.consumers && w.consumers[c].phase == Stopped
    case CloseReceiver(c) => c in w.consumers && w.consumers[c].phase == Stopped
    case Collect(user, payload) => w.fan == Idle
    case TrySend(c) => w.fan.Sending? && c in w.fan.todo
    case Reap => w.fan.Sending? && w.fan.todo == {}
  }

  function Emit(w: World, c: ConnId, m: Message, phase: Phase): World
    requires c in w.consumers
  {
    var s := w.consumers[c];
    w.(consumers := w.consumers[c := Consumer(s.user, phase, s.emitted + [m])])
  }

  function Enter(w: World, c: ConnId, phase: Phase): World
    requires c in w.consumers
  {
    w.(consumers := w.consumers[c := w.consumers[c].(phase := phase)])
  }

  /** The users after a locked section that ends by setting the gauge. */
  ghost function Counted(w: World, users: Users): World {
    w.(users := users, gauge := TotalConnections(users))
  }

  ghost function Step(w: World, limits: Limits, ev: Event): World
    requires Enabled(w, limits, ev)
  {
    match ev
    case Register(user, c) =>
      Counted(w, Registered(w.users, user, c)).(channels := w.channels[c := []],
         consumers := w.consumers[c := Consumer(user, Loading, [])], history := w.history[c := []])
    case Refuse(user) => w.(users := w.users[user := ConnsOf(w.users, user)])
    case Bootstrap(c) =>
      var conns := ConnsOf(w.users, w.consumers[c].user);
      var pending := if c in conns then conns[c].pending else [];
      Enter(w, c, Flushing(pending)).(users := MarkedLive(w.users, w.consumers[c].user, c))
    case Flush(c) =>
      var rest := w.consumers[c].phase.rest;
      if rest == [] then Enter(w, c, Streaming) else Emit(w, c, rest[0], Flushing(rest[1..]))
    case Receive(c) =>
      Emit(w, c, w.channels[c][0], Streaming).(channels := w.channels[c := w.channels[c][1..]])
    case EndOfStream(c) => Enter(w, c, Stopped)
    case Stop(c) => Enter(w, c, Stopped)
    case Unregister(c) => Counted(w, Dropped(w.users, w.consumers[c].user, {c}))
    case CloseReceiver(c) => w.(channels := w.channels - {c})
    case Collect(user, payload) =>
      Counted(w, Collected(w.users, user, payload, limits.buffer)).(
         history := (map c | c in w.history ::
             if c in w.consumers && w.consumers[c].user == user then w.history[c] + [payload] else w.history[c]),
         fan := Sending(user, payload, LiveOf(ConnsOf(w.users, user)), {}))
    case TrySend(c) =>
      var fan := w.fan.(todo := w.fan.todo - {c});
      if Accepts(w.channels, c, limits.buffer)
      then w.(channels := w.channels[c := w.channels[c] + [w.fan.payload]], fan := fan)
      else w.(fan := fan.(failed := fan.failed + {c}))
    case Reap =>
      if w.fan.failed == {} then w.(fan := Idle)
      else Counted(w, Dropped(w.users, w.fan.user, w.fan.failed)).(fan := Idle)
  }

  ghost predicate StepsTo(w: World, limits: Limits, ev: Event, w': World) {
    Enabled(w, limits, ev) && w' == Step(w, limits, ev)
  }

  ghost predicate StepAt(run: seq<World>, limits: Limits, events: seq<Event>, i: nat)
    requires i < |events| && |run| == |events| + 1
  {
    StepsTo(run[i], limits, events[i], run[i + 1])
  }

  ghost predicate Run(run: seq<World>, limits: Limits, events: seq<Event>) {
    && |run| == |events| + 1
    && run[0] == World(map[], map[], map[], map[], Idle, 0)
    && forall i: nat {:trigger StepAt(run, limits, events, i)} | i < |events| :: StepAt(run, limits, events, i)
  }

  // ---------------------------------------------------------------- the invariant

  function Queue(w: World, c: ConnId): seq<Message> {
    if c in w.channels then w.channels[c] else []
  }

  /** Everything the consumer has sent or holds ready to send, in order. */
  function Flow(w: World, c: ConnId): seq<Message>
    requires c in w.consumers
  {
    var s := w.consumers[c];
    s.emitted + (if s.phase.Flushing? then s.phase.rest else []) + Queue(w, c)
  }

  predicate InFlight(w: World, c: ConnId) {
    w.fan.Sending? && c in w.fan.todo
  }

  predicate Failing(w: World, c: ConnId) {
    w.fan.Sending? && c in w.fan.failed
  }

  /** What is still on its way to a connection in the hub. */
  function Owed(w: World, c: ConnId): seq<Message>
    requires InHub(w, c)
  {
    w.users[w.consumers[c].user][c].pending + if InFlight(w, c) then [w.fan.payload] else []
  }

  ghost predicate ConnInv(w: World, c: ConnId)
    requires c in w.consumers
  {
    var s := w.consumers[c];
    && c in w.history
    && s.emitted <= w.history[c]
    && (InFlight(w, c) || Failing(w, c) ==> w.fan.user == s.user)
    && !(InFlight(w, c) && Failing(w, c))
    && (s.phase == Loading ==> s.emitted == [] && Queue(w, c) == [] && !InFlight(w, c) && !Failing(w, c))
    && (InHub(w, c) ==> HubInv(w, c))
    && (!InHub(w, c) && s.phase != Stopped ==> !InFlight(w, c) && Flow(w, c) <= w.history[c])
  }

  /** A connection in the hub is missing nothing, unless its channel just refused a
      payload, in which case the fan-out that saw the refusal is about to drop it. */
  ghost predicate HubInv(w: World, c: ConnId)
    requires InHub(w, c) && c in w.history
  {
    var s, conn := w.consumers[c], w.users[w.consumers[c].user][c];
    && (conn.bootstrapping ==> s.phase == Loading || s.phase == Stopped)
    && (conn.bootstrapping ==> !InFlight(w, c) && !Failing(w, c))
    && (s.phase == Loading ==> conn.bootstrapping)
    && (!conn.bootstrapping ==> conn.pending == [])
    && (s.phase != Stopped ==>
          if Failing(w, c) then Flow(w, c) <= w.history[c] else Flow(w, c) + Owed(w, c) == w.history[c])
  }

  ghost predicate OwnedBy(conns: Conns, consumers: map<ConnId, Consumer>, user: UserId) {
    forall c | c in conns :: c in consumers && consumers[c].user == user
  }

  /** The hub and the channels know only registered connections, under their own user. */
  ghost predicate Rooted(w: World) {
    && (forall u | u in w.users :: OwnedBy(w.users[u], w.consumers, u))
    && (forall c | c in w.channels :: c in w.consumers)
    && (forall c | InFlight(w, c) || Failing(w, c) :: c in w.consumers)
  }

  ghost predicate Inv(w: World) {
    Rooted(w) && forall c | c in w.consumers :: ConnInv(w, c)
  }

  /** Only a registration adds a connection to the hub. */
  lemma HubShrinks(w: World, limits: Limits, ev: Event, u: UserId)
    requires Enabled(w, limits, ev)
    ensures ConnsOf(Step(w, limits, ev).users, u).Keys <=
            ConnsOf(w.users, u).Keys + if ev.Register? && ev.user == u then {ev.c} else {}
  {
    match ev
    case Register(user, c) => RegisterAddsKey(w.users, user, c, u);
    case Refuse(user) => assert ConnsOf(w.users[user := ConnsOf(w.users, user)], u) == ConnsOf(w.users, u);
    case Bootstrap(c) => MarkKeepsKeys(w.users, w.consumers[c].user, c, u);
    case Unregister(c) => DropKeepsKeys(w.users, w.consumers[c].user, {c}, u);
    case Collect(user, payload) => CollectKeepsKeys(w.users, user, payload, limits.buffer, u);
    case Reap => DropKeepsKeys(w.users, w.fan.user, w.fan.failed, u);
    case _ => assert Step(w, limits, ev).users == w.users;
  }

  lemma OwnersStay(w: World, limits: Limits, ev: Event, u: UserId)
    requires Inv(w) && Enabled(w, limits, ev) && u in Step(w, limits, ev).users
    requires ev.Register? || ev.Refuse? || ev.Bootstrap? || ev.Unregister? || ev.Collect? || ev.Reap?
    ensures OwnedBy(Step(w, limits, ev).users[u], Step(w, limits, ev).consumers, u)
  {
    HubShrinks(w, limits, ev, u);
    assert u in w.users ==> OwnedBy(w.users[u], w.consumers, u);
    var w' := Step(w, limits, ev);
    forall c | c in w'.users[u] ensures c in w'.consumers && w'.consumers[c].user == u {
      assert c in ConnsOf(w'.users, u).Keys;
      if !(ev.Register? && ev.c == c) {
        assert c in ConnsOf(w.users, u).Keys;
      }
    }
  }

  lemma HubStepKeepsRooted(w: World, limits: Limits, ev: Event)
    requires Inv(w) && Enabled(w, limits, ev)
    requires ev.Register? || ev.Refuse? || ev.Bootstrap? || ev.Unregister? || ev.Collect? || ev.Reap?
    ensures Rooted(Step(w, limits, ev))
  {
    var w' := Step(w, limits, ev);
    forall u | u in w'.users ensures OwnedBy(w'.users[u], w'.consumers, u) {
      OwnersStay(w, limits, ev, u);
    }
    if ev.Collect? && ev.user in w.users {
      assert OwnedBy(w.users[ev.user], w.consumers, ev.user);
    }
    forall c | InFlight(w', c) || Failing(w', c) ensures c in w'.consumers {
      assert !ev.Collect? ==> InFlight(w, c) || Failing(w, c);
    }
  }

  lemma StepKeepsRooted(w: World, limits: Limits, ev: Event)
    requires Inv(w) && Enabled(w, limits, ev)
    ensures Rooted(Step(w, limits, ev))
  {
    if ev.Register? || ev.Refuse? || ev.Bootstrap? || ev.Unregister? || ev.Collect? || ev.Reap? {
      HubStepKeepsRooted(w, limits, ev);
    } else {
      var w' := Step(w, limits, ev);
      assert w'.users == w.users && w'.consumers.Keys == w.consumers.Keys;
      forall u | u in w.users ensures OwnedBy(w'.users[u], w'.consumers, u) {
        assert OwnedBy(w.users[u], w.consumers, u);
      }
    }
  }

  /** A step that touches neither a connection nor what is on its way to it. */
  lemma SameConn(w: World, w': World, c: ConnId)
    requires c in w.consumers && c in w'.consumers && ConnInv(w, c)
    requires w'.consumers[c] == w.consumers[c] && c in w'.history && w'.history[c] == w.history[c]
    requires (InHub(w', c) <==> InHub(w, c)) && Queue(w', c) == Queue(w, c)
    requires InHub(w, c) ==> w'.users[w.consumers[c].user][c] == w.users[w.consumers[c].user][c]
    requires InFlight(w', c) == InFlight(w, c) && Failing(w', c) == Failing(w, c)
    requires w'.fan.Sending? == w.fan.Sending?
    requires w.fan.Sending? ==> w'.fan.user == w.fan.user && w'.fan.payload == w.fan.payload
    ensures ConnInv(w', c)
  {
    assert Flow(w', c) == Flow(w, c);
    if InHub(w, c) {
      assert Owed(w', c) == Owed(w, c);
    }
  }

  /** Flushing moves a message from ready to sent. */
  lemma FlowIsKept(w: World, limits: Limits, c: ConnId)
    requires Enabled(w, limits, Flush(c))
    ensures Flow(Step(w, limits, Flush(c)), c) == Flow(w, c)
  {
    var s := w.consumers[c];
    if s.phase.rest != [] {
      assert s.emitted + [s.phase.rest[0]] + s.phase.rest[1..] == s.emitted + s.phase.rest;
    }
  }

  lemma FlushedConn(w: World, limits: Limits, c: ConnId)
    requires Enabled(w, limits, Flush(c)) && ConnInv(w, c)
    ensures ConnInv(Step(w, limits, Flush(c)), c)
  {
    var w' := Step(w, limits, Flush(c));
    FlowIsKept(w, limits, c);
    assert w'.consumers[c].emitted <= Flow(w', c);
    assert Flow(w', c) <= w.history[c] by {
      if InHub(w, c) && !Failing(w, c) {
        assert Flow(w, c) <= Flow(w, c) + Owed(w, c);
      }
    }
  }

  lemma SentToConn(w: World, limits: Limits, c: ConnId)
    requires Inv(w) && Enabled(w, limits, TrySend(c)) && c in w.consumers
    ensures ConnInv(Step(w, limits, TrySend(c)), c)
  {
    var w' := Step(w, limits, TrySend(c));
    assert ConnInv(w, c);
    var s := w.consumers[c];
    if InHub(w, c) && s.phase != Stopped {
      assert Owed(w, c) == [w.fan.payload];
      if Accepts(w.channels, c, limits.buffer) {
        assert Flow(w', c) == Flow(w, c) + [w.fan.payload];
        assert Owed(w', c) == [];
      } else {
        assert Flow(w', c) == Flow(w, c);
      }
    }
  }

  lemma RegisterKeepsConn(w: World, limits: Limits, ev: Event, c: ConnId)
    requires Inv(w) && Enabled(w, limits, ev) && ev.Register? && c in Step(w, limits, ev).consumers
    ensures ConnInv(Step(w, limits, ev), c)
  {
    if c != ev.c {
      SameConn(w, Step(w, limits, ev), c);
    }
  }

  lemma RefuseKeepsConn(w: World, limits: Limits, ev: Event, c: ConnId)
    requires Inv(w) && Enabled(w, limits, ev) && ev.Refuse? && c in Step(w, limits, ev).consumers
    ensures ConnInv(Step(w, limits, ev), c)
  {
  }

  lemma BootstrapKeepsConn(w: World, limits: Limits, ev: Event, c: ConnId)
    requires Inv(w) && Enabled(w, limits, ev) && ev.Bootstrap? && c in Step(w, limits, ev).consumers
    ensures ConnInv(Step(w, limits, ev), c)
  {
    if c != ev.c {
      SameConn(w, Step(w, limits, ev), c);
    }
  }

  lemma FlushKeepsConn(w: World, limits: Limits, ev: Event, c: ConnId)
    requires Inv(w) && Enabled(w, limits, ev) && (ev.Flush?) && c in Step(w, limits, ev).consumers
    ensures ConnInv(Step(w, limits, ev), c)
  {
    var w' := Step(w, limits, ev);
    if c == ev.c {
      FlushedConn(w, limits, c);
    } else {
      SameConn(w, w', c);
    }
  }

  lemma ReceiveKeepsConn(w: World, limits: Limits, ev: Event, c: ConnId)
    requires Inv(w) && Enabled(w, limits, ev) && (ev.Receive?) && c in Step(w, limits, ev).consumers
    ensures ConnInv(Step(w, limits, ev), c)
  {
    if c != ev.c {
      SameConn(w, Step(w, limits, ev), c);
    }
  }

  lemma StopKeepsConn(w: World, limits: Limits, ev: Event, c: ConnId)
    requires Inv(w) && Enabled(w, limits, ev) && (ev.EndOfStream? || ev.Stop?) && c in Step(w, limits, ev).consumers
    ensures ConnInv(Step(w, limits, ev), c)
  {
    if c != ev.c {
      SameConn(w, Step(w, limits, ev), c);
    }
  }

  lemma UnregisterKeepsConn(w: World, limits: Limits, ev: Event, c: ConnId)
    requires Inv(w) && Enabled(w, limits, ev) && ev.Unregister? && c in Step(w, limits, ev).consumers
    ensures ConnInv(Step(w, limits, ev), c)
  {
    var w' := Step(w, limits, ev);
    assert ConnInv(w, c);
    if c == ev.c {
      assert !InHub(w', c) && w'.consumers[c] == w.consumers[c] && w'.consumers[c].phase == Stopped;
    } else {
      SameConn(w, w', c);
    }
  }

  lemma CloseKeepsConn(w: World, limits: Limits, ev: Event, c: ConnId)
    requires Inv(w) && Enabled(w, limits, ev) && ev.CloseReceiver? && c in Step(w, limits, ev).consumers
    ensures ConnInv(Step(w, limits, ev), c)
  {
    var w' := Step(w, limits, ev);
    assert ConnInv(w, c);
    if c == ev.c {
      assert w'.consumers[c] == w.consumers[c] && w'.consumers[c].phase == Stopped;
    } else {
      SameConn(w, w', c);
    }
  }

  /** A connection that a change of the users leaves alone. */
  lemma SameEntry(w: World, w': World, c: ConnId)
    requires c in w.consumers && c in w'.consumers && ConnInv(w, c)
    requires w'.consumers[c] == w.consumers[c] && w'.channels == w.channels
    requires c in w.history && c in w'.history && w'.history[c] == w.history[c]
    requires InHub(w', c) <==> InHub(w, c)
    requires InHub(w, c) ==> w'.users[w.consumers[c].user][c] == w.users[w.consumers[c].user][c]
    requires !InFlight(w, c) && !Failing(w, c) && !InFlight(w', c) && !Failing(w', c)
    ensures ConnInv(w', c)
  {
    assert Flow(w', c) == Flow(w, c);
    if InHub(w, c) {
      assert Owed(w', c) == Owed(w, c);
    }
  }

  /** A fan-out to the connection's own user. */
  lemma CollectedConn(w: World, limits: Limits, user: UserId, payload: Message, c: ConnId)
    requires Inv(w) && Enabled(w, limits, Collect(user, payload)) && c in w.consumers && w.consumers[c].user == user
    ensures ConnInv(Step(w, limits, Collect(user, payload)), c)
  {
    var w' := Step(w, limits, Collect(user, payload));
    assert ConnInv(w, c);
    assert w'.history[c] == w.history[c] + [payload] && Flow(w', c) == Flow(w, c);
    if InHub(w, c) {
      var conn := w.users[user][c];
      assert InHub(w', c) <==> !Overflows(conn, limits.buffer);
      if InHub(w', c) {
        assert Owed(w', c) == Owed(w, c) + [payload];
      }
    }
  }

  lemma CollectKeepsConn(w: World, limits: Limits, ev: Event, c: ConnId)
    requires Inv(w) && Enabled(w, limits, ev) && (ev.Collect?) && c in Step(w, limits, ev).consumers
    ensures ConnInv(Step(w, limits, ev), c)
  {
    if w.consumers[c].user == ev.user {
      CollectedConn(w, limits, ev.user, ev.payload, c);
    } else {
      assert ev.user in w.users ==> OwnedBy(w.users[ev.user], w.consumers, ev.user);
      SameEntry(w, Step(w, limits, ev), c);
    }
  }

  lemma TrySendKeepsConn(w: World, limits: Limits, ev: Event, c: ConnId)
    requires Inv(w) && Enabled(w, limits, ev) && (ev.TrySend?) && c in Step(w, limits, ev).consumers
    ensures ConnInv(Step(w, limits, ev), c)
  {
    var w' := Step(w, limits, ev);
    if c == ev.c {
      SentToConn(w, limits, c);
    } else {
      SameConn(w, w', c);
    }
  }

  /** A connection whose channel refused the payload leaves the hub. */
  lemma ReapedConn(w: World, limits: Limits, c: ConnId)
    requires Inv(w) && Enabled(w, limits, Reap) && c in w.consumers && Failing(w, c)
    ensures ConnInv(Step(w, limits, Reap), c)
  {
    var w' := Step(w, limits, Reap);
    assert ConnInv(w, c);
    assert !InHub(w', c) && Flow(w', c) == Flow(w, c);
  }

  lemma ReapKeepsConn(w: World, limits: Limits, ev: Event, c: ConnId)
    requires Inv(w) && Enabled(w, limits, ev) && (ev.Reap?) && c in Step(w, limits, ev).consumers
    ensures ConnInv(Step(w, limits, ev), c)
  {
    if Failing(w, c) {
      ReapedConn(w, limits, c);
    } else {
      DropSpares(w.users, w.fan.user, w.fan.failed, w.consumers[c].user, c);
      SameEntry(w, Step(w, limits, ev), c);
    }
  }

  lemma StepKeepsInv(w: World, limits: Limits, ev: Event)
    requires Inv(w) && Enabled(w, limits, ev)
    ensures Inv(Step(w, limits, ev))
  {
    StepKeepsRooted(w, limits, ev);
    forall c | c in Step(w, limits, ev).consumers ensures ConnInv(Step(w, limits, ev), c) {
      match ev
      case Register(_, _) => RegisterKeepsConn(w, limits, ev, c);
      case Refuse(_) => RefuseKeepsConn(w, limits, ev, c);
      case Bootstrap(_) => BootstrapKeepsConn(w, limits, ev, c);
      case Flush(_) => FlushKeepsConn(w, limits, ev, c);
      case Receive(_) => ReceiveKeepsConn(w, limits, ev, c);
      case Collect(_, _) => CollectKeepsConn(w, limits, ev, c);
      case TrySend(_) => TrySendKeepsConn(w, limits, ev, c);
      case Reap => ReapKeepsConn(w, limits, ev, c);
      case EndOfStream(_) => StopKeepsConn(w, limits, ev, c);
      case Stop(_) => StopKeepsConn(w, limits, ev, c);
      case Unregister(_) => UnregisterKeepsConn(w, limits, ev, c);
      case CloseReceiver(_) => CloseKeepsConn(w, limits, ev, c);
    }
  }

  lemma {:induction false} RunKeepsInv(run: seq<World>, limits: Limits, events: seq<Event>, n: nat)
    requires Run(run, limits, events) && n < |run|
    ensures Inv(run[n])
  {
    if n > 0 {
      RunKeepsInv(run, limits, events, n - 1);
      assert StepAt(run, limits, events, n - 1);
      StepKeepsInv(run[n - 1], limits, events[n - 1]);
    }
  }

  lemma RunKeepsConn(run: seq<World>, limits: Limits, events: seq<Event>, n: nat, c: ConnId)
    requires Run(run, limits, events) && n < |run| && c in run[n].consumers
    ensures ConnInv(run[n], c)
  {
    RunKeepsInv(run, limits, events, n);
  }

  // ---------------------------------------------------------------- the bounds

  /** Every bound of the hub: per connection, per user, in total, and the gauge. */
  ghost predicate WithinBounds(w: World, limits: Limits) {
    && Bounded(w.users, w.channels, limits)
    && TotalConnections(w.users) <= limits.global
    && w.gauge == TotalConnections(w.users)
  }

  lemma RegisterStaysBounded(w: World, limits: Limits, user: UserId, c: ConnId)
    requires Inv(w) && WithinBounds(w, limits) && Enabled(w, limits, Register(user, c))
    ensures WithinBounds(Step(w, limits, Register(user, c)), limits)
  {
    forall u | u in w.users ensures c !in w.users[u] {
      assert OwnedBy(w.users[u], w.consumers, u);
    }
    RegisterKeepsBounds(w.users, w.channels, limits, user, c);
    RegisterAddsOne(w.users, user, c);
  }

  lemma RefuseStaysBounded(w: World, limits: Limits, user: UserId)
    requires WithinBounds(w, limits) && Enabled(w, limits, Refuse(user))
    ensures WithinBounds(Step(w, limits, Refuse(user)), limits)
  {
    RefusedEntry(w.users, w.channels, limits, user);
  }

  lemma BootstrapStaysBounded(w: World, limits: Limits, c: ConnId)
    requires WithinBounds(w, limits) && Enabled(w, limits, Bootstrap(c))
    ensures WithinBounds(Step(w, limits, Bootstrap(c)), limits)
  {
    MarkKeepsBounds(w.users, w.channels, limits, w.consumers[c].user, c);
    MarkKeepsTotal(w.users, w.consumers[c].user, c);
  }

  lemma CollectStaysBounded(w: World, limits: Limits, user: UserId, payload: Message)
    requires WithinBounds(w, limits) && Enabled(w, limits, Collect(user, payload))
    ensures WithinBounds(Step(w, limits, Collect(user, payload)), limits)
  {
    CollectKeepsBounds(w.users, w.channels, limits, user, payload);
    CollectLowersTotal(w.users, user, payload, limits.buffer);
  }

  lemma DropStaysBounded(w: World, limits: Limits, ev: Event)
    requires WithinBounds(w, limits) && Enabled(w, limits, ev) && (ev.Unregister? || ev.Reap?)
    ensures WithinBounds(Step(w, limits, ev), limits)
  {
    var user := if ev.Reap? then w.fan.user else w.consumers[ev.c].user;
    var ids := if ev.Reap? then w.fan.failed else {ev.c};
    DropKeepsBounds(w.users, w.channels, limits, user, ids);
    DropLowersTotal(w.users, user, ids);
  }

  /** A channel may change if no connection that is still loading has it. */
  lemma ChannelStaysBounded(w: World, limits: Limits, c: ConnId, queue: seq<Message>)
    requires Inv(w) && Bounded(w.users, w.channels, limits) && |queue| <= limits.buffer
    requires InHub(w, c) && w.users[w.consumers[c].user][c].bootstrapping ==> queue == []
    ensures Bounded(w.users, w.channels[c := queue], limits)
  {
    forall u | u in w.users ensures ConnsOk(w.users[u], w.channels[c := queue], limits) {
      assert ConnsOk(w.users[u], w.channels, limits) && OwnedBy(w.users[u], w.consumers, u);
    }
  }

  /** An offered payload: its target was live when the fan-out began and still is, if it is
      in the hub at all, whatever else ran in between. */
  lemma TrySendStaysBounded(w: World, limits: Limits, c: ConnId)
    requires Inv(w) && WithinBounds(w, limits) && Enabled(w, limits, TrySend(c))
    ensures WithinBounds(Step(w, limits, TrySend(c)), limits)
  {
    assert InFlight(w, c) && c in w.consumers && ConnInv(w, c);
    if Accepts(w.channels, c, limits.buffer) {
      ChannelStaysBounded(w, limits, c, w.channels[c] + [w.fan.payload]);
    }
  }

  lemma ReceiveStaysBounded(w: World, limits: Limits, c: ConnId)
    requires Inv(w) && WithinBounds(w, limits) && Enabled(w, limits, Receive(c))
    ensures WithinBounds(Step(w, limits, Receive(c)), limits)
  {
    assert ConnInv(w, c) && |w.channels[c]| <= limits.buffer;
    ChannelStaysBounded(w, limits, c, w.channels[c][1..]);
  }

  lemma CloseStaysBounded(w: World, limits: Limits, c: ConnId)
    requires WithinBounds(w, limits) && Enabled(w, limits, CloseReceiver(c))
    ensures WithinBounds(Step(w, limits, CloseReceiver(c)), limits)
  {
    forall u | u in w.users ensures ConnsOk(w.users[u], w.channels - {c}, limits) {
      assert ConnsOk(w.users[u], w.channels, limits);
    }
  }

  lemma StepStaysBounded(w: World, limits: Limits, ev: Event)
    requires Inv(w) && WithinBounds(w, limits) && Enabled(w, limits, ev)
    ensures WithinBounds(Step(w, limits, ev), limits)
  {
    match ev
    case Register(user, c) => RegisterStaysBounded(w, limits, user, c);
    case Refuse(user) => RefuseStaysBounded(w, limits, user);
    case Bootstrap(c) => BootstrapStaysBounded(w, limits, c);
    case Collect(user, payload) => CollectStaysBounded(w, limits, user, payload);
    case TrySend(c) => TrySendStaysBounded(w, limits, c);
    case Receive(c) => ReceiveStaysBounded(w, limits, c);
    case CloseReceiver(c) => CloseStaysBounded(w, limits, c);
    case Unregister(_) => DropStaysBounded(w, limits, ev);
    case Reap => DropStaysBounded(w, limits, ev);
    case _ =>
  }

  /** In every state of every interleaving, with a fan-out in progress or not, the
      connections stay within the global and the per-user limit, every buffer within its
      size, a loading connection has an empty channel and a live one nothing pending, no
      user has an empty entry (given a positive per-user limit), and the gauge is exact. */
  lemma {:induction false} RunIsBounded(run: seq<World>, limits: Limits, events: seq<Event>, n: nat)
    requires Run(run, limits, events) && n < |run|
    ensures WithinBounds(run[n], limits)
  {
    if n > 0 {
      RunIsBounded(run, limits, events, n - 1);
      RunKeepsInv(run, limits, events, n - 1);
      assert StepAt(run, limits, events, n - 1);
      StepStaysBounded(run[n - 1], limits, events[n - 1]);
    }
  }

  /** No user has an entry without connections. */
  ghost predicate NobodyIsEmpty(w: World) {
    forall u | u in w.users :: w.users[u] != map[]
  }

  /** With a global limit of zero the hub stays empty. */
  lemma {:induction false} NobodyGetsIn(run: seq<World>, limits: Limits, events: seq<Event>, n: nat)
    requires Run(run, limits, events) && n < |run| && limits.global == 0
    ensures run[n].users == map[] && run[n].consumers == map[]
  {
    if n > 0 {
      NobodyGetsIn(run, limits, events, n - 1);
      assert StepAt(run, limits, events, n - 1);
    }
  }

  /** A refusal by a per-user limit of zero leaves an empty entry behind. */
  lemma RefusalLeavesEmptyEntry(limits: Limits) returns (run: seq<World>, events: seq<Event>)
    requires limits.perUser == 0 && limits.global > 0
    ensures Run(run, limits, events) && |run| == 2 && !NobodyIsEmpty(run[1])
  {
    var first := World(map[], map[], map[], map[], Idle, 0);
    var ev := Refuse(0);
    assert Enabled(first, limits, ev);
    var second := Step(first, limits, ev);
    run, events := [first, second], [ev];
    assert StepAt(run, limits, events, 0);
    assert 0 in second.users && second.users[0] == map[];
  }

  /** No user ever maps to an empty entry, in every run, exactly when the per-user limit is
      positive or the global one is zero. */
  lemma EmptyEntriesNeedZeroLimit(limits: Limits)
    ensures (forall run, events, n | Run(run, limits, events) && 0 <= n < |run| :: NobodyIsEmpty(run[n]))
            <==> limits.perUser >= 1 || limits.global == 0
  {
    if limits.perUser >= 1 || limits.global == 0 {
      forall run: seq<World>, events, n | Run(run, limits, events) && 0 <= n < |run| ensures NobodyIsEmpty(run[n]) {
        if limits.global == 0 {
          NobodyGetsIn(run, limits, events, n);
        } else {
          RunIsBounded(run, limits, events, n);
          assert forall u | u in run[n].users :: ConnsOk(run[n].users[u], run[n].channels, limits);
        }
      }
    } else {
      var run, events := RefusalLeavesEmptyEntry(limits);
      assert !NobodyIsEmpty(run[1]);
    }
  }

  // ---------------------------------------------------------------- what clients see

  /** The payloads fanned out to `user` since `c` registered, read off the events. */
  function Due(events: seq<Event>, user: UserId, c: ConnId): seq<Message> {
    if events == [] then []
    else
      var n := |events| - 1;
      match events[n]
      case Register(_, x) => if x == c then [] else Due(events[..n], user, c)
      case Collect(u, payload) => Due(events[..n], user, c) + if u == user then [payload] else []
      case _ => Due(events[..n], user, c)
  }

  lemma {:induction false} HistoryIsDue(run: seq<World>, limits: Limits, events: seq<Event>, n: nat, c: ConnId)
    requires Run(run, limits, events) && n < |run| && c in run[n].consumers
    ensures c in run[n].history && run[n].history[c] == Due(events[..n], run[n].consumers[c].user, c)
  {
    if n > 0 {
      var w, ev := run[n - 1], events[n - 1];
      assert StepAt(run, limits, events, n - 1);
      assert events[..n][..n - 1] == events[..n - 1];
      if c in w.consumers {
        HistoryIsDue(run, limits, events, n - 1, c);
      }
    }
  }

  /** After its snapshot a client receives a prefix of what was fanned out to its user
      since it registered: no gap, no reordering, no duplicate. */
  lemma ClientSeesPrefix(run: seq<World>, limits: Limits, events: seq<Event>, n: nat, c: ConnId)
    requires Run(run, limits, events) && n < |run| && c in run[n].consumers
    ensures run[n].consumers[c].emitted <= Due(events[..n], run[n].consumers[c].user, c)
  {
    RunKeepsConn(run, limits, events, n, c);
    HistoryIsDue(run, limits, events, n, c);
  }

  /** Between fan-outs, a client still connected that has drained its channel has
      received everything. */
  lemma ConnectedClientMissesNothing(run: seq<World>, limits: Limits, events: seq<Event>, n: nat, c: ConnId)
    requires Run(run, limits, events) && n < |run| && c in run[n].consumers
    requires run[n].fan == Idle && InHub(run[n], c)
    requires run[n].consumers[c].phase == Streaming && Queue(run[n], c) == []
    ensures run[n].consumers[c].emitted == Due(events[..n], run[n].consumers[c].user, c)
  {
    RunKeepsConn(run, limits, events, n, c);
    HistoryIsDue(run, limits, events, n, c);
    assert HubInv(run[n], c);
    assert Owed(run[n], c) == [];
    assert Flow(run[n], c) == run[n].consumers[c].emitted;
  }

  /** Out of the hub, a consumer that has not stopped drains what it holds, and no
      more. */
  ghost predicate Draining(w: World, c: ConnId, held: seq<Message>) {
    && c in w.consumers && !InHub(w, c)
    && w.consumers[c].emitted <= held
    && (w.consumers[c].phase != Stopped ==> Flow(w, c) == held)
  }

  /** A connection that left the hub never comes back. */
  lemma StaysOut(w: World, limits: Limits, ev: Event, c: ConnId)
    requires c in w.consumers && !InHub(w, c) && Enabled(w, limits, ev)
    ensures var w' := Step(w, limits, ev);
            c in w'.consumers && w'.consumers[c].user == w.consumers[c].user && !InHub(w', c)
  {
    HubShrinks(w, limits, ev, w.consumers[c].user);
    assert c !in ConnsOf(w.users, w.consumers[c].user).Keys;
  }

  /** The steps of the consumer itself. */
  predicate Own(ev: Event, c: ConnId) {
    ev == Bootstrap(c) || ev == Flush(c) || ev == Receive(c) || ev == EndOfStream(c) || ev == Stop(c)
  }

  lemma OwnStepDrains(w: World, limits: Limits, ev: Event, c: ConnId, held: seq<Message>)
    requires c in w.consumers && Enabled(w, limits, ev) && Own(ev, c) && Draining(w, c, held)
    ensures Draining(Step(w, limits, ev), c, held)
  {
    var w' := Step(w, limits, ev);
    StaysOut(w, limits, ev, c);
    if ev == Flush(c) {
      FlowIsKept(w, limits, c);
      assert w'.consumers[c].emitted <= Flow(w', c);
    } else if ev == Receive(c) {
      assert Flow(w', c) == Flow(w, c);
      assert w'.consumers[c].emitted <= Flow(w', c);
    } else if ev == Bootstrap(c) {
      assert Flow(w', c) == Flow(w, c);
    }
  }

  lemma OtherStepDrains(w: World, limits: Limits, ev: Event, c: ConnId, held: seq<Message>)
    requires c in w.consumers && ConnInv(w, c) && Enabled(w, limits, ev) && !Own(ev, c) && Draining(w, c, held)
    ensures Draining(Step(w, limits, ev), c, held)
  {
    var w' := Step(w, limits, ev);
    StaysOut(w, limits, ev, c);
    if w.consumers[c].phase != Stopped {
      assert Flow(w', c) == Flow(w, c);
    }
  }

  lemma StepKeepsDraining(w: World, limits: Limits, ev: Event, c: ConnId, held: seq<Message>)
    requires c in w.consumers && ConnInv(w, c) && Enabled(w, limits, ev) && Draining(w, c, held)
    ensures Draining(Step(w, limits, ev), c, held)
  {
    if Own(ev, c) {
      OwnStepDrains(w, limits, ev, c, held);
    } else {
      OtherStepDrains(w, limits, ev, c, held);
    }
  }

  /** A connection that overflowed, or was dropped for any other reason, is never sent
      anything fanned out later: the client gets what was buffered for it before, and
      then the end of the stream. */
  lemma {:induction false} DropEndsStream(run: seq<World>, limits: Limits, events: seq<Event>, i: nat, n: nat,
          c: ConnId)
    requires Run(run, limits, events) && i <= n < |run|
    requires c in run[i].consumers && !InHub(run[i], c) && run[i].consumers[c].phase != Stopped
    ensures Draining(run[n], c, Flow(run[i], c))
    decreases n - i
  {
    if i == n {
      RunKeepsConn(run, limits, events, i, c);
      assert run[i].consumers[c].emitted <= Flow(run[i], c);
    } else {
      DropEndsStream(run, limits, events, i, n - 1, c);
      RunKeepsConn(run, limits, events, n - 1, c);
      assert StepAt(run, limits, events, n - 1);
      StepKeepsDraining(run[n - 1], limits, events[n - 1], c, Flow(run[i], c));
    }
  }

  /** A stream that ends has yielded all the connection held when it left the hub. */
  lemma EndedStreamIsComplete(run: seq<World>, limits: Limits, events: seq<Event>, i: nat, n: nat, c: ConnId)
    requires Run(run, limits, events) && i <= n < |events| && events[n] == EndOfStream(c)
    requires c in run[i].consumers && !InHub(run[i], c) && run[i].consumers[c].phase != Stopped
    ensures c in run[n + 1].consumers && run[n + 1].consumers[c].emitted == Flow(run[i], c)
  {
    DropEndsStream(run, limits, events, i, n, c);
    assert StepAt(run, limits, events, n);
  }

  // ---------------------------------------------------------------- who leaves the hub

  /** Unregistering removes the connection, whether it was still loading or live, and no
      other. */
  lemma UnregisterRemoves(w: World, limits: Limits, c: ConnId)
    requires Enabled(w, limits, Unregister(c))
    ensures !InHub(Step(w, limits, Unregister(c)), c)
    ensures forall d | d != c && InHub(w, d) :: InHub(Step(w, limits, Unregister(c)), d)
  {
    DropRemoves(w.users, w.consumers[c].user, {c});
    forall d | d != c && InHub(w, d) ensures InHub(Step(w, limits, Unregister(c)), d) {
      DropSpares(w.users, w.consumers[c].user, {c}, w.consumers[d].user, d);
    }
  }

  /** The end of a fan-out removes the connections that refused the payload, and no other. */
  lemma ReapRemoves(w: World, limits: Limits, c: ConnId)
    requires Inv(w) && Enabled(w, limits, Reap) && c in w.consumers
    ensures InHub(Step(w, limits, Reap), c) <==> InHub(w, c) && !Failing(w, c)
  {
    assert ConnInv(w, c);
    if w.fan.failed != {} {
      DropRemoves(w.users, w.fan.user, w.fan.failed);
      if w.consumers[c].user != w.fan.user || c !in w.fan.failed {
        DropSpares(w.users, w.fan.user, w.fan.failed, w.consumers[c].user, c);
      }
    }
  }

  lemma {:induction false} StaysOutForGood(run: seq<World>, limits: Limits, events: seq<Event>, i: nat, n: nat,
          c: ConnId)
    requires Run(run, limits, events) && i <= n < |run| && c in run[i].consumers && !InHub(run[i], c)
    ensures c in run[n].consumers && !InHub(run[n], c)
    decreases n
  {
    if i < n {
      StaysOutForGood(run, limits, events, i, n - 1, c);
      assert StepAt(run, limits, events, n - 1);
      StaysOut(run[n - 1], limits, events[n - 1], c);
    }
  }

  /** A connection that was unregistered, or reaped after refusing a payload, is out of the hub
      in every later state. */
  lemma RemovedForGood(run: seq<World>, limits: Limits, events: seq<Event>, i: nat, n: nat, c: ConnId)
    requires Run(run, limits, events) && i < n < |run|
    requires events[i] == Unregister(c) || (events[i] == Reap && Failing(run[i], c))
    ensures c in run[n].consumers && !InHub(run[n], c)
  {
    assert StepAt(run, limits, events, i);
    RunKeepsInv(run, limits, events, i);
    if events[i] == Reap {
      ReapRemoves(run[i], limits, c);
    } else {
      UnregisterRemoves(run[i], limits, c);
    }
    StaysOutForGood(run, limits, events, i + 1, n, c);
  }

  /** In step `k` the connection was offered a payload while its channel was full or closed. */
  ghost predicate RefusedIn(run: seq<World>, limits: Limits, events: seq<Event>, k: nat, c: ConnId) {
    && k < |events| < |run| && events[k] == TrySend(c)
    && (c in run[k].channels ==> |run[k].channels[c]| == limits.buffer)
  }

  lemma StepFails(run: seq<World>, limits: Limits, events: seq<Event>, n: nat, c: ConnId)
    requires Run(run, limits, events) && n + 1 < |run| && Failing(run[n + 1], c) && !Failing(run[n], c)
    ensures RefusedIn(run, limits, events, n, c)
  {
    assert StepAt(run, limits, events, n);
    RunIsBounded(run, limits, events, n);
    assert c in run[n].channels ==> |run[n].channels[c]| <= limits.buffer;
  }

  lemma {:induction false} FailingWasRefused(run: seq<World>, limits: Limits, events: seq<Event>, n: nat, c: ConnId)
    requires Run(run, limits, events) && n < |run| && Failing(run[n], c)
    ensures exists k: nat :: k < n && RefusedIn(run, limits, events, k, c)
  {
    if Failing(run[n - 1], c) {
      FailingWasRefused(run, limits, events, n - 1, c);
    } else {
      StepFails(run, limits, events, n - 1, c);
    }
  }

  lemma CollectDrops(w: World, limits: Limits, user: UserId, payload: Message, c: ConnId)
    requires Bounded(w.users, w.channels, limits) && Enabled(w, limits, Collect(user, payload)) && InHub(w, c)
    requires !InHub(Step(w, limits, Collect(user, payload)), c)
    ensures var conn := w.users[w.consumers[c].user][c];
            user == w.consumers[c].user && conn.bootstrapping && |conn.pending| == limits.buffer
  {
    var conns := w.users[w.consumers[c].user];
    assert ConnsOk(conns, w.channels, limits) && ConnOk(conns[c], c, w.channels, limits);
    assert !Overflows(conns[c], limits.buffer) ==> c in CollectedConns(conns, payload, limits.buffer);
  }

  /** Only three events remove connections. */
  lemma OthersDropNothing(w: World, limits: Limits, ev: Event, c: ConnId)
    requires Enabled(w, limits, ev) && !ev.Unregister? && !ev.Collect? && !ev.Reap? && InHub(w, c)
    ensures InHub(Step(w, limits, ev), c)
  {
  }

  lemma StepDrops(w: World, limits: Limits, ev: Event, c: ConnId)
    requires Inv(w) && Bounded(w.users, w.channels, limits) && Enabled(w, limits, ev)
    requires InHub(w, c) && !InHub(Step(w, limits, ev), c)
    ensures var conn := w.users[w.consumers[c].user][c];
            || ev == Unregister(c)
            || (ev.Collect? && ev.user == w.consumers[c].user && conn.bootstrapping && |conn.pending| == limits.buffer)
            || (ev == Reap && Failing(w, c))
  {
    if ev.Collect? {
      CollectDrops(w, limits, ev.user, ev.payload, c);
    } else if ev.Reap? {
      ReapRemoves(w, limits, c);
    } else if ev.Unregister? {
      UnregisterRemoves(w, limits, ev.c);
    } else {
      OthersDropNothing(w, limits, ev, c);
    }
  }

  /** A connection leaves the hub only when it is unregistered, when its buffer is full while it
      is still loading, or when its channel was full or closed as a payload was offered. */
  lemma OnlySlowConnectionsAreDropped(run: seq<World>, limits: Limits, events: seq<Event>, n: nat, c: ConnId)
    requires Run(run, limits, events) && n + 1 < |run| && InHub(run[n], c) && !InHub(run[n + 1], c)
    ensures var user := run[n].consumers[c].user;
            var conn := run[n].users[user][c];
            || events[n] == Unregister(c)
            || (events[n].Collect? && events[n].user == user && conn.bootstrapping && |conn.pending| == limits.buffer)
            || (events[n] == Reap && exists k: nat :: k < n && RefusedIn(run, limits, events, k, c))
  {
    assert StepAt(run, limits, events, n);
    RunIsBounded(run, limits, events, n);
    RunKeepsInv(run, limits, events, n);
    StepDrops(run[n], limits, events[n], c);
    if Failing(run[n], c) {
      FailingWasRefused(run, limits, events, n, c);
    }
  }
}
