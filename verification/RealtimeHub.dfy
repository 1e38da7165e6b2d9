/** RealtimeHub: connections bounded per user, in total and in what each one buffers. */
module RealtimeHub {
  import opened Common
  import opened HubState

  datatype Registration = Accepted(conn: ConnId) | GlobalLimitExceeded | PerUserLimitExceeded

  ghost predicate Below(conns: Conns, next: ConnId) {
    forall c | c in conns :: c < next
  }

  ghost predicate AllBelow(users: Users, next: ConnId) {
    forall u | u in users :: Below(users[u], next)
  }

  ghost predicate ChannelsBelow(channels: Channels, next: ConnId) {
    forall c | c in channels :: c < next
  }

  /** The bounds of the hub, and what keeps the identifiers fresh. */
  ghost predicate HubOk(users: Users, channels: Channels, limits: Limits, next: ConnId) {
    && limits.buffer >= 1
    && Bounded(users, channels, limits)
    && TotalConnections(users) <= limits.global
    && ChannelsBelow(channels, next)
    && AllBelow(users, next)
  }

  lemma AdmittingIsOk(users: Users, channels: Channels, limits: Limits, next: ConnId, user: UserId)
    requires HubOk(users, channels, limits, next)
    requires TotalConnections(users) < limits.global && |ConnsOf(users, user)| < limits.perUser
    ensures next !in channels && forall u | u in users :: next !in users[u]
    ensures HubOk(Registered(users, user, next), channels[next := []], limits, next + 1)
  {
    forall u | u in users ensures next !in users[u] {
      assert Below(users[u], next);
    }
    RegisterKeepsBounds(users, channels, limits, user, next);
    RegisterAddsOne(users, user, next);
    forall u | u in Registered(users, user, next) ensures Below(Registered(users, user, next)[u], next + 1) {
      assert u in users ==> Below(users[u], next);
    }
  }

  lemma DroppingIsOk(users: Users, channels: Channels, limits: Limits, next: ConnId, user: UserId, ids: set<ConnId>)
    requires HubOk(users, channels, limits, next)
    ensures HubOk(Dropped(users, user, ids), channels, limits, next)
  {
    DropKeepsBounds(users, channels, limits, user, ids);
    DropLowersTotal(users, user, ids);
    forall u | u in Dropped(users, user, ids) ensures Below(Dropped(users, user, ids)[u], next) {
      assert Below(users[u], next);
    }
  }

  class Hub {
    const limits: Limits
    var users: Users
    var channels: Channels
    var activeGauge: nat
    var nextConn: ConnId

    ghost predicate Valid()
      reads this
    {
      && HubOk(users, channels, limits, nextConn)
      && activeGauge == TotalConnections(users)
    }

    constructor (limits: Limits)
      requires limits.buffer >= 1
      ensures Valid() && this.limits == limits && users == map[] && channels == map[]
    {
      this.limits := limits;
      users, channels := map[], map[];
      activeGauge, nextConn := 0, 0;
    }

    static method CountConnections(users: Users) returns (total: nat)
      ensures total == TotalConnections(users)
    {
      total := 0;
      var rest := users.Keys;
      while rest != {}
        invariant rest <= users.Keys
        invariant total + CountOver(users, rest) == TotalConnections(users)
        decreases |rest|
      {
        var u := Take(rest);
        CountSplits(users, rest, u);
        total := total + |users[u]|;
        rest := rest - {u};
      }
    }

    /** A refusal changes nothing, except that a per-user limit of zero leaves the
        refused user behind with an empty entry. */
    method Register(user: UserId) returns (r: Registration)
      requires Valid()
      modifies this`users, this`channels, this`activeGauge, this`nextConn
      ensures Valid()
      ensures match r
              case GlobalLimitExceeded =>
                TotalConnections(old(users)) >= limits.global && users == old(users) && channels == old(channels)
              case PerUserLimitExceeded =>
                && TotalConnections(old(users)) < limits.global
                && |ConnsOf(old(users), user)| >= limits.perUser
                && users == (if limits.perUser == 0 then old(users)[user := map[]] else old(users))
                && channels == old(channels)
              case Accepted(c) =>
                && TotalConnections(old(users)) < limits.global
                && |ConnsOf(old(users), user)| < limits.perUser
                && c !in old(channels) && (forall u | u in old(users) :: c !in old(users)[u])
                && users == Registered(old(users), user, c) && channels == old(channels)[c := []]
    {
      var total := CountConnections(users);
      if total >= limits.global {
        return GlobalLimitExceeded;
      }
      var entry := ConnsOf(users, user);
      if |entry| >= limits.perUser {
        RefusedEntry(users, channels, limits, user);
        users := users[user := entry];
        return PerUserLimitExceeded;
      }
      var c := Admit(user);
      return Accepted(c);
    }

    method Admit(user: UserId) returns (c: ConnId)
      requires Valid() && TotalConnections(users) < limits.global && |ConnsOf(users, user)| < limits.perUser
      modifies this`users, this`channels, this`activeGauge, this`nextConn
      ensures Valid()
      ensures c !in old(channels) && forall u | u in old(users) :: c !in old(users)[u]
      ensures users == Registered(old(users), user, c) && channels == old(channels)[c := []]
    {
      c := nextConn;
      AdmittingIsOk(users, channels, limits, nextConn, user);
      nextConn := nextConn + 1;
      users, channels := users[user := ConnsOf(users, user)[c := Conn(true, [])]], channels[c := []];
      activeGauge := CountConnections(users);
    }

    /** Going live hands over everything buffered since registration. */
    method MarkBootstrapped(user: UserId, c: ConnId) returns (pending: seq<Message>)
      requires Valid()
      modifies this`users
      ensures Valid()
      ensures users == MarkedLive(old(users), user, c)
      ensures pending == if c in ConnsOf(old(users), user) then old(users)[user][c].pending else []
    {
      pending := [];
      MarkKeepsBounds(users, channels, limits, user, c);
      MarkKeepsTotal(users, user, c);
      if c in ConnsOf(users, user) {
        pending := users[user][c].pending;
        users := MarkedLive(users, user, c);
      }
    }

    method Remove(user: UserId, c: ConnId)
      requires Valid()
      modifies this`users, this`activeGauge
      ensures Valid()
      ensures users == Dropped(old(users), user, {c})
      ensures Removed(old(users), users, user, {c}) && c !in ConnsOf(users, user)
    {
      DropRemoves(users, user, {c});
      DroppingIsOk(users, channels, limits, nextConn, user, {c});
      users := Dropped(users, user, {c});
      activeGauge := CountConnections(users);
    }

    /** The loop over a user's connections under the lock. */
    static method CollectLoop(entries: Conns, payload: Message, buffer: nat)
      returns (kept: Conns, targets: set<ConnId>, stale: set<ConnId>)
      ensures kept == CollectedConns(entries, payload, buffer)
      ensures targets == LiveOf(entries)
      ensures stale == StaleOf(entries, buffer)
    {
      kept, targets, stale := map[], {}, {};
      var todo := entries.Keys;
      assert entries - todo == map[];
      while todo != {}
        invariant todo <= entries.Keys
        invariant kept == CollectedConns(entries - todo, payload, buffer)
        invariant targets == LiveOf(entries - todo)
        invariant stale == StaleOf(entries - todo, buffer)
        decreases |todo|
      {
        var c := Take(todo);
        var entry := entries[c];
        CollectOneMore(entries, todo, c, payload, buffer);
        todo := todo - {c};
        if entry.bootstrapping {
          if |entry.pending| >= buffer {
            stale := stale + {c};
          } else {
            kept := kept[c := Conn(true, entry.pending + [payload])];
          }
        } else {
          kept, targets := kept[c := entry], targets + {c};
        }
      }
      assert entries - todo == entries;
    }

    /** First phase: buffer for loading connections, drop those that overflow, and
        remember the live ones. */
    method FanoutCollect(user: UserId, payload: Message) returns (targets: set<ConnId>, stale: set<ConnId>)
      requires Valid()
      modifies this`users, this`activeGauge
      ensures Valid()
      ensures users == Collected(old(users), user, payload, limits.buffer)
      ensures targets == LiveOf(ConnsOf(old(users), user))
      ensures stale == StaleOf(ConnsOf(old(users), user), limits.buffer)
      ensures LiveTargets(users, user, targets) && (user in users ==> users[user] != map[])
    {
      targets, stale := {}, {};
      LiveAfterCollect(users, channels, limits, user, payload);
      CollectKeepsBounds(users, channels, limits, user, payload);
      CollectLowersTotal(users, user, payload, limits.buffer);
      if user in users {
        var kept: Conns;
        kept, targets, stale := CollectLoop(users[user], payload, limits.buffer);
        users := WithConns(users, user, kept);
      }
      activeGauge := CountConnections(users);
    }

    method TrySend(c: ConnId, payload: Message) returns (sent: bool)
      modifies this`channels
      ensures sent == Accepts(old(channels), c, limits.buffer)
      ensures channels == if sent then old(channels)[c := old(channels)[c] + [payload]] else old(channels)
    {
      sent := Accepts(channels, c, limits.buffer);
      if sent {
        channels := channels[c := channels[c] + [payload]];
      }
    }

    /** Second phase: offer the payload to every live connection, outside the lock. */
    method SendLoop(live: set<ConnId>, payload: Message) returns (failed: set<ConnId>)
      modifies this`channels
      ensures failed == Refusing(old(channels), live, limits.buffer)
      ensures channels == Delivered(old(channels), live, payload, limits.buffer)
    {
      var targets := live;
      failed := {};
      while targets != {}
        invariant targets <= live && failed <= live && channels.Keys == old(channels).Keys
        invariant forall c :: c in failed <==> c in live && c !in targets && !Accepts(old(channels), c, limits.buffer)
        invariant forall c | c in channels && (c in targets || c in failed || c !in live) ::
              channels[c] == old(channels)[c]
        invariant forall c | c in channels && c in live && c !in targets && c !in failed ::
              channels[c] == old(channels)[c] + [payload]
        decreases |targets|
      {
        var c := Take(targets);
        targets := targets - {c};
        var sent := TrySend(c, payload);
        if !sent {
          failed := failed + {c};
        }
      }
      assert failed == Refusing(old(channels), live, limits.buffer);
      assert channels == Delivered(old(channels), live, payload, limits.buffer) by {
        assert channels.Keys == Delivered(old(channels), live, payload, limits.buffer).Keys;
        forall c | c in channels ensures channels[c] == Delivered(old(channels), live, payload, limits.buffer)[c] {
          assert c in failed <==> c in live && !Accepts(old(channels), c, limits.buffer);
        }
      }
    }

    /** Every live connection of the user gets the payload or is dropped, every loading
        one buffers it or is dropped, and nobody else notices. */
    method Fanout(user: UserId, payload: Message)
      requires Valid()
      modifies this`users, this`channels, this`activeGauge
      ensures Valid()
      ensures var live := LiveOf(ConnsOf(old(users), user));
              && users == Dropped(Collected(old(users), user, payload, limits.buffer), user,
                    Refusing(old(channels), live, limits.buffer))
              && channels == Delivered(old(channels), live, payload, limits.buffer)
      ensures FannedOut(old(users), old(channels), users, channels, user, payload, limits.buffer)
    {
      FanoutReachesAll(users, channels, user, payload, limits.buffer);
      var targets, stale := FanoutCollect(user, payload);
      var failed := SendPhase(user, targets, payload);
      Reap(user, failed);
    }

    method SendPhase(user: UserId, live: set<ConnId>, payload: Message) returns (failed: set<ConnId>)
      requires Valid() && LiveTargets(users, user, live)
      modifies this`channels
      ensures Valid()
      ensures failed == Refusing(old(channels), live, limits.buffer)
      ensures channels == Delivered(old(channels), live, payload, limits.buffer)
    {
      SentKeepsBounds(users, channels, limits, user, live, payload);
      failed := SendLoop(live, payload);
    }

    /** Third phase: drop the connections that took no more. */
    method Reap(user: UserId, failed: set<ConnId>)
      requires Valid() && (user in users ==> users[user] != map[])
      modifies this`users, this`activeGauge
      ensures Valid()
      ensures users == Dropped(old(users), user, failed)
      ensures Removed(old(users), users, user, failed)
    {
      DropRemoves(users, user, failed);
      if failed != {} {
        DroppingIsOk(users, channels, limits, nextConn, user, failed);
        users := Dropped(users, user, failed);
        activeGauge := CountConnections(users);
      } else {
        DropNothing(users, user);
      }
    }

    /** The receiving side of a connection's channel. */
    method Receive(c: ConnId) returns (m: Option<Message>)
      requires Valid()
      modifies this`channels
      ensures Valid()
      ensures if c in old(channels) && old(channels)[c] != []
              then m == Some(old(channels)[c][0]) && channels == old(channels)[c := old(channels)[c][1..]]
              else m == None && channels == old(channels)
    {
      m := None;
      if c in channels && channels[c] != [] {
        m := Some(channels[c][0]);
        channels := channels[c := channels[c][1..]];
      }
    }
  }
}
