/**
 * The state behind the hub's mutex and what each locked section does to it
 * (src/api/src/realtime/hub.rs). A connection's channel is the sequence of messages
 * it holds, present as long as its receiver is alive.
 */
module HubState {
  import opened Common

  type UserId = int
  type ConnId = int
  type Message = string

  datatype Conn = Conn(bootstrapping: bool, pending: seq<Message>)

  type Conns = map<ConnId, Conn>
  type Users = map<UserId, Conns>
  type Channels = map<ConnId, seq<Message>>

  datatype Limits = Limits(perUser: nat, global: nat, buffer: nat)

  function ConnsOf(users: Users, user: UserId): Conns {
    if user in users then users[user] else map[]
  }

  /** Store a user's connections; a user without connections has no entry. */
  function WithConns(users: Users, user: UserId, conns: Conns): Users {
    if conns == map[] then users - {user} else users[user := conns]
  }

  function Registered(users: Users, user: UserId, c: ConnId): Users {
    users[user := ConnsOf(users, user)[c := Conn(true, [])]]
  }

  function MarkedLive(users: Users, user: UserId, c: ConnId): Users {
    if c in ConnsOf(users, user) then users[user := users[user][c := Conn(false, [])]] else users
  }

  function Dropped(users: Users, user: UserId, ids: set<ConnId>): Users {
    if user in users then WithConns(users, user, users[user] - ids) else users
  }

  predicate Overflows(conn: Conn, buffer: nat) {
    conn.bootstrapping && |conn.pending| >= buffer
  }

  /** A connection that is still loading its snapshot buffers the payload. */
  function Buffered(conn: Conn, payload: Message): Conn {
    if conn.bootstrapping then Conn(true, conn.pending + [payload]) else conn
  }

  function CollectedConns(conns: Conns, payload: Message, buffer: nat): Conns {
    map c | c in conns && !Overflows(conns[c], buffer) :: Buffered(conns[c], payload)
  }

  /** The first phase of a fan-out. */
  function Collected(users: Users, user: UserId, payload: Message, buffer: nat): Users {
    if user in users then WithConns(users, user, CollectedConns(users[user], payload, buffer)) else users
  }

  function StaleOf(conns: Conns, buffer: nat): set<ConnId> {
    set c | c in conns && Overflows(conns[c], buffer)
  }

  function LiveOf(conns: Conns): set<ConnId> {
    set c | c in conns && !conns[c].bootstrapping
  }

  /** `try_send` fails when the receiver is gone or the channel is full. */
  predicate Accepts(channels: Channels, c: ConnId, buffer: nat) {
    c in channels && |channels[c]| < buffer
  }

  /** The live connections whose channel takes no more. */
  function Refusing(channels: Channels, live: set<ConnId>, buffer: nat): set<ConnId> {
    set c | c in live && !Accepts(channels, c, buffer)
  }

  /** The second phase of a fan-out, with nothing in between. */
  function Delivered(channels: Channels, live: set<ConnId>, payload: Message, buffer: nat): Channels {
    map c | c in channels ::
      if c in live && Accepts(channels, c, buffer) then channels[c] + [payload] else channels[c]
  }

  /** One more turn of the loop over a user's connections. */
  lemma CollectOneMore(conns: Conns, todo: set<ConnId>, c: ConnId, payload: Message, buffer: nat)
    requires c in todo && todo <= conns.Keys
    ensures var done, more, conn := conns - todo, conns - (todo - {c}), conns[c];
            && LiveOf(more) == LiveOf(done) + (if conn.bootstrapping then {} else {c})
            && StaleOf(more, buffer) == StaleOf(done, buffer) + (if Overflows(conn, buffer) then {c} else {})
            && CollectedConns(more, payload, buffer) ==
               if Overflows(conn, buffer) then CollectedConns(done, payload, buffer)
               else CollectedConns(done, payload, buffer)[c := Buffered(conn, payload)]
  {
    assert conns - (todo - {c}) == (conns - todo)[c := conns[c]];
  }

  lemma RegisterAddsKey(users: Users, user: UserId, c: ConnId, u: UserId)
    ensures ConnsOf(Registered(users, user, c), u).Keys <= ConnsOf(users, u).Keys + if user == u then {c} else {}
  {
  }

  /** Dropping, collecting and going live add no connection. */
  lemma DropKeepsKeys(users: Users, user: UserId, ids: set<ConnId>, u: UserId)
    ensures ConnsOf(Dropped(users, user, ids), u).Keys <= ConnsOf(users, u).Keys
  {
  }

  lemma CollectKeepsKeys(users: Users, user: UserId, payload: Message, buffer: nat, u: UserId)
    ensures ConnsOf(Collected(users, user, payload, buffer), u).Keys <= ConnsOf(users, u).Keys
  {
  }

  lemma MarkKeepsKeys(users: Users, user: UserId, c: ConnId, u: UserId)
    ensures ConnsOf(MarkedLive(users, user, c), u).Keys <= ConnsOf(users, u).Keys
  {
  }

  /** `after` has lost exactly the given connections of the user, loading or live, and the
      user with the last of them; the others are as they were. */
  ghost predicate Removed(before: Users, after: Users, user: UserId, ids: set<ConnId>) {
    && (forall c :: c in ConnsOf(after, user) <==> c in ConnsOf(before, user) && c !in ids)
    && (forall c | c in ConnsOf(after, user) :: after[user][c] == before[user][c])
    && (user in after ==> after[user] != map[])
    && SameButFor(before, after, user)
  }

  ghost predicate SameButFor(before: Users, after: Users, user: UserId) {
    forall u | u != user :: (u in after <==> u in before) && (u in after ==> after[u] == before[u])
  }

  lemma DropRemoves(users: Users, user: UserId, ids: set<ConnId>)
    ensures Removed(users, Dropped(users, user, ids), user, ids)
  {
  }

  lemma DropSpares(users: Users, user: UserId, ids: set<ConnId>, u: UserId, c: ConnId)
    requires c !in ids || u != user
    ensures c in ConnsOf(Dropped(users, user, ids), u) <==> c in ConnsOf(users, u)
    ensures c in ConnsOf(users, u) ==> ConnsOf(Dropped(users, user, ids), u)[c] == users[u][c]
  {
    if u == user && c in ConnsOf(users, u) {
      assert c in users[u] - ids;
    }
  }

  /** What a fan-out with nothing in between does to one connection of the user: a loading one
      buffers the payload unless its buffer is full, a live one gets it unless its channel is
      full or closed, and one that cannot take it leaves the hub. */
  ghost predicate Reached(users: Users, channels: Channels, after: Users, channels': Channels, user: UserId,
          c: ConnId, payload: Message, buffer: nat)
    requires c in ConnsOf(users, user)
  {
    var conn := users[user][c];
    if conn.bootstrapping then
      && (c in channels ==> c in channels' && channels'[c] == channels[c])
      && if |conn.pending| < buffer
         then c in ConnsOf(after, user) && after[user][c] == Conn(true, conn.pending + [payload])
         else c !in ConnsOf(after, user)
    else if c in channels && |channels[c]| < buffer then
      && c in ConnsOf(after, user) && after[user][c] == conn
      && c in channels' && channels'[c] == channels[c] + [payload]
    else
      c !in ConnsOf(after, user) && (c in channels ==> c in channels' && channels'[c] == channels[c])
  }

  ghost predicate FannedOut(users: Users, channels: Channels, after: Users, channels': Channels, user: UserId,
          payload: Message, buffer: nat)
  {
    && (forall c | c in ConnsOf(users, user) :: Reached(users, channels, after, channels', user, c, payload, buffer))
    && ConnsOf(after, user).Keys <= ConnsOf(users, user).Keys
    && SameButFor(users, after, user)
    && channels'.Keys == channels.Keys
    && (forall c | c in channels && c !in ConnsOf(users, user) :: channels'[c] == channels[c])
  }

  lemma FanoutReachesAll(users: Users, channels: Channels, user: UserId, payload: Message, buffer: nat)
    ensures var live := LiveOf(ConnsOf(users, user));
            var after := Dropped(Collected(users, user, payload, buffer), user, Refusing(channels, live, buffer));
            FannedOut(users, channels, after, Delivered(channels, live, payload, buffer), user, payload, buffer)
  {
    var live := LiveOf(ConnsOf(users, user));
    var collected := Collected(users, user, payload, buffer);
    DropRemoves(collected, user, Refusing(channels, live, buffer));
  }

  // ---------------------------------------------------------------- totals

  /** The connections of the given users, counted in any order. */
  ghost function CountOver(users: Users, keys: set<UserId>): nat
    requires keys <= users.Keys
  {
    if keys == {} then 0
    else
      var u := Pick(keys);
      |users[u]| + CountOver(users, keys - {u})
  }

  ghost function TotalConnections(users: Users): nat {
    CountOver(users, users.Keys)
  }

  lemma {:induction false} CountSplits(users: Users, keys: set<UserId>, u: UserId)
    requires keys <= users.Keys && u in keys
    ensures CountOver(users, keys) == |users[u]| + CountOver(users, keys - {u})
  {
    var v := Pick(keys);
    if v != u {
      assert keys - {v} - {u} == keys - {u} - {v};
      CountSplits(users, keys - {v}, u);
      CountSplits(users, keys - {u}, v);
    }
  }

  lemma {:induction false} CountDependsOnKeys(users: Users, others: Users, keys: set<UserId>)
    requires keys <= users.Keys && keys <= others.Keys && forall u | u in keys :: users[u] == others[u]
    ensures CountOver(users, keys) == CountOver(others, keys)
  {
    if keys != {} {
      CountDependsOnKeys(users, others, keys - {Pick(keys)});
    }
  }

  lemma TotalSplits(users: Users, user: UserId)
    ensures TotalConnections(users) == |ConnsOf(users, user)| + TotalConnections(users - {user})
  {
    var rest := users.Keys - {user};
    assert (users - {user}).Keys == rest;
    CountDependsOnKeys(users - {user}, users, rest);
    if user in users {
      CountSplits(users, users.Keys, user);
    } else {
      assert users.Keys == rest;
    }
  }

  lemma TotalAfterUpdate(users: Users, user: UserId, conns: Conns)
    ensures TotalConnections(users[user := conns]) + |ConnsOf(users, user)| == TotalConnections(users) + |conns|
    ensures TotalConnections(WithConns(users, user, conns)) + |ConnsOf(users, user)| == TotalConnections(users)
          + |conns|
  {
    TotalSplits(users, user);
    TotalSplits(users[user := conns], user);
    assert users[user := conns] - {user} == users - {user};
  }

  lemma FewerConns(conns: Conns, fewer: Conns)
    requires fewer.Keys <= conns.Keys
    ensures |fewer| <= |conns|
  {
    SubsetSize(fewer.Keys, conns.Keys);
    assert |fewer.Keys| == |fewer| && |conns.Keys| == |conns|;
  }

  // ---------------------------------------------------------------- the invariant

  /** A connection within its bounds: it buffers in one place at a time. */
  ghost predicate ConnOk(conn: Conn, c: ConnId, channels: Channels, limits: Limits) {
    && |conn.pending| <= limits.buffer
    && (conn.bootstrapping ==> c in channels ==> channels[c] == [])
    && (!conn.bootstrapping ==> conn.pending == [])
  }

  ghost predicate ConnsOk(conns: Conns, channels: Channels, limits: Limits) {
    && |conns| <= limits.perUser
    && (limits.perUser >= 1 ==> conns != map[])
    && forall c | c in conns :: ConnOk(conns[c], c, channels, limits)
  }

  ghost predicate ChannelsOk(channels: Channels, limits: Limits) {
    forall c | c in channels :: |channels[c]| <= limits.buffer
  }

  /** No connection belongs to two users. */
  ghost predicate Separate(users: Users) {
    forall u, v | u in users && v in users && u != v :: users[u].Keys !! users[v].Keys
  }

  ghost predicate Bounded(users: Users, channels: Channels, limits: Limits) {
    && (forall u | u in users :: ConnsOk(users[u], channels, limits))
    && ChannelsOk(channels, limits)
    && Separate(users)
  }

  lemma DropKeepsBounds(users: Users, channels: Channels, limits: Limits, user: UserId, ids: set<ConnId>)
    requires Bounded(users, channels, limits)
    ensures Bounded(Dropped(users, user, ids), channels, limits)
  {
    if user in users {
      FewerConns(users[user], users[user] - ids);
    }
  }

  lemma DropLowersTotal(users: Users, user: UserId, ids: set<ConnId>)
    ensures TotalConnections(Dropped(users, user, ids)) <= TotalConnections(users)
  {
    if user in users {
      FewerConns(users[user], users[user] - ids);
      TotalAfterUpdate(users, user, users[user] - ids);
    }
  }

  lemma CollectKeepsBounds(users: Users, channels: Channels, limits: Limits, user: UserId, payload: Message)
    requires Bounded(users, channels, limits)
    ensures Bounded(Collected(users, user, payload, limits.buffer), channels, limits)
  {
    if user in users {
      var conns := CollectedConns(users[user], payload, limits.buffer);
      FewerConns(users[user], conns);
    }
  }

  lemma CollectLowersTotal(users: Users, user: UserId, payload: Message, buffer: nat)
    ensures TotalConnections(Collected(users, user, payload, buffer)) <= TotalConnections(users)
  {
    if user in users {
      var conns := CollectedConns(users[user], payload, buffer);
      FewerConns(users[user], conns);
      TotalAfterUpdate(users, user, conns);
    }
  }

  lemma SentKeepsBounds(users: Users, channels: Channels, limits: Limits, user: UserId, live: set<ConnId>,
          payload: Message)
    requires Bounded(users, channels, limits)
    requires LiveTargets(users, user, live)
    ensures Bounded(users, Delivered(channels, live, payload, limits.buffer), limits)
  {
  }

  /** The targets of a fan-out are the user's, and live. */
  ghost predicate LiveTargets(users: Users, user: UserId, live: set<ConnId>) {
    && (forall c | c in live && c in ConnsOf(users, user) :: !users[user][c].bootstrapping)
    && (forall u | u in users && u != user :: users[u].Keys !! live)
  }

  lemma LiveAfterCollect(users: Users, channels: Channels, limits: Limits, user: UserId, payload: Message)
    requires Bounded(users, channels, limits)
    ensures LiveTargets(Collected(users, user, payload, limits.buffer), user, LiveOf(ConnsOf(users, user)))
  {
  }

  lemma DropNothing(users: Users, user: UserId)
    requires user in users ==> users[user] != map[]
    ensures Dropped(users, user, {}) == users
  {
    if user in users {
      assert users[user] - {} == users[user];
    }
  }

  lemma RegisterKeepsBounds(users: Users, channels: Channels, limits: Limits, user: UserId, c: ConnId)
    requires Bounded(users, channels, limits) && |ConnsOf(users, user)| < limits.perUser
    requires c !in channels && forall u | u in users :: c !in users[u]
    ensures Bounded(Registered(users, user, c), channels[c := []], limits)
  {
    var conns := ConnsOf(users, user)[c := Conn(true, [])];
    assert |conns| == |ConnsOf(users, user)| + 1;
    assert c in conns;
    var after := Registered(users, user, c);
    forall u | u in after && u != user ensures ConnsOk(after[u], channels[c := []], limits) {
      assert after[u] == users[u] && ConnsOk(users[u], channels, limits);
    }
    assert ConnsOk(conns, channels[c := []], limits) by {
      assert user in users ==> ConnsOk(users[user], channels, limits);
    }
  }

  lemma RegisterAddsOne(users: Users, user: UserId, c: ConnId)
    requires c !in ConnsOf(users, user)
    ensures TotalConnections(Registered(users, user, c)) == TotalConnections(users) + 1
  {
    TotalAfterUpdate(users, user, ConnsOf(users, user)[c := Conn(true, [])]);
  }

  /** What a refused registration leaves behind. */
  lemma RefusedEntry(users: Users, channels: Channels, limits: Limits, user: UserId)
    requires Bounded(users, channels, limits) && |ConnsOf(users, user)| >= limits.perUser
    ensures var after := users[user := ConnsOf(users, user)];
            && after == (if limits.perUser == 0 then users[user := map[]] else users)
            && Bounded(after, channels, limits)
            && TotalConnections(after) == TotalConnections(users)
  {
    TotalAfterUpdate(users, user, ConnsOf(users, user));
    if user in users {
      assert ConnsOk(users[user], channels, limits);
      assert users[user := users[user]] == users;
      assert limits.perUser == 0 ==> |users[user].Keys| == |users[user]| == 0;
      assert limits.perUser == 0 ==> users[user].Keys == {};
    }
  }

  lemma MarkKeepsBounds(users: Users, channels: Channels, limits: Limits, user: UserId, c: ConnId)
    requires Bounded(users, channels, limits)
    ensures Bounded(MarkedLive(users, user, c), channels, limits)
  {
    if c in ConnsOf(users, user) {
      var conns: Conns := users[user][c := Conn(false, [])];
      assert conns.Keys == users[user].Keys;
      assert ConnsOk(conns, channels, limits);
    }
  }

  lemma MarkKeepsTotal(users: Users, user: UserId, c: ConnId)
    ensures TotalConnections(MarkedLive(users, user, c)) == TotalConnections(users)
  {
    if c in ConnsOf(users, user) {
      var conns: Conns := users[user][c := Conn(false, [])];
      assert conns.Keys == users[user].Keys;
      assert |conns| == |conns.Keys| && |users[user]| == |users[user].Keys|;
      TotalAfterUpdate(users, user, conns);
    }
  }
}
