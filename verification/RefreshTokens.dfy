/** The token store of AuthService: rotation inside a transaction, for every user. */
module RefreshTokens {
  import opened Common
  import opened TokenRotation

  type UserId = int

  ghost predicate AllOk(tokens: map<UserId, Rows>, next: nat) {
    forall u | u in tokens :: Ok(State(tokens[u], next))
  }

  lemma StoreKeepsAllOk(tokens: map<UserId, Rows>, next: nat, user: UserId, s: State)
    requires AllOk(tokens, next) && Ok(s) && next <= s.next
    ensures AllOk(tokens[user := s.rows], s.next)
  {
    forall u | u in tokens && u != user ensures Ok(State(tokens[u], s.next)) {
      OkGrows(tokens[u], next, s.next);
    }
    assert s == State(s.rows, s.next);
  }

  lemma IssueStores(tokens: map<UserId, Rows>, user: UserId, next: nat, expiresAt: Instant, rows: Rows)
    requires AllOk(tokens, next)
    requires rows == (if user in tokens then tokens[user] else []) + [Token(next, next, expiresAt, None, None)]
    ensures AllOk(tokens[user := rows], next + 1)
    ensures Apply(State(if user in tokens then tokens[user] else [], next), Issue(expiresAt)).0 == State(rows, next + 1)
  {
    var s := State(if user in tokens then tokens[user] else [], next);
    ApplyKeepsOk(s, Issue(expiresAt));
    StoreKeepsAllOk(tokens, next, user, Apply(s, Issue(expiresAt)).0);
  }

  lemma RefreshStores(tokens: map<UserId, Rows>, user: UserId, next: nat, raw: nat, at: Readings, lifetime: int)
    requires AllOk(tokens, next)
    ensures var s := State(if user in tokens then tokens[user] else [], next);
            var (s', outcome) := Apply(s, Refresh(raw, at, lifetime));
            && AllOk(tokens[user := s'.rows], s'.next)
            && s'.next == if outcome.value.Issued? then next + 1 else next
  {
    var s := State(if user in tokens then tokens[user] else [], next);
    ApplyKeepsOk(s, Refresh(raw, at, lifetime));
    StoreKeepsAllOk(tokens, next, user, Apply(s, Refresh(raw, at, lifetime)).0);
  }

  // ---------------------------------------------------------------- all users

  datatype Store = Store(tokens: map<UserId, Rows>, next: nat)

  function RowsIn(store: Store, user: UserId): Rows {
    if user in store.tokens then store.tokens[user] else []
  }

  /** One user's transaction on the whole store. */
  function Applied(store: Store, user: UserId, op: Op): Store {
    var s := Apply(State(RowsIn(store, user), store.next), op).0;
    Store(store.tokens[user := s.rows], s.next)
  }

  function StoreAfter(store: Store, ops: seq<(UserId, Op)>): Store {
    if ops == [] then store
    else
      var n := |ops| - 1;
      Applied(StoreAfter(store, ops[..n]), ops[n].0, ops[n].1)
  }

  /** A run of the store as one of its users sees it. */
  function SeenBy(store: Store, ops: seq<(UserId, Op)>, user: UserId): seq<Op> {
    if ops == [] then []
    else
      var n := |ops| - 1;
      var prior := StoreAfter(store, ops[..n]);
      SeenBy(store, ops[..n], user)
      + [if ops[n].0 == user then ops[n].1 else Elsewhere(Applied(prior, ops[n].0, ops[n].1).next - prior.next)]
  }

  /** Transactions of all users look to each of them like a run of its own, so what holds
      of such runs holds of the store. */
  lemma {:induction false} StoreRunsAreUserRuns(store: Store, ops: seq<(UserId, Op)>, user: UserId)
    ensures After(State(RowsIn(store, user), store.next), SeenBy(store, ops, user))
            == State(RowsIn(StoreAfter(store, ops), user), StoreAfter(store, ops).next)
  {
    if ops != [] {
      var n := |ops| - 1;
      StoreRunsAreUserRuns(store, ops[..n], user);
      var seen := SeenBy(store, ops, user);
      assert seen[..|seen| - 1] == SeenBy(store, ops[..n], user);
    }
  }

  /** In every run of the store from empty, every user has as many unreplaced tokens as
      live chains. */
  lemma StoreConservesChains(next: nat, ops: seq<(UserId, Op)>, user: UserId)
    ensures Unreplaced(RowsIn(StoreAfter(Store(map[], next), ops), user))
            == Chains(State([], next), SeenBy(Store(map[], next), ops, user))
  {
    StoreRunsAreUserRuns(Store(map[], next), ops, user);
    UnreplacedCountsChains(next, SeenBy(Store(map[], next), ops, user));
  }

  /** In every run of the store from empty, a refresh answers as its user's history says: the
      token must have been handed out to the user, not wiped since and not expired, and if a
      refresh has replaced it, that was less than thirty seconds ago. */
  lemma StoreAnswersFollowHistory(next: nat, ops: seq<(UserId, Op)>, user: UserId, raw: nat, at: Readings,
          lifetime: int)
    ensures var seen := SeenBy(Store(map[], next), ops, user);
            var expiry, replaced := ExpiryOf(State([], next), seen, raw), ReplacedAt(State([], next), seen, raw);
            var store := StoreAfter(Store(map[], next), ops);
            Apply(State(RowsIn(store, user), store.next), Refresh(raw, at, lifetime)).1 == Some(
              if expiry.None? || expiry.value < at.checked then InvalidOrExpired
              else if replaced.Some? && at.graced - replaced.value >= GRACE_NANOS then ReuseDetected
              else Issued(store.next))
  {
    var seen := SeenBy(Store(map[], next), ops, user);
    StoreRunsAreUserRuns(Store(map[], next), ops, user);
    AnswerFollowsHistory(next, seen, raw, at, lifetime);
    var all := seen + [Refresh(raw, at, lifetime)];
    assert all[..|all| - 1] == seen;
  }

  // ---------------------------------------------------------------- deleting expired rows

  function Without(rows: Rows, id: nat): (r: Rows)
    ensures forall token :: token in r <==> token in rows && token.id != id
  {
    if rows == [] then []
    else
      var n := |rows| - 1;
      assert rows == rows[..n] + [rows[n]];
      Without(rows[..n], id) + if rows[n].id == id then [] else [rows[n]]
  }

  /** One of the first `n` rows has the secret and this row's id. */
  ghost predicate Matched(rows: Rows, raw: nat, n: nat, id: nat)
    requires n <= |rows|
  {
    exists k | 0 <= k < n :: rows[k].secret == raw && rows[k].id == id
  }

  /** `txn` is `rows` without the matching rows among the first `n`. */
  ghost predicate Purged(rows: Rows, raw: nat, n: nat, txn: Rows)
    requires n <= |rows|
  {
    forall token :: token in txn <==> token in rows && !Matched(rows, raw, n, token.id)
  }

  lemma PurgeOneMore(rows: Rows, raw: nat, i: nat, txn: Rows)
    requires i < |rows| && Purged(rows, raw, i, txn)
    ensures if rows[i].secret == raw then Purged(rows, raw, i + 1, Without(txn, rows[i].id))
          else Purged(rows, raw, i + 1, txn)
  {
    forall id
      ensures Matched(rows, raw, i + 1, id) <==>
                Matched(rows, raw, i, id) || (rows[i].secret == raw && rows[i].id == id)
    {
      if Matched(rows, raw, i, id) {
        var k :| 0 <= k < i && rows[k].secret == raw && rows[k].id == id;
      }
    }
  }

  /** Secrets do not repeat, so the row found is the row with the secret. */
  lemma MatchIsFound(rows: Rows, next: nat, raw: nat, i: nat)
    requires Ok(State(rows, next)) && i < |rows| && rows[i].secret == raw
    ensures Find(rows, raw) == Some(i)
    ensures forall k | 0 <= k < |rows| && rows[k].secret == raw :: k == i
  {
    var s := State(rows, next);
    assert forall k, l | 0 <= k < l < |s.rows| :: s.rows[k].secret != s.rows[l].secret;
  }

  class AuthStore {
    const lifetime: int
    var now: Instant
    var tokens: map<UserId, Rows>
    var next: nat

    function RowsOf(user: UserId): Rows
      reads this`tokens
    {
      if user in tokens then tokens[user] else []
    }

    ghost predicate Valid()
      reads this
    {
      AllOk(tokens, next)
    }

    constructor (lifetime: int, start: Instant)
      ensures Valid() && this.lifetime == lifetime && now == start && tokens == map[]
    {
      this.lifetime := lifetime;
      now, tokens, next := start, map[], 0;
    }

    method ReadClock() returns (t: Instant)
      modifies this`now
      ensures old(now) <= t == now
    {
      var passed: nat :| true;
      now := now + passed;
      t := now;
    }

    method IssueTokens(user: UserId) returns (secret: nat, ghost at: Instant)
      requires Valid()
      modifies this`now, this`tokens, this`next
      ensures Valid() && old(now) <= at <= now && secret == old(next)
      ensures var s := Apply(State(old(RowsOf(user)), old(next)), Issue(at + lifetime)).0;
              tokens == old(tokens)[user := s.rows] && next == s.next
      ensures RowsOf(user) == old(RowsOf(user)) + [Token(secret, secret, at + lifetime, None, None)]
    {
      secret := next;
      var issuedAt := ReadClock();
      at := issuedAt;
      var rows := RowsOf(user) + [Token(secret, secret, issuedAt + lifetime, None, None)];
      IssueStores(tokens, user, next, issuedAt + lifetime, rows);
      next := next + 1;
      tokens := tokens[user := rows];
    }

    /** The loop over the user's rows: it finds the first matching row that has not
        expired, and the transaction's copy loses exactly the expired ones before it. */
    method Match(rows: Rows, raw: nat) returns (txn: Rows, matching: Option<nat>, ghost checked: Instant)
      modifies this`now
      ensures old(now) <= checked <= now
      ensures matching.Some? ==>
                matching.value < |rows| && rows[matching.value].secret == raw
                      && rows[matching.value].expiresAt >= checked
      ensures var n := if matching.Some? then matching.value else |rows|;
              && (forall k | 0 <= k < n && rows[k].secret == raw :: rows[k].expiresAt < checked)
              && Purged(rows, raw, n, txn)
              && ((forall k | 0 <= k < n :: rows[k].secret != raw) ==> txn == rows)
    {
      txn, matching, checked := rows, None, now;
      var i := 0;
      while i < |rows|
        invariant 0 <= i <= |rows| && old(now) <= checked <= now
        invariant forall k | 0 <= k < i && rows[k].secret == raw :: rows[k].expiresAt < checked
        invariant Purged(rows, raw, i, txn)
        invariant (forall k | 0 <= k < i :: rows[k].secret != raw) ==> txn == rows
      {
        PurgeOneMore(rows, raw, i, txn);
        if rows[i].secret == raw {
          var t := ReadClock();
          checked := t;
          if rows[i].expiresAt < t {
            txn := Without(txn, rows[i].id);
          } else {
            matching := Some(i);
            return;
          }
        }
        i := i + 1;
      }
    }

    /** With distinct secrets, the loop decides about the one row that has the secret. */
    method MatchOne(rows: Rows, raw: nat) returns (txn: Rows, matching: Option<nat>, ghost checked: Instant)
      requires Ok(State(rows, next))
      modifies this`now
      ensures old(now) <= checked <= now
      ensures matching == (var i := Find(rows, raw); if i.Some? && rows[i.value].expiresAt >= checked then i else None)
      ensures matching.Some? ==> txn == rows
    {
      txn, matching, checked := Match(rows, raw);
      if matching.Some? {
        MatchIsFound(rows, next, raw, matching.value);
      }
    }

    /** What the transaction commits for the user, if it commits. */
    method Rotate(rows: Rows, raw: nat) returns (txn: Rows, outcome: Outcome, ghost at: Readings)
      requires Ok(State(rows, next))
      modifies this`now
      ensures old(now) <= at.checked <= at.graced <= at.stamped <= at.replaced <= now
      ensures var (s, o) := Apply(State(rows, next), TokenRotation.Refresh(raw, at, lifetime));
              o == Some(outcome) && (!outcome.InvalidOrExpired? ==> s.rows == txn)
    {
      var matching;
      ghost var checked, graced;
      txn, matching, checked := MatchOne(rows, raw);
      if matching.None? {
        at := Readings(checked, now, now, now);
        return txn, InvalidOrExpired, at;
      }
      var stolen;
      stolen, graced := Reused(txn[matching.value]);
      if stolen {
        at := Readings(checked, graced, graced, graced);
        return [], ReuseDetected, at;
      }
      ghost var stamped, replaced;
      txn, stamped, replaced := Replace(txn, matching.value);
      at := Readings(checked, graced, stamped, replaced);
      outcome := Issued(next);
    }

    /** Whether the token was replaced before the grace period. */
    method Reused(token: Token) returns (stolen: bool, ghost graced: Instant)
      modifies this`now
      ensures old(now) <= graced == now
      ensures stolen <==> token.replacedAt.Some? && !InGrace(token, graced)
    {
      graced := now;
      stolen := false;
      if token.replacedAt.Some? {
        var t := ReadClock();
        graced := t;
        stolen := NumSeconds(t - token.replacedAt.value) >= GRACE_SECS;
      }
    }

    /** Inserts the successor and marks the token replaced, unless it was before. */
    method Replace(rows: Rows, i: nat) returns (txn: Rows, ghost stamped: Instant, ghost replaced: Instant)
      requires i < |rows|
      modifies this`now
      ensures old(now) <= stamped <= replaced <= now
      ensures txn == Rotated(rows, i, Token(next, next, stamped + lifetime, None, None), replaced)
      ensures |txn| == |rows| + 1 && txn[|rows|] == Token(next, next, stamped + lifetime, None, None)
      ensures txn[i] == if rows[i].replacedBy.Some? then rows[i]
                        else rows[i].(replacedBy := Some(next), replacedAt := Some(replaced))
      ensures forall k | 0 <= k < |rows| && k != i :: txn[k] == rows[k]
    {
      var stampedAt := ReadClock();
      stamped, replaced := stampedAt, stampedAt;
      txn := rows + [Token(next, next, stampedAt + lifetime, None, None)];
      if rows[i].replacedBy.None? {
        var replacedAt := ReadClock();
        replaced := replacedAt;
        txn := txn[i := rows[i].(replacedBy := Some(next), replacedAt := Some(replacedAt))];
      }
    }

    /** The rows change exactly as the rotation rules say, or, when the refresh fails
        without detecting a reuse, not at all: the deletion of an expired row is part of
        the transaction that the failure abandons. */
    method Refresh(user: UserId, raw: nat) returns (outcome: Outcome, ghost at: Readings)
      requires Valid()
      modifies this`now, this`tokens, this`next
      ensures Valid()
      ensures old(now) <= at.checked <= at.graced <= at.stamped <= at.replaced <= now
      ensures var (s, o) := Apply(State(old(RowsOf(user)), old(next)), TokenRotation.Refresh(raw, at, lifetime));
              && o == Some(outcome)
              && tokens == (if outcome.InvalidOrExpired? then old(tokens) else old(tokens)[user := s.rows])
              && next == s.next
    {
      ghost var s0 := State(RowsOf(user), next);
      assert Ok(s0);
      var txn;
      txn, outcome, at := Rotate(RowsOf(user), raw);
      RefreshStores(tokens, user, next, raw, at, lifetime);
      if outcome.Issued? {
        next := next + 1;
      }
      if !outcome.InvalidOrExpired? {
        tokens := tokens[user := txn];
      }
    }

    /** Every token of the user is refused from now on, and no other user notices. */
    method LogoutAll(user: UserId)
      requires Valid()
      modifies this`tokens
      ensures Valid()
      ensures forall raw, at, l ::
            Apply(State(RowsOf(user), next), TokenRotation.Refresh(raw, at, l)).1 == Some(InvalidOrExpired)
      ensures forall u | u != user :: RowsOf(u) == old(RowsOf(u))
    {
      tokens := tokens[user := []];
    }
  }
}
