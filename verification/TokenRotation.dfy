/**
 * Refresh-token rotation of one user, one transaction at a time
 * (src/api/src/auth/service.rs). A user's rows are a sequence in insertion order.
 * Row ids and token secrets are random in the program; here both are drawn from a
 * counter that all users share, so they never repeat, and a hash matches exactly its own
 * secret.
 */
module TokenRotation {
  import opened Common

  datatype Token = Token(
    id: nat, secret: nat, expiresAt: Instant,
    replacedBy: Option<nat>, replacedAt: Option<Instant>)

  type Rows = seq<Token>

  const GRACE_SECS: int := 30

  /** The outcome of a refresh, with what the caller gets. */
  datatype Outcome = Issued(secret: nat) | InvalidOrExpired | ReuseDetected

  /** The clock readings of one refresh, in the order the code takes them. */
  datatype Readings = Readings(checked: Instant, graced: Instant, stamped: Instant, replaced: Instant)

  datatype State = State(rows: Rows, next: nat)

  /** `Elsewhere` is what other users' transactions do: they draw secrets. */
  datatype Op =
    | Issue(expiresAt: Instant)
    | Refresh(raw: nat, at: Readings, lifetime: int)
    | LogoutAll
    | Elsewhere(drawn: nat)

  // ---------------------------------------------------------------- one transaction

  function Find(rows: Rows, raw: nat): (r: Option<nat>)
    ensures r.None? <==> forall i | 0 <= i < |rows| :: rows[i].secret != raw
    ensures r.Some? ==> r.value < |rows| && rows[r.value].secret == raw
  {
    if rows == [] then None
    else if rows[|rows| - 1].secret == raw then Some(|rows| - 1)
    else Find(rows[..|rows| - 1], raw)
  }

  predicate InGrace(token: Token, now: Instant) {
    token.replacedAt.Some? && NumSeconds(now - token.replacedAt.value) < GRACE_SECS
  }

  /** Insert the successor, and mark the token replaced unless it already was. */
  function Rotated(rows: Rows, i: nat, successor: Token, at: Instant): Rows
    requires i < |rows|
  {
    if rows[i].replacedBy.None?
    then rows[i := rows[i].(replacedBy := Some(successor.id), replacedAt := Some(at))] + [successor]
    else rows + [successor]
  }

  function Apply(s: State, op: Op): (r: (State, Option<Outcome>))
    ensures r.0.next >= s.next
  {
    match op
    case Elsewhere(drawn) => (State(s.rows, s.next + drawn), None)
    case Issue(expiresAt) => (State(s.rows + [Token(s.next, s.next, expiresAt, None, None)], s.next + 1), None)
    case LogoutAll => (State([], s.next), None)
    case Refresh(raw, at, lifetime) =>
      var i := Find(s.rows, raw);
      if i.None? || s.rows[i.value].expiresAt < at.checked then (s, Some(InvalidOrExpired))
      else if s.rows[i.value].replacedAt.Some? && !InGrace(s.rows[i.value], at.graced) then
        (State([], s.next), Some(ReuseDetected))
      else
        var successor := Token(s.next, s.next, at.stamped + lifetime, None, None);
        (State(Rotated(s.rows, i.value, successor, at.replaced), s.next + 1), Some(Issued(s.next)))
  }

  /** The rows at any moment: fresh secrets and ids, both replacement columns set
      together, and every link pointing to a row inserted later. */
  ghost predicate Ok(s: State) {
    && (forall i | 0 <= i < |s.rows| :: s.rows[i].id < s.next && s.rows[i].secret < s.next)
    && (forall i, j | 0 <= i < j < |s.rows| :: s.rows[i].id != s.rows[j].id && s.rows[i].secret != s.rows[j].secret)
    && (forall i | 0 <= i < |s.rows| :: s.rows[i].replacedBy.Some? <==> s.rows[i].replacedAt.Some?)
    && (forall i | 0 <= i < |s.rows| && s.rows[i].replacedBy.Some? :: LinksForward(s.rows, i))
  }

  ghost predicate LinksForward(rows: Rows, i: nat)
    requires i < |rows| && rows[i].replacedBy.Some?
  {
    exists j | i < j < |rows| :: rows[j].id == rows[i].replacedBy.value
  }

  lemma AppendKeepsOk(s: State, token: Token)
    requires Ok(s) && token.id == token.secret == s.next && token.replacedBy.None? && token.replacedAt.None?
    ensures Ok(State(s.rows + [token], s.next + 1))
  {
    var rows := s.rows + [token];
    forall k | 0 <= k < |rows| && rows[k].replacedBy.Some? ensures LinksForward(rows, k) {
      assert LinksForward(s.rows, k);
      var j :| k < j < |s.rows| && s.rows[j].id == s.rows[k].replacedBy.value;
      assert rows[j] == s.rows[j];
    }
  }

  lemma MarkKeepsOk(s: State, i: nat, successor: nat, at: Instant)
    requires Ok(s) && i < |s.rows| && s.rows[i].replacedBy.None?
    requires i + 1 < |s.rows| && s.rows[|s.rows| - 1].id == successor
    ensures Ok(s.(rows := s.rows[i := s.rows[i].(replacedBy := Some(successor), replacedAt := Some(at))]))
  {
    var rows := s.rows[i := s.rows[i].(replacedBy := Some(successor), replacedAt := Some(at))];
    forall k | 0 <= k < |rows| && rows[k].replacedBy.Some? ensures LinksForward(rows, k) {
      if k == i {
        assert rows[|rows| - 1].id == successor;
      } else {
        assert LinksForward(s.rows, k);
        var j :| k < j < |s.rows| && s.rows[j].id == s.rows[k].replacedBy.value;
        assert rows[j].id == s.rows[j].id;
      }
    }
  }

  lemma RotatedKeepsOk(s: State, i: nat, successor: Token, at: Instant)
    requires Ok(s) && i < |s.rows|
    requires successor.id == successor.secret == s.next && successor.replacedBy.None? && successor.replacedAt.None?
    ensures Ok(State(Rotated(s.rows, i, successor, at), s.next + 1))
  {
    AppendKeepsOk(s, successor);
    if s.rows[i].replacedBy.None? {
      var marked := s.rows[i].(replacedBy := Some(s.next), replacedAt := Some(at));
      assert (s.rows + [successor])[i] == s.rows[i];
      MarkKeepsOk(State(s.rows + [successor], s.next + 1), i, s.next, at);
      assert (s.rows + [successor])[i := marked] == s.rows[i := marked] + [successor];
    }
  }

  lemma ApplyKeepsOk(s: State, op: Op)
    requires Ok(s)
    ensures Ok(Apply(s, op).0) && s.next <= Apply(s, op).0.next
  {
    match op
    case Issue(expiresAt) => AppendKeepsOk(s, Token(s.next, s.next, expiresAt, None, None));
    case LogoutAll =>
    case Elsewhere(drawn) => OkGrows(s.rows, s.next, s.next + drawn);
    case Refresh(raw, at, lifetime) =>
      if Apply(s, op).1.value.Issued? {
        var i, successor := Find(s.rows, raw).value, Token(s.next, s.next, at.stamped + lifetime, None, None);
        assert Apply(s, op).0 == State(Rotated(s.rows, i, successor, at.replaced), s.next + 1);
        RotatedKeepsOk(s, i, successor, at.replaced);
      } else {
        assert Apply(s, op).0 == s || Apply(s, op).0 == State([], s.next);
      }
  }

  lemma OkGrows(rows: Rows, next: nat, later: nat)
    requires Ok(State(rows, next)) && next <= later
    ensures Ok(State(rows, later))
  {
    var s, s' := State(rows, next), State(rows, later);
    assert s'.rows == s.rows;
  }

  // ---------------------------------------------------------------- acceptance

  /** Present, unexpired, and never replaced or replaced less than 30 s ago. */
  ghost predicate Accepted(rows: Rows, raw: nat, at: Readings) {
    exists i | 0 <= i < |rows| ::
      && rows[i].secret == raw
      && rows[i].expiresAt >= at.checked
      && (rows[i].replacedAt.Some? ==> at.graced - rows[i].replacedAt.value < Seconds(GRACE_SECS))
  }

  /** Present and unexpired, but replaced 30 s ago or more. */
  ghost predicate Stolen(rows: Rows, raw: nat, at: Readings) {
    exists i | 0 <= i < |rows| ::
      && rows[i].secret == raw
      && rows[i].expiresAt >= at.checked
      && rows[i].replacedAt.Some? && at.graced - rows[i].replacedAt.value >= Seconds(GRACE_SECS)
  }

  /** Which of the three answers a refresh gets, and what it does to the rows. */
  lemma RefreshDecides(s: State, raw: nat, at: Readings, lifetime: int)
    requires Ok(s)
    ensures var (s', outcome) := Apply(s, Refresh(raw, at, lifetime));
            && outcome.Some?
            && (outcome.value.Issued? <==> Accepted(s.rows, raw, at))
            && (outcome.value == ReuseDetected <==> Stolen(s.rows, raw, at))
            && (outcome.value == ReuseDetected ==> s'.rows == [])
            && (outcome.value == InvalidOrExpired ==> s' == s)
            && (outcome.value.Issued? ==> |s'.rows| == |s.rows| + 1 && s'.rows[|s.rows|].secret == outcome.value.secret
                                          && forall k | 0 <= k < |s.rows| :: s.rows[k].secret != outcome.value.secret)
  {
    var i := Find(s.rows, raw);
    if i.Some? {
      var token := s.rows[i.value];
      assert forall k | 0 <= k < |s.rows| && s.rows[k].secret == raw :: k == i.value;
      if token.replacedAt.Some? {
        assert InGrace(token, at.graced) <==> at.graced - token.replacedAt.value < Seconds(GRACE_SECS);
      }
    }
  }

  /** Rows never move, and a replacement, once recorded, is never rewritten; only a
      wipe ends it. */
  lemma ReplacementIsRecordedOnce(s: State, op: Op, k: nat)
    requires Ok(s) && k < |s.rows|
    ensures var s' := Apply(s, op).0;
            || s'.rows == []
            || (&& k < |s'.rows|
                && s'.rows[k].id == s.rows[k].id && s'.rows[k].secret == s.rows[k].secret
                && s'.rows[k].expiresAt == s.rows[k].expiresAt
                && (s.rows[k].replacedAt.Some? ==> s'.rows[k] == s.rows[k]))
  {
  }

  // ---------------------------------------------------------------- runs

  function After(s: State, ops: seq<Op>): State {
    if ops == [] then s else Apply(After(s, ops[..|ops| - 1]), ops[|ops| - 1]).0
  }

  /** What the last operation of a run answered. */
  function LastOutcome(s: State, ops: seq<Op>): Option<Outcome>
    requires ops != []
  {
    Apply(After(s, ops[..|ops| - 1]), ops[|ops| - 1]).1
  }

  lemma {:induction false} RunKeepsOk(s: State, ops: seq<Op>)
    requires Ok(s)
    ensures Ok(After(s, ops)) && s.next <= After(s, ops).next
  {
    if ops != [] {
      RunKeepsOk(s, ops[..|ops| - 1]);
      ApplyKeepsOk(After(s, ops[..|ops| - 1]), ops[|ops| - 1]);
    }
  }

  function Unreplaced(rows: Rows): nat {
    if rows == [] then 0
    else Unreplaced(rows[..|rows| - 1]) + if rows[|rows| - 1].replacedBy.None? then 1 else 0
  }

  lemma {:induction false} UnreplacedAfterMark(rows: Rows, i: nat, token: Token)
    requires i < |rows| && rows[i].replacedBy.None? && token.replacedBy.Some?
    ensures Unreplaced(rows) == Unreplaced(rows[i := token]) + 1
  {
    var n := |rows| - 1;
    if i == n {
      assert rows[i := token][..n] == rows[..n];
    } else {
      UnreplacedAfterMark(rows[..n], i, token);
      assert rows[i := token][..n] == rows[..n][i := token];
    }
  }

  /** A refresh that reuses a replaced token within the grace period. */
  predicate Forks(s: State, op: Op) {
    op.Refresh? && Apply(s, op).1.value.Issued? && s.rows[Find(s.rows, op.raw).value].replacedAt.Some?
  }

  predicate Wipes(s: State, op: Op) {
    op.LogoutAll? || Apply(s, op).1 == Some(ReuseDetected)
  }

  lemma UnreplacedAfterApply(s: State, op: Op)
    requires Ok(s)
    ensures Unreplaced(Apply(s, op).0.rows) ==
            if Wipes(s, op) then 0 else Unreplaced(s.rows) + if op.Issue? || Forks(s, op) then 1 else 0
  {
    var after := Apply(s, op).0.rows;
    if |after| > |s.rows| {
      var marked := after[..|s.rows|];
      assert after == marked + [after[|s.rows|]];
      if op.Refresh? && !Forks(s, op) {
        var i := Find(s.rows, op.raw).value;
        UnreplacedAfterMark(s.rows, i, marked[i]);
        assert marked == s.rows[i := marked[i]];
      } else {
        assert marked == s.rows;
      }
    }
  }

  /** The live chains of a run: logins, plus refreshes that forked a chain within the
      grace period, since the rows were last wiped. */
  function Chains(s: State, ops: seq<Op>): nat {
    if ops == [] then 0
    else
      var before, op := ops[..|ops| - 1], ops[|ops| - 1];
      var prior := After(s, before);
      if Wipes(prior, op) then 0
      else Chains(s, before) + if op.Issue? || Forks(prior, op) then 1 else 0
  }

  /** Rotation conserves chains: each has exactly one unreplaced token. */
  lemma {:induction false} UnreplacedCountsChains(next: nat, ops: seq<Op>)
    ensures Unreplaced(After(State([], next), ops).rows) == Chains(State([], next), ops)
  {
    var s := State([], next);
    if ops != [] {
      var before := ops[..|ops| - 1];
      UnreplacedCountsChains(next, before);
      RunKeepsOk(s, before);
      UnreplacedAfterApply(After(s, before), ops[|ops| - 1]);
    }
  }

  /** Following the links from any token ends at an unreplaced one. */
  ghost function Tip(s: State, i: nat): (tip: nat)
    requires Ok(s) && i < |s.rows|
    ensures i <= tip < |s.rows| && s.rows[tip].replacedBy.None?
    ensures s.rows[i].replacedBy.Some? ==>
              exists j | i < j <= tip :: s.rows[j].id == s.rows[i].replacedBy.value
    decreases |s.rows| - i
  {
    if s.rows[i].replacedBy.None? then i
    else
      assert LinksForward(s.rows, i);
      var j :| i < j < |s.rows| && s.rows[j].id == s.rows[i].replacedBy.value;
      Tip(s, j)
  }

  ghost predicate Unknown(rows: Rows, raw: nat) {
    forall i | 0 <= i < |rows| :: rows[i].secret != raw
  }

  lemma ForgottenIsNotDrawn(s: State, op: Op, raw: nat)
    requires Ok(s) && raw < s.next && Unknown(s.rows, raw)
    ensures Unknown(Apply(s, op).0.rows, raw)
  {
  }

  /** A secret drawn already and no longer stored is never stored again. */
  lemma {:induction false} ForgottenStaysForgotten(s: State, ops: seq<Op>, raw: nat)
    requires Ok(s) && raw < s.next && Unknown(s.rows, raw)
    ensures Unknown(After(s, ops).rows, raw)
  {
    if ops != [] {
      ForgottenStaysForgotten(s, ops[..|ops| - 1], raw);
      RunKeepsOk(s, ops[..|ops| - 1]);
      ForgottenIsNotDrawn(After(s, ops[..|ops| - 1]), ops[|ops| - 1], raw);
    }
  }

  lemma {:induction false} AfterConcat(s: State, first: seq<Op>, second: seq<Op>)
    ensures After(s, first + second) == After(After(s, first), second)
  {
    if second == [] {
      assert first + second == first;
    } else {
      var n := |first + second| - 1;
      assert (first + second)[..n] == first + second[..|second| - 1];
      AfterConcat(s, first, second[..|second| - 1]);
    }
  }

  lemma UnknownIsRefused(s: State, raw: nat, at: Readings, lifetime: int)
    requires Unknown(s.rows, raw)
    ensures Apply(s, Refresh(raw, at, lifetime)).1 == Some(InvalidOrExpired)
  {
  }

  lemma WipedIsUnknown(s: State, op: Op, raw: nat)
    requires Ok(s) && Wipes(s, op)
    ensures Unknown(Apply(s, op).0.rows, raw)
  {
  }

  /** Once a user's rows were wiped, every token handed out before, to anyone, is refused
      to that user for good. */
  lemma WipeRevokesEverything(next: nat, first: seq<Op>, second: seq<Op>, raw: nat, at: Readings, lifetime: int)
    requires first != [] && Wipes(After(State([], next), first[..|first| - 1]), first[|first| - 1])
    requires raw < After(State([], next), first).next
    ensures LastOutcome(State([], next), first + second + [Refresh(raw, at, lifetime)]) == Some(InvalidOrExpired)
  {
    var s := State([], next);
    RunKeepsOk(s, first[..|first| - 1]);
    RunKeepsOk(s, first);
    WipedIsUnknown(After(s, first[..|first| - 1]), first[|first| - 1], raw);
    ForgottenStaysForgotten(After(s, first), second, raw);
    AfterConcat(s, first, second);
    UnknownIsRefused(After(s, first + second), raw, at, lifetime);
    var all := first + second + [Refresh(raw, at, lifetime)];
    assert all[..|all| - 1] == first + second;
  }

  /** So it is after a detected reuse. */
  lemma DetectionRevokesEverything(next: nat, first: seq<Op>, second: seq<Op>, raw: nat, at: Readings, lifetime: int)
    requires first != [] && LastOutcome(State([], next), first) == Some(ReuseDetected)
    requires raw < After(State([], next), first).next
    ensures LastOutcome(State([], next), first + second + [Refresh(raw, at, lifetime)]) == Some(InvalidOrExpired)
  {
    WipeRevokesEverything(next, first, second, raw, at, lifetime);
  }

  // ---------------------------------------------------------------- answers from history

  /** When the secret expires, read off the operations and their answers; no value if it was
      never handed out or was wiped. Secrets are numbered as they are drawn. */
  function ExpiryOf(s: State, ops: seq<Op>, raw: nat): Option<Instant> {
    if ops == [] then None
    else
      var before, op := ops[..|ops| - 1], ops[|ops| - 1];
      if op.LogoutAll? || LastOutcome(s, ops) == Some(ReuseDetected) then None
      else if op.Issue? && raw == After(s, before).next then Some(op.expiresAt)
      else if LastOutcome(s, ops) == Some(Issued(raw)) then Some(op.at.stamped + op.lifetime)
      else ExpiryOf(s, before, raw)
  }

  /** When the first refresh of the secret that issued tokens replaced it. */
  function ReplacedAt(s: State, ops: seq<Op>, raw: nat): Option<Instant> {
    if ops == [] then None
    else
      var before, op := ops[..|ops| - 1], ops[|ops| - 1];
      var earlier := ReplacedAt(s, before, raw);
      if earlier.None? && op.Refresh? && op.raw == raw && LastOutcome(s, ops).value.Issued? then Some(op.at.replaced)
      else earlier
  }

  /** The rows hold what the history says of the secret. */
  ghost predicate Recorded(rows: Rows, next: nat, raw: nat, expiry: Option<Instant>, replaced: Option<Instant>) {
    && (raw >= next ==> expiry.None? && replaced.None?)
    && (expiry.None? ==> Unknown(rows, raw))
    && (expiry.Some? ==> exists i | 0 <= i < |rows| ::
          rows[i].secret == raw && rows[i].expiresAt == expiry.value && rows[i].replacedAt == replaced)
  }

  /** One transaction changes what is recorded of a secret just as it changes its history. */
  lemma ApplyRecords(s: State, op: Op, raw: nat, expiry: Option<Instant>, replaced: Option<Instant>)
    requires Ok(s) && Recorded(s.rows, s.next, raw, expiry, replaced)
    ensures var (s', answer) := Apply(s, op);
            var expiry' :=
              if op.LogoutAll? || answer == Some(ReuseDetected) then None
              else if op.Issue? && raw == s.next then Some(op.expiresAt)
              else if answer == Some(Issued(raw)) then Some(op.at.stamped + op.lifetime)
              else expiry;
            var replaced' :=
              if replaced.None? && op.Refresh? && op.raw == raw && answer.value.Issued? then Some(op.at.replaced)
              else replaced;
            Recorded(s'.rows, s'.next, raw, expiry', replaced')
  {
    if expiry.Some? {
      ApplyKeepsRow(s, op, raw, expiry.value, replaced);
    }
    if |Apply(s, op).0.rows| == |s.rows| + 1 {
      assert Apply(s, op).0.rows[|s.rows|].secret == s.next;
    }
  }

  lemma ApplyKeepsRow(s: State, op: Op, raw: nat, expiry: Instant, replaced: Option<Instant>)
    requires Ok(s) && Recorded(s.rows, s.next, raw, Some(expiry), replaced)
    ensures var (s', answer) := Apply(s, op);
            s'.rows == [] || exists i | 0 <= i < |s'.rows| ::
              && s'.rows[i].secret == raw && s'.rows[i].expiresAt == expiry
              && s'.rows[i].replacedAt == if replaced.None? && op.Refresh? && op.raw == raw && answer.value.Issued?
                                          then Some(op.at.replaced) else replaced
  {
    var i :| 0 <= i < |s.rows| && s.rows[i].secret == raw && s.rows[i].expiresAt == expiry
          && s.rows[i].replacedAt == replaced;
    var s' := Apply(s, op).0;
    if i < |s'.rows| {
      assert s'.rows[i].secret == raw && s'.rows[i].expiresAt == expiry;
    }
  }

  lemma {:induction false} RunRecords(next: nat, ops: seq<Op>, raw: nat)
    ensures var s := State([], next);
            var after := After(s, ops);
            Recorded(after.rows, after.next, raw, ExpiryOf(s, ops, raw), ReplacedAt(s, ops, raw))
  {
    if ops != [] {
      var s, before := State([], next), ops[..|ops| - 1];
      RunRecords(next, before, raw);
      RunKeepsOk(s, before);
      ApplyRecords(After(s, before), ops[|ops| - 1], raw, ExpiryOf(s, before, raw), ReplacedAt(s, before, raw));
    }
  }

  const GRACE_NANOS: int := 30_000_000_000

  /** What a refresh answers, in every run from no rows, said of the operations and their
      answers alone: the token must have been handed out, not wiped since and not expired, and
      if a refresh has replaced it, that was less than thirty seconds ago. */
  lemma AnswerFollowsHistory(next: nat, ops: seq<Op>, raw: nat, at: Readings, lifetime: int)
    ensures var s := State([], next);
            var expiry, replaced := ExpiryOf(s, ops, raw), ReplacedAt(s, ops, raw);
            LastOutcome(s, ops + [Refresh(raw, at, lifetime)]) == Some(
              if expiry.None? || expiry.value < at.checked then InvalidOrExpired
              else if replaced.Some? && at.graced - replaced.value >= GRACE_NANOS then ReuseDetected
              else Issued(After(s, ops).next))
  {
    var s, all := State([], next), ops + [Refresh(raw, at, lifetime)];
    assert all[..|all| - 1] == ops;
    RunRecords(next, ops, raw);
    RunKeepsOk(s, ops);
    RefreshDecides(After(s, ops), raw, at, lifetime);
    if ExpiryOf(s, ops, raw).Some? {
      HistoryDecides(After(s, ops), raw, at, ExpiryOf(s, ops, raw).value, ReplacedAt(s, ops, raw));
    }
  }

  lemma HistoryDecides(s: State, raw: nat, at: Readings, expiry: Instant, replaced: Option<Instant>)
    requires Ok(s) && Recorded(s.rows, s.next, raw, Some(expiry), replaced)
    ensures Accepted(s.rows, raw, at) <==>
              expiry >= at.checked && (replaced.Some? ==> at.graced - replaced.value < GRACE_NANOS)
    ensures Stolen(s.rows, raw, at) <==>
              expiry >= at.checked && replaced.Some? && at.graced - replaced.value >= GRACE_NANOS
  {
    var i :| 0 <= i < |s.rows| && s.rows[i].secret == raw && s.rows[i].expiresAt == expiry
          && s.rows[i].replacedAt == replaced;
    assert forall k | 0 <= k < |s.rows| && s.rows[k].secret == raw :: k == i;
  }

  /** No refresh of the secret has issued tokens. */
  ghost predicate NeverRefreshed(s: State, ops: seq<Op>, raw: nat) {
    forall k | 0 <= k < |ops| && ops[k].Refresh? && ops[k].raw == raw ::
      LastOutcome(s, ops[..k + 1]) == Some(InvalidOrExpired) || LastOutcome(s, ops[..k + 1]) == Some(ReuseDetected)
  }

  lemma {:induction false} NeverRefreshedIsUnreplaced(s: State, ops: seq<Op>, raw: nat)
    requires NeverRefreshed(s, ops, raw)
    ensures ReplacedAt(s, ops, raw) == None
  {
    if ops != [] {
      var n := |ops| - 1;
      var before := ops[..n];
      forall k | 0 <= k < n && before[k].Refresh? && before[k].raw == raw
        ensures LastOutcome(s, before[..k + 1]) == Some(InvalidOrExpired)
                || LastOutcome(s, before[..k + 1]) == Some(ReuseDetected)
      {
        assert before[k] == ops[k] && before[..k + 1] == ops[..k + 1];
      }
      NeverRefreshedIsUnreplaced(s, before, raw);
      assert ops[..n + 1] == ops;
    }
  }

  /** None of the operations after the first `n` wiped the rows. */
  ghost predicate NoWipe(s: State, ops: seq<Op>, n: nat) {
    forall k | n <= k < |ops| :: !ops[k].LogoutAll? && LastOutcome(s, ops[..k + 1]) != Some(ReuseDetected)
  }

  lemma NoWipeBefore(s: State, ops: seq<Op>, n: nat)
    requires n < |ops| && NoWipe(s, ops, n)
    ensures NoWipe(s, ops[..|ops| - 1], n)
    ensures !ops[|ops| - 1].LogoutAll? && LastOutcome(s, ops) != Some(ReuseDetected)
  {
    var m := |ops| - 1;
    var before := ops[..m];
    forall k | n <= k < m ensures !before[k].LogoutAll? && LastOutcome(s, before[..k + 1]) != Some(ReuseDetected) {
      assert before[k] == ops[k] && before[..k + 1] == ops[..k + 1];
    }
    assert ops[..m + 1] == ops;
  }

  /** Without a wipe a token keeps its expiry and the instant of its first replacement. */
  lemma HistoryStep(next: nat, ops: seq<Op>, raw: nat)
    requires ops != [] && ExpiryOf(State([], next), ops[..|ops| - 1], raw).Some?
    requires !ops[|ops| - 1].LogoutAll? && LastOutcome(State([], next), ops) != Some(ReuseDetected)
    ensures var s, before := State([], next), ops[..|ops| - 1];
            && ExpiryOf(s, ops, raw) == ExpiryOf(s, before, raw)
            && (ReplacedAt(s, before, raw).Some? ==> ReplacedAt(s, ops, raw) == ReplacedAt(s, before, raw))
  {
    RunRecords(next, ops[..|ops| - 1], raw);
  }

  lemma {:induction false} HistoryStays(next: nat, ops: seq<Op>, n: nat, raw: nat)
    requires n <= |ops| && NoWipe(State([], next), ops, n)
    requires ExpiryOf(State([], next), ops[..n], raw).Some?
    ensures var s := State([], next);
            && ExpiryOf(s, ops, raw) == ExpiryOf(s, ops[..n], raw)
            && (ReplacedAt(s, ops[..n], raw).Some? ==> ReplacedAt(s, ops, raw) == ReplacedAt(s, ops[..n], raw))
  {
    if n == |ops| {
      assert ops[..n] == ops;
    } else {
      assert ops[..|ops| - 1][..n] == ops[..n];
      NoWipeBefore(State([], next), ops, n);
      HistoryStays(next, ops[..|ops| - 1], n, raw);
      HistoryStep(next, ops, raw);
    }
  }

  lemma FirstReplacement(next: nat, before: seq<Op>, raw: nat, at: Readings, lifetime: int)
    requires NeverRefreshed(State([], next), before, raw)
    requires LastOutcome(State([], next), before + [Refresh(raw, at, lifetime)]).value.Issued?
    ensures var s, first := State([], next), before + [Refresh(raw, at, lifetime)];
            && ReplacedAt(s, first, raw) == Some(at.replaced)
            && ExpiryOf(s, before, raw).Some? && ExpiryOf(s, first, raw) == ExpiryOf(s, before, raw)
  {
    var first := before + [Refresh(raw, at, lifetime)];
    assert first[..|first| - 1] == before;
    NeverRefreshedIsUnreplaced(State([], next), before, raw);
    AnswerFollowsHistory(next, before, raw, at, lifetime);
    HistoryStep(next, first, raw);
  }

  /** The reuse rule on the answers of two refreshes. The run `ops` begins with `before` and the
      first refresh of a token that issues tokens, with readings `at`. With no wipe after it, one
      more refresh of the token issues tokens exactly when the token has not expired and the
      first refresh replaced it less than thirty seconds ago, and detects a reuse exactly when it
      has not expired and thirty seconds have passed. */
  lemma ReuseIsJudgedByTheFirst(next: nat, before: seq<Op>, raw: nat, at: Readings, lifetime: int, ops: seq<Op>,
          at2: Readings, lifetime2: int)
    requires NeverRefreshed(State([], next), before, raw)
    requires LastOutcome(State([], next), before + [Refresh(raw, at, lifetime)]).value.Issued?
    requires before + [Refresh(raw, at, lifetime)] <= ops && NoWipe(State([], next), ops, |before| + 1)
    ensures var expiry := ExpiryOf(State([], next), before, raw);
            var answer := LastOutcome(State([], next), ops + [Refresh(raw, at2, lifetime2)]);
            && expiry.Some? && answer.Some?
            && (answer.value.Issued? <==> at2.checked <= expiry.value && at2.graced - at.replaced < GRACE_NANOS)
            && (answer.value.ReuseDetected? <==>
                  at2.checked <= expiry.value && at2.graced - at.replaced >= GRACE_NANOS)
  {
    assert ops[..|before| + 1] == before + [Refresh(raw, at, lifetime)];
    FirstReplacement(next, before, raw, at, lifetime);
    HistoryStays(next, ops, |before| + 1, raw);
    AnswerFollowsHistory(next, ops, raw, at2, lifetime2);
  }
}
