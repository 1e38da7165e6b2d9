/**
 * Single-use send tickets (src/api/src/videos/handlers.rs): redemptions of one ticket by
 * its owner, interleaved at every clock reading and database call. The clock is read
 * first, so the conditional updates compare the expiry with an instant that may be past.
 */
module SendTickets {
  import opened Common

  datatype Status = Active | Redeemed | Expired

  datatype Ticket = Ticket(expiresAt: Instant, status: Status, redeemedAt: Option<Instant>)

  datatype Answer =
    | Granted
    | AlreadyRedeemed
    | TooLate
    | VideoMissing
    | NoLongerValid
    | NoMediaUrl

  // ---------------------------------------------------------------- the updates

  /** `UPDATE ... WHERE status = 'active'`, for a ticket found past its expiry. */
  function Expire(ticket: Ticket): Ticket {
    if ticket.status == Active then ticket.(status := Expired) else ticket
  }

  /** `UPDATE ... WHERE status = 'active' AND redeemed_at IS NULL AND expires_at > at`. */
  predicate Claimable(ticket: Ticket, at: Instant) {
    ticket.status == Active && ticket.redeemedAt.None? && ticket.expiresAt > at
  }

  function Claimed(ticket: Ticket, at: Instant): Ticket {
    ticket.(status := Redeemed, redeemedAt := Some(at))
  }

  // ---------------------------------------------------------------- one call

  class SendTicket {
    var ticket: Ticket

    constructor (expiresAt: Instant)
      ensures ticket == Ticket(expiresAt, Active, None)
    {
      ticket := Ticket(expiresAt, Active, None);
    }

    /** A redemption that runs alone at `now`. It spends an active ticket in time for a
        video that is still published, even if no media URL can be made for it. */
    method Redeem(now: Instant, published: bool, presigned: bool) returns (answer: Answer)
      modifies this
      ensures var inTime := old(ticket).status == Active && old(ticket).redeemedAt.None?
                            && now < old(ticket).expiresAt;
              (answer == Granted <==> inTime && published && presigned)
              && (inTime && published ==> ticket.status == Redeemed && ticket.redeemedAt == Some(now))
      ensures ticket == if Claimable(old(ticket), now) && published then Claimed(old(ticket), now)
                        else if old(ticket).status == Active && old(ticket).redeemedAt.None?
                              && old(ticket).expiresAt <= now
                        then old(ticket).(status := Expired)
                        else old(ticket)
      ensures answer == AlreadyRedeemed <==> old(ticket).status != Active || old(ticket).redeemedAt.Some?
      ensures answer != NoLongerValid
    {
      if ticket.status != Active || ticket.redeemedAt.Some? {
        return AlreadyRedeemed;
      }
      if ticket.expiresAt <= now {
        ticket := Expire(ticket);
        return TooLate;
      }
      if !published {
        return VideoMissing;
      }
      var claimed := Claim(now);
      if !claimed {
        return NoLongerValid;
      }
      return if presigned then Granted else NoMediaUrl;
    }

    /** The conditional update. At most one claim ever succeeds: a claimed ticket can be
        claimed at no instant again, nor found expired. */
    method Claim(now: Instant) returns (claimed: bool)
      modifies this
      ensures claimed == Claimable(old(ticket), now)
      ensures claimed ==>
                && ticket.redeemedAt == Some(now) && now < ticket.expiresAt == old(ticket).expiresAt
                && Expire(ticket) == ticket && forall t :: !Claimable(ticket, t)
      ensures claimed ==> ticket.status == Redeemed
      ensures !claimed ==> ticket == old(ticket)
    {
      claimed := Claimable(ticket, now);
      if claimed {
        ticket := Claimed(ticket, now);
      }
    }
  }

  // ---------------------------------------------------------------- many calls

  /** Where a redemption stands; `at` is its clock reading. */
  datatype Point =
    | ReadClock
    | ReadTicket(at: Instant)
    | MarkExpired(at: Instant)
    | ReadVideo(at: Instant)
    | ClaimIt(at: Instant)
    | Presign(at: Instant)
    | Done(at: Instant, answer: Answer)

  datatype World = World(now: Instant, ticket: Ticket, calls: map<nat, Point>)

  /** `ok` says whether the video is published, or the URL can be made. */
  datatype Event = Tick(passed: nat) | Start(id: nat) | Advance(id: nat, ok: bool)

  predicate Enabled(w: World, ev: Event) {
    match ev
    case Tick(_) => true
    case Start(id) => id !in w.calls
    case Advance(id, _) => id in w.calls && !w.calls[id].Done?
  }

  function Next(w: World, point: Point, ok: bool): (r: (Ticket, Point))
    requires !point.Done?
  {
    match point
    case ReadClock => (w.ticket, ReadTicket(w.now))
    case ReadTicket(at) =>
      (w.ticket,
       if w.ticket.status != Active || w.ticket.redeemedAt.Some? then Done(at, AlreadyRedeemed)
       else if w.ticket.expiresAt <= at then MarkExpired(at)
       else ReadVideo(at))
    case MarkExpired(at) => (Expire(w.ticket), Done(at, TooLate))
    case ReadVideo(at) => (w.ticket, if ok then ClaimIt(at) else Done(at, VideoMissing))
    case ClaimIt(at) =>
      if Claimable(w.ticket, at) then (Claimed(w.ticket, at), Presign(at)) else (w.ticket, Done(at, NoLongerValid))
    case Presign(at) => (w.ticket, Done(at, if ok then Granted else NoMediaUrl))
  }

  function Step(w: World, ev: Event): World
    requires Enabled(w, ev)
  {
    match ev
    case Tick(passed) => w.(now := w.now + passed)
    case Start(id) => w.(calls := w.calls[id := ReadClock])
    case Advance(id, ok) =>
      var r := Next(w, w.calls[id], ok);
      w.(ticket := r.0, calls := w.calls[id := r.1])
  }

  ghost predicate Run(run: seq<World>, events: seq<Event>) {
    && |run| == |events| + 1
    && run[0].ticket.status == Active && run[0].ticket.redeemedAt.None? && run[0].calls == map[]
    && (forall i | 0 <= i < |events| :: Enabled(run[i], events[i]) && run[i + 1] == Step(run[i], events[i]))
  }

  // ---------------------------------------------------------------- the invariant

  /** The call's conditional update took the ticket. */
  predicate Took(point: Point) {
    match point
    case Presign(_) => true
    case Done(_, answer) => answer == Granted || answer == NoMediaUrl
    case _ => false
  }

  ghost predicate TookIt(w: World, id: nat) {
    id in w.calls && Took(w.calls[id])
  }

  ghost predicate CallOk(w: World, point: Point) {
    && (!point.ReadClock? ==> point.at <= w.now)
    && match point {
      case MarkExpired(at) => w.ticket.expiresAt <= at
      case ReadVideo(at) => at < w.ticket.expiresAt
      case ClaimIt(at) => at < w.ticket.expiresAt
      case Presign(at) => w.ticket.redeemedAt == Some(at)
      case Done(at, answer) => (
        match answer {
          case Granted => w.ticket.redeemedAt == Some(at)
          case NoMediaUrl => w.ticket.redeemedAt == Some(at)
          case AlreadyRedeemed => w.ticket.status != Active
          case NoLongerValid => w.ticket.status != Active
          case TooLate => w.ticket.status != Active && w.ticket.expiresAt <= at
          case VideoMissing => at < w.ticket.expiresAt
        })
      case _ => true
    }
  }

  ghost predicate Inv(w: World) {
    && (w.ticket.status == Redeemed <==> w.ticket.redeemedAt.Some?)
    && (w.ticket.redeemedAt.Some? ==> w.ticket.redeemedAt.value < w.ticket.expiresAt)
    && (w.ticket.status == Expired ==> w.ticket.expiresAt <= w.now)
    && (w.ticket.status == Redeemed <==> exists id :: TookIt(w, id))
    && (forall a, b | TookIt(w, a) && TookIt(w, b) :: a == b)
    && (forall id | id in w.calls :: CallOk(w, w.calls[id]))
  }

  lemma AdvanceKeepsInv(w: World, id: nat, ok: bool)
    requires Inv(w) && Enabled(w, Advance(id, ok))
    ensures Inv(Step(w, Advance(id, ok)))
  {
    var w' := Step(w, Advance(id, ok));
    assert CallOk(w, w.calls[id]);
    forall other | other in w'.calls ensures CallOk(w', w'.calls[other]) {
      if other != id {
        assert CallOk(w, w.calls[other]);
        assert TookIt(w, other) <==> Took(w.calls[other]);
      }
    }
    assert forall other :: other != id ==> (TookIt(w', other) <==> TookIt(w, other));
    assert TookIt(w', id) <==> Took(w'.calls[id]);
    assert TookIt(w, id) <==> Took(w.calls[id]);
  }

  lemma {:induction false} RunKeepsInv(run: seq<World>, events: seq<Event>, n: nat)
    requires Run(run, events) && n < |run|
    ensures Inv(run[n])
  {
    if n > 0 {
      RunKeepsInv(run, events, n - 1);
      var w, w', ev := run[n - 1], run[n], events[n - 1];
      if ev.Advance? {
        AdvanceKeepsInv(w, ev.id, ev.ok);
      } else {
        assert forall id :: TookIt(w', id) <==> TookIt(w, id);
      }
    }
  }

  // ---------------------------------------------------------------- what holds of a run

  /** The ticket is granted at most once. Whoever is granted it read the clock at the
      recorded instant, before the expiry. */
  lemma GrantedAtMostOnce(run: seq<World>, events: seq<Event>, n: nat, a: nat)
    requires Run(run, events) && n < |run|
    requires a in run[n].calls && run[n].calls[a].Done? && run[n].calls[a].answer == Granted
    ensures run[n].ticket.status == Redeemed
    ensures run[n].ticket.redeemedAt == Some(run[n].calls[a].at) && run[n].calls[a].at < run[n].ticket.expiresAt
    ensures forall b | b in run[n].calls && run[n].calls[b].Done? && run[n].calls[b].answer == Granted :: b == a
  {
    RunKeepsInv(run, events, n);
    assert TookIt(run[n], a) && CallOk(run[n], run[n].calls[a]);
    forall b | b in run[n].calls && run[n].calls[b].Done? && run[n].calls[b].answer == Granted ensures b == a {
      assert TookIt(run[n], b);
    }
  }

  /** A ticket that is redeemed or expired stays exactly as it is. */
  lemma {:induction false} SpentStaysSpent(run: seq<World>, events: seq<Event>, i: nat, j: nat)
    requires Run(run, events) && i <= j < |run| && run[i].ticket.status != Active
    ensures run[j].ticket == run[i].ticket
    decreases j
  {
    if i < j {
      SpentStaysSpent(run, events, i, j - 1);
      assert Enabled(run[j - 1], events[j - 1]) && run[j] == Step(run[j - 1], events[j - 1]);
    }
  }

  /** What the two final states say: redeemed means a recorded instant before the expiry,
      and expired means the clock has reached the expiry. */
  lemma FinalStates(run: seq<World>, events: seq<Event>, n: nat)
    requires Run(run, events) && n < |run|
    ensures var ticket := run[n].ticket;
            && (ticket.status == Redeemed <==> ticket.redeemedAt.Some?)
            && (ticket.redeemedAt.Some? ==> ticket.redeemedAt.value < ticket.expiresAt)
            && (ticket.status == Expired ==> ticket.expiresAt <= run[n].now)
  {
    RunKeepsInv(run, events, n);
  }

  /** Some call took the ticket exactly when it is redeemed, so a refused call did not
      lose it to nobody. */
  lemma RefusalHasACause(run: seq<World>, events: seq<Event>, n: nat, a: nat)
    requires Run(run, events) && n < |run|
    requires a in run[n].calls && run[n].calls[a].Done?
    requires run[n].calls[a].answer == AlreadyRedeemed || run[n].calls[a].answer == NoLongerValid
    ensures run[n].ticket.expiresAt <= run[n].now || exists b :: b != a && TookIt(run[n], b)
  {
    RunKeepsInv(run, events, n);
    assert CallOk(run[n], run[n].calls[a]);
    if run[n].ticket.status == Redeemed {
      var b :| TookIt(run[n], b);
    }
  }

  /** In step `k` the call was told that the video is not published, or that no URL can be
      made. */
  ghost predicate ToldNo(run: seq<World>, events: seq<Event>, k: nat, a: nat, answer: Answer) {
    && k < |events| <= |run| && events[k] == Advance(a, false) && a in run[k].calls
    && match answer {
      case VideoMissing => run[k].calls[a].ReadVideo?
      case NoMediaUrl => run[k].calls[a].Presign?
      case _ => true
    }
  }

  /** The two answers that the ticket has no part in: the call met an unpublished video, or took
      the ticket and got no URL. */
  lemma {:induction false} FailureWasTold(run: seq<World>, events: seq<Event>, n: nat, a: nat)
    requires Run(run, events) && n < |run|
    requires a in run[n].calls && run[n].calls[a].Done?
    requires run[n].calls[a].answer == VideoMissing || run[n].calls[a].answer == NoMediaUrl
    ensures exists k: nat :: k < n && ToldNo(run, events, k, a, run[n].calls[a].answer)
  {
    assert Enabled(run[n - 1], events[n - 1]) && run[n] == Step(run[n - 1], events[n - 1]);
    if a in run[n - 1].calls && run[n - 1].calls[a] == run[n].calls[a] {
      FailureWasTold(run, events, n - 1, a);
    } else {
      assert ToldNo(run, events, n - 1, a, run[n].calls[a].answer);
    }
  }
}
