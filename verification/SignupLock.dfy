/**
 * Completing a signup (src/api/src/auth/handlers.rs): calls for one signup ticket,
 * interleaved at every Redis or database call. The call that takes the Redis lock
 * looks for a stored result again, reads the ticket, registers the user, stores the
 * result, deletes the ticket and releases the lock; the others poll for the result.
 *
 * The ticket and the result may vanish from Redis at any moment; a ticket is written
 * once, before any call for it. Redis keeps the lock until it expires or is deleted,
 * and no Redis call fails.
 */
module SignupLock {
  import opened Common

  const LOCK_TTL_SECS := 15
  const POLL_RETRIES := 8

  /** How long a lock lives. */
  const LEASE: nat := LOCK_TTL_SECS * NANOS_PER_SEC

  /** The tokens and user of one registration: the n-th registration yields response n. */
  type Response = nat

  datatype Answer =
    | Success(response: Response)
    | TooManyRequests
    | InvalidTicket
    | UsernameTaken
    | RegistrationFailed

  /** `owner` stands for the random value a call stores in its lock. */
  datatype Lock = Lock(owner: nat, dies: Instant)

  datatype Outcome = Registered | NameTaken | Broken

  datatype Point =
    | FirstRead
    | TryLock
    | Poll(left: nat)
    | Recheck
    | ReadTicket
    | Register
    | StoreResult(response: Response)
    | DeleteTicket(response: Response)
    | Release(answer: Answer)
    | Done(answer: Answer)

  /** `acquired` is the instant a call took the lock, once it has. */
  datatype Call = Call(point: Point, acquired: Instant)

  datatype World = World(
    now: Instant,
    lock: Option<Lock>,
    result: Option<Response>,
    ticket: bool,
    registered: nat,
    calls: map<nat, Call>)

  datatype Event = Tick(passed: nat) | LoseResult | LoseTicket | Start(id: nat) | Advance(id: nat, outcome: Outcome)

  /** The call took the lock and has not released it. */
  predicate Critical(call: Call) {
    match call.point
    case FirstRead | TryLock | Poll(_) | Done(_) => false
    case _ => true
  }

  predicate Live(lock: Option<Lock>, now: Instant) {
    lock.Some? && now < lock.value.dies
  }

  predicate Enabled(w: World, ev: Event) {
    match ev
    case Start(id) => id !in w.calls
    case Advance(id, _) => id in w.calls && !w.calls[id].point.Done?
    case _ => true
  }

  /** The steps before and instead of holding the lock. */
  function Outside(w: World, id: nat, call: Call): (r: (World, Call))
    requires !Critical(call) && !call.point.Done?
    ensures r.0.calls == w.calls && r.0.now == w.now
  {
    match call.point
    case FirstRead => (w, call.(point := if w.result.Some? then Done(Success(w.result.value)) else TryLock))
    case TryLock =>
      if Live(w.lock, w.now) then (w, call.(point := Poll(POLL_RETRIES)))
      else (w.(lock := Some(Lock(id, w.now + LEASE))), Call(Recheck, w.now))
    case Poll(left) =>
      (w, call.(point :=
        if w.result.Some? then Done(Success(w.result.value))
        else if left <= 1 then Done(TooManyRequests)
        else Poll(left - 1)))
  }

  /** The steps of a call that took the lock. The release deletes the lock only while it
      holds the caller's own value. */
  function Inside(w: World, id: nat, call: Call, outcome: Outcome): (r: (World, Call))
    requires Critical(call)
    ensures r.0.calls == w.calls && r.0.now == w.now
  {
    match call.point
    case Recheck => (w, call.(point := if w.result.Some? then Release(Success(w.result.value)) else ReadTicket))
    case ReadTicket => (w, call.(point := if w.ticket then Register else Release(InvalidTicket)))
    case Register => (
      match outcome {
        case Registered => (w.(registered := w.registered + 1), call.(point := StoreResult(w.registered)))
        case NameTaken => (w, call.(point := Release(UsernameTaken)))
        case Broken => (w, call.(point := Release(RegistrationFailed)))
      })
    case StoreResult(response) => (w.(result := Some(response)), call.(point := DeleteTicket(response)))
    case DeleteTicket(response) => (w.(ticket := false), call.(point := Release(Success(response))))
    case Release(answer) =>
      (if Live(w.lock, w.now) && w.lock.value.owner == id then w.(lock := None) else w, call.(point := Done(answer)))
  }

  function Step(w: World, ev: Event): World
    requires Enabled(w, ev)
  {
    match ev
    case Tick(passed) => w.(now := w.now + passed)
    case LoseResult => w.(result := None)
    case LoseTicket => w.(ticket := false)
    case Start(id) => w.(calls := w.calls[id := Call(FirstRead, 0)])
    case Advance(id, outcome) =>
      var call := w.calls[id];
      var r := if Critical(call) then Inside(w, id, call, outcome) else Outside(w, id, call);
      r.0.(calls := w.calls[id := r.1])
  }

  // ---------------------------------------------------------------- one call

  const POLL_INTERVAL: int := 125_000_000

  /** What a call that held the lock undisturbed did: it repeated a stored result, or it
      spent the ticket exactly when it registered. */
  predicate Settled(result: Option<Response>, ticket: bool, registered: nat, answer: Answer,
                    result': Option<Response>, ticket': bool, registered': nat)
  {
    if result.Some? then
      answer == Success(result.value) && (result', ticket', registered') == (result, ticket, registered)
    else
      && answer != TooManyRequests
      && (answer.InvalidTicket? <==> !ticket)
      && (answer.Success? ==> ticket && answer.response == registered)
      && registered' == registered + (if answer.Success? then 1 else 0)
      && result' == (if answer.Success? then Some(answer.response) else None)
      && ticket' == (ticket && !answer.Success?)
  }

  /** What Redis and the database hold for one ticket. */
  class Signup {
    var now: Instant
    var lock: Option<Lock>
    var result: Option<Response>
    var ticket: bool
    var registered: nat

    constructor ()
      ensures lock == None && result == None && ticket && registered == 0
    {
      now, lock, result, ticket, registered := 0, None, None, true, 0;
    }

    /** Time passes between two steps. */
    method Elapse()
      modifies this`now
      ensures now >= old(now)
    {
      var passed: nat :| true;
      now := now + passed;
    }

    /** While a call sleeps, other calls go on. */
    method Sleep()
      modifies this
      ensures now >= old(now) + POLL_INTERVAL
    {
      var late: nat, seen: Option<Response>, left: bool, more: nat :| true;
      now, result, ticket, registered := now + POLL_INTERVAL + late, seen, left, registered + more;
    }

    /** Waits for the holder's result. It is refused only after a full second, if there
        still is none. */
    method AwaitResult() returns (answer: Answer)
      modifies this
      ensures answer.Success? || answer.TooManyRequests?
      ensures answer.Success? ==> result == Some(answer.response)
      ensures answer.TooManyRequests? ==> result == None && now >= old(now) + 1_000_000_000
    {
      for poll := 0 to POLL_RETRIES
        invariant now >= old(now) + poll * POLL_INTERVAL
        invariant poll > 0 ==> result == None
      {
        Sleep();
        if result.Some? {
          return Success(result.value);
        }
      }
      return TooManyRequests;
    }

    /** What the holder of the lock does while nobody disturbs it. */
    method CompleteLocked(outcome: Outcome) returns (answer: Answer)
      modifies this`now, this`result, this`ticket, this`registered
      ensures now >= old(now)
      ensures Settled(old(result), old(ticket), old(registered), answer, result, ticket, registered)
      ensures old(result).None? ==> (answer.Success? <==> old(ticket) && outcome == Registered)
    {
      Elapse();
      if result.Some? {
        return Success(result.value);
      }
      Elapse();
      if !ticket {
        return InvalidTicket;
      }
      Elapse();
      if outcome != Registered {
        return if outcome == NameTaken then UsernameTaken else RegistrationFailed;
      }
      answer := Success(registered);
      registered := registered + 1;
      Elapse();
      result := Some(answer.response);
      Elapse();
      ticket := false;
    }

    /** A call that nobody disturbs unless it waits. It waits only if the lock was taken;
        otherwise it settles, however long it takes, and leaves no live lock behind. */
    method Complete(owner: nat, outcome: Outcome) returns (answer: Answer, ghost waited: bool)
      modifies this
      ensures waited ==> Live(old(lock), old(now)) && old(result).None?
      ensures waited ==>
                if answer.Success? then result == Some(answer.response) else answer == TooManyRequests && result == None
      ensures !waited ==> Settled(old(result), old(ticket), old(registered), answer, result, ticket, registered)
      ensures !waited && old(result).None? ==> (answer.Success? <==> old(ticket) && outcome == Registered)
      ensures !waited ==> if old(result).Some? then lock == old(lock) else !Live(lock, now)
    {
      Elapse();
      if result.Some? {
        return Success(result.value), false;
      }
      Elapse();
      if Live(lock, now) {
        answer := AwaitResult();
        return answer, true;
      }
      lock := Some(Lock(owner, now + LEASE));
      answer := CompleteLocked(outcome);
      waited := false;
      Elapse();
      if Live(lock, now) && lock.value.owner == owner {
        lock := None;
      }
    }
  }

  // ---------------------------------------------------------------- runs

  /** The ticket has been written and nobody has used it yet. */
  const FIRST := World(0, None, None, true, 0, map[])

  /** No call still holds the lock more than `limit` after it took it. */
  ghost predicate Timely(w: World, limit: nat) {
    forall id | id in w.calls && Critical(w.calls[id]) :: w.now <= w.calls[id].acquired + limit
  }

  /** `run` takes the steps `events`, and holders finish within `limit`. */
  ghost predicate Run(run: seq<World>, events: seq<Event>, limit: nat) {
    && |run| == |events| + 1
    && run[0] == FIRST
    && (forall i | 0 <= i < |events| :: Enabled(run[i], events[i]) && run[i + 1] == Step(run[i], events[i]))
    && (forall i | 0 <= i < |run| :: Timely(run[i], limit))
  }

  ghost predicate Reachable(limit: nat, w: World) {
    exists run, events :: Run(run, events, limit) && run[|run| - 1] == w
  }

  // ---------------------------------------------------------------- the lock

  /** A holder whose lease has not run out owns the lock. */
  ghost predicate LeaseHeld(w: World, id: nat)
    requires id in w.calls
  {
    Critical(w.calls[id]) && w.now < w.calls[id].acquired + LEASE ==>
      w.lock == Some(Lock(id, w.calls[id].acquired + LEASE))
  }

  ghost predicate LeasesHeld(w: World) {
    forall id | id in w.calls :: LeaseHeld(w, id)
  }

  lemma StepKeepsLeases(w: World, ev: Event)
    requires LeasesHeld(w) && Enabled(w, ev)
    ensures LeasesHeld(Step(w, ev))
  {
    var w' := Step(w, ev);
    forall id | id in w'.calls ensures LeaseHeld(w', id) {
      if id in w.calls {
        assert LeaseHeld(w, id);
      }
    }
  }

  /** However long calls take, nobody deletes or replaces a lock whose lease still runs,
      except the call that took it. */
  lemma {:induction false} LeaseIsRespected(run: seq<World>, events: seq<Event>, limit: nat, n: nat)
    requires Run(run, events, limit) && n < |run|
    ensures LeasesHeld(run[n])
  {
    if n > 0 {
      LeaseIsRespected(run, events, limit, n - 1);
      StepKeepsLeases(run[n - 1], events[n - 1]);
    }
  }

  /** So at most one call at a time holds a running lease. */
  lemma OneLease(run: seq<World>, events: seq<Event>, limit: nat, n: nat, a: nat, b: nat)
    requires Run(run, events, limit) && n < |run|
    requires a in run[n].calls && Critical(run[n].calls[a]) && run[n].now < run[n].calls[a].acquired + LEASE
    requires b in run[n].calls && Critical(run[n].calls[b]) && run[n].now < run[n].calls[b].acquired + LEASE
    ensures a == b
  {
    LeaseIsRespected(run, events, limit, n);
    assert LeaseHeld(run[n], a) && LeaseHeld(run[n], b);
  }

  // ---------------------------------------------------------------- one registration

  ghost predicate Storing(point: Point) {
    point.StoreResult? || point.DeleteTicket?
  }

  /** The response a call carries towards its caller, if any, is the first one. */
  ghost predicate CarriesFirst(w: World, point: Point) {
    match point
    case StoreResult(response) => w.registered == 1 && response == 0
    case DeleteTicket(response) => w.registered == 1 && response == 0
    case Release(answer) => answer.Success? ==> w.registered == 1 && answer.response == 0
    case Done(answer) => answer.Success? ==> w.registered == 1 && answer.response == 0
    case Register => w.registered == 0
    case _ => true
  }

  ghost predicate SomeoneStores(w: World) {
    exists id :: id in w.calls && Storing(w.calls[id].point)
  }

  ghost predicate RegisteredOnce(w: World) {
    && w.registered <= 1
    && (w.result.Some? ==> w.registered == 1 && w.result.value == 0)
    && (forall id | id in w.calls :: CarriesFirst(w, w.calls[id].point))
    && (w.registered == 1 && w.ticket ==> SomeoneStores(w))
  }

  /** The lock belongs to every call that is past it: there is one at most. */
  ghost predicate Exclusive(w: World) {
    forall a, b | a in w.calls && b in w.calls && Critical(w.calls[a]) && Critical(w.calls[b]) :: a == b
  }

  lemma TimelyIsExclusive(w: World, limit: nat)
    requires LeasesHeld(w) && Timely(w, limit) && limit < LEASE
    ensures Exclusive(w)
  {
    forall a, b | a in w.calls && b in w.calls && Critical(w.calls[a]) && Critical(w.calls[b]) ensures a == b {
      assert LeaseHeld(w, a) && LeaseHeld(w, b);
    }
  }

  lemma AdvanceRegistersOnce(w: World, id: nat, outcome: Outcome)
    requires RegisteredOnce(w) && Exclusive(w) && Enabled(w, Advance(id, outcome))
    ensures RegisteredOnce(Step(w, Advance(id, outcome)))
  {
    var w' := Step(w, Advance(id, outcome));
    assert CarriesFirst(w, w.calls[id].point);
    forall other | other in w'.calls ensures CarriesFirst(w', w'.calls[other].point) {
      if other != id {
        assert CarriesFirst(w, w.calls[other].point);
      }
    }
    if w'.registered == 1 && w'.ticket {
      if w.registered == 0 {
        assert Storing(w'.calls[id].point);
      } else {
        var storing :| storing in w.calls && Storing(w.calls[storing].point);
        assert Storing(w'.calls[storing].point);
      }
    }
  }

  lemma StepRegistersOnce(w: World, ev: Event)
    requires RegisteredOnce(w) && Exclusive(w) && Enabled(w, ev)
    ensures RegisteredOnce(Step(w, ev))
  {
    var w' := Step(w, ev);
    if ev.Advance? {
      AdvanceRegistersOnce(w, ev.id, ev.outcome);
    } else if w.registered == 1 && w'.ticket {
      var storing :| storing in w.calls && Storing(w.calls[storing].point);
      assert Storing(w'.calls[storing].point);
    }
  }

  /** When holders finish within the lease, a ticket registers at most once, and every
      success, whoever gets it, carries that registration's response. */
  lemma {:induction false} TicketRegistersOnce(run: seq<World>, events: seq<Event>, limit: nat, n: nat)
    requires limit < LEASE && Run(run, events, limit) && n < |run|
    ensures run[n].registered <= 1
    ensures RegisteredOnce(run[n])
  {
    if n > 0 {
      TicketRegistersOnce(run, events, limit, n - 1);
      LeaseIsRespected(run, events, limit, n - 1);
      TimelyIsExclusive(run[n - 1], limit);
      StepRegistersOnce(run[n - 1], events[n - 1]);
    }
  }

  lemma SuccessesAgree(run: seq<World>, events: seq<Event>, limit: nat, n: nat, a: nat, b: nat)
    requires limit < LEASE && Run(run, events, limit) && n < |run|
    requires a in run[n].calls && run[n].calls[a].point.Done? && run[n].calls[a].point.answer.Success?
    requires b in run[n].calls && run[n].calls[b].point.Done? && run[n].calls[b].point.answer.Success?
    ensures run[n].calls[a].point.answer == run[n].calls[b].point.answer
  {
    TicketRegistersOnce(run, events, limit, n);
    assert CarriesFirst(run[n], run[n].calls[a].point) && CarriesFirst(run[n], run[n].calls[b].point);
  }

  // ---------------------------------------------------------------- waiting

  predicate Polls(w: World, ev: Event, id: nat) {
    ev.Advance? && ev.id == id && id in w.calls && w.calls[id].point.Poll?
  }

  /** How often the call has looked for the holder's result in the first `n` steps. */
  function PollsOf(run: seq<World>, events: seq<Event>, id: nat, n: nat): nat
    requires n <= |events| <= |run|
  {
    if n == 0 then 0 else PollsOf(run, events, id, n - 1) + if Polls(run[n - 1], events[n - 1], id) then 1 else 0
  }

  ghost predicate SawNothing(run: seq<World>, events: seq<Event>, id: nat, n: nat)
    requires n <= |events| <= |run|
  {
    forall i | 0 <= i < n && Polls(run[i], events[i], id) :: run[i].result == None
  }

  ghost predicate Waiting(run: seq<World>, events: seq<Event>, id: nat, n: nat, point: Point)
    requires n <= |events| <= |run|
  {
    var polls := PollsOf(run, events, id, n);
    match point
    case Poll(left) => polls + left == 8 && left >= 1 && SawNothing(run, events, id, n)
    case Done(answer) => answer == TooManyRequests ==> polls == 8 && SawNothing(run, events, id, n)
    case Release(answer) => answer != TooManyRequests
    case FirstRead | TryLock => polls == 0 && SawNothing(run, events, id, n)
    case _ => true
  }

  lemma StepKeepsWaiting(run: seq<World>, events: seq<Event>, limit: nat, n: nat, id: nat)
    requires Run(run, events, limit) && n + 1 < |run| && id in run[n].calls
    requires Waiting(run, events, id, n, run[n].calls[id].point)
    ensures id in run[n + 1].calls && Waiting(run, events, id, n + 1, run[n + 1].calls[id].point)
  {
    assert Enabled(run[n], events[n]) && run[n + 1] == Step(run[n], events[n]);
  }

  lemma {:induction false} UnbornNeverPolled(run: seq<World>, events: seq<Event>, limit: nat, n: nat, id: nat)
    requires Run(run, events, limit) && n < |run| && id !in run[n].calls
    ensures PollsOf(run, events, id, n) == 0 && SawNothing(run, events, id, n)
  {
    if n > 0 {
      assert Enabled(run[n - 1], events[n - 1]) && run[n] == Step(run[n - 1], events[n - 1]);
      UnbornNeverPolled(run, events, limit, n - 1, id);
    }
  }

  lemma {:induction false} CallsWait(run: seq<World>, events: seq<Event>, limit: nat, n: nat, id: nat)
    requires Run(run, events, limit) && n < |run| && id in run[n].calls
    ensures Waiting(run, events, id, n, run[n].calls[id].point)
  {
    if n > 0 {
      if id in run[n - 1].calls {
        CallsWait(run, events, limit, n - 1, id);
        StepKeepsWaiting(run, events, limit, n - 1, id);
      } else {
        assert Enabled(run[n - 1], events[n - 1]) && run[n] == Step(run[n - 1], events[n - 1]);
        UnbornNeverPolled(run, events, limit, n - 1, id);
      }
    }
  }

  /** In every run, a call that found the lock taken is refused only after it has looked for a
      result eight times and seen none. */
  lemma RefusedAfterEightPolls(run: seq<World>, events: seq<Event>, limit: nat, n: nat, id: nat)
    requires Run(run, events, limit) && n < |run|
    requires id in run[n].calls && run[n].calls[id].point == Done(TooManyRequests)
    ensures PollsOf(run, events, id, n) == 8 && SawNothing(run, events, id, n)
  {
    CallsWait(run, events, limit, n, id);
  }

  // ---------------------------------------------------------------- an undisturbed call

  /** The events `evs` lead along `path`, and only time passes besides the steps of `id`. */
  ghost predicate Undisturbed(path: seq<World>, evs: seq<Event>, id: nat) {
    && |path| == |evs| + 1
    && (forall i | 0 <= i < |evs| ::
          && (evs[i].Tick? || evs[i] == Start(id) || (evs[i].Advance? && evs[i].id == id))
          && Enabled(path[i], evs[i]) && path[i + 1] == Step(path[i], evs[i]))
  }

  /** How far the call has come from `first`. */
  ghost predicate Midway(first: World, w: World, id: nat) {
    var same := (w.result, w.ticket, w.registered) == (first.result, first.ticket, first.registered);
    && w.now >= first.now
    && if id !in w.calls then same && w.lock == first.lock
       else
         var call := w.calls[id];
         && (Critical(call) ==> w.lock == Some(Lock(id, call.acquired + LEASE)))
         && match call.point {
           case FirstRead => same && w.lock == first.lock
           case TryLock => same && w.lock == first.lock && first.result == None
           case Poll(_) => false
           case Recheck => same && first.result == None
           case ReadTicket => same && first.result == None
           case Register => same && first.result == None && first.ticket
           case StoreResult(response) =>
             && first.result == None && first.ticket && response == first.registered
             && (w.result, w.ticket, w.registered) == (None, true, first.registered + 1)
           case DeleteTicket(response) =>
             && first.result == None && first.ticket && response == first.registered
             && (w.result, w.ticket, w.registered) == (Some(response), true, first.registered + 1)
           case Release(answer) =>
             && first.result == None
             && Settled(first.result, first.ticket, first.registered, answer, w.result, w.ticket, w.registered)
           case Done(answer) =>
             && Settled(first.result, first.ticket, first.registered, answer, w.result, w.ticket, w.registered)
             && (first.result == None ==> !Live(w.lock, w.now))
         }
  }

  lemma StepStaysMidway(first: World, w: World, ev: Event, id: nat)
    requires !Live(first.lock, first.now) && Midway(first, w, id) && Enabled(w, ev)
    requires ev.Tick? || ev == Start(id) || (ev.Advance? && ev.id == id)
    ensures Midway(first, Step(w, ev), id)
  {
  }

  /** The steps of a call that nobody disturbs and that finds no live lock do what
      `Signup.Complete` does. */
  lemma {:induction false} UndisturbedCallSettles(path: seq<World>, evs: seq<Event>, id: nat)
    requires Undisturbed(path, evs, id) && id !in path[0].calls && !Live(path[0].lock, path[0].now)
    ensures Midway(path[0], path[|evs|], id)
    ensures id in path[|evs|].calls && path[|evs|].calls[id].point.Done? ==>
              && Settled(path[0].result, path[0].ticket, path[0].registered, path[|evs|].calls[id].point.answer,
                         path[|evs|].result, path[|evs|].ticket, path[|evs|].registered)
              && (path[0].result == None ==> !Live(path[|evs|].lock, path[|evs|].now))
    decreases |evs|
  {
    if evs != [] {
      var n := |evs| - 1;
      UndisturbedCallSettles(path[..|evs|], evs[..n], id);
      StepStaysMidway(path[0], path[n], evs[n], id);
    }
  }

  // ---------------------------------------------------------------- outliving the lease

  lemma Extend(limit: nat, w: World, ev: Event) returns (w': World)
    requires Reachable(limit, w) && Enabled(w, ev) && Timely(Step(w, ev), limit)
    ensures w' == Step(w, ev) && Reachable(limit, w')
  {
    var run, events :| Run(run, events, limit) && run[|run| - 1] == w;
    w' := Step(w, ev);
    assert Run(run + [w'], events + [ev], limit);
  }

  /** A call that finds the lock dead takes it. */
  lemma TakesLock(limit: nat, w: World, id: nat) returns (w': World)
    requires Reachable(limit, w) && id !in w.calls && !Live(w.lock, w.now) && w.result == None
    ensures Reachable(limit, w')
    ensures w' == w.(calls := w.calls[id := Call(Recheck, w.now)], lock := Some(Lock(id, w.now + LEASE)))
  {
    var run, events :| Run(run, events, limit) && run[|run| - 1] == w;
    assert Timely(w, limit);
    w' := Extend(limit, w, Start(id));
    w' := Extend(limit, w', Advance(id, Broken));
    w' := Extend(limit, w', Advance(id, Broken));
  }

  /** And with no result and the ticket in place it gets to registering. */
  lemma GoesToRegister(limit: nat, w: World, id: nat) returns (w': World)
    requires Reachable(limit, w) && id !in w.calls && !Live(w.lock, w.now) && w.result == None && w.ticket
    ensures Reachable(limit, w')
    ensures w' == w.(calls := w.calls[id := Call(Register, w.now)], lock := Some(Lock(id, w.now + LEASE)))
  {
    var run, events :| Run(run, events, limit) && run[|run| - 1] == w;
    assert Timely(w, limit);
    var held := TakesLock(limit, w, id);
    var checked := Extend(limit, held, Advance(id, Broken));
    assert checked == held.(calls := w.calls[id := Call(ReadTicket, w.now)]);
    w' := Extend(limit, checked, Advance(id, Broken));
  }

  /** The worlds of the failing run: both calls hold what they think is their lock. */
  function BothRegister(result: Option<Response>, ticket: bool, registered: nat, first: Point, second: Point): World {
    World(LEASE, Some(Lock(2, LEASE + LEASE)), result, ticket, registered,
          map[1 := Call(first, 0), 2 := Call(second, LEASE)])
  }

  lemma OutlivedLeaseRegistersTwice(limit: nat) returns (w: World)
    requires limit >= LEASE
    ensures Reachable(limit, w) && w.registered == 2
    ensures w == BothRegister(None, true, 2, StoreResult(0), StoreResult(1))
  {
    assert Run([FIRST], [], limit);
    w := GoesToRegister(limit, FIRST, 1);
    w := Extend(limit, w, Tick(LEASE));
    w := GoesToRegister(limit, w, 2);
    w := Extend(limit, w, Advance(1, Registered));
    w := Extend(limit, w, Advance(2, Registered));
  }

  /** The first call stores its result, deletes the ticket and answers. */
  lemma FirstAnswers(limit: nat) returns (w: World)
    requires limit >= LEASE
    ensures Reachable(limit, w)
    ensures w == BothRegister(Some(0), false, 2, Done(Success(0)), StoreResult(1))
  {
    w := OutlivedLeaseRegistersTwice(limit);
    w := Extend(limit, w, Advance(1, Broken));
    assert w == BothRegister(Some(0), true, 2, DeleteTicket(0), StoreResult(1));
    w := Extend(limit, w, Advance(1, Broken));
    assert w == BothRegister(Some(0), false, 2, Release(Success(0)), StoreResult(1));
    w := Extend(limit, w, Advance(1, Broken));
  }

  /** Then the second answers with its own registration. */
  lemma OutlivedLeaseAnswersTwice(limit: nat) returns (w: World)
    requires limit >= LEASE
    ensures Reachable(limit, w) && 1 in w.calls && 2 in w.calls
    ensures w.calls[1].point == Done(Success(0)) && w.calls[2].point == Done(Success(1))
  {
    w := FirstAnswers(limit);
    w := Extend(limit, w, Advance(2, Broken));
    assert w == BothRegister(Some(1), false, 2, Done(Success(0)), DeleteTicket(1));
    w := Extend(limit, w, Advance(2, Broken));
    assert w == BothRegister(Some(1), false, 2, Done(Success(0)), Release(Success(1)));
    w := Extend(limit, w, Advance(2, Broken));
  }

  /** A ticket registers at most once exactly when every holder finishes within the
      lease of its lock. */
  lemma OnceNeedsTheLease(limit: nat)
    ensures (forall w | Reachable(limit, w) :: w.registered <= 1) <==> limit < 15_000_000_000
  {
    if limit < LEASE {
      forall w | Reachable(limit, w) ensures w.registered <= 1 {
        var run, events :| Run(run, events, limit) && run[|run| - 1] == w;
        TicketRegistersOnce(run, events, limit, |run| - 1);
      }
    } else {
      var w := OutlivedLeaseRegistersTwice(limit);
    }
  }

  ghost predicate OneSuccess(w: World) {
    forall a, b | a in w.calls && b in w.calls && w.calls[a].point.Done? && w.calls[b].point.Done? ::
      w.calls[a].point.answer.Success? && w.calls[b].point.answer.Success? ==>
        w.calls[a].point.answer == w.calls[b].point.answer
  }

  /** All successes for a ticket agree under the same condition and no other. */
  lemma AgreementNeedsTheLease(limit: nat)
    ensures (forall w | Reachable(limit, w) :: OneSuccess(w)) <==> limit < 15_000_000_000
  {
    if limit < LEASE {
      forall w | Reachable(limit, w) ensures OneSuccess(w) {
        var run, events :| Run(run, events, limit) && run[|run| - 1] == w;
        TicketRegistersOnce(run, events, limit, |run| - 1);
        assert forall id | id in w.calls :: CarriesFirst(w, w.calls[id].point);
      }
    } else {
      var w := OutlivedLeaseAnswersTwice(limit);
      assert !OneSuccess(w);
    }
  }
}
