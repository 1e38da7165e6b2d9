/**
 * The Redis rate limiter: a GET, an INCR and, for the call that created the key, an
 * EXPIRE, with no atomicity across them (src/api/src/services/rate_limiter.rs). Both
 * the failing-open and the strict variant take these steps when Redis answers.
 */
module RedisLimiter {
  import opened Common

  /** The key of one limit: its counter, if it exists, and whether it will expire. */
  datatype Key = Key(count: Option<nat>, hasTtl: bool)

  function Value(key: Key): nat {
    if key.count.Some? then key.count.value else 0
  }

  /** `Counted` answers a plain increment. */
  datatype Answer = Allowed(remaining: int) | Refused(count: nat) | Counted(count: nat)

  // ---------------------------------------------------------------- one caller

  class RateLimiter {
    var key: Key

    constructor ()
      ensures key == Key(None, false)
    {
      key := Key(None, false);
    }

    /** Between two steps a key that has a TTL may expire. */
    method Lapse()
      modifies this
      ensures key == old(key) || (old(key).hasTtl && key == Key(None, false))
    {
      var lapses: bool :| true;
      if lapses && key.hasTtl {
        key := Key(None, false);
      }
    }

    /** A caller that has the key to itself is refused exactly at the limit, counts itself
        once, and never subtracts more than the limit. */
    method CheckAndIncrement(max: nat) returns (answer: Answer)
      modifies this
      ensures answer.Refused? <==> Value(old(key)) >= max
      ensures answer.Refused? ==> answer.count == Value(old(key)) && key == old(key)
      ensures answer.Allowed? ==>
                && 0 <= answer.remaining < max
                && Value(key) == max - answer.remaining
                && (Value(key) == Value(old(key)) + 1 || (old(key).hasTtl && Value(key) == 1))
                && (Value(key) == 1 ==> key.hasTtl)
      ensures !answer.Counted?
    {
      var count := Value(key);
      if count >= max {
        return Refused(count);
      }
      Lapse();
      var newCount := Value(key) + 1;
      key := key.(count := Some(newCount));
      if newCount == 1 {
        key := key.(hasTtl := true);
      }
      return Allowed(max - newCount);
    }

    /** A plain increment is never refused. A positive one that creates the key gives it
        its TTL. */
    method IncrementBy(amount: nat) returns (count: nat)
      modifies this
      ensures count == Value(key) && (count == Value(old(key)) + amount || (old(key).hasTtl && count == amount))
      ensures key.hasTtl == (count == amount || old(key).hasTtl)
    {
      Lapse();
      count := Value(key) + amount;
      key := key.(count := Some(count));
      if count == amount {
        key := key.(hasTtl := true);
      }
    }
  }

  // ---------------------------------------------------------------- many callers

  datatype Point = Get | Incr | Add(amount: nat) | Expire(answer: Answer) | Return(answer: Answer)

  /** The key, the calls in flight, and the answers given so far. */
  datatype World = World(key: Key, flying: map<nat, Point>, answers: seq<Answer>)

  /** `Start` begins a check-and-increment, `StartAdd` a plain increment. */
  datatype Event = Start(id: nat) | StartAdd(id: nat, amount: nat) | Advance(id: nat) | TtlExpires | Evict

  /** At most `callers` calls are in flight at once. */
  predicate Enabled(w: World, callers: nat, ev: Event) {
    match ev
    case Start(id) => id !in w.flying && |w.flying| < callers
    case StartAdd(id, _) => id !in w.flying && |w.flying| < callers
    case Advance(id) => id in w.flying
    case TtlExpires => w.key.hasTtl
    case Evict => true
  }

  function Step(w: World, max: nat, ev: Event): World {
    match ev
    case Start(id) => w.(flying := w.flying[id := Get])
    case StartAdd(id, amount) => w.(flying := w.flying[id := Add(amount)])
    case TtlExpires => w.(key := Key(None, false))
    case Evict => w.(key := Key(None, false))
    case Advance(id) => if id in w.flying then Advanced(w, max, id) else w
  }

  function Advanced(w: World, max: nat, id: nat): World
    requires id in w.flying
  {
    match w.flying[id]
    case Get =>
      if Value(w.key) >= max then w.(flying := w.flying - {id}, answers := w.answers + [Refused(Value(w.key))])
      else w.(flying := w.flying[id := Incr])
    case Incr =>
      var n := Value(w.key) + 1;
      var answer := Allowed(max - n);
      w.(key := w.key.(count := Some(n)), flying := w.flying[id := if n == 1 then Expire(answer) else Return(answer)])
    case Add(amount) =>
      var n := Value(w.key) + amount;
      var answer := Counted(n);
      w.(key := w.key.(count := Some(n)),
            flying := w.flying[id := if n == amount then Expire(answer) else Return(answer)])
    case Expire(answer) =>
      w.(key := if w.key.count.Some? then w.key.(hasTtl := true) else w.key, flying := w.flying[id := Return(answer)])
    case Return(answer) => w.(flying := w.flying - {id}, answers := w.answers + [answer])
  }

  /** Where a run that starts without the key ends. */
  function After(max: nat, events: seq<Event>): World {
    if events == [] then World(Key(None, false), map[], [])
    else Step(After(max, events[..|events| - 1]), max, events[|events| - 1])
  }

  ghost predicate Legal(max: nat, callers: nat, events: seq<Event>) {
    events != [] ==>
      && Legal(max, callers, events[..|events| - 1])
      && Enabled(After(max, events[..|events| - 1]), callers, events[|events| - 1])
  }

  /** No plain increments: every call tests the limit. */
  ghost predicate ChecksOnly(events: seq<Event>) {
    forall i | 0 <= i < |events| :: !events[i].StartAdd?
  }

  /** Some run of at most `callers` checks at a time ends in `w`. */
  ghost predicate Reachable(max: nat, callers: nat, w: World) {
    exists events :: ChecksOnly(events) && Legal(max, callers, events) && After(max, events) == w
  }

  lemma OneMore(max: nat, callers: nat, events: seq<Event>, w: World, ev: Event)
    requires Legal(max, callers, events) && After(max, events) == w && Enabled(w, callers, ev)
    ensures Legal(max, callers, events + [ev]) && After(max, events + [ev]) == Step(w, max, ev)
  {
    assert (events + [ev])[..|events|] == events;
  }

  lemma Extend(max: nat, callers: nat, w: World, ev: Event) returns (w': World)
    requires Reachable(max, callers, w) && Enabled(w, callers, ev) && !ev.StartAdd?
    ensures w' == Step(w, max, ev) && Reachable(max, callers, w')
  {
    var events :| ChecksOnly(events) && Legal(max, callers, events) && After(max, events) == w;
    w' := Step(w, max, ev);
    OneMore(max, callers, events, w, ev);
    assert ChecksOnly(events + [ev]);
  }

  // ---------------------------------------------------------------- the bound

  /** The calls that passed the test and have not counted themselves yet. */
  function Passed(w: World): set<nat> {
    set id | id in w.flying && w.flying[id] == Incr
  }

  predicate Within(answer: Answer, callers: nat) {
    answer.Allowed? ==> answer.remaining >= 1 - callers
  }

  ghost predicate Bounded(w: World, max: nat, callers: nat) {
    && |w.flying| <= callers
    && Value(w.key) + |Passed(w)| <= max + callers - 1
    && (forall id | id in w.flying :: !w.flying[id].Add?)
    && (forall id | id in w.flying :: w.flying[id].Expire? || w.flying[id].Return?
          ==> Within(w.flying[id].answer, callers))
    && (forall i | 0 <= i < |w.answers| && w.answers[i].Allowed? :: w.answers[i].remaining >= 1 - callers)
  }

  lemma CountsItself(w: World, max: nat, callers: nat, id: nat)
    requires Bounded(w, max, callers) && id in w.flying && w.flying[id] == Incr
    ensures Bounded(Advanced(w, max, id), max, callers)
  {
    var w' := Advanced(w, max, id);
    assert w'.flying.Keys == w.flying.Keys;
    assert |w'.flying| == |w'.flying.Keys| && |w.flying| == |w.flying.Keys|;
    assert id in Passed(w);
    assert Passed(w') == Passed(w) - {id};
  }

  lemma PassesTheTest(w: World, max: nat, callers: nat, id: nat)
    requires max >= 1 && Bounded(w, max, callers) && id in w.flying && w.flying[id] == Get && Value(w.key) < max
    ensures Bounded(Advanced(w, max, id), max, callers)
  {
    var w' := Advanced(w, max, id);
    assert w'.flying.Keys == w.flying.Keys;
    assert |w'.flying| == |w'.flying.Keys| && |w.flying| == |w.flying.Keys|;
    SubsetSize(Passed(w'), w'.flying.Keys);
  }

  lemma MovesOn(w: World, max: nat, callers: nat, id: nat)
    requires Bounded(w, max, callers) && id in w.flying
    requires w.flying[id].Expire? || w.flying[id].Return? || (w.flying[id] == Get && Value(w.key) >= max)
    ensures Bounded(Advanced(w, max, id), max, callers)
  {
    var w' := Advanced(w, max, id);
    SubsetSize(w'.flying.Keys, w.flying.Keys);
    assert |w'.flying| == |w'.flying.Keys| && |w.flying| == |w.flying.Keys|;
    assert Passed(w') == Passed(w);
  }

  lemma StepKeepsBound(w: World, max: nat, callers: nat, ev: Event)
    requires max >= 1 && Bounded(w, max, callers) && Enabled(w, callers, ev) && !ev.StartAdd?
    ensures Bounded(Step(w, max, ev), max, callers)
  {
    match ev
    case Start(id) =>
      var w' := Step(w, max, ev);
      assert Passed(w') == Passed(w);
      assert |w'.flying| == |w.flying| + 1;
    case TtlExpires => assert Passed(Step(w, max, ev)) == Passed(w);
    case Evict => assert Passed(Step(w, max, ev)) == Passed(w);
    case Advance(id) =>
      if w.flying[id] == Incr {
        CountsItself(w, max, callers, id);
      } else if w.flying[id] == Get && Value(w.key) < max {
        PassesTheTest(w, max, callers, id);
      } else {
        MovesOn(w, max, callers, id);
      }
  }

  /** With check-and-increments only and the key vanishing at any moment, the counter overshoots the limit by at most
      the other callers in flight, and so does what a caller subtracts. */
  lemma {:induction false} CounterOvershootsByOthers(max: nat, callers: nat, events: seq<Event>)
    requires max >= 1 && callers >= 1 && Legal(max, callers, events)
    requires ChecksOnly(events)
    ensures var w := After(max, events);
            && Value(w.key) <= max + callers - 1
            && (forall i | 0 <= i < |w.answers| && w.answers[i].Allowed? :: w.answers[i].remaining >= 1 - callers)
            && Bounded(w, max, callers)
  {
    if events == [] {
      assert Passed(After(max, [])) == {};
    } else {
      CounterOvershootsByOthers(max, callers, events[..|events| - 1]);
      StepKeepsBound(After(max, events[..|events| - 1]), max, callers, events[|events| - 1]);
    }
  }

  // ---------------------------------------------------------------- counting

  /** What the increments since the key last vanished add up to, read off the run. */
  function Added(max: nat, events: seq<Event>): nat {
    if events == [] then 0
    else
      var before, ev := events[..|events| - 1], events[|events| - 1];
      var w := After(max, before);
      if ev.TtlExpires? || ev.Evict? then 0
      else if ev.Advance? && ev.id in w.flying && w.flying[ev.id].Incr? then Added(max, before) + 1
      else if ev.Advance? && ev.id in w.flying && w.flying[ev.id].Add? then
        Added(max, before) + w.flying[ev.id].amount
      else Added(max, before)
  }

  /** No increment is lost or made twice, however calls overlap. */
  lemma {:induction false} CounterAddsUp(max: nat, callers: nat, events: seq<Event>)
    requires Legal(max, callers, events)
    ensures Value(After(max, events).key) == Added(max, events)
  {
    if events != [] {
      CounterAddsUp(max, callers, events[..|events| - 1]);
    }
  }

  predicate Fair(answer: Answer, max: nat) {
    match answer
    case Refused(count) => count >= max
    case Allowed(remaining) => remaining < max
    case Counted(_) => true
  }

  ghost predicate AllFair(w: World, max: nat) {
    && (forall i | 0 <= i < |w.answers| :: Fair(w.answers[i], max))
    && (forall id | id in w.flying && (w.flying[id].Expire? || w.flying[id].Return?) :: Fair(w.flying[id].answer, max))
  }

  /** A check is refused only if it read a counter at the limit or above. */
  lemma {:induction false} RefusedAtTheLimit(max: nat, callers: nat, events: seq<Event>)
    requires Legal(max, callers, events)
    ensures AllFair(After(max, events), max)
  {
    if events != [] {
      RefusedAtTheLimit(max, callers, events[..|events| - 1]);
    }
  }

  // ---------------------------------------------------------------- underflow

  /** A lone caller passes the test. */
  lemma OnePasses(max: nat, callers: nat, w: World) returns (w': World)
    requires callers >= 1 && Reachable(max, callers, w) && w.flying == map[] && Value(w.key) < max
    ensures Reachable(max, callers, w') && w'.key == w.key && w'.flying == map[0 := Incr]
  {
    var w1 := Extend(max, callers, w, Start(0));
    assert w1.flying == map[0 := Get];
    w' := Extend(max, callers, w1, Advance(0));
    assert w'.flying == map[0 := Incr];
  }

  lemma OneEntry(flying: map<nat, Point>, before: Point, next: Point)
    requires flying == map[0 := before]
    ensures flying[0 := next] == map[0 := next]
  {
  }

  /** A lone caller that passed counts itself. */
  lemma Counts(w: World, max: nat)
    requires w.flying == map[0 := Incr]
    ensures var answer := Allowed(max - Value(w.key) - 1);
            var next := if Value(w.key) == 0 then Expire(answer) else Return(answer);
            Advanced(w, max, 0) == w.(key := w.key.(count := Some(Value(w.key) + 1)), flying := map[0 := next])
  {
    var answer := Allowed(max - Value(w.key) - 1);
    OneEntry(w.flying, Incr, if Value(w.key) == 0 then Expire(answer) else Return(answer));
  }

  /** And is then about to answer, once the TTL is set. */
  lemma OneCounts(max: nat, callers: nat, w: World) returns (w': World)
    requires Reachable(max, callers, w) && w.flying == map[0 := Incr]
    ensures Reachable(max, callers, w') && Value(w'.key) == Value(w.key) + 1
    ensures w'.flying == map[0 := Return(Allowed(max - Value(w.key) - 1))]
  {
    Counts(w, max);
    w' := Extend(max, callers, w, Advance(0));
    if Value(w.key) == 0 {
      w' := OneExpires(max, callers, w', Allowed(max - 1));
    }
  }

  lemma OneExpires(max: nat, callers: nat, w: World, answer: Answer) returns (w': World)
    requires Reachable(max, callers, w) && w.flying == map[0 := Expire(answer)]
    ensures Reachable(max, callers, w') && Value(w'.key) == Value(w.key) && w'.flying == map[0 := Return(answer)]
  {
    w' := Extend(max, callers, w, Advance(0));
    OneEntry(w.flying, Expire(answer), Return(answer));
  }

  lemma OneCall(max: nat, callers: nat, w: World) returns (w': World)
    requires callers >= 1 && Reachable(max, callers, w) && w.flying == map[] && Value(w.key) < max
    ensures Reachable(max, callers, w') && w'.flying == map[] && Value(w'.key) == Value(w.key) + 1
  {
    w' := OnePasses(max, callers, w);
    w' := OneCounts(max, callers, w');
    w' := Extend(max, callers, w', Advance(0));
    assert w'.flying == map[];
  }

  /** Calls one after another bring the counter to any value up to the limit. */
  lemma {:induction false} CallsReach(max: nat, callers: nat, k: nat) returns (w: World)
    requires callers >= 1 && k <= max
    ensures Reachable(max, callers, w) && w.flying == map[] && Value(w.key) == k
  {
    if k == 0 {
      w := After(max, []);
      assert Legal(max, callers, []);
    } else {
      w := CallsReach(max, callers, k - 1);
      w := OneCall(max, callers, w);
    }
  }

  lemma TwoPass(max: nat, callers: nat, w: World) returns (w': World)
    requires callers >= 2 && Reachable(max, callers, w) && w.flying == map[] && Value(w.key) < max
    ensures Reachable(max, callers, w') && w'.key == w.key && w'.flying == map[1 := Incr, 2 := Incr]
  {
    var w1 := Extend(max, callers, w, Start(1));
    assert w1.flying == map[1 := Get] && |w1.flying| == 1;
    var w2 := Extend(max, callers, w1, Start(2));
    assert w2.flying == map[1 := Get, 2 := Get];
    var w3 := Extend(max, callers, w2, Advance(1));
    assert w3.flying == map[1 := Incr, 2 := Get] && w3.key == w.key;
    w' := Extend(max, callers, w3, Advance(2));
    assert w'.flying == map[1 := Incr, 2 := Incr];
  }

  lemma SecondGoesUnder(w: World, max: nat)
    requires max >= 1 && w.flying == map[1 := Incr, 2 := Incr] && Value(w.key) == max - 1
    ensures 2 in Advanced(w, max, 1).flying
    ensures var w' := Advanced(Advanced(w, max, 1), max, 2);
            2 in w'.flying && w'.flying[2] == Return(Allowed(-1))
  {
    var counted := Advanced(w, max, 1);
    assert counted.flying[2] == Incr && Value(counted.key) == max;
  }

  /** Two callers that read the counter just below the limit both count themselves, and
      the second subtracts one more than the limit. */
  lemma TwoCallersUnderflow(max: nat, callers: nat) returns (w: World)
    requires max >= 1 && callers >= 2
    ensures Reachable(max, callers, w) && Allowed(-1) in w.answers
  {
    w := CallsReach(max, callers, max - 1);
    w := TwoPass(max, callers, w);
    SecondGoesUnder(w, max);
    w := Extend(max, callers, w, Advance(1));
    w := Extend(max, callers, w, Advance(2));
    w := Extend(max, callers, w, Advance(2));
    assert w.answers[|w.answers| - 1] == Allowed(-1);
  }

  ghost predicate NoUnderflow(w: World) {
    forall i | 0 <= i < |w.answers| && w.answers[i].Allowed? :: w.answers[i].remaining >= 0
  }

  /** The unsigned subtraction of the new count from the limit never underflows exactly
      when at most one call is in flight at a time. */
  lemma UnderflowNeedsCompany(max: nat, callers: nat)
    requires max >= 1
    ensures (forall w | Reachable(max, callers, w) :: NoUnderflow(w)) <==> callers <= 1
  {
    if callers <= 1 {
      forall w | Reachable(max, callers, w) ensures NoUnderflow(w) {
        var events :| ChecksOnly(events) && Legal(max, callers, events) && After(max, events) == w;
        if callers == 0 {
          NobodyAnswers(max, events);
        } else {
          CounterOvershootsByOthers(max, callers, events);
        }
      }
    } else {
      var w := TwoCallersUnderflow(max, callers);
      assert !NoUnderflow(w);
    }
  }

  lemma {:induction false} NobodyAnswers(max: nat, events: seq<Event>)
    requires Legal(max, 0, events)
    ensures After(max, events).answers == [] && After(max, events).flying == map[]
  {
    if events != [] {
      NobodyAnswers(max, events[..|events| - 1]);
    }
  }

  // ---------------------------------------------------------------- the TTL

  /** The calls between their INCR and their EXPIRE. */
  function Pending(w: World): set<nat> {
    set id | id in w.flying && w.flying[id].Expire?
  }

  /** A key without a TTL has exactly one call on its way to set it, and otherwise nobody
      is. */
  ghost predicate Attended(w: World) {
    if w.key.count.Some? && !w.key.hasTtl then |Pending(w)| == 1 else Pending(w) == {}
  }

  ghost predicate TtlInv(w: World) {
    && (w.key.count.Some? ==> w.key.count.value >= 1)
    && (w.key.count.None? ==> !w.key.hasTtl)
    && (forall id | id in w.flying && w.flying[id].Add? :: w.flying[id].amount >= 1)
    && Attended(w)
  }

  ghost predicate AmountsFrom(events: seq<Event>, least: nat) {
    forall i | 0 <= i < |events| && events[i].StartAdd? :: events[i].amount >= least
  }

  /** If only TTLs remove the key and plain increments are positive, the key is attended
      in every state of every run. */
  lemma {:induction false} KeyWithoutTtlIsAttended(max: nat, callers: nat, events: seq<Event>)
    requires Legal(max, callers, events) && Evict !in events && AmountsFrom(events, 1)
    ensures TtlInv(After(max, events))
    ensures Attended(After(max, events))
  {
    if events == [] {
      assert Pending(After(max, [])) == {};
    } else {
      var prior, ev := After(max, events[..|events| - 1]), events[|events| - 1];
      KeyWithoutTtlIsAttended(max, callers, events[..|events| - 1]);
      StepKeepsTtl(prior, max, callers, ev);
    }
  }

  lemma StepKeepsTtl(w: World, max: nat, callers: nat, ev: Event)
    requires TtlInv(w) && Enabled(w, callers, ev) && ev != Evict && (ev.StartAdd? ==> ev.amount >= 1)
    ensures TtlInv(Step(w, max, ev))
  {
    var w' := Step(w, max, ev);
    if !ev.Advance? {
      assert Pending(w') == Pending(w);
    } else {
      var id := ev.id;
      match w.flying[id]
      case Get => assert Pending(w') == Pending(w);
      case Incr => CountingKeepsTtl(w, max, id);
      case Add(_) => CountingKeepsTtl(w, max, id);
      case Expire(_) => ExpiringKeepsTtl(w, max, id);
      case Return(_) => assert Pending(w') == Pending(w);
    }
  }

  lemma ExpiringKeepsTtl(w: World, max: nat, id: nat)
    requires TtlInv(w) && id in w.flying && w.flying[id].Expire?
    ensures TtlInv(Advanced(w, max, id))
  {
    var w' := Advanced(w, max, id);
    assert id in Pending(w);
    assert Pending(w') == Pending(w) - {id};
    assert |Pending(w')| == 0;
  }

  lemma CountingKeepsTtl(w: World, max: nat, id: nat)
    requires TtlInv(w) && id in w.flying && (w.flying[id].Incr? || w.flying[id].Add?)
    ensures TtlInv(Advanced(w, max, id))
  {
    var w' := Advanced(w, max, id);
    if w.key.count.None? {
      assert Pending(w') == {id};
    } else {
      assert Pending(w') == Pending(w);
    }
  }

  /** An increment by zero looks like a creation: it is on its way to set the TTL of a key
      that has one. */
  lemma ZeroAmountCrowds(max: nat, callers: nat) returns (events: seq<Event>)
    requires callers >= 1
    ensures Legal(max, callers, events) && Evict !in events && !Attended(After(max, events))
  {
    events := [];
    var w := World(Key(None, false), map[], []);
    OneMore(max, callers, events, w, StartAdd(0, 0));
    events, w := events + [StartAdd(0, 0)], w.(flying := map[0 := Add(0)]);
    OneMore(max, callers, events, w, Advance(0));
    events, w := events + [Advance(0)], World(Key(Some(0), false), map[0 := Expire(Counted(0))], []);
    OneMore(max, callers, events, w, Advance(0));
    events, w := events + [Advance(0)], World(Key(Some(0), true), map[0 := Return(Counted(0))], []);
    OneMore(max, callers, events, w, Advance(0));
    assert map[0 := Return(Counted(0))] - {0} == map[];
    events, w := events + [Advance(0)], World(Key(Some(0), true), map[], [Counted(0)]);
    OneMore(max, callers, events, w, StartAdd(0, 0));
    events, w := events + [StartAdd(0, 0)], w.(flying := map[0 := Add(0)]);
    OneMore(max, callers, events, w, Advance(0));
    events, w := events + [Advance(0)], w.(flying := map[0 := Expire(Counted(0))]);
    assert 0 in Pending(w);
  }

  /** The key is attended in every run exactly when no plain increment is by zero. */
  lemma AttendanceNeedsPositiveAmounts(max: nat, callers: nat, least: nat)
    requires callers >= 1
    ensures (forall events | Legal(max, callers, events) && Evict !in events && AmountsFrom(events, least) ::
          Attended(After(max, events)))
            <==> least >= 1
  {
    if least >= 1 {
      forall events | Legal(max, callers, events) && Evict !in events && AmountsFrom(events, least)
        ensures Attended(After(max, events))
      {
        KeyWithoutTtlIsAttended(max, callers, events);
      }
    } else {
      var events := ZeroAmountCrowds(max, callers);
      assert AmountsFrom(events, least);
    }
  }
}
