/**
 * What a returned upsert or lift of a user ban did to the rows and to Redis, whatever else ran
 * between its statements, and when later checks see it.
 */
module UserBanWrites {
  import opened Common
  import opened BanRecords
  import opened UserBanProtocol

  /** The row that a write is about to change, as its lookup found it; no value when the call
      is not about to write. */
  function Held(call: Call): Option<Option<nat>> {
    match call
    case Upsert(_, _, WriteRow(slot)) => Some(slot)
    case Lift(_, LiftRow(slot)) => Some(slot)
    case _ => None
  }

  /** The event is the write statement of some upsert or lift. */
  predicate Writes(w: World, ev: Event) {
    ev.Advance? && ev.id in w.calls && Held(w.calls[ev.id]).Some?
  }

  /** No call writes the rows in the steps from `i` to before `j`. */
  ghost predicate Quiet(run: seq<World>, events: seq<Event>, i: nat, j: nat) {
    j <= |events| <= |run| && forall k | i <= k < j :: !Writes(run[k], events[k])
  }

  /** Step `k` is the write statement of the call. */
  ghost predicate WritesIn(run: seq<World>, events: seq<Event>, id: nat, k: nat) {
    k < |events| <= |run| && events[k] == Advance(id) && Writes(run[k], events[k])
  }

  /** The call looked its row up in step `f`, before it wrote in step `k`. */
  ghost predicate LookedUp(run: seq<World>, events: seq<Event>, id: nat, f: nat, k: nat) {
    && WritesIn(run, events, id, k)
    && f < k && events[f] == Advance(id) && id in run[f].calls
    && Held(run[k].calls[id]) == Some(Latest(run[f].rows, Exactly(SUBJECT), None))
  }

  // ---------------------------------------------------------------- the rows

  ghost predicate HoldsOwnRow(w: World, call: Call) {
    Held(call).Some? && Held(call).value.Some? ==>
      Held(call).value.value < |w.rows| && w.rows[Held(call).value.value].target == SUBJECT
  }

  ghost predicate RowsOk(w: World) {
    forall id | id in w.calls :: HoldsOwnRow(w, w.calls[id])
  }

  lemma CallGrowsRows(w: World, ttls: Ttls, call: Call)
    requires !Completed(call) && HoldsOwnRow(w, call)
    ensures Grown(w.rows, AdvanceCall(w, ttls, call).0.rows)
    ensures Held(call).None? ==> AdvanceCall(w, ttls, call).0.rows == w.rows
  {
    match call
    case Upsert(_, until, WriteRow(slot)) =>
      if !Refused(w.rows, slot, Ban(SUBJECT, until, w.now, None)) {
        StoreSparesOthers(w.rows, slot, Ban(SUBJECT, until, w.now, None), SUBJECT);
      }
    case _ =>
  }

  lemma StepKeepsRowsOk(w: World, ttls: Ttls, ev: Event)
    requires Enabled(w, ev) && RowsOk(w)
    ensures RowsOk(Step(w, ttls, ev)) && Grown(w.rows, Step(w, ttls, ev).rows)
    ensures !Writes(w, ev) ==> Step(w, ttls, ev).rows == w.rows
  {
    var w' := Step(w, ttls, ev);
    if ev.Advance? {
      assert HoldsOwnRow(w, w.calls[ev.id]);
      CallGrowsRows(w, ttls, w.calls[ev.id]);
    }
    forall id | id in w'.calls ensures HoldsOwnRow(w', w'.calls[id]) {
      if ev != Advance(id) && id in w.calls {
        assert HoldsOwnRow(w, w.calls[id]);
      }
    }
  }

  lemma {:induction false} RunKeepsRowsOk(run: seq<World>, ttls: Ttls, events: seq<Event>, limit: nat, n: nat)
    requires Run(run, ttls, events, limit) && n < |run|
    ensures RowsOk(run[n])
  {
    if n > 0 {
      RunKeepsRowsOk(run, ttls, events, limit, n - 1);
      assert StepAt(run, ttls, events, n - 1);
      StepKeepsRowsOk(run[n - 1], ttls, events[n - 1]);
    }
  }

  /** The rows change only by writes. */
  lemma {:induction false} RowsStay(run: seq<World>, ttls: Ttls, events: seq<Event>, limit: nat, i: nat, j: nat)
    requires Run(run, ttls, events, limit) && i <= j < |run| && Quiet(run, events, i, j)
    ensures run[j].rows == run[i].rows
    decreases j
  {
    if i < j {
      RowsStay(run, ttls, events, limit, i, j - 1);
      RunKeepsRowsOk(run, ttls, events, limit, j - 1);
      assert StepAt(run, ttls, events, j - 1);
      StepKeepsRowsOk(run[j - 1], ttls, events[j - 1]);
    }
  }

  lemma StepKeepsIndex(w: World, ttls: Ttls, ev: Event)
    requires Enabled(w, ev) && OneOpenPerTarget(w.rows)
    ensures OneOpenPerTarget(Step(w, ttls, ev).rows)
  {
    if ev.Advance? && w.calls[ev.id].Upsert? && w.calls[ev.id].upsert.WriteRow? {
      var Upsert(_, until, WriteRow(slot)) := w.calls[ev.id];
      var row := Ban(SUBJECT, until, w.now, None);
      if !Refused(w.rows, slot, row) && (slot.Some? ==> slot.value < |w.rows|) {
        StoreKeepsIndex(w.rows, slot, row);
      }
    }
  }

  /** At most one open row, in every state of every interleaving. */
  lemma {:induction false} RunKeepsIndex(run: seq<World>, ttls: Ttls, events: seq<Event>, limit: nat, n: nat)
    requires Run(run, ttls, events, limit) && n < |run| && OneOpenPerTarget(run[0].rows)
    ensures OneOpenPerTarget(run[n].rows)
  {
    if n > 0 {
      RunKeepsIndex(run, ttls, events, limit, n - 1);
      assert StepAt(run, ttls, events, n - 1);
      StepKeepsIndex(run[n - 1], ttls, events[n - 1]);
    }
  }

  // ---------------------------------------------------------------- the steps of one write

  predicate JustStarted(call: Call) {
    call.Check? || (call.Upsert? && call.upsert == FindOpen) || (call.Lift? && call.lift == FindLifted)
  }

  predicate SameWrite(a: Call, b: Call) {
    match a
    case Upsert(start, until, _) => b.Upsert? && b.start == start && b.until == until
    case Lift(start, _) => b.Lift? && b.start == start
    case Check(start, _) => false
  }

  /** Step `k` is a step of the call and leaves it as it is in state `n`. */
  ghost predicate Leaves(run: seq<World>, ttls: Ttls, events: seq<Event>, id: nat, k: nat, n: nat) {
    && k < n < |run| == |events| + 1
    && id in run[n].calls
    && events[k] == Advance(id)
    && id in run[k].calls && !Completed(run[k].calls[id]) && SameWrite(run[n].calls[id], run[k].calls[id])
    && var r := AdvanceCall(run[k], ttls, run[k].calls[id]);
       r.1 == run[n].calls[id] && r.0.rows == run[k + 1].rows && r.0.cache == run[k + 1].cache
  }

  /** Where a write stands was left by one of its own steps. */
  lemma {:induction false} LastStep(run: seq<World>, ttls: Ttls, events: seq<Event>, limit: nat, n: nat, id: nat)
    returns (k: nat)
    requires Run(run, ttls, events, limit) && n < |run|
    requires id in run[n].calls && !JustStarted(run[n].calls[id])
    ensures Leaves(run, ttls, events, id, k, n)
  {
    k := n - 1;
    assert StepAt(run, ttls, events, k);
    if events[k] != Advance(id) {
      assert id in run[k].calls && run[k].calls[id] == run[n].calls[id];
      k := LastStep(run, ttls, events, limit, k, id);
    }
  }

  lemma Lookup(run: seq<World>, ttls: Ttls, events: seq<Event>, limit: nat, id: nat, k: nat) returns (f: nat)
    requires Run(run, ttls, events, limit) && WritesIn(run, events, id, k)
    ensures LookedUp(run, events, id, f, k)
  {
    f := LastStep(run, ttls, events, limit, k, id);
  }

  predicate Written(call: Call) {
    !JustStarted(call) && Held(call).None?
  }

  lemma {:induction false} StaysWritten(run: seq<World>, ttls: Ttls, events: seq<Event>, limit: nat, i: nat, j: nat,
        id: nat)
    requires Run(run, ttls, events, limit) && i <= j < |run| && id in run[i].calls && Written(run[i].calls[id])
    ensures id in run[j].calls && Written(run[j].calls[id])
    decreases j
  {
    if i < j {
      StaysWritten(run, ttls, events, limit, i, j - 1, id);
      assert StepAt(run, ttls, events, j - 1);
    }
  }

  /** A call writes in one step only. */
  lemma WrittenOnce(run: seq<World>, ttls: Ttls, events: seq<Event>, limit: nat, id: nat, i: nat, j: nat)
    requires Run(run, ttls, events, limit) && WritesIn(run, events, id, i) && WritesIn(run, events, id, j)
    ensures i == j
  {
    if i != j {
      var first, later := if i < j then i else j, if i < j then j else i;
      assert StepAt(run, ttls, events, first);
      StaysWritten(run, ttls, events, limit, first + 1, later, id);
    }
  }

  // ---------------------------------------------------------------- what an upsert did

  /** The upsert left its row: the user is banned until the given instant, from now on. */
  ghost predicate StoredRow(w: World, w': World, until: Option<Instant>) {
    exists i | 0 <= i < |w'.rows| ::
      && w'.rows[i].target == SUBJECT && w'.rows[i].until == until
      && w'.rows[i].createdAt == w.now && w'.rows[i].Unlifted()
  }

  lemma WriteStoresRow(run: seq<World>, ttls: Ttls, events: seq<Event>, id: nat, k: nat, n: nat)
    requires Leaves(run, ttls, events, id, k, n)
    requires run[k].calls[id].Upsert? && run[k].calls[id].upsert.WriteRow? && run[n].calls[id].upsert != UpsertFailed
    ensures StoredRow(run[k], run[k + 1], run[n].calls[id].until)
    ensures run[n].calls[id].upsert == CacheRow(Ban(SUBJECT, run[n].calls[id].until, run[k].now, None))
  {
    var Upsert(_, until, WriteRow(slot)) := run[k].calls[id];
    var i := if slot.Some? then slot.value else |run[k].rows|;
    assert run[k + 1].rows[i] == Ban(SUBJECT, until, run[k].now, None);
  }

  /** The entry of an upserted ban, stored at `now`. */
  ghost predicate CachedRow(cache: Option<Entry>, until: Option<Instant>, now: Instant) {
    && cache.Some?
    && cache.value.banned && cache.value.expiresAt == UntilSecs(until)
    && now + NANOS_PER_SEC <= cache.value.dies
    && (until.Some? && until.value >= now + NANOS_PER_SEC ==> cache.value.dies <= until.value)
  }

  /** An upsert that has returned wrote its row and then its entry. */
  lemma UpsertStoresItsRow(run: seq<World>, ttls: Ttls, events: seq<Event>, limit: nat, n: nat, id: nat)
    returns (k: nat, d: nat)
    requires Run(run, ttls, events, limit) && n < |run|
    requires id in run[n].calls && run[n].calls[id].Upsert? && run[n].calls[id].upsert == Upserted
    ensures k < d < n && WritesIn(run, events, id, k)
    ensures StoredRow(run[k], run[k + 1], run[n].calls[id].until)
    ensures events[d] == Advance(id) && CachedRow(run[d + 1].cache, run[n].calls[id].until, run[d].now)
  {
    d := LastStep(run, ttls, events, limit, n, id);
    k := LastStep(run, ttls, events, limit, d, id);
    WriteStoresRow(run, ttls, events, id, k, d);
  }

  /** The row stays as long as no call writes. */
  lemma StoredRowStays(run: seq<World>, ttls: Ttls, events: seq<Event>, limit: nat, k: nat, m: nat,
          until: Option<Instant>, t: Instant)
    requires Run(run, ttls, events, limit) && k < m < |run| && StoredRow(run[k], run[k + 1], until)
    requires Quiet(run, events, k + 1, m) && (until.None? || t < until.value)
    ensures Banned(run[m].rows, Exactly(SUBJECT), t)
  {
    RowsStay(run, ttls, events, limit, k + 1, m);
    var i :| 0 <= i < |run[m].rows| && run[m].rows[i].target == SUBJECT && run[m].rows[i].until == until
          && run[m].rows[i].Unlifted();
    assert Hits(Exactly(SUBJECT), run[m].rows[i].target) && run[m].rows[i].ActiveAt(t);
  }

  /** From an upsert's write in step `k` until the ban expires or another call writes, the rows
      ban the user, and a check that still clears the user does so less than the call limit plus
      the negative TTL after the write. */
  lemma UpsertIsSeenInTime(run: seq<World>, ttls: Ttls, events: seq<Event>, limit: nat, n: nat, id: nat, c: nat,
          writer: nat, k: nat)
    requires Run(run, ttls, events, limit) && c <= n < |run|
    requires writer in run[c].calls && run[c].calls[writer].Upsert? && run[c].calls[writer].upsert == Upserted
    requires WritesIn(run, events, writer, k) && Quiet(run, events, k + 1, n)
    requires run[c].calls[writer].until.Some? ==> run[n].now < run[c].calls[writer].until.value
    requires id in run[n].calls && run[n].calls[id].Check? && run[n].calls[id].check.Answered?
    ensures k < c && forall m | k < m <= n :: Banned(run[m].rows, Exactly(SUBJECT), run[m].now)
    ensures k <= run[n].calls[id].check.at <= n && !run[n].calls[id].check.banned ==>
              run[run[n].calls[id].check.at].now < run[k].now + limit + Seconds(Max(ttls.negative, 1))
  {
    var k', _ := UpsertStoresItsRow(run, ttls, events, limit, c, writer);
    WrittenOnce(run, ttls, events, limit, writer, k', k);
    forall m | k < m <= n ensures Banned(run[m].rows, Exactly(SUBJECT), run[m].now) {
      Forward(run, ttls, events, limit, m, n);
      StoredRowStays(run, ttls, events, limit, k, m, run[c].calls[writer].until, run[m].now);
    }
    if !run[n].calls[id].check.banned {
      WrongClearanceIsBounded(run, ttls, events, limit, n, id, k);
    }
  }

  lemma QuietUpsertIsLetThrough(run: seq<World>, ttls: Ttls, events: seq<Event>, limit: nat, id: nat, f: nat, k: nat,
          row: Ban)
    requires Run(run, ttls, events, limit) && OneOpenPerTarget(run[0].rows) && row.target == SUBJECT
    requires LookedUp(run, events, id, f, k) && Quiet(run, events, f, k)
    ensures !Refused(run[k].rows, Held(run[k].calls[id]).value, row)
  {
    RowsStay(run, ttls, events, limit, f, k);
    RunKeepsIndex(run, ttls, events, limit, f);
    StoreAfterFind(run[f].rows, run[k].rows, row);
  }

  /** The index refuses an upsert only if another call wrote between its lookup and its
      write. */
  lemma RefusalNeedsCompany(run: seq<World>, ttls: Ttls, events: seq<Event>, limit: nat, n: nat, id: nat)
    returns (f: nat, j: nat, k: nat)
    requires Run(run, ttls, events, limit) && n < |run| && OneOpenPerTarget(run[0].rows)
    requires id in run[n].calls && run[n].calls[id].Upsert? && run[n].calls[id].upsert == UpsertFailed
    ensures LookedUp(run, events, id, f, k)
    ensures f < j < k && Writes(run[j], events[j]) && events[j] != Advance(id)
  {
    k := LastStep(run, ttls, events, limit, n, id);
    var Upsert(_, until, WriteRow(slot)) := run[k].calls[id];
    f := Lookup(run, ttls, events, limit, id, k);
    RunKeepsRowsOk(run, ttls, events, limit, k);
    assert HoldsOwnRow(run[k], run[k].calls[id]);
    if Quiet(run, events, f, k) {
      QuietUpsertIsLetThrough(run, ttls, events, limit, id, f, k, Ban(SUBJECT, until, run[k].now, None));
      assert false;
    }
    forall i: nat | WritesIn(run, events, id, i) ensures i == k {
      WrittenOnce(run, ttls, events, limit, id, i, k);
    }
    j := OtherWrite(run, events, id, f, k);
  }

  lemma OtherWrite(run: seq<World>, events: seq<Event>, id: nat, f: nat, k: nat) returns (j: nat)
    requires LookedUp(run, events, id, f, k) && !Quiet(run, events, f, k)
    requires forall i: nat :: WritesIn(run, events, id, i) ==> i == k
    ensures f < j < k && Writes(run[j], events[j]) && events[j] != Advance(id)
  {
    j :| f <= j < k && Writes(run[j], events[j]);
    assert !WritesIn(run, events, id, j);
  }

  // ---------------------------------------------------------------- what a lift did

  /** The row that the lift found in the rows of step `f`, if any, is marked as lifted. */
  ghost predicate LiftedRow(run: seq<World>, f: nat, k: nat)
    requires f < |run| && k + 1 < |run|
  {
    var slot := Latest(run[f].rows, Exactly(SUBJECT), None);
    if slot.None? then run[k + 1].rows == run[k].rows
    else
      && slot.value < |run[k].rows| && run[k].rows[slot.value].target == SUBJECT
      && run[k + 1].rows == run[k].rows[slot.value := run[k].rows[slot.value].(liftedAt := Some(run[k].now))]
  }

  /** A lift that has returned marked the row it had found and then deleted the entry. */
  lemma LiftLiftsItsRow(run: seq<World>, ttls: Ttls, events: seq<Event>, limit: nat, n: nat, id: nat)
    returns (f: nat, k: nat, d: nat)
    requires Run(run, ttls, events, limit) && n < |run|
    requires id in run[n].calls && run[n].calls[id].Lift? && run[n].calls[id].lift == LiftDone
    ensures f < k < d < n && LookedUp(run, events, id, f, k) && LiftedRow(run, f, k)
    ensures events[d] == Advance(id) && run[d + 1].cache == None
  {
    d := LastStep(run, ttls, events, limit, n, id);
    k := LastStep(run, ttls, events, limit, d, id);
    f := Lookup(run, ttls, events, limit, id, k);
    RunKeepsRowsOk(run, ttls, events, limit, k);
    assert HoldsOwnRow(run[k], run[k].calls[id]);
  }

  /** No lift is ever refused. */
  lemma LiftsNeverFail(run: seq<World>, ttls: Ttls, events: seq<Event>, limit: nat, n: nat, id: nat)
    requires Run(run, ttls, events, limit) && n < |run| && id in run[n].calls && run[n].calls[id].Lift?
    ensures run[n].calls[id].lift != LiftFailed
  {
    if !JustStarted(run[n].calls[id]) {
      var k := LastStep(run, ttls, events, limit, n, id);
      RunKeepsRowsOk(run, ttls, events, limit, k);
      assert HoldsOwnRow(run[k], run[k].calls[id]);
    }
  }

  /** `lift` had returned by state `c`, and of all calls only it wrote the rows before
      state `n`, from the step of its lookup on. */
  ghost predicate OnlyLift(run: seq<World>, events: seq<Event>, c: nat, n: nat, writer: nat, f: nat, k: nat) {
    && c <= n < |run|
    && writer in run[c].calls && run[c].calls[writer].Lift? && run[c].calls[writer].lift == LiftDone
    && LookedUp(run, events, writer, f, k)
    && Quiet(run, events, f, k) && Quiet(run, events, k + 1, n)
  }

  /** From such a lift's write in step `k` on the user has no open row, and a check that still
      refuses does so less than two call limits plus the longest positive TTL after it. */
  lemma LiftIsSeenInTime(run: seq<World>, ttls: Ttls, events: seq<Event>, limit: nat, n: nat, id: nat, c: nat,
          writer: nat, f: nat, k: nat)
    requires OnlyLift(run, events, c, n, writer, f, k) && OneOpenPerTarget(run[0].rows)
    requires id in run[n].calls && run[n].calls[id].Check? && run[n].calls[id].check.Answered?
    requires Run(run, ttls, events, limit)
    ensures k < c && forall m | k < m <= n :: NoOpenRow(run[m].rows, SUBJECT)
    ensures k <= run[n].calls[id].check.at <= n && run[n].calls[id].check.banned ==>
              run[run[n].calls[id].check.at].now < run[k].now + 2 * limit
                    + Seconds(Max(TEMP_BAN_CACHE_CAP_SECS, ttls.permanent))
  {
    var f', k', _ := LiftLiftsItsRow(run, ttls, events, limit, c, writer);
    WrittenOnce(run, ttls, events, limit, writer, k', k);
    RowsStay(run, ttls, events, limit, f, k);
    RunKeepsIndex(run, ttls, events, limit, f);
    LiftAfterFind(run[f].rows, run[k].rows, SUBJECT, run[k].now);
    forall m | k < m <= n ensures NoOpenRow(run[m].rows, SUBJECT) {
      RowsStay(run, ttls, events, limit, k + 1, m);
    }
    if run[n].calls[id].check.banned {
      forall m | k < m <= n ensures !Banned(run[m].rows, Exactly(SUBJECT), run[k].now) {
        assert NoOpenRow(run[m].rows, SUBJECT);
      }
      WrongRefusalIsBounded(run, ttls, events, limit, n, id, k);
    }
  }
}
