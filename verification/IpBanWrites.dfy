/**
 * What a returned upsert or lift of an ip ban did to the rows and to Redis, whatever else ran
 * between its statements: the row it wrote, when the index refuses it, and how long its
 * effect lasts.
 */
module IpBanWrites {
  import opened Common
  import opened BanRecords
  import opened IpBanProtocol

  /** The call is about to write the rows of the target. */
  predicate AboutToWrite(call: Call, target: Target) {
    !call.Check? && call.target == target && call.write.Write?
  }

  /** The event is the write statement of some upsert or lift of the target. */
  predicate Writes(w: World, ev: Event, target: Target) {
    ev.Advance? && ev.id in w.calls && AboutToWrite(w.calls[ev.id], target)
  }

  /** No call writes the rows of the target in the steps from `i` to before `j`. */
  ghost predicate Quiet(run: seq<World>, events: seq<Event>, target: Target, i: nat, j: nat) {
    j <= |events| <= |run| && forall k | i <= k < j :: !Writes(run[k], events[k], target)
  }

  // ---------------------------------------------------------------- the rows

  /** A call that found a row holds the key of a row of its target. */
  ghost predicate HoldsOwnRow(w: World, call: Call) {
    !call.Check? && call.write.Write? && call.write.slot.Some? ==>
      call.write.slot.value < |w.rows| && w.rows[call.write.slot.value].target == call.target
  }

  ghost predicate RowsOk(w: World) {
    forall id | id in w.calls :: HoldsOwnRow(w, w.calls[id])
  }

  /** What one step does to the rows: it writes those of at most one target. */
  lemma StepGrowsRows(w: World, ttls: Ttls, ev: Event, target: Target)
    requires Enabled(w, false, ev) && RowsOk(w)
    ensures Grown(w.rows, Step(w, ttls, ev).rows)
    ensures !Writes(w, ev, target) ==> SameRowsOf(w.rows, Step(w, ttls, ev).rows, target)
  {
    if ev.Advance? {
      CallGrowsRows(w, ttls, w.calls[ev.id], target);
    }
  }

  lemma CallGrowsRows(w: World, ttls: Ttls, call: Call, target: Target)
    requires !Completed(call) && HoldsOwnRow(w, call)
    ensures var later := AdvanceCall(w, ttls, call).0.rows;
            Grown(w.rows, later) && (!AboutToWrite(call, target) ==> SameRowsOf(w.rows, later, target))
  {
    match call
    case Upsert(x, until, _, Write(slot)) =>
      if !Refused(w.rows, slot, Ban(x, until, w.now, None)) {
        StoreSparesOthers(w.rows, slot, Ban(x, until, w.now, None), target);
      }
    case _ =>
  }

  lemma StepKeepsRowsOk(w: World, ttls: Ttls, ev: Event)
    requires Enabled(w, false, ev) && RowsOk(w)
    ensures RowsOk(Step(w, ttls, ev))
  {
    var w' := Step(w, ttls, ev);
    forall id | id in w'.calls ensures HoldsOwnRow(w', w'.calls[id]) {
      if ev != Advance(id) && id in w.calls {
        OthersWait(w, ttls, ev, id);
        assert HoldsOwnRow(w, w.calls[id]);
        StepGrowsRows(w, ttls, ev, User(0));
      }
    }
  }

  lemma {:induction false} RunKeepsRowsOk(run: seq<World>, ttls: Ttls, events: seq<Event>, keeps: bool, n: nat)
    requires AnyRun(run, ttls, events, keeps) && n < |run|
    ensures RowsOk(run[n])
  {
    if n > 0 {
      RunKeepsRowsOk(run, ttls, events, keeps, n - 1);
      assert StepAt(run, ttls, events, keeps, n - 1);
      StepKeepsRowsOk(run[n - 1], ttls, events[n - 1]);
    }
  }

  lemma RunStepGrowsRows(run: seq<World>, ttls: Ttls, events: seq<Event>, keeps: bool, n: nat, target: Target)
    requires AnyRun(run, ttls, events, keeps) && n + 1 < |run|
    ensures Grown(run[n].rows, run[n + 1].rows)
    ensures !Writes(run[n], events[n], target) ==> SameRowsOf(run[n].rows, run[n + 1].rows, target)
  {
    RunKeepsRowsOk(run, ttls, events, keeps, n);
    assert StepAt(run, ttls, events, keeps, n);
    StepGrowsRows(run[n], ttls, events[n], target);
  }

  /** Rows are never deleted, and those of a target change only by writes of the target. */
  lemma {:induction false} RowsGrow(run: seq<World>, ttls: Ttls, events: seq<Event>, keeps: bool, i: nat, j: nat,
        target: Target)
    requires AnyRun(run, ttls, events, keeps) && i <= j < |run|
    ensures Grown(run[i].rows, run[j].rows)
    ensures Quiet(run, events, target, i, j) ==> SameRowsOf(run[i].rows, run[j].rows, target)
    decreases j
  {
    if i < j {
      RowsGrow(run, ttls, events, keeps, i, j - 1, target);
      RunStepGrowsRows(run, ttls, events, keeps, j - 1, target);
      GrowthChains(run[i].rows, run[j - 1].rows, run[j].rows, target);
    }
  }

  lemma StepKeepsIndex(w: World, ttls: Ttls, ev: Event)
    requires Enabled(w, false, ev) && OneOpenPerTarget(w.rows)
    ensures OneOpenPerTarget(Step(w, ttls, ev).rows)
  {
    if ev.Advance? && w.calls[ev.id].Upsert? && w.calls[ev.id].write.Write? {
      var Upsert(target, until, _, Write(slot)) := w.calls[ev.id];
      var row := Ban(target, until, w.now, None);
      if !Refused(w.rows, slot, row) && (slot.Some? ==> slot.value < |w.rows|) {
        StoreKeepsIndex(w.rows, slot, row);
      }
    }
  }

  /** At most one open row per target, in every state of every interleaving. */
  lemma {:induction false} RunKeepsIndex(run: seq<World>, ttls: Ttls, events: seq<Event>, keeps: bool, n: nat)
    requires AnyRun(run, ttls, events, keeps) && n < |run| && OneOpenPerTarget(run[0].rows)
    ensures OneOpenPerTarget(run[n].rows)
  {
    if n > 0 {
      RunKeepsIndex(run, ttls, events, keeps, n - 1);
      assert StepAt(run, ttls, events, keeps, n - 1);
      StepKeepsIndex(run[n - 1], ttls, events[n - 1]);
    }
  }

  // ---------------------------------------------------------------- the steps of one write

  lemma {:induction false} BornBefore(run: seq<World>, ttls: Ttls, events: seq<Event>, keeps: bool, n: nat, id: nat)
    requires AnyRun(run, ttls, events, keeps) && n < |run| && id in run[n].calls
    ensures run[n].calls[id].born < n
  {
    if n > 0 {
      assert StepAt(run, ttls, events, keeps, n - 1);
      ClockAdvances(run, ttls, events, keeps, n - 1, n - 1);
      if id in run[n - 1].calls {
        BornBefore(run, ttls, events, keeps, n - 1, id);
      }
    }
  }

  /** Step `k` is a step of the call and leaves it as it is in state `n`. */
  ghost predicate Leaves(run: seq<World>, ttls: Ttls, events: seq<Event>, id: nat, k: nat, n: nat) {
    && k < n < |run| == |events| + 1
    && id in run[n].calls
    && events[k] == Advance(id) && run[k].steps == k
    && id in run[k].calls && !Completed(run[k].calls[id])
    && var r := AdvanceCall(run[k], ttls, run[k].calls[id]);
       && r.1 == run[n].calls[id]
       && r.0.rows == run[k + 1].rows && r.0.exact == run[k + 1].exact && r.0.version == run[k + 1].version
  }

  /** Where a write stands was left by one of its own steps. */
  lemma {:induction false} LastStep(run: seq<World>, ttls: Ttls, events: seq<Event>, keeps: bool, n: nat, id: nat)
    returns (k: nat)
    requires AnyRun(run, ttls, events, keeps) && n < |run|
    requires id in run[n].calls && !run[n].calls[id].Check? && run[n].calls[id].write != Find
    ensures Leaves(run, ttls, events, id, k, n) && run[n].calls[id].born < k
  {
    k := n - 1;
    assert StepAt(run, ttls, events, keeps, k);
    if events[k] == Advance(id) {
      BornBefore(run, ttls, events, keeps, k, id);
      ClockAdvances(run, ttls, events, keeps, k, k);
    } else {
      OthersWait(run[k], ttls, events[k], id);
      k := LastStep(run, ttls, events, keeps, k, id);
    }
  }

  /** Step `k` is the write statement of the call. */
  ghost predicate WritesIn(run: seq<World>, events: seq<Event>, id: nat, k: nat, target: Target) {
    k < |events| <= |run| && events[k] == Advance(id) && Writes(run[k], events[k], target)
  }

  /** The call looked its row up in step `f`, before it wrote in step `k`. */
  ghost predicate LookedUp(run: seq<World>, events: seq<Event>, id: nat, f: nat, k: nat, target: Target) {
    && WritesIn(run, events, id, k, target)
    && run[k].calls[id].born < f < k && events[f] == Advance(id)
    && run[k].calls[id].write.slot == Latest(run[f].rows, Exactly(target), None)
  }

  lemma Lookup(run: seq<World>, ttls: Ttls, events: seq<Event>, keeps: bool, id: nat, k: nat, target: Target)
    returns (f: nat)
    requires AnyRun(run, ttls, events, keeps) && WritesIn(run, events, id, k, target)
    ensures LookedUp(run, events, id, f, k, target)
  {
    f := LastStep(run, ttls, events, keeps, k, id);
  }

  /** Calls stay, and stay what they are. */
  lemma {:induction false} CallsStay(run: seq<World>, ttls: Ttls, events: seq<Event>, keeps: bool, i: nat, j: nat,
        id: nat)
    requires AnyRun(run, ttls, events, keeps) && i <= j < |run| && id in run[i].calls
    ensures id in run[j].calls && (run[j].calls[id].Check? <==> run[i].calls[id].Check?)
    decreases j
  {
    if i < j {
      CallsStay(run, ttls, events, keeps, i, j - 1, id);
      assert StepAt(run, ttls, events, keeps, j - 1);
      if events[j - 1] != Advance(id) {
        OthersWait(run[j - 1], ttls, events[j - 1], id);
      }
    }
  }

  predicate Written(call: Call) {
    !call.Check? && !call.write.Find? && !call.write.Write?
  }

  lemma {:induction false} StaysWritten(run: seq<World>, ttls: Ttls, events: seq<Event>, keeps: bool, i: nat, j: nat,
        id: nat)
    requires AnyRun(run, ttls, events, keeps) && i <= j < |run| && id in run[i].calls && Written(run[i].calls[id])
    ensures id in run[j].calls && Written(run[j].calls[id])
    decreases j
  {
    if i < j {
      StaysWritten(run, ttls, events, keeps, i, j - 1, id);
      assert StepAt(run, ttls, events, keeps, j - 1);
      if events[j - 1] != Advance(id) {
        OthersWait(run[j - 1], ttls, events[j - 1], id);
      }
    }
  }

  /** A call writes in one step only. */
  lemma WrittenOnce(run: seq<World>, ttls: Ttls, events: seq<Event>, keeps: bool, id: nat, i: nat, j: nat,
          target: Target)
    requires AnyRun(run, ttls, events, keeps)
    requires WritesIn(run, events, id, i, target) && WritesIn(run, events, id, j, target)
    ensures i == j
  {
    if i != j {
      var first, later := if i < j then i else j, if i < j then j else i;
      assert StepAt(run, ttls, events, keeps, first);
      StaysWritten(run, ttls, events, keeps, first + 1, later, id);
    }
  }

  // ---------------------------------------------------------------- what an upsert did

  /** The upsert left its row: the target is banned until the given instant, from now on. */
  ghost predicate StoredRow(w: World, w': World, target: Target, until: Option<Instant>) {
    exists i | 0 <= i < |w'.rows| ::
      && w'.rows[i].target == target && w'.rows[i].until == until
      && w'.rows[i].createdAt == w.now && w'.rows[i].Unlifted()
  }

  lemma WriteStoresRow(run: seq<World>, ttls: Ttls, events: seq<Event>, id: nat, k: nat, n: nat)
    requires Leaves(run, ttls, events, id, k, n)
    requires run[k].calls[id].Upsert? && run[k].calls[id].write.Write? && run[n].calls[id].write != Failed
    ensures StoredRow(run[k], run[k + 1], run[n].calls[id].target, run[n].calls[id].until)
  {
    var Upsert(target, until, _, Write(slot)) := run[k].calls[id];
    var i := if slot.Some? then slot.value else |run[k].rows|;
    assert run[k + 1].rows[i] == Ban(target, until, run[k].now, None);
  }

  /** The entry of an upserted ip. */
  ghost predicate CachedRow(run: seq<World>, ttls: Ttls, d: nat, ip: Ip, until: Option<Instant>)
    requires d + 1 < |run|
  {
    && ip in run[d + 1].exact
    && var entry := run[d + 1].exact[ip];
       && entry.banned && entry.expiresAt == UntilSecs(until)
       && run[d].now + NANOS_PER_SEC <= entry.dies
       && (until.Some? && until.value >= run[d].now + NANOS_PER_SEC ==> entry.dies <= until.value)
  }

  /** An upsert that has returned wrote its row and, for an ip, then its entry, before it
      bumped the version. */
  lemma UpsertStoresItsRow(run: seq<World>, ttls: Ttls, events: seq<Event>, keeps: bool, n: nat, id: nat)
    returns (k: nat, d: nat)
    requires AnyRun(run, ttls, events, keeps) && n < |run|
    requires id in run[n].calls && run[n].calls[id].Upsert? && run[n].calls[id].write.Returned?
    ensures var Upsert(target, until, born, Returned(bumped)) := run[n].calls[id];
            && born < k <= d < bumped < n
            && WritesIn(run, events, id, k, target) && StoredRow(run[k], run[k + 1], target, until)
            && (target.Addr? ==> k < d && CachedRow(run, ttls, d, target.ip, until))
            && run[bumped + 1].version == run[bumped].version + 1
  {
    var bump := LastStep(run, ttls, events, keeps, n, id);
    d := LastStep(run, ttls, events, keeps, bump, id);
    k := d;
    if run[d].calls[id].write.Cache? {
      k := LastStep(run, ttls, events, keeps, d, id);
      WriteStoresRow(run, ttls, events, id, k, d);
    } else {
      WriteStoresRow(run, ttls, events, id, k, bump);
    }
  }

  /** With no other upsert or lift ever started, nothing is written after the write. */
  lemma LoneWriteIsQuiet(run: seq<World>, ttls: Ttls, events: seq<Event>, keeps: bool, n: nat, writer: nat, k: nat,
          target: Target)
    requires AnyRun(run, ttls, events, keeps) && n < |run| && WritesIn(run, events, writer, k, target)
    requires forall id | id in run[n].calls && id != writer :: run[n].calls[id].Check?
    ensures Quiet(run, events, target, k + 1, n)
  {
    forall j: nat | k < j < n ensures !Writes(run[j], events[j], target) {
      if Writes(run[j], events[j], target) {
        CallsStay(run, ttls, events, keeps, j, n, events[j].id);
        WrittenOnce(run, ttls, events, keeps, writer, k, j, target);
      }
    }
  }

  /** The row stays as long as no call writes the target's rows. */
  lemma StoredRowStays(run: seq<World>, ttls: Ttls, events: seq<Event>, keeps: bool, k: nat, m: nat, target: Target,
          until: Option<Instant>, t: Instant)
    requires AnyRun(run, ttls, events, keeps) && k < m < |run| && StoredRow(run[k], run[k + 1], target, until)
    requires Quiet(run, events, target, k + 1, m) && (until.None? || t < until.value)
    ensures Banned(run[m].rows, Exactly(target), t)
  {
    var i :| 0 <= i < |run[k + 1].rows| && run[k + 1].rows[i].target == target && run[k + 1].rows[i].until == until
          && run[k + 1].rows[i].Unlifted();
    RowsGrow(run, ttls, events, keeps, k + 1, m, target);
    assert run[m].rows[i] == run[k + 1].rows[i];
    assert Hits(Exactly(target), run[m].rows[i].target) && run[m].rows[i].ActiveAt(t);
  }

  /** Once an upsert of a network has returned, every check that starts later says banned for
      every ip the network contains, until the ban expires or another call writes the rows of
      the network. `k` is the step in which the upsert wrote its row. */
  lemma UpsertedNetworkIsSeen(run: seq<World>, ttls: Ttls, events: seq<Event>, n: nat, id: nat, c: nat, writer: nat,
          k: nat)
    requires Run(run, ttls, events) && c <= n < |run|
    requires id in run[n].calls && run[n].calls[id].Check? && run[n].calls[id].check.Answered?
    requires writer in run[c].calls && run[c].calls[writer].Upsert? && run[c].calls[writer].write.Returned?
    requires c <= run[n].calls[id].born
    requires Hits(Covering(run[n].calls[id].ip), run[c].calls[writer].target)
    requires WritesIn(run, events, writer, k, run[c].calls[writer].target)
    requires Quiet(run, events, run[c].calls[writer].target, k + 1, n)
    requires run[c].calls[writer].until.Some? ==> run[n].now < run[c].calls[writer].until.value
    ensures run[n].calls[id].check.banned
  {
    var Upsert(target, until, _, Returned(bumped)) := run[c].calls[writer];
    var k', _ := UpsertStoresItsRow(run, ttls, events, true, c, writer);
    WrittenOnce(run, ttls, events, true, writer, k', k, target);
    forall m | bumped < m <= n ensures Banned(run[m].rows, Exactly(target), run[m].now) {
      Forward(run, ttls, events, m, n);
      StoredRowStays(run, ttls, events, true, k, m, target, until, run[m].now);
    }
    BannedNetworkIsSeen(run, ttls, events, n, id, c, writer);
  }

  lemma QuietUpsertIsLetThrough(run: seq<World>, ttls: Ttls, events: seq<Event>, keeps: bool, id: nat, f: nat, k: nat,
          row: Ban)
    requires AnyRun(run, ttls, events, keeps) && OneOpenPerTarget(run[0].rows)
    requires LookedUp(run, events, id, f, k, row.target) && Quiet(run, events, row.target, f, k)
    ensures var slot := run[k].calls[id].write.slot;
            !(slot.Some? && slot.value >= |run[k].rows|) && !Refused(run[k].rows, slot, row)
  {
    RunKeepsRowsOk(run, ttls, events, keeps, k);
    assert HoldsOwnRow(run[k], run[k].calls[id]);
    RowsGrow(run, ttls, events, keeps, f, k, row.target);
    RunKeepsIndex(run, ttls, events, keeps, f);
    StoreAfterFind(run[f].rows, run[k].rows, row);
  }

  /** The index refuses an upsert only if another call wrote the target's rows between the
      upsert's lookup and its write. */
  lemma RefusalNeedsCompany(run: seq<World>, ttls: Ttls, events: seq<Event>, keeps: bool, n: nat, id: nat)
    returns (f: nat, j: nat, k: nat)
    requires AnyRun(run, ttls, events, keeps) && n < |run| && OneOpenPerTarget(run[0].rows)
    requires id in run[n].calls && run[n].calls[id].Upsert? && run[n].calls[id].write.Failed?
    ensures LookedUp(run, events, id, f, k, run[n].calls[id].target)
    ensures f < j < k && Writes(run[j], events[j], run[n].calls[id].target) && events[j] != Advance(id)
  {
    k := LastStep(run, ttls, events, keeps, n, id);
    var Upsert(target, until, _, Write(slot)) := run[k].calls[id];
    f := Lookup(run, ttls, events, keeps, id, k, target);
    RunKeepsRowsOk(run, ttls, events, keeps, k);
    assert HoldsOwnRow(run[k], run[k].calls[id]);
    if Quiet(run, events, target, f, k) {
      QuietUpsertIsLetThrough(run, ttls, events, keeps, id, f, k, Ban(target, until, run[k].now, None));
      assert false;
    }
    forall i: nat | WritesIn(run, events, id, i, target) ensures i == k {
      WrittenOnce(run, ttls, events, keeps, id, i, k, target);
    }
    j := OtherWrite(run, events, id, f, k, target);
  }

  lemma OtherWrite(run: seq<World>, events: seq<Event>, id: nat, f: nat, k: nat, target: Target) returns (j: nat)
    requires LookedUp(run, events, id, f, k, target) && !Quiet(run, events, target, f, k)
    requires forall i: nat :: WritesIn(run, events, id, i, target) ==> i == k
    ensures f < j < k && Writes(run[j], events[j], target) && events[j] != Advance(id)
  {
    j :| f <= j < k && Writes(run[j], events[j], target);
    assert !WritesIn(run, events, id, j, target);
  }

  /** Nor does an upsert of an ip itself ever go unseen by a check that starts later. */
  lemma UpsertedIpIsSeen(run: seq<World>, ttls: Ttls, events: seq<Event>, n: nat, id: nat, c: nat, writer: nat, k: nat)
    requires Run(run, ttls, events) && c <= n < |run|
    requires id in run[n].calls && run[n].calls[id].Check? && run[n].calls[id].check.Answered?
    requires writer in run[c].calls && run[c].calls[writer].Upsert? && run[c].calls[writer].write.Returned?
    requires c <= run[n].calls[id].born && run[c].calls[writer].target == Addr(run[n].calls[id].ip)
    requires WritesIn(run, events, writer, k, run[c].calls[writer].target)
    requires Quiet(run, events, run[c].calls[writer].target, k + 1, n)
    requires run[c].calls[writer].until.Some? ==> run[n].now < run[c].calls[writer].until.value
    ensures run[n].calls[id].check.banned
  {
    var Upsert(target, until, _, Returned(bumped)) := run[c].calls[writer];
    var k', _ := UpsertStoresItsRow(run, ttls, events, true, c, writer);
    WrittenOnce(run, ttls, events, true, writer, k', k, target);
    forall m | c <= m <= n ensures Banned(run[m].rows, Exactly(target), run[m].now) {
      Forward(run, ttls, events, m, n);
      StoredRowStays(run, ttls, events, true, k, m, target, until, run[m].now);
    }
    ExactBanIsSeen(run, ttls, events, n, id);
  }

  // ---------------------------------------------------------------- what a lift did

  /** The row that the lift found in the rows of step `f`, if any, is marked as lifted. */
  ghost predicate LiftedRow(run: seq<World>, f: nat, k: nat, target: Target)
    requires f < |run| && k + 1 < |run|
  {
    var slot := Latest(run[f].rows, Exactly(target), None);
    if slot.None? then run[k + 1].rows == run[k].rows
    else
      && slot.value < |run[k].rows| && run[k].rows[slot.value].target == target
      && run[k + 1].rows == run[k].rows[slot.value := run[k].rows[slot.value].(liftedAt := Some(run[k].now))]
  }

  /** Step `d` is the lift's deletion of the entry. */
  ghost predicate DeletesIn(run: seq<World>, events: seq<Event>, writer: nat, d: nat, ip: Ip) {
    && d < |events| < |run| && events[d] == Advance(writer)
    && writer in run[d].calls && run[d].calls[writer].Lift? && run[d].calls[writer].target == Addr(ip)
    && run[d].calls[writer].write == Cache && ip !in run[d + 1].exact
  }

  lemma WriteLiftsRow(run: seq<World>, ttls: Ttls, events: seq<Event>, keeps: bool, id: nat, k: nat) returns (f: nat)
    requires AnyRun(run, ttls, events, keeps) && k < |events| && events[k] == Advance(id)
    requires id in run[k].calls && run[k].calls[id].Lift? && run[k].calls[id].write.Write?
    ensures LookedUp(run, events, id, f, k, run[k].calls[id].target)
    ensures LiftedRow(run, f, k, run[k].calls[id].target)
    ensures id in run[k + 1].calls && !run[k + 1].calls[id].Check? && run[k + 1].calls[id].write != Failed
  {
    f := Lookup(run, ttls, events, keeps, id, k, run[k].calls[id].target);
    RunKeepsRowsOk(run, ttls, events, keeps, k);
    assert HoldsOwnRow(run[k], run[k].calls[id]);
    assert StepAt(run, ttls, events, keeps, k);
  }

  /** A lift that has returned marked the row it had found and, for an ip, then deleted the
      entry, before it bumped the version. */
  lemma LiftLiftsItsRow(run: seq<World>, ttls: Ttls, events: seq<Event>, keeps: bool, n: nat, id: nat)
    returns (f: nat, k: nat, d: nat)
    requires AnyRun(run, ttls, events, keeps) && n < |run|
    requires id in run[n].calls && run[n].calls[id].Lift? && run[n].calls[id].write.Returned?
    ensures var Lift(target, born, Returned(bumped)) := run[n].calls[id];
            && born < f < k <= d < bumped < n
            && LookedUp(run, events, id, f, k, target) && run[k].calls[id].Lift? && LiftedRow(run, f, k, target)
            && (target.Addr? ==> k < d && DeletesIn(run, events, id, d, target.ip))
            && run[bumped + 1].version == run[bumped].version + 1
  {
    var bump := LastStep(run, ttls, events, keeps, n, id);
    d := LastStep(run, ttls, events, keeps, bump, id);
    k := d;
    if run[d].calls[id].write.Cache? {
      k := LastStep(run, ttls, events, keeps, d, id);
    }
    f := WriteLiftsRow(run, ttls, events, keeps, id, k);
  }

  /** No lift is ever refused. */
  lemma LiftsNeverFail(run: seq<World>, ttls: Ttls, events: seq<Event>, keeps: bool, n: nat, id: nat)
    requires AnyRun(run, ttls, events, keeps) && n < |run| && id in run[n].calls && run[n].calls[id].Lift?
    ensures run[n].calls[id].write != Failed
  {
    if run[n].calls[id].write != Find {
      var k := LastStep(run, ttls, events, keeps, n, id);
      RunKeepsRowsOk(run, ttls, events, keeps, k);
      assert HoldsOwnRow(run[k], run[k].calls[id]);
    }
  }

  /** If no other call wrote the target's rows since the lift looked its row up, no row of the
      target is open from the lift's write until the next write of the target. */
  lemma LiftedTargetIsFree(run: seq<World>, ttls: Ttls, events: seq<Event>, keeps: bool, m: nat, id: nat, f: nat,
          k: nat, target: Target)
    requires AnyRun(run, ttls, events, keeps) && k < m < |run| && OneOpenPerTarget(run[0].rows)
    requires LookedUp(run, events, id, f, k, target) && run[k].calls[id].Lift?
    requires Quiet(run, events, target, f, k) && Quiet(run, events, target, k + 1, m)
    ensures NoOpenRow(run[m].rows, target)
  {
    var f' := WriteLiftsRow(run, ttls, events, keeps, id, k);
    RunKeepsIndex(run, ttls, events, keeps, f);
    RowsGrow(run, ttls, events, keeps, f, k, target);
    LiftAfterFind(run[f].rows, run[k].rows, target, run[k].now);
    RowsGrow(run, ttls, events, keeps, k + 1, m, target);
  }

  /** From step `i` to before `j`, no other call than `writer` writes the target's rows. */
  ghost predicate OnlyWriter(run: seq<World>, events: seq<Event>, target: Target, writer: nat, i: nat, j: nat) {
    j <= |events| <= |run| && forall k | i <= k < j && Writes(run[k], events[k], target) :: events[k] == Advance(writer)
  }

  lemma OnlyOwnWrite(run: seq<World>, events: seq<Event>, target: Target, writer: nat, i: nat, k: nat, j: nat)
    requires OnlyWriter(run, events, target, writer, i, j) && i <= k < j
    requires forall m: nat :: WritesIn(run, events, writer, m, target) ==> m == k
    ensures Quiet(run, events, target, i, k) && Quiet(run, events, target, k + 1, j)
  {
    forall m | i <= m < j && m != k ensures !Writes(run[m], events[m], target) {
      assert !WritesIn(run, events, writer, m, target);
    }
  }

  /** `lift` had returned by state `c`; from its start to state `n`, no other call wrote the rows
      of its target. */
  ghost predicate OnlyLift(run: seq<World>, events: seq<Event>, c: nat, n: nat, writer: nat, lift: Call) {
    && c <= n < |run|
    && writer in run[c].calls && run[c].calls[writer] == lift
    && lift.Lift? && lift.write.Returned?
    && OnlyWriter(run, events, lift.target, writer, lift.born, n)
  }

  /** Such a lift leaves its target free and, for an ip, without an entry at step `d`. */
  lemma OnlyLiftFreesTarget(run: seq<World>, ttls: Ttls, events: seq<Event>, c: nat, n: nat, writer: nat, lift: Call)
    returns (d: nat)
    requires OnlyLift(run, events, c, n, writer, lift) && OneOpenPerTarget(run[0].rows)
    requires Run(run, ttls, events)
    ensures lift.born < d < lift.write.bumpedAt < c
    ensures forall m | d < m <= n :: NoOpenRow(run[m].rows, lift.target)
    ensures lift.target.Addr? ==> DeletesIn(run, events, writer, d, lift.target.ip)
  {
    var f, k;
    f, k, d := LiftLiftsItsRow(run, ttls, events, true, c, writer);
    forall i: nat | WritesIn(run, events, writer, i, lift.target) ensures i == k {
      WrittenOnce(run, ttls, events, true, writer, i, k, lift.target);
    }
    OnlyOwnWrite(run, events, lift.target, writer, lift.born, k, n);
    forall m | d < m <= n ensures NoOpenRow(run[m].rows, lift.target) {
      QuietPart(run, events, lift.target, lift.born, k, f, k);
      QuietPart(run, events, lift.target, k + 1, n, k + 1, m);
      LiftedTargetIsFree(run, ttls, events, true, m, writer, f, k, lift.target);
    }
  }

  lemma QuietPart(run: seq<World>, events: seq<Event>, target: Target, i: nat, j: nat, k: nat, l: nat)
    requires Quiet(run, events, target, i, j) && i <= k && l <= j
    ensures Quiet(run, events, target, k, l)
  {
  }

  /** No network other than `target` covers the ip at the instant `t`. */
  ghost predicate NoOtherNetwork(rows: seq<Ban>, target: Target, ip: Ip, t: Instant) {
    forall i | 0 <= i < |rows| && rows[i].target != target && Hits(Covering(ip), rows[i].target) ::
      !rows[i].ActiveAt(t)
  }

  ghost predicate AnsweredLater(run: seq<World>, n: nat, id: nat, ip: Ip, c: nat) {
    && n < |run| && id in run[n].calls && run[n].calls[id].Check? && run[n].calls[id].ip == ip
    && run[n].calls[id].check.Answered? && c <= run[n].calls[id].born
  }

  /** Once a lift of a network has returned, no check that starts later refuses on account of
      that network, until another call writes its rows. */
  lemma LiftedNetworkIsSeen(run: seq<World>, ttls: Ttls, events: seq<Event>, n: nat, id: nat, ip: Ip, c: nat,
          writer: nat, lift: Call)
    requires AnsweredLater(run, n, id, ip, c)
    requires OnlyLift(run, events, c, n, writer, lift) && OneOpenPerTarget(run[0].rows)
    requires forall m | lift.write.bumpedAt < m <= n && lift.write.bumpedAt < |run| ::
               NoOtherNetwork(run[m].rows, lift.target, ip, run[lift.write.bumpedAt].now)
    requires Run(run, ttls, events)
    ensures run[n].calls[id].check.byNetworks ==> !run[n].calls[id].check.banned
  {
    var _ := OnlyLiftFreesTarget(run, ttls, events, c, n, writer, lift);
    var b := lift.write.bumpedAt;
    forall m | b < m <= n ensures !Banned(run[m].rows, Covering(ip), run[b].now) {
      assert NoOpenRow(run[m].rows, lift.target);
      assert NoOtherNetwork(run[m].rows, lift.target, ip, run[b].now);
    }
    NetworkRefusalIsOld(run, ttls, events, n, id, c, writer);
  }

  /** No call is in flight that may hold a positive claim on the ip itself. */
  ghost predicate Unclaimed(w: World, ip: Ip) {
    forall id | id in w.calls ::
      match w.calls[id] {
        case Check(x, _, _) => x == ip ==> Completed(w.calls[id])
        case Upsert(target, _, _, _) => target == Addr(ip) ==> Completed(w.calls[id])
        case Lift(_, _, _) => true
      }
  }

  lemma DeletionCleans(run: seq<World>, ttls: Ttls, events: seq<Event>, writer: nat, d: nat, ip: Ip, since: nat)
    requires DeletesIn(run, events, writer, d, ip) && Unclaimed(run[d], ip) && d <= since
    requires Run(run, ttls, events)
    ensures ExactClean(run[d + 1], ip, since)
  {
    assert StepAt(run, ttls, events, true, d);
    forall id | id in run[d + 1].calls && id != writer
      ensures id in run[d].calls && run[d + 1].calls[id] == run[d].calls[id] && run[d].calls[id].born < d
    {
      BornBefore(run, ttls, events, true, d, id);
    }
  }

  /** Once a lift of an ip has returned, every check that starts later clears the ip, if no
      check or upsert of it was in flight when its entry was deleted, until another call
      writes its rows, as long as no active network covers it. */
  lemma LoneLiftIsSeen(run: seq<World>, ttls: Ttls, events: seq<Event>, n: nat, id: nat, ip: Ip, c: nat, writer: nat,
          lift: Call)
    requires AnsweredLater(run, n, id, ip, c)
    requires OnlyLift(run, events, c, n, writer, lift) && lift.target == Addr(ip) && OneOpenPerTarget(run[0].rows)
    requires forall d: nat | DeletesIn(run, events, writer, d, ip) :: Unclaimed(run[d], ip)
    requires forall m | lift.write.bumpedAt < m <= n && lift.write.bumpedAt < |run| ::
               !Banned(run[m].rows, Covering(ip), run[lift.write.bumpedAt].now)
    requires Run(run, ttls, events)
    ensures !run[n].calls[id].check.banned
  {
    var d := OnlyLiftFreesTarget(run, ttls, events, c, n, writer, lift);
    DeletionCleans(run, ttls, events, writer, d, ip, c);
    RunStaysExactClean(run, ttls, events, d + 1, n, ip, c);
    CheckIsFresh(run, ttls, events, n, id);
    NetworkRefusalIsOld(run, ttls, events, n, id, c, writer);
  }
}
