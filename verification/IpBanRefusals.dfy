/**
 * How long a lifted ban of an ip itself can still be served. The exact entries carry no
 * version, so for them the promise is bounded staleness: a refusal on account of the ip
 * itself was the database's answer at most a known time ago.
 */
module IpBanRefusals {
  import opened Common
  import opened BanRecords
  import opened IpBanProtocol

  /** No call is still running more than `limit` after its start. */
  ghost predicate Timely(run: seq<World>, n: nat, limit: nat)
    requires n < |run|
  {
    forall id | id in run[n].calls && !Completed(run[n].calls[id]) ::
      run[n].calls[id].born < |run| && run[n].now <= run[run[n].calls[id].born].now + limit
  }

  ghost predicate TimelyRun(run: seq<World>, ttls: Ttls, events: seq<Event>, keeps: bool, limit: nat) {
    AnyRun(run, ttls, events, keeps) && forall n: nat | n < |run| :: Timely(run, n, limit)
  }

  /** The longest life of a positive entry. */
  function Life(ttls: Ttls): int {
    Seconds(Max(TEMP_BAN_CACHE_CAP_SECS, ttls.permanent))
  }

  /** The positive entry is backed by the rows of state `k` and dies within its life of a
      write made at most `limit` after that state. */
  ghost predicate EntryFrom(run: seq<World>, n: nat, ttls: Ttls, limit: nat, ip: Ip, e: Entry, k: nat) {
    && k <= n < |run|
    && Backed(run[k].rows, Exactly(Addr(ip)), e, run[k].now)
    && e.dies <= run[k].now + limit + Life(ttls)
  }

  ghost predicate Sourced(run: seq<World>, n: nat, ttls: Ttls, limit: nat, ip: Ip, e: Entry) {
    exists k :: EntryFrom(run, n, ttls, limit, ip, e, k)
  }

  /** The positive entry about to be written by a check started at `start`. */
  ghost predicate PutFrom(run: seq<World>, n: nat, ttls: Ttls, start: Instant, ip: Ip, e: Entry, built: Instant,
          asked: Instant, k: nat)
  {
    && k <= n < |run|
    && start <= asked <= run[k].now
    && Banned(run[k].rows, Exactly(Addr(ip)), asked)
    && Backed(run[k].rows, Exactly(Addr(ip)), e, run[k].now)
    && e.dies - built <= Life(ttls)
  }

  ghost predicate RowFrom(run: seq<World>, n: nat, start: Instant, target: Target, until: Option<Instant>, k: nat) {
    && k <= n < |run|
    && start <= run[k].now
    && exists i | 0 <= i < |run[k].rows| ::
         run[k].rows[i].target == target && run[k].rows[i].until == until && run[k].rows[i].Unlifted()
  }

  /** The refusal completed in state `at` was the database's answer at state `k`, for a
      clock reading `t` that is recent. */
  ghost predicate RefusalFrom(run: seq<World>, ttls: Ttls, limit: nat, ip: Ip, at: nat, k: nat, t: Instant) {
    && k <= at < |run|
    && t <= run[k].now
    && Banned(run[k].rows, Exactly(Addr(ip)), t)
    && run[at].now < t + 2 * limit + Life(ttls)
  }

  ghost predicate Traced(run: seq<World>, ttls: Ttls, limit: nat, n: nat, call: Call)
    requires n < |run|
  {
    && call.born <= n
    && run[call.born].now <= run[n].now
    && match call {
      case Check(ip, born, point) => (
        match point {
          case JudgeExact(found) =>
            found.Some? && found.value.banned ==>
              run[born].now < found.value.dies && Sourced(run, n, ttls, limit, ip, found.value)
          case QueryExact(asked) => run[born].now <= asked <= run[n].now
          case PutExact(entry, built) =>
            entry.banned ==> exists asked, k :: PutFrom(run, n, ttls, run[born].now, ip, entry, built, asked, k)
          case Answered(banned, byNetworks, at) =>
            at <= n && (banned && !byNetworks ==> exists k, t :: RefusalFrom(run, ttls, limit, ip, at, k, t))
          case _ => true
        })
      case Upsert(target, until, born, point) =>
        point == Cache ==> exists k :: RowFrom(run, n, run[born].now, target, until, k)
      case Lift(_, _, _) => true
    }
  }

  ghost predicate EntriesSourced(run: seq<World>, ttls: Ttls, limit: nat, n: nat)
    requires n < |run|
  {
    forall ip | ip in run[n].exact && run[n].exact[ip].banned :: Sourced(run, n, ttls, limit, ip, run[n].exact[ip])
  }

  ghost predicate AllTraced(run: seq<World>, ttls: Ttls, limit: nat, n: nat)
    requires n < |run|
  {
    && EntriesSourced(run, ttls, limit, n)
    && (forall id | id in run[n].calls :: Traced(run, ttls, limit, n, run[n].calls[id]))
  }

  lemma SourcedStays(run: seq<World>, n: nat, ttls: Ttls, limit: nat, ip: Ip, e: Entry)
    requires Sourced(run, n, ttls, limit, ip, e) && n + 1 < |run|
    ensures Sourced(run, n + 1, ttls, limit, ip, e)
  {
    var k: nat :| EntryFrom(run, n, ttls, limit, ip, e, k);
    assert EntryFrom(run, n + 1, ttls, limit, ip, e, k);
  }

  lemma StaysTraced(run: seq<World>, ttls: Ttls, events: seq<Event>, keeps: bool, limit: nat, n: nat, call: Call)
    requires AnyRun(run, ttls, events, keeps) && n + 1 < |run| && Traced(run, ttls, limit, n, call)
    ensures Traced(run, ttls, limit, n + 1, call)
  {
    ClockAdvances(run, ttls, events, keeps, n, n + 1);
    match call
    case Check(ip, born, JudgeExact(found)) =>
      if found.Some? && found.value.banned {
        SourcedStays(run, n, ttls, limit, ip, found.value);
      }
    case Check(ip, born, PutExact(entry, built)) =>
      if entry.banned {
        var asked, k: nat :| PutFrom(run, n, ttls, run[born].now, ip, entry, built, asked, k);
        assert PutFrom(run, n + 1, ttls, run[born].now, ip, entry, built, asked, k);
      }
    case Upsert(target, until, born, Cache) =>
      var k: nat :| RowFrom(run, n, run[born].now, target, until, k);
      assert RowFrom(run, n + 1, run[born].now, target, until, k);
    case _ =>
  }

  /** A served entry is recent. */
  lemma ServedRefusalIsRecent(run: seq<World>, ttls: Ttls, events: seq<Event>, keeps: bool, limit: nat, n: nat, ip: Ip,
          e: Entry, start: Instant)
    requires AnyRun(run, ttls, events, keeps) && n < |run| && Sourced(run, n, ttls, limit, ip, e)
    requires start <= run[n].now <= start + limit
    requires e.banned && start < e.dies && !EntryExpired(e, run[n].now)
    ensures exists k, t :: RefusalFrom(run, ttls, limit, ip, n, k, t)
  {
    var k: nat :| EntryFrom(run, n, ttls, limit, ip, e, k);
    ClockAdvances(run, ttls, events, keeps, k, n);
    ServedEntryIsExact(run[k].rows, Exactly(Addr(ip)), e, run[k].now, run[n].now);
    assert Banned(run[k].rows, Exactly(Addr(ip)), run[k].now);
    assert RefusalFrom(run, ttls, limit, ip, n, k, run[k].now);
  }

  /** So is one that is stored and answered. */
  lemma StoredRefusalIsRecent(run: seq<World>, ttls: Ttls, events: seq<Event>, keeps: bool, limit: nat, n: nat,
          start: Instant, ip: Ip, e: Entry, built: Instant)
    requires AnyRun(run, ttls, events, keeps) && n + 1 < |run| && e.banned
    requires exists asked, k :: PutFrom(run, n, ttls, start, ip, e, built, asked, k)
    requires start <= run[n].now <= start + limit
    ensures Sourced(run, n + 1, ttls, limit, ip, Stored(e, built, run[n].now))
    ensures exists k, t :: RefusalFrom(run, ttls, limit, ip, n, k, t)
  {
    var asked, k: nat :| PutFrom(run, n, ttls, start, ip, e, built, asked, k);
    assert EntryFrom(run, n + 1, ttls, limit, ip, Stored(e, built, run[n].now), k);
    assert RefusalFrom(run, ttls, limit, ip, n, k, asked);
  }

  lemma StoringIsTraced(run: seq<World>, ttls: Ttls, events: seq<Event>, keeps: bool, limit: nat, n: nat, id: nat)
    requires TimelyRun(run, ttls, events, keeps, limit) && n + 1 < |run|
    requires events[n] == Advance(id) && id in run[n].calls && Traced(run, ttls, limit, n, run[n].calls[id])
    requires run[n].calls[id].Check? && run[n].calls[id].check.PutExact?
    ensures id in run[n + 1].calls && Traced(run, ttls, limit, n + 1, run[n + 1].calls[id])
    ensures var Check(ip, born, PutExact(entry, built)) := run[n].calls[id];
            && run[n + 1].exact == run[n].exact[ip := Stored(entry, built, run[n].now)]
            && (entry.banned ==> Sourced(run, n + 1, ttls, limit, ip, Stored(entry, built, run[n].now)))
  {
    assert StepAt(run, ttls, events, keeps, n);
    ClockAdvances(run, ttls, events, keeps, n, n + 1);
    assert Timely(run, n, limit);
    var Check(ip, born, PutExact(entry, built)) := run[n].calls[id];
    if entry.banned {
      StoredRefusalIsRecent(run, ttls, events, keeps, limit, n, run[born].now, ip, entry, built);
    }
  }

  lemma CheckingIsTraced(run: seq<World>, ttls: Ttls, events: seq<Event>, keeps: bool, limit: nat, n: nat, id: nat)
    requires TimelyRun(run, ttls, events, keeps, limit) && n + 1 < |run| && EntriesSourced(run, ttls, limit, n)
    requires events[n] == Advance(id) && id in run[n].calls && Traced(run, ttls, limit, n, run[n].calls[id])
    requires run[n].calls[id].Check? && !run[n].calls[id].check.PutExact?
    ensures id in run[n + 1].calls && Traced(run, ttls, limit, n + 1, run[n + 1].calls[id])
  {
    var w := run[n];
    assert StepAt(run, ttls, events, keeps, n);
    ClockAdvances(run, ttls, events, keeps, n, n + 1);
    assert Timely(run, n, limit);
    var Check(ip, born, point) := w.calls[id];
    match point
    case AskExact =>
      if ip in w.exact && w.exact[ip].banned {
        SourcedStays(run, n, ttls, limit, ip, w.exact[ip]);
      }
    case JudgeExact(found) =>
      if found.Some? && found.value.banned && !EntryExpired(found.value, w.now) {
        ServedRefusalIsRecent(run, ttls, events, keeps, limit, n, ip, found.value, run[born].now);
      }
    case QueryExact(asked) =>
      var entry := QueryEntry(w.rows, Exactly(Addr(ip)), asked, w.now, ttls.permanent, ttls.negative);
      if entry.banned {
        assert PutFrom(run, n + 1, ttls, run[born].now, ip, entry, w.now, asked, n);
      }
    case _ =>
  }

  lemma UpsertingIsTraced(run: seq<World>, ttls: Ttls, events: seq<Event>, keeps: bool, limit: nat, n: nat, id: nat)
    requires TimelyRun(run, ttls, events, keeps, limit) && n + 1 < |run|
    requires events[n] == Advance(id) && id in run[n].calls && Traced(run, ttls, limit, n, run[n].calls[id])
    requires run[n].calls[id].Upsert? && run[n].calls[id].write != Cache
    ensures id in run[n + 1].calls && Traced(run, ttls, limit, n + 1, run[n + 1].calls[id])
    ensures run[n + 1].exact == run[n].exact
  {
    var w, w' := run[n], run[n + 1];
    assert StepAt(run, ttls, events, keeps, n);
    ClockAdvances(run, ttls, events, keeps, n, n + 1);
    var Upsert(target, until, born, point) := w.calls[id];
    if w'.calls[id].write == Cache {
      assert w'.rows[if point.slot.Some? then point.slot.value else |w.rows|] == Ban(target, until, w.now, None);
      assert RowFrom(run, n + 1, run[born].now, target, until, n + 1);
    }
  }

  lemma CachingIsTraced(run: seq<World>, ttls: Ttls, events: seq<Event>, keeps: bool, limit: nat, n: nat, id: nat,
          ip: Ip)
    requires TimelyRun(run, ttls, events, keeps, limit) && n + 1 < |run| && EntriesSourced(run, ttls, limit, n)
    requires events[n] == Advance(id) && id in run[n].calls && Traced(run, ttls, limit, n, run[n].calls[id])
    requires run[n].calls[id].Upsert? && run[n].calls[id].write == Cache && run[n].calls[id].target == Addr(ip)
    ensures ip in run[n + 1].exact && Sourced(run, n + 1, ttls, limit, ip, run[n + 1].exact[ip])
  {
    var w := run[n];
    assert StepAt(run, ttls, events, keeps, n);
    assert Timely(run, n, limit);
    var Upsert(target, until, born, _) := w.calls[id];
    var k: nat :| RowFrom(run, n, run[born].now, target, until, k);
    var i :| 0 <= i < |run[k].rows| && run[k].rows[i].target == target && run[k].rows[i].until == until
          && run[k].rows[i].Unlifted();
    assert Hits(Exactly(Addr(ip)), run[k].rows[i].target);
    assert EntryFrom(run, n + 1, ttls, limit, ip, run[n + 1].exact[ip], k);
  }

  lemma EntriesStaySourced(run: seq<World>, ttls: Ttls, events: seq<Event>, keeps: bool, limit: nat, n: nat)
    requires TimelyRun(run, ttls, events, keeps, limit) && n + 1 < |run| && AllTraced(run, ttls, limit, n)
    ensures EntriesSourced(run, ttls, limit, n + 1)
  {
    var w, w', ev := run[n], run[n + 1], events[n];
    assert StepAt(run, ttls, events, keeps, n);
    forall ip | ip in w'.exact && w'.exact[ip].banned ensures Sourced(run, n + 1, ttls, limit, ip, w'.exact[ip]) {
      if ip in w.exact && w'.exact[ip] == w.exact[ip] {
        SourcedStays(run, n, ttls, limit, ip, w.exact[ip]);
      } else if w.calls[ev.id].Check? {
        StoringIsTraced(run, ttls, events, keeps, limit, n, ev.id);
      } else {
        CachingIsTraced(run, ttls, events, keeps, limit, n, ev.id, ip);
      }
    }
  }

  lemma CallStaysTraced(run: seq<World>, ttls: Ttls, events: seq<Event>, keeps: bool, limit: nat, n: nat, id: nat)
    requires TimelyRun(run, ttls, events, keeps, limit) && n + 1 < |run| && AllTraced(run, ttls, limit, n)
          && id in run[n + 1].calls
    ensures Traced(run, ttls, limit, n + 1, run[n + 1].calls[id])
  {
    var w, w', ev := run[n], run[n + 1], events[n];
    assert StepAt(run, ttls, events, keeps, n);
    ClockAdvances(run, ttls, events, keeps, n, n + 1);
    if ev != Advance(id) {
      if id in w.calls {
        OthersWait(w, ttls, ev, id);
        StaysTraced(run, ttls, events, keeps, limit, n, w.calls[id]);
      }
    } else if w.calls[id].Check? {
      if w.calls[id].check.PutExact? {
        StoringIsTraced(run, ttls, events, keeps, limit, n, id);
      } else {
        CheckingIsTraced(run, ttls, events, keeps, limit, n, id);
      }
    } else if w.calls[id].Upsert? && w.calls[id].write != Cache {
      UpsertingIsTraced(run, ttls, events, keeps, limit, n, id);
    } else {
      assert Traced(run, ttls, limit, n, w.calls[id]);
    }
  }

  /** In every state of every interleaving, each positive exact entry and each refusal on
      account of the ip itself comes from a recent state of the rows. */
  lemma {:induction false} RunIsTraced(run: seq<World>, ttls: Ttls, events: seq<Event>, keeps: bool, limit: nat, n: nat)
    requires TimelyRun(run, ttls, events, keeps, limit) && n < |run|
    ensures AllTraced(run, ttls, limit, n)
  {
    if n > 0 {
      RunIsTraced(run, ttls, events, keeps, limit, n - 1);
      EntriesStaySourced(run, ttls, events, keeps, limit, n - 1);
      forall id | id in run[n].calls ensures Traced(run, ttls, limit, n, run[n].calls[id]) {
        CallStaysTraced(run, ttls, events, keeps, limit, n - 1, id);
      }
    }
  }

  /** After state `d` the rows never ban the ip itself at a later instant than that of `d`. A
      check that still refuses on account of the ip itself does so less than two call limits
      plus the longest positive TTL after `d`. */
  lemma ExactRefusalIsBounded(run: seq<World>, ttls: Ttls, events: seq<Event>, keeps: bool, limit: nat, n: nat, id: nat,
        d: nat)
    requires TimelyRun(run, ttls, events, keeps, limit) && n < |run|
    requires id in run[n].calls && run[n].calls[id].Check? && run[n].calls[id].check.Answered?
    requires run[n].calls[id].check.banned && !run[n].calls[id].check.byNetworks
    requires forall k | d < k <= n :: !Banned(run[k].rows, Exactly(Addr(run[n].calls[id].ip)), run[d].now)
    ensures d <= run[n].calls[id].check.at <= n ==>
              run[run[n].calls[id].check.at].now < run[d].now + 2 * limit + Life(ttls)
  {
    RunIsTraced(run, ttls, events, keeps, limit, n);
    assert Traced(run, ttls, limit, n, run[n].calls[id]);
    var Check(ip, born, Answered(_, _, at)) := run[n].calls[id];
    var k: nat, t :| RefusalFrom(run, ttls, limit, ip, at, k, t);
    if d <= at {
      if k <= d {
        ClockAdvances(run, ttls, events, keeps, k, d);
      } else {
        assert !Banned(run[k].rows, Exactly(Addr(ip)), run[d].now);
      }
    }
  }

  /** Once a lift has returned, and nothing bans the ip from its bump on, neither a row of its
      own nor a network, a check started later refuses only by a stale exact entry, and only
      for that long after the bump. */
  lemma LiftIsSeenInTime(run: seq<World>, ttls: Ttls, events: seq<Event>, limit: nat, n: nat, id: nat, c: nat,
          writer: nat)
    requires TimelyRun(run, ttls, events, true, limit) && c <= n < |run|
    requires id in run[n].calls && run[n].calls[id].Check? && run[n].calls[id].check.Answered?
    requires writer in run[c].calls && run[c].calls[writer].Lift? && run[c].calls[writer].write.Returned?
    requires c <= run[n].calls[id].born
    requires forall k | run[c].calls[writer].write.bumpedAt < k <= n ::
               !IpBanned(run[k].rows, run[n].calls[id].ip, run[run[c].calls[writer].write.bumpedAt].now)
    ensures var b, at := run[c].calls[writer].write.bumpedAt, run[n].calls[id].check.at;
            && b < at < n
            && (run[n].calls[id].check.banned ==>
                  && !run[n].calls[id].check.byNetworks
                  && run[at].now < run[b].now + 2 * limit + Life(ttls))
  {
    RunIsFresh(run, ttls, events, c);
    assert CallFresh(run, c, run[c].calls[writer]);
    CheckIsFresh(run, ttls, events, n, id);
    NetworkRefusalIsOld(run, ttls, events, n, id, c, writer);
    if run[n].calls[id].check.banned {
      ExactRefusalIsBounded(run, ttls, events, true, limit, n, id, run[c].calls[writer].write.bumpedAt);
    }
  }
}
