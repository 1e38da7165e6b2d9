/**
 * No check of an ip refuses on account of a ban that had run out when the check started,
 * however old the entry it was served: entries quote the expiry of a row, and the check
 * compares it with its own clock.
 */
module IpBanExpiry {
  import opened Common
  import opened BanRecords
  import opened IpBanProtocol

  /** The positive entry quotes a row that some state so far had. */
  ghost predicate QuotedIn(run: seq<World>, n: nat, p: Probe, e: Entry, k: nat) {
    k <= n < |run| && Backed(run[k].rows, p, e, run[k].now)
  }

  ghost predicate Quoted(run: seq<World>, n: nat, p: Probe, e: Entry) {
    e.banned ==> exists k :: QuotedIn(run, n, p, e, k)
  }

  /** In some state so far, a row bans at an instant from `start` on. */
  ghost predicate RunningIn(run: seq<World>, n: nat, p: Probe, start: Instant, k: nat, t: Instant) {
    k <= n < |run| && start <= t && Banned(run[k].rows, p, t)
  }

  ghost predicate StillRunning(run: seq<World>, n: nat, p: Probe, start: Instant) {
    exists k, t :: RunningIn(run, n, p, start, k, t)
  }

  ghost predicate CallQuotes(run: seq<World>, n: nat, call: Call)
    requires n < |run|
  {
    call.born <= n &&
    match call
    case Check(ip, born, point) => (
      var start := run[born].now;
      match point {
        case JudgeExact(found) => found.Some? ==> Quoted(run, n, Exactly(Addr(ip)), found.value)
        case QueryExact(asked) => start <= asked
        case PutExact(entry, _) =>
          && Quoted(run, n, Exactly(Addr(ip)), entry)
          && (entry.banned ==> StillRunning(run, n, Exactly(Addr(ip)), start))
        case JudgeVerdict(_, found) => found.Some? ==> Quoted(run, n, Covering(ip), found.value)
        case QueryNetworks(_, asked) => start <= asked
        case PutVerdict(_, entry, _) =>
          && Quoted(run, n, Covering(ip), entry)
          && (entry.banned ==> StillRunning(run, n, Covering(ip), start))
        case Answered(banned, byNetworks, _) =>
          banned ==> StillRunning(run, n, if byNetworks then Covering(ip) else Exactly(Addr(ip)), start)
        case _ => true
      })
    case Upsert(target, until, _, point) =>
      point == Cache && target.Addr? ==>
        forall dies :: Quoted(run, n, Exactly(target), Entry(true, UntilSecs(until), dies))
    case Lift(_, _, _) => true
  }

  ghost predicate EntriesQuote(run: seq<World>, n: nat)
    requires n < |run|
  {
    && (forall ip | ip in run[n].exact :: Quoted(run, n, Exactly(Addr(ip)), run[n].exact[ip]))
    && (forall k | k in run[n].verdicts :: Quoted(run, n, Covering(k.1), run[n].verdicts[k]))
  }

  ghost predicate AllQuote(run: seq<World>, n: nat)
    requires n < |run|
  {
    EntriesQuote(run, n) && forall id | id in run[n].calls :: CallQuotes(run, n, run[n].calls[id])
  }

  lemma QuotedStays(run: seq<World>, n: nat, m: nat, p: Probe, e: Entry, dies: Instant)
    requires Quoted(run, n, p, e) && n <= m < |run|
    ensures Quoted(run, m, p, e.(dies := dies)) && Quoted(run, m, p, e)
  {
    if e.banned {
      var k: nat :| QuotedIn(run, n, p, e, k);
      assert QuotedIn(run, m, p, e, k) && QuotedIn(run, m, p, e.(dies := dies), k);
    }
  }

  lemma RunningStays(run: seq<World>, n: nat, m: nat, p: Probe, start: Instant)
    requires StillRunning(run, n, p, start) && n <= m < |run|
    ensures StillRunning(run, m, p, start)
  {
    var k: nat, t :| RunningIn(run, n, p, start, k, t);
    assert RunningIn(run, m, p, start, k, t);
  }

  /** Serving an entry that has not expired. */
  lemma ServedIsRunning(run: seq<World>, ttls: Ttls, events: seq<Event>, keeps: bool, n: nat, p: Probe, e: Entry,
          start: Instant)
    requires AnyRun(run, ttls, events, keeps) && n < |run| && start <= run[n].now
    requires Quoted(run, n, p, e) && e.banned && !EntryExpired(e, run[n].now)
    ensures StillRunning(run, n, p, start)
  {
    var k: nat :| QuotedIn(run, n, p, e, k);
    ClockAdvances(run, ttls, events, keeps, k, n);
    ServedEntryIsExact(run[k].rows, p, e, run[k].now, run[n].now);
    assert RunningIn(run, n, p, start, k, run[n].now);
  }

  /** A query at `asked` and the entry made from it. */
  lemma QueriedIsRunning(run: seq<World>, n: nat, p: Probe, e: Entry, start: Instant, asked: Instant)
    requires n + 1 < |run| && start <= asked && (e.banned <==> Banned(run[n].rows, p, asked))
    requires e.banned ==> Backed(run[n].rows, p, e, run[n].now)
    ensures Quoted(run, n + 1, p, e) && (e.banned ==> StillRunning(run, n + 1, p, start))
  {
    if e.banned {
      assert QuotedIn(run, n + 1, p, e, n) && RunningIn(run, n + 1, p, start, n, asked);
    }
  }

  lemma CallStaysQuoting(run: seq<World>, n: nat, call: Call)
    requires n + 1 < |run| && CallQuotes(run, n, call)
    ensures CallQuotes(run, n + 1, call)
  {
    match call
    case Check(ip, born, JudgeExact(Some(e))) => QuotedStays(run, n, n + 1, Exactly(Addr(ip)), e, e.dies);
    case Check(ip, born, PutExact(e, _)) =>
      QuotedStays(run, n, n + 1, Exactly(Addr(ip)), e, e.dies);
      if e.banned {
        RunningStays(run, n, n + 1, Exactly(Addr(ip)), run[born].now);
      }
    case Check(ip, born, JudgeVerdict(_, Some(e))) => QuotedStays(run, n, n + 1, Covering(ip), e, e.dies);
    case Check(ip, born, PutVerdict(_, e, _)) =>
      QuotedStays(run, n, n + 1, Covering(ip), e, e.dies);
      if e.banned {
        RunningStays(run, n, n + 1, Covering(ip), run[born].now);
      }
    case Check(ip, born, Answered(true, byNetworks, _)) =>
      RunningStays(run, n, n + 1, if byNetworks then Covering(ip) else Exactly(Addr(ip)), run[born].now);
    case Upsert(target, until, _, Cache) =>
      forall dies | target.Addr? ensures Quoted(run, n + 1, Exactly(target), Entry(true, UntilSecs(until), dies)) {
        QuotedStays(run, n, n + 1, Exactly(target), Entry(true, UntilSecs(until), dies), dies);
      }
    case _ =>
  }

  /** The steps of a check up to its answer about the ip itself. */
  lemma ExactStepQuotes(run: seq<World>, ttls: Ttls, events: seq<Event>, keeps: bool, n: nat, id: nat)
    requires AnyRun(run, ttls, events, keeps) && n + 1 < |run| && events[n] == Advance(id)
    requires id in run[n].calls && run[n].calls[id].Check? && CallQuotes(run, n, run[n].calls[id])
    requires EntriesQuote(run, n)
    requires var point := run[n].calls[id].check;
             point.AskExact? || point.JudgeExact? || point.StampExact? || point.QueryExact? || point.PutExact?
    ensures id in run[n + 1].calls && CallQuotes(run, n + 1, run[n + 1].calls[id])
  {
    var w, call := run[n], run[n].calls[id];
    var Check(ip, born, point) := call;
    assert StepAt(run, ttls, events, keeps, n);
    ClockAdvances(run, ttls, events, keeps, born, n);
    CallStaysQuoting(run, n, call);
    match point
    case AskExact =>
      if ip in w.exact {
        QuotedStays(run, n, n + 1, Exactly(Addr(ip)), w.exact[ip], w.exact[ip].dies);
      }
    case JudgeExact(found) =>
      if found.Some? && found.value.banned && !EntryExpired(found.value, w.now) {
        ServedIsRunning(run, ttls, events, keeps, n, Exactly(Addr(ip)), found.value, run[born].now);
        RunningStays(run, n, n + 1, Exactly(Addr(ip)), run[born].now);
      }
    case QueryExact(asked) =>
      var e := QueryEntry(w.rows, Exactly(Addr(ip)), asked, w.now, ttls.permanent, ttls.negative);
      QueryQuotes(w.rows, Exactly(Addr(ip)), asked, w.now, ttls.permanent, ttls.negative);
      QueriedIsRunning(run, n, Exactly(Addr(ip)), e, run[born].now, asked);
    case _ =>
  }

  /** A positive entry quotes a row whatever instant it is made at. */
  lemma QueryQuotes(rows: seq<Ban>, p: Probe, asked: Instant, now: Instant, positiveTtl: nat, negativeTtl: nat)
    ensures var e := QueryEntry(rows, p, asked, now, positiveTtl, negativeTtl);
            e.banned ==> Backed(rows, p, e, now)
  {
  }

  lemma NetworksQuote(rows: seq<Ban>, ip: Ip, asked: Instant, now: Instant, positiveTtl: nat, negativeTtl: nat)
    ensures var e := NetworkEntry(rows, ip, asked, now, positiveTtl, negativeTtl);
            e.banned ==> Backed(rows, Covering(ip), e, now)
  {
    CidrMatchIsExact(rows, ip, asked);
  }

  /** And those up to its answer about networks. */
  lemma NetworkStepQuotes(run: seq<World>, ttls: Ttls, events: seq<Event>, keeps: bool, n: nat, id: nat)
    requires AnyRun(run, ttls, events, keeps) && n + 1 < |run| && events[n] == Advance(id)
    requires id in run[n].calls && run[n].calls[id].Check? && CallQuotes(run, n, run[n].calls[id])
    requires EntriesQuote(run, n)
    requires run[n].calls[id].check.AskVersion? || HoldsVersion(run[n].calls[id].check)
    ensures id in run[n + 1].calls && CallQuotes(run, n + 1, run[n + 1].calls[id])
  {
    var w, call := run[n], run[n].calls[id];
    var Check(ip, born, point) := call;
    assert StepAt(run, ttls, events, keeps, n);
    ClockAdvances(run, ttls, events, keeps, born, n);
    CallStaysQuoting(run, n, call);
    match point
    case AskVerdict(v) =>
      if (v, ip) in w.verdicts {
        QuotedStays(run, n, n + 1, Covering(ip), w.verdicts[(v, ip)], w.verdicts[(v, ip)].dies);
      }
    case JudgeVerdict(v, found) =>
      if found.Some? && found.value.banned && !EntryExpired(found.value, w.now) {
        ServedIsRunning(run, ttls, events, keeps, n, Covering(ip), found.value, run[born].now);
        RunningStays(run, n, n + 1, Covering(ip), run[born].now);
      }
    case QueryNetworks(v, asked) =>
      var e := NetworkEntry(w.rows, ip, asked, w.now, ttls.permanent, ttls.verdict);
      NetworksQuote(w.rows, ip, asked, w.now, ttls.permanent, ttls.verdict);
      QueriedIsRunning(run, n, Covering(ip), e, run[born].now, asked);
    case _ =>
  }

  /** An upsert's row is there when it goes on to cache it. */
  lemma WriteStepQuotes(run: seq<World>, ttls: Ttls, events: seq<Event>, keeps: bool, n: nat, id: nat)
    requires AnyRun(run, ttls, events, keeps) && n + 1 < |run| && events[n] == Advance(id)
    requires id in run[n].calls && !run[n].calls[id].Check? && run[n].calls[id].born <= n
    ensures id in run[n + 1].calls && CallQuotes(run, n + 1, run[n + 1].calls[id])
  {
    var w, w' := run[n], run[n + 1];
    assert StepAt(run, ttls, events, keeps, n);
    if w'.calls[id].Upsert? && w'.calls[id].write == Cache {
      var Upsert(target, until, _, Write(slot)) := w.calls[id];
      var i := if slot.Some? then slot.value else |w.rows|;
      assert w'.rows[i] == Ban(target, until, w.now, None);
      forall dies ensures Quoted(run, n + 1, Exactly(target), Entry(true, UntilSecs(until), dies)) {
        assert Hits(Exactly(target), w'.rows[i].target);
        assert QuotedIn(run, n + 1, Exactly(target), Entry(true, UntilSecs(until), dies), n + 1);
      }
    }
  }

  lemma CallKeepsQuoting(run: seq<World>, ttls: Ttls, events: seq<Event>, keeps: bool, n: nat, id: nat)
    requires AnyRun(run, ttls, events, keeps) && n + 1 < |run| && AllQuote(run, n) && id in run[n + 1].calls
    ensures CallQuotes(run, n + 1, run[n + 1].calls[id])
  {
    assert StepAt(run, ttls, events, keeps, n);
    ClockAdvances(run, ttls, events, keeps, n, n);
    if id in run[n].calls {
      assert CallQuotes(run, n, run[n].calls[id]);
      if events[n] != Advance(id) {
        OthersWait(run[n], ttls, events[n], id);
        CallStaysQuoting(run, n, run[n].calls[id]);
      } else if !run[n].calls[id].Check? {
        WriteStepQuotes(run, ttls, events, keeps, n, id);
      } else if run[n].calls[id].check.AskVersion? || HoldsVersion(run[n].calls[id].check) {
        NetworkStepQuotes(run, ttls, events, keeps, n, id);
      } else {
        ExactStepQuotes(run, ttls, events, keeps, n, id);
      }
    }
  }

  lemma ExactKeepsQuoting(run: seq<World>, ttls: Ttls, events: seq<Event>, keeps: bool, n: nat, ip: Ip)
    requires AnyRun(run, ttls, events, keeps) && n + 1 < |run| && AllQuote(run, n) && ip in run[n + 1].exact
    ensures Quoted(run, n + 1, Exactly(Addr(ip)), run[n + 1].exact[ip])
  {
    var w, e, ev := run[n], run[n + 1].exact[ip], events[n];
    assert StepAt(run, ttls, events, keeps, n);
    if ip in w.exact && e == w.exact[ip] {
      QuotedStays(run, n, n + 1, Exactly(Addr(ip)), e, e.dies);
    } else {
      assert CallQuotes(run, n, w.calls[ev.id]);
      if w.calls[ev.id].Check? {
        QuotedStays(run, n, n + 1, Exactly(Addr(ip)), w.calls[ev.id].check.entry, e.dies);
      } else {
        assert e == Entry(true, UntilSecs(w.calls[ev.id].until), e.dies);
        QuotedStays(run, n, n + 1, Exactly(Addr(ip)), e, e.dies);
      }
    }
  }

  lemma VerdictKeepsQuoting(run: seq<World>, ttls: Ttls, events: seq<Event>, keeps: bool, n: nat, k: (nat, Ip))
    requires AnyRun(run, ttls, events, keeps) && n + 1 < |run| && AllQuote(run, n) && k in run[n + 1].verdicts
    ensures Quoted(run, n + 1, Covering(k.1), run[n + 1].verdicts[k])
  {
    var w, e, ev := run[n], run[n + 1].verdicts[k], events[n];
    assert StepAt(run, ttls, events, keeps, n);
    if k in w.verdicts && e == w.verdicts[k] {
      QuotedStays(run, n, n + 1, Covering(k.1), e, e.dies);
    } else {
      assert CallQuotes(run, n, w.calls[ev.id]);
      QuotedStays(run, n, n + 1, Covering(k.1), w.calls[ev.id].check.entry, e.dies);
    }
  }

  lemma {:induction false} RunQuotes(run: seq<World>, ttls: Ttls, events: seq<Event>, keeps: bool, n: nat)
    requires AnyRun(run, ttls, events, keeps) && n < |run|
    ensures AllQuote(run, n)
  {
    if n > 0 {
      RunQuotes(run, ttls, events, keeps, n - 1);
      forall ip | ip in run[n].exact ensures Quoted(run, n, Exactly(Addr(ip)), run[n].exact[ip]) {
        ExactKeepsQuoting(run, ttls, events, keeps, n - 1, ip);
      }
      forall k | k in run[n].verdicts ensures Quoted(run, n, Covering(k.1), run[n].verdicts[k]) {
        VerdictKeepsQuoting(run, ttls, events, keeps, n - 1, k);
      }
      forall id | id in run[n].calls ensures CallQuotes(run, n, run[n].calls[id]) {
        CallKeepsQuoting(run, ttls, events, keeps, n - 1, id);
      }
    }
  }

  /** In every interleaving, whether or not the version key is lost, a check that refuses does so
      on account of a row, of the ip itself or of a network around it, that some state of the
      run had and that had not run out when the check started. */
  lemma RefusalIsUnexpired(run: seq<World>, ttls: Ttls, events: seq<Event>, keeps: bool, n: nat, id: nat)
    requires AnyRun(run, ttls, events, keeps) && n < |run|
    requires id in run[n].calls && run[n].calls[id].Check? && run[n].calls[id].check.Answered?
    requires run[n].calls[id].check.banned
    ensures var Check(ip, born, Answered(_, byNetworks, _)) := run[n].calls[id];
            && born <= n
            && exists k | 0 <= k <= n ::
                 Banned(run[k].rows, if byNetworks then Covering(ip) else Exactly(Addr(ip)), run[born].now)
  {
    RunQuotes(run, ttls, events, keeps, n);
    assert CallQuotes(run, n, run[n].calls[id]);
    var Check(ip, born, Answered(_, byNetworks, _)) := run[n].calls[id];
    var p := if byNetworks then Covering(ip) else Exactly(Addr(ip));
    var k: nat, t :| RunningIn(run, n, p, run[born].now, k, t);
    assert Banned(run[k].rows, p, run[born].now);
  }
}
