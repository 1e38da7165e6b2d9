/**
 * Reports and the moderation of videos as values: what each transaction of
 * src/api/src/services/abuse_report_service.rs and the admin's resolve handler turns the
 * tables into, and what any sequence of such transactions keeps.
 */
module ModerationState {
  import opened Common
  import ReportReasons

  datatype Moderation = Visible | Quarantined | Removed

  /** `listed`: the video is published or completed, or in the video bucket. */
  datatype Video = Video(
    listed: bool,
    deleted: bool,
    state: Moderation,
    reason: Option<string>,
    source: Option<int>,
    changedAt: Option<Instant>,
    changedBy: Option<string>)

  datatype Status = Open | AutoQuarantined | Resolved | Rejected

  datatype Rule = MinorExploitation | DistinctReporters(threshold: int)

  /** The rule is recorded exactly when the report is marked as having quarantined. */
  datatype Report = Report(
    video: int,
    reporter: int,
    codes: seq<string>,
    severity: nat,
    status: Status,
    autoRule: Option<Rule>,
    createdAt: Instant,
    updatedAt: Instant,
    closedAt: Option<Instant>)

  datatype Db = Db(reports: map<int, Report>, videos: map<int, Video>)

  datatype Config = Config(enabled: bool, windowSecs: nat, threshold: nat)

  /** The application's clock before the transaction, the database's at its start, and
      the application's again when the video is written. */
  datatype Clocks = Clocks(now: Instant, txnStart: Instant, written: Instant)

  datatype Input = Input(video: int, reporter: int, codes: seq<string>)

  // ---------------------------------------------------------------- filing a report

  predicate IsOpen(report: Report, video: int, reporter: int) {
    report.video == video && report.reporter == reporter && report.closedAt.None?
  }

  function OpenOf(db: Db, video: int, reporter: int): set<int> {
    set id | id in db.reports && IsOpen(db.reports[id], video, reporter)
  }

  predicate Reportable(db: Db, video: int) {
    video in db.videos && db.videos[video].listed && !db.videos[video].deleted && db.videos[video].state != Removed
  }

  /** `id` names the open report to update or, if there is none, a new one. */
  predicate NamesReport(db: Db, input: Input, id: int) {
    if OpenOf(db, input.video, input.reporter) == {} then id !in db.reports
    else id in OpenOf(db, input.video, input.reporter)
  }

  /** Filing again replaces the codes and keeps the creation time. */
  function Filed(db: Db, input: Input, now: Instant, id: int): Db {
    var severity := ReportReasons.Severity(input.codes);
    var report :=
      if id in db.reports then db.reports[id].(codes := input.codes, severity := severity, updatedAt := now)
      else Report(input.video, input.reporter, input.codes, severity, Open, None, now, now, None);
    db.(reports := db.reports[id := report])
  }

  // ---------------------------------------------------------------- automatic quarantine

  function Since(config: Config, txnStart: Instant): Instant {
    txnStart - Seconds(Max(config.windowSecs, 1))
  }

  predicate Recent(report: Report, video: int, since: Instant) {
    report.video == video && report.closedAt.None? && report.createdAt >= since
  }

  function RecentOpen(db: Db, video: int, since: Instant): set<int> {
    set id | id in db.reports && Recent(db.reports[id], video, since)
  }

  /** The open reports on the video, made at most the configured number of seconds, and at
      least one second, before the transaction; instants count nanoseconds. */
  function InWindow(db: Db, config: Config, video: int, txnStart: Instant): set<int> {
    set id | id in db.reports && db.reports[id].video == video && db.reports[id].closedAt.None?
          && txnStart - db.reports[id].createdAt <= Max(config.windowSecs, 1) * 1_000_000_000
  }

  lemma WindowIsRecent(db: Db, config: Config, video: int, txnStart: Instant)
    ensures RecentOpen(db, video, Since(config, txnStart)) == InWindow(db, config, video, txnStart)
  {
    forall id | id in db.reports
      ensures id in RecentOpen(db, video, Since(config, txnStart)) <==> id in InWindow(db, config, video, txnStart)
    {
    }
  }

  /** What `COUNT(DISTINCT reporter_user_id)` counts. */
  function Reporters(db: Db, video: int, since: Instant): set<int> {
    set id | id in db.reports && Recent(db.reports[id], video, since) :: db.reports[id].reporter
  }

  function AutoRule(db: Db, config: Config, input: Input, txnStart: Instant): Option<Rule> {
    if !config.enabled then None
    else if ReportReasons.Immediate(input.codes) then Some(MinorExploitation)
    else if !ReportReasons.HasSevere(input.codes) then None
    else if |Reporters(db, input.video, Since(config, txnStart))| >= Max(config.threshold, 1)
    then Some(DistinctReporters(Max(config.threshold, 1)))
    else None
  }

  // ---------------------------------------------------------------- moderation

  datatype Action = Quarantine | Remove | Restore

  function Target(action: Action): Moderation {
    match action
    case Quarantine => Quarantined
    case Remove => Removed
    case Restore => Visible
  }

  /** A restored video forgets why it was moderated; a repeated action leaves the row,
      its time and its actor alone. */
  function Moderated(video: Video, action: Action, reason: Option<string>, actor: string, source: Option<int>,
          now: Instant): (r: Video)
    ensures r.state == Target(action) && (action == Restore ==> r.reason.None? && r.source.None?)
    ensures r.listed == video.listed && r.deleted == video.deleted
    ensures action != Restore ==> r.reason == reason && r.source == source
    ensures if (video.state, video.reason, video.source) == (r.state, r.reason, r.source) then r == video
            else r.changedAt == Some(now) && r.changedBy == Some(actor)
  {
    var reason' := if action == Restore then None else reason;
    var source' := if action == Restore then None else source;
    if video.state == Target(action) && video.reason == reason' && video.source == source' then video
    else video.(state := Target(action), reason := reason', source := source', changedAt := Some(now),
          changedBy := Some(actor))
  }

  const AUTO_REASON := Some("AUTO_QUARANTINE")
  const AUTO_ACTOR := "system:auto_quarantine"

  /** The whole submission of a report on a video that can be reported. */
  function Submitted(db: Db, config: Config, input: Input, clocks: Clocks, id: int): (r: (Db, Option<Rule>))
    requires Reportable(db, input.video)
  {
    var filed := Filed(db, input, clocks.now, id);
    var rule := AutoRule(filed, config, input, clocks.txnStart);
    if rule.None? then (filed, None)
    else
      var report := filed.reports[id].(autoRule := rule, status := AutoQuarantined, updatedAt := clocks.now);
      var video := Moderated(filed.videos[input.video], Quarantine, AUTO_REASON, AUTO_ACTOR, Some(id), clocks.written);
      (Db(filed.reports[id := report], filed.videos[input.video := video]), rule)
  }

  function Closed(report: Report, status: Status, now: Instant): Report {
    if report.closedAt.Some? then report
    else report.(status := status, closedAt := Some(now), updatedAt := now)
  }

  function WithoutSource(video: Video, gone: set<int>): Video {
    if video.source.Some? && video.source.value in gone then video.(source := None) else video
  }

  // ---------------------------------------------------------------- runs

  /** Transactions, one at a time. `Purge` is the retention job and the cascade of a
      deleted user or video; it clears the references to the reports it deletes. */
  datatype Event =
    | Submit(input: Input, clocks: Clocks, id: int)
    | Resolve(report: int, status: Status, now: Instant)
    | Moderate(video: int, action: Action, reason: Option<string>, actor: string, source: Option<int>, now: Instant)
    | Publish(video: int, listed: bool)
    | Relist(video: int, listed: bool, deleted: bool)
    | Purge(gone: set<int>)
    | Erase(video: int)

  predicate Enabled(db: Db, ev: Event) {
    match ev
    case Submit(input, _, id) => NamesReport(db, input, id)
    case Resolve(_, status, _) => status == Resolved || status == Rejected
    case Publish(video, _) => video !in db.videos
    case Erase(video) => forall id | id in db.reports :: db.reports[id].video != video
    case _ => true
  }

  /** A transaction that answers an error changes nothing; a source that does not exist
      violates the foreign key. */
  function Step(db: Db, config: Config, ev: Event): Db {
    match ev
    case Submit(input, clocks, id) => if Reportable(db, input.video) then Submitted(db, config, input, clocks, id).0
          else db
    case Resolve(id, status, now) =>
      if id in db.reports then db.(reports := db.reports[id := Closed(db.reports[id], status, now)]) else db
    case Moderate(video, action, reason, actor, source, now) =>
      if video !in db.videos || db.videos[video].deleted then db
      else
        var moderated := Moderated(db.videos[video], action, reason, actor, source, now);
        if moderated.source.Some? && moderated.source.value !in db.reports then db
        else db.(videos := db.videos[video := moderated])
    case Publish(video, listed) =>
      db.(videos := db.videos[video := Video(listed, false, Visible, None, None, None, None)])
    case Relist(video, listed, deleted) =>
      if video in db.videos
            then db.(videos := db.videos[video := db.videos[video].(listed := listed, deleted := deleted)])
      else db
    case Purge(gone) =>
      Db(db.reports - gone, map video | video in db.videos :: WithoutSource(db.videos[video], gone))
    case Erase(video) => db.(videos := db.videos - {video})
  }

  ghost predicate Run(run: seq<Db>, config: Config, events: seq<Event>) {
    && |run| == |events| + 1
    && run[0] == Db(map[], map[])
    && (forall i | 0 <= i < |events| :: Enabled(run[i], events[i]) && run[i + 1] == Step(run[i], config, events[i]))
  }

  // ---------------------------------------------------------------- the invariant

  /** The unique index on open reports. */
  ghost predicate OneOpen(db: Db) {
    forall a, b | a in db.reports && b in db.reports && a != b && db.reports[a].closedAt.None?
          && db.reports[b].closedAt.None? ::
      db.reports[a].video != db.reports[b].video || db.reports[a].reporter != db.reports[b].reporter
  }

  ghost predicate ReportOk(db: Db, report: Report) {
    && report.video in db.videos
    && (report.closedAt.None? <==> report.status == Open || report.status == AutoQuarantined)
    && (report.status == AutoQuarantined ==> report.autoRule.Some?)
    && (report.status == Open ==> report.autoRule.None?)
    && report.severity == ReportReasons.Severity(report.codes)
  }

  ghost predicate SourcesExist(db: Db) {
    forall video | video in db.videos && db.videos[video].source.Some? :: db.videos[video].source.value in db.reports
  }

  ghost predicate Inv(db: Db) {
    && OneOpen(db)
    && (forall id | id in db.reports :: ReportOk(db, db.reports[id]))
    && SourcesExist(db)
  }

  lemma FilingKeepsInv(db: Db, input: Input, now: Instant, id: int)
    requires Inv(db) && Reportable(db, input.video) && NamesReport(db, input, id)
    ensures Inv(Filed(db, input, now, id))
  {
    var filed := Filed(db, input, now, id);
    if id !in db.reports {
      assert forall other | other in db.reports && IsOpen(db.reports[other], input.video, input.reporter) ::
        other in OpenOf(db, input.video, input.reporter);
    }
    forall other | other in filed.reports ensures ReportOk(filed, filed.reports[other]) {
      if other != id {
        assert ReportOk(db, db.reports[other]);
      }
    }
  }

  lemma SubmitKeepsInv(db: Db, config: Config, input: Input, clocks: Clocks, id: int)
    requires Inv(db) && Reportable(db, input.video) && NamesReport(db, input, id)
    ensures Inv(Submitted(db, config, input, clocks, id).0)
  {
    FilingKeepsInv(db, input, clocks.now, id);
    var filed, db' := Filed(db, input, clocks.now, id), Submitted(db, config, input, clocks, id).0;
    forall other | other in db'.reports ensures ReportOk(db', db'.reports[other]) {
      assert ReportOk(filed, filed.reports[other]);
    }
  }

  lemma StepKeepsInv(db: Db, config: Config, ev: Event)
    requires Inv(db) && Enabled(db, ev)
    ensures Inv(Step(db, config, ev))
  {
    if ev.Submit? {
      if Reportable(db, ev.input.video) {
        SubmitKeepsInv(db, config, ev.input, ev.clocks, ev.id);
      }
    } else {
      var db' := Step(db, config, ev);
      forall id | id in db'.reports ensures ReportOk(db', db'.reports[id]) {
        assert ReportOk(db, db.reports[id]);
      }
    }
  }

  /** At most one open report per video and reporter, whatever transactions ran. */
  lemma {:induction false} RunKeepsInv(run: seq<Db>, config: Config, events: seq<Event>, n: nat)
    requires Run(run, config, events) && n < |run|
    ensures Inv(run[n])
  {
    if n > 0 {
      RunKeepsInv(run, config, events, n - 1);
      StepKeepsInv(run[n - 1], config, events[n - 1]);
    }
  }

  // ---------------------------------------------------------------- histories

  lemma SubmitSparesClosed(db: Db, config: Config, ev: Event, id: int)
    requires ev.Submit? && Enabled(db, ev) && id in db.reports && db.reports[id].closedAt.Some?
    ensures id in Step(db, config, ev).reports && Step(db, config, ev).reports[id] == db.reports[id]
  {
    assert id != ev.id;
  }

  /** A closed report is never altered again; only its deletion ends it. */
  lemma {:induction false} ClosedStaysClosed(run: seq<Db>, config: Config, events: seq<Event>, i: nat, j: nat, id: int)
    requires Run(run, config, events) && i <= j < |run|
    requires id in run[i].reports && run[i].reports[id].closedAt.Some?
    requires forall k | i <= k < j && events[k].Purge? :: id !in events[k].gone
    ensures id in run[j].reports && run[j].reports[id] == run[i].reports[id]
    decreases j
  {
    if i < j {
      ClosedStaysClosed(run, config, events, i, j - 1, id);
      assert Enabled(run[j - 1], events[j - 1]);
      if events[j - 1].Submit? {
        SubmitSparesClosed(run[j - 1], config, events[j - 1], id);
      }
    }
  }

  ghost predicate TouchesVideo(ev: Event, video: int) {
    (ev.Moderate? && ev.video == video) || (ev.Erase? && ev.video == video)
  }

  /** A removed video stays removed until an admin acts on it, and is reported by nobody. */
  lemma {:induction false} RemovedStaysRemoved(run: seq<Db>, config: Config, events: seq<Event>, i: nat, j: nat,
          video: int)
    requires Run(run, config, events) && i <= j < |run|
    requires video in run[i].videos && run[i].videos[video].state == Removed
    requires forall k | i <= k < j :: !TouchesVideo(events[k], video)
    ensures video in run[j].videos && run[j].videos[video].state == Removed
    ensures !Reportable(run[j], video)
    decreases j
  {
    if i < j {
      RemovedStaysRemoved(run, config, events, i, j - 1, video);
      assert Enabled(run[j - 1], events[j - 1]);
    }
  }

  /** A video that was hidden and is visible again was restored, or erased and published
      anew, in between. */
  lemma {:induction false} OnlyRestoreShows(run: seq<Db>, config: Config, events: seq<Event>, i: nat, j: nat,
          video: int)
    requires Run(run, config, events) && i <= j < |run|
    requires video in run[i].videos && run[i].videos[video].state != Visible
    requires video in run[j].videos && run[j].videos[video].state == Visible
    ensures exists k ::
              i <= k < j && TouchesVideo(events[k], video) && (events[k].Moderate? ==> events[k].action == Restore)
    decreases j
  {
    if i < j {
      var before := run[j - 1];
      assert Enabled(before, events[j - 1]);
      if video in before.videos && before.videos[video].state != Visible {
        assert TouchesVideo(events[j - 1], video);
      } else if video in before.videos {
        OnlyRestoreShows(run, config, events, i, j - 1, video);
      } else {
        GoneWasErased(run, config, events, i, j - 1, video);
      }
    }
  }

  /** What a transaction may do to the moderation of a video: an admin's action or an automatic
      quarantine of that very video, or the loss of the report it quotes. */
  lemma OnlyModerationChangesVideo(run: seq<Db>, config: Config, events: seq<Event>, n: nat, video: int)
    requires Run(run, config, events) && n + 1 < |run| && video in run[n].videos && video in run[n + 1].videos
    ensures var before, after := run[n].videos[video], run[n + 1].videos[video];
            || (after.state, after.reason, after.source, after.changedAt, after.changedBy)
               == (before.state, before.reason, before.source, before.changedAt, before.changedBy)
            || (events[n].Moderate? && events[n].video == video && after.state == Target(events[n].action))
            || (events[n].Submit? && events[n].input.video == video && after.state == Quarantined
                && after.changedBy == Some(AUTO_ACTOR) && after.reason == AUTO_REASON)
            || (events[n].Purge? && before.source.Some? && before.source.value in events[n].gone
                && after == before.(source := None))
  {
    assert Enabled(run[n], events[n]) && run[n + 1] == Step(run[n], config, events[n]);
    if events[n].Submit? && events[n].input.video == video {
      RunKeepsInv(run, config, events, n);
    }
  }

  lemma {:induction false} GoneWasErased(run: seq<Db>, config: Config, events: seq<Event>, i: nat, j: nat, video: int)
    requires Run(run, config, events) && i <= j < |run|
    requires video in run[i].videos && video !in run[j].videos
    ensures exists k :: i <= k < j && events[k] == Erase(video)
    decreases j
  {
    if i < j && video !in run[j - 1].videos {
      GoneWasErased(run, config, events, i, j - 1, video);
    }
  }

  // ---------------------------------------------------------------- what a submission decides

  lemma {:induction false} SameSize(db: Db, ids: set<int>, reporters: set<int>)
    requires ids <= db.reports.Keys && reporters == set id | id in ids :: db.reports[id].reporter
    requires forall a, b | a in ids && b in ids && a != b :: db.reports[a].reporter != db.reports[b].reporter
    ensures |ids| == |reporters|
  {
    if ids == {} {
      assert reporters == {};
    } else {
      var id := Pick(ids);
      var fewer := reporters - {db.reports[id].reporter};
      assert fewer == set other | other in ids - {id} :: db.reports[other].reporter;
      SameSize(db, ids - {id}, fewer);
      assert reporters == fewer + {db.reports[id].reporter};
    }
  }

  /** Distinct reporters are open reports: nobody is counted twice or left out. */
  lemma DistinctReportersAreReports(db: Db, video: int, since: Instant)
    requires OneOpen(db)
    ensures |Reporters(db, video, since)| == |RecentOpen(db, video, since)|
  {
    SameSize(db, RecentOpen(db, video, since), Reporters(db, video, since));
  }

  /** A submission quarantines exactly when the rules are on and its codes are of the
      gravest kind, or severe with enough open reports in the window, its own included when
      that is recent. */
  lemma SubmitDecides(db: Db, config: Config, input: Input, clocks: Clocks, id: int)
    requires Inv(db) && Reportable(db, input.video) && NamesReport(db, input, id)
    ensures var others := InWindow(db, config, input.video, clocks.txnStart) - {id};
            var created := if id in db.reports then db.reports[id].createdAt else clocks.now;
            var own := if clocks.txnStart - created <= Max(config.windowSecs, 1) * 1_000_000_000 then 1 else 0;
            var score := ReportReasons.Severity(input.codes);
            var rule := Submitted(db, config, input, clocks, id).1;
            && (rule == Some(MinorExploitation) <==> config.enabled && score >= 100)
            && (rule == Some(DistinctReporters(Max(config.threshold, 1))) <==>
                  config.enabled && 75 <= score < 100 && |others| + own >= Max(config.threshold, 1))
            && (rule.Some? ==> rule == Some(MinorExploitation)
                               || rule == Some(DistinctReporters(Max(config.threshold, 1))))
  {
    ReportReasons.ScoreDecides(input.codes);
    WindowIsRecent(db, config, input.video, clocks.txnStart);
    OpenReportsAfterFiling(db, input, clocks.now, id, Since(config, clocks.txnStart));
  }

  /** A submission leaves one open report of its reporter with its codes, touches no other
      report or video, and leaves the video quarantined on account of that report, or as
      it was. */
  lemma SubmitTouchesItsOwn(db: Db, config: Config, input: Input, clocks: Clocks, id: int)
    requires Inv(db) && Reportable(db, input.video) && NamesReport(db, input, id)
    ensures var (db', rule) := Submitted(db, config, input, clocks, id);
            && OpenOf(db', input.video, input.reporter) == {id} && id in db'.reports
            && db'.reports[id].codes == input.codes && db'.reports[id].severity == ReportReasons.Severity(input.codes)
            && db'.reports[id].updatedAt == clocks.now
            && db'.reports[id].createdAt == (if id in db.reports then db.reports[id].createdAt else clocks.now)
            && db'.reports - {id} == db.reports - {id}
            && db'.videos - {input.video} == db.videos - {input.video}
            && input.video in db'.videos
            && if rule.Some?
               then db'.videos[input.video].state == Quarantined && db'.videos[input.video].source == Some(id)
                    && db'.reports[id].status == AutoQuarantined && db'.reports[id].autoRule == rule
               else db'.videos == db.videos
  {
    SubmitKeepsInv(db, config, input, clocks, id);
    var db' := Submitted(db, config, input, clocks, id).0;
    assert IsOpen(db'.reports[id], input.video, input.reporter);
    forall other | other in OpenOf(db', input.video, input.reporter) ensures other == id {
      assert IsOpen(db'.reports[other], input.video, input.reporter);
    }
    assert OpenOf(db', input.video, input.reporter) == {id};
  }

  lemma OpenReportsAfterFiling(db: Db, input: Input, now: Instant, id: int, since: Instant)
    requires Inv(db) && Reportable(db, input.video) && NamesReport(db, input, id)
    ensures var own := if id in db.reports then db.reports[id].createdAt else now;
            |Reporters(Filed(db, input, now, id), input.video, since)|
            == |RecentOpen(db, input.video, since) - {id}| + (if own >= since then 1 else 0)
  {
    FilingKeepsInv(db, input, now, id);
    DistinctReportersAreReports(Filed(db, input, now, id), input.video, since);
    RecentAfterFiling(db, input, now, id, since);
  }

  lemma RecentAfterFiling(db: Db, input: Input, now: Instant, id: int, since: Instant)
    requires NamesReport(db, input, id)
    ensures var own := if id in db.reports then db.reports[id].createdAt else now;
            RecentOpen(Filed(db, input, now, id), input.video, since)
            == RecentOpen(db, input.video, since) - {id} + (if own >= since then {id} else {})
  {
  }
}
