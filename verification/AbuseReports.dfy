/**
 * The transactions of src/api/src/services/abuse_report_service.rs and the admin's
 * resolve handler, statement by statement, against the tables they leave.
 */
module AbuseReports {
  import opened Common
  import opened ModerationState
  import ReportReasons

  datatype Outcome = NotFound | Filed(report: int, created: bool, rule: Option<Rule>)

  class AbuseReportService {
    const config: Config
    var reports: map<int, Report>
    var videos: map<int, Video>

    ghost function Tables(): Db
      reads this
    {
      Db(reports, videos)
    }

    constructor (config: Config)
      ensures this.config == config && Tables() == Db(map[], map[]) && Inv(Tables())
    {
      this.config, reports, videos := config, map[], map[];
    }

    /** Files the report and lets its codes decide about quarantine. `newId` is the random
        identifier a new report gets. */
    method SubmitOrUpdateReport(input: Input, clocks: Clocks, newId: int) returns (outcome: Outcome)
      requires Inv(Tables()) && newId !in reports
      modifies this
      ensures Inv(Tables())
      ensures outcome.NotFound? <==> !Reportable(old(Tables()), input.video)
      ensures outcome.Filed? <==>
                && input.video in old(videos) && old(videos)[input.video].listed && !old(videos)[input.video].deleted
                && old(videos)[input.video].state != Removed
      ensures outcome.NotFound? ==> Tables() == old(Tables())
      ensures outcome.Filed? ==>
                && NamesReport(old(Tables()), input, outcome.report)
                && outcome.created == (outcome.report == newId)
                && (Tables(), outcome.rule) == Submitted(old(Tables()), config, input, clocks, outcome.report)
    {
      if input.video !in videos || !videos[input.video].listed || videos[input.video].deleted {
        return NotFound;
      }
      if videos[input.video].state == Removed {
        return NotFound;
      }
      var id, created := File(input, clocks.now, newId);
      FilingKeepsInv(old(Tables()), input, clocks.now, id);
      var rule := DecideRule(input, clocks.txnStart);
      if rule.Some? {
        var _ := ApplyModeration(input.video, Quarantine, AUTO_REASON, AUTO_ACTOR, Some(id), clocks.written);
        reports := reports[id := reports[id].(autoRule := rule, status := AutoQuarantined, updatedAt := clocks.now)];
      }
      outcome := Outcome.Filed(id, created, rule);
      SubmitKeepsInv(old(Tables()), config, input, clocks, id);
    }

    /** Updates the reporter's open report or inserts one. */
    method File(input: Input, now: Instant, newId: int) returns (id: int, created: bool)
      requires Inv(Tables()) && newId !in reports
      modifies this`reports
      ensures NamesReport(old(Tables()), input, id) && created == (id == newId)
      ensures Tables() == ModerationState.Filed(old(Tables()), input, now, id)
    {
      var existing := set id | id in reports && IsOpen(reports[id], input.video, input.reporter);
      var severity := ReportReasons.Severity(input.codes);
      assert existing == OpenOf(Tables(), input.video, input.reporter);
      if existing != {} {
        id := Take(existing);
        created := false;
        reports := reports[id := reports[id].(codes := input.codes, severity := severity, updatedAt := now)];
      } else {
        id := newId;
        created := true;
        reports := reports[id := Report(input.video, input.reporter, input.codes, severity, Open, None, now, now,
              None)];
      }
    }

    /** The score of the codes decides, and below the gravest kind also the number of open
        reports on the video since the window began. */
    method DecideRule(input: Input, txnStart: Instant) returns (rule: Option<Rule>)
      requires Inv(Tables())
      ensures rule == AutoRule(Tables(), config, input, txnStart)
      ensures var score := ReportReasons.Severity(input.codes);
              var recent := set id | id in reports && reports[id].video == input.video
                    && reports[id].closedAt.None?
                    && txnStart - reports[id].createdAt <= Max(config.windowSecs, 1) * 1_000_000_000;
              var enough := |recent| >= Max(config.threshold, 1);
              && (rule == Some(MinorExploitation) <==> config.enabled && score >= 100)
              && (rule == Some(DistinctReporters(Max(config.threshold, 1))) <==>
                    config.enabled && 75 <= score < 100 && enough)
              && (rule == None <==> !config.enabled || score < 75 || (score < 100 && !enough))
    {
      ReportReasons.ScoreDecides(input.codes);
      DistinctReportersAreReports(Tables(), input.video, Since(config, txnStart));
      WindowIsRecent(Tables(), config, input.video, txnStart);
      rule := None;
      if config.enabled {
        if ReportReasons.Immediate(input.codes) {
          rule := Some(MinorExploitation);
        } else if ReportReasons.HasSevere(input.codes) {
          var since := txnStart - Seconds(Max(config.windowSecs, 1));
          var reporters := set id | id in reports && Recent(reports[id], input.video, since) :: reports[id].reporter;
          if |reporters| >= Max(config.threshold, 1) {
            rule := Some(DistinctReporters(Max(config.threshold, 1)));
          }
        }
      }
    }

    /** The shared part of automatic and manual moderation. */
    method ApplyModeration(video: int, action: Action, reason: Option<string>, actor: string, source: Option<int>,
            now: Instant)
      returns (changed: Option<bool>)
      modifies this`videos
      ensures changed.None? <==> video !in old(videos) || old(videos)[video].deleted
      ensures changed.None? ==> videos == old(videos)
      ensures changed.Some? ==>
                && videos == old(videos)[video := Moderated(old(videos)[video], action, reason, actor, source, now)]
                && (changed.value ==> videos[video].changedAt == Some(now) && videos[video].changedBy == Some(actor))
                && (!changed.value ==> videos == old(videos))
    {
      if video !in videos || videos[video].deleted {
        return None;
      }
      var target := Target(action);
      var nextReason, nextSource := reason, source;
      if action == Restore {
        nextReason, nextSource := None, None;
      }
      var row := videos[video];
      if row.state == target && row.reason == nextReason && row.source == nextSource {
        assert videos == videos[video := row];
        return Some(false);
      }
      videos := videos[video := row.(
        state := target, reason := nextReason, source := nextSource, changedAt := Some(now), changedBy := Some(actor))];
      return Some(true);
    }

    /** The admin's moderation: the foreign key refuses a source that does not exist. */
    method ModerateVideo(video: int, action: Action, reason: Option<string>, actor: string, source: Option<int>,
            now: Instant)
      returns (done: bool)
      requires Inv(Tables())
      modifies this`videos
      ensures Inv(Tables())
      ensures Tables() == Step(old(Tables()), config, Moderate(video, action, reason, actor, source, now))
      ensures !done ==> Tables() == old(Tables())
    {
      ghost var before := Tables();
      var prior := videos;
      var changed := ApplyModeration(video, action, reason, actor, source, now);
      if changed.None? {
        return false;
      }
      StepKeepsInv(before, config, Moderate(video, action, reason, actor, source, now));
      if videos[video].source.Some? && videos[video].source.value !in reports {
        videos := prior;
        return false;
      }
      return true;
    }

    /** Closing a report that is closed already answers it as it is. */
    method ResolveReport(report: int, status: Status, now: Instant) returns (found: bool)
      requires Inv(Tables()) && (status == Resolved || status == Rejected)
      modifies this`reports
      ensures Inv(Tables())
      ensures found == (report in old(reports))
      ensures Tables() == Step(old(Tables()), config, Resolve(report, status, now))
      ensures found ==>
                if old(reports)[report].closedAt.Some? then reports[report] == old(reports)[report]
                else reports[report].status == status && reports[report].closedAt == Some(now)
                     && reports[report].codes == old(reports)[report].codes
      ensures forall id | id in old(reports) && id != report :: id in reports && reports[id] == old(reports)[id]
    {
      ghost var before := Tables();
      found := report in reports;
      if found {
        if reports[report].closedAt.None? {
          reports := reports[report := reports[report].(status := status, closedAt := Some(now), updatedAt := now)];
        } else {
          assert reports == reports[report := reports[report]];
        }
      }
      StepKeepsInv(before, config, Resolve(report, status, now));
    }
  }
}
