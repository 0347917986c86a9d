/** Block jobs: who answers for a commit, and why a ready job always finds its commit. */
module BackupJobs {
  import opened Messages
  import opened ControllerModel
  import opened MonitorModel
  import opened Backup

  // A job on this disk has been started and is not yet dealt with.
  predicate Active(jobs: map<nat, Job>, disk: nat) {
    disk in jobs && !jobs[disk].Stuck?
  }

  // ----- a ready job finds its commit -----

  // The machine refuses to start a second job of the same name.
  predicate KeepsJobNames(s: System, e: Event) {
    Enabled(s, e) && e.Process? && s.c.monitor[s.processed].CommitSnapshot?
      && Active(s.jobs, s.c.monitor[s.processed].disk) ==>
      !e.o.result.Ok?
  }

  predicate ReportWaits(s: System, p: nat, disk: nat) {
    s.processed <= p < |s.c.monitor| && s.c.monitor[p] == JobReady(disk)
  }

  ghost predicate ReportsMatchJobs(s: System) {
    && s.processed <= |s.c.monitor|
    && (forall p, d :: ReportWaits(s, p, d) ==> d in s.jobs && s.jobs[d].Reported?)
    && (forall p, q, d :: ReportWaits(s, p, d) && ReportWaits(s, q, d) ==> p == q)
    && (forall d :: Active(s.jobs, d) ==> d in s.m.pending)
  }

  // The queue grew by entries that report no job.
  ghost predicate AddsNoReports(c: Controller, r: Controller) {
    c.monitor <= r.monitor && forall i :: |c.monitor| <= i < |r.monitor| ==> !r.monitor[i].JobReady?
  }

  lemma GrowthKeepsReports(s: System, r: System)
    requires ReportsMatchJobs(s) && AddsNoReports(s.c, r.c)
    requires r == s.(c := r.c, requests := r.requests)
    ensures ReportsMatchJobs(r)
  {
    forall p, d | ReportWaits(r, p, d) ensures ReportWaits(s, p, d) {
    }
  }

  lemma AskAddsNoReports(cfg: Config, c: Controller, existing: set<string>, leave: bool)
    ensures AddsNoReports(c, BackupMode(cfg, c, existing, leave).0)
  {
    var disks := SnapshotDisks(cfg.snapshots, existing, leave);
    var commands := SnapshotCommands(cfg.snapshots, disks, leave, c.acks);
    assert forall k :: 0 <= k < |commands| ==> CarriesAck(commands[k]);
  }

  lemma ReportKeepsReports(cfg: Config, s: System, disk: nat)
    requires ReportsMatchJobs(s) && Enabled(s, JobTurnsReady(disk))
    ensures ReportsMatchJobs(Step(cfg, s, JobTurnsReady(disk)))
  {
    var r := Step(cfg, s, JobTurnsReady(disk));
    forall p, d | ReportWaits(r, p, d) ensures ReportWaits(s, p, d) || (p == |s.c.monitor| && d == disk) {
    }
    assert forall d :: Active(r.jobs, d) ==> Active(s.jobs, d);
  }

  lemma DeathKeepsReports(cfg: Config, s: System, disk: nat)
    requires ReportsMatchJobs(s) && Enabled(s, JobDies(disk))
    ensures ReportsMatchJobs(Step(cfg, s, JobDies(disk)))
  {
    var r := Step(cfg, s, JobDies(disk));
    forall p, d | ReportWaits(r, p, d) ensures ReportWaits(s, p, d) && d != disk {
      assert ReportWaits(s, p, d);
    }
    assert forall d :: Active(r.jobs, d) ==> Active(s.jobs, d);
  }

  lemma ProcessKeepsReports(cfg: Config, s: System, o: Outcome)
    requires ReportsMatchJobs(s) && Enabled(s, Process(o)) && KeepsJobNames(s, Process(o))
    ensures ReportsMatchJobs(Step(cfg, s, Process(o)))
  {
    var r := Step(cfg, s, Process(o));
    var cmd := s.c.monitor[s.processed];
    if cmd.JobReady? {
      assert ReportWaits(s, s.processed, cmd.disk);
    }
    forall p, d | ReportWaits(r, p, d) ensures ReportWaits(s, p, d) && p != s.processed {
    }
    forall d | Active(r.jobs, d) ensures d in r.m.pending {
      assert Active(s.jobs, d) || (cmd.CommitSnapshot? && cmd.disk == d);
    }
  }

  lemma StepKeepsReports(cfg: Config, s: System, e: Event)
    requires ReportsMatchJobs(s) && KeepsJobNames(s, e)
    ensures ReportsMatchJobs(Step(cfg, s, e))
  {
    if Enabled(s, e) {
      match e
      case Ask(_, existing, leave) =>
        AskAddsNoReports(cfg, s.c, existing, leave);
        GrowthKeepsReports(s, Step(cfg, s, e));
      case Call(op) =>
        ApplyAddsPlain(cfg, s.c, op);
        GrowthKeepsReports(s, Step(cfg, s, e));
      case Forward(_) => GrowthKeepsReports(s, Step(cfg, s, e));
      case JobTurnsReady(disk) => ReportKeepsReports(cfg, s, disk);
      case JobDies(disk) => DeathKeepsReports(cfg, s, disk);
      case Process(o) => ProcessKeepsReports(cfg, s, o);
      case Poll(_) => GrowthKeepsReports(s, Step(cfg, s, e));
      case Deliver(_) => GrowthKeepsReports(s, Step(cfg, s, e));
    }
  }

  // As long as the machine keeps job names apart, a report of a ready job always finds
  // the commit it belongs to, so the task never fails for want of one.
  lemma {:induction false} ReadyJobFindsCommit(cfg: Config, events: seq<Event>)
    requires forall i :: 0 <= i < |events| ==> KeepsJobNames(Run(cfg, events[..i]), events[i])
    ensures ReportsMatchJobs(Run(cfg, events))
    ensures var s := Run(cfg, events);
            s.processed < |s.c.monitor| && s.c.monitor[s.processed].JobReady? ==>
              s.c.monitor[s.processed].disk in s.m.pending
  {
    if events != [] {
      var n := |events| - 1;
      forall i | 0 <= i < n ensures KeepsJobNames(Run(cfg, events[..n][..i]), events[..n][i]) {
        assert events[..n][..i] == events[..i];
      }
      ReadyJobFindsCommit(cfg, events[..n]);
      StepKeepsReports(cfg, Run(cfg, events[..n]), events[n]);
    }
    var s := Run(cfg, events);
    if s.processed < |s.c.monitor| && s.c.monitor[s.processed].JobReady? {
      assert ReportWaits(s, s.processed, s.c.monitor[s.processed].disk);
      assert Active(s.jobs, s.c.monitor[s.processed].disk);
    }
  }

  // ----- whose job completes a commit -----

  // What starts or ends a job on the disk.
  predicate Concerns(entry: Entry, disk: nat) {
    || (entry.CommitIssued? && entry.ok && entry.disk == disk)
    || (entry.JobCompleted? && entry.disk == disk)
  }

  // The commit at position i was accepted, and no job of the disk has started or
  // completed since, up to position end.
  ghost predicate JobOf(journal: seq<Entry>, i: nat, end: nat, disk: nat, commit: Commit) {
    && i < end <= |journal| && journal[i] == CommitIssued(commit.ack, disk, commit.file, true)
    && forall l :: i < l < end ==> !Concerns(journal[l], disk)
  }

  // While a job is active, the commit that its completion will answer is the one that
  // started it.
  ghost predicate AnswersOwnCommit(s: System) {
    forall d :: Active(s.jobs, d) && d in s.m.pending ==>
      exists i :: JobOf(s.m.journal, i, |s.m.journal|, d, s.m.pending[d])
  }

  // A commit is refused while an older job on the same disk is active, and takes its
  // place nevertheless.
  predicate TakesOverJob(s: System, e: Event) {
    Enabled(s, e) && e.Process? && s.c.monitor[s.processed].CommitSnapshot?
    && Active(s.jobs, s.c.monitor[s.processed].disk) && !e.o.result.Ok?
  }

  // The journal speaks of executed commits only.
  ghost predicate JournalFromQueue(s: System) {
    && s.processed <= |s.c.monitor|
    && forall i :: 0 <= i < |s.m.journal| && s.m.journal[i].CommitIssued? ==>
         exists p :: 0 <= p < s.processed
           && s.c.monitor[p] == CommitSnapshot(s.m.journal[i].disk, s.m.journal[i].file, s.m.journal[i].ack)
  }

  lemma StepKeepsJournal(cfg: Config, s: System, e: Event)
    requires JournalFromQueue(s)
    ensures JournalFromQueue(Step(cfg, s, e))
  {
    var r := Step(cfg, s, e);
    QueueGrows(cfg, s, e);
    forall i | 0 <= i < |r.m.journal| && r.m.journal[i].CommitIssued?
      ensures exists p ::
                && 0 <= p < r.processed
                && r.c.monitor[p] == CommitSnapshot(r.m.journal[i].disk, r.m.journal[i].file, r.m.journal[i].ack)
    {
      if i < |s.m.journal| {
        assert r.m.journal[i] == s.m.journal[i];
        var p :| 0 <= p < s.processed
          && s.c.monitor[p] == CommitSnapshot(s.m.journal[i].disk, s.m.journal[i].file, s.m.journal[i].ack);
        assert r.c.monitor[p] == s.c.monitor[p];
      } else {
        assert r.c.monitor[s.processed] == CommitSnapshot(r.m.journal[i].disk, r.m.journal[i].file, r.m.journal[i].ack);
      }
    }
  }

  lemma QueueGrows(cfg: Config, s: System, e: Event)
    ensures s.c.monitor <= Step(cfg, s, e).c.monitor
    ensures s.m.journal <= Step(cfg, s, e).m.journal
    ensures s.processed <= Step(cfg, s, e).processed <= s.processed + 1
  {
    if Enabled(s, e) && e.Call? { ApplyAddsPlain(cfg, s.c, e.op); }
  }

  // A commit that the journal calls accepted is not the one to be executed next.
  lemma NextIsNotAccepted(s: System)
    requires AcksUnique(s.c) && JournalFromQueue(s)
    requires s.processed < |s.c.monitor| && s.c.monitor[s.processed].CommitSnapshot?
    ensures forall i :: 0 <= i < |s.m.journal| && s.m.journal[i].CommitIssued? ==>
              s.m.journal[i].ack != s.c.monitor[s.processed].ack
  {
    forall i | 0 <= i < |s.m.journal| && s.m.journal[i].CommitIssued?
      ensures s.m.journal[i].ack != s.c.monitor[s.processed].ack
    {
      var p :| 0 <= p < s.processed
        && s.c.monitor[p] == CommitSnapshot(s.m.journal[i].disk, s.m.journal[i].file, s.m.journal[i].ack);
      assert CarriesAck(s.c.monitor[p]) && CarriesAck(s.c.monitor[s.processed]);
    }
  }

  // A step keeps this exactly when it is not such a take-over.
  lemma StepKeepsOwnCommit(cfg: Config, s: System, e: Event)
    requires AcksUnique(s.c) && JournalFromQueue(s) && AnswersOwnCommit(s)
    ensures AnswersOwnCommit(Step(cfg, s, e)) <==> !TakesOverJob(s, e)
  {
    var r := Step(cfg, s, e);
    QueueGrows(cfg, s, e);
    if TakesOverJob(s, e) {
      TakeOverBreaks(cfg, s, e);
    } else {
      forall d | Active(r.jobs, d) && d in r.m.pending
        ensures exists i :: JobOf(r.m.journal, i, |r.m.journal|, d, r.m.pending[d])
      {
        JobStaysOwn(cfg, s, e, d);
      }
    }
  }

  lemma JobStaysOwn(cfg: Config, s: System, e: Event, d: nat)
    requires AnswersOwnCommit(s) && !TakesOverJob(s, e)
    requires Active(Step(cfg, s, e).jobs, d) && d in Step(cfg, s, e).m.pending
    ensures var m := Step(cfg, s, e).m; exists i :: JobOf(m.journal, i, |m.journal|, d, m.pending[d])
  {
    var r := Step(cfg, s, e);
    if Enabled(s, e) && e.Process? && s.c.monitor[s.processed].CommitSnapshot? && s.c.monitor[s.processed].disk == d {
      assert JobOf(r.m.journal, |s.m.journal|, |r.m.journal|, d, r.m.pending[d]);
    } else {
      assert Active(s.jobs, d) && d in s.m.pending && r.m.pending[d] == s.m.pending[d];
      var i :| JobOf(s.m.journal, i, |s.m.journal|, d, s.m.pending[d]);
      assert JobOf(r.m.journal, i, |r.m.journal|, d, r.m.pending[d]);
    }
  }

  lemma TakeOverBreaks(cfg: Config, s: System, e: Event)
    requires AcksUnique(s.c) && JournalFromQueue(s) && TakesOverJob(s, e)
    ensures !AnswersOwnCommit(Step(cfg, s, e))
  {
    var r := Step(cfg, s, e);
    var cmd := s.c.monitor[s.processed];
    NextIsNotAccepted(s);
    assert r.m.journal == s.m.journal + [CommitIssued(cmd.ack, cmd.disk, cmd.file, false)];
    assert Active(r.jobs, cmd.disk) && r.m.pending[cmd.disk] == Commit(cmd.file, cmd.ack);
  }

  lemma {:induction false} OwnCommitUnlessTakenOver(cfg: Config, events: seq<Event>)
    requires forall i :: 0 <= i < |events| ==> !TakesOverJob(Run(cfg, events[..i]), events[i])
    ensures AnswersOwnCommit(Run(cfg, events)) && JournalFromQueue(Run(cfg, events))
  {
    if events != [] {
      var n := |events| - 1;
      forall i | 0 <= i < n ensures !TakesOverJob(Run(cfg, events[..n][..i]), events[..n][i]) {
        assert events[..n][..i] == events[..i];
      }
      OwnCommitUnlessTakenOver(cfg, events[..n]);
      EveryRunKeepsInvariant(cfg, events[..n]);
      StepKeepsJournal(cfg, Run(cfg, events[..n]), events[n]);
      StepKeepsOwnCommit(cfg, Run(cfg, events[..n]), events[n]);
    }
  }

  // ----- an earned Ack is not withheld -----

  function PollTimes(m: Monitor, r: Request, n: nat): Request {
    if n == 0 then r
    else
      var before := PollTimes(m, r, n - 1);
      if before.progress.Waiting? then PollRequest(m, before) else before
  }

  // Once every ack of a waiting request is answered, polling reaches the Ack, and it
  // reaches it only then.
  lemma {:induction false} PollsReachAck(m: Monitor, r: Request, n: nat)
    requires r.progress.Waiting? && r.next <= |r.acks|
    ensures var p := PollTimes(m, r, n);
            && (p.progress.Acked? ==> forall k :: r.next <= k < |r.acks| ==> r.acks[k] in m.sent)
            && ((forall k :: r.next <= k < |r.acks| ==> r.acks[k] in m.sent) ==>
                  if n <= |r.acks| - r.next then p == r.(next := r.next + n)
                  else p == r.(next := |r.acks|, progress := Acked))
            && (p.progress.Waiting? || p.progress.GivenUp? || p.progress.Acked?)
            && r.next <= p.next <= |r.acks| && p.acks == r.acks
            && (p.progress.Acked? ==> p.next == |r.acks|)
            && forall k :: r.next <= k < p.next ==> r.acks[k] in m.sent
  {
    if n > 0 { PollsReachAck(m, r, n - 1); }
  }
}
