/** When leaving backup mode may be asked for: the exact condition under which an answer
    speaks for the request's own commit. */
module BackupTurns {
  import opened Messages
  import opened ControllerModel
  import opened MonitorModel
  import opened Backup
  import opened BackupJobs

  // ----- asking in turn -----

  // A commit for the disk is in the queue and not yet executed.
  predicate CommitWaits(s: System, p: nat, disk: nat) {
    s.processed <= p < |s.c.monitor| && s.c.monitor[p].CommitSnapshot? && s.c.monitor[p].disk == disk
  }

  predicate Runs(jobs: map<nat, Job>, disk: nat) {
    disk in jobs && jobs[disk].Running?
  }

  // An earlier commit of the disk still waits, or its job has not yet been reported ready.
  ghost predicate Outstanding(s: System, disk: nat) {
    Runs(s.jobs, disk) || exists p :: CommitWaits(s, p, disk)
  }

  // Backup mode is left only when nothing is outstanding for the disks to be committed.
  ghost predicate AsksInTurn(cfg: Config, s: System, e: Event) {
    e.Ask? && e.leave ==> forall d :: d in SnapshotDisks(cfg.snapshots, e.existing, true) ==> !Outstanding(s, d)
  }

  // One commit per disk at a time: none waits beside another or while a job runs, and
  // one that waits is behind the report of the job before it.
  ghost predicate OneOutstanding(s: System) {
    && (forall p, q, d :: CommitWaits(s, p, d) && CommitWaits(s, q, d) ==> p == q)
    && (forall p, d :: CommitWaits(s, p, d) ==> !Runs(s.jobs, d))
    && (forall p, q, d :: CommitWaits(s, p, d) && ReportWaits(s, q, d) ==> q < p)
  }

  ghost predicate ReportsWait(s: System) {
    forall d :: d in s.jobs && s.jobs[d].Reported? ==> exists q :: ReportWaits(s, q, d)
  }

  // The commit that an Ask for these files adds for a disk.
  lemma AskedCommit(cfg: Config, s: System, conn: nat, existing: set<string>, d: nat) returns (n: nat)
    requires d in SnapshotDisks(cfg.snapshots, existing, true)
    ensures var r := Step(cfg, s, Ask(conn, existing, true));
            |s.c.monitor| <= n < |r.c.monitor| && r.c.monitor[n].CommitSnapshot? && r.c.monitor[n].disk == d
  {
    var disks := SnapshotDisks(cfg.snapshots, existing, true);
    var k :| 0 <= k < |disks| && disks[k] == d;
    n := |s.c.monitor| + k;
  }

  // What an Ask adds: commits of different disks among those that are due, or none.
  lemma AskedCommits(cfg: Config, s: System, conn: nat, existing: set<string>, leave: bool)
    ensures var r := Step(cfg, s, Ask(conn, existing, leave));
            && s.c.monitor <= r.c.monitor
            && (forall p :: |s.c.monitor| <= p < |r.c.monitor| ==> CarriesAck(r.c.monitor[p]))
            && (forall p :: |s.c.monitor| <= p < |r.c.monitor| && r.c.monitor[p].CommitSnapshot? ==>
                  leave && r.c.monitor[p].disk in SnapshotDisks(cfg.snapshots, existing, true))
            && (forall p, q :: |s.c.monitor| <= p < q < |r.c.monitor| ==>
                  r.c.monitor[p].CommitSnapshot? && r.c.monitor[q].CommitSnapshot? ==>
                    r.c.monitor[p].disk != r.c.monitor[q].disk)
  {
    var disks := SnapshotDisks(cfg.snapshots, existing, leave);
    var r := Step(cfg, s, Ask(conn, existing, leave));
    forall p | |s.c.monitor| <= p < |r.c.monitor|
      ensures var k := p - |s.c.monitor|;
              r.c.monitor[p] == SnapshotCommand(cfg.snapshots, disks[k], leave, s.c.acks + k)
    {
    }
  }

  lemma AskKeepsTurns(cfg: Config, s: System, conn: nat, existing: set<string>, leave: bool)
    requires s.processed <= |s.c.monitor| && OneOutstanding(s) && ReportsMatchJobs(s)
    ensures OneOutstanding(Step(cfg, s, Ask(conn, existing, leave))) <==> AsksInTurn(cfg, s, Ask(conn, existing, leave))
  {
    var e := Ask(conn, existing, leave);
    var r := Step(cfg, s, e);
    AskedCommits(cfg, s, conn, existing, leave);
    forall p: nat, d | CommitWaits(r, p, d) && p < |s.c.monitor| ensures CommitWaits(s, p, d) {
    }
    forall q, d | ReportWaits(r, q, d) ensures ReportWaits(s, q, d) {
    }
    if AsksInTurn(cfg, s, e) {
      forall p, d | CommitWaits(r, p, d) && |s.c.monitor| <= p ensures !Outstanding(s, d) {
      }
    } else {
      var d :| d in SnapshotDisks(cfg.snapshots, existing, true) && Outstanding(s, d);
      var n := AskedCommit(cfg, s, conn, existing, d);
      assert CommitWaits(r, n, d);
      if !Runs(s.jobs, d) {
        var p :| CommitWaits(s, p, d);
        assert CommitWaits(r, p, d);
      }
    }
  }

  // The queue grew by neither commits nor reports.
  lemma GrowthKeepsTurns(s: System, r: System)
    requires OneOutstanding(s) && AddsPlain(s.c, r.c)
    requires r == s.(c := r.c, requests := r.requests)
    ensures OneOutstanding(r)
  {
    forall p, d | CommitWaits(r, p, d) ensures CommitWaits(s, p, d) {
    }
    forall q, d | ReportWaits(r, q, d) ensures ReportWaits(s, q, d) {
    }
  }

  lemma ReportKeepsTurns(cfg: Config, s: System, disk: nat)
    requires OneOutstanding(s) && Enabled(s, JobTurnsReady(disk))
    ensures OneOutstanding(Step(cfg, s, JobTurnsReady(disk)))
  {
    var r := Step(cfg, s, JobTurnsReady(disk));
    forall p, d | CommitWaits(r, p, d) ensures CommitWaits(s, p, d) && d != disk {
      assert CommitWaits(s, p, d);
    }
    forall q, d | ReportWaits(r, q, d) ensures ReportWaits(s, q, d) || d == disk {
    }
  }

  lemma DeathKeepsTurns(cfg: Config, s: System, disk: nat)
    requires OneOutstanding(s) && Enabled(s, JobDies(disk))
    ensures OneOutstanding(Step(cfg, s, JobDies(disk)))
  {
    var r := Step(cfg, s, JobDies(disk));
    forall p, d | CommitWaits(r, p, d) ensures CommitWaits(s, p, d) {
    }
    forall q, d | ReportWaits(r, q, d) ensures ReportWaits(s, q, d) {
    }
  }

  lemma ProcessKeepsTurns(cfg: Config, s: System, o: Outcome)
    requires OneOutstanding(s) && Enabled(s, Process(o))
    ensures OneOutstanding(Step(cfg, s, Process(o)))
  {
    var r := Step(cfg, s, Process(o));
    var cmd := s.c.monitor[s.processed];
    if cmd.CommitSnapshot? { assert CommitWaits(s, s.processed, cmd.disk); }
    forall p, d | CommitWaits(r, p, d) ensures CommitWaits(s, p, d) && p != s.processed {
      assert CommitWaits(s, p, d);
    }
    forall q, d | ReportWaits(r, q, d) ensures ReportWaits(s, q, d) {
    }
  }

  // One commit per disk at a time survives a step exactly if a request to leave backup
  // mode is made in turn; nothing else that may happen endangers it.
  lemma StepKeepsTurns(cfg: Config, s: System, e: Event)
    requires s.processed <= |s.c.monitor| && OneOutstanding(s) && ReportsMatchJobs(s)
    ensures OneOutstanding(Step(cfg, s, e)) <==> AsksInTurn(cfg, s, e)
  {
    if Enabled(s, e) {
      match e
      case Ask(conn, existing, leave) => AskKeepsTurns(cfg, s, conn, existing, leave);
      case Call(op) =>
        ApplyAddsPlain(cfg, s.c, op);
        GrowthKeepsTurns(s, Step(cfg, s, e));
      case Forward(events) => ForwardKeepsTurns(s, events);
      case JobTurnsReady(disk) => ReportKeepsTurns(cfg, s, disk);
      case JobDies(disk) => DeathKeepsTurns(cfg, s, disk);
      case Process(o) => ProcessKeepsTurns(cfg, s, o);
      case Poll(_) => GrowthKeepsTurns(s, Step(cfg, s, e));
      case Deliver(_) => GrowthKeepsTurns(s, Step(cfg, s, e));
    }
  }

  lemma ForwardKeepsTurns(s: System, events: seq<InputEvent>)
    requires OneOutstanding(s)
    ensures OneOutstanding(s.(c := SendMonitor(s.c, InputSendEvent(events))))
  {
    var r := s.(c := SendMonitor(s.c, InputSendEvent(events)));
    forall p, d | CommitWaits(r, p, d) ensures CommitWaits(s, p, d) {
    }
    forall q, d | ReportWaits(r, q, d) ensures ReportWaits(s, q, d) {
    }
  }

  // A commit about to be executed finds no active job on its disk.
  lemma HeadIsFree(s: System)
    requires OneOutstanding(s) && ReportsWait(s)
    requires s.processed < |s.c.monitor| && s.c.monitor[s.processed].CommitSnapshot?
    ensures !Active(s.jobs, s.c.monitor[s.processed].disk)
  {
    var d := s.c.monitor[s.processed].disk;
    assert CommitWaits(s, s.processed, d);
  }

  lemma StepKeepsReportsWaiting(cfg: Config, s: System, e: Event)
    requires ReportsWait(s) && ReportsMatchJobs(s) && KeepsJobNames(s, e)
    ensures ReportsWait(Step(cfg, s, e))
  {
    var r := Step(cfg, s, e);
    QueueGrows(cfg, s, e);
    forall d | d in r.jobs && r.jobs[d].Reported? ensures exists q :: ReportWaits(r, q, d) {
      if d in s.jobs && s.jobs[d].Reported? {
        var q :| ReportWaits(s, q, d);
        assert Active(s.jobs, d);
        assert ReportWaits(r, q, d);
      } else {
        assert ReportWaits(r, |s.c.monitor|, d);
      }
    }
  }

  // ----- answers speak for the request's own jobs -----

  // The commit was accepted, no other job of the disk started or completed until that job
  // completed, and the file was removed then.
  ghost predicate CompletedItself(journal: seq<Entry>, disk: nat, file: string, ack: nat) {
    exists i, j, k :: 0 <= i < j < k < |journal|
      && JobOf(journal, i, j, disk, Commit(file, ack))
      && journal[j] == JobCompleted(disk, true)
      && journal[k] == FileRemoved(file)
  }

  lemma CompletedStays(journal: seq<Entry>, longer: seq<Entry>, disk: nat, file: string, ack: nat)
    requires journal <= longer && CompletedItself(journal, disk, file, ack)
    ensures CompletedItself(longer, disk, file, ack)
  {
    var i, j, k :| 0 <= i < j < k < |journal| && JobOf(journal, i, j, disk, Commit(file, ack))
      && journal[j] == JobCompleted(disk, true) && journal[k] == FileRemoved(file);
    assert JobOf(longer, i, j, disk, Commit(file, ack));
    assert longer[j] == journal[j] && longer[k] == journal[k];
  }

  // Every commit whose ack has been answered was completed by its own job.
  ghost predicate AnsweredForThemselves(s: System) {
    forall p :: 0 <= p < s.processed <= |s.c.monitor| && s.c.monitor[p].CommitSnapshot?
                && s.c.monitor[p].ack in s.m.sent ==>
      CompletedItself(s.m.journal, s.c.monitor[p].disk, s.c.monitor[p].file, s.c.monitor[p].ack)
  }

  // The ack of the command to be executed next has not been answered.
  lemma NextIsUnanswered(s: System)
    requires Backup.Invariant(s) && s.processed < |s.c.monitor| && CarriesAck(s.c.monitor[s.processed])
    ensures s.c.monitor[s.processed].ack !in s.m.sent
  {
  }

  // A ready job that completes has completed the commit that started it.
  lemma JobCompletesItself(cfg: Config, s: System, o: Outcome, p: nat)
    requires Backup.Invariant(s) && ReportsMatchJobs(s) && AnswersOwnCommit(s) && Enabled(s, Process(o))
    requires s.c.monitor[s.processed].JobReady?
    requires p < s.processed && s.c.monitor[p].CommitSnapshot?
    requires s.c.monitor[p].ack !in s.m.sent && s.c.monitor[p].ack in Step(cfg, s, Process(o)).m.sent
    ensures var cmd := s.c.monitor[p];
            CompletedItself(Step(cfg, s, Process(o)).m.journal, cmd.disk, cmd.file, cmd.ack)
  {
    var d := s.c.monitor[s.processed].disk;
    var commit := s.m.pending[d];
    assert ReportWaits(s, s.processed, d);
    assert Active(s.jobs, d);
    var q :| 0 <= q < s.processed && s.c.monitor[q] == CommitSnapshot(d, commit.file, commit.ack);
    assert CarriesAck(s.c.monitor[q]) && CarriesAck(s.c.monitor[p]);
    assert q == p;
    var i :| JobOf(s.m.journal, i, |s.m.journal|, d, commit);
    CompletionIsOwn(s.m.journal, i, d, commit);
    assert Step(cfg, s, Process(o)).m.journal == s.m.journal + [JobCompleted(d, true), FileRemoved(commit.file)];
  }

  lemma CompletionIsOwn(journal: seq<Entry>, i: nat, disk: nat, commit: Commit)
    requires JobOf(journal, i, |journal|, disk, commit)
    ensures var r := journal + [JobCompleted(disk, true), FileRemoved(commit.file)];
            CompletedItself(r, disk, commit.file, commit.ack)
  {
    var r := journal + [JobCompleted(disk, true), FileRemoved(commit.file)];
    assert JobOf(r, i, |journal|, disk, Commit(commit.file, commit.ack));
    assert r[|journal|] == JobCompleted(disk, true) && r[|journal| + 1] == FileRemoved(commit.file);
  }

  lemma StepKeepsAnswers(cfg: Config, s: System, e: Event)
    requires Backup.Invariant(s) && ReportsMatchJobs(s) && AnswersOwnCommit(s) && AnsweredForThemselves(s)
    ensures AnsweredForThemselves(Step(cfg, s, e))
  {
    var r := Step(cfg, s, e);
    QueueGrows(cfg, s, e);
    forall p | 0 <= p < r.processed <= |r.c.monitor| && r.c.monitor[p].CommitSnapshot? && r.c.monitor[p].ack in r.m.sent
      ensures CompletedItself(r.m.journal, r.c.monitor[p].disk, r.c.monitor[p].file, r.c.monitor[p].ack)
    {
      assert r.c.monitor[p] == s.c.monitor[p];
      AnswerIsOwn(cfg, s, e, p);
    }
  }

  lemma AnswerIsOwn(cfg: Config, s: System, e: Event, p: nat)
    requires Backup.Invariant(s) && ReportsMatchJobs(s) && AnswersOwnCommit(s) && AnsweredForThemselves(s)
    requires p < Step(cfg, s, e).processed && p < |s.c.monitor| && s.c.monitor[p].CommitSnapshot?
    requires s.c.monitor[p].ack in Step(cfg, s, e).m.sent
    ensures CompletedItself(Step(cfg, s, e).m.journal, s.c.monitor[p].disk, s.c.monitor[p].file, s.c.monitor[p].ack)
  {
    QueueGrows(cfg, s, e);
    if s.c.monitor[p].ack in s.m.sent {
      if p == s.processed { NextIsUnanswered(s); }
      var cmd := s.c.monitor[p];
      CompletedStays(s.m.journal, Step(cfg, s, e).m.journal, cmd.disk, cmd.file, cmd.ack);
    } else if s.c.monitor[s.processed].JobReady? {
      JobCompletesItself(cfg, s, e.o, p);
    }
  }

  // ----- every run in which all requests are made in turn -----

  ghost predicate Sound(s: System) {
    && Backup.Invariant(s)
    && JournalFromQueue(s)
    && ReportsMatchJobs(s)
    && ReportsWait(s)
    && OneOutstanding(s)
    && AnswersOwnCommit(s)
    && AnsweredForThemselves(s)
  }

  lemma InTurnMeetsNoJob(s: System, e: Event)
    requires OneOutstanding(s) && ReportsWait(s)
    ensures KeepsJobNames(s, e) && !TakesOverJob(s, e)
  {
    if Enabled(s, e) && e.Process? && s.c.monitor[s.processed].CommitSnapshot? { HeadIsFree(s); }
  }

  // Nothing but an untimely request can spoil this, whatever the machine answers.
  lemma StepKeepsSound(cfg: Config, s: System, e: Event)
    requires Sound(s) && AsksInTurn(cfg, s, e)
    ensures Sound(Step(cfg, s, e))
  {
    InTurnMeetsNoJob(s, e);
    Backup.StepKeepsInvariant(cfg, s, e);
    StepKeepsJournal(cfg, s, e);
    StepKeepsReports(cfg, s, e);
    StepKeepsReportsWaiting(cfg, s, e);
    StepKeepsTurns(cfg, s, e);
    StepKeepsOwnCommit(cfg, s, e);
    StepKeepsAnswers(cfg, s, e);
  }

  ghost predicate AllInTurn(cfg: Config, s: System, events: seq<Event>) {
    forall i :: 0 <= i < |events| ==> AsksInTurn(cfg, RunFrom(cfg, s, events[..i]), events[i])
  }

  lemma {:induction false} RunKeepsSound(cfg: Config, s: System, events: seq<Event>)
    requires Sound(s) && AllInTurn(cfg, s, events)
    ensures Sound(RunFrom(cfg, s, events))
  {
    if events != [] {
      var n := |events| - 1;
      assert AllInTurn(cfg, s, events[..n]) by {
        forall i | 0 <= i < n ensures events[..n][..i] == events[..i] {
        }
      }
      RunKeepsSound(cfg, s, events[..n]);
      StepKeepsSound(cfg, RunFrom(cfg, s, events[..n]), events[n]);
    }
  }

  // Every commit of the request was completed by its own job.
  ghost predicate CommittedForItself(journal: seq<Entry>, request: Request) {
    forall k :: 0 <= k < |request.commands| && request.commands[k].CommitSnapshot? ==>
      CompletedItself(journal, request.commands[k].disk, request.commands[k].file, request.commands[k].ack)
  }

  lemma SoundAcksAreOwn(s: System, i: nat)
    requires Sound(s) && i < |s.requests| && s.requests[i].delivered
    ensures CommittedForItself(s.m.journal, s.requests[i])
  {
    var r := s.requests[i];
    assert RequestSound(s.c, s.m.sent, r);
    forall k | 0 <= k < |r.commands| && r.commands[k].CommitSnapshot?
      ensures CompletedItself(s.m.journal, r.commands[k].disk, r.commands[k].file, r.commands[k].ack)
    {
      assert r.acks[k] in s.m.sent;
      var p :| 0 <= p < s.processed && CarriesAck(s.c.monitor[p]) && s.c.monitor[p].ack == r.commands[k].ack;
      var q :| 0 <= q < |s.c.monitor| && s.c.monitor[q] == r.commands[k];
      assert p == q;
    }
  }

  // If every request to leave backup mode is made in turn, an Ack reaches the connection
  // only if the machine accepted every commit of its request, the job that this started
  // completed, and the file was removed then.
  lemma AckOnlyForOwnCommits(cfg: Config, events: seq<Event>, i: nat)
    requires AllInTurn(cfg, STARTED, events)
    requires i < |Run(cfg, events).requests| && Run(cfg, events).requests[i].delivered
    ensures CommittedForItself(Run(cfg, events).m.journal, Run(cfg, events).requests[i])
  {
    RunKeepsSound(cfg, STARTED, events);
    SoundAcksAreOwn(Run(cfg, events), i);
  }
}
