/** Why leaving backup mode has to be asked for in turn: an untimely request can always
    receive its Ack from a job that is not its own. */
module BackupUntimely {
  import opened Common
  import opened Messages
  import opened ControllerModel
  import opened MonitorModel
  import opened Backup
  import opened BackupJobs
  import opened BackupTurns

  const SUCCEEDS := Outcome(Ok, true, [])
  const FAILS := Outcome(Failed, true, [])

  // ----- what can follow without another request -----

  ghost predicate NoFurtherAsks(events: seq<Event>) {
    forall i :: 0 <= i < |events| ==> !events[i].Ask?
  }

  // And in which the machine keeps job names apart.
  ghost predicate Orderly(cfg: Config, s: System, events: seq<Event>) {
    && NoFurtherAsks(events)
    && forall i :: 0 <= i < |events| ==> KeepsJobNames(RunFrom(cfg, s, events[..i]), events[i])
  }

  ghost predicate Reaches(cfg: Config, s: System, r: System) {
    exists events :: Orderly(cfg, s, events) && RunFrom(cfg, s, events) == r
  }

  lemma ReachesItself(cfg: Config, s: System)
    ensures Reaches(cfg, s, s)
  {
    assert Orderly(cfg, s, []) && RunFrom(cfg, s, []) == s;
  }

  lemma ReachStep(cfg: Config, s: System, r: System, e: Event)
    ensures Reaches(cfg, s, r) && !e.Ask? && KeepsJobNames(r, e) ==> Reaches(cfg, s, Step(cfg, r, e))
  {
    if Reaches(cfg, s, r) && !e.Ask? && KeepsJobNames(r, e) {
      var events :| Orderly(cfg, s, events) && RunFrom(cfg, s, events) == r;
      var longer := events + [e];
      assert longer[..|events|] == events;
      forall i | 0 <= i < |longer| ensures KeepsJobNames(RunFrom(cfg, s, longer[..i]), longer[i]) {
        if i < |events| { assert longer[..i] == events[..i]; }
      }
      assert Orderly(cfg, s, longer) && RunFrom(cfg, s, longer) == Step(cfg, r, e);
    }
  }

  // ----- letting the machine refuse everything up to a position -----

  // Every accepted commit of the later journal is in the earlier one.
  ghost predicate NoneAccepted(journal: seq<Entry>, later: seq<Entry>) {
    forall i :: 0 <= i < |later| && later[i].CommitIssued? && later[i].ok ==> later[i] in journal
  }

  // The monitor can go on, and the reports in its queue match the jobs.
  ghost predicate Works(s: System) {
    s.m.running && ReportsMatchJobs(s) && ReportsWait(s)
  }

  ghost predicate SkippedTo(s: System, r: System, p: nat) {
    && Works(r) && r.processed == p && r.c == s.c && r.requests == s.requests
    && (forall x :: Runs(r.jobs, x) ==> Runs(s.jobs, x))
    && NoneAccepted(s.m.journal, r.m.journal)
  }

  // A report at the head of the queue finds its commit.
  lemma ReportFindsCommit(s: System)
    requires ReportsMatchJobs(s) && s.processed < |s.c.monitor| && s.c.monitor[s.processed].JobReady?
    ensures s.c.monitor[s.processed].disk in s.m.pending
  {
    assert ReportWaits(s, s.processed, s.c.monitor[s.processed].disk);
    assert Active(s.jobs, s.c.monitor[s.processed].disk);
  }

  lemma StepKeepsWorks(cfg: Config, s: System, e: Event)
    requires Works(s) && KeepsJobNames(s, e)
    requires e.Process? ==> e.o == SUCCEEDS || e.o == FAILS
    ensures Works(Step(cfg, s, e))
  {
    StepKeepsReports(cfg, s, e);
    StepKeepsReportsWaiting(cfg, s, e);
    if Enabled(s, e) && e.Process? && s.c.monitor[s.processed].JobReady? { ReportFindsCommit(s); }
  }

  lemma SkipOne(cfg: Config, s: System)
    requires Works(s) && s.processed < |s.c.monitor|
    ensures SkippedTo(s, Step(cfg, s, Process(FAILS)), s.processed + 1)
  {
    StepKeepsWorks(cfg, s, Process(FAILS));
    if s.c.monitor[s.processed].JobReady? { ReportFindsCommit(s); }
  }

  lemma {:induction false} SkipTo(cfg: Config, s: System, p: nat) returns (r: System)
    requires Works(s) && s.processed <= p <= |s.c.monitor|
    ensures Reaches(cfg, s, r) && SkippedTo(s, r, p)
    decreases p
  {
    if p == s.processed {
      r := s;
      ReachesItself(cfg, s);
    } else {
      var before := SkipTo(cfg, s, p - 1);
      SkipOne(cfg, before);
      ReachStep(cfg, s, before, Process(FAILS));
      r := Step(cfg, before, Process(FAILS));
    }
  }

  // ----- up to a running job on a disk of the request -----

  predicate IsAccepted(entry: Entry, ack: nat) {
    entry.CommitIssued? && entry.ok && entry.ack == ack
  }

  ghost predicate Unaccepted(journal: seq<Entry>, ack: nat) {
    forall i :: 0 <= i < |journal| ==> !IsAccepted(journal[i], ack)
  }

  // A job runs on a disk for which a single commit waits, and not its own.
  ghost predicate AboutToTakeOver(s: System, d: nat, n: nat) {
    && Works(s) && Runs(s.jobs, d)
    && CommitWaits(s, n, d) && (forall q :: CommitWaits(s, q, d) ==> q == n)
    && Unaccepted(s.m.journal, s.c.monitor[n].ack)
  }

  // The queue ends with these commits of different disks.
  ghost predicate EndsWith(s: System, base: nat, commands: seq<QmpCommand>) {
    && AcksUnique(s.c) && base + |commands| <= |s.c.monitor|
    && (forall k :: 0 <= k < |commands| ==> commands[k].CommitSnapshot? && s.c.monitor[base + k] == commands[k])
    && (forall j, k :: 0 <= j < k < |commands| ==> commands[j].disk != commands[k].disk)
  }

  // What an Ask adds: commits of different disks, which the machine has not seen yet.
  ghost predicate Adds(s: System, asked: System, commands: seq<QmpCommand>) {
    && asked == s.(c := asked.c, requests := asked.requests) && s.c.monitor <= asked.c.monitor
    && Works(asked) && EndsWith(asked, |s.c.monitor|, commands)
    && |asked.c.monitor| == |s.c.monitor| + |commands|
    && forall k :: 0 <= k < |commands| ==> Unaccepted(s.m.journal, commands[k].ack)
  }

  lemma AskAdds(cfg: Config, s: System, conn: nat, existing: set<string>)
    requires Sound(s) && s.m.running
    ensures var asked := Step(cfg, s, Ask(conn, existing, true));
            Adds(s, asked, NewRequest(cfg, s.c, conn, existing, true).commands)
  {
    var e := Ask(conn, existing, true);
    var asked := Step(cfg, s, e);
    var commands := NewRequest(cfg, s.c, conn, existing, true).commands;
    StepKeepsWorks(cfg, s, e);
    AskKeepsAcksUnique(cfg, s.c, existing, true);
    forall k | 0 <= k < |commands| ensures Unaccepted(s.m.journal, commands[k].ack) {
      assert asked.c.monitor[|s.c.monitor| + k] == commands[k];
      AskedIsNew(cfg, s, conn, existing, |s.c.monitor| + k);
    }
  }

  lemma AskedIsNew(cfg: Config, s: System, conn: nat, existing: set<string>, n: nat)
    requires Sound(s)
    requires var asked := Step(cfg, s, Ask(conn, existing, true));
             |s.c.monitor| <= n < |asked.c.monitor| && asked.c.monitor[n].CommitSnapshot?
    ensures var asked := Step(cfg, s, Ask(conn, existing, true));
            && AcksUnique(asked.c)
            && Unaccepted(s.m.journal, asked.c.monitor[n].ack)
  {
    var asked := Step(cfg, s, Ask(conn, existing, true));
    AskKeepsAcksUnique(cfg, s.c, existing, true);
    forall i | 0 <= i < |s.m.journal| && s.m.journal[i].CommitIssued?
      ensures s.m.journal[i].ack != asked.c.monitor[n].ack
    {
      var p :| 0 <= p < s.processed
        && s.c.monitor[p] == CommitSnapshot(s.m.journal[i].disk, s.m.journal[i].file, s.m.journal[i].ack);
      assert asked.c.monitor[p] == s.c.monitor[p];
      assert CarriesAck(asked.c.monitor[p]) && CarriesAck(asked.c.monitor[n]);
    }
  }

  // A commit that waits has been waiting before or is one of the request.
  lemma WaitsThenOrNow(s: System, asked: System, commands: seq<QmpCommand>, q: nat, d: nat)
    requires Adds(s, asked, commands) && CommitWaits(asked, q, d)
    ensures CommitWaits(s, q, d) || (q >= |s.c.monitor| && commands[q - |s.c.monitor|].disk == d)
  {
    assert q >= |s.c.monitor| ==> asked.c.monitor[q] == commands[q - |s.c.monitor|];
  }

  lemma RunningIsTakenOver(s: System, asked: System, commands: seq<QmpCommand>, k: nat)
    requires s.processed <= |s.c.monitor| && OneOutstanding(s) && Adds(s, asked, commands) && k < |commands|
    requires Runs(s.jobs, commands[k].disk)
    ensures AboutToTakeOver(asked, commands[k].disk, |s.c.monitor| + k)
  {
    var d := commands[k].disk;
    forall q: nat | CommitWaits(asked, q, d) ensures q == |s.c.monitor| + k {
      WaitsThenOrNow(s, asked, commands, q, d);
    }
  }

  // If another commit waits, it may be accepted, and then its job runs.
  lemma AcceptNext(
    cfg: Config, s: System, asked: System, head: System, commands: seq<QmpCommand>, k: nat, p: nat)
    requires OneOutstanding(s) && Adds(s, asked, commands) && k < |commands|
    requires CommitWaits(s, p, commands[k].disk) && SkippedTo(asked, head, p)
    ensures KeepsJobNames(head, Process(SUCCEEDS))
    ensures AboutToTakeOver(Step(cfg, head, Process(SUCCEEDS)), commands[k].disk, |s.c.monitor| + k)
  {
    var d, n := commands[k].disk, |s.c.monitor| + k;
    assert head.c.monitor[p] == s.c.monitor[p];
    NoJobAtHead(s, asked, head, commands, p, d);
    StepKeepsWorks(cfg, head, Process(SUCCEEDS));
    var r := Step(cfg, head, Process(SUCCEEDS));
    forall q: nat | CommitWaits(r, q, d) ensures q == n {
      WaitsThenOrNow(s, asked, commands, q, d);
    }
    assert asked.c.monitor[n] == commands[k];
    assert CarriesAck(asked.c.monitor[p]) && CarriesAck(asked.c.monitor[n]);
  }

  lemma NoJobAtHead(s: System, asked: System, head: System, commands: seq<QmpCommand>, p: nat, d: nat)
    requires OneOutstanding(s) && CommitWaits(s, p, d) && Adds(s, asked, commands) && SkippedTo(asked, head, p)
    ensures !Active(head.jobs, d)
  {
    forall q: nat ensures ReportWaits(head, q, d) ==> ReportWaits(s, q, d) {
      if |s.c.monitor| <= q < |asked.c.monitor| { assert asked.c.monitor[q] == commands[q - |s.c.monitor|]; }
    }
  }

  lemma ReachRunningJob(cfg: Config, s: System, asked: System, commands: seq<QmpCommand>, k: nat) returns (r: System)
    requires s.processed <= |s.c.monitor| && OneOutstanding(s) && Adds(s, asked, commands)
    requires k < |commands| && Outstanding(s, commands[k].disk)
    ensures Reaches(cfg, asked, r) && r.c == asked.c && r.requests == asked.requests
    ensures r.processed <= |s.c.monitor| && AboutToTakeOver(r, commands[k].disk, |s.c.monitor| + k)
  {
    var d := commands[k].disk;
    if Runs(s.jobs, d) {
      r := asked;
      ReachesItself(cfg, asked);
      RunningIsTakenOver(s, asked, commands, k);
    } else {
      var p :| CommitWaits(s, p, d);
      var head := SkipTo(cfg, asked, p);
      AcceptNext(cfg, s, asked, head, commands, k, p);
      ReachStep(cfg, asked, head, Process(SUCCEEDS));
      r := Step(cfg, head, Process(SUCCEEDS));
    }
  }

  // ----- executing the whole queue -----

  // The ack of this commit will be answered by a job that runs.
  ghost predicate HangsOnJob(s: System, cmd: QmpCommand)
    requires cmd.CommitSnapshot?
  {
    Runs(s.jobs, cmd.disk) && cmd.disk in s.m.pending && s.m.pending[cmd.disk].ack == cmd.ack
  }

  // The commits of the request that have been executed hang on jobs; commit n, when it is
  // executed, on one that is not its own.
  ghost predicate Executing(s: System, base: nat, commands: seq<QmpCommand>, n: nat) {
    && Works(s) && EndsWith(s, base, commands) && |s.c.monitor| == base + |commands| && n < |commands|
    && Unaccepted(s.m.journal, commands[n].ack)
    && (s.processed <= base + n ==> AboutToTakeOver(s, commands[n].disk, base + n))
    && forall k :: 0 <= k < |commands| && base + k < s.processed ==> HangsOnJob(s, commands[k])
  }

  // The machine refuses a commit if a job is active on its disk, and executes all else.
  function Answer(s: System): Outcome
    requires s.processed < |s.c.monitor|
  {
    var cmd := s.c.monitor[s.processed];
    if cmd.CommitSnapshot? && Active(s.jobs, cmd.disk) then FAILS else SUCCEEDS
  }

  lemma ExecuteEarlier(cfg: Config, s: System, base: nat, commands: seq<QmpCommand>, n: nat)
    requires Executing(s, base, commands, n) && s.processed < base
    ensures Executing(Step(cfg, s, Process(Answer(s))), base, commands, n)
  {
    var cmd, d := s.c.monitor[s.processed], commands[n].disk;
    var r := Step(cfg, s, Process(Answer(s)));
    StepKeepsWorks(cfg, s, Process(Answer(s)));
    assert !CommitWaits(s, s.processed, d) && !ReportWaits(s, s.processed, d);
    forall q | CommitWaits(r, q, d) ensures q == base + n {
      assert CommitWaits(s, q, d);
    }
    if cmd.CommitSnapshot? { assert CarriesAck(cmd) && CarriesAck(s.c.monitor[base + n]); }
  }

  lemma ExecuteOwn(cfg: Config, s: System, base: nat, commands: seq<QmpCommand>, n: nat)
    requires Executing(s, base, commands, n) && base <= s.processed < |s.c.monitor|
    ensures Executing(Step(cfg, s, Process(Answer(s))), base, commands, n)
  {
    var k := s.processed - base;
    var cmd := commands[k];
    assert s.c.monitor[s.processed] == cmd;
    NoReportsAmong(s, base, commands);
    var r := Step(cfg, s, Process(Answer(s)));
    StepKeepsWorks(cfg, s, Process(Answer(s)));
    assert HangsOnJob(r, cmd);
    forall q | CommitWaits(r, q, commands[n].disk) ensures CommitWaits(s, q, commands[n].disk) {
    }
    assert CarriesAck(cmd) && CarriesAck(s.c.monitor[base + n]);
  }

  // Among the request's own commits no report waits, so an active job runs.
  lemma NoReportsAmong(s: System, base: nat, commands: seq<QmpCommand>)
    requires Works(s) && EndsWith(s, base, commands) && |s.c.monitor| == base + |commands| && base <= s.processed
    ensures forall d :: Active(s.jobs, d) ==> Runs(s.jobs, d)
  {
    forall q: nat, d ensures !ReportWaits(s, q, d) {
      if base <= q < |s.c.monitor| { assert s.c.monitor[q] == commands[q - base]; }
    }
  }

  lemma {:induction false} ExecuteAll(
    cfg: Config, start: System, s: System, base: nat, commands: seq<QmpCommand>, n: nat) returns (r: System)
    requires Reaches(cfg, start, s) && Executing(s, base, commands, n)
    ensures Reaches(cfg, start, r) && Executing(r, base, commands, n)
    ensures r.processed == |r.c.monitor| && r.c == s.c && r.requests == s.requests
    decreases |s.c.monitor| - s.processed
  {
    if s.processed == |s.c.monitor| {
      r := s;
    } else {
      var e := Process(Answer(s));
      if s.processed < base {
        ExecuteEarlier(cfg, s, base, commands, n);
      } else {
        ExecuteOwn(cfg, s, base, commands, n);
      }
      ReachStep(cfg, start, s, e);
      r := ExecuteAll(cfg, start, Step(cfg, s, e), base, commands, n);
    }
  }

  // ----- completing the jobs one after the other -----

  ghost predicate Completing(s: System, base: nat, commands: seq<QmpCommand>, n: nat, done: nat) {
    && Works(s) && s.processed == |s.c.monitor| && n < |commands| && done <= |commands|
    && EndsWith(s, base, commands) && Unaccepted(s.m.journal, commands[n].ack)
    && (forall k :: 0 <= k < done ==> commands[k].ack in s.m.sent)
    && forall k :: done <= k < |commands| ==> HangsOnJob(s, commands[k])
  }

  lemma CompleteNext(cfg: Config, s: System, base: nat, commands: seq<QmpCommand>, n: nat, done: nat)
    requires Completing(s, base, commands, n, done) && done < |commands|
    ensures var ready := Step(cfg, s, JobTurnsReady(commands[done].disk));
            && KeepsJobNames(ready, Process(SUCCEEDS))
            && Completing(Step(cfg, ready, Process(SUCCEEDS)), base, commands, n, done + 1)
            && Step(cfg, ready, Process(SUCCEEDS)).requests == s.requests
            && s.c.monitor <= Step(cfg, ready, Process(SUCCEEDS)).c.monitor
  {
    var d := commands[done].disk;
    var ready := Step(cfg, s, JobTurnsReady(d));
    assert ready.c.monitor == s.c.monitor + [JobReady(d)];
    StepKeepsWorks(cfg, s, JobTurnsReady(d));
    StepKeepsWorks(cfg, ready, Process(SUCCEEDS));
    assert HangsOnJob(s, commands[done]);
  }

  lemma {:induction false} CompleteAll(
    cfg: Config, start: System, s: System, base: nat, commands: seq<QmpCommand>, n: nat, done: nat) returns (r: System)
    requires Reaches(cfg, start, s) && Completing(s, base, commands, n, done)
    ensures Reaches(cfg, start, r) && Completing(r, base, commands, n, |commands|)
    ensures r.requests == s.requests && s.c.monitor <= r.c.monitor
    decreases |commands| - done
  {
    if done == |commands| {
      r := s;
    } else {
      var ready := Step(cfg, s, JobTurnsReady(commands[done].disk));
      CompleteNext(cfg, s, base, commands, n, done);
      ReachStep(cfg, start, s, JobTurnsReady(commands[done].disk));
      ReachStep(cfg, start, ready, Process(SUCCEEDS));
      r := CompleteAll(cfg, start, Step(cfg, ready, Process(SUCCEEDS)), base, commands, n, done + 1);
    }
  }

  // ----- the Ack -----

  lemma {:induction false} PollMany(cfg: Config, start: System, s: System, i: nat, times: nat) returns (r: System)
    requires i < |s.requests|
    ensures Reaches(cfg, start, s) ==> Reaches(cfg, start, r)
    ensures r == s.(requests := s.requests[i := PollTimes(s.m, s.requests[i], times)])
  {
    if times == 0 {
      r := s;
    } else {
      var before := PollMany(cfg, start, s, i, times - 1);
      ReachStep(cfg, start, before, Poll(i));
      r := Step(cfg, before, Poll(i));
    }
  }

  lemma DeliverAck(cfg: Config, start: System, s: System, i: nat) returns (r: System)
    requires Reaches(cfg, start, s) && i < |s.requests|
    requires s.requests[i].progress.Waiting? && s.requests[i].next == 0 && !s.requests[i].delivered
    requires forall k :: 0 <= k < |s.requests[i].acks| ==> s.requests[i].acks[k] in s.m.sent
    ensures Reaches(cfg, start, r)
    ensures r == s.(requests := r.requests) && |r.requests| == |s.requests|
    ensures r.requests[i].delivered && r.requests[i].commands == s.requests[i].commands
  {
    var times := |s.requests[i].acks| + 1;
    PollsReachAck(s.m, s.requests[i], times);
    var polled := PollMany(cfg, start, s, i, times);
    ReachStep(cfg, start, polled, Deliver(i));
    r := Step(cfg, polled, Deliver(i));
  }

  // ----- the condition is exact -----

  // A request has its Ack although one of its commits was never accepted.
  ghost predicate AckedThoughRefused(s: System, i: nat, n: nat) {
    && i < |s.requests| && s.requests[i].delivered
    && n < |s.requests[i].commands| && s.requests[i].commands[n].CommitSnapshot?
    && Unaccepted(s.m.journal, s.requests[i].commands[n].ack)
  }

  // However far the driver and the machine have come without one, an untimely request,
  // for however many disks, can receive its Ack from a job that is not its own; the
  // machine need not do anything but refuse a second job for a disk.
  lemma UntimelyIsAcked(cfg: Config, s: System, conn: nat, existing: set<string>) returns (events: seq<Event>, n: nat)
    requires Sound(s) && s.m.running && !AsksInTurn(cfg, s, Ask(conn, existing, true))
    ensures Orderly(cfg, Step(cfg, s, Ask(conn, existing, true)), events)
    ensures AckedThoughRefused(RunFrom(cfg, Step(cfg, s, Ask(conn, existing, true)), events), |s.requests|, n)
  {
    var asked := Step(cfg, s, Ask(conn, existing, true));
    var request := NewRequest(cfg, s.c, conn, existing, true);
    var base, commands := |s.c.monitor|, request.commands;
    AskAdds(cfg, s, conn, existing);
    n := UntimelyCommand(cfg, s, conn, existing);
    var running := ReachRunningJob(cfg, s, asked, commands, n);
    var executed := ExecuteAll(cfg, asked, running, base, commands, n);
    var completed := CompleteAll(cfg, asked, executed, base, commands, n, 0);
    AcksAreThoseOfCommands(cfg, s.c, conn, existing);
    var acked := DeliverAck(cfg, asked, completed, |s.requests|);
    events :| Orderly(cfg, asked, events) && RunFrom(cfg, asked, events) == acked;
  }

  lemma UntimelyCommand(cfg: Config, s: System, conn: nat, existing: set<string>) returns (n: nat)
    requires !AsksInTurn(cfg, s, Ask(conn, existing, true))
    ensures var commands := NewRequest(cfg, s.c, conn, existing, true).commands;
            n < |commands| && commands[n].CommitSnapshot? && Outstanding(s, commands[n].disk)
  {
    var disks := SnapshotDisks(cfg.snapshots, existing, true);
    var d :| d in disks && Outstanding(s, d);
    n :| 0 <= n < |disks| && disks[n] == d;
  }

  lemma AcksAreThoseOfCommands(cfg: Config, c: Controller, conn: nat, existing: set<string>)
    ensures var request := NewRequest(cfg, c, conn, existing, true);
            && |request.acks| == |request.commands|
            && forall k :: 0 <= k < |request.acks| ==>
                 CarriesAck(request.commands[k]) && request.commands[k].ack == request.acks[k]
  {
  }

  lemma RefusedIsNotCommitted(s: System, i: nat, n: nat)
    requires AckedThoughRefused(s, i, n)
    ensures !CommittedForItself(s.m.journal, s.requests[i])
  {
    var cmd := s.requests[i].commands[n];
    assert forall j, k :: !JobOf(s.m.journal, j, k, cmd.disk, Commit(cmd.file, cmd.ack));
  }

  // The Ack of request i, should it arrive, means that its commits are done.
  ghost predicate AckIsTrue(s: System, i: nat) {
    i < |s.requests| && s.requests[i].delivered ==> CommittedForItself(s.m.journal, s.requests[i])
  }

  // Once the monitor's task has ended nothing is answered any more.
  lemma EndedStep(cfg: Config, s: System, e: Event, i: nat)
    requires !s.m.running && i < |s.requests|
    ensures var r := Step(cfg, s, e);
            r.m == s.m && i < |r.requests| && r.requests[i].acks == s.requests[i].acks
  {
  }

  lemma {:induction false} EndedAnswersNothing(cfg: Config, s: System, events: seq<Event>, i: nat)
    requires Backup.Invariant(s) && !s.m.running && i < |s.requests|
    ensures var r := RunFrom(cfg, s, events);
            && Backup.Invariant(r) && r.m == s.m && i < |r.requests| && r.requests[i].acks == s.requests[i].acks
  {
    if events != [] {
      var before, last := RunFrom(cfg, s, events[..|events| - 1]), events[|events| - 1];
      EndedAnswersNothing(cfg, s, events[..|events| - 1], i);
      Backup.StepKeepsInvariant(cfg, before, last);
      EndedStep(cfg, before, last, i);
    }
  }

  lemma EndedIsSafe(cfg: Config, s: System, conn: nat, existing: set<string>, events: seq<Event>)
    requires Sound(s) && !s.m.running && !AsksInTurn(cfg, s, Ask(conn, existing, true))
    ensures AckIsTrue(RunFrom(cfg, Step(cfg, s, Ask(conn, existing, true)), events), |s.requests|)
  {
    var asked, i := Step(cfg, s, Ask(conn, existing, true)), |s.requests|;
    var n := UntimelyCommand(cfg, s, conn, existing);
    Backup.StepKeepsInvariant(cfg, s, Ask(conn, existing, true));
    EndedAnswersNothing(cfg, asked, events, i);
    assert asked.requests[i].acks[n] == s.c.acks + n;
    assert asked.requests[i].acks[n] !in s.m.sent;
    assert RequestSound(RunFrom(cfg, asked, events).c, s.m.sent, RunFrom(cfg, asked, events).requests[i]);
  }

  // A request to leave backup mode is safe, whatever follows short of another request, if
  // and only if it is made in turn, or too late for any answer; and it makes no difference
  // whether one trusts the machine to keep job names apart.
  lemma SafeIffInTurn(cfg: Config, s: System, conn: nat, existing: set<string>)
    requires Sound(s)
    ensures AsksInTurn(cfg, s, Ask(conn, existing, true)) || !s.m.running <==>
            forall events :: NoFurtherAsks(events) ==>
              AckIsTrue(RunFrom(cfg, Step(cfg, s, Ask(conn, existing, true)), events), |s.requests|)
    ensures AsksInTurn(cfg, s, Ask(conn, existing, true)) || !s.m.running <==>
            forall events :: Orderly(cfg, Step(cfg, s, Ask(conn, existing, true)), events) ==>
              AckIsTrue(RunFrom(cfg, Step(cfg, s, Ask(conn, existing, true)), events), |s.requests|)
  {
    var asked := Step(cfg, s, Ask(conn, existing, true));
    if AsksInTurn(cfg, s, Ask(conn, existing, true)) {
      StepKeepsSound(cfg, s, Ask(conn, existing, true));
      forall events | NoFurtherAsks(events) ensures AckIsTrue(RunFrom(cfg, asked, events), |s.requests|) {
        TimelyIsSafe(cfg, asked, events, |s.requests|);
      }
    } else if !s.m.running {
      forall events ensures AckIsTrue(RunFrom(cfg, asked, events), |s.requests|) {
        EndedIsSafe(cfg, s, conn, existing, events);
      }
    } else {
      var events, n := UntimelyIsAcked(cfg, s, conn, existing);
      RefusedIsNotCommitted(RunFrom(cfg, asked, events), |s.requests|, n);
    }
  }

  lemma TimelyIsSafe(cfg: Config, s: System, events: seq<Event>, i: nat)
    requires Sound(s) && NoFurtherAsks(events)
    ensures AckIsTrue(RunFrom(cfg, s, events), i)
  {
    assert AllInTurn(cfg, s, events);
    RunKeepsSound(cfg, s, events);
    var r := RunFrom(cfg, s, events);
    if i < |r.requests| && r.requests[i].delivered { SoundAcksAreOwn(r, i); }
  }

  // ----- one such run, from the start to the Ack -----

  lemma {:induction false} RunFromAppend(cfg: Config, s: System, a: seq<Event>, b: seq<Event>)
    ensures RunFrom(cfg, s, a + b) == RunFrom(cfg, RunFrom(cfg, s, a), b)
  {
    if b == [] {
      assert a + b == a;
    } else {
      assert (a + b)[..|a + b| - 1] == a + b[..|b| - 1];
      RunFromAppend(cfg, s, a, b[..|b| - 1]);
    }
  }

  lemma RunFromOne(cfg: Config, s: System, a: seq<Event>, e: Event)
    ensures RunFrom(cfg, s, a + [e]) == Step(cfg, RunFrom(cfg, s, a), e)
  {
    assert (a + [e])[..|a|] == a;
  }

  // The waiting task of a request with a single, answered ack reaches the connection.
  lemma AckIsDelivered(cfg: Config, s: System, i: nat)
    requires i < |s.requests| && |s.requests[i].acks| == 1 && s.requests[i].acks[0] in s.m.sent
    requires s.requests[i].next == 0 && s.requests[i].progress == Waiting && !s.requests[i].delivered
    ensures var r := Step(cfg, Step(cfg, Step(cfg, s, Poll(i)), Poll(i)), Deliver(i));
            && |r.requests| == |s.requests| && r.requests[i].delivered
            && r.requests[i].commands == s.requests[i].commands
            && r.m == s.m && r.c == s.c && r.processed == s.processed
  {
  }

  lemma PollThenDeliver(cfg: Config, s: System, events: seq<Event>, i: nat)
    ensures RunFrom(cfg, s, events + [Poll(i), Poll(i), Deliver(i)]) ==
            Step(cfg, Step(cfg, Step(cfg, RunFrom(cfg, s, events), Poll(i)), Poll(i)), Deliver(i))
  {
    assert events + [Poll(i), Poll(i), Deliver(i)] == events + [Poll(i)] + [Poll(i)] + [Deliver(i)];
    RunFromOne(cfg, s, events, Poll(i));
    RunFromOne(cfg, s, events + [Poll(i)], Poll(i));
    RunFromOne(cfg, s, events + [Poll(i)] + [Poll(i)], Deliver(i));
  }

  const ONE_DISK := Config([], [], [Some("snap")])

  function OneCommit(ack: nat): QmpCommand {
    CommitSnapshot(0, "snap", ack)
  }

  lemma OneDiskCommands(ack: nat)
    ensures SnapshotDisks(ONE_DISK.snapshots, {"snap"}, true) == [0]
    ensures SnapshotCommands(ONE_DISK.snapshots, [0], true, ack) == [OneCommit(ack)]
    ensures Range(ack, ack + 1) == [ack]
  {
    assert ONE_DISK.snapshots[..0] == [];
    assert Range(ack, ack + 1) == [ack];
  }

  lemma AskOneDisk(s: System, conn: nat)
    ensures var r := Step(ONE_DISK, s, Ask(conn, {"snap"}, true));
            && r.c.monitor == s.c.monitor + [OneCommit(s.c.acks)] && r.c.acks == s.c.acks + 1
            && r == s.(
                 c := r.c,
                 requests := s.requests + [Request(conn, [OneCommit(s.c.acks)], [s.c.acks], 0, Waiting, false)])
  {
    OneDiskCommands(s.c.acks);
    assert NewRequest(ONE_DISK, s.c, conn, {"snap"}, true) ==
           Request(conn, [OneCommit(s.c.acks)], [s.c.acks], 0, Waiting, false);
  }

  const TAKEN_OVER := IDLE.(
    pending := map[0 := Commit("snap", 1)],
    dropped := {0},
    journal := [CommitIssued(0, 0, "snap", true), CommitIssued(1, 0, "snap", false)])

  // Two commits for one disk wait; the first is accepted, the second refused.
  lemma SecondIsRefused(cfg: Config, s: System)
    requires s.c.monitor == [OneCommit(0), OneCommit(1)]
    requires s.m == IDLE && s.processed == 0 && s.jobs == map[]
    ensures Step(cfg, Step(cfg, s, Process(SUCCEEDS)), Process(FAILS)) ==
            s.(m := TAKEN_OVER, jobs := map[0 := Running], processed := 2)
  {
  }

  const ANSWERED := TAKEN_OVER.(
    pending := map[],
    sent := {1},
    journal := TAKEN_OVER.journal + [JobCompleted(0, true), FileRemoved("snap")])

  // Then the job of the first gets ready and is completed.
  lemma FirstJobCompletes(cfg: Config, s: System)
    requires s.m == TAKEN_OVER && s.jobs == map[0 := Running] && s.processed == |s.c.monitor|
    ensures var r := Step(cfg, Step(cfg, s, JobTurnsReady(0)), Process(SUCCEEDS));
            r.m == ANSWERED && r.requests == s.requests && r.m.sent == {1}
  {
  }

  lemma RunTwo(cfg: Config, s: System, a: Event, b: Event)
    ensures RunFrom(cfg, s, [a, b]) == Step(cfg, Step(cfg, s, a), b)
  {
    assert [a, b] == [] + [a] + [b];
    RunFromOne(cfg, s, [], a);
    RunFromOne(cfg, s, [] + [a], b);
  }

  const TWO_REQUESTS := [Ask(1, {"snap"}, true), Ask(2, {"snap"}, true)]
  const SECOND_REFUSED := [Process(SUCCEEDS), Process(FAILS)]
  const FIRST_COMPLETED := [JobTurnsReady(0), Process(SUCCEEDS)]
  const SECOND_ACKED := [Poll(1), Poll(1), Deliver(1)]

  lemma SecondRequestRefused()
    ensures var s := Run(ONE_DISK, TWO_REQUESTS + SECOND_REFUSED);
            && s.m == TAKEN_OVER && s.jobs == map[0 := Running] && s.processed == |s.c.monitor|
            && |s.requests| == 2 && s.requests[1] == Request(2, [OneCommit(1)], [1], 0, Waiting, false)
  {
    AskOneDisk(STARTED, 1);
    AskOneDisk(Step(ONE_DISK, STARTED, TWO_REQUESTS[0]), 2);
    RunTwo(ONE_DISK, STARTED, TWO_REQUESTS[0], TWO_REQUESTS[1]);
    var asked := RunFrom(ONE_DISK, STARTED, TWO_REQUESTS);
    SecondIsRefused(ONE_DISK, asked);
    RunTwo(ONE_DISK, asked, SECOND_REFUSED[0], SECOND_REFUSED[1]);
    RunFromAppend(ONE_DISK, STARTED, TWO_REQUESTS, SECOND_REFUSED);
  }

  // Two requests to leave backup mode follow each other: the second gets its Ack although
  // its only commit was refused.
  lemma SecondRequestTakesOver()
    ensures var s := Run(ONE_DISK, TWO_REQUESTS + SECOND_REFUSED + FIRST_COMPLETED + SECOND_ACKED);
            && |s.requests| == 2 && s.requests[1].delivered && s.requests[1].commands == [OneCommit(1)]
            && CommitIssued(1, 0, "snap", false) in s.m.journal && CommitIssued(1, 0, "snap", true) !in s.m.journal
  {
    SecondRequestRefused();
    var refused := Run(ONE_DISK, TWO_REQUESTS + SECOND_REFUSED);
    FirstJobCompletes(ONE_DISK, refused);
    RunTwo(ONE_DISK, refused, FIRST_COMPLETED[0], FIRST_COMPLETED[1]);
    var answered := RunFrom(ONE_DISK, refused, FIRST_COMPLETED);
    AckIsDelivered(ONE_DISK, answered, 1);
    RunFromAppend(ONE_DISK, STARTED, TWO_REQUESTS + SECOND_REFUSED, FIRST_COMPLETED);
    PollThenDeliver(ONE_DISK, STARTED, TWO_REQUESTS + SECOND_REFUSED + FIRST_COMPLETED, 1);
  }
}
