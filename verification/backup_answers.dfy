/** That answers are not withheld: what has succeeded is answered, what has not is given up,
    and the request hears of it. */
module BackupAnswers {
  import opened Common
  import opened Messages
  import opened ControllerModel
  import opened MonitorModel
  import opened Backup
  import opened BackupJobs
  import opened BackupTurns

  // ----- no ack is lost -----

  predicate Pends(m: Monitor, cmd: QmpCommand) {
    cmd.CommitSnapshot? && cmd.disk in m.pending && m.pending[cmd.disk].ack == cmd.ack
  }

  predicate OneOf(a: bool, b: bool, c: bool) {
    (a || b || c) && !(a && b) && !(a && c) && !(b && c)
  }

  // The ack of every executed command has been answered, or dropped, or waits for a job.
  ghost predicate Accounted(s: System) {
    forall p :: 0 <= p < s.processed <= |s.c.monitor| && CarriesAck(s.c.monitor[p]) ==>
      IsAccounted(s.m, s.c.monitor[p])
  }

  predicate IsAccounted(m: Monitor, cmd: QmpCommand)
    requires CarriesAck(cmd)
  {
    OneOf(cmd.ack in m.sent, cmd.ack in m.dropped, Pends(m, cmd))
  }

  ghost predicate DroppedIssued(s: System) {
    forall a :: a in s.m.dropped ==>
      exists p :: 0 <= p < s.processed <= |s.c.monitor| && CarriesAck(s.c.monitor[p]) && s.c.monitor[p].ack == a
  }

  // Nothing has become yet of the ack of the command to be executed next.
  lemma NextIsFresh(s: System)
    requires Backup.Invariant(s) && DroppedIssued(s)
    requires s.processed < |s.c.monitor| && CarriesAck(s.c.monitor[s.processed])
    ensures s.c.monitor[s.processed].ack !in s.m.sent && s.c.monitor[s.processed].ack !in s.m.dropped
    ensures forall d :: d in s.m.pending ==> s.m.pending[d].ack != s.c.monitor[s.processed].ack
  {
    var a := s.c.monitor[s.processed].ack;
    forall d | d in s.m.pending ensures s.m.pending[d].ack != a {
      var p :| 0 <= p < s.processed && s.c.monitor[p] == CommitSnapshot(d, s.m.pending[d].file, s.m.pending[d].ack);
      assert CarriesAck(s.c.monitor[p]);
    }
  }

  // The commit that pends for a disk is an executed one.
  lemma PendingCommand(s: System, d: nat) returns (p: nat)
    requires Backup.Invariant(s) && d in s.m.pending
    ensures p < s.processed <= |s.c.monitor|
    ensures s.c.monitor[p] == CommitSnapshot(d, s.m.pending[d].file, s.m.pending[d].ack)
  {
    p :| 0 <= p < s.processed && s.c.monitor[p] == CommitSnapshot(d, s.m.pending[d].file, s.m.pending[d].ack);
  }

  lemma OldStaysAccounted(s: System, cmd: QmpCommand, o: Outcome, p: nat)
    requires Backup.Invariant(s) && Accounted(s) && DroppedIssued(s)
    requires s.processed < |s.c.monitor| && cmd == s.c.monitor[s.processed]
    requires p < s.processed && CarriesAck(s.c.monitor[p])
    ensures IsAccounted(Handle(s.m, cmd, o), s.c.monitor[p])
  {
    assert IsAccounted(s.m, s.c.monitor[p]);
    if CarriesAck(cmd) { NextIsFresh(s); }
    if (cmd.CommitSnapshot? || cmd.JobReady?) && cmd.disk in s.m.pending {
      PendingIsAnother(s, cmd.disk, p);
    }
  }

  // The commit that pends for a disk is this command or has another ack.
  lemma PendingIsAnother(s: System, d: nat, p: nat)
    requires Backup.Invariant(s) && d in s.m.pending && p < s.processed && CarriesAck(s.c.monitor[p])
    ensures s.m.pending[d].ack == s.c.monitor[p].ack ==> s.c.monitor[p].CommitSnapshot? && s.c.monitor[p].disk == d
  {
    var q := PendingCommand(s, d);
    assert CarriesAck(s.c.monitor[q]);
    assert q != p ==> s.c.monitor[q].ack != s.c.monitor[p].ack;
  }

  lemma ProcessAccounts(cfg: Config, s: System, o: Outcome)
    requires Backup.Invariant(s) && Accounted(s) && DroppedIssued(s) && Enabled(s, Process(o))
    ensures Accounted(Step(cfg, s, Process(o)))
  {
    var cmd := s.c.monitor[s.processed];
    forall p | 0 <= p < s.processed + 1 && CarriesAck(s.c.monitor[p])
      ensures IsAccounted(Handle(s.m, cmd, o), s.c.monitor[p])
    {
      if p < s.processed {
        OldStaysAccounted(s, cmd, o, p);
      } else {
        NextIsFresh(s);
      }
    }
  }

  lemma ProcessDropsIssued(cfg: Config, s: System, o: Outcome)
    requires Backup.Invariant(s) && DroppedIssued(s) && Enabled(s, Process(o))
    ensures DroppedIssued(Step(cfg, s, Process(o)))
  {
    var r := Step(cfg, s, Process(o));
    var cmd := s.c.monitor[s.processed];
    forall a | a in r.m.dropped
      ensures exists p :: 0 <= p < r.processed && CarriesAck(r.c.monitor[p]) && r.c.monitor[p].ack == a
    {
      if a in s.m.dropped {
        var p :| 0 <= p < s.processed && CarriesAck(s.c.monitor[p]) && s.c.monitor[p].ack == a;
        assert CarriesAck(r.c.monitor[p]);
      } else if cmd.TakeSnapshot? {
        assert CarriesAck(r.c.monitor[s.processed]);
      } else {
        var p := PendingCommand(s, cmd.disk);
        assert CarriesAck(r.c.monitor[p]);
      }
    }
  }

  // ----- snapshots -----

  ghost predicate SnapshotsFromQueue(s: System) {
    forall i :: 0 <= i < |s.m.journal| && s.m.journal[i].SnapshotTaken? ==>
      exists p :: 0 <= p < s.processed <= |s.c.monitor|
        && s.c.monitor[p] == TakeSnapshot(s.m.journal[i].disk, s.m.journal[i].file, s.m.journal[i].ack)
  }

  // An executed snapshot is in the journal; its ack is answered if it was taken, and dropped
  // if not.
  ghost predicate SnapshotsAnswered(s: System) {
    forall p :: 0 <= p < s.processed <= |s.c.monitor| && s.c.monitor[p].TakeSnapshot? ==>
      SnapshotAnswered(s.m, s.c.monitor[p])
  }

  predicate SnapshotAnswered(m: Monitor, cmd: QmpCommand)
    requires cmd.TakeSnapshot?
  {
    if SnapshotTaken(cmd.ack, cmd.disk, cmd.file, true) in m.journal then cmd.ack in m.sent
    else cmd.ack in m.dropped && SnapshotTaken(cmd.ack, cmd.disk, cmd.file, false) in m.journal
  }

  lemma ProcessAnswersSnapshots(cfg: Config, s: System, o: Outcome)
    requires Backup.Invariant(s) && SnapshotsFromQueue(s) && SnapshotsAnswered(s) && Enabled(s, Process(o))
    ensures SnapshotsAnswered(Step(cfg, s, Process(o)))
  {
    var cmd := s.c.monitor[s.processed];
    forall p | 0 <= p < s.processed + 1 && s.c.monitor[p].TakeSnapshot?
      ensures SnapshotAnswered(Handle(s.m, cmd, o), s.c.monitor[p])
    {
      if p < s.processed {
        OldSnapshotStays(s, cmd, o, p);
      } else {
        NewSnapshotAnswered(s, cmd, o);
      }
    }
  }

  lemma OldSnapshotStays(s: System, cmd: QmpCommand, o: Outcome, p: nat)
    requires Backup.Invariant(s) && SnapshotsAnswered(s)
    requires s.processed < |s.c.monitor| && cmd == s.c.monitor[s.processed]
    requires p < s.processed && s.c.monitor[p].TakeSnapshot?
    ensures SnapshotAnswered(Handle(s.m, cmd, o), s.c.monitor[p])
  {
    var m, earlier := Handle(s.m, cmd, o), s.c.monitor[p];
    var more := m.journal[|s.m.journal|..];
    assert m.journal == s.m.journal + more;
    assert CarriesAck(earlier) && (cmd.TakeSnapshot? ==> CarriesAck(cmd));
    assert forall ok :: SnapshotTaken(earlier.ack, earlier.disk, earlier.file, ok) !in more;
    assert SnapshotAnswered(s.m, earlier);
  }

  lemma NewSnapshotAnswered(s: System, cmd: QmpCommand, o: Outcome)
    requires Backup.Invariant(s) && SnapshotsFromQueue(s)
    requires s.processed < |s.c.monitor| && cmd == s.c.monitor[s.processed] && cmd.TakeSnapshot?
    ensures SnapshotAnswered(Handle(s.m, cmd, o), cmd)
  {
    assert CarriesAck(cmd);
    forall i | 0 <= i < |s.m.journal| ensures s.m.journal[i] != SnapshotTaken(cmd.ack, cmd.disk, cmd.file, true) {
      if s.m.journal[i].SnapshotTaken? {
        var p :| 0 <= p < s.processed
          && s.c.monitor[p] == TakeSnapshot(s.m.journal[i].disk, s.m.journal[i].file, s.m.journal[i].ack);
        assert CarriesAck(s.c.monitor[p]);
      }
    }
    assert Handle(s.m, cmd, o).journal[|s.m.journal|] == SnapshotTaken(cmd.ack, cmd.disk, cmd.file, o.result.Ok?);
  }

  lemma ProcessKeepsSnapshotJournal(cfg: Config, s: System, o: Outcome)
    requires Backup.Invariant(s) && SnapshotsFromQueue(s) && Enabled(s, Process(o))
    ensures SnapshotsFromQueue(Step(cfg, s, Process(o)))
  {
    var r := Step(cfg, s, Process(o));
    forall i | 0 <= i < |r.m.journal| && r.m.journal[i].SnapshotTaken?
      ensures exists p ::
                && 0 <= p < r.processed
                && r.c.monitor[p] == TakeSnapshot(r.m.journal[i].disk, r.m.journal[i].file, r.m.journal[i].ack)
    {
      if i < |s.m.journal| {
        assert r.m.journal[i] == s.m.journal[i];
      } else {
        assert r.c.monitor[s.processed] ==
               TakeSnapshot(r.m.journal[i].disk, r.m.journal[i].file, r.m.journal[i].ack);
      }
    }
  }

  // ----- commits -----

  // The ack of a commit whose own job completed has been answered, unless what followed, the
  // removal of the file, failed and ended the task.
  ghost predicate CompletedAreAnswered(m: Monitor) {
    forall i: nat, j: nat, d, commit ::
      JobOf(m.journal, i, j, d, commit) && j < |m.journal| && m.journal[j] == JobCompleted(d, true) ==>
        commit.ack in m.sent || (j + 1 == |m.journal| && !m.running)
  }

  // Two commits of a disk cannot both be the latest accepted.
  lemma LatestAcceptedIsUnique(journal: seq<Entry>, i: nat, k: nat, end: nat, d: nat, a: Commit, b: Commit)
    requires JobOf(journal, i, end, d, a) && JobOf(journal, k, end, d, b)
    ensures a.ack == b.ack
  {
    assert Concerns(journal[i], d) && Concerns(journal[k], d);
  }

  lemma OldCompletionStays(m: Monitor, r: Monitor, i: nat, j: nat, d: nat, commit: Commit)
    requires CompletedAreAnswered(m) && m.running && m.journal <= r.journal && m.sent <= r.sent
    requires JobOf(r.journal, i, j, d, commit) && j < |m.journal| && r.journal[j] == JobCompleted(d, true)
    ensures commit.ack in r.sent
  {
    assert m.journal[j] == r.journal[j] && m.journal[i] == r.journal[i];
    assert forall l :: i < l < j ==> m.journal[l] == r.journal[l];
    assert JobOf(m.journal, i, j, d, commit);
  }

  lemma NewCompletionAnswers(s: System, d: nat, o: Outcome, i: nat, commit: Commit)
    requires Sound(s) && s.processed < |s.c.monitor| && s.c.monitor[s.processed] == JobReady(d) && o.result.Ok?
    requires JobOf(s.m.journal, i, |s.m.journal|, d, commit)
    ensures commit.ack in Handle(s.m, JobReady(d), o).sent || (!o.removed && !Handle(s.m, JobReady(d), o).running)
  {
    assert ReportWaits(s, s.processed, d);
    assert Active(s.jobs, d);
    var k :| JobOf(s.m.journal, k, |s.m.journal|, d, s.m.pending[d]);
    LatestAcceptedIsUnique(s.m.journal, i, k, |s.m.journal|, d, commit, s.m.pending[d]);
  }

  lemma ProcessAnswersCompleted(s: System, cmd: QmpCommand, o: Outcome)
    requires Sound(s) && CompletedAreAnswered(s.m) && s.m.running
    requires s.processed < |s.c.monitor| && cmd == s.c.monitor[s.processed]
    ensures CompletedAreAnswered(Handle(s.m, cmd, o))
  {
    var r := Handle(s.m, cmd, o);
    assert s.m.journal <= r.journal && s.m.sent <= r.sent;
    forall i: nat, j: nat, d, commit
      | JobOf(r.journal, i, j, d, commit) && j < |r.journal| && r.journal[j] == JobCompleted(d, true)
      ensures commit.ack in r.sent || (j + 1 == |r.journal| && !r.running)
    {
      if j < |s.m.journal| {
        OldCompletionStays(s.m, r, i, j, d, commit);
      } else {
        assert cmd == JobReady(d) && o.result.Ok? && j == |s.m.journal|;
        assert r.journal[i] == s.m.journal[i] && forall l :: i < l < j ==> r.journal[l] == s.m.journal[l];
        NewCompletionAnswers(s, d, o, i, commit);
      }
    }
  }

  // ----- every run -----

  ghost predicate Answering(s: System) {
    && Accounted(s) && DroppedIssued(s)
    && SnapshotsFromQueue(s) && SnapshotsAnswered(s)
    && GiveUpsEarned(s)
  }

  // A request gives up only over an ack that was dropped.
  ghost predicate GiveUpsEarned(s: System) {
    forall i :: 0 <= i < |s.requests| && s.requests[i].progress.GivenUp? ==>
      s.requests[i].next < |s.requests[i].acks| && s.requests[i].acks[s.requests[i].next] in s.m.dropped
  }

  lemma StepKeepsGiveUps(cfg: Config, s: System, e: Event)
    requires GiveUpsEarned(s)
    ensures GiveUpsEarned(Step(cfg, s, e))
  {
  }

  lemma IdleKeepsAnswering(cfg: Config, s: System, e: Event)
    requires Backup.Invariant(s) && Answering(s) && !e.Process?
    ensures Answering(Step(cfg, s, e))
  {
    var r := Step(cfg, s, e);
    StepKeepsGiveUps(cfg, s, e);
    QueueGrows(cfg, s, e);
    assert r.m == s.m && r.processed == s.processed;
    assert forall p :: 0 <= p < s.processed ==> r.c.monitor[p] == s.c.monitor[p];
  }

  lemma StepKeepsAnswering(cfg: Config, s: System, e: Event)
    requires Backup.Invariant(s) && Answering(s)
    ensures Answering(Step(cfg, s, e))
  {
    if !e.Process? {
      IdleKeepsAnswering(cfg, s, e);
    } else if Enabled(s, e) {
      ProcessAccounts(cfg, s, e.o);
      ProcessDropsIssued(cfg, s, e.o);
      ProcessKeepsSnapshotJournal(cfg, s, e.o);
      ProcessAnswersSnapshots(cfg, s, e.o);
      StepKeepsGiveUps(cfg, s, e);
    }
  }

  // Over every run every executed command's ack is accounted for, and every snapshot's is
  // answered if it was taken and dropped if not.
  lemma {:induction false} EveryRunKeepsAnswering(cfg: Config, events: seq<Event>)
    ensures Answering(Run(cfg, events)) && Backup.Invariant(Run(cfg, events))
  {
    EveryRunKeepsInvariant(cfg, events);
    if events != [] {
      EveryRunKeepsAnswering(cfg, events[..|events| - 1]);
      StepKeepsAnswering(cfg, Run(cfg, events[..|events| - 1]), events[|events| - 1]);
    }
  }

  lemma {:induction false} CompletedAreAlwaysAnswered(cfg: Config, events: seq<Event>)
    requires AllInTurn(cfg, STARTED, events)
    ensures Sound(Run(cfg, events)) && CompletedAreAnswered(Run(cfg, events).m)
  {
    RunKeepsSound(cfg, STARTED, events);
    if events != [] {
      var n := |events| - 1;
      assert AllInTurn(cfg, STARTED, events[..n]) by {
        forall i | 0 <= i < n ensures events[..n][..i] == events[..i] {
        }
      }
      CompletedAreAlwaysAnswered(cfg, events[..n]);
      StepAnswersCompleted(cfg, Run(cfg, events[..n]), events[n]);
    }
  }

  lemma StepAnswersCompleted(cfg: Config, s: System, e: Event)
    requires Sound(s) && CompletedAreAnswered(s.m)
    ensures CompletedAreAnswered(Step(cfg, s, e).m)
  {
    if Enabled(s, e) && e.Process? { ProcessAnswersCompleted(s, s.c.monitor[s.processed], e.o); }
  }

  // ----- the Ack -----

  function PollsAndDelivery(i: nat, polls: nat): seq<Event> {
    seq(polls, _ => Poll(i)) + [Deliver(i)]
  }

  predicate IsDelivered(s: System, i: nat) {
    i < |s.requests| && s.requests[i].delivered
  }

  lemma {:induction false} PollsPoll(cfg: Config, s: System, i: nat, polls: nat)
    requires i < |s.requests|
    ensures RunFrom(cfg, s, seq(polls, _ => Poll(i))) ==
            s.(requests := s.requests[i := PollTimes(s.m, s.requests[i], polls)])
  {
    if polls > 0 {
      var events := seq(polls, _ => Poll(i));
      assert events[..polls - 1] == seq(polls - 1, _ => Poll(i));
      PollsPoll(cfg, s, i, polls - 1);
    }
  }

  // A request whose acks have all been answered is acked by as many polls and one more.
  lemma AnsweredIsAcked(cfg: Config, s: System, i: nat)
    requires Backup.Invariant(s) && Answering(s) && i < |s.requests|
    requires forall k :: 0 <= k < |s.requests[i].acks| ==> s.requests[i].acks[k] in s.m.sent
    ensures IsDelivered(RunFrom(cfg, s, PollsAndDelivery(i, |s.requests[i].acks| + 1)), i)
  {
    var r, polls := s.requests[i], |s.requests[i].acks| + 1;
    assert RequestSound(s.c, s.m.sent, r);
    NeverGivenUp(s, i);
    PollsPoll(cfg, s, i, polls);
    var events := PollsAndDelivery(i, polls);
    assert events[..polls] == seq(polls, _ => Poll(i));
    if r.progress.Waiting? {
      PollsReachAck(s.m, r, polls);
    } else {
      PollsDoNothing(s.m, r, polls);
    }
  }

  lemma {:induction false} PollsDoNothing(m: Monitor, r: Request, n: nat)
    requires !r.progress.Waiting?
    ensures PollTimes(m, r, n) == r
  {
    if n > 0 { PollsDoNothing(m, r, n - 1); }
  }

  lemma SentIsNotDropped(s: System, a: nat)
    requires Backup.Invariant(s) && Accounted(s) && a in s.m.sent
    ensures a !in s.m.dropped
  {
    var p :| 0 <= p < s.processed && CarriesAck(s.c.monitor[p]) && s.c.monitor[p].ack == a;
    assert IsAccounted(s.m, s.c.monitor[p]);
  }

  lemma NeverGivenUp(s: System, i: nat)
    requires Backup.Invariant(s) && Answering(s) && i < |s.requests|
    requires forall k :: 0 <= k < |s.requests[i].acks| ==> s.requests[i].acks[k] in s.m.sent
    ensures !s.requests[i].progress.GivenUp?
  {
    if s.requests[i].next < |s.requests[i].acks| { SentIsNotDropped(s, s.requests[i].acks[s.requests[i].next]); }
  }

  // What a command was asked for has been done, and the monitor's task got past it.
  ghost predicate Done(m: Monitor, cmd: QmpCommand) {
    match cmd
    case TakeSnapshot(disk, file, ack) => SnapshotTaken(ack, disk, file, true) in m.journal
    case CommitSnapshot(disk, file, ack) =>
      exists i: nat, j: nat ::
        && JobOf(m.journal, i, j, disk, Commit(file, ack))
        && j + 1 < |m.journal| && m.journal[j] == JobCompleted(disk, true)
    case _ => false
  }

  // In every run with requests in turn: a request all of whose snapshots have been taken and
  // all of whose commits have been completed gets its Ack.
  lemma DoneIsAcked(cfg: Config, events: seq<Event>, i: nat)
    requires AllInTurn(cfg, STARTED, events) && i < |Run(cfg, events).requests|
    requires var s := Run(cfg, events);
             forall k :: 0 <= k < |s.requests[i].commands| ==> Done(s.m, s.requests[i].commands[k])
    ensures var s := Run(cfg, events);
            IsDelivered(RunFrom(cfg, s, PollsAndDelivery(i, |s.requests[i].acks| + 1)), i)
  {
    EveryRunKeepsAnswering(cfg, events);
    CompletedAreAlwaysAnswered(cfg, events);
    var s := Run(cfg, events);
    var r := s.requests[i];
    assert RequestSound(s.c, s.m.sent, r);
    forall k | 0 <= k < |r.acks| ensures r.acks[k] in s.m.sent {
      DoneIsAnswered(s, r.commands[k]);
    }
    AnsweredIsAcked(cfg, s, i);
  }

  lemma DoneIsAnswered(s: System, cmd: QmpCommand)
    requires Backup.Invariant(s) && Answering(s) && CompletedAreAnswered(s.m)
    requires cmd in s.c.monitor && CarriesAck(cmd) && Done(s.m, cmd)
    ensures cmd.ack in s.m.sent
  {
    if cmd.TakeSnapshot? { TakenIsAnswered(s, cmd); }
  }

  lemma TakenIsAnswered(s: System, cmd: QmpCommand)
    requires Backup.Invariant(s) && Answering(s)
    requires cmd.TakeSnapshot? && SnapshotTaken(cmd.ack, cmd.disk, cmd.file, true) in s.m.journal
    ensures cmd.ack in s.m.sent
  {
    var i :| 0 <= i < |s.m.journal| && s.m.journal[i] == SnapshotTaken(cmd.ack, cmd.disk, cmd.file, true);
    var p :| 0 <= p < s.processed && s.c.monitor[p] == TakeSnapshot(cmd.disk, cmd.file, cmd.ack);
    assert SnapshotAnswered(s.m, s.c.monitor[p]);
  }

  // To enter backup mode it takes no turns: in every run, a request all of whose snapshots
  // have been taken gets its Ack.
  lemma TakenIsAcked(cfg: Config, events: seq<Event>, i: nat)
    requires i < |Run(cfg, events).requests|
    requires var s := Run(cfg, events);
             forall k :: 0 <= k < |s.requests[i].commands| ==>
               s.requests[i].commands[k].TakeSnapshot? && Done(s.m, s.requests[i].commands[k])
    ensures var s := Run(cfg, events);
            IsDelivered(RunFrom(cfg, s, PollsAndDelivery(i, |s.requests[i].acks| + 1)), i)
  {
    EveryRunKeepsAnswering(cfg, events);
    var s := Run(cfg, events);
    var r := s.requests[i];
    assert RequestSound(s.c, s.m.sent, r);
    forall k | 0 <= k < |r.acks| ensures r.acks[k] in s.m.sent {
      TakenIsAnswered(s, r.commands[k]);
    }
    AnsweredIsAcked(cfg, s, i);
  }

  // A request that looks at a dropped ack gives up, and only then.
  lemma PollGivesUpIff(m: Monitor, r: Request)
    requires r.progress.Waiting? && r.next <= |r.acks|
    ensures PollRequest(m, r).progress.GivenUp? <==>
              r.next < |r.acks| && r.acks[r.next] !in m.sent && r.acks[r.next] in m.dropped
    ensures PollRequest(m, r) == r <==>
              r.next < |r.acks| && r.acks[r.next] !in m.sent && r.acks[r.next] !in m.dropped
  {
  }
}
