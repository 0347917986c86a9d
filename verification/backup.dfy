/** Backup requests from the control socket to the machine and back. */
module Backup {
  import opened Common
  import opened Messages
  import opened ControllerModel
  import opened MonitorModel
  import Usb

  // ----- the system -----

  datatype Progress = Waiting | GivenUp | Acked

  // One EnterBackupMode or LeaveBackupMode request: the commands it sent, their acks,
  // and the task that awaits these one after the other.
  datatype Request = Request(
    conn: nat,
    commands: seq<QmpCommand>,
    acks: seq<nat>,
    next: nat,
    progress: Progress,
    delivered: bool)

  // A block job of the machine: it runs, its readiness was reported, or its completion
  // failed. One that dies is gone, of which the driver takes no notice.
  datatype Job = Running | Reported | Stuck

  // processed: how much of the monitor queue has been executed.
  datatype System = System(
    c: Controller,
    processed: nat,
    m: Monitor,
    jobs: map<nat, Job>,
    requests: seq<Request>)

  const STARTED := System(INITIAL, 0, IDLE, map[], [])

  datatype Event =
    | Ask(conn: nat, existing: set<string>, leave: bool)
    | Call(op: Op)
    | Forward(events: seq<InputEvent>)
    | Process(o: Outcome)
    | JobTurnsReady(disk: nat)
    | JobDies(disk: nat)
    | Poll(request: nat)
    | Deliver(request: nat)

  predicate Enabled(s: System, e: Event) {
    match e
    case Call(op) => !op.OpBackup?
    case Process(_) => s.processed < |s.c.monitor| && s.m.running
    case JobTurnsReady(disk) => disk in s.jobs && s.jobs[disk].Running?
    case JobDies(disk) => disk in s.jobs && !s.jobs[disk].Reported?
    case Poll(i) => i < |s.requests| && s.requests[i].progress.Waiting?
    case Deliver(i) => i < |s.requests| && s.requests[i].progress.Acked? && !s.requests[i].delivered
    case _ => true
  }

  function NewRequest(cfg: Config, c: Controller, conn: nat, existing: set<string>, leave: bool): Request {
    var disks := SnapshotDisks(cfg.snapshots, existing, leave);
    var commands := SnapshotCommands(cfg.snapshots, disks, leave, c.acks);
    Request(conn, commands, BackupMode(cfg, c, existing, leave).1, 0, Waiting, false)
  }

  // The task looks at the next ack: answered, impossible, or still open.
  function PollRequest(m: Monitor, r: Request): Request {
    if r.next >= |r.acks| then r.(progress := Acked)
    else if r.acks[r.next] in m.sent then r.(next := r.next + 1)
    else if r.acks[r.next] in m.dropped then r.(progress := GivenUp)
    else r
  }

  function JobsAfter(jobs: map<nat, Job>, m: Monitor, cmd: QmpCommand, o: Outcome): map<nat, Job> {
    match cmd
    case CommitSnapshot(disk, _, _) => if o.result.Ok? then jobs[disk := Running] else jobs
    case JobReady(disk) =>
      if disk !in m.pending then jobs
      else if o.result.Ok? then jobs - {disk}
      else jobs[disk := Stuck]
    case _ => jobs
  }

  function Step(cfg: Config, s: System, e: Event): System {
    if !Enabled(s, e) then s
    else
      match e
      case Ask(conn, existing, leave) =>
        s.(c := BackupMode(cfg, s.c, existing, leave).0,
           requests := s.requests + [NewRequest(cfg, s.c, conn, existing, leave)])
      case Call(op) => s.(c := Apply(cfg, s.c, op))
      case Forward(events) => s.(c := SendMonitor(s.c, InputSendEvent(events)))
      case Process(o) =>
        var cmd := s.c.monitor[s.processed];
        s.(processed := s.processed + 1, m := Handle(s.m, cmd, o), jobs := JobsAfter(s.jobs, s.m, cmd, o))
      case JobTurnsReady(disk) =>
        s.(c := SendMonitor(s.c, JobReady(disk)), jobs := s.jobs[disk := Reported])
      case JobDies(disk) => s.(jobs := s.jobs - {disk})
      case Poll(i) => s.(requests := s.requests[i := PollRequest(s.m, s.requests[i])])
      case Deliver(i) => s.(requests := s.requests[i := s.requests[i].(delivered := true)])
  }

  function RunFrom(cfg: Config, s: System, events: seq<Event>): System {
    if events == [] then s
    else Step(cfg, RunFrom(cfg, s, events[..|events| - 1]), events[|events| - 1])
  }

  function Run(cfg: Config, events: seq<Event>): System {
    RunFrom(cfg, STARTED, events)
  }

  // ----- when a command has succeeded -----

  predicate CarriesAck(cmd: QmpCommand) {
    cmd.TakeSnapshot? || cmd.CommitSnapshot?
  }

  ghost predicate CommittedAndRemoved(journal: seq<Entry>, disk: nat, file: string, ack: nat) {
    exists i, j, k, ok :: 0 <= i < j < k < |journal|
      && journal[i] == CommitIssued(ack, disk, file, ok)
      && journal[j] == JobCompleted(disk, true)
      && journal[k] == FileRemoved(file)
  }

  // A snapshot was taken; or a commit was issued, its job then completed, and the
  // snapshot file then removed.
  ghost predicate Succeeded(journal: seq<Entry>, cmd: QmpCommand) {
    match cmd
    case TakeSnapshot(disk, file, ack) => SnapshotTaken(ack, disk, file, true) in journal
    case CommitSnapshot(disk, file, ack) => CommittedAndRemoved(journal, disk, file, ack)
    case _ => false
  }

  lemma SucceededStays(journal: seq<Entry>, more: seq<Entry>, cmd: QmpCommand)
    requires Succeeded(journal, cmd)
    ensures Succeeded(journal + more, cmd)
  {
    if cmd.CommitSnapshot? {
      var i, j, k, ok :| 0 <= i < j < k < |journal|
        && journal[i] == CommitIssued(cmd.ack, cmd.disk, cmd.file, ok)
        && journal[j] == JobCompleted(cmd.disk, true)
        && journal[k] == FileRemoved(cmd.file);
      var r := journal + more;
      assert r[i] == journal[i] && r[j] == journal[j] && r[k] == journal[k];
    }
  }

  // ----- what calls other than backup requests send -----

  // Only queue entries were added that carry no ack, report no job and forward no input.
  ghost predicate AddsPlain(c: Controller, r: Controller) {
    && c.monitor <= r.monitor && r.acks == c.acks
    && forall i :: |c.monitor| <= i < |r.monitor| ==>
         !CarriesAck(r.monitor[i]) && !r.monitor[i].JobReady? && !r.monitor[i].InputSendEvent?
  }

  lemma {:induction false} DelsArePlain(devices: seq<Usb.UsbDevice>)
    ensures forall i :: 0 <= i < |DetachDels(devices)| ==> DetachDels(devices)[i].DeviceDel?
  {
    if devices != [] { DelsArePlain(devices[..|devices| - 1]); }
  }

  lemma ForceAttachAddsPlain(cfg: Config, c: Controller, env: Env)
    ensures AddsPlain(c, IoForceAttach(cfg, c, env))
  {
    AddsAreAdds(cfg.usb, env.usb, Usb.SortByBus(cfg.usb));
  }

  lemma DetachAddsPlain(cfg: Config, c: Controller)
    ensures AddsPlain(c, IoDetach(cfg, c))
  {
    DelsArePlain(cfg.usb);
  }

  lemma HelloAddsPlain(cfg: Config, c: Controller, env: Env)
    ensures AddsPlain(c, GaHello(cfg, c, env).0)
  {
    var up := c.(clientpipe := c.clientpipe + Registrations(cfg.hotkeys), ga := Up);
    ForceAttachAddsPlain(cfg, up, env);
    var r := GreetAgent(cfg, c, env);
    assert AddsPlain(c, r);
    ForceAttachAddsPlain(cfg, r, env);
  }

  lemma HotkeyAddsPlain(cfg: Config, c: Controller, index: nat, env: Env)
    ensures AddsPlain(c, GaHotkey(cfg, c, index, env))
  {
    ForceAttachAddsPlain(cfg, c, env);
    DetachAddsPlain(cfg, c);
    assert AddsPlain(c, IoAttach(cfg, c, env));
  }

  lemma ApplyAddsPlain(cfg: Config, c: Controller, op: Op)
    requires !op.OpBackup?
    ensures AddsPlain(c, Apply(cfg, c, op))
  {
    match op
    case OpPing => DetachAddsPlain(cfg, c.(ga := Down));
    case OpHello(env) => HelloAddsPlain(cfg, c, env);
    case OpSuspending => DetachAddsPlain(cfg, c);
    case OpHotkey(index, env) => HotkeyAddsPlain(cfg, c, index, env);
    case OpIoAttach(env) => ForceAttachAddsPlain(cfg, c, env);
    case OpTryAttach(env) => ForceAttachAddsPlain(cfg, c, env);
    case OpForceAttach(env) => ForceAttachAddsPlain(cfg, c, env);
    case OpIoDetach => DetachAddsPlain(cfg, c);
    case OpTemporaryExit => DetachAddsPlain(cfg, c);
    case _ =>
  }

  // To leave backup mode a disk is due if its snapshot file exists, to enter it if not.
  predicate IsDue(snapshots: seq<Option<string>>, existing: set<string>, leave: bool, d: nat) {
    d < |snapshots| && snapshots[d].Some? && (snapshots[d].value in existing) == leave
  }

  lemma {:induction false} SnapshotDisksComplete(
    snapshots: seq<Option<string>>, existing: set<string>, leave: bool, d: nat)
    ensures d in SnapshotDisks(snapshots, existing, leave) <==> IsDue(snapshots, existing, leave, d)
  {
    if snapshots != [] {
      SnapshotDisksComplete(snapshots[..|snapshots| - 1], existing, leave, d);
    }
  }

  predicate CommandFor(commands: seq<QmpCommand>, k: nat, d: nat) {
    k < |commands| && CarriesAck(commands[k]) && commands[k].disk == d
  }

  lemma CommandIsForDisk(snapshots: seq<Option<string>>, disks: seq<nat>, leave: bool, ack: nat, k: nat, d: nat)
    requires Configured(snapshots, disks)
    ensures var commands := SnapshotCommands(snapshots, disks, leave, ack);
            && (CommandFor(commands, k, d) <==> k < |disks| && disks[k] == d)
            && (CommandFor(commands, k, d) ==> commands[k] == SnapshotCommand(snapshots, d, leave, ack + k))
  {
  }

  lemma OneCommandEach(disks: seq<nat>, commands: seq<QmpCommand>, d: nat)
    requires forall j, k :: 0 <= j < k < |disks| ==> disks[j] < disks[k]
    requires forall k: nat :: CommandFor(commands, k, d) <==> k < |disks| && disks[k] == d
    ensures d in disks <==> exists k :: CommandFor(commands, k, d)
    ensures forall j, k :: CommandFor(commands, j, d) && CommandFor(commands, k, d) ==> j == k
  {
    if d in disks {
      var k :| 0 <= k < |disks| && disks[k] == d;
      assert CommandFor(commands, k, d);
    }
  }

  // A request sends exactly one command for each disk that is due, and it is the right one.
  lemma RequestCoversDueDisks(cfg: Config, c: Controller, conn: nat, existing: set<string>, leave: bool, d: nat)
    ensures var commands := NewRequest(cfg, c, conn, existing, leave).commands;
            && (IsDue(cfg.snapshots, existing, leave, d) <==> exists k :: CommandFor(commands, k, d))
            && (forall j, k :: CommandFor(commands, j, d) && CommandFor(commands, k, d) ==> j == k)
            && (IsDue(cfg.snapshots, existing, leave, d) ==>
                  forall k: nat :: CommandFor(commands, k, d) ==>
                    commands[k] == if leave then CommitSnapshot(d, cfg.snapshots[d].value, c.acks + k)
                                   else TakeSnapshot(d, cfg.snapshots[d].value, c.acks + k))
  {
    SnapshotDisksComplete(cfg.snapshots, existing, leave, d);
    var disks := SnapshotDisks(cfg.snapshots, existing, leave);
    var commands := SnapshotCommands(cfg.snapshots, disks, leave, c.acks);
    forall k: nat
      ensures CommandFor(commands, k, d) <==> k < |disks| && disks[k] == d
      ensures CommandFor(commands, k, d) ==> commands[k] == SnapshotCommand(cfg.snapshots, d, leave, c.acks + k)
    {
      CommandIsForDisk(cfg.snapshots, disks, leave, c.acks, k, d);
    }
    OneCommandEach(disks, commands, d);
  }

  // ----- the invariants -----

  // Every ack in the queue was handed out, and to one command only.
  ghost predicate AcksUnique(c: Controller) {
    && (forall i :: 0 <= i < |c.monitor| && CarriesAck(c.monitor[i]) ==> c.monitor[i].ack < c.acks)
    && forall i, j :: 0 <= i < j < |c.monitor| && CarriesAck(c.monitor[i]) && CarriesAck(c.monitor[j]) ==>
                        c.monitor[i].ack != c.monitor[j].ack
  }

  // An answered ack belongs to an executed command that succeeded.
  ghost predicate AnswersEarned(s: System) {
    && s.processed <= |s.c.monitor|
    && forall a :: a in s.m.sent ==>
         exists i :: 0 <= i < s.processed && CarriesAck(s.c.monitor[i]) && s.c.monitor[i].ack == a
                     && Succeeded(s.m.journal, s.c.monitor[i])
  }

  ghost predicate Issued(journal: seq<Entry>, disk: nat, file: string, ack: nat) {
    exists i, ok :: 0 <= i < |journal| && journal[i] == CommitIssued(ack, disk, file, ok)
  }

  // A pending commit is that of an executed command.
  ghost predicate PendingIssued(s: System) {
    forall d :: d in s.m.pending ==>
      && Issued(s.m.journal, d, s.m.pending[d].file, s.m.pending[d].ack)
      && exists i :: 0 <= i < s.processed <= |s.c.monitor|
                     && s.c.monitor[i] == CommitSnapshot(d, s.m.pending[d].file, s.m.pending[d].ack)
  }

  ghost predicate RequestSound(c: Controller, sent: set<nat>, r: Request) {
    && |r.commands| == |r.acks|
    && (forall k :: 0 <= k < |r.commands| ==>
          r.commands[k] in c.monitor && CarriesAck(r.commands[k]) && r.commands[k].ack == r.acks[k])
    && r.next <= |r.acks|
    && (forall k :: 0 <= k < r.next ==> r.acks[k] in sent)
    && (r.progress.Acked? ==> r.next == |r.acks|)
    && (r.delivered ==> r.progress.Acked?)
  }

  ghost predicate RequestsSound(s: System) {
    forall i :: 0 <= i < |s.requests| ==> RequestSound(s.c, s.m.sent, s.requests[i])
  }

  ghost predicate Invariant(s: System) {
    AcksUnique(s.c) && AnswersEarned(s) && PendingIssued(s) && RequestsSound(s)
  }

  // Requests stay sound while the queue and the answers grow.
  lemma RequestStaysSound(c: Controller, c': Controller, sent: set<nat>, sent': set<nat>, r: Request)
    requires RequestSound(c, sent, r) && c.monitor <= c'.monitor && sent <= sent'
    ensures RequestSound(c', sent', r)
  {
  }

  // Growing the queue by what is neither executed nor asked for changes nothing.
  lemma GrowthKeepsInvariant(s: System, c: Controller)
    requires Invariant(s) && AcksUnique(c) && s.c.monitor <= c.monitor
    ensures Invariant(s.(c := c))
  {
  }

  lemma AskKeepsAcksUnique(cfg: Config, c: Controller, existing: set<string>, leave: bool)
    requires AcksUnique(c)
    ensures AcksUnique(BackupMode(cfg, c, existing, leave).0)
  {
    var disks := SnapshotDisks(cfg.snapshots, existing, leave);
    var commands := SnapshotCommands(cfg.snapshots, disks, leave, c.acks);
    assert forall k :: 0 <= k < |commands| ==> CarriesAck(commands[k]) && commands[k].ack == c.acks + k;
  }

  lemma NewRequestSound(cfg: Config, c: Controller, sent: set<nat>, conn: nat, existing: set<string>, leave: bool)
    ensures RequestSound(BackupMode(cfg, c, existing, leave).0, sent, NewRequest(cfg, c, conn, existing, leave))
  {
  }

  lemma AskKeepsInvariant(cfg: Config, s: System, conn: nat, existing: set<string>, leave: bool)
    requires Invariant(s)
    ensures Invariant(Step(cfg, s, Ask(conn, existing, leave)))
  {
    var c := BackupMode(cfg, s.c, existing, leave).0;
    AskKeepsAcksUnique(cfg, s.c, existing, leave);
    GrowthKeepsInvariant(s, c);
    NewRequestSound(cfg, s.c, s.m.sent, conn, existing, leave);
    var r := Step(cfg, s, Ask(conn, existing, leave));
    forall i | 0 <= i < |r.requests| ensures RequestSound(r.c, r.m.sent, r.requests[i]) {
      assert i < |s.requests| ==> r.requests[i] == s.(c := c).requests[i];
    }
  }

  // What is left of a processing step once the newly answered ack has been dealt with.
  lemma ProcessKeepsInvariant(s: System, r: System, cmd: QmpCommand, o: Outcome)
    requires Invariant(s) && s.processed < |s.c.monitor| && cmd == s.c.monitor[s.processed]
    requires r == s.(processed := s.processed + 1, m := Handle(s.m, cmd, o), jobs := r.jobs)
    requires forall a :: a in r.m.sent && a !in s.m.sent ==>
               exists i :: 0 <= i < r.processed && CarriesAck(r.c.monitor[i]) && r.c.monitor[i].ack == a
                           && Succeeded(r.m.journal, r.c.monitor[i])
    ensures Invariant(r)
  {
    var more := r.m.journal[|s.m.journal|..];
    assert r.m.journal == s.m.journal + more;
    forall a | a in r.m.sent
      ensures exists i :: 0 <= i < r.processed && CarriesAck(r.c.monitor[i]) && r.c.monitor[i].ack == a
                          && Succeeded(r.m.journal, r.c.monitor[i])
    {
      if a in s.m.sent {
        var i :| 0 <= i < s.processed && CarriesAck(s.c.monitor[i]) && s.c.monitor[i].ack == a
          && Succeeded(s.m.journal, s.c.monitor[i]);
        SucceededStays(s.m.journal, more, s.c.monitor[i]);
      }
    }
    forall d | d in r.m.pending
      ensures Issued(r.m.journal, d, r.m.pending[d].file, r.m.pending[d].ack)
      ensures exists i :: 0 <= i < r.processed <= |r.c.monitor|
                          && r.c.monitor[i] == CommitSnapshot(d, r.m.pending[d].file, r.m.pending[d].ack)
    {
      PendingStays(s, r, cmd, o, d);
    }
    forall i | 0 <= i < |s.requests| ensures RequestSound(r.c, r.m.sent, r.requests[i]) {
      RequestStaysSound(s.c, r.c, s.m.sent, r.m.sent, s.requests[i]);
    }
  }

  lemma PendingStays(s: System, r: System, cmd: QmpCommand, o: Outcome, d: nat)
    requires Invariant(s) && s.processed < |s.c.monitor| && cmd == s.c.monitor[s.processed]
    requires r == s.(processed := s.processed + 1, m := Handle(s.m, cmd, o), jobs := r.jobs)
    requires d in r.m.pending
    ensures Issued(r.m.journal, d, r.m.pending[d].file, r.m.pending[d].ack)
    ensures exists i :: 0 <= i < r.processed <= |r.c.monitor|
                        && r.c.monitor[i] == CommitSnapshot(d, r.m.pending[d].file, r.m.pending[d].ack)
  {
    if cmd.CommitSnapshot? && cmd.disk == d {
      assert r.m.journal[|s.m.journal|] == CommitIssued(cmd.ack, d, cmd.file, o.result.Ok?);
      assert r.c.monitor[s.processed] == CommitSnapshot(d, r.m.pending[d].file, r.m.pending[d].ack);
    } else {
      assert r.m.pending[d] == s.m.pending[d];
      var i, ok :| 0 <= i < |s.m.journal|
        && s.m.journal[i] == CommitIssued(s.m.pending[d].ack, d, s.m.pending[d].file, ok);
      assert r.m.journal[i] == s.m.journal[i];
    }
  }

  // A newly answered ack is that of the command, or of the commit whose job got ready.
  lemma AnswerIsEarned(s: System, cmd: QmpCommand, o: Outcome, a: nat)
    requires Invariant(s) && s.processed < |s.c.monitor| && cmd == s.c.monitor[s.processed]
    requires a in Handle(s.m, cmd, o).sent && a !in s.m.sent
    ensures exists i :: 0 <= i < s.processed + 1 && CarriesAck(s.c.monitor[i]) && s.c.monitor[i].ack == a
                        && Succeeded(Handle(s.m, cmd, o).journal, s.c.monitor[i])
  {
    if cmd.JobReady? {
      JobAnswerIsEarned(s, cmd.disk, o, a);
    } else {
      assert Succeeded(Handle(s.m, cmd, o).journal, s.c.monitor[s.processed]);
    }
  }

  lemma JobAnswerIsEarned(s: System, disk: nat, o: Outcome, a: nat)
    requires PendingIssued(s)
    requires a in Handle(s.m, JobReady(disk), o).sent && a !in s.m.sent
    ensures exists i :: 0 <= i < s.processed <= |s.c.monitor| && CarriesAck(s.c.monitor[i]) && s.c.monitor[i].ack == a
                        && Succeeded(Handle(s.m, JobReady(disk), o).journal, s.c.monitor[i])
  {
    var commit := s.m.pending[disk];
    AnsweringJournal(s.m, disk, o, a);
    var i :| 0 <= i < s.processed <= |s.c.monitor| && s.c.monitor[i] == CommitSnapshot(disk, commit.file, commit.ack);
    CompletionSucceeds(s.m.journal, disk, commit);
    assert Succeeded(Handle(s.m, JobReady(disk), o).journal, s.c.monitor[i]);
  }

  lemma AnsweringJournal(m: Monitor, disk: nat, o: Outcome, a: nat)
    requires a in Handle(m, JobReady(disk), o).sent && a !in m.sent
    ensures disk in m.pending && a == m.pending[disk].ack
    ensures Handle(m, JobReady(disk), o).journal ==
            m.journal + [JobCompleted(disk, true), FileRemoved(m.pending[disk].file)]
  {
  }

  lemma CompletionSucceeds(journal: seq<Entry>, disk: nat, commit: Commit)
    requires Issued(journal, disk, commit.file, commit.ack)
    ensures var r := journal + [JobCompleted(disk, true), FileRemoved(commit.file)];
            CommittedAndRemoved(r, disk, commit.file, commit.ack)
  {
    var r := journal + [JobCompleted(disk, true), FileRemoved(commit.file)];
    var i, ok :| 0 <= i < |journal| && journal[i] == CommitIssued(commit.ack, disk, commit.file, ok);
    assert r[i] == CommitIssued(commit.ack, disk, commit.file, ok);
    assert r[|journal|] == JobCompleted(disk, true) && r[|journal| + 1] == FileRemoved(commit.file);
  }

  lemma StepKeepsInvariant(cfg: Config, s: System, e: Event)
    requires Invariant(s)
    ensures Invariant(Step(cfg, s, e))
  {
    if Enabled(s, e) {
      match e
      case Ask(conn, existing, leave) => AskKeepsInvariant(cfg, s, conn, existing, leave);
      case Call(op) =>
        ApplyAddsPlain(cfg, s.c, op);
        GrowthKeepsInvariant(s, Apply(cfg, s.c, op));
      case Forward(events) => GrowthKeepsInvariant(s, SendMonitor(s.c, InputSendEvent(events)));
      case JobTurnsReady(disk) => GrowthKeepsInvariant(s, SendMonitor(s.c, JobReady(disk)));
      case JobDies(_) =>
      case Process(o) => ExecutionKeepsInvariant(cfg, s, o);
      case Poll(i) => PollKeepsInvariant(cfg, s, i);
      case Deliver(i) =>
    }
  }

  lemma ExecutionKeepsInvariant(cfg: Config, s: System, o: Outcome)
    requires Invariant(s) && Enabled(s, Process(o))
    ensures Invariant(Step(cfg, s, Process(o)))
  {
    var cmd := s.c.monitor[s.processed];
    forall a | a in Handle(s.m, cmd, o).sent && a !in s.m.sent
      ensures exists i :: 0 <= i < s.processed + 1 && CarriesAck(s.c.monitor[i]) && s.c.monitor[i].ack == a
                          && Succeeded(Handle(s.m, cmd, o).journal, s.c.monitor[i])
    {
      AnswerIsEarned(s, cmd, o, a);
    }
    ProcessKeepsInvariant(s, Step(cfg, s, Process(o)), cmd, o);
  }

  lemma PollKeepsInvariant(cfg: Config, s: System, i: nat)
    requires Invariant(s) && Enabled(s, Poll(i))
    ensures Invariant(Step(cfg, s, Poll(i)))
  {
    var r := Step(cfg, s, Poll(i));
    assert RequestSound(s.c, s.m.sent, PollRequest(s.m, s.requests[i]));
    forall j | 0 <= j < |r.requests| ensures RequestSound(r.c, r.m.sent, r.requests[j]) {
      assert j != i ==> r.requests[j] == s.requests[j];
    }
  }

  lemma {:induction false} EveryRunKeepsInvariant(cfg: Config, events: seq<Event>)
    ensures Invariant(Run(cfg, events))
  {
    if events != [] {
      EveryRunKeepsInvariant(cfg, events[..|events| - 1]);
      StepKeepsInvariant(cfg, Run(cfg, events[..|events| - 1]), events[|events| - 1]);
    }
  }

  // An Ack reaches the connection only if everything its request asked for succeeded.
  lemma AckOnlyIfAllSucceeded(cfg: Config, events: seq<Event>, i: nat)
    requires i < |Run(cfg, events).requests| && Run(cfg, events).requests[i].delivered
    ensures var s := Run(cfg, events);
            forall k :: 0 <= k < |s.requests[i].commands| ==> Succeeded(s.m.journal, s.requests[i].commands[k])
  {
    EveryRunKeepsInvariant(cfg, events);
    var s := Run(cfg, events);
    var r := s.requests[i];
    assert RequestSound(s.c, s.m.sent, r);
    forall k | 0 <= k < |r.commands| ensures Succeeded(s.m.journal, r.commands[k]) {
      assert r.acks[k] in s.m.sent;
      var p :| 0 <= p < s.processed && CarriesAck(s.c.monitor[p]) && s.c.monitor[p].ack == r.acks[k]
        && Succeeded(s.m.journal, s.c.monitor[p]);
      assert r.commands[k] in s.c.monitor;
      var q :| 0 <= q < |s.c.monitor| && s.c.monitor[q] == r.commands[k];
      assert p == q;
    }
  }
}
