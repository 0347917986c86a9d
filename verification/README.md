# Verified model of the Windows-gaming host driver

The driver runs a Windows guest under QEMU and decides, moment by moment, who owns
the keyboard and mouse: the host, the guest through USB pass-through ("full entry"),
or the guest through forwarded input events ("light entry"). This project models the
driver's control plane in Dafny and proves what it keeps over whole runs.

Where the original changes an object in place, the project has a class with the same
fields and methods (`Controllers`, `Driver`, `Monitors`, `Hotkeys.KeyboardState`,
`Cursors.MultiCursor`, `Listeners`, the codecs). Each method is tied to a transition
function on values, and the theorems are about all runs of these functions:

| file | what it holds |
|---|---|
| `controller_model.dfy`, `controller.dfy` | the controller: agent state x entry state, queues, suspend waiters; as a transition system and as a class |
| `ownership.dfy` | input grabs and plugged devices over all runs, and the one call that loses devices |
| `histories.dfy`, `entries.dfy` | wake-ups, pings and suspend waiters; what a hello completes, temporary entries, released keys and modifiers |
| `automaton.dfy`, `outcomes.dfy`, `suspension.dfy` | the controller against an independent automaton with exact messages; what those who ask for something get; that Windows is told to suspend |
| `driver_model.dfy`, `driver.dfy` | guest agent messages, ping timers, any number of control connections and the sleep inhibitor around the controller |
| `backup.dfy`, `backup_jobs.dfy` | backup requests through controller, monitor queue, block jobs and ack channels |
| `backup_answers.dfy` | that no ack is lost and what has succeeded is answered |
| `backup_turns.dfy`, `backup_untimely.dfy` | when leaving backup mode may be asked for, and what an untimely request can lead to |
| `monitor_model.dfy`, `monitor.dfy` | the monitor's command loop: held keys, snapshots, commits |
| `hotkeys.dfy`, `input.dfy`, `held_keys.dfy`, `key_runs.dfy` | modifier tracking, key bindings, keyboard events of the light entry, keys held when it ends |
| `usb.dfy`, `usb_attach.dfy`, `root_ports.dfy` | USB slots at boot and at hot-plug, PCIe root ports |
| `streams.dfy`, `framing.dfy`, `control_codec.dfy` | decoding under arbitrary fragmentation; varint framing; the control socket |
| `cursors.dfy`, `listeners.dfy` | the multi-buffer cursor; window message listeners |
| `common.dfy`, `messages.dfy` | small shared definitions; the commands in the queues |

## Reading the model

* The controller's queues are kept as the sequence of everything ever sent, so what the
  guest has plugged, what was pinged and what was woken up are functions of the state.
* A one-shot channel is a number: suspend waiters and snapshot acks are numbered in the
  order in which they are made.
* What the surroundings answer is a parameter: which configured USB devices udev finds
  (`Resolution`), which snapshot files exist (`Env.existing`), how QEMU answers a command
  (`Outcome`). It may differ from call to call, also between the hotkeys of one key event. An
  arbitrary subset of the devices may be present each time.
* An id `usb{i}` and a job or node `disk{i}` are represented by `i`.
* Numbers: positions of the cursor wrap at 2^64 as in an optimised build; lengths of frames
  are 64-bit; control coordinates are signed 32-bit little-endian. Counters that grow by
  one per call (waiters, acks, timers) are unbounded.

## Properties that do not hold

Seven expected properties are false of the code. Each has an input or a run on which it fails and
an exact condition that can be checked before the call.

* Exclusive ownership is lost by `io_attach` while the agent is down and the devices are in
  full entry: the entry state is overwritten and no DeviceDel is sent
  (`Ownership.ApplyKeepsExclusive`, an equivalence; `Ownership.DevicesCanBeLost`, a run that
  plugs the same device twice).
* Exactly one ping timer is not guaranteed: a hello can find a timer that has not noticed the
  suspension yet, or arrive while the agent is said to be suspending after the timer ended
  (`DriverModel.StepKeepsOneTimer`, an equivalence; `DriverModel.TimersCanBeUpset`).
* An Ack for leaving backup mode need not stand for a commit that QEMU accepted: a second,
  refused commit takes over the entry of a running job and is answered by its completion. The
  Ack of a request is true, whatever QEMU does and whatever follows short of another request, if
  and only if the request is made in turn: no commit for any of its disks waits in the queue, and
  no job of these disks runs unreported. (A monitor task that has ended answers nothing at all.)
  For every other request, with any number of disks, the events up to the wrong Ack are
  constructed, and QEMU does nothing in them but refuse second jobs
  (`BackupUntimely.SafeIffInTurn`, an equivalence; `BackupUntimely.UntimelyIsAcked`;
  `BackupTurns.AckOnlyForOwnCommits`, all runs; `BackupUntimely.SecondRequestTakesOver`, a run
  from the start).
* Leaving the light states need not release the keys: replacing a temporary entry by a full
  one does not, so a key held in it stays pressed (`HeldKeys.StepKeepsNoneHeld`, an
  equivalence; `HeldKeys.NoneHeldUnlessLeft`, all runs; `HeldKeys.KeysCanStayHeld`, a run).
* Frames that have arrived completely need not be read: an undecodable one holds up all behind
  it until more bytes arrive. Everything that has arrived is read, however it was cut, if and only
  if every payload but the last is decodable (`Framing.AllAreReadIffDecodable`, an equivalence;
  `Framing.UndecodableHoldsUp`, the input).
* The frame decoder removes exactly the frame if and only if the length was encoded
  canonically; for overlong encodings it removes fewer bytes, never more than there are
  (`Framing.DecodeArbitrary`, an equivalence; `Framing.OverlongIsCutShort`, an input).
* The cursor is the flat cursor if and only if the new position is an unsigned 64-bit number,
  which the code itself notes as unchecked (`Cursors.StepIsFlat`, an equivalence;
  `Cursors.SeekBelowStart`, an input).

The comment in `qemu.rs` says that the three additional xhci users account for mouse and
keyboard. The code places only these two, and only if some configured device sits on an xhci
bus; `Usb.XhciComesLast`, `Usb.ControllerCountIsLeast` and `Usb.SlotsExist` follow the code.

## Model

The remaining methods of the classes (`GaPong`, `GaSuspending`, `TryAttach`, `TemporaryExit`,
`MouseEdged` and `Shutdown` of the controller, `RegisterListener` of the window) are tied to
their transition functions in the same way as the methods below, and are not listed.

| member | source | states |
|---|---|---|
| Ownership.ApplySane | windows-gaming/driver/src/controller.rs:105-388 | In every state each call of the interface keeps: input is grabbed only in light entry, temporary light entry or while awaiting an upgrade, it is never grabbed while grabbed, and agent and entry states fit together (up or pinging excludes awaiting an upgrade, down excludes a temporary entry, suspending allows only detached or full) |
| Ownership.HelloSane | windows-gaming/driver/src/controller.rs:134-177 | A hello repairs the fit between agent and entry state even where it did not hold before |
| Ownership.AlwaysSane | windows-gaming/driver/src/controller.rs:90-388 | The same over every run, with no call excluded |
| Ownership.PluggedByAttach | windows-gaming/driver/src/controller.rs:307-326 | The DeviceAdds of an attach never add an id twice and plug exactly the ids of the devices taken |
| Ownership.AddedIdsAre | windows-gaming/driver/src/controller.rs:310-315 | The devices taken are exactly the non-permanent ones that are present |
| Ownership.UnpluggedByDetach | windows-gaming/driver/src/controller.rs:368-374 | Detaching unplugs exactly what an attach may have plugged, whatever was present then |
| Ownership.IoForceAttachExclusive | windows-gaming/driver/src/controller.rs:286-329 | A forced entry keeps exclusive ownership from every state and, unless in full entry already, leaves exactly the present non-permanent devices plugged |
| Ownership.IoDetachExclusive | windows-gaming/driver/src/controller.rs:357-379 | After a detach nothing is plugged and nothing grabbed |
| Ownership.IoAttachExclusive | windows-gaming/driver/src/controller.rs:213-228 | An entry keeps exclusive ownership exactly unless the agent is down and the entry full |
| Ownership.HotkeyExclusive | windows-gaming/driver/src/controller.rs:192-210 | A hotkey keeps it exactly unless it is an upgrade in that situation |
| Ownership.ApplyKeepsExclusive | windows-gaming/driver/src/controller.rs:105-484 | Exclusive ownership (grabbed exactly in the light states, devices plugged only in full entry, none twice) survives a call if and only if it is not an upgrade while the agent is down in full entry |
| Ownership.AlwaysExclusive | windows-gaming/driver/src/controller.rs:90-484 | Ownership is exclusive over every run without that call |
| Ownership.DevicesCanBeLost | windows-gaming/driver/src/controller.rs:222-225 | A forced entry while down, an entry and a hello leave a device plugged during light entry and then plug it again |
| Histories.HistoryIsTheRun | windows-gaming/driver/src/controller.rs:105-484 | What the histories record does not influence the run: their controller is that of the plain sequence of calls, so the results below are about every run |
| Histories.ApplySends | windows-gaming/driver/src/controller.rs:105-484 | Each call sends one SystemWakeup exactly when it takes the agent from suspended to resuming, and one Ping exactly when it starts to wait for an answer |
| Histories.AgentMoves | windows-gaming/driver/src/controller.rs:105-227 | Which calls can bring the agent into each state: up only by hello or pong, pinging and down only by the timer, suspended only by QEMU's report |
| Histories.WaiterMoves | windows-gaming/driver/src/controller.rs:105-388 | Only a suspend call and QEMU's report touch the waiters |
| Histories.AdvanceKeepsWaiters | windows-gaming/driver/src/controller.rs:184-190 | Every call conserves the waiters: completed ones followed by pending ones are all of them in call order, and none is pending while suspended |
| Histories.AlwaysCounted | windows-gaming/driver/src/controller.rs:105-354 | Over every run: at most one SystemWakeup since the latest suspension and none while suspended; a Ping outstanding exactly while pinging; waiters conserved in order |
| Histories.DownOnlyAfterUnansweredPing | windows-gaming/driver/src/controller.rs:105-126 | The agent is declared down only by the timer, and only if exactly one Ping was sent since the latest hello or pong |
| Histories.ServedIffSuspendedSince | windows-gaming/driver/src/controller.rs:184-190 | A waiter is completed if and only if QEMU reported a suspension after its call, and is otherwise still pending |
| Entries.HelloAttachesOnce | windows-gaming/driver/src/controller.rs:155-176 | Whatever a hello has to complete, an awaited upgrade, a full or a light wake-up or several of them, it amounts to at most one attach |
| Entries.HelloRegistersHotkeys | windows-gaming/driver/src/controller.rs:142-146 | Every hello first registers every hotkey under the index by which the agent will report it |
| Entries.WakeUpLasts | windows-gaming/driver/src/controller.rs:213-284 | Nothing but a hello, a suspending message or QEMU's report ends a wake-up, changes what it is for, or sends another one |
| Entries.HelloCompletesWakeUp | windows-gaming/driver/src/controller.rs:157-176 | A hello ends a full wake-up in full entry and a light one not detached |
| Entries.EntrySurvivesWakeUp | windows-gaming/driver/src/controller.rs:134-284 | An entry asked for during suspension is in place after the next hello, and exactly one wake-up has been sent by then, whatever is called in between short of the machine being suspended again |
| Entries.TemporaryEntryEndsIff | windows-gaming/driver/src/controller.rs:105-379 | The exact calls that end a temporary entry; action hotkeys are ignored meanwhile |
| Entries.OwnerIsTold | windows-gaming/driver/src/controller.rs:297-437 | Only the owner of a temporary entry is notified: of mouse movements over the edge, and of the full entry that replaces it |
| Entries.ApplyReleases | windows-gaming/driver/src/controller.rs:286-379 | A call that ends a light entry, a temporary entry or an awaited upgrade first tells the machine to release all keys, if and only if it does not replace a temporary entry by a full one; and none enters, or makes an entry full, without having the agent release the modifiers |
| Entries.AgentLossReturnsDevices | windows-gaming/driver/src/controller.rs:107-119 | When the agent is given up, a full or temporary entry ends and a light entry stays untouched |
| Automaton.ApplyFollows | windows-gaming/driver/src/controller.rs:105-437 | Every call but a backup request refines an independent automaton over the six agent and five entry states, and sends exactly what follows from the transition: to the agent, to the machine and to the input devices |
| Automaton.BackupMovesNothing | windows-gaming/driver/src/controller.rs:439-484 | A backup request moves neither state and sends nothing but its commands |
| Outcomes.EntryEnters | windows-gaming/driver/src/controller.rs:213-235 | With the agent there, whoever asks to enter, by request, attempt or hotkey, enters fully, and so does every forced entry; from any other entry state exactly the present devices that are not permanent are then plugged |
| Outcomes.ExitLeaves | windows-gaming/driver/src/controller.rs:357-379 | Whoever asks to leave, the agent going to sleep included, leaves: nothing stays plugged or grabbed |
| Outcomes.LightEntryLights | windows-gaming/driver/src/controller.rs:274-283 | A light entry is there, with the input grabbed, unless the machine sleeps or is about to |
| Outcomes.AwaitedUpgradeCompletes | windows-gaming/driver/src/controller.rs:222-225 | An entry asked for while the agent is down grabs the input at once and is full with the next hello, whatever is called in between short of another entry or an exit |
| Outcomes.RequestSwitches | windows-gaming/driver/src/control/mod.rs:47-55 | In which entry state each control request leaves the driver |
| Outcomes.RequestTells | windows-gaming/driver/src/control/mod.rs:47-79 | What the other requests send: shutdown to the agent or the machine, suspend to the agent, one snapshot or commit for each due disk |
| Outcomes.ConnectionFollows | windows-gaming/driver/src/control/mod.rs:33-78 | Exactly when a connection is closed, has a temporary entry, waits, and is told that it has entered |
| Outcomes.TemporaryOnlyExits | windows-gaming/driver/src/control/mod.rs:33-45 | A connection with a temporary entry can do nothing but end one |
| Outcomes.RequestIsCalled | windows-gaming/driver/src/control/mod.rs:30-79 | A request changes its own connection and no other |
| Outcomes.MessageSwitches | windows-gaming/driver/src/clientpipe/mod.rs:60-102 | What each message of the agent does |
| Outcomes.TickPings | windows-gaming/driver/src/clientpipe/mod.rs:71-76 | A tick pings, gives the agent up, or ends its timer |
| Outcomes.TerminationShutsDown | windows-gaming/driver/src/lib.rs:146-149 | A termination signal shuts down through the agent if it is there, through ACPI otherwise |
| Outcomes.ForwarderLeaves | windows-gaming/driver/src/control/mod.rs:69-75 | The end of a forwarding task ends the temporary entry and is announced |
| Outcomes.SleepAsks | windows-gaming/driver/src/sleep_inhibitor.rs:49-55 | A sleep signal asks the agent to suspend unless it sleeps or is about to, and waits unless it sleeps |
| Suspension.ApplyRequests | windows-gaming/driver/src/controller.rs:339-354 | A call sends one Suspend exactly if it has to wait and the agent is not suspending already; no other call sends any |
| Suspension.AlwaysRequested | windows-gaming/driver/src/controller.rs:184-190 | Over every run: while anyone waits, a Suspend has been sent, or the agent has announced it, since the latest report of QEMU |
| DriverModel.SleepIsRequested | windows-gaming/driver/src/sleep_inhibitor.rs:49-55 | So in particular while a sleep signal waits |
| Controllers.OpenedAreAllNodes | windows-gaming/driver/src/libinput.rs:107-151 | Every input node found of a device that is not permanent is opened once, and none of another |
| Controllers.Input.Suspend | windows-gaming/driver/src/libinput.rs:94-98 | Every device handle is given back |
| Controllers.Input.Resume | windows-gaming/driver/src/libinput.rs:100-153 | Handles are added for exactly the input nodes found of configured devices that are not permanent, and none of a permanent device is ever held |
| Controllers.NothingHeldOutsideLight | windows-gaming/driver/src/libinput.rs:94-98 | With the invariants that every call keeps, the driver holds no handle of an input device outside the light states |
| Controllers.Controller.constructor | windows-gaming/driver/src/controller.rs:78-103 | The controller starts down, detached, without waiters |
| Controllers.Controller.GaPing | windows-gaming/driver/src/controller.rs:105-126 | The timer's call and its answer agree with the transition system |
| Controllers.Controller.GaHello | windows-gaming/driver/src/controller.rs:134-177 | Hotkeys are registered one by one; the state before decides what is completed and whether a timer is needed |
| Controllers.Controller.QemuSuspended | windows-gaming/driver/src/controller.rs:184-190 | All waiters are served in order, none is left |
| Controllers.Controller.GaHotkey | windows-gaming/driver/src/controller.rs:192-210 | Invalid ids, commands and hotkeys during a temporary entry change nothing; actions do what they name |
| Controllers.Controller.IoAttach | windows-gaming/driver/src/controller.rs:213-228 | An entry in each state of the agent |
| Controllers.Controller.TemporaryEntry | windows-gaming/driver/src/controller.rs:237-250 | Succeeds exactly if the agent is there and nothing is attached |
| Controllers.Controller.LightAttach | windows-gaming/driver/src/controller.rs:259-284 | A light entry in each pair of states |
| Controllers.Controller.IoForceAttach | windows-gaming/driver/src/controller.rs:286-329 | A full entry: light states released first, then devices plugged |
| Controllers.Controller.PlugDevices | windows-gaming/driver/src/controller.rs:307-326 | Sorting by bus and enumerating each group adds each present non-permanent device at the slot of its rank |
| Controllers.Controller.Suspend | windows-gaming/driver/src/controller.rs:339-354 | Resolved at once exactly if suspended; otherwise a waiter is queued last |
| Controllers.Controller.IoDetach | windows-gaming/driver/src/controller.rs:357-379 | Light states release input and keys, full entry removes every non-permanent device |
| Controllers.Controller.BackupMode | windows-gaming/driver/src/controller.rs:439-484 | One command and one fresh ack per due disk; the acks are returned in order |
| DriverModel.StepKeepsOwner | windows-gaming/driver/src/control/mod.rs:29-73 | Among any number of connections, a temporary entry belongs to one whose temp_entry flag is set |
| DriverModel.StepKeepsInvariant | windows-gaming/driver/src/control/mod.rs:22-84 | Every event, of any source, keeps the joint invariant of controller, waiters, pings, wake-ups, connections and sleep signal |
| DriverModel.EveryRunKeepsInvariant | windows-gaming/driver/src/lib.rs:103-163 | The joint invariant holds in every run of the whole driver |
| DriverModel.ExclusiveUnlessLost | windows-gaming/driver/src/controller.rs:213-379 | Exclusive ownership over every run of the whole driver in which no event is the losing call |
| DriverModel.LockDroppedIffSuspended | windows-gaming/driver/src/sleep_inhibitor.rs:41-62 | The inhibitor lock is dropped exactly if Windows is suspended when the sleep signal comes, or QEMU has reported suspension since and the signal goes on |
| DriverModel.LockTakenOnWakeUp | windows-gaming/driver/src/sleep_inhibitor.rs:55-58 | A lock that was dropped is taken again exactly when the host has woken up |
| DriverModel.SleepGoesOnIffSuspended | windows-gaming/driver/src/sleep_inhibitor.rs:49-55 | A waiting sleep signal can go on if and only if QEMU has reported suspension since, and then frees the lock |
| DriverModel.StepKeepsOneTimer | windows-gaming/driver/src/clientpipe/mod.rs:65-78 | At most one ping timer, and one whenever the agent is up or pinging, survives an event if and only if it is not a hello in the two upsetting situations |
| DriverModel.OneTimerUnlessUpset | windows-gaming/driver/src/clientpipe/mod.rs:65-78 | So over every run without such a hello |
| DriverModel.TimersCanBeUpset | windows-gaming/driver/src/controller.rs:164-176 | From the start, runs to two timers and to an agent that is up without a timer |
| Driver.ControlConnection.OnRequest | windows-gaming/driver/src/control/mod.rs:30-79 | Each request makes the call it stands for, a temporary entry only ever exits, and the connection's flags follow |
| Driver.ControlConnection.EnterTemporarily | windows-gaming/driver/src/control/mod.rs:55-76 | The flag is set and the connection told exactly if the entry succeeds; otherwise the connection is closed |
| Driver.ControlConnection.Forward | windows-gaming/driver/src/control/mod.rs:47-79 | The requests without a temporary entry make their call and leave the connection alone; a backup request returns the acks to await |
| Driver.ControlConnection.OnForwarderEnd | windows-gaming/driver/src/control/mod.rs:69-75 | The end of the forwarding task exits a temporary entry |
| Driver.Clientpipe.OnMessage | windows-gaming/driver/src/clientpipe/mod.rs:60-102 | Each agent message makes its call; a hello starts a timer exactly if asked to |
| Driver.Clientpipe.OnTick | windows-gaming/driver/src/clientpipe/mod.rs:71-76 | A timer ends exactly when the ping call says so |
| Driver.SleepInhibitor.OnPrepareForSleep | windows-gaming/driver/src/sleep_inhibitor.rs:42-57 | Going to sleep suspends Windows and frees the lock at once only if it already was suspended; waking takes the lock again |
| Driver.SleepInhibitor.OnSuspended | windows-gaming/driver/src/sleep_inhibitor.rs:52-54 | The awaited waiter's completion frees the lock |
| MonitorModel.HeldKeysArePressed | windows-gaming/driver/src/monitor/mod.rs:126-153 | While QEMU executes everything, after every prefix of the queue the held keys are those the guest sees pressed, and ReleaseAllKeys empties both |
| MonitorModel.KeyUpsRelease | windows-gaming/driver/src/monitor/mod.rs:149-153 | Releasing keys leaves pressed exactly the others, in whatever order they are released |
| MonitorModel.EndsIff | windows-gaming/driver/src/monitor/mod.rs:191-213 | The command loop ends exactly with a broken socket, a report without a commit, or a file that cannot be removed |
| Monitors.Monitor.Handle | windows-gaming/driver/src/monitor/mod.rs:127-213 | One turn of the command loop, with every outcome, agrees with the transition function |
| Monitors.Monitor.NoteKeys | windows-gaming/driver/src/monitor/mod.rs:139-145 | The key events of a command are noted one by one |
| Backup.RequestCoversDueDisks | windows-gaming/driver/src/controller.rs:439-474 | A request sends exactly one command for each disk whose snapshot file is configured and, to leave, exists or, to enter, does not, and none for any other; the command names this disk and file |
| Backup.ApplyAddsPlain | windows-gaming/driver/src/controller.rs:105-388 | No other call sends a snapshot command or a job report |
| Backup.StepKeepsInvariant | windows-gaming/driver/src/monitor/mod.rs:154-203 | Every event keeps: acks are unique, an answered ack belongs to a command that succeeded, a pending commit to one that was executed, and a request has only passed answered acks |
| Backup.EveryRunKeepsInvariant | windows-gaming/driver/src/monitor/mod.rs:110-213 | The same over every run, with any interleaving of requests, other calls, failures and ready jobs |
| Backup.AckOnlyIfAllSucceeded | windows-gaming/driver/src/control/mod.rs:85-93 | An Ack reaches a connection only if every snapshot of its request was taken, and every commit was issued, followed by a completed job on its disk and by the removal of its file |
| BackupJobs.ReadyJobFindsCommit | windows-gaming/driver/src/monitor/mod.rs:189-192 | While QEMU keeps job names apart, a report of a ready job always finds its pending commit |
| BackupJobs.StepKeepsOwnCommit | windows-gaming/driver/src/monitor/mod.rs:167-171 | That the commit an active job will answer is the one that started it survives a step if and only if no commit is refused over an active job on its disk |
| BackupJobs.OwnCommitUnlessTakenOver | windows-gaming/driver/src/monitor/mod.rs:167-203 | So over every run without such a refusal |
| BackupAnswers.EveryRunKeepsAnswering | windows-gaming/driver/src/monitor/mod.rs:154-203 | Over every run: the ack of every executed command has been answered, dropped, or waits for a job, and exactly one of these; the ack of a snapshot is answered if it was taken and dropped if not; a request gives up only over a dropped ack |
| BackupAnswers.TakenIsAcked | windows-gaming/driver/src/controller.rs:439-461 | In every run, a request to enter backup mode all of whose snapshots have been taken gets its Ack by polling |
| BackupAnswers.CompletedAreAlwaysAnswered | windows-gaming/driver/src/monitor/mod.rs:189-203 | In every run with requests in turn, the ack of a commit whose own job completed is answered, unless the removal of its file failed |
| BackupAnswers.DoneIsAcked | windows-gaming/driver/src/controller.rs:462-484 | In such a run, a request all of whose commands are done gets its Ack by polling |
| BackupAnswers.PollGivesUpIff | windows-gaming/driver/src/controller.rs:476-483 | A waiting request gives up exactly over a dropped ack and goes on waiting exactly over an open one |
| BackupTurns.StepKeepsTurns | windows-gaming/driver/src/controller.rs:462-474 | That at most one commit per disk is outstanding survives a step if and only if a request to leave backup mode is made in turn; no other event and no answer of QEMU endangers it |
| BackupTurns.StepKeepsSound | windows-gaming/driver/src/monitor/mod.rs:154-203 | A step with requests in turn keeps, among the rest, that every answered commit was completed by its own job |
| BackupTurns.AckOnlyForOwnCommits | windows-gaming/driver/src/controller.rs:462-484 | In every run in which all requests are made in turn, an Ack for leaving backup mode means for every commit: QEMU accepted it, no other job of the disk started or completed before its own did, and its file was removed after that |
| BackupUntimely.UntimelyIsAcked | windows-gaming/driver/src/monitor/mod.rs:167-203 | From every sound state of a working monitor, a request for any number of disks that is not in turn can receive its Ack although one of its commits was never accepted, by events in which QEMU keeps job names apart; the events are constructed |
| BackupUntimely.SafeIffInTurn | windows-gaming/driver/src/controller.rs:462-484 | In every sound state: the Ack of a request to leave backup mode means, in all continuations without another request, that each of its commits was completed by its own job, if and only if the request is made in turn or the monitor task has ended; the same for continuations in which QEMU keeps job names apart |
| BackupUntimely.SecondRequestTakesOver | windows-gaming/driver/src/monitor/mod.rs:167-171 | A run from the start in which the second of two requests receives its Ack although its only commit was refused |
| BackupJobs.PollsReachAck | windows-gaming/driver/src/controller.rs:476-483 | Awaiting the acks one after the other reaches the Ack if all are answered, and only then |
| Hotkeys.MatchesIffMaskContained | windows-gaming/common/src/hotkeys/mod.rs:41-48 | A binding matches exactly when keys are equal and its Windows mask without NOREPEAT is bitwise contained in the mask of the held modifiers, for any order and duplicates |
| Hotkeys.FoldMaskHas | windows-gaming/common/src/hotkeys/mod.rs:45-48 | A bit of the folded mask is set exactly if its modifier is listed |
| Hotkeys.Matching | windows-gaming/common/src/hotkeys/mod.rs:81-83 | The strictly increasing list of exactly the matching bindings |
| Hotkeys.KeyboardState.InputLinux | windows-gaming/common/src/hotkeys/mod.rs:69-93 | Unknown codes change nothing; modifiers are pushed once and swap-removed; the hotkeys returned are, in ascending order, exactly the bindings for the key whose modifiers are all held, if it is pressed and no modifier |
| Hotkeys.WindowsConstants | windows-gaming/common/src/hotkeys/mod.rs:9-15 | The numbers that Windows gives to the modifiers and to the suppression of repeats |
| Hotkeys.ModifierKeys | windows-gaming/common/src/hotkeys/mod.rs:17-27 | The left and the right key of each modifier, and no other |
| Hotkeys.SwapRemoveDropsOne | windows-gaming/common/src/hotkeys/mod.rs:77-79 | Swap-removal removes exactly one modifier, though it reorders |
| Hotkeys.ModifiersAreThoseLastPressed | windows-gaming/common/src/hotkeys/mod.rs:69-80 | Over any events the vector is free of duplicates and holds a modifier exactly if the last event on one of its keys was a press |
| InputHandling.InputHandler.OnKeyEvent | windows-gaming/driver/src/libinput.rs:247-272 | A key event runs the hotkeys it matches, each with the surroundings of its moment, and is forwarded only if there are none |
| InputHandling.ExitPressDetaches | windows-gaming/driver/src/libinput.rs:254-261 | A press matching only exit hotkeys in a light state releases the devices and all keys and is not forwarded |
| InputHandling.ExitPressLeavesNoKeys | windows-gaming/driver/src/controller.rs:361-367 | Once QEMU has executed the queue up to it, the guest sees no key pressed |
| HeldKeys.StepKeepsNoneHeld | windows-gaming/driver/src/controller.rs:286-379 | That outside the light states the queue leaves no key held survives a call or a forwarded event if and only if the call does not replace a temporary entry in which a key is held by a full one, and the event forwards no press outside the light states |
| HeldKeys.NoneHeldUnlessLeft | windows-gaming/driver/src/controller.rs:286-379 | So over every run without such a step |
| HeldKeys.NoKeyStaysPressed | windows-gaming/driver/src/monitor/mod.rs:126-153 | Once QEMU has executed the queue of such a run and the driver is in no light state, the guest sees no key pressed and the driver believes none held |
| HeldKeys.KeysCanStayHeld | windows-gaming/driver/src/controller.rs:297-300 | A temporary entry, a key pressed in it and a forced entry leave the key held in full entry |
| KeyRuns.ModifiersAreTracked | windows-gaming/driver/src/libinput.rs:195-250 | Over every run of events the tracked modifiers are those of its key events |
| KeyRuns.KeyIsCallsOrForward | windows-gaming/driver/src/libinput.rs:247-272 | A key event calls, in ascending order, exactly the hotkeys bound to the key with modifiers that are all held, if it is a press; if there are none and the key has a code, it forwards exactly this key |
| KeyRuns.ReleaseCallsNothing | windows-gaming/common/src/hotkeys/mod.rs:81-84 | Releasing a key calls no hotkey and is forwarded |
| KeyRuns.StepKeepsNoneHeld | windows-gaming/driver/src/libinput.rs:247-272 | That outside the light states no key is held survives a key event if and only if it is no press that is forwarded outside the light states; hotkeys and the mouse never endanger it |
| KeyRuns.NoKeyStaysPressed | windows-gaming/driver/src/libinput.rs:195-272 | Over every run of key events, mouse events and calls without such a press and without filling a temporary entry in which a key is held: once QEMU has executed the queue and the driver is in no light state, no key is pressed |
| Usb.SortByBus | windows-gaming/driver/src/qemu.rs:211 | The stable sort: all devices, by bus and then in their order |
| Usb.BusesInOrder | windows-gaming/common/src/config.rs:36-42 | The order of the buses |
| Usb.CountingIsRank | windows-gaming/driver/src/qemu.rs:211-217 | Counting from zero in each group of the sorted devices yields the number of earlier devices on the same bus |
| Usb.ControllerCountIsLeast | windows-gaming/driver/src/qemu.rs:188-197 | n controllers hold all users of a bus, which on xhci are three more than the devices, if and only if n is at least the number created |
| Usb.UsablePortsAreCreated | windows-gaming/driver/src/qemu.rs:205-208 | The ports that slots are computed with are those with which the controllers are created, or that their kind has |
| Usb.OccupantsCountUp | windows-gaming/driver/src/qemu.rs:214-237 | Controllers are filled one after the other, ports from 1 upwards: each device at the number of devices before it on its bus, then the mouse, then the keyboard |
| Usb.SlotsDiffer | windows-gaming/driver/src/qemu.rs:213-241 | No two of all devices, mouse and keyboard share a slot |
| Usb.SlotsExist | windows-gaming/driver/src/qemu.rs:188-241 | Each of their slots lies on a controller that was created and has a usable port |
| Usb.CreateUsbBuses | windows-gaming/driver/src/qemu.rs:188-204 | As many controllers as counted, numbered from 0 |
| Usb.BootGroup | windows-gaming/driver/src/qemu.rs:213-229 | One group: each present permanent device is placed at the slot of its rank, and the counter ends behind the last rank |
| Usb.BootUsbArgs | windows-gaming/driver/src/qemu.rs:211-246 | The whole boot path: all groups, and mouse and keyboard at the first two free slots of xhci |
| Usb.LastGroup | windows-gaming/driver/src/qemu.rs:214-233 | When a group ends its counter is the number of devices on the bus |
| Usb.XhciComesLast | windows-gaming/driver/src/qemu.rs:231-241 | Mouse and keyboard are placed exactly if some device sits on xhci, behind all devices |
| UsbAttach.BootNamesOwnSlots | windows-gaming/driver/src/qemu.rs:211-241 | The boot path places each permanent device present, by its address, and mouse and keyboard in the slot that belongs to each |
| UsbAttach.LaterNamesOwnSlots | windows-gaming/driver/src/controller.rs:308-326 | The hot-plug path adds each other device present, by its id and address, in the slot that belongs to it |
| UsbAttach.EmulatedIffXhci | windows-gaming/driver/src/qemu.rs:231-241 | Mouse and keyboard follow all devices exactly if some device is on xhci |
| UsbAttach.BootAndHotplugNeverCollide | windows-gaming/driver/src/controller.rs:308-326 | Whatever is present at boot and later, no slot is named twice by either or both paths, and every slot exists |
| RootPorts.AssignRootPorts | windows-gaming/driver/src/qemu.rs:160-184 | Fails exactly on a malformed address; otherwise root ports 0, 1, .. are declared once each, before any use, two devices share one exactly if the texts before their first dots agree, and what is behind the dot is the function |
| RootPorts.PlaceDevice | windows-gaming/driver/src/qemu.rs:174-182 | One device keeps that layout, whether its address is new or known |
| RootPorts.ListedByFirstOccurrence | windows-gaming/driver/src/qemu.rs:175-179 | Addresses are numbered in the order of their first occurrence |
| RootPorts.SharedIffSameAddress | windows-gaming/driver/src/qemu.rs:174-179 | Two devices share a root port exactly when their addresses agree before the first dot |
| RootPorts.FunctionsOfADeviceShare | windows-gaming/driver/src/qemu.rs:174-182 | The same of two devices and any positions that are the first dots of their addresses |
| RootPorts.Dot | windows-gaming/driver/src/qemu.rs:174 | The split happens at the first dot |
| Streams.AnyCutDecodes | windows-gaming/driver/src/clientpipe/mod.rs:37 | For every decoder that takes complete frames exactly and leaves incomplete ones alone, any cut of a stream of frames decodes to its items with nothing left over |
| Streams.FeedPrefix | windows-gaming/driver/src/clientpipe/mod.rs:37 | After any cut of any prefix of a stream, the frames up to some k have been read in order, and a complete frame waits behind them only if the last one meant nothing to the reader |
| Streams.AnyCutStaysInStep | windows-gaming/driver/src/clientpipe/mod.rs:37 | With frames among them that mean nothing to the reader, any cut loses, reorders and misreads nothing: what is not yet read is exactly in the buffer, and only behind such a frame |
| Framing.UndecodableOnlyDelays | windows-gaming/driver/src/clientpipe/codec.rs:19-41 | So for streams of canonical frames with any payloads, undecodable ones included |
| Streams.AnyCutIsReadIff | windows-gaming/driver/src/clientpipe/mod.rs:37 | All frames that have arrived are read, for every cut, if and only if every frame but the last means something to the reader |
| Framing.AllAreReadIffDecodable | windows-gaming/driver/src/clientpipe/codec.rs:19-41 | So for canonical frames: if and only if every payload but the last is decodable |
| Framing.UndecodableHoldsUp | windows-gaming/driver/src/clientpipe/codec.rs:37-40 | An undecodable frame does hold up the complete frames behind it until more bytes arrive |
| Framing.OverlongIsCutShort | windows-gaming/driver/src/clientpipe/codec.rs:25-36 | A zero length in two bytes: only one byte is removed |
| Framing.VarintRoundTrip | guest-agent/src/clientpipe_codec.rs:49-54 | Decoding undoes encoding for every 64-bit length, whatever follows |
| Framing.DecodedIsBase128 | windows-gaming/driver/src/clientpipe/codec.rs:25 | For arbitrary bytes: decoding succeeds exactly if a varint of at most 64 bits ends, and yields its groups of seven bits, the first counting least |
| Framing.CanonicalIsShortest | windows-gaming/driver/src/clientpipe/codec.rs:25-28 | For arbitrary bytes the canonical length of a decoded value is at most the number of bytes read, and equal exactly if these are canonical |
| Framing.Consumed | windows-gaming/driver/src/clientpipe/codec.rs:27-36 | The split never goes past the buffer |
| Framing.DecodeFrame | windows-gaming/driver/src/clientpipe/codec.rs:25-40 | A canonical frame is taken exactly, also if its payload is undecodable, so that the buffer starts at the next frame |
| Framing.DecodeCutFrame | windows-gaming/driver/src/clientpipe/codec.rs:25-36 | An incomplete frame is left alone |
| Framing.DecodeArbitrary | windows-gaming/driver/src/clientpipe/codec.rs:19-41 | For arbitrary bytes only a prefix is removed, none without a frame, and exactly the frame if and only if its length is canonical |
| Framing.MessagesSurviveAnyCut | windows-gaming/driver/src/clientpipe/codec.rs:19-58 | Any messages, framed, concatenated and cut anywhere, are decoded exactly and nothing is left |
| Framing.Codec.Decode | guest-agent/src/clientpipe_codec.rs:21-43 | Decoding in place, on both sides, takes from the buffer what the specification says |
| Framing.Codec.Encode | windows-gaming/driver/src/clientpipe/codec.rs:47-58 | Encoding appends exactly one frame |
| ControlCodec.I32RoundTrip | windows-gaming/driver/src/control/codec.rs:53-54 | Signed 32-bit numbers and their four little-endian bytes determine each other |
| ControlCodec.LeIsPositional | windows-gaming/driver/src/control/codec.rs:53-54 | What four little-endian bytes mean |
| ControlCodec.RequestNumbers | windows-gaming/driver/src/control/codec.rs:42-61 | The byte of each request |
| ControlCodec.ParsedIff | windows-gaming/driver/src/control/codec.rs:40-71 | Exactly when a request is read, and that nothing is taken otherwise |
| ControlCodec.ParsedIsFrame | windows-gaming/driver/src/control/codec.rs:40-71 | What is decoded is what was taken: no bytes but a request's own stand for it |
| ControlCodec.ParseCutFrame | windows-gaming/driver/src/control/codec.rs:50 | An incomplete request is left alone |
| ControlCodec.RequestsSurviveAnyCut | windows-gaming/driver/src/control/codec.rs:40-71 | Any valid requests, cut anywhere, are decoded exactly and nothing is left |
| ControlCodec.ClientIsUnderstood | windows-gaming/src/main.rs:219-230 | The driver decodes each byte of the command line client to the command meant; only the temporary entry has none |
| ControlCodec.ClientRecognisesAck | windows-gaming/src/main.rs:234-240 | The byte 4 for which the client waits is the Ack and nothing else; the layout of the other notifications |
| ControlCodec.NotificationsAreDetermined | windows-gaming/driver/src/control/codec.rs:77-91 | Different sequences of notifications never look the same on the socket |
| ControlCodec.Codec.Decode | windows-gaming/driver/src/control/codec.rs:40-71 | Decoding in place agrees with the specification, unknown bytes included |
| ControlCodec.Codec.Encode | windows-gaming/driver/src/control/codec.rs:77-91 | Encoding appends exactly one notification |
| Cursors.AvailableIsPrefix | zerocost-clipboard/src/windows/offer.rs:216-228 | fill_buf yields a prefix of the rest of the concatenation, empty exactly at or past the end, also with empty buffers in between |
| Cursors.AvailableIsRestOfBuffer | zerocost-clipboard/src/windows/offer.rs:216-228 | More precisely it yields the whole rest of the buffer that the position lies in |
| Cursors.StepIsFlat | zerocost-clipboard/src/windows/offer.rs:197-244 | Every operation is one of a flat cursor over the concatenation if and only if its position fits |
| Cursors.SeekBelowStart | zerocost-clipboard/src/windows/offer.rs:235-243 | Seeking one before the start ends up at position 2^64 - 1, which no flat cursor does |
| Cursors.RunsAreFlat | zerocost-clipboard/src/windows/offer.rs:197-244 | So is every sequence of operations |
| Cursors.ReadToEndIsSuffix | zerocost-clipboard/src/windows/offer.rs:197-214 | Repeated non-empty reads end, having returned exactly the rest |
| Cursors.MultiCursor.Read | zerocost-clipboard/src/windows/offer.rs:198-213 | The bytes copied, the rest of the target left alone, the position advanced by as many |
| Cursors.MultiCursor.FillBuf | zerocost-clipboard/src/windows/offer.rs:216-228 | What is available at the position |
| Cursors.MultiCursor.Consume | zerocost-clipboard/src/windows/offer.rs:230-232 | The position advances modulo 2^64 |
| Cursors.MultiCursor.Seek | zerocost-clipboard/src/windows/offer.rs:235-243 | The position relative to start, position or total length, modulo 2^64 |
| Listeners.KeptInOrder | windows-eventloop/src/lib.rs:139-147 | Exactly the listeners that did not ask for removal stay, in their order |
| Listeners.WindowData.HandleDefault | windows-eventloop/src/lib.rs:138-151 | Removing by index on the way down never leaves the range and leaves exactly these; the reply is that of the latest-registered listener that gave one |

## Left out

- AckOnlyIfAllSucceeded: holds for every run and therefore counts a commit as issued even if QEMU refused it; `BackupTurns.AckOnlyForOwnCommits` says more, on the exact condition of `BackupUntimely.SafeIffInTurn`.
- ReadyJobFindsCommit: a job that dies before it is reported ready is modelled; one that dies afterwards is a job whose completion fails, and its name counts as taken until then.
- HeldKeysArePressed: nothing is claimed about pressed keys once QEMU fails to execute an input command.
- ExitPressLeavesNoKeys: speaks of the queue up to the press; key events that libinput has delivered but the handler has not read yet may follow it, which is the second case of `KeyRuns.LeavesKeyHeld`.
- OwnerKnows and `StepKeepsOwner`: only that the owner's flag is set; the code lets any connection that has the flag exit a temporary entry, whoever owns it.
- Controllers.Input.Resume: how many input nodes of a device are found and can be opened is arbitrary; failures of udev or libinput that end the driver are not modelled.
- Failures that end the driver (a broken udev, a closed queue, a file that cannot be removed) stop the monitor task in the model of the monitor and are not modelled elsewhere; nothing is claimed about what follows.
- The forwarding task of a temporary entry may end at any time in the model, which allows more runs than the closing of its channel or socket does.
- The payload encoding of protocol buffers: an arbitrary pair of functions, the second undoing the first.
- QMP's JSON, the serialisation of the configuration and the D-Bus messages.
- The finite key code tables and numbers behind them: arbitrary functions.
- Clipboard forwarding between X11 or Wayland and Windows, delayed rendering and image headers: mostly platform calls, with a single slot for requests.
- Hooks, commands run by hotkeys, systemd notification, the debug console and logging: no effect on the state modelled.
- QEMU's other arguments (storage, network, sound, display, cpu pinning) and the unbinding of PCI devices.
- Window messages other than those passed to the listeners, and the listeners' concurrency: their answers are given as a list.
