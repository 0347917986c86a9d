/** That Windows is told to suspend: nobody waits for a suspension that was not asked for. */
module Suspension {
  import opened Common
  import opened Messages
  import opened ControllerModel
  import opened Histories
  import opened Automaton

  lemma {:induction false} RequestsAppend(queue: seq<GaCmdOut>, more: seq<GaCmdOut>)
    ensures SuspendRequests(queue + more) == SuspendRequests(queue) + SuspendRequests(more)
  {
    if more == [] {
      assert queue + more == queue;
    } else {
      var last := |more| - 1;
      assert (queue + more)[..|queue| + last] == queue + more[..last];
      RequestsAppend(queue, more[..last]);
    }
  }

  lemma {:induction false} NoRequests(queue: seq<GaCmdOut>)
    requires forall i :: 0 <= i < |queue| ==> !queue[i].Suspend?
    ensures SuspendRequests(queue) == 0
  {
    if queue != [] { NoRequests(queue[..|queue| - 1]); }
  }

  // A call sends one request exactly if it has to wait and the agent is not suspending
  // already; no other call sends any.
  lemma ApplyRequests(cfg: Config, c: Controller, op: Op)
    ensures SuspendRequests(Apply(cfg, c, op).clientpipe) ==
            SuspendRequests(c.clientpipe)
            + (if op.OpSuspend? && !c.ga.Suspended? && !c.ga.Suspending? then 1 else 0)
  {
    if op.OpBackup? {
      BackupMovesNothing(cfg, c, op.existing, op.leave);
    } else {
      ApplyFollows(cfg, c, op);
      var told := Told(cfg, c, op, Apply(cfg, c, op).io);
      RequestsAppend(c.clientpipe, told);
      if op.OpSuspend? {
        assert told == if Asleep(c.ga) then [] else [GaCmdOut.Suspend];
      } else {
        NothingElseRequests(cfg, c, op, Apply(cfg, c, op).io);
        NoRequests(told);
      }
    }
  }

  lemma NothingElseRequests(cfg: Config, c: Controller, op: Op, after: IoState)
    requires !op.OpSuspend?
    ensures forall i :: 0 <= i < |Told(cfg, c, op, after)| ==> !Told(cfg, c, op, after)[i].Suspend?
  {
    RegistrationsAreNoPings(cfg.hotkeys);
  }

  // Whoever waits, waits for a suspension that was requested, or that the agent has
  // announced, since the latest one.
  ghost predicate WaitsForRequested(h: History) {
    && h.requestsBefore <= SuspendRequests(h.c.clientpipe)
    && (h.c.ga.Suspending? ==> h.suspending)
    && (h.c.suspendSenders != [] ==> h.requestsBefore < SuspendRequests(h.c.clientpipe) || h.suspending)
  }

  lemma AdvanceKeepsRequested(cfg: Config, h: History, op: Op)
    requires WaitsForRequested(h)
    ensures WaitsForRequested(Advance(cfg, h, op))
  {
    ApplyRequests(cfg, h.c, op);
    if op.OpBackup? {
      BackupMovesNothing(cfg, h.c, op.existing, op.leave);
    } else {
      ApplyFollows(cfg, h.c, op);
    }
    if !op.OpQemuSuspended? && !(op.OpSuspend? && !h.c.ga.Suspended?) { WaiterMoves(cfg, h.c, op); }
  }

  lemma {:induction false} AlwaysRequested(cfg: Config, ops: seq<Op>)
    ensures WaitsForRequested(AdvanceAll(cfg, START, ops))
  {
    if ops != [] {
      AlwaysRequested(cfg, ops[..|ops| - 1]);
      AdvanceKeepsRequested(cfg, AdvanceAll(cfg, START, ops[..|ops| - 1]), ops[|ops| - 1]);
    }
  }
}
