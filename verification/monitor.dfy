/** The monitor task with the collections it changes in place. */
module Monitors {
  import opened Messages
  import opened Hotkeys
  import M = MonitorModel

  class Monitor {
    var heldKeys: set<Qcode>
    var pendingDiskCommits: map<nat, M.Commit>
    var running: bool
    // What the machine and the holders of the ack channels have seen.
    var delivered: seq<InputEvent>
    var sent: set<nat>
    var dropped: set<nat>
    var journal: seq<M.Entry>

    ghost function State(): M.Monitor
      reads this
    {
      M.Monitor(heldKeys, pendingDiskCommits, delivered, sent, dropped, journal, running)
    }

    constructor ()
      ensures State() == M.IDLE
    {
      heldKeys, pendingDiskCommits, running := {}, map[], true;
      delivered, sent, dropped, journal := [], {}, {}, [];
    }

    method Handle(cmd: QmpCommand, o: M.Outcome)
      modifies this
      ensures State() == M.Handle(old(State()), cmd, o)
    {
      var ok := o.result.Ok?;
      match cmd {
        case InputSendEvent(events) =>
          NoteKeys(events);
          if ok { delivered := delivered + events; }
        case ReleaseAllKeys =>
          heldKeys := {};
          if ok { delivered := delivered + M.KeyUps(o.drained); }
        case TakeSnapshot(disk, file, ack) =>
          journal := journal + [M.SnapshotTaken(ack, disk, file, ok)];
          if ok { sent := sent + {ack}; } else { dropped := dropped + {ack}; }
        case CommitSnapshot(disk, file, ack) =>
          if disk in pendingDiskCommits {
            // the overwritten entry takes its ack with it
            dropped := dropped + {pendingDiskCommits[disk].ack};
          }
          pendingDiskCommits := pendingDiskCommits[disk := M.Commit(file, ack)];
          journal := journal + [M.CommitIssued(ack, disk, file, ok)];
        case JobReady(disk) =>
          if disk !in pendingDiskCommits {
            running := false;
            return;
          }
          var commit := pendingDiskCommits[disk];
          pendingDiskCommits := pendingDiskCommits - {disk};
          journal := journal + [M.JobCompleted(disk, ok)];
          if ok {
            if !o.removed {
              dropped := dropped + {commit.ack};
              running := false;
              return;
            }
            journal := journal + [M.FileRemoved(commit.file)];
            sent := sent + {commit.ack};
          } else {
            dropped := dropped + {commit.ack};
          }
        case _ =>
      }
      running := !o.result.Broken?;
    }

    method NoteKeys(events: seq<InputEvent>)
      modifies this`heldKeys
      ensures heldKeys == M.HoldKeys(old(heldKeys), events)
    {
      var i := 0;
      while i < |events|
        invariant i <= |events|
        invariant heldKeys == M.HoldKeys(old(heldKeys), events[..i])
      {
        assert events[..i + 1][..i] == events[..i];
        match events[i] {
          case Key(key, true) => heldKeys := heldKeys + {key};
          case Key(key, false) => heldKeys := heldKeys - {key};
          case Pointer =>
        }
        i := i + 1;
      }
      assert events[..i] == events;
    }
  }
}
