/**
 Focus emulation in the managed browser (bud/src/browser/adapter.rs and screencast.rs).  Two things
 switch it on for a target: a capture, for its own duration, and a private stream, from a task of
 its own.  Each must switch it off again before anything else that depends on focus begins, although
 any browser command can fail, lose its acknowledgement, or be abandoned because the caller's future
 is dropped.

 The adapter's operations run one at a time, and every `await` of theirs is a call of `Await` here:
 it lets the stream tasks take any number of steps, lets targets disappear, and chooses without
 further restriction how the awaited operation ends.
 */
module CaptureFocus {
  import opened Wrappers

  type Target = string

  /** How an awaited browser operation ends. */
  datatype Fate =
    | Acknowledged
    | Rejected      // a definitive error response
    | Lost          // timeout or transport error: the operation may have happened
    | Dropped       // the caller abandoned the future: likewise, and nothing more runs

  /** How a method of the adapter ends. */
  datatype Status = Done | Failed | Abandoned

  /** The dedicated screenshot connection. */
  datatype Connection = Absent | Usable | Interrupted

  // ---------------------------------------------------------------------------
  // Orderly histories
  // ---------------------------------------------------------------------------

  /** What emulation may be on for: a capture of a target, or a private stream, by number. */
  datatype Holder = Capture(target: Target) | Stream(id: nat)

  /** `SwitchedOn` is a request to switch emulation on, whether or not it is ever answered. */
  datatype Event =
    | Begun(holder: Holder)
    | SwitchedOn(holder: Holder)
    | Over(holder: Holder)
    | HideBegun

  /** The lifetime that is open at the end of a history. */
  function OpenHolder(log: seq<Event>): Option<Holder> {
    if log == [] then None
    else
      match log[|log| - 1]
      case Begun(h) => Some(h)
      case Over(_) => None
      case _ => OpenHolder(log[..|log| - 1])
  }

  /** Nothing begins or hides while a lifetime is open, and emulation is only requested within one. */
  ghost predicate Allowed(e: Event, open: Option<Holder>) {
    match e
    case Begun(_) => open == None
    case HideBegun => open == None
    case SwitchedOn(h) => open == Some(h)
    case Over(h) => open == Some(h)
  }

  ghost predicate Orderly(log: seq<Event>) {
    forall i :: 0 <= i < |log| ==> Allowed(log[i], OpenHolder(log[..i]))
  }

  lemma OrderlySnoc(log: seq<Event>, e: Event)
    requires Orderly(log) && Allowed(e, OpenHolder(log))
    ensures Orderly(log + [e])
    ensures OpenHolder(log + [e])
         == if e.Begun? then Some(e.holder) else if e.Over? then None else OpenHolder(log)
  {
    var more := log + [e];
    assert more[..|log|] == log;
    forall i | 0 <= i < |log| ensures more[..i] == log[..i] && more[i] == log[i] {
    }
  }

  lemma {:induction false} OpenUntilOver(log: seq<Event>, i: nat, j: nat)
    requires Orderly(log) && i < j <= |log| && log[i].Begun?
    requires forall k :: i < k < j ==> log[k] != Over(log[i].holder)
    ensures OpenHolder(log[..j]) == Some(log[i].holder)
  {
    assert log[..j][..j - 1] == log[..j - 1];
    if j > i + 1 {
      OpenUntilOver(log, i, j - 1);
      assert Allowed(log[j - 1], OpenHolder(log[..j - 1]));
    }
  }

  /**
   Lifetimes never overlap: once a capture or a stream has begun, nothing else begins, no window is
   hidden, and emulation is requested for nothing else, before that lifetime is over.
   */
  lemma LifetimesApart(log: seq<Event>, i: nat, j: nat)
    requires Orderly(log) && i < j < |log| && log[i].Begun?
    requires log[j].Begun? || log[j].HideBegun? || log[j].holder != log[i].holder
    ensures exists k :: i < k < j && log[k] == Over(log[i].holder)
  {
    assert Allowed(log[j], OpenHolder(log[..j]));
    if forall k :: i < k < j ==> log[k] != Over(log[i].holder) {
      OpenUntilOver(log, i, j);
      assert false;
    }
  }

  // ---------------------------------------------------------------------------
  // Stream tasks
  // ---------------------------------------------------------------------------

  datatype Phase =
    | Prepared      // the configuration has been handed out, the task not started
    | Running       // started, emulation not yet requested
    | Focused       // emulation requested
    | Finished

  /** The cleanup cell that a task shares with the adapter. */
  datatype Cleanup = Pending | Confirmed | Unconfirmed

  /** `live` is the flag that the adapter's guard clears when it is dropped. */
  datatype Task = Task(phase: Phase, live: bool, cleanup: Cleanup)

  const NEW_TASK := Task(Prepared, true, Confirmed)

  datatype TaskEvent =
    | Start
    | Retire                                     // a page event or lost authority ends the stream
    | SwitchOn                                   // reads `live` and requests emulation
    | NoSession                                  // attaching failed: there is nothing to undo
    | CleanUp(stopped: bool, disabled: bool)     // which of the two commands were acknowledged
    | Fence                                      // the task ends without cleaning up

  predicate Enabled(task: Task, event: TaskEvent) {
    match event
    case Start => task.phase == Prepared
    case Retire => true
    case SwitchOn => task.phase == Running && task.live
    case NoSession => task.phase == Running
    case CleanUp(_, _) => task.phase == Running || task.phase == Focused
    case Fence => task.phase == Running || task.phase == Focused
  }

  function After(task: Task, event: TaskEvent): Task {
    match event
    case Start => task.(phase := Running, cleanup := Pending)
    case Retire => task.(live := false)
    case SwitchOn => task.(phase := Focused)
    case NoSession => Task(Finished, false, Confirmed)
    case CleanUp(stopped, disabled) => Task(Finished, false, if stopped && disabled then Confirmed else Unconfirmed)
    case Fence => Task(Finished, false, Unconfirmed)
  }

  /** What holds of a task, given whether emulation may be on for it and what the adapter remembers. */
  ghost predicate Sound(task: Task, on: bool, remembered: bool, guarded: bool) {
    && (on ==> task.phase == Focused || (task.phase == Finished && task.cleanup == Unconfirmed))
    && (task.cleanup == Pending <==> task.phase == Running || task.phase == Focused)
    && (task.phase == Prepared ==> task.cleanup == Confirmed)
    && (task.live ==> guarded)
    && (guarded ==> remembered)
    && (on || task.phase == Focused ==> remembered)
  }

  lemma TaskSound(task: Task, event: TaskEvent, on: bool, remembered: bool, guarded: bool)
    requires Sound(task, on, remembered, guarded) && Enabled(task, event)
    ensures Sound(After(task, event), (on && !(event.CleanUp? && event.disabled)) || event.SwitchOn?, remembered, guarded)
    ensures event.SwitchOn? ==> remembered
    ensures After(task, event).phase == Finished && task.phase != Finished ==>
      (After(task, event).cleanup == Confirmed <==> event == NoSession || event == CleanUp(true, true))
  {
  }

  /** The same of all tasks, whose numbers are their positions. */
  ghost predicate AllSound(tasks: seq<Task>, on: set<nat>, cleanup: Option<nat>, guard: Option<nat>) {
    && (forall id :: 0 <= id < |tasks| ==> Sound(tasks[id], id in on, cleanup == Some(id), guard == Some(id)))
    && (forall id :: id in on ==> id < |tasks|)
    && (cleanup.Some? ==> cleanup.value < |tasks|)
    && (guard.Some? ==> guard == cleanup)
  }

  /** For which streams emulation may be on after a step of one of them. */
  function OnAfter(on: set<nat>, id: nat, event: TaskEvent): set<nat> {
    if event.SwitchOn? then on + {id} else if event.CleanUp? && event.disabled then on - {id} else on
  }

  lemma AllSoundStep(tasks: seq<Task>, on: set<nat>, cleanup: Option<nat>, guard: Option<nat>, id: nat, event: TaskEvent)
    requires AllSound(tasks, on, cleanup, guard) && id < |tasks| && Enabled(tasks[id], event)
    ensures AllSound(tasks[id := After(tasks[id], event)], OnAfter(on, id, event), cleanup, guard)
    ensures event.SwitchOn? ==> cleanup == Some(id)
  {
    TaskSound(tasks[id], event, id in on, cleanup == Some(id), guard == Some(id));
  }

  lemma AllSoundNew(tasks: seq<Task>, on: set<nat>)
    requires AllSound(tasks, on, None, None)
    ensures AllSound(tasks + [NEW_TASK], on, Some(|tasks|), Some(|tasks|))
  {
    var more := tasks + [NEW_TASK];
    forall id | 0 <= id < |more| ensures Sound(more[id], id in on, id == |tasks|, id == |tasks|) {
      if id < |tasks| {
        assert Sound(tasks[id], id in on, false, false);
      }
    }
  }

  /** Only the stream on record can have emulation on, and not once its cleanup is confirmed. */
  lemma OnlyRecorded(tasks: seq<Task>, on: set<nat>, cleanup: Option<nat>, guard: Option<nat>)
    requires AllSound(tasks, on, cleanup, guard)
    ensures forall id :: id in on ==> cleanup == Some(id) && tasks[id].cleanup != Confirmed
    ensures cleanup == None || tasks[cleanup.value].cleanup == Confirmed ==> on == {}
  {
    forall id | id in on ensures cleanup == Some(id) && tasks[id].cleanup != Confirmed {
      assert Sound(tasks[id], true, cleanup == Some(id), guard == Some(id));
    }
  }

  /** The environment is free: a stream can be retired at any time, and a started task can end in any way. */
  lemma TasksEndAnyhow(task: Task, stopped: bool, disabled: bool)
    ensures Enabled(task, Retire) && !After(task, Retire).live
    ensures task.phase == Running || task.phase == Focused ==>
      && Enabled(task, CleanUp(stopped, disabled)) && Enabled(task, Fence)
      && After(task, Fence) == Task(Finished, false, Unconfirmed)
      && After(task, CleanUp(stopped, disabled)).phase == Finished
  {
  }

  /**
   `capture_focus` alone does not cover every target: a stream that has just been handed out can be
   started and can request emulation while no capture is on record, and the adapter knows of it only
   through the cleanup it awaits.
   */
  lemma StreamFocusesToo()
    ensures AllSound([NEW_TASK], {}, Some(0), Some(0)) && Enabled(NEW_TASK, Start)
    ensures Enabled(After(NEW_TASK, Start), SwitchOn)
    ensures AllSound([After(After(NEW_TASK, Start), SwitchOn)], {0}, Some(0), Some(0))
    ensures !AllSound([After(After(NEW_TASK, Start), SwitchOn)], {0}, None, None)
  {
    AllSoundNew([], {});
    assert [] + [NEW_TASK] == [NEW_TASK];
    AllSoundStep([NEW_TASK], {}, Some(0), Some(0), 0, Start);
    var started := [NEW_TASK][0 := After(NEW_TASK, Start)];
    AllSoundStep(started, {}, Some(0), Some(0), 0, SwitchOn);
    assert started[0 := After(started[0], SwitchOn)] == [After(After(NEW_TASK, Start), SwitchOn)];
    assert OnAfter({}, 0, SwitchOn) == {0};
    if AllSound([After(After(NEW_TASK, Start), SwitchOn)], {0}, None, None) {
      OnlyRecorded([After(After(NEW_TASK, Start), SwitchOn)], {0}, None, None);
    }
  }

  // ---------------------------------------------------------------------------
  // The adapter
  // ---------------------------------------------------------------------------

  class Adapter {
    var captureFocus: Option<Target>
    var screenshot: Connection
    var streamGuard: Option<nat>
    var streamCleanup: Option<nat>
    var targets: seq<Target>      // of the streams, by number
    ghost var log: seq<Event>
    ghost var troubles: nat       // awaits that were not acknowledged, and cleanups not confirmed

    // the browser and the stream tasks
    var tasks: seq<Task>
    var captureOn: set<Target>    // targets on which a capture may have left emulation on
    var streamOn: set<nat>        // streams whose target may have emulation on because of them
    var destroyed: set<Target>    // targets that no longer exist

    /** The lifetime that the adapter has on record. */
    ghost function Current(): Option<Holder>
      reads this
    {
      if captureFocus.Some? then Some(Capture(captureFocus.value))
      else if streamCleanup.Some? then Some(Stream(streamCleanup.value))
      else None
    }

    /** Wherever emulation may be on, the adapter has it on record, and it has one thing on record. */
    ghost predicate Valid()
      reads this
    {
      && |tasks| == |targets|
      && AllSound(tasks, streamOn, streamCleanup, streamGuard)
      && (forall t :: t in captureOn && t !in destroyed ==> captureFocus == Some(t))
      && (streamCleanup.Some? ==> captureFocus.None?)
      && Orderly(log) && OpenHolder(log) == Current()
    }

    constructor ()
      ensures Valid() && log == [] && Current() == None
    {
      captureFocus, screenshot, streamGuard, streamCleanup := None, Absent, None, None;
      targets, log, tasks, captureOn, streamOn, destroyed, troubles := [], [], [], {}, {}, {}, 0;
    }

    /** One step of a stream task. */
    method TaskStep(id: nat, event: TaskEvent)
      requires Valid() && id < |tasks| && Enabled(tasks[id], event)
      modifies this`tasks, this`streamOn, this`log
      ensures Valid() && |tasks| == |old(tasks)| && old(log) <= log
      ensures tasks[id] == After(old(tasks)[id], event)
      ensures log == if event.SwitchOn? then old(log) + [SwitchedOn(Stream(id))] else old(log)
    {
      AllSoundStep(tasks, streamOn, streamCleanup, streamGuard, id, event);
      if event.SwitchOn? {
        OrderlySnoc(log, SwitchedOn(Stream(id)));
        log := log + [SwitchedOn(Stream(id))];
      }
      tasks, streamOn := tasks[id := After(tasks[id], event)], OnAfter(streamOn, id, event);
    }

    /** Everything else runs: stream tasks take steps and targets disappear; ids are not used again. */
    method Await() returns (fate: Fate)
      requires Valid()
      modifies this`tasks, this`streamOn, this`log, this`destroyed
      ensures Valid() && |tasks| == |old(tasks)| && old(log) <= log && old(destroyed) <= destroyed
    {
      var steps: int := *;
      while steps > 0
        invariant Valid() && |tasks| == |old(tasks)| && old(log) <= log && old(destroyed) <= destroyed
      {
        var id: int, event: TaskEvent := *, *;
        if 0 <= id < |tasks| && Enabled(tasks[id], event) {
          TaskStep(id, event);
        }
        steps := steps - 1;
      }
      var more: set<Target> := *;
      destroyed := destroyed + more;
      fate := *;
    }

    /** An await followed by `?`. */
    method AwaitOrFail() returns (status: Status)
      requires Valid()
      modifies this`tasks, this`streamOn, this`log, this`destroyed, this`troubles
      ensures Valid() && |tasks| == |old(tasks)| && old(log) <= log && old(destroyed) <= destroyed
      ensures status.Done? <==> troubles == old(troubles)
      ensures troubles >= old(troubles)
    {
      var fate := Await();
      status := if fate.Dropped? then Abandoned else if fate.Acknowledged? then Done else Failed;
      if !status.Done? {
        troubles := troubles + 1;
      }
    }

    /** A command on the screenshot connection, which must be in order; an unknown outcome interrupts it. */
    method ScreenshotCall() returns (fate: Fate)
      requires Valid() && screenshot == Usable
      modifies this`tasks, this`streamOn, this`log, this`destroyed, this`screenshot, this`troubles
      ensures Valid() && |tasks| == |old(tasks)| && old(log) <= log && old(destroyed) <= destroyed
      ensures troubles == old(troubles) + if fate.Acknowledged? then 0 else 1
      ensures screenshot == if fate.Lost? || fate.Dropped? then Interrupted else Usable
    {
      fate := Await();
      if fate.Lost? || fate.Dropped? {
        screenshot := Interrupted;
      }
      if !fate.Acknowledged? {
        troubles := troubles + 1;
      }
    }

    /** Connects if need be and attaches to the target. */
    method ScreenshotSession() returns (status: Status)
      requires Valid()
      modifies this`tasks, this`streamOn, this`log, this`destroyed, this`screenshot, this`troubles
      ensures Valid() && |tasks| == |old(tasks)| && old(log) <= log && old(destroyed) <= destroyed
      ensures status.Done? <==> troubles == old(troubles)
      ensures troubles >= old(troubles)
      ensures status.Done? ==> screenshot == Usable
    {
      if screenshot.Interrupted? {
        screenshot := Absent;
      }
      if screenshot.Absent? {
        status := AwaitOrFail();
        if !status.Done? {
          return;
        }
        screenshot := Usable;
      }
      var attached: bool := *;
      if !attached {
        var fate := ScreenshotCall();
        if fate.Dropped? {
          return Abandoned;
        } else if !fate.Acknowledged? {
          return Failed;
        }
      }
      return Done;
    }

    /** `setFocusEmulationEnabled` for a capture: off for certain only when that is acknowledged. */
    method SetEmulation(target: Target, enabled: bool) returns (fate: Fate)
      requires Valid() && captureFocus == Some(target) && screenshot == Usable
      modifies this`tasks, this`streamOn, this`log, this`destroyed, this`screenshot, this`captureOn, this`troubles
      ensures Valid() && |tasks| == |old(tasks)| && old(log) <= log && old(destroyed) <= destroyed
      ensures enabled ==>
        captureOn == old(captureOn) + {target} && old(log) < log && log[|old(log)|] == SwitchedOn(Capture(target))
      ensures !enabled ==>
        captureOn == if fate.Acknowledged? then old(captureOn) - {target} else old(captureOn)
      ensures troubles == old(troubles) + if fate.Acknowledged? then 0 else 1
      ensures fate.Acknowledged? ==> screenshot == Usable
    {
      if enabled {
        OrderlySnoc(log, SwitchedOn(Capture(target)));
        log := log + [SwitchedOn(Capture(target))];
        captureOn := captureOn + {target};
      }
      fate := ScreenshotCall();
      if !enabled && fate.Acknowledged? {
        captureOn := captureOn - {target};
      }
    }

    /** A fresh connection, and the browser's list of targets. */
    method Reconnect(target: Target) returns (status: Status, gone: bool)
      requires Valid()
      modifies this`tasks, this`streamOn, this`log, this`destroyed, this`screenshot, this`troubles
      ensures Valid() && |tasks| == |old(tasks)| && old(log) <= log && old(destroyed) <= destroyed
      ensures gone ==> target in destroyed
      ensures status.Done? ==> (gone <==> target in destroyed) && screenshot == if gone then Absent else Usable
      ensures status.Done? <==> troubles == old(troubles)
      ensures troubles >= old(troubles)
    {
      screenshot := Absent;
      gone := false;
      status := AwaitOrFail();
      if status.Done? {
        status := AwaitOrFail();
      }
      if status.Done? {
        gone := target in destroyed;
        screenshot := if gone then Absent else Usable;
      }
    }

    /** The part of the cleanup that may fail. */
    method DisableFocus(target: Target) returns (status: Status)
      requires Valid() && captureFocus == Some(target)
      modifies this`tasks, this`streamOn, this`log, this`destroyed, this`screenshot, this`captureOn, this`troubles
      ensures Valid() && |tasks| == |old(tasks)| && old(log) <= log && old(destroyed) <= destroyed
      ensures status.Done? ==> target in destroyed || target !in captureOn
      ensures status.Done? <==> troubles == old(troubles)
      ensures troubles >= old(troubles)
    {
      if !screenshot.Usable? {
        var gone;
        status, gone := Reconnect(target);
        if !status.Done? || gone {
          return;
        }
      }
      status := ScreenshotSession();
      if !status.Done? {
        return;
      }
      var fate := SetEmulation(target, false);
      status := if fate.Dropped? then Abandoned else if fate.Acknowledged? then Done else Failed;
    }

    /** Cleanup: forgets the focused target only once emulation is off or the target is gone. */
    method FinishCaptureFocus() returns (status: Status)
      requires Valid()
      modifies this
      ensures Valid() && old(destroyed) <= destroyed && old(log) <= log && |tasks| == |old(tasks)|
      ensures streamCleanup == old(streamCleanup) && targets == old(targets) && streamGuard == old(streamGuard)
      ensures status.Done? ==> captureFocus == None && forall t :: t in captureOn ==> t in destroyed
      ensures !status.Done? ==> captureFocus == old(captureFocus)
      ensures status.Done? <==> troubles == old(troubles)
      ensures troubles >= old(troubles)
    {
      if captureFocus.None? {
        return Done;
      }
      var target := captureFocus.value;
      status := DisableFocus(target);
      if status.Abandoned? {
        return;
      }
      if status.Failed? {
        screenshot := Absent;
        return;
      }
      OrderlySnoc(log, Over(Capture(target)));
      log := log + [Over(Capture(target))];
      captureFocus := None;
    }

    /** Dropping the guard clears the flag that the stream task obeys. */
    method DropGuard()
      requires Valid()
      modifies this`streamGuard, this`tasks
      ensures Valid() && streamGuard == None && |tasks| == |old(tasks)|
      ensures forall id :: 0 <= id < |tasks| ==>
        !tasks[id].live && tasks[id].cleanup == old(tasks)[id].cleanup && tasks[id].phase == old(tasks)[id].phase
    {
      if streamGuard.Some? {
        var id := streamGuard.value;
        tasks := tasks[id := tasks[id].(live := false)];
        streamGuard := None;
      }
    }

    /** Polls the cleanup cell for a bounded time; only a confirmed cleanup is good enough. */
    method AwaitCleanup(id: nat) returns (status: Status)
      requires Valid() && streamCleanup == Some(id)
      modifies this`tasks, this`streamOn, this`log, this`destroyed, this`troubles
      ensures Valid() && |tasks| == |old(tasks)| && old(log) <= log && old(destroyed) <= destroyed
      ensures status.Done? ==> tasks[id].cleanup == Confirmed
      ensures old(tasks)[id].cleanup == Unconfirmed ==> status.Failed? && log == old(log)
      ensures status.Done? <==> troubles == old(troubles)
      ensures troubles >= old(troubles)
    {
      var polls: int := *;
      while polls > 0 && tasks[id].cleanup == Pending
        invariant Valid() && |tasks| == |old(tasks)| && old(log) <= log && old(destroyed) <= destroyed
        invariant troubles == old(troubles)
        invariant old(tasks)[id].cleanup == Unconfirmed ==> tasks == old(tasks) && log == old(log)
      {
        var fate := Await();
        if fate.Dropped? {
          troubles := troubles + 1;
          return Abandoned;
        }
        polls := polls - 1;
      }
      status := if tasks[id].cleanup == Confirmed then Done else Failed;
      if !status.Done? {
        troubles := troubles + 1;
      }
    }

    /** The adapter forgets a stream whose cleanup is confirmed. */
    method ForgetStream(id: nat)
      requires Valid() && streamGuard == None && streamCleanup == Some(id) && tasks[id].cleanup == Confirmed
      modifies this`streamCleanup, this`log
      ensures Valid() && streamCleanup == None && log == old(log) + [Over(Stream(id))]
    {
      OnlyRecorded(tasks, streamOn, streamCleanup, streamGuard);
      OrderlySnoc(log, Over(Stream(id)));
      log := log + [Over(Stream(id))];
      streamCleanup := None;
    }

    /** Ends the current stream: the next operation waits until its emulation is confirmed off. */
    method RetireStream() returns (status: Status)
      requires Valid()
      modifies this`streamGuard, this`streamCleanup, this`tasks, this`streamOn, this`log, this`destroyed, this`troubles
      ensures Valid() && streamGuard == None && |tasks| == |old(tasks)|
      ensures old(log) <= log && old(destroyed) <= destroyed
      ensures status.Done? ==> streamCleanup == None && streamOn == {}
      ensures !status.Done? ==> streamCleanup == old(streamCleanup)
      ensures status.Done? && old(streamCleanup).Some? ==>
        log != [] && log[|log| - 1] == Over(Stream(old(streamCleanup).value))
      ensures old(streamCleanup).Some? && old(tasks)[old(streamCleanup).value].cleanup == Unconfirmed ==>
        status.Failed? && log == old(log)
      ensures status.Done? <==> troubles == old(troubles)
      ensures troubles >= old(troubles)
    {
      DropGuard();
      if streamCleanup.Some? {
        var id := streamCleanup.value;
        status := AwaitCleanup(id);
        if !status.Done? {
          return;
        }
        ForgetStream(id);
      }
      OnlyRecorded(tasks, streamOn, streamCleanup, streamGuard);
      return Done;
    }

    /** Retires the current stream and finishes a pending cleanup; nothing proceeds without both. */
    method Settle() returns (status: Status)
      requires Valid()
      modifies this
      ensures Valid() && |tasks| == |old(tasks)| && old(destroyed) <= destroyed && old(log) <= log
      ensures status.Done? ==> Current() == None && streamOn == {} && forall t :: t in captureOn ==> t in destroyed
      ensures captureFocus == None || captureFocus == old(captureFocus)
      ensures streamGuard == None && (streamCleanup == None || streamCleanup == old(streamCleanup))
      ensures status.Done? <==> troubles == old(troubles)
      ensures troubles >= old(troubles)
    {
      status := RetireStream();
      if !status.Done? {
        return;
      }
      status := FinishCaptureFocus();
      OnlyRecorded(tasks, streamOn, streamCleanup, streamGuard);
    }

    /** A focus lifetime begins: the target is on record before the browser is asked. */
    method BeginFocus(target: Target) returns (fate: Fate)
      requires Valid() && Current() == None && screenshot == Usable
      modifies this
      ensures Valid() && captureFocus == Some(target)
      ensures old(log) < log && log[|old(log)|] == Begun(Capture(target))
      ensures captureOn == old(captureOn) + {target} && old(destroyed) <= destroyed
      ensures troubles == old(troubles) + if fate.Acknowledged? then 0 else 1
      ensures fate.Acknowledged? ==> screenshot == Usable
    {
      OrderlySnoc(log, Begun(Capture(target)));
      log := log + [Begun(Capture(target))];
      captureFocus := Some(target);
      fate := SetEmulation(target, true);
    }

    /** The focused part of a capture: begin, take the picture if that was confirmed, clean up. */
    method FocusedCapture(target: Target) returns (status: Status)
      requires Valid() && Current() == None && screenshot == Usable
      modifies this
      ensures Valid() && old(log) < log && log[|old(log)|] == Begun(Capture(target))
      ensures status.Done? ==> captureFocus == None
      ensures captureFocus == None || captureFocus == Some(target)
      ensures status.Done? <==> troubles == old(troubles)
      ensures troubles >= old(troubles)
    {
      var captured := BeginFocus(target);
      if captured.Acknowledged? {
        captured := ScreenshotCall();
      }
      if captured.Dropped? {
        return Abandoned;
      }
      status := FinishCaptureFocus();
      if status.Done? && !captured.Acknowledged? {
        status := Failed;
      }
    }

    /** Takes one capture. */
    method CaptureAttempt(target: Target) returns (status: Status)
      requires Valid()
      modifies this
      ensures Valid() && old(log) <= log
      ensures status.Done? ==> captureFocus == None && Begun(Capture(target)) in log[|old(log)|..]
      ensures captureFocus == None || captureFocus == old(captureFocus) || captureFocus == Some(target)
      // it takes the picture unless something went wrong
      ensures status.Done? <==> troubles == old(troubles)
      ensures troubles >= old(troubles)
    {
      status := Settle();
      if !status.Done? {
        return;
      }
      status := AwaitOrFail();
      if !status.Done? {
        return;
      }
      status := ScreenshotSession();
      if !status.Done? {
        return;
      }
      ghost var before := log;
      status := FocusedCapture(target);
      assert log[|before|] == Begun(Capture(target));
    }

    /** Hands out the configuration of a new stream; its task may start whenever it likes. */
    method NewStream(target: Target) returns (id: nat)
      requires Valid() && Current() == None && streamGuard == None
      modifies this
      ensures Valid() && id == |old(tasks)| && streamCleanup == streamGuard == Some(id)
      ensures targets == old(targets) + [target] && tasks == old(tasks) + [NEW_TASK]
      ensures log == old(log) + [Begun(Stream(id))] && captureOn == old(captureOn) && streamOn == old(streamOn)
      ensures destroyed == old(destroyed) && captureFocus == None
      ensures troubles == old(troubles)
    {
      id := |tasks|;
      OrderlySnoc(log, Begun(Stream(id)));
      log := log + [Begun(Stream(id))];
      AllSoundNew(tasks, streamOn);
      tasks := tasks + [NEW_TASK];
      targets := targets + [target];
      streamCleanup, streamGuard := Some(id), Some(id);
    }

    /** Prepares a private stream of the target. */
    method PrepareStream(target: Target) returns (status: Status)
      requires Valid()
      modifies this
      ensures Valid() && old(log) <= log
      ensures captureFocus == None || captureFocus == old(captureFocus)
      ensures status.Done? ==>
        && captureFocus == None && streamCleanup == Some(|old(tasks)|) && targets[|old(tasks)|..] == [target]
        && old(log) < log && log[|log| - 1] == Begun(Stream(|old(tasks)|))
      ensures !status.Done? ==> streamCleanup == None || streamCleanup == old(streamCleanup)
      ensures status.Done? <==> troubles == old(troubles)
      ensures troubles >= old(troubles)
    {
      status := Settle();
      if !status.Done? {
        return;
      }
      // the session, the document and the layout are each read from the browser
      for i := 0 to 3
        invariant Valid() && old(log) <= log && |tasks| == |old(tasks)|
        invariant Current() == None && streamGuard == None && troubles == old(troubles)
      {
        status := AwaitOrFail();
        if !status.Done? {
          return;
        }
      }
      var id := NewStream(target);
      assert targets[|old(tasks)|..] == [target];
      return Done;
    }

    /** Hides the window before control goes back to the agent. */
    method HideBeforeReturn() returns (status: Status)
      requires Valid()
      modifies this
      ensures Valid() && old(log) <= log
      ensures captureFocus == None || captureFocus == old(captureFocus)
      ensures status.Done? ==> Current() == None && HideBegun in log[|old(log)|..]
      ensures status.Done? <==> troubles == old(troubles)
      ensures troubles >= old(troubles)
    {
      status := Settle();
      if !status.Done? {
        return;
      }
      ghost var before := log;
      OrderlySnoc(log, HideBegun);
      log := log + [HideBegun];
      status := AwaitOrFail();
      assert log[|before|] == HideBegun;
    }
  }

  /** `Invalidate` is any operation that drops the references to the page, and the guard with them. */
  datatype Operation = TakeCapture(target: Target) | OpenStream(target: Target) | Hide | Invalidate | Wait

  /** Whether emulation may be on for a target: because of a capture, if it still exists, or of a stream. */
  ghost predicate MaybeFocused(
      t: Target, captureOn: set<Target>, destroyed: set<Target>, streamOn: set<nat>, targets: seq<Target>)
  {
    (t in captureOn && t !in destroyed) || exists id :: id in streamOn && id < |targets| && targets[id] == t
  }

  /**
   Any sequence of operations, each failing or being abandoned wherever it may, and stream tasks that
   start, switch emulation on and off, fail and die at any moment: emulation may be on for at most
   one target; if it is a capture's, `capture_focus` names it, and if it is a stream's, that stream's
   cleanup is what the adapter still waits for, never both; and the history is orderly.
   */
  method Drive(operations: seq<Operation>)
    returns (focus: Option<Target>, stream: Option<nat>, captureOn: set<Target>, streamOn: set<nat>,
             destroyed: set<Target>, targets: seq<Target>, ghost log: seq<Event>)
    ensures focus.None? || stream.None?
    ensures forall t :: t in captureOn && t !in destroyed ==> focus == Some(t)
    ensures forall id :: id in streamOn ==> stream == Some(id) && id < |targets|
    ensures forall t, u ::
      MaybeFocused(t, captureOn, destroyed, streamOn, targets) && MaybeFocused(u, captureOn, destroyed, streamOn, targets)
      ==> t == u
    ensures Orderly(log)
    ensures OpenHolder(log)
         == if focus.Some? then Some(Capture(focus.value)) else if stream.Some? then Some(Stream(stream.value)) else None
  {
    var adapter := new Adapter();
    for i := 0 to |operations|
      invariant adapter.Valid() && fresh(adapter)
    {
      match operations[i] {
        case TakeCapture(target) => var status := adapter.CaptureAttempt(target);
        case OpenStream(target) => var status := adapter.PrepareStream(target);
        case Hide => var status := adapter.HideBeforeReturn();
        case Invalidate => adapter.DropGuard();
        case Wait => var fate := adapter.Await();
      }
    }
    OnlyRecorded(adapter.tasks, adapter.streamOn, adapter.streamCleanup, adapter.streamGuard);
    return adapter.captureFocus, adapter.streamCleanup, adapter.captureOn, adapter.streamOn,
           adapter.destroyed, adapter.targets, adapter.log;
  }
}
