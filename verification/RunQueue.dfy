/**
 The run executor (bud/src/run.rs): commands wait in a bounded queue and run one at a time, and the
 output of a run is numbered by one counter that its two pipes share.
 */
module RunQueue {
  import opened Wrappers
  import opened Collections

  const MAX_QUEUE_DEPTH: nat := 10

  datatype Command = Command(runId: string, cmd: string)

  // ---------------------------------------------------------------------------
  // What a sequence of requests and completions amounts to
  // ---------------------------------------------------------------------------

  /** `Finish` is the end of the run in flight; it cannot happen while there is none. */
  datatype Event = Enqueue(command: Command) | Finish

  /** How many accepted commands have not finished: one in flight and ten waiting at most. */
  function Unfinished(events: seq<Event>): (n: nat)
    ensures n <= 11
  {
    if events == [] then 0
    else
      var n := Unfinished(events[..|events| - 1]);
      if events[|events| - 1].Enqueue? then (if n < 11 then n + 1 else n) else (if n > 0 then n - 1 else 0)
  }

  /** The accepted commands: those that find room, in order of arrival. */
  function Accepted(events: seq<Event>): (r: seq<Command>)
    ensures Unfinished(events) <= |r|
  {
    if events == [] then []
    else
      var before := events[..|events| - 1];
      var last := events[|events| - 1];
      Accepted(before) + if last.Enqueue? && Unfinished(before) < 11 then [last.command] else []
  }

  function First(queue: seq<Command>): seq<Command> {
    if queue == [] then [] else [queue[0]]
  }

  // ---------------------------------------------------------------------------
  // The executor
  // ---------------------------------------------------------------------------

  class RunExecutor {
    var queue: seq<Command>
    var currentRun: Option<string>
    var inFlight: seq<Command>        // spawned tasks that have not yet finished
    var started: seq<Command>         // everything ever spawned

    /** At most one run is in flight, and `currentRun` names it; run ids need not be distinct. */
    ghost predicate Valid()
      reads this
    {
      && |queue| <= MAX_QUEUE_DEPTH
      && (inFlight == [] || (started != [] && inFlight == [started[|started| - 1]]))
      && currentRun == (if inFlight == [] then None else Some(inFlight[0].runId))
      && (queue != [] ==> inFlight != [])
    }

    constructor ()
      ensures Valid() && queue == [] && inFlight == [] && started == []
    {
      queue, currentRun, inFlight, started := [], None, [], [];
    }

    /** Starts the command at the head of the queue, if there is one. */
    method StartNext()
      requires currentRun == None && inFlight == [] && |queue| <= MAX_QUEUE_DEPTH
      modifies this
      ensures Valid() && First(old(queue)) + queue == old(queue)
      ensures started == old(started) + First(old(queue)) && inFlight == First(old(queue))
    {
      if queue != [] {
        var next := queue[0];
        queue := queue[1..];
        currentRun := Some(next.runId);
        SpawnRun(next);
      }
    }

    method SpawnRun(command: Command)
      modifies this`inFlight, this`started
      ensures inFlight == old(inFlight) + [command] && started == old(started) + [command]
    {
      inFlight := inFlight + [command];
      started := started + [command];
    }

    method Enqueue(command: Command) returns (accepted: bool)
      requires Valid()
      modifies this
      ensures Valid()
      ensures accepted <==> |old(queue)| < MAX_QUEUE_DEPTH
      ensures started + queue == old(started + queue) + if accepted then [command] else []
      ensures |inFlight| + |queue| == |old(inFlight)| + |old(queue)| + if accepted then 1 else 0
      ensures old(inFlight) != [] ==> started == old(started) && inFlight == old(inFlight)
      ensures accepted ==> inFlight != []
    {
      if |queue| >= MAX_QUEUE_DEPTH {
        return false;
      }
      queue := queue + [command];
      if currentRun.None? {
        StartNext();
      }
      return true;
    }

    /** A run in flight ends, whether it worked or not. */
    method FinishAndStartNext(task: nat)
      requires Valid() && task < |inFlight|
      modifies this
      ensures Valid() && First(old(queue)) + queue == old(queue)
      ensures started == old(started) + First(old(queue)) && inFlight == First(old(queue))
    {
      var runId := inFlight[task].runId;
      inFlight := inFlight[..task] + inFlight[task + 1..];
      if currentRun == Some(runId) {
        currentRun := None;
      }
      if currentRun.None? {
        StartNext();
      }
    }
  }

  /**
   Every interleaving: a command is accepted exactly when fewer than eleven are unfinished, the
   accepted commands are those started followed by the queue, and all unfinished ones but the
   oldest, which is in flight, are in the queue.
   */
  method Drive(events: seq<Event>)
    returns (started: seq<Command>, queue: seq<Command>, inFlight: seq<Command>, currentRun: Option<string>)
    ensures started + queue == Accepted(events)
    ensures |inFlight| + |queue| == Unfinished(events) && |queue| <= 10
    ensures |inFlight| <= 1 && (queue != [] ==> inFlight != [])
    ensures inFlight != [] ==> started != [] && inFlight == [started[|started| - 1]]
    ensures currentRun == if inFlight == [] then None else Some(inFlight[0].runId)
  {
    var executor := new RunExecutor();
    for i := 0 to |events|
      invariant executor.Valid() && fresh(executor)
      invariant executor.started + executor.queue == Accepted(events[..i])
      invariant |executor.inFlight| + |executor.queue| == Unfinished(events[..i])
    {
      assert events[..i + 1][..i] == events[..i];
      match events[i] {
        case Enqueue(command) => var accepted := executor.Enqueue(command);
        case Finish =>
          if executor.inFlight != [] {
            executor.FinishAndStartNext(0);
          }
      }
    }
    assert events[..|events|] == events;
    return executor.started, executor.queue, executor.inFlight, executor.currentRun;
  }

  // ---------------------------------------------------------------------------
  // Numbered output
  // ---------------------------------------------------------------------------

  const TWO_64: nat := 0x1_0000_0000_0000_0000

  datatype Pipe = Stdout | Stderr

  /** `None` is a read error, no bytes the end of the pipe; the channel to the service may close for good. */
  datatype Output = Read(pipe: Pipe, data: Option<Bytes>) | ChannelClosed

  datatype Frame = Frame(pipe: Pipe, number: nat, data: Bytes)

  /** What should arrive of one pipe: all it yields until it ends or the channel closes. */
  function Deliverable(outputs: seq<Output>, pipe: Pipe): Bytes {
    if outputs == [] || outputs[0].ChannelClosed? then []
    else if outputs[0].pipe != pipe then Deliverable(outputs[1..], pipe)
    else if outputs[0].data.None? || outputs[0].data.value == [] then []
    else outputs[0].data.value + Deliverable(outputs[1..], pipe)
  }

  function DataOf(frames: seq<Frame>, pipe: Pipe): Bytes {
    if frames == [] then []
    else
      var last := frames[|frames| - 1];
      DataOf(frames[..|frames| - 1], pipe) + if last.pipe == pipe then last.data else []
  }

  lemma DataSnoc(frames: seq<Frame>, frame: Frame, pipe: Pipe)
    ensures DataOf(frames + [frame], pipe) == DataOf(frames, pipe) + if frame.pipe == pipe then frame.data else []
  {
    assert (frames + [frame])[..|frames|] == frames;
  }

  /** The pipe loops of a run: the shared counter, and which of them still go on. */
  datatype Pipes = Pipes(frames: seq<Frame>, seqNo: nat, open: bool, live: set<Pipe>) {

    /** What is still to come of a pipe. */
    function Rest(outputs: seq<Output>, pipe: Pipe): Bytes {
      if open && pipe in live then Deliverable(outputs, pipe) else []
    }

    ghost predicate Numbered() {
      && (open ==> seqNo == |frames| % TWO_64)
      && forall k :: 0 <= k < |frames| ==> frames[k].number == k % TWO_64 && frames[k].data != []
    }
  }

  /** One turn of a pipe's loop: a chunk takes the next number, and a frame that cannot be sent ends the loop. */
  function Turn(pipes: Pipes, output: Output): Pipes {
    if output.ChannelClosed? then pipes.(open := false)
    else if output.pipe !in pipes.live then pipes
    else if output.data.None? || output.data.value == [] then pipes.(live := pipes.live - {output.pipe})
    else
      var counted := pipes.(seqNo := (pipes.seqNo + 1) % TWO_64);
      if pipes.open then counted.(frames := pipes.frames + [Frame(output.pipe, pipes.seqNo, output.data.value)])
      else counted.(live := pipes.live - {output.pipe})
  }

  lemma TurnNumbered(pipes: Pipes, output: Output)
    requires pipes.Numbered()
    ensures Turn(pipes, output).Numbered()
  {
  }

  lemma DeliverableFirst(output: Output, rest: seq<Output>, pipe: Pipe)
    ensures Deliverable([output] + rest, pipe) ==
      if output.ChannelClosed? then []
      else if output.pipe != pipe then Deliverable(rest, pipe)
      else if output.data.None? || output.data.value == [] then []
      else output.data.value + Deliverable(rest, pipe)
  {
    assert ([output] + rest)[0] == output && ([output] + rest)[1..] == rest;
  }

  /** The turn that sends a frame. */
  lemma TurnSends(pipes: Pipes, output: Output, rest: seq<Output>, pipe: Pipe)
    requires output.Read? && output.data.Some? && output.data.value != [] && output.pipe in pipes.live && pipes.open
    ensures var next := Turn(pipes, output);
      DataOf(next.frames, pipe) + next.Rest(rest, pipe) == DataOf(pipes.frames, pipe) + pipes.Rest([output] + rest, pipe)
  {
    DeliverableFirst(output, rest, pipe);
    DataSnoc(pipes.frames, Frame(output.pipe, pipes.seqNo, output.data.value), pipe);
    Append(DataOf(pipes.frames, pipe), output.data.value, Deliverable(rest, pipe));
  }

  /** What has been sent of a pipe and what is to come of it remain all there is of it. */
  lemma TurnKeeps(pipes: Pipes, output: Output, rest: seq<Output>, pipe: Pipe)
    ensures var next := Turn(pipes, output);
      DataOf(next.frames, pipe) + next.Rest(rest, pipe) == DataOf(pipes.frames, pipe) + pipes.Rest([output] + rest, pipe)
  {
    if output.Read? && output.data.Some? && output.data.value != [] && output.pipe in pipes.live && pipes.open {
      TurnSends(pipes, output, rest, pipe);
    } else {
      DeliverableFirst(output, rest, pipe);
    }
  }

  /**
   The two pipes of a run, interleaved in any way: the frames are numbered consecutively from zero
   as long as the counter does not wrap, and each pipe's frames carry its bytes in order.
   */
  method StreamPipes(outputs: seq<Output>) returns (frames: seq<Frame>)
    ensures forall i :: 0 <= i < |frames| ==> frames[i].number == i % TWO_64 && frames[i].data != []
    ensures |frames| <= TWO_64 ==> forall i :: 0 <= i < |frames| ==> frames[i].number == i
    ensures forall pipe :: DataOf(frames, pipe) == Deliverable(outputs, pipe)
  {
    var pipes := Pipes([], 0, true, {Stdout, Stderr});
    assert outputs[0..] == outputs;
    for i := 0 to |outputs|
      invariant pipes.Numbered()
      invariant forall pipe :: DataOf(pipes.frames, pipe) + pipes.Rest(outputs[i..], pipe) == Deliverable(outputs, pipe)
    {
      assert [outputs[i]] + outputs[i + 1..] == outputs[i..];
      TurnNumbered(pipes, outputs[i]);
      TurnKeeps(pipes, outputs[i], outputs[i + 1..], Stdout);
      TurnKeeps(pipes, outputs[i], outputs[i + 1..], Stderr);
      pipes := Turn(pipes, outputs[i]);
    }
    frames := pipes.frames;
  }
}
