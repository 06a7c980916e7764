/**
 The serial command channel to the browser (bud/src/browser/cdp.rs).  A command whose outcome is
 unknown may have executed, so the channel is poisoned before a command is sent and cleared only
 by the response that carries the command's own id.
 */
module Cdp {
  import opened Wrappers

  /** What the socket delivers; a frame's id is absent when it is missing or not a u64. */
  datatype Frame =
    | Text(id: Option<nat>, rejected: bool)
    | Malformed
    | Ping(answered: bool)
    | Other
    | Close
    | Broken

  /**
   How one call fares: whether its request could be written, and the frames that arrive before the
   timeout, the end of the stream, or the moment the caller drops the future.
   */
  datatype Course = Course(sent: bool, frames: seq<Frame>)

  /** What crosses the channel: a request that may have gone out, or the response to it. */
  datatype Event = Sent(id: nat) | Answered(id: nat)

  datatype Answer =
    | Replied(id: nat, rejected: bool)   // a definitive response, possibly an error of the command
    | Unknown                            // timeout, transport or decode error, or cancellation
    | Refused                            // the channel was interrupted before

  datatype Channel = Channel(nextId: nat, poisoned: bool, log: seq<Event>)

  const FRESH := Channel(0, false, [])

  // ---------------------------------------------------------------------------
  // One call
  // ---------------------------------------------------------------------------

  predicate Skipped(f: Frame, id: nat) {
    (f.Text? && f.id != Some(id)) || f.Other? || (f.Ping? && f.answered)
  }

  /** The response to command `id`: the first frame that is not skipped, if it carries that id. */
  function Response(frames: seq<Frame>, id: nat): (r: Option<Frame>)
    ensures r.Some? ==> r.value.Text?
  {
    if frames == [] then None
    else if Skipped(frames[0], id) then Response(frames[1..], id)
    else if frames[0].Text? then Some(frames[0])
    else None
  }

  function AfterCall(c: Channel, course: Course): (Channel, Answer) {
    if c.poisoned then (c, Refused)
    else
      var id := c.nextId + 1;
      var log := c.log + [Sent(id)];
      var response := if course.sent then Response(course.frames, id) else None;
      if response.None? then (Channel(id, true, log), Unknown)
      else (Channel(id, false, log + [Answered(id)]), Replied(id, response.value.rejected))
  }

  /** Frame `k` is the response to command `id`, and every frame before it is passed over. */
  ghost predicate RespondsAt(frames: seq<Frame>, id: nat, k: nat, rejected: bool) {
    && k < |frames| && frames[k] == Text(Some(id), rejected)
    && forall j :: 0 <= j < k ==>
      || (frames[j].Text? && frames[j].id != Some(id))
      || (frames[j].Ping? && frames[j].answered)
      || frames[j].Other?
  }

  ghost predicate Responds(frames: seq<Frame>, id: nat, rejected: bool) {
    exists k: nat :: RespondsAt(frames, id, k, rejected)
  }

  lemma {:induction false} ResponseAt(frames: seq<Frame>, id: nat, k: nat, rejected: bool)
    requires RespondsAt(frames, id, k, rejected)
    ensures Response(frames, id) == Some(Text(Some(id), rejected))
  {
    if k > 0 {
      assert forall j :: 0 <= j < k - 1 ==> frames[1..][j] == frames[j + 1];
      ResponseAt(frames[1..], id, k - 1, rejected);
    }
  }

  lemma {:induction false} ResponseFound(frames: seq<Frame>, id: nat) returns (k: nat)
    requires Response(frames, id).Some?
    ensures Response(frames, id).value.id == Some(id)
    ensures RespondsAt(frames, id, k, Response(frames, id).value.rejected)
  {
    if Skipped(frames[0], id) {
      var j := ResponseFound(frames[1..], id);
      k := j + 1;
      assert forall i :: 0 < i < k ==> frames[i] == frames[1..][i - 1];
    } else {
      k := 0;
    }
  }

  /**
   What a caller is told: on a channel in order, a response and whether it rejects the command,
   exactly when some frame is that response and all before it are passed over; otherwise that the
   outcome is unknown.
   */
  lemma AnswerExact(c: Channel, course: Course, rejected: bool)
    requires !c.poisoned
    ensures AfterCall(c, course).1 == Replied(c.nextId + 1, rejected)
       <==> course.sent && Responds(course.frames, c.nextId + 1, rejected)
    ensures AfterCall(c, course).1 == Unknown
       || AfterCall(c, course).1 == Replied(c.nextId + 1, true) || AfterCall(c, course).1 == Replied(c.nextId + 1, false)
  {
    var id := c.nextId + 1;
    if course.sent && Response(course.frames, id).Some? {
      var k := ResponseFound(course.frames, id);
    }
    if k: nat :| RespondsAt(course.frames, id, k, rejected) {
      ResponseAt(course.frames, id, k, rejected);
    }
  }

  class Connection {
    var nextId: nat
    var poisoned: bool
    ghost var log: seq<Event>

    ghost function View(): Channel
      reads this
    {
      Channel(nextId, poisoned, log)
    }

    constructor ()
      ensures View() == FRESH
    {
      nextId, poisoned, log := 0, false, [];
    }

    /** A dropped future leaves the object as it is when the frames run out. */
    method Call(course: Course) returns (answer: Answer)
      modifies this
      ensures (View(), answer) == AfterCall(old(View()), course)
      ensures old(poisoned) ==> answer == Refused && View() == old(View())
      ensures !old(poisoned) ==> nextId == old(nextId) + 1 && poisoned == (answer == Unknown)
      ensures !old(poisoned) ==> forall rejected ::
        answer == Replied(nextId, rejected) <==> course.sent && Responds(course.frames, nextId, rejected)
    {
      if !poisoned {
        AnswerExact(View(), course, true);
        AnswerExact(View(), course, false);
      }
      if poisoned {
        return Refused;
      }
      nextId := nextId + 1;
      var id := nextId;
      poisoned := true;
      log := log + [Sent(id)];
      if !course.sent {
        return Unknown;
      }
      var i := 0;
      while i < |course.frames|
        invariant i <= |course.frames| && nextId == id && poisoned && log == old(log) + [Sent(id)]
        invariant Response(course.frames, id) == Response(course.frames[i..], id)
      {
        var frame := course.frames[i];
        assert course.frames[i..][0] == frame && course.frames[i..][1..] == course.frames[i + 1..];
        i := i + 1;
        match frame {
          case Text(frameId, rejected) =>
            if frameId == Some(id) {
              poisoned := false;
              log := log + [Answered(id)];
              return Replied(id, rejected);
            }
          case Malformed =>
            return Unknown;
          case Ping(answered) =>
            if !answered {
              return Unknown;
            }
          case Close =>
            return Unknown;
          case Broken =>
            return Unknown;
          case Other =>
        }
      }
      return Unknown;
    }
  }

  // ---------------------------------------------------------------------------
  // Any number of calls
  // ---------------------------------------------------------------------------

  function AfterCalls(c: Channel, courses: seq<Course>): Channel
    decreases courses
  {
    if courses == [] then c else AfterCalls(AfterCall(c, courses[0]).0, courses[1..])
  }

  /** Command `id` has been answered somewhere before position `n` of the log. */
  ghost predicate AnsweredBefore(log: seq<Event>, id: nat, n: nat)
    requires n <= |log|
  {
    exists k :: 0 <= k < n && log[k] == Answered(id)
  }

  /** A command goes out only when every earlier command has been answered, and ids never repeat. */
  ghost predicate Serial(log: seq<Event>) {
    && (forall i, j :: 0 <= i < j < |log| && log[i].Sent? && log[j].Sent? ==>
          log[i].id < log[j].id && AnsweredBefore(log, log[i].id, j))
    && (forall j :: 0 <= j < |log| && log[j].Answered? ==> j > 0 && log[j - 1] == Sent(log[j].id))
  }

  ghost predicate Inv(c: Channel) {
    && Serial(c.log)
    && (forall i :: 0 <= i < |c.log| && c.log[i].Sent? ==> c.log[i].id <= c.nextId)
    && (!c.poisoned ==>
          forall i :: 0 <= i < |c.log| && c.log[i].Sent? ==> AnsweredBefore(c.log, c.log[i].id, |c.log|))
  }

  lemma AnsweredLater(log: seq<Event>, more: seq<Event>, id: nat, n: nat)
    requires n <= |log| && AnsweredBefore(log, id, n)
    ensures AnsweredBefore(log + more, id, n)
  {
    var k :| 0 <= k < n && log[k] == Answered(id);
    assert (log + more)[k] == Answered(id);
  }

  lemma SendInv(c: Channel, id: nat)
    requires Inv(c) && !c.poisoned && id == c.nextId + 1
    ensures Inv(Channel(id, true, c.log + [Sent(id)]))
  {
    var log := c.log + [Sent(id)];
    forall i, j | 0 <= i < j < |log| && log[i].Sent? && log[j].Sent?
      ensures log[i].id < log[j].id && AnsweredBefore(log, log[i].id, j)
    {
      AnsweredLater(c.log, [Sent(id)], log[i].id, j);
    }
  }

  lemma AnswerSerial(log: seq<Event>, id: nat)
    requires Serial(log) && log != [] && log[|log| - 1] == Sent(id)
    ensures Serial(log + [Answered(id)])
  {
    var more := log + [Answered(id)];
    forall i, j | 0 <= i < j < |more| && more[i].Sent? && more[j].Sent?
      ensures more[i].id < more[j].id && AnsweredBefore(more, more[i].id, j)
    {
      assert more[i] == log[i] && more[j] == log[j];
      AnsweredLater(log, [Answered(id)], log[i].id, j);
    }
  }

  /** In a serial log that ends with an answer, everything sent has been answered. */
  lemma AllAnswered(log: seq<Event>, id: nat, i: nat)
    requires Serial(log) && |log| >= 2 && log[|log| - 2] == Sent(id) && log[|log| - 1] == Answered(id)
    requires i < |log| && log[i].Sent?
    ensures AnsweredBefore(log, log[i].id, |log|)
  {
    if i < |log| - 2 {
      assert AnsweredBefore(log, log[i].id, |log| - 2);
    }
  }

  lemma AnswerInv(c: Channel, id: nat)
    requires Inv(c) && !c.poisoned && id == c.nextId + 1
    ensures Inv(Channel(id, false, c.log + [Sent(id)] + [Answered(id)]))
  {
    SendInv(c, id);
    var sent := c.log + [Sent(id)];
    var log := sent + [Answered(id)];
    AnswerSerial(sent, id);
    forall i | 0 <= i < |log| && log[i].Sent? ensures AnsweredBefore(log, log[i].id, |log|) {
      AllAnswered(log, id, i);
    }
  }

  lemma AfterCallCases(c: Channel, course: Course)
    ensures
      var id, after := c.nextId + 1, AfterCall(c, course).0;
      if c.poisoned then after == c
      else after == Channel(id, true, c.log + [Sent(id)]) || after == Channel(id, false, c.log + [Sent(id)] + [Answered(id)])
  {
  }

  lemma CallInv(c: Channel, course: Course)
    requires Inv(c)
    ensures Inv(AfterCall(c, course).0)
  {
    AfterCallCases(c, course);
    if !c.poisoned {
      SendInv(c, c.nextId + 1);
      AnswerInv(c, c.nextId + 1);
    }
  }

  lemma {:induction false} CallsInv(c: Channel, courses: seq<Course>)
    requires Inv(c)
    ensures Inv(AfterCalls(c, courses))
    decreases courses
  {
    if courses != [] {
      CallInv(c, courses[0]);
      CallsInv(AfterCall(c, courses[0]).0, courses[1..]);
    }
  }

  /** Whatever frames arrive in whatever calls, the channel stays serial. */
  lemma ChannelSerial(courses: seq<Course>)
    ensures Serial(AfterCalls(FRESH, courses).log)
  {
    CallsInv(FRESH, courses);
  }

  /** A call that returns a response returns the one carrying its own id. */
  lemma {:induction false} OwnResponse(frames: seq<Frame>, id: nat)
    requires Response(frames, id).Some?
    ensures Response(frames, id).value.Text? && Response(frames, id).value.id == Some(id)
    ensures Response(frames, id).value in frames
  {
    if Skipped(frames[0], id) {
      OwnResponse(frames[1..], id);
    }
  }

  lemma {:induction false} PoisonedForever(c: Channel, courses: seq<Course>)
    requires c.poisoned
    ensures AfterCalls(c, courses) == c
    decreases courses
  {
    if courses != [] {
      PoisonedForever(c, courses[1..]);
    }
  }

  /** Once the outcome of a call is unknown, nothing is ever sent again. */
  lemma NothingAfterUnknown(c: Channel, course: Course, later: seq<Course>)
    requires AfterCall(c, course).1.Unknown?
    ensures AfterCalls(c, [course] + later) == AfterCall(c, course).0
    ensures AfterCall(c, course).0.log == c.log + [Sent(c.nextId + 1)]
  {
    assert ([course] + later)[1..] == later;
    PoisonedForever(AfterCall(c, course).0, later);
  }
}
