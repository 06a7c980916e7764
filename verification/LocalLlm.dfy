/**
 Flow control of a local LLM stream (bud/src/local_llm.rs): reassembly of the request body from
 offset-checked chunks, and the response sent in segments paid for with credit.
 */
module LocalLlm {
  import opened Wrappers
  import opened Collections

  const MAX_U64: nat := 0xFFFF_FFFF_FFFF_FFFF
  const DEFAULT_INITIAL_CREDIT_BYTES: nat := 1024 * 1024
  const DEFAULT_MAX_CHUNK_BYTES: nat := 16 * 1024
  const MAX_CHUNK_BYTES_LIMIT: nat := 1024 * 1024
  const MAX_REQUEST_BODY_BYTES: nat := 64 * 1024 * 1024
  const MAX_RESPONSE_BODY_BYTES: nat := 64 * 1024 * 1024

  /** What arrives on a stream; `Stop` is a closed channel or an idle timeout. */
  datatype Event =
    | Credit(bytes: nat)
    | RequestBody(offset: nat, data: Bytes, endStream: bool)
    | Reset
    | Stop

  // ---------------------------------------------------------------------------
  // The request body
  // ---------------------------------------------------------------------------

  /** The body data of all events, in order. */
  function Joined(events: seq<Event>): Bytes {
    if events == [] then []
    else
      var last := |events| - 1;
      Joined(events[..last]) + (if events[last].RequestBody? then events[last].data else [])
  }

  /** An event that keeps the reader waiting for more. */
  ghost predicate Continues(events: seq<Event>, i: nat)
    requires i < |events|
  {
    events[i].Credit? || (events[i].RequestBody? && !events[i].endStream && events[i].offset == |Joined(events[..i])|)
  }

  /** Contiguous chunks that do not yet make up the advertised body. */
  ghost predicate Pending(expected: nat, events: seq<Event>) {
    && (forall i :: 0 <= i < |events| ==> Continues(events, i))
    && (|Joined(events)| < expected || (expected == 0 && Joined(events) == []))
  }

  /** The chunk that makes up the advertised length; an empty body needs an end-of-stream mark. */
  predicate Finishes(expected: nat, body: Bytes, event: Event) {
    && event.RequestBody? && event.offset == |body|
    && |body| + |event.data| == expected
    && (expected == 0 ==> event.endStream)
  }

  /** The first `k` events deliver the whole body, the last of them its last chunk. */
  ghost predicate Delivers(expected: nat, events: seq<Event>, k: nat) {
    && 0 < k <= |events|
    && Pending(expected, events[..k - 1])
    && Finishes(expected, Joined(events[..k - 1]), events[k - 1])
  }

  datatype Outcome = Complete(body: Bytes, used: nat) | Failed | Waiting

  lemma JoinedSnoc(events: seq<Event>, i: nat)
    requires i < |events|
    ensures Joined(events[..i + 1]) == Joined(events[..i]) + if events[i].RequestBody? then events[i].data else []
  {
    assert events[..i + 1][..i] == events[..i];
  }

  lemma {:induction false} JoinedGrows(events: seq<Event>, i: nat, j: nat)
    requires i <= j <= |events|
    ensures |Joined(events[..i])| <= |Joined(events[..j])|
  {
    if i < j {
      JoinedGrows(events, i, j - 1);
      JoinedSnoc(events, j - 1);
    }
  }

  lemma PendingPrefix(expected: nat, events: seq<Event>, i: nat, j: nat)
    requires i <= j <= |events| && Pending(expected, events[..j])
    ensures Pending(expected, events[..i])
  {
    JoinedGrows(events, i, j);
    forall k | 0 <= k < i ensures Continues(events[..i], k) {
      assert Continues(events[..j], k);
      assert events[..i][..k] == events[..j][..k];
    }
  }

  lemma PendingSnoc(expected: nat, events: seq<Event>, i: nat)
    requires i < |events| && Pending(expected, events[..i])
    ensures Pending(expected, events[..i + 1]) <==>
      Continues(events, i) && (|Joined(events[..i + 1])| < expected || (expected == 0 && Joined(events[..i + 1]) == []))
  {
    var s := events[..i + 1];
    assert s[..i] == events[..i];
    forall k | 0 <= k < i ensures Continues(s, k) {
      assert Continues(events[..i], k);
      assert s[..k] == events[..i][..k];
    }
    assert Continues(s, i) <==> Continues(events, i);
  }

  /** While the reader waits, nothing has been delivered; and a stuck reader never gets a body. */
  lemma NothingDelivered(expected: nat, events: seq<Event>, i: nat, k: nat)
    requires i <= |events| && Pending(expected, events[..i])
    requires k <= i || (i < |events| && !Pending(expected, events[..i + 1])
                        && !Finishes(expected, Joined(events[..i]), events[i]))
    ensures !Delivers(expected, events, k)
  {
    if Delivers(expected, events, k) {
      if k <= i {
        PendingPrefix(expected, events, k, i);
        PendingSnoc(expected, events, k - 1);
        JoinedSnoc(events, k - 1);
      } else if k > i + 1 {
        PendingPrefix(expected, events, i + 1, k - 1);
      }
    }
  }

  lemma NeverDelivered(expected: nat, events: seq<Event>, i: nat)
    requires i <= |events| && Pending(expected, events[..i])
    requires i < |events| ==> !Pending(expected, events[..i + 1]) && !Finishes(expected, Joined(events[..i]), events[i])
    ensures forall k: nat :: !Delivers(expected, events, k)
    ensures Pending(expected, events) <==> i == |events|
  {
    forall k: nat ensures !Delivers(expected, events, k) {
      if k <= |events| {
        NothingDelivered(expected, events, i, k);
      }
    }
    assert events[..|events|] == events;
    if i < |events| && Pending(expected, events) {
      PendingPrefix(expected, events, i + 1, |events|);
    }
  }

  /**
   The request-body reader: it returns a body exactly when the events deliver one, and that body is
   the concatenation of the chunks; it waits exactly while the events are pending.
   */
  method ReadRequestBody(expected: nat, events: seq<Event>) returns (r: Outcome)
    ensures expected > 67108864 ==> r.Failed?
    ensures expected <= 67108864 ==>
      && (forall k: nat :: Delivers(expected, events, k) <==> r.Complete? && r.used == k)
      && (r.Complete? ==> r.used <= |events| && r.body == Joined(events[..r.used]) && |r.body| == expected)
      && (r.Waiting? <==> Pending(expected, events))
  {
    if expected > MAX_REQUEST_BODY_BYTES {
      return Failed;
    }
    var body: Bytes := [];
    var i := 0;
    while |body| < expected || expected == 0
      invariant i <= |events| && body == Joined(events[..i])
      invariant if |body| < expected || expected == 0 then Pending(expected, events[..i])
                else |body| == expected && Delivers(expected, events, i)
      decreases |events| - i
    {
      if i == |events| {
        NeverDelivered(expected, events, i);
        return Waiting;
      }
      var event := events[i];
      JoinedSnoc(events, i);
      PendingSnoc(expected, events, i);
      if !Pending(expected, events[..i + 1]) && !Finishes(expected, body, event) {
        NeverDelivered(expected, events, i);
      }
      i := i + 1;
      match event {
        case Credit(_) =>
        case Reset =>
          return Failed;
        case Stop =>
          return Failed;
        case RequestBody(offset, data, endStream) =>
          if offset != |body| {
            return Failed;
          }
          if |body| + |data| > expected {
            return Failed;
          }
          body := body + data;
          if endStream {
            if |body| != expected {
              return Failed;
            }
            break;
          }
      }
    }
    Delivered(expected, events, i);
    return Complete(body, i);
  }

  lemma Delivered(expected: nat, events: seq<Event>, n: nat)
    requires Delivers(expected, events, n)
    ensures forall k: nat :: Delivers(expected, events, k) <==> k == n
    ensures !Pending(expected, events)
  {
    forall k: nat | Delivers(expected, events, k) ensures k == n {
      if k < n {
        NothingDelivered(expected, events, n - 1, k);
      } else if n < k {
        NothingDelivered(expected, events, k - 1, n);
      }
    }
    if Pending(expected, events) {
      assert events[..|events|] == events;
      NothingDelivered(expected, events, |events|, n);
    }
  }

  // ---------------------------------------------------------------------------
  // The response
  // ---------------------------------------------------------------------------

  /** What the local server delivers. */
  datatype Upstream = Data(bytes: Bytes) | End | ReadError | Idle

  /** One stream_data frame. */
  datatype Segment = Segment(offset: nat, data: Bytes)

  /** The response carried by an upstream history: its data up to the first other item. */
  function Response(ups: seq<Upstream>): Bytes {
    if ups == [] || !ups[0].Data? then [] else ups[0].bytes + Response(ups[1..])
  }

  function Flat(segments: seq<Segment>): Bytes {
    if segments == [] then []
    else
      var last := |segments| - 1;
      Flat(segments[..last]) + segments[last].data
  }

  /** Credit granted by a run of credit events. */
  function Granted(events: seq<Event>): nat {
    if events == [] then 0
    else
      var last := |events| - 1;
      Granted(events[..last]) + if events[last].Credit? then events[last].bytes else 0
  }

  function SaturatingAdd(a: nat, b: nat): nat {
    if a + b > MAX_U64 then MAX_U64 else a + b
  }

  /** What a saturating addition discards: nothing unless the sum exceeds the counter. */
  function Excess(a: nat, b: nat): nat {
    a + b - SaturatingAdd(a, b)
  }

  /**
   The sender's variables: what it has sent, the credit left, how many events it has consumed, and the
   credit that was lost because adding it would have exceeded the counter.
   */
  datatype Sender = Sender(segments: seq<Segment>, credit: nat, used: nat, lost: nat) {
    function Sent(): nat { |Flat(segments)| }
  }

  /** Offsets are contiguous from 0 and every segment is between 1 and `limit` bytes long. */
  ghost predicate Framed(segments: seq<Segment>, limit: nat) {
    forall i :: 0 <= i < |segments| ==>
      segments[i].offset == |Flat(segments[..i])| && 1 <= |segments[i].data| <= limit
  }

  /**
   Credit accounting: all credit applied has been spent on bytes sent, is left, or was lost to an
   addition that saturated; nothing can be lost unless more was granted than the counter holds.
   */
  ghost predicate Paid(initial: nat, events: seq<Event>, s: Sender) {
    && s.used <= |events| && s.credit <= MAX_U64
    && var total := initial + Granted(events[..s.used]);
       s.Sent() + s.credit + s.lost == total && (s.lost > 0 ==> total > MAX_U64)
  }

  lemma GrantedSnoc(events: seq<Event>, i: nat)
    requires i < |events|
    ensures Granted(events[..i + 1]) == Granted(events[..i]) + if events[i].Credit? then events[i].bytes else 0
  {
    assert events[..i + 1][..i] == events[..i];
  }

  /** The events from one point to another are all credit. */
  ghost predicate Credits(events: seq<Event>, from: nat, to: nat) {
    from <= to <= |events| && forall i :: from <= i < to ==> events[i].Credit?
  }

  /** The last event taken was not credit. */
  predicate Interrupted(events: seq<Event>, used: nat) {
    0 < used <= |events| && !events[used - 1].Credit?
  }

  /** Takes one event; anything but credit ends the stream. */
  method TakeEvent(initial: nat, events: seq<Event>, s: Sender) returns (s': Sender, ok: bool)
    requires Paid(initial, events, s) && s.used < |events|
    ensures Paid(initial, events, s') && s'.segments == s.segments && s'.used == s.used + 1
    ensures ok <==> events[s.used].Credit?
    ensures s'.lost == s.lost + if ok then Excess(s.credit, events[s.used].bytes) else 0
  {
    var event := events[s.used];
    GrantedSnoc(events, s.used);
    ok := event.Credit?;
    s' := s.(used := s.used + 1);
    if ok {
      s' := s'.(credit := SaturatingAdd(s.credit, event.bytes), lost := s.lost + Excess(s.credit, event.bytes));
    }
  }

  /** Applies the events that have already arrived; how many that is depends on timing. */
  method Drain(initial: nat, events: seq<Event>, s: Sender) returns (s': Sender, ok: bool)
    requires Paid(initial, events, s)
    ensures Paid(initial, events, s') && s'.segments == s.segments && s'.used >= s.used
    ensures !ok ==> Interrupted(events, s'.used)
    ensures ok ==> Credits(events, s.used, s'.used)
  {
    s', ok := s, true;
    while s'.used < |events|
      invariant Paid(initial, events, s') && s'.segments == s.segments && s'.used >= s.used && ok
      invariant Credits(events, s.used, s'.used)
      decreases |events| - s'.used
    {
      var empty := *;
      if empty {
        return;
      }
      s', ok := TakeEvent(initial, events, s');
      if !ok {
        return;
      }
    }
  }

  /** Before the next upstream item: the events drained first, and those that the select loop takes. */
  method BeforeChunk(initial: nat, events: seq<Event>, s: Sender) returns (s': Sender, ok: bool)
    requires Paid(initial, events, s)
    ensures Paid(initial, events, s') && s'.segments == s.segments && s'.used >= s.used
    ensures !ok ==> Interrupted(events, s'.used)
    ensures ok ==> Credits(events, s.used, s'.used)
  {
    s', ok := Drain(initial, events, s);
    if ok {
      s', ok := Drain(initial, events, s');
    }
  }

  /** Whether the sender may go on, has been interrupted, or is short of credit with no event left. */
  datatype Progress = Ready | Ended | Starved

  ghost predicate Explains(progress: Progress, events: seq<Event>, limit: nat, s: Sender) {
    && (progress.Ended? ==> Interrupted(events, s.used))
    && (progress.Starved? ==> s.used == |events| && s.credit < limit)
  }

  /** Waits until the next segment is paid for; anything but credit ends the wait. */
  method WaitForCredit(initial: nat, events: seq<Event>, s: Sender, needed: nat)
    returns (s': Sender, progress: Progress)
    requires Paid(initial, events, s)
    ensures Paid(initial, events, s') && s'.segments == s.segments && s'.used >= s.used
    ensures progress.Ready? ==> s'.credit >= needed
    ensures Explains(progress, events, needed, s')
    ensures !progress.Ended? ==> Credits(events, s.used, s'.used)
  {
    s' := s;
    while s'.credit < needed
      invariant Paid(initial, events, s') && s'.segments == s.segments && s'.used >= s.used
      invariant Credits(events, s.used, s'.used)
      decreases |events| - s'.used
    {
      if s'.used == |events| {
        return s', Starved;
      }
      var ok;
      s', ok := TakeEvent(initial, events, s');
      if !ok {
        return s', Ended;
      }
    }
    return s', Ready;
  }

  lemma FlatSnoc(segments: seq<Segment>, x: Segment)
    ensures Flat(segments + [x]) == Flat(segments) + x.data
  {
    assert (segments + [x])[..|segments|] == segments;
  }

  lemma FramedSnoc(segments: seq<Segment>, x: Segment, limit: nat)
    requires Framed(segments, limit) && x.offset == |Flat(segments)| && 1 <= |x.data| <= limit
    ensures Framed(segments + [x], limit)
  {
    var t := segments + [x];
    forall i | 0 <= i < |t| ensures t[i].offset == |Flat(t[..i])| && 1 <= |t[i].data| <= limit {
      assert i < |segments| ==> t[..i] == segments[..i];
      assert i == |segments| ==> t[..i] == segments;
    }
  }

  /** Sends one segment that is paid for. */
  method Emit(initial: nat, events: seq<Event>, limit: nat, s: Sender, segment: Bytes) returns (s': Sender)
    requires Paid(initial, events, s) && Framed(s.segments, limit)
    requires 1 <= |segment| <= limit && |segment| <= s.credit
    ensures Paid(initial, events, s') && Framed(s'.segments, limit) && s'.used == s.used
    ensures Flat(s'.segments) == Flat(s.segments) + segment
  {
    var frame := Segment(s.Sent(), segment);
    FlatSnoc(s.segments, frame);
    FramedSnoc(s.segments, frame, limit);
    s' := s.(segments := s.segments + [frame], credit := s.credit - |segment|);
  }

  lemma ChunkGrows(base: Bytes, chunk: Bytes, at: nat, end: nat)
    requires at <= end <= |chunk|
    ensures (base + chunk[..at]) + chunk[at..end] == base + chunk[..end]
    ensures base <= base + chunk[..at] <= base + chunk
  {
    assert chunk[..at] + chunk[at..end] == chunk[..end];
  }

  /** Cuts one upstream chunk into segments and sends each once its credit is there. */
  method SendChunk(initial: nat, events: seq<Event>, limit: nat, s: Sender, chunk: Bytes)
    returns (s': Sender, progress: Progress)
    requires limit >= 1 && Paid(initial, events, s) && Framed(s.segments, limit)
    ensures Paid(initial, events, s') && Framed(s'.segments, limit) && s'.used >= s.used
    ensures Flat(s.segments) <= Flat(s'.segments) <= Flat(s.segments) + chunk
    ensures progress.Ready? ==> Flat(s'.segments) == Flat(s.segments) + chunk
    ensures Explains(progress, events, limit, s')
    ensures !progress.Ended? ==> Credits(events, s.used, s'.used)
  {
    s' := s;
    var at := 0;
    while at < |chunk|
      invariant at <= |chunk| && Credits(events, s.used, s'.used)
      invariant Paid(initial, events, s') && Framed(s'.segments, limit) && s'.used >= s.used
      invariant Flat(s'.segments) == Flat(s.segments) + chunk[..at]
    {
      var end := if at + limit < |chunk| then at + limit else |chunk|;
      var segment := chunk[at..end];
      ChunkGrows(Flat(s.segments), chunk, at, end);
      var ok;
      s', ok := Drain(initial, events, s');
      if !ok {
        return s', Ended;
      }
      s', progress := WaitForCredit(initial, events, s', |segment|);
      if !progress.Ready? {
        return;
      }
      s' := Emit(initial, events, limit, s', segment);
      at := end;
    }
    assert chunk[..at] == chunk;
    progress := Ready;
  }

  function Clamped(n: nat, low: nat, high: nat): nat {
    if n < low then low else if n > high then high else n
  }

  /** The largest segment a stream may send. */
  function ChunkLimit(requested: Option<nat>): (n: nat)
    ensures 1 <= n <= MAX_CHUNK_BYTES_LIMIT
  {
    var n := if requested.Some? then requested.value else DEFAULT_MAX_CHUNK_BYTES;
    if n < 1 then 1 else if n > MAX_CHUNK_BYTES_LIMIT then MAX_CHUNK_BYTES_LIMIT else n
  }

  function InitialCredit(requested: Option<nat>): nat {
    if requested.Some? then requested.value else DEFAULT_INITIAL_CREDIT_BYTES
  }

  datatype Ending = Closed(finalOffset: nat) | Stopped | StillWaiting

  lemma {:induction false} ResponseAt(ups: seq<Upstream>, n: nat)
    requires n < |ups| && forall i :: 0 <= i <= n ==> ups[i].Data?
    ensures Response(ups[..n + 1]) == Response(ups[..n]) + ups[n].bytes
  {
    if n == 0 {
      assert ups[..1][1..] == [];
    } else {
      var tail := ups[1..];
      assert ups[..n + 1][1..] == tail[..n] && ups[..n][1..] == tail[..n - 1];
      ResponseAt(tail, n - 1);
      assert ups[0].bytes + (Response(tail[..n - 1]) + tail[n - 1].bytes)
          == (ups[0].bytes + Response(tail[..n - 1])) + tail[n - 1].bytes;
    }
  }

  lemma {:induction false} ResponsePrefix(ups: seq<Upstream>, n: nat)
    requires n <= |ups| && forall i :: 0 <= i < n ==> ups[i].Data?
    ensures Response(ups) == Response(ups[..n]) + Response(ups[n..])
  {
    if n == 0 {
      assert ups[0..] == ups;
    } else {
      assert ups[..n][1..] == ups[1..][..n - 1] && ups[n..] == ups[1..][n - 1..];
      ResponsePrefix(ups[1..], n - 1);
    }
  }

  /** The upstream history breaks off before it ends. */
  ghost predicate Breaks(ups: seq<Upstream>) {
    exists i :: 0 <= i < |ups| && (ups[i].ReadError? || ups[i].Idle?)
  }

  ghost predicate AllData(ups: seq<Upstream>) {
    forall i :: 0 <= i < |ups| ==> ups[i].Data?
  }

  /** The response loop, from the credit and the segment limit that the stream was opened with. */
  method RespondWith(initial: nat, limit: nat, ups: seq<Upstream>, events: seq<Event>)
    returns (s: Sender, ending: Ending)
    requires initial <= MAX_U64 && limit >= 1
    ensures Framed(s.segments, limit) && Paid(initial, events, s)
    ensures Flat(s.segments) <= Response(ups) && s.Sent() <= MAX_RESPONSE_BODY_BYTES
    ensures ending.Closed? ==> Flat(s.segments) == Response(ups) && ending.finalOffset == |Response(ups)|
    ensures ending.Stopped? ==>
      Interrupted(events, s.used) || Breaks(ups) || |Response(ups)| > MAX_RESPONSE_BODY_BYTES
    ensures !ending.Stopped? ==> Credits(events, 0, s.used)
    ensures ending.StillWaiting? ==>
      (AllData(ups) && Flat(s.segments) == Response(ups)) || (s.used == |events| && s.credit < limit)
  {
    s := Sender([], initial, 0, 0);
    var n, responseBytes := 0, 0;
    while true
      invariant n <= |ups| && forall i :: 0 <= i < n ==> ups[i].Data?
      invariant Framed(s.segments, limit) && Paid(initial, events, s)
      invariant Flat(s.segments) == Response(ups[..n]) && responseBytes == |Response(ups[..n])|
      invariant responseBytes <= MAX_RESPONSE_BODY_BYTES && Credits(events, 0, s.used)
      decreases |ups| - n
    {
      ResponsePrefix(ups, n);
      var ok;
      s, ok := BeforeChunk(initial, events, s);
      if !ok {
        return s, Stopped;
      }
      if n == |ups| {
        assert ups[..n] == ups;
        return s, StillWaiting;
      }
      match ups[n] {
        case ReadError =>
          return s, Stopped;
        case Idle =>
          return s, Stopped;
        case End =>
          assert Response(ups[n..]) == [];
          return s, Closed(s.Sent());
        case Data(chunk) =>
          ResponseAt(ups, n);
          ResponsePrefix(ups, n + 1);
          responseBytes := responseBytes + |chunk|;
          if responseBytes > MAX_RESPONSE_BODY_BYTES {
            return s, Stopped;
          }
          var progress;
          s, progress := SendChunk(initial, events, limit, s, chunk);
          if progress.Ended? {
            return s, Stopped;
          } else if progress.Starved? {
            return s, StillWaiting;
          }
          n := n + 1;
      }
    }
  }

  /**
   The response, for every upstream history and every interleaving of its items with stream events:
   segments are contiguous from 0 and within the limit, all credit is accounted for, what is sent is
   a prefix of the response, and the stream is closed only after the whole response, with its length
   as final offset.  It stops or waits only for a reason: an interruption, a broken or oversized
   response, a response still to come, or too little credit.
   */
  method Respond(credit: Option<nat>, maxChunk: Option<nat>, ups: seq<Upstream>, events: seq<Event>)
    returns (s: Sender, ending: Ending)
    requires credit.Some? ==> credit.value <= MAX_U64
    // 1 MiB of credit and segments of 16 KiB unless the stream says otherwise, within 1 byte and 1 MiB
    ensures s.used <= |events|
    ensures s.Sent() + s.credit + s.lost
         == (match credit case Some(n) => n case None => 1048576) + Granted(events[..s.used])
    ensures s.lost > 0 ==> s.Sent() + s.credit + s.lost > 0xFFFF_FFFF_FFFF_FFFF
    ensures Framed(s.segments, Clamped(match maxChunk case Some(n) => n case None => 16384, 1, 1048576))
    ensures Flat(s.segments) <= Response(ups) && s.Sent() <= 67108864
    ensures ending.Closed? ==> Flat(s.segments) == Response(ups) && ending.finalOffset == |Response(ups)|
    ensures ending.Stopped? ==> Interrupted(events, s.used) || Breaks(ups) || |Response(ups)| > 67108864
    // it goes on or closes only as long as nothing but credit came
    ensures !ending.Stopped? ==> Credits(events, 0, s.used)
    ensures ending.StillWaiting? ==>
      || (AllData(ups) && Flat(s.segments) == Response(ups))
      || (s.used == |events| && s.credit < Clamped(match maxChunk case Some(n) => n case None => 16384, 1, 1048576))
  {
    s, ending := RespondWith(InitialCredit(credit), ChunkLimit(maxChunk), ups, events);
  }
}
