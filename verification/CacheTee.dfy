/**
 The bounded cache tee of the release server (deploy/get-bud-dev/release-delivery.js): the client
 drives the reads of the origin, and every chunk is offered to a cache writer whose unread queue is
 bounded; a cache writer that is too slow is abandoned instead of holding up the download.
 */
module CacheTee {
  import opened Wrappers
  import opened Collections

  type Chunk = seq<Byte>

  const CACHE_HIGH_WATER_MARK: nat := 256 * 1024

  function Total(chunks: seq<Chunk>): nat {
    if chunks == [] then 0 else |chunks[0]| + Total(chunks[1..])
  }

  function Flat(chunks: seq<Chunk>): Chunk {
    if chunks == [] then [] else chunks[0] + Flat(chunks[1..])
  }

  lemma {:induction false} TotalConcat(a: seq<Chunk>, b: seq<Chunk>)
    ensures Total(a + b) == Total(a) + Total(b)
  {
    if a == [] {
      assert a + b == b;
    } else {
      assert (a + b)[0] == a[0] && (a + b)[1..] == a[1..] + b;
      TotalConcat(a[1..], b);
    }
  }

  lemma {:induction false} FlatPrefix(a: seq<Chunk>, b: seq<Chunk>)
    requires a <= b
    ensures Flat(a) <= Flat(b)
  {
    if a != [] {
      FlatPrefix(a[1..], b[1..]);
    }
  }

  // ---------------------------------------------------------------------------
  // Readable streams: the controller operations of section 4.6 of the WHATWG Streams Standard
  // ---------------------------------------------------------------------------

  /** `Cancelled` is the standard's closed state when the consumer, not the source, closed it. */
  datatype StreamState = Readable | Closed | Errored | Cancelled

  datatype Stream = Stream(state: StreamState, closeRequested: bool, queue: seq<Chunk>, waiting: nat,
                           given: seq<Chunk>) {

    predicate CanCloseOrEnqueue() {
      state == Readable && !closeRequested
    }

    function Enqueue(chunk: Chunk): Result<Stream> {
      if !CanCloseOrEnqueue() then Err
      else if waiting > 0 then Ok(this.(waiting := waiting - 1, given := given + [chunk]))
      else Ok(this.(queue := queue + [chunk]))
    }

    function Close(): Result<Stream> {
      if !CanCloseOrEnqueue() then Err
      else if queue == [] then Ok(this.(closeRequested := true, state := Closed, waiting := 0))
      else Ok(this.(closeRequested := true))
    }

    function Error(): Stream {
      if state == Readable then this.(state := Errored, queue := [], waiting := 0) else this
    }

    function Cancel(): Stream {
      if state == Readable then this.(state := Cancelled, queue := [], waiting := 0) else this
    }

    /** The consumer asks for a chunk. */
    function Read(): Stream {
      if state != Readable then this
      else if queue == [] then this.(waiting := waiting + 1)
      else this.(queue := queue[1..], given := given + [queue[0]],
                 state := if closeRequested && |queue| == 1 then Closed else Readable)
    }

    /** The chunks that were accepted and not thrown away. */
    function Accepted(): seq<Chunk> {
      given + queue
    }

    predicate Valid() {
      && (waiting > 0 ==> queue == [] && !closeRequested)
      && (state != Readable ==> queue == [] && waiting == 0)
      && (state == Closed ==> closeRequested)
      && (state == Readable && closeRequested ==> queue != [])
    }
  }

  const FRESH := Stream(Readable, false, [], 0, [])

  /**
   A stream fed from the first `n` chunks of the origin: its consumer has been given some of them,
   an intact stream has accepted them all, and it is to close only when there are no more.
   */
  ghost predicate Fed(s: Stream, origin: seq<Chunk>, n: nat) {
    && n <= |origin|
    && s.Valid()
    && s.given <= origin[..n]
    && (s.state in {Readable, Closed} ==> s.Accepted() == origin[..n])
    && (s.state in {Readable, Closed} && s.closeRequested ==> n == |origin|)
  }

  lemma FedEnqueue(s: Stream, origin: seq<Chunk>, n: nat)
    requires Fed(s, origin, n) && n < |origin|
    ensures s.CanCloseOrEnqueue() ==> Fed(s.Enqueue(origin[n]).value, origin, n + 1)
    ensures !s.CanCloseOrEnqueue() ==> Fed(s, origin, n + 1)
    ensures Fed(s.Error(), origin, n + 1)
  {
    assert origin[..n + 1] == origin[..n] + [origin[n]];
  }

  lemma FedEnd(s: Stream, origin: seq<Chunk>, n: nat)
    requires Fed(s, origin, n)
    ensures n == |origin| && s.CanCloseOrEnqueue() ==> Fed(s.Close().value, origin, n)
    ensures Fed(s.Error(), origin, n) && Fed(s.Cancel(), origin, n)
  {
  }

  lemma FedRead(s: Stream, origin: seq<Chunk>, n: nat)
    requires Fed(s, origin, n)
    ensures Fed(s.Read(), origin, n) && Total(s.Read().queue) <= Total(s.queue)
  {
    if s.state == Readable && s.queue != [] {
      assert s.given + s.queue == s.given + [s.queue[0]] + s.queue[1..];
    }
  }

  lemma FedBytes(s: Stream, origin: seq<Chunk>, n: nat)
    requires Fed(s, origin, n)
    ensures Flat(s.given) <= Flat(origin)
    ensures s.state == Closed ==> s.given == origin
  {
    FlatPrefix(s.given, origin);
  }

  // ---------------------------------------------------------------------------
  // The tee
  // ---------------------------------------------------------------------------

  /** What a pull's pending read turns out to be. */
  datatype Reading = Value(chunk: Chunk) | End | Failure

  class Tee {
    const origin: seq<Chunk>    // what the origin would deliver if it never failed
    var position: nat           // chunks read from it so far
    var readerCancelled: bool
    var pulling: bool
    var caching: bool
    var client: Stream
    var cache: Stream

    constructor (origin: seq<Chunk>)
      ensures Valid() && this.origin == origin && caching && !pulling && position == 0
      ensures client == cache == Stream(Readable, false, [], 0, [])
    {
      this.origin := origin;
      position, readerCancelled, pulling, caching := 0, false, false, true;
      client, cache := FRESH, FRESH;
    }

    ghost predicate Valid()
      reads this
    {
      && Fed(client, origin, position) && Fed(cache, origin, position)
      && Total(cache.queue) <= CACHE_HIGH_WATER_MARK
      // the cache is fed as long as it has missed nothing and the download goes on
      && caching == cache.CanCloseOrEnqueue()
      && (caching ==> client.CanCloseOrEnqueue())
      && (readerCancelled ==> !client.CanCloseOrEnqueue())
    }

    method StopCache()
      modifies this`caching, this`cache
      ensures !caching && cache == if old(caching) then old(cache).Error() else old(cache)
    {
      if caching {
        caching := false;
        cache := cache.Error();
      }
    }

    /** The stream machinery calls `pull`, never while an earlier pull is unfinished. */
    method BeginPull()
      requires Valid()
      modifies this`pulling
      ensures Valid() && pulling == (old(pulling) || client.CanCloseOrEnqueue())
    {
      if !pulling && client.CanCloseOrEnqueue() {
        pulling := true;
      }
    }

    /** Which results a pending read can have. */
    predicate Possible(reading: Reading)
      reads this
    {
      match reading
      case Value(chunk) => position < |origin| && origin[position] == chunk
      case End => position == |origin| || readerCancelled
      case Failure => true
    }

    /** The chunk goes to the cache if there is room for it, or ends the caching. */
    method OfferToCache(chunk: Chunk)
      requires Valid() && Possible(Value(chunk)) && caching
      modifies this`caching, this`cache
      ensures caching <==> |chunk| <= CACHE_HIGH_WATER_MARK - Total(old(cache).queue)
      ensures caching ==> Ok(cache) == old(cache).Enqueue(chunk) && Total(cache.queue) <= CACHE_HIGH_WATER_MARK
      ensures !caching ==> cache == old(cache).Error()
    {
      var desiredSize := CACHE_HIGH_WATER_MARK - Total(cache.queue);
      if |chunk| > desiredSize {
        StopCache();
      } else {
        TotalConcat(cache.queue, [chunk]);
        cache := cache.Enqueue(chunk).value;
      }
    }

    /** The rest of `pull` once its read has a result. */
    method FinishPull(reading: Reading)
      requires Valid() && pulling && Possible(reading)
      modifies this
      ensures Valid() && !pulling && readerCancelled == old(readerCancelled)
      // a chunk read goes to the client whatever becomes of the cache
      ensures reading.Value? ==> position == old(position) + 1
      ensures !reading.Value? ==> position == old(position)
      ensures old(client).CanCloseOrEnqueue() && reading.Value? ==> Ok(client) == old(client).Enqueue(reading.chunk)
      ensures old(client).CanCloseOrEnqueue() && reading.End? ==> Ok(client) == old(client).Close()
      ensures reading.Failure? ==> client == old(client).Error()
      ensures !old(client).CanCloseOrEnqueue() ==> client == old(client).Error()
      // the cache is completed with the client, and abandoned only for lack of room or a failure
      ensures old(caching) && reading.End? ==> Ok(cache) == old(cache).Close()
      ensures old(caching) && reading.Value? ==>
        (caching <==> |reading.chunk| <= CACHE_HIGH_WATER_MARK - Total(old(cache).queue))
      ensures old(caching) && !caching && !reading.End? ==> cache.state == Errored
      ensures !old(caching) ==> cache == old(cache)
    {
      pulling := false;
      var threw := reading.Failure?;
      FedEnd(client, origin, position);
      FedEnd(cache, origin, position);
      if reading.End? {
        var closed := client.Close();
        if closed.Err? {
          threw := true;
        } else {
          client := closed.value;
          if caching {
            caching := false;
            cache := cache.Close().value;
          }
        }
      } else if reading.Value? {
        threw := FinishValue(reading.chunk);
      }
      if threw {
        FedEnd(client, origin, position);
        FedEnd(cache, origin, position);
        StopCache();
        client := client.Error();
      }
    }

    /** A chunk arrived: first the cache, then the client, whose stream may have been cancelled. */
    method FinishValue(chunk: Chunk) returns (threw: bool)
      requires Valid() && Possible(Value(chunk))
      modifies this`position, this`caching, this`cache, this`client
      ensures Valid() && position == old(position) + 1
      ensures threw == !old(client).CanCloseOrEnqueue()
      ensures if threw then client == old(client) else Ok(client) == old(client).Enqueue(chunk)
      ensures old(caching) ==> (caching <==> |chunk| <= CACHE_HIGH_WATER_MARK - Total(old(cache).queue))
      ensures old(caching) && !caching ==> cache.state == Errored
      ensures !old(caching) ==> cache == old(cache) && !caching
    {
      FedEnqueue(client, origin, position);
      FedEnqueue(cache, origin, position);
      if caching {
        OfferToCache(chunk);
      }
      position := position + 1;
      var enqueued := client.Enqueue(chunk);
      threw := enqueued.Err?;
      if !threw {
        client := enqueued.value;
      }
    }

    /** The client goes away. */
    method CancelClient()
      requires Valid()
      modifies this`client, this`caching, this`cache, this`readerCancelled
      ensures Valid() && client == old(client).Cancel()
      ensures old(client).state == Readable ==> !caching && readerCancelled
      ensures cache == if old(client).state == Readable && old(caching) then old(cache).Error() else old(cache)
    {
      FedEnd(client, origin, position);
      FedEnd(cache, origin, position);
      if client.state == Readable {
        client := client.Cancel();
        StopCache();
        readerCancelled := true;
      }
    }

    /** The cache writer gives up. */
    method CancelCache()
      requires Valid()
      modifies this`cache, this`caching
      ensures Valid() && cache == old(cache).Cancel()
    {
      FedEnd(cache, origin, position);
      if cache.state == Readable {
        caching := false;
      }
      cache := cache.Cancel();
    }

    method ReadClient()
      requires Valid()
      modifies this`client
      ensures Valid() && client == old(client).Read()
      ensures old(client).state == Readable && old(client).queue == [] ==> client.waiting == old(client).waiting + 1
    {
      FedRead(client, origin, position);
      client := client.Read();
    }

    method ReadCache()
      requires Valid()
      modifies this`cache
      ensures Valid() && cache == old(cache).Read()
      ensures old(cache).state == Readable && old(cache).queue == [] ==> cache.waiting == old(cache).waiting + 1
    {
      FedRead(cache, origin, position);
      cache := cache.Read();
    }
  }

  // ---------------------------------------------------------------------------
  // Every interleaving
  // ---------------------------------------------------------------------------

  datatype Event = BeginPull | ReadResult(reading: Reading) | CancelClient | CancelCache | ReadClient | ReadCache

  /** One event; a read result that cannot happen now does not happen. */
  method Perform(tee: Tee, event: Event)
    requires tee.Valid()
    modifies tee
    ensures tee.Valid()
    ensures event.BeginPull? ==> tee.pulling == (old(tee.pulling) || old(tee.client).CanCloseOrEnqueue())
    ensures event.ReadResult? && event.reading.Value? && old(tee.pulling && tee.Possible(event.reading)) ==>
      tee.position == old(tee.position) + 1
    ensures event == ReadResult(Failure) && old(tee.pulling) ==> tee.client == old(tee.client).Error() && !tee.pulling
    ensures event.CancelClient? ==> tee.client == old(tee.client).Cancel()
    ensures event.CancelCache? ==> tee.cache == old(tee.cache).Cancel()
    ensures event.ReadClient? ==> tee.client == old(tee.client).Read()
    ensures event.ReadCache? ==> tee.cache == old(tee.cache).Read()
  {
    match event {
      case BeginPull => tee.BeginPull();
      case ReadResult(reading) =>
        if tee.pulling && tee.Possible(reading) {
          tee.FinishPull(reading);
        }
      case CancelClient => tee.CancelClient();
      case CancelCache => tee.CancelCache();
      case ReadClient => tee.ReadClient();
      case ReadCache => tee.ReadCache();
    }
  }

  /**
   After any events in any order, the client has received a prefix of the origin's bytes, all of
   them if its stream closed; the cache has been given a prefix, all of it if its stream closed
   normally; and the cache's unread queue is within its bound.
   */
  method Deliver(origin: seq<Chunk>, events: seq<Event>) returns (client: Stream, cache: Stream)
    ensures Flat(client.given) <= Flat(origin) && Flat(cache.given) <= Flat(origin)
    ensures client.state == Closed ==> Flat(client.given) == Flat(origin)
    ensures cache.state == Closed ==> Flat(cache.given) == Flat(origin)
    ensures Total(cache.queue) <= 262144
  {
    var tee := new Tee(origin);
    for i := 0 to |events|
      invariant tee.Valid() && tee.origin == origin && fresh(tee)
    {
      Perform(tee, events[i]);
    }
    client, cache := tee.client, tee.cache;
    FedBytes(client, origin, tee.position);
    FedBytes(cache, origin, tee.position);
  }
}
