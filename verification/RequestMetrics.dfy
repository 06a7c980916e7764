/**
 Request latency histograms (service/src/request-metrics.ts): bounded rows of bucket counts, one per
 method, route and status class, and the bucket bound that covers a given share of the requests.
 Durations and quantiles are real numbers, so the product of a quantile and a count is exact.
 */
module RequestMetrics {
  import opened Wrappers

  const LATENCY_BOUNDS_MS: seq<real> :=
    [5.0, 10.0, 25.0, 50.0, 100.0, 250.0, 500.0, 1000.0, 2500.0, 5000.0, 10000.0, 30000.0]

  const BUCKETS: nat := 13

  const MAX_ROWS: nat := 2048

  const METHODS := ["GET", "HEAD", "POST", "PUT", "PATCH", "DELETE", "OPTIONS"]

  /** A JavaScript number. */
  datatype Number = Finite(value: real) | Infinite | NaN {
    predicate Measure() { Finite? && value >= 0.0 }
  }

  /** Identifies a row; the status class is the hundreds of the status code. */
  datatype Key = Key(verb: string, route: string, statusClass: int)

  /** One count per bound, and one for what exceeds them all. */
  type Counts = s: seq<nat> | |s| == BUCKETS witness seq(BUCKETS, _ => 0)

  datatype Row = Row(count: nat, sumMs: real, buckets: Counts, responseBytes: real, measuredBytesCount: nat)

  datatype Observation = Observation(verb: string, route: string, status: int, duration: Number, bytes: Option<Number>) {
    predicate Accepted() { duration.Measure() }

    /** Division by a positive number rounds down, as `Math.floor` does. */
    function RowKey(): Key {
      Key(if verb in METHODS then verb else "OTHER", route, status / 100)
    }

    function Elapsed(): real { if duration.Finite? then duration.value else 0.0 }

    predicate Measured() { bytes.Some? && bytes.value.Measure() }
  }

  // ---------------------------------------------------------------------------
  // What a row is to say about the observations it stands for
  // ---------------------------------------------------------------------------

  /** The first bucket whose bound is not below `d`; the last bucket has no bound. */
  function BucketOf(d: real, i: nat := 0): (r: nat)
    requires i <= |LATENCY_BOUNDS_MS|
    ensures i <= r < BUCKETS
    ensures r < |LATENCY_BOUNDS_MS| ==> d <= LATENCY_BOUNDS_MS[r]
    ensures forall j :: i <= j < r ==> LATENCY_BOUNDS_MS[j] < d
    decreases |LATENCY_BOUNDS_MS| - i
  {
    if i == |LATENCY_BOUNDS_MS| || d <= LATENCY_BOUNDS_MS[i] then i else BucketOf(d, i + 1)
  }

  function Durations(observed: seq<Observation>): seq<real> {
    if observed == [] then []
    else Durations(observed[..|observed| - 1]) + [observed[|observed| - 1].Elapsed()]
  }

  function Sum(s: seq<real>): real {
    if s == [] then 0.0 else Sum(s[..|s| - 1]) + s[|s| - 1]
  }

  /** How many durations belong in bucket `i`. */
  function InBucket(durations: seq<real>, i: nat): nat {
    if durations == [] then 0
    else
      var last := |durations| - 1;
      InBucket(durations[..last], i) + if BucketOf(durations[last]) == i then 1 else 0
  }

  function Buckets(durations: seq<real>): Counts {
    seq(BUCKETS, (i: nat) => InBucket(durations, i))
  }

  /** How many durations do not exceed `bound`. */
  function AtMost(durations: seq<real>, bound: real): nat {
    if durations == [] then 0
    else
      var last := |durations| - 1;
      AtMost(durations[..last], bound) + if durations[last] <= bound then 1 else 0
  }

  /** The reported sizes of responses. */
  function Sizes(observed: seq<Observation>): seq<real> {
    if observed == [] then []
    else
      var last := |observed| - 1;
      Sizes(observed[..last]) + if observed[last].Measured() then [observed[last].bytes.value.value] else []
  }

  function Summary(observed: seq<Observation>): Row {
    Row(|observed|, Sum(Durations(observed)), Buckets(Durations(observed)), Sum(Sizes(observed)), |Sizes(observed)|)
  }

  /** The accepted observations for one key, in order. */
  function Recorded(history: seq<Observation>, key: Key): (r: seq<Observation>)
    ensures forall o :: o in r ==> o.Accepted() && o.RowKey() == key
  {
    if history == [] then []
    else
      var last := history[|history| - 1];
      Recorded(history[..|history| - 1], key) + if last.Accepted() && last.RowKey() == key then [last] else []
  }

  /** How many accepted observations are for other keys than the given ones. */
  function Outside(history: seq<Observation>, keys: seq<Key>): nat {
    if history == [] then 0
    else
      var last := history[|history| - 1];
      Outside(history[..|history| - 1], keys) + if last.Accepted() && last.RowKey() !in keys then 1 else 0
  }

  function AcceptedCount(history: seq<Observation>): nat {
    if history == [] then 0
    else AcceptedCount(history[..|history| - 1]) + if history[|history| - 1].Accepted() then 1 else 0
  }

  predicate Distinct(keys: seq<Key>) {
    forall i, j :: 0 <= i < j < |keys| ==> keys[i] != keys[j]
  }

  // ---------------------------------------------------------------------------
  // Histories one observation longer
  // ---------------------------------------------------------------------------


  lemma {:induction false} OutsideFewer(history: seq<Observation>, keys: seq<Key>, key: Key)
    requires key !in keys
    ensures Outside(history, keys) == Outside(history, keys + [key]) + |Recorded(history, key)|
  {
    if history != [] {
      OutsideFewer(history[..|history| - 1], keys, key);
    }
  }

  function Bumped(buckets: Counts, i: nat): Counts
    requires i < BUCKETS
  {
    buckets[i := buckets[i] + 1]
  }

  lemma SumSnoc(s: seq<real>, d: real)
    ensures Sum(s + [d]) == Sum(s) + d
  {
    assert (s + [d])[..|s|] == s;
  }

  lemma InBucketSnoc(durations: seq<real>, d: real, i: nat)
    ensures InBucket(durations + [d], i) == InBucket(durations, i) + if BucketOf(d) == i then 1 else 0
  {
    assert (durations + [d])[..|durations|] == durations;
  }

  lemma BucketsSnoc(durations: seq<real>, d: real)
    ensures Buckets(durations + [d]) == Bumped(Buckets(durations), BucketOf(d))
  {
    var a, b := Buckets(durations + [d]), Bumped(Buckets(durations), BucketOf(d));
    forall i: nat | i < |a| ensures a[i] == b[i] {
      InBucketSnoc(durations, d, i);
    }
  }

  /** A row takes in one more observation. */
  function Added(row: Row, o: Observation): Row
  {
    var timed := row.(count := row.count + 1, sumMs := row.sumMs + o.Elapsed(),
                      buckets := Bumped(row.buckets, BucketOf(o.Elapsed())));
    if o.Measured() then
      timed.(responseBytes := timed.responseBytes + o.bytes.value.value, measuredBytesCount := timed.measuredBytesCount + 1)
    else timed
  }

  lemma DurationsSnoc(observed: seq<Observation>, o: Observation)
    ensures Durations(observed + [o]) == Durations(observed) + [o.Elapsed()]
  {
    assert (observed + [o])[..|observed|] == observed;
  }

  lemma SizesSnoc(observed: seq<Observation>, o: Observation)
    ensures o.Measured() ==> Sizes(observed + [o]) == Sizes(observed) + [o.bytes.value.value]
    ensures !o.Measured() ==> Sizes(observed + [o]) == Sizes(observed)
  {
    assert (observed + [o])[..|observed|] == observed;
  }

  lemma SummarySnoc(observed: seq<Observation>, o: Observation)
    ensures Summary(observed + [o]) == Added(Summary(observed), o)
  {
    DurationsSnoc(observed, o);
    BucketsSnoc(Durations(observed), o.Elapsed());
    SumSnoc(Durations(observed), o.Elapsed());
    SizesSnoc(observed, o);
    if o.Measured() {
      SumSnoc(Sizes(observed), o.bytes.value.value);
    }
  }

  const EMPTY_ROW := Row(0, 0.0, [0, 0, 0, 0, 0, 0, 0, 0, 0, 0, 0, 0, 0], 0.0, 0)

  lemma SummaryEmpty()
    ensures Summary([]) == EMPTY_ROW
  {
    assert Durations([]) == [];
  }

  // ---------------------------------------------------------------------------
  // The metrics object
  // ---------------------------------------------------------------------------

  /** What `drain` hands out. */
  datatype Report = Report(dropped: nat, routes: seq<(Key, Row)>)

  /** A row that stands for all observations of its key, of which there are some. */
  ghost predicate RowTrue(row: Row, history: seq<Observation>, key: Key) {
    Recorded(history, key) != [] && row == Summary(Recorded(history, key))
  }

  ghost predicate RowsTrue(rows: map<Key, Row>, history: seq<Observation>) {
    forall k :: k in rows ==> RowTrue(rows[k], history, k)
  }

  /** Keys in the order of their rows, of which there is a bounded number. */
  ghost predicate Ordered(keys: seq<Key>, rows: map<Key, Row>) {
    Distinct(keys) && |keys| <= MAX_ROWS && forall k :: k in keys <==> k in rows
  }

  /** Rows and dropped observations that account for all of a history. */
  ghost predicate Accurate(keys: seq<Key>, rows: map<Key, Row>, dropped: nat, history: seq<Observation>) {
    && Ordered(keys, rows)
    && RowsTrue(rows, history)
    && dropped == Outside(history, keys)
    && (|keys| < MAX_ROWS ==> dropped == 0)
  }

  lemma RecordedSnoc(history: seq<Observation>, o: Observation, key: Key)
    ensures o.Accepted() && o.RowKey() == key ==> Recorded(history + [o], key) == Recorded(history, key) + [o]
    ensures !(o.Accepted() && o.RowKey() == key) ==> Recorded(history + [o], key) == Recorded(history, key)
  {
    assert (history + [o])[..|history|] == history;
  }

  lemma OutsideSnoc(history: seq<Observation>, o: Observation, keys: seq<Key>)
    ensures Outside(history + [o], keys) == Outside(history, keys) + if o.Accepted() && o.RowKey() !in keys then 1 else 0
  {
    assert (history + [o])[..|history|] == history;
  }

  lemma RowKept(row: Row, history: seq<Observation>, key: Key, o: Observation)
    requires RowTrue(row, history, key) && !(o.Accepted() && o.RowKey() == key)
    ensures RowTrue(row, history + [o], key)
  {
    RecordedSnoc(history, o, key);
  }

  lemma RowGrown(row: Row, history: seq<Observation>, o: Observation)
    requires row == Summary(Recorded(history, o.RowKey())) && o.Accepted()
    ensures RowTrue(Added(row, o), history + [o], o.RowKey())
  {
    RecordedSnoc(history, o, o.RowKey());
    SummarySnoc(Recorded(history, o.RowKey()), o);
  }

  lemma RowsUpdated(rows: map<Key, Row>, row: Row, history: seq<Observation>, o: Observation)
    requires RowsTrue(rows, history) && RowTrue(row, history + [o], o.RowKey())
    ensures RowsTrue(rows[o.RowKey() := row], history + [o])
  {
    forall k | k in rows && k != o.RowKey() ensures RowTrue(rows[k], history + [o], k) {
      RowKept(rows[k], history, k, o);
    }
  }

  /** An observation that is not accepted, or finds no room for a row, leaves the rows as they are. */
  lemma ObservedWithoutRow(keys: seq<Key>, rows: map<Key, Row>, dropped: nat, history: seq<Observation>, o: Observation)
    requires Accurate(keys, rows, dropped, history)
    requires !o.Accepted() || (o.RowKey() !in rows && |keys| >= MAX_ROWS)
    ensures Accurate(keys, rows, if o.Accepted() then dropped + 1 else dropped, history + [o])
  {
    OutsideSnoc(history, o, keys);
    forall k | k in rows ensures RowTrue(rows[k], history + [o], k) {
      RowKept(rows[k], history, k, o);
    }
  }

  lemma OrderedUpdate(keys: seq<Key>, rows: map<Key, Row>, key: Key, row: Row)
    requires Ordered(keys, rows)
    ensures key in rows ==> Ordered(keys, rows[key := row])
    ensures key !in rows && |keys| < MAX_ROWS ==> Ordered(keys + [key], rows[key := row])
  {
  }

  lemma ObservedInRow(keys: seq<Key>, rows: map<Key, Row>, dropped: nat, history: seq<Observation>, o: Observation)
    requires Accurate(keys, rows, dropped, history) && o.Accepted() && o.RowKey() in rows
    ensures Accurate(keys, rows[o.RowKey() := Added(rows[o.RowKey()], o)], dropped, history + [o])
  {
    var row := Added(rows[o.RowKey()], o);
    OutsideSnoc(history, o, keys);
    RowGrown(rows[o.RowKey()], history, o);
    RowsUpdated(rows, row, history, o);
    OrderedUpdate(keys, rows, o.RowKey(), row);
  }

  lemma NewKeyUnseen(history: seq<Observation>, keys: seq<Key>, key: Key)
    requires Outside(history, keys) == 0 && key !in keys
    ensures Recorded(history, key) == [] && Outside(history, keys + [key]) == 0
  {
    OutsideFewer(history, keys, key);
  }

  lemma NewRowTrue(history: seq<Observation>, o: Observation)
    requires Recorded(history, o.RowKey()) == [] && o.Accepted()
    ensures RowTrue(Added(EMPTY_ROW, o), history + [o], o.RowKey())
  {
    SummaryEmpty();
    RowGrown(EMPTY_ROW, history, o);
  }

  lemma ObservedInNewRow(keys: seq<Key>, rows: map<Key, Row>, dropped: nat, history: seq<Observation>, o: Observation)
    requires Accurate(keys, rows, dropped, history) && o.Accepted() && o.RowKey() !in rows && |keys| < MAX_ROWS
    ensures Accurate(keys + [o.RowKey()], rows[o.RowKey() := Added(EMPTY_ROW, o)], dropped, history + [o])
  {
    var row := Added(EMPTY_ROW, o);
    NewKeyUnseen(history, keys, o.RowKey());
    OutsideSnoc(history, o, keys + [o.RowKey()]);
    NewRowTrue(history, o);
    RowsUpdated(rows, row, history, o);
    OrderedUpdate(keys, rows, o.RowKey(), row);
  }

  /** The fields of the metrics object. */
  datatype Table = Table(order: seq<Key>, rows: map<Key, Row>, overflow: nat)

  /** What one observation makes of them. */
  function Observed(t: Table, o: Observation): Table {
    if !o.Accepted() then t
    else if o.RowKey() in t.rows then
      Table(t.order, t.rows[o.RowKey() := Added(t.rows[o.RowKey()], o)], t.overflow)
    else if |t.order| >= MAX_ROWS then Table(t.order, t.rows, t.overflow + 1)
    else Table(t.order + [o.RowKey()], t.rows[o.RowKey() := Added(EMPTY_ROW, o)], t.overflow)
  }

  /** One more observation leaves the table an account of all of them. */
  lemma ObservedAccurate(t: Table, history: seq<Observation>, o: Observation)
    requires Accurate(t.order, t.rows, t.overflow, history)
    ensures var t' := Observed(t, o); Accurate(t'.order, t'.rows, t'.overflow, history + [o])
  {
    if !o.Accepted() || (o.RowKey() !in t.rows && |t.order| >= MAX_ROWS) {
      ObservedWithoutRow(t.order, t.rows, t.overflow, history, o);
    } else if o.RowKey() in t.rows {
      ObservedInRow(t.order, t.rows, t.overflow, history, o);
    } else {
      ObservedInNewRow(t.order, t.rows, t.overflow, history, o);
    }
  }

  class RequestMetrics {
    var rows: map<Key, Row>
    var order: seq<Key>           // the insertion order that the map remembers
    var overflow: nat
    ghost var history: seq<Observation>   // everything observed since the last drain

    ghost predicate Valid()
      reads this
    {
      Accurate(order, rows, overflow, history)
    }

    constructor ()
      ensures Valid() && history == []
    {
      rows, order, overflow, history := map[], [], 0, [];
    }

    ghost function Fields(): Table
      reads this
    {
      Table(order, rows, overflow)
    }

    /** The updates in place. */
    method Count(o: Observation)
      modifies this`rows, this`order, this`overflow
      ensures Fields() == Observed(old(Fields()), o)
    {
      if !o.Accepted() {
        return;
      }
      var key := o.RowKey();
      var row := EMPTY_ROW;
      if key in rows {
        row := rows[key];
      } else {
        if |order| >= MAX_ROWS {
          overflow := overflow + 1;
          return;
        }
        order := order + [key];
      }
      rows := rows[key := Added(row, o)];
    }

    method Observe(o: Observation)
      requires Valid()
      modifies this
      ensures Valid() && history == old(history) + [o]
      ensures Fields() == Observed(old(Fields()), o)
    {
      ghost var t, before := Fields(), history;
      ObservedAccurate(t, before, o);
      Count(o);
      history := before + [o];
      assert order == Observed(t, o).order && rows == Observed(t, o).rows && overflow == Observed(t, o).overflow;
    }

    /** Hands out the rows in the order in which they were opened, and starts afresh. */
    method Drain() returns (report: Report)
      requires Valid()
      modifies this
      ensures Valid() && history == []
      ensures report.dropped == old(overflow) && |report.routes| == |old(order)|
      ensures forall i :: 0 <= i < |old(order)| ==>
        old(order)[i] in old(rows) && report.routes[i] == (old(order)[i], old(rows)[old(order)[i]])
    {
      var keys, table := order, rows;
      report := Report(overflow,
                       seq(|keys|, i requires 0 <= i < |keys| && keys[i] in table => (keys[i], table[keys[i]])));
      rows, order, overflow, history := map[], [], 0, [];
    }
  }

  // ---------------------------------------------------------------------------
  // Rows in terms of the observations themselves
  // ---------------------------------------------------------------------------

  /** An observation that counts for a key: a finite duration from 0 on, and the key's verb, route and hundred. */
  predicate For(o: Observation, key: Key) {
    && o.duration.Finite? && o.duration.value >= 0.0
    && key.verb == (if o.verb in {"GET", "HEAD", "POST", "PUT", "PATCH", "DELETE", "OPTIONS"} then o.verb else "OTHER")
    && key.route == o.route
    && key.statusClass * 100 <= o.status < key.statusClass * 100 + 100
  }

  lemma ForMeans(o: Observation, key: Key)
    ensures For(o, key) <==> o.Accepted() && o.RowKey() == key
  {
  }

  function CountFor(history: seq<Observation>, key: Key): nat {
    if history == [] then 0
    else CountFor(history[..|history| - 1], key) + if For(history[|history| - 1], key) then 1 else 0
  }

  /** The total duration of the observations for a key. */
  function TimeFor(history: seq<Observation>, key: Key): real {
    if history == [] then 0.0
    else
      var o := history[|history| - 1];
      TimeFor(history[..|history| - 1], key) + if For(o, key) then o.duration.value else 0.0
  }

  /** How many of them took at most `bound`. */
  function WithinFor(history: seq<Observation>, key: Key, bound: real): nat {
    if history == [] then 0
    else
      var o := history[|history| - 1];
      WithinFor(history[..|history| - 1], key, bound) + if For(o, key) && o.duration.value <= bound then 1 else 0
  }

  /** A response size that counts: finite and from 0 on. */
  predicate Sized(o: Observation) {
    o.bytes.Some? && o.bytes.value.Finite? && o.bytes.value.value >= 0.0
  }

  function SizedFor(history: seq<Observation>, key: Key): nat {
    if history == [] then 0
    else
      var o := history[|history| - 1];
      SizedFor(history[..|history| - 1], key) + if For(o, key) && Sized(o) then 1 else 0
  }

  function BytesFor(history: seq<Observation>, key: Key): real {
    if history == [] then 0.0
    else
      var o := history[|history| - 1];
      BytesFor(history[..|history| - 1], key) + if For(o, key) && Sized(o) then o.bytes.value.value else 0.0
  }

  lemma AtMostSnoc(durations: seq<real>, d: real, bound: real)
    ensures AtMost(durations + [d], bound) == AtMost(durations, bound) + if d <= bound then 1 else 0
  {
    assert (durations + [d])[..|durations|] == durations;
  }

  lemma {:induction false} CountsFor(history: seq<Observation>, key: Key, bound: real)
    ensures |Recorded(history, key)| == CountFor(history, key)
    ensures AtMost(Durations(Recorded(history, key)), bound) == WithinFor(history, key, bound)
  {
    if history != [] {
      var before, o := history[..|history| - 1], history[|history| - 1];
      assert history == before + [o];
      CountsFor(before, key, bound);
      RecordedSnoc(before, o, key);
      ForMeans(o, key);
      if For(o, key) {
        DurationsSnoc(Recorded(before, key), o);
        AtMostSnoc(Durations(Recorded(before, key)), o.Elapsed(), bound);
      }
    }
  }

  lemma {:induction false} SumsFor(history: seq<Observation>, key: Key)
    ensures Sum(Durations(Recorded(history, key))) == TimeFor(history, key)
    ensures |Sizes(Recorded(history, key))| == SizedFor(history, key)
    ensures Sum(Sizes(Recorded(history, key))) == BytesFor(history, key)
  {
    if history != [] {
      var before, o := history[..|history| - 1], history[|history| - 1];
      assert history == before + [o];
      SumsFor(before, key);
      RecordedSnoc(before, o, key);
      ForMeans(o, key);
      if For(o, key) {
        var recorded := Recorded(before, key);
        DurationsSnoc(recorded, o);
        SumSnoc(Durations(recorded), o.Elapsed());
        SizesSnoc(recorded, o);
        if o.Measured() {
          SumSnoc(Sizes(recorded), o.bytes.value.value);
        }
      }
    }
  }

  /** What a row says: how many observations its key has, their durations, and the sizes that were given. */
  ghost predicate RowTells(row: Row, history: seq<Observation>, key: Key) {
    && row.count == CountFor(history, key) > 0
    && row.sumMs == TimeFor(history, key)
    && (forall i: nat :: i < |LATENCY_BOUNDS_MS| ==>
          Total(row.buckets[..i + 1]) == WithinFor(history, key, LATENCY_BOUNDS_MS[i]))
    && Total(row.buckets) == row.count
    && row.measuredBytesCount == SizedFor(history, key)
    && row.responseBytes == BytesFor(history, key)
  }

  lemma RowMeans(row: Row, history: seq<Observation>, key: Key)
    requires RowTrue(row, history, key)
    ensures RowTells(row, history, key)
  {
    CountsFor(history, key, 0.0);
    SumsFor(history, key);
    RowBucketsSum(row, history, key);
    forall i: nat | i < |LATENCY_BOUNDS_MS|
      ensures Total(row.buckets[..i + 1]) == WithinFor(history, key, LATENCY_BOUNDS_MS[i])
    {
      RunningTotal(Durations(Recorded(history, key)), i);
      CountsFor(history, key, LATENCY_BOUNDS_MS[i]);
    }
  }

  // ---------------------------------------------------------------------------
  // Conservation
  // ---------------------------------------------------------------------------

  function TotalCount(routes: seq<(Key, Row)>): nat {
    if routes == [] then 0 else TotalCount(routes[..|routes| - 1]) + routes[|routes| - 1].1.count
  }

  lemma {:induction false} NobodyOutside(history: seq<Observation>)
    ensures Outside(history, []) == AcceptedCount(history)
  {
    if history != [] {
      NobodyOutside(history[..|history| - 1]);
    }
  }

  lemma {:induction false} CountsConserved(history: seq<Observation>, keys: seq<Key>, routes: seq<(Key, Row)>)
    requires Distinct(keys) && |routes| == |keys|
    requires forall i :: 0 <= i < |keys| ==> routes[i].1.count == |Recorded(history, keys[i])|
    ensures TotalCount(routes) + Outside(history, keys) == AcceptedCount(history)
  {
    if keys == [] {
      NobodyOutside(history);
    } else {
      var n := |keys| - 1;
      CountsConserved(history, keys[..n], routes[..n]);
      OutsideFewer(history, keys[..n], keys[n]);
      assert keys[..n] + [keys[n]] == keys;
    }
  }

  /**
   Whatever is observed between two drains: each row drained summarises exactly the accepted
   observations of its key, every accepted observation is in one row or counted as dropped, and
   nothing is dropped unless there are as many rows as allowed.
   */
  method Interval(observations: seq<Observation>) returns (report: Report)
    ensures |report.routes| <= 2048 && (report.dropped > 0 ==> |report.routes| == 2048)
    ensures forall i :: 0 <= i < |report.routes| ==> RowTells(report.routes[i].1, observations, report.routes[i].0)
    ensures forall i, j :: 0 <= i < j < |report.routes| ==> report.routes[i].0 != report.routes[j].0
    ensures TotalCount(report.routes) + report.dropped == AcceptedCount(observations)
  {
    var metrics := new RequestMetrics();
    for i := 0 to |observations|
      invariant metrics.Valid() && fresh(metrics) && metrics.history == observations[..i]
    {
      metrics.Observe(observations[i]);
    }
    assert observations[..|observations|] == observations;
    ghost var keys := metrics.order;
    report := metrics.Drain();
    CountsConserved(observations, keys, report.routes);
    forall i | 0 <= i < |report.routes| ensures RowTells(report.routes[i].1, observations, report.routes[i].0) {
      RowMeans(report.routes[i].1, observations, report.routes[i].0);
    }
  }

  // ---------------------------------------------------------------------------
  // Quantiles
  // ---------------------------------------------------------------------------

  function Ceil(x: real): (r: int)
    ensures (r - 1) as real < x <= r as real
  {
    -((-x).Floor)
  }

  function Total(buckets: seq<nat>): nat {
    if buckets == [] then 0 else Total(buckets[..|buckets| - 1]) + buckets[|buckets| - 1]
  }

  predicate Reaches(buckets: seq<nat>, target: int, i: nat) {
    i < |buckets| && Total(buckets[..i + 1]) >= target
  }

  /** Whether bucket `i` is the first at which the running total reaches `target`. */
  ghost predicate ReachedAt(buckets: seq<nat>, target: int, i: nat) {
    Reaches(buckets, target, i) && forall j: nat :: j < i ==> !Reaches(buckets, target, j)
  }

  /** The least whole number that is not below the given share of `n`. */
  function Target(n: nat, quantile: real): (share: int)
    ensures (share - 1) as real < n as real * quantile <= share as real
  {
    Ceil(n as real * quantile)
  }

  /** What the percentile is, for every list of counts and every quantile, sensible or not. */
  ghost predicate IsPercentile(buckets: seq<nat>, target: int, bound: Option<real>) {
    match bound
    case None => target == 0 || forall i: nat :: i < |LATENCY_BOUNDS_MS| ==> !Reaches(buckets, target, i)
    case Some(b) =>
      target != 0 && exists i: nat :: i < |LATENCY_BOUNDS_MS| && ReachedAt(buckets, target, i) && b == LATENCY_BOUNDS_MS[i]
  }

  method PercentileUpperBound(buckets: seq<nat>, quantile: real) returns (bound: Option<real>)
    ensures IsPercentile(buckets, Target(Total(buckets), quantile), bound)
  {
    var sum := 0;
    for i := 0 to |buckets|
      invariant sum == Total(buckets[..i])
    {
      assert buckets[..i + 1][..i] == buckets[..i];
      sum := sum + buckets[i];
    }
    assert buckets[..|buckets|] == buckets;
    var target := Target(sum, quantile);
    if target == 0 {
      return None;
    }
    bound := Search(buckets, target);
  }

  method Search(buckets: seq<nat>, target: int) returns (bound: Option<real>)
    requires target != 0
    ensures IsPercentile(buckets, target, bound)
  {
    var total := 0;
    for i := 0 to |buckets|
      invariant total == Total(buckets[..i])
      invariant forall j: nat :: j < i ==> !Reaches(buckets, target, j)
    {
      assert buckets[..i + 1][..i] == buckets[..i];
      total := total + buckets[i];
      if total >= target {
        assert ReachedAt(buckets, target, i);
        return if i < |LATENCY_BOUNDS_MS| then Some(LATENCY_BOUNDS_MS[i]) else None;
      }
    }
    return None;
  }

  lemma {:induction false} TotalBumped(buckets: Counts, k: nat, j: nat)
    requires k < BUCKETS && j <= BUCKETS
    ensures Total(Bumped(buckets, k)[..j]) == Total(buckets[..j]) + if k < j then 1 else 0
  {
    if j > 0 {
      assert Bumped(buckets, k)[..j][..j - 1] == Bumped(buckets, k)[..j - 1];
      assert buckets[..j][..j - 1] == buckets[..j - 1];
      TotalBumped(buckets, k, j - 1);
    }
  }

  lemma {:induction false} NothingInBuckets(j: nat)
    requires j <= BUCKETS
    ensures Total(Buckets([])[..j]) == 0
  {
    if j > 0 {
      assert Buckets([])[..j][..j - 1] == Buckets([])[..j - 1];
      NothingInBuckets(j - 1);
    }
  }

  lemma BoundsAscend(i: nat, j: nat)
    requires i <= j < |LATENCY_BOUNDS_MS|
    ensures LATENCY_BOUNDS_MS[i] <= LATENCY_BOUNDS_MS[j]
  {
  }

  lemma BucketCovers(d: real, i: nat)
    requires i < |LATENCY_BOUNDS_MS|
    ensures BucketOf(d) <= i <==> d <= LATENCY_BOUNDS_MS[i]
  {
    var r := BucketOf(d);
    if r <= i {
      BoundsAscend(r, i);
    }
  }

  /** The counts up to bucket `i` are the durations that do not exceed its bound. */
  lemma {:induction false} RunningTotal(durations: seq<real>, i: nat)
    requires i < |LATENCY_BOUNDS_MS|
    ensures Total(Buckets(durations)[..i + 1]) == AtMost(durations, LATENCY_BOUNDS_MS[i])
  {
    if durations == [] {
      NothingInBuckets(i + 1);
    } else {
      var last := |durations| - 1;
      assert durations == durations[..last] + [durations[last]];
      RunningTotal(durations[..last], i);
      BucketsSnoc(durations[..last], durations[last]);
      TotalBumped(Buckets(durations[..last]), BucketOf(durations[last]), i + 1);
      BucketCovers(durations[last], i);
    }
  }

  /** The counts of a row's buckets add up to its count. */
  lemma {:induction false} BucketsSum(durations: seq<real>)
    ensures Total(Buckets(durations)) == |durations|
  {
    var all := BUCKETS;
    assert Buckets(durations) == Buckets(durations)[..all];
    if durations == [] {
      NothingInBuckets(all);
    } else {
      var last := |durations| - 1;
      assert durations == durations[..last] + [durations[last]];
      BucketsSum(durations[..last]);
      BucketsSnoc(durations[..last], durations[last]);
      TotalBumped(Buckets(durations[..last]), BucketOf(durations[last]), all);
      assert Buckets(durations[..last]) == Buckets(durations[..last])[..all];
    }
  }

  /** The same of every row that tells the truth about a history. */
  lemma RowBucketsSum(row: Row, history: seq<Observation>, key: Key)
    requires RowTrue(row, history, key)
    ensures Total(row.buckets) == row.count == |Recorded(history, key)|
  {
    DurationsLength(Recorded(history, key));
    BucketsSum(Durations(Recorded(history, key)));
  }

  lemma {:induction false} DurationsLength(observed: seq<Observation>)
    ensures |Durations(observed)| == |observed|
  {
    if observed != [] {
      DurationsLength(observed[..|observed| - 1]);
    }
  }

  lemma {:induction false} AtMostGrows(durations: seq<real>, a: real, b: real)
    requires a <= b
    ensures AtMost(durations, a) <= AtMost(durations, b)
  {
    if durations != [] {
      AtMostGrows(durations[..|durations| - 1], a, b);
    }
  }

  /** Bound `i` is the least listed one that at least `share` of the durations do not exceed. */
  ghost predicate LeastCovering(durations: seq<real>, share: int, i: nat) {
    && i < |LATENCY_BOUNDS_MS|
    && AtMost(durations, LATENCY_BOUNDS_MS[i]) >= share
    && forall j: nat :: j < i ==> AtMost(durations, LATENCY_BOUNDS_MS[j]) < share
  }

  lemma ReachesMeans(durations: seq<real>, target: int, i: nat)
    requires i < |LATENCY_BOUNDS_MS|
    ensures Reaches(Buckets(durations), target, i) <==> AtMost(durations, LATENCY_BOUNDS_MS[i]) >= target
  {
    RunningTotal(durations, i);
  }

  lemma ReachedMeans(durations: seq<real>, target: int, i: nat)
    requires i < |LATENCY_BOUNDS_MS|
    ensures ReachedAt(Buckets(durations), target, i) <==> LeastCovering(durations, target, i)
  {
    forall j: nat | j <= i {
      ReachesMeans(durations, target, j);
    }
  }

  lemma TargetPositive(n: nat, quantile: real)
    requires 0.0 < quantile <= 1.0
    ensures Target(n, quantile) <= n && (Target(n, quantile) == 0 <==> n == 0)
  {
    if n > 0 {
      assert 0.0 < n as real * quantile <= n as real;
    }
  }

  lemma WithinLast(durations: seq<real>, i: nat)
    requires i < |LATENCY_BOUNDS_MS|
    ensures AtMost(durations, LATENCY_BOUNDS_MS[i]) <= AtMost(durations, 30000.0)
  {
    AtMostGrows(durations, LATENCY_BOUNDS_MS[i], 30000.0);
  }

  /**
   For a quantile in (0, 1], the percentile of recorded durations is the least listed bound that a
   sufficient share of them do not exceed; there is none exactly when nothing was recorded or too
   few durations lie within the last bound.
   */
  lemma PercentileMeans(durations: seq<real>, quantile: real, bound: Option<real>)
    requires 0.0 < quantile <= 1.0
    requires IsPercentile(Buckets(durations), Target(Total(Buckets(durations)), quantile), bound)
    ensures bound.Some? ==>
      exists i: nat :: LeastCovering(durations, Target(|durations|, quantile), i) && bound.value == LATENCY_BOUNDS_MS[i]
    ensures bound.None? <==> durations == [] || AtMost(durations, 30000.0) < Target(|durations|, quantile)
  {
    BucketsSum(durations);
    TargetPositive(|durations|, quantile);
    PercentileAt(durations, Target(|durations|, quantile), bound);
  }

  lemma PercentileAt(durations: seq<real>, target: int, bound: Option<real>)
    requires IsPercentile(Buckets(durations), target, bound) && (target == 0 <==> durations == [])
    ensures bound.Some? ==>
      exists i: nat :: LeastCovering(durations, target, i) && bound.value == LATENCY_BOUNDS_MS[i]
    ensures bound.None? <==> durations == [] || AtMost(durations, 30000.0) < target
  {
    if bound.Some? {
      BoundMeans(durations, target, bound.value);
    } else if durations != [] {
      ReachesMeans(durations, target, |LATENCY_BOUNDS_MS| - 1);
    }
  }

  lemma BoundMeans(durations: seq<real>, target: int, b: real)
    requires IsPercentile(Buckets(durations), target, Some(b))
    ensures exists i: nat :: LeastCovering(durations, target, i) && b == LATENCY_BOUNDS_MS[i]
    ensures AtMost(durations, 30000.0) >= target
  {
    var i: nat :| i < |LATENCY_BOUNDS_MS| && ReachedAt(Buckets(durations), target, i) && b == LATENCY_BOUNDS_MS[i];
    ReachedMeans(durations, target, i);
    WithinLast(durations, i);
  }
}
