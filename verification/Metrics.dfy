/** The labelled counter and histogram of the API's metrics registry, over exact reals. */
module Metrics {
  import opened Strings
  import opened Sorting
  import opened JsMap
  import opened Labels

  /** One printed sample: name suffix, labels and value. */
  datatype Sample = Sample(suffix: string, labels: Labels, value: real)

  // ----- Counter -----------------------------------------------------------------------------

  datatype CounterSeries = CounterSeries(labels: Labels, value: real)

  datatype Increment = Increment(labels: Labels, amount: real)

  function IncStep(series: Entries<CounterSeries>, inc: Increment): Entries<CounterSeries> {
    var key := SeriesKey(inc.labels);
    match Get(series, key)
    case Some(s) => Set(series, key, s.(value := s.value + inc.amount))
    case None => Set(series, key, CounterSeries(inc.labels, inc.amount))
  }

  function IncRun(incs: seq<Increment>): Entries<CounterSeries> {
    if incs == [] then [] else IncStep(IncRun(incs[..|incs| - 1]), incs[|incs| - 1])
  }

  class Counter {
    var series: Entries<CounterSeries>

    constructor ()
      ensures series == []
    {
      series := [];
    }

    method Inc(labels: Labels, amount: real)
      modifies this
      ensures series == IncStep(old(series), Increment(labels, amount))
    {
      var key := SeriesKey(labels);
      var i := Find(series, key);
      if i < |series| {
        var existing := series[i].1;
        series := series[i := (key, existing.(value := existing.value + amount))];
      } else {
        series := series + [(key, CounterSeries(labels, amount))];
      }
    }

    method Render() returns (samples: seq<Sample>)
      ensures series == [] ==> samples == [Sample("", [], 0.0)]
      ensures series != [] ==> |samples| == |series| && forall i :: 0 <= i < |series| ==>
        samples[i] == Sample("", series[i].1.labels, series[i].1.value)
    {
      if series == [] {
        return [Sample("", [], 0.0)];
      }
      samples := [];
      for i := 0 to |series|
        invariant |samples| == i
        invariant forall j :: 0 <= j < i ==> samples[j] == Sample("", series[j].1.labels, series[j].1.value)
      {
        samples := samples + [Sample("", series[i].1.labels, series[i].1.value)];
      }
    }
  }

  /** The sum of the amounts passed with a label set equal to labels, and how many there were. */
  ghost function Total(incs: seq<Increment>, labels: Labels): (real, nat) {
    if incs == [] then (0.0, 0)
    else
      var (sum, n) := Total(incs[..|incs| - 1], labels);
      var last := incs[|incs| - 1];
      if ToMap(last.labels) == ToMap(labels) then (sum + last.amount, n + 1) else (sum, n)
  }

  lemma {:induction false} IncRunDistinct(incs: seq<Increment>)
    ensures DistinctKeys(IncRun(incs))
  {
    if incs != [] {
      IncRunDistinct(incs[..|incs| - 1]);
      IncStepGet(IncRun(incs[..|incs| - 1]), incs[|incs| - 1], "");
    }
  }

  lemma IncStepGet(series: Entries<CounterSeries>, inc: Increment, key: string)
    requires DistinctKeys(series)
    ensures DistinctKeys(IncStep(series, inc))
    ensures key != SeriesKey(inc.labels) ==> Get(IncStep(series, inc), key) == Get(series, key)
    ensures key == SeriesKey(inc.labels) ==> Get(IncStep(series, inc), key) == Some(
      match Get(series, key)
      case Some(s) => s.(value := s.value + inc.amount)
      case None => CounterSeries(inc.labels, inc.amount))
  {
    hide SeriesKey, Set, Get;
    var k := SeriesKey(inc.labels);
    match Get(series, k) {
      case Some(s) => SetMeaning(series, k, s.(value := s.value + inc.amount));
      case None => SetMeaning(series, k, CounterSeries(inc.labels, inc.amount));
    }
  }

  /** After any run, a label set's series holds exactly the amounts passed with an equal label set. */
  lemma {:induction false} CounterTotals(incs: seq<Increment>, labels: Labels)
    requires Legal(labels) && forall i :: 0 <= i < |incs| ==> Legal(incs[i].labels)
    ensures var (sum, n) := Total(incs, labels);
      match Get(IncRun(incs), SeriesKey(labels))
      case None => n == 0
      case Some(s) => n > 0 && s.value == sum && ToMap(s.labels) == ToMap(labels)
  {
    if incs != [] {
      var before, last := incs[..|incs| - 1], incs[|incs| - 1];
      CounterTotals(before, labels);
      IncRunDistinct(before);
      IncStepGet(IncRun(before), last, SeriesKey(labels));
      SeriesKeyInjective(last.labels, labels);
      TotalOfNone(before, labels);
    }
  }

  lemma {:induction false} TotalOfNone(incs: seq<Increment>, labels: Labels)
    ensures Total(incs, labels).1 == 0 ==> Total(incs, labels).0 == 0.0
  {
    if incs != [] { TotalOfNone(incs[..|incs| - 1], labels); }
  }

  // ----- Histogram ---------------------------------------------------------------------------

  datatype HistogramSeries = HistogramSeries(labels: Labels, counts: seq<int>, sum: real, count: int)

  datatype Observation = Observation(labels: Labels, value: real)

  predicate AtMost(a: real, b: real) { a <= b }

  function Bump(counts: seq<int>, bounds: seq<real>, value: real): (r: seq<int>)
    requires |counts| == |bounds|
    ensures |r| == |bounds|
  {
    seq(|bounds|, i requires 0 <= i < |bounds| => counts[i] + if value <= bounds[i] then 1 else 0)
  }

  function NewSeries(labels: Labels, bounds: seq<real>): HistogramSeries {
    HistogramSeries(labels, seq(|bounds|, _ => 0), 0.0, 0)
  }

  ghost predicate ValidSeries(series: Entries<HistogramSeries>, bounds: seq<real>) {
    DistinctKeys(series) && forall i :: 0 <= i < |series| ==> |series[i].1.counts| == |bounds|
  }

  /** The series of a label set, fresh if there is none. */
  function Entry(series: Entries<HistogramSeries>, bounds: seq<real>, labels: Labels): (e: HistogramSeries)
    requires ValidSeries(series, bounds)
    ensures |e.counts| == |bounds|
  {
    match Get(series, SeriesKey(labels))
    case Some(e) => e
    case None => NewSeries(labels, bounds)
  }

  function AddObservation(e: HistogramSeries, bounds: seq<real>, value: real): (r: HistogramSeries)
    requires |e.counts| == |bounds|
    ensures |r.counts| == |bounds|
  {
    e.(counts := Bump(e.counts, bounds, value), sum := e.sum + value, count := e.count + 1)
  }

  function ObserveStep(series: Entries<HistogramSeries>, bounds: seq<real>, o: Observation)
    : (r: Entries<HistogramSeries>)
    requires ValidSeries(series, bounds)
    ensures ValidSeries(r, bounds)
  {
    var e := AddObservation(Entry(series, bounds, o.labels), bounds, o.value);
    SetMeaning(series, SeriesKey(o.labels), e);
    Set(series, SeriesKey(o.labels), e)
  }

  function ObserveRun(bounds: seq<real>, obs: seq<Observation>): (r: Entries<HistogramSeries>)
    ensures ValidSeries(r, bounds)
  {
    if obs == [] then [] else ObserveStep(ObserveRun(bounds, obs[..|obs| - 1]), bounds, obs[|obs| - 1])
  }

  /** cumulative after the first n buckets */
  function Accumulated(counts: seq<int>, n: nat): int
    requires n <= |counts|
  {
    if n == 0 then 0 else Accumulated(counts, n - 1) + counts[n - 1]
  }

  class Histogram {
    const buckets: seq<real>
    var series: Entries<HistogramSeries>

    ghost predicate Valid()
      reads this
    {
      ValidSeries(series, buckets)
    }

    constructor (buckets: seq<real>)
      ensures Valid() && series == []
      ensures Ordered(this.buckets, AtMost) && multiset(this.buckets) == multiset(buckets)
    {
      this.buckets := Sort(buckets, AtMost);
      series := [];
      SortOrders(buckets, AtMost);
      SortPermutes(buckets, AtMost);
    }

    method Observe(labels: Labels, value: real)
      requires Valid()
      modifies this
      ensures Valid()
      ensures series == ObserveStep(old(series), buckets, Observation(labels, value))
    {
      var key := SeriesKey(labels);
      ghost var entry0 := Entry(series, buckets, labels);
      var entry;
      var i := Find(series, key);
      if i < |series| {
        entry := series[i].1;
      } else {
        entry := NewSeries(labels, buckets);
      }
      entry := entry.(sum := entry.sum + value, count := entry.count + 1);
      for b := 0 to |buckets|
        invariant entry.labels == entry0.labels && entry.sum == entry0.sum + value
        invariant entry.count == entry0.count + 1 && |entry.counts| == |buckets|
        invariant forall j :: 0 <= j < b ==> entry.counts[j] == Bump(entry0.counts, buckets, value)[j]
        invariant forall j :: b <= j < |buckets| ==> entry.counts[j] == entry0.counts[j]
      {
        if value <= buckets[b] {
          entry := entry.(counts := entry.counts[b := entry.counts[b] + 1]);
        }
      }
      assert entry.counts == Bump(entry0.counts, buckets, value);
      series := Set(series, key, entry);
    }

    /** The samples of one series, with the bounds printed by show. */
    method RenderEntry(entry: HistogramSeries, show: real -> string) returns (samples: seq<Sample>)
      requires |entry.counts| == |buckets|
      ensures |samples| == |buckets| + 3
      ensures forall i :: 0 <= i < |buckets| ==>
        samples[i] == Sample("_bucket", Set(entry.labels, "le", show(buckets[i])),
                             Accumulated(entry.counts, i + 1) as real)
      ensures samples[|buckets|..] ==
        [Sample("_bucket", Set(entry.labels, "le", "+Inf"), entry.count as real),
         Sample("_sum", entry.labels, entry.sum),
         Sample("_count", entry.labels, entry.count as real)]
    {
      samples := [];
      var cumulative := 0;
      for i := 0 to |buckets|
        invariant |samples| == i && cumulative == Accumulated(entry.counts, i)
        invariant forall j :: 0 <= j < i ==>
          samples[j] == Sample("_bucket", Set(entry.labels, "le", show(buckets[j])),
                               Accumulated(entry.counts, j + 1) as real)
      {
        cumulative := cumulative + entry.counts[i];
        samples := samples + [Sample("_bucket", Set(entry.labels, "le", show(buckets[i])), cumulative as real)];
      }
      samples := samples +
        [Sample("_bucket", Set(entry.labels, "le", "+Inf"), entry.count as real),
         Sample("_sum", entry.labels, entry.sum),
         Sample("_count", entry.labels, entry.count as real)];
    }
  }

  // ----- What a histogram should hold --------------------------------------------------------

  ghost predicate Matches(o: Observation, labels: Labels) { ToMap(o.labels) == ToMap(labels) }

  /** How many observations with this label set are at most bound. */
  ghost function CountUpTo(obs: seq<Observation>, labels: Labels, bound: real): nat {
    if obs == [] then 0
    else
      var last := obs[|obs| - 1];
      CountUpTo(obs[..|obs| - 1], labels, bound) + if Matches(last, labels) && last.value <= bound then 1 else 0
  }

  ghost function Observed(obs: seq<Observation>, labels: Labels): (nat, real) {
    if obs == [] then (0, 0.0)
    else
      var (n, sum) := Observed(obs[..|obs| - 1], labels);
      var last := obs[|obs| - 1];
      if Matches(last, labels) then (n + 1, sum + last.value) else (n, sum)
  }

  lemma ObserveStepGet(
      series: Entries<HistogramSeries>, bounds: seq<real>, o: Observation, key: string)
    requires ValidSeries(series, bounds)
    ensures Get(ObserveStep(series, bounds, o), key) ==
      if key == SeriesKey(o.labels) then Some(AddObservation(Entry(series, bounds, o.labels), bounds, o.value))
      else Get(series, key)
  {
    SetMeaning(series, SeriesKey(o.labels), AddObservation(Entry(series, bounds, o.labels), bounds, o.value));
  }

  /** The entry a label set reads, whether or not it was ever observed, refines its observations. */
  lemma {:induction false} HistogramRefines(bounds: seq<real>, obs: seq<Observation>, labels: Labels)
    requires Legal(labels) && forall i :: 0 <= i < |obs| ==> Legal(obs[i].labels)
    ensures var e := Entry(ObserveRun(bounds, obs), bounds, labels);
      && e.count == Observed(obs, labels).0 && e.sum == Observed(obs, labels).1
      && |e.counts| == |bounds|
      && (forall i :: 0 <= i < |bounds| ==> e.counts[i] == CountUpTo(obs, labels, bounds[i]))
      && (Get(ObserveRun(bounds, obs), SeriesKey(labels)) == None <==> e.count == 0)
      && ToMap(e.labels) == ToMap(labels)
  {
    if obs != [] {
      var before, last := obs[..|obs| - 1], obs[|obs| - 1];
      HistogramRefines(bounds, before, labels);
      ObserveStepGet(ObserveRun(bounds, before), bounds, last, SeriesKey(labels));
      SeriesKeyInjective(last.labels, labels);
    }
  }

  lemma {:induction false} CountUpToMonotone(obs: seq<Observation>, labels: Labels, low: real, high: real)
    requires low <= high
    ensures CountUpTo(obs, labels, low) <= CountUpTo(obs, labels, high) <= Observed(obs, labels).0
  {
    if obs != [] { CountUpToMonotone(obs[..|obs| - 1], labels, low, high); }
  }

  /** The stored buckets are already cumulative: nondecreasing, and never above the count. */
  lemma StoredBucketsCumulative(bounds: seq<real>, obs: seq<Observation>, labels: Labels)
    requires Legal(labels) && forall i :: 0 <= i < |obs| ==> Legal(obs[i].labels)
    requires Ordered(bounds, AtMost)
    ensures var e := Entry(ObserveRun(bounds, obs), bounds, labels);
      && |e.counts| == |bounds|
      && (forall i, j :: 0 <= i < j < |bounds| ==> e.counts[i] <= e.counts[j])
      && (forall i :: 0 <= i < |bounds| ==> 0 <= e.counts[i] <= e.count)
  {
    HistogramRefines(bounds, obs, labels);
    forall i, j | 0 <= i < j < |bounds| ensures
      CountUpTo(obs, labels, bounds[i]) <= CountUpTo(obs, labels, bounds[j])
    {
      CountUpToMonotone(obs, labels, bounds[i], bounds[j]);
    }
    forall i | 0 <= i < |bounds| ensures CountUpTo(obs, labels, bounds[i]) <= Observed(obs, labels).0 {
      CountUpToMonotone(obs, labels, bounds[i], bounds[i]);
    }
  }

  lemma {:induction false} AccumulatedZero(counts: seq<int>, n: nat)
    requires n <= |counts|
    requires forall i :: 0 <= i < n ==> 0 <= counts[i] && (0 < i ==> counts[i - 1] <= counts[i])
    ensures Accumulated(counts, n) >= 0
    ensures Accumulated(counts, n) == 0 <==> n == 0 || counts[n - 1] == 0
  {
    if n > 0 { AccumulatedZero(counts, n - 1); }
  }

  /**
   The exposition format wants bucket i to print the number of observations up to its bound. The
   printed number is that number exactly for the first bucket and for buckets below which nothing
   was observed; the stored number always is.
   */
  lemma PrintedBucketIff(bounds: seq<real>, obs: seq<Observation>, labels: Labels, i: nat)
    requires Legal(labels) && forall j :: 0 <= j < |obs| ==> Legal(obs[j].labels)
    requires Ordered(bounds, AtMost) && i < |bounds|
    ensures var e := Entry(ObserveRun(bounds, obs), bounds, labels);
      && |e.counts| == |bounds|
      && (Accumulated(e.counts, i + 1) == CountUpTo(obs, labels, bounds[i]) <==>
           i == 0 || CountUpTo(obs, labels, bounds[i - 1]) == 0)
      && e.counts[i] == CountUpTo(obs, labels, bounds[i])
  {
    HistogramRefines(bounds, obs, labels);
    StoredBucketsCumulative(bounds, obs, labels);
    AccumulatedZero(Entry(ObserveRun(bounds, obs), bounds, labels).counts, i);
  }

  /** How many of the first n bounds are at or above the value. */
  function BoundsAbove(bounds: seq<real>, value: real, n: nat): nat
    requires n <= |bounds|
  {
    if n == 0 then 0 else BoundsAbove(bounds, value, n - 1) + if value <= bounds[n - 1] then 1 else 0
  }

  /** Every observation of the label set, counted once for each of the first n bounds at or above it. */
  ghost function CountRepeated(obs: seq<Observation>, labels: Labels, bounds: seq<real>, n: nat): nat
    requires n <= |bounds|
  {
    if obs == [] then 0
    else
      var last := obs[|obs| - 1];
      CountRepeated(obs[..|obs| - 1], labels, bounds, n) +
      if Matches(last, labels) then BoundsAbove(bounds, last.value, n) else 0
  }

  lemma {:induction false} RepeatedStep(obs: seq<Observation>, labels: Labels, bounds: seq<real>, n: nat)
    requires n < |bounds|
    ensures CountRepeated(obs, labels, bounds, n + 1) ==
      CountRepeated(obs, labels, bounds, n) + CountUpTo(obs, labels, bounds[n])
    ensures CountRepeated(obs, labels, bounds, 0) == 0
  {
    if obs != [] { RepeatedStep(obs[..|obs| - 1], labels, bounds, n); }
  }

  lemma {:induction false} AccumulatedIs(
      counts: seq<int>, obs: seq<Observation>, labels: Labels, bounds: seq<real>, n: nat)
    requires |counts| == |bounds| && n <= |bounds|
    requires forall i :: 0 <= i < |bounds| ==> counts[i] == CountUpTo(obs, labels, bounds[i])
    ensures Accumulated(counts, n) == CountRepeated(obs, labels, bounds, n)
  {
    hide CountRepeated, CountUpTo;
    if n == 0 {
      if bounds != [] { RepeatedStep(obs, labels, bounds, 0); } else { NoneRepeated(obs, labels, bounds); }
    } else {
      AccumulatedIs(counts, obs, labels, bounds, n - 1);
      RepeatedStep(obs, labels, bounds, n - 1);
    }
  }

  lemma {:induction false} NoneRepeated(obs: seq<Observation>, labels: Labels, bounds: seq<real>)
    ensures CountRepeated(obs, labels, bounds, 0) == 0
  {
    if obs != [] { NoneRepeated(obs[..|obs| - 1], labels, bounds); }
  }

  /** What printed bucket i really is: each observation, counted once for every bound up to i at or above it. */
  lemma PrintedBucketIs(bounds: seq<real>, obs: seq<Observation>, labels: Labels, i: nat)
    requires Legal(labels) && forall j :: 0 <= j < |obs| ==> Legal(obs[j].labels)
    requires i < |bounds|
    ensures var e := Entry(ObserveRun(bounds, obs), bounds, labels);
      |e.counts| == |bounds| && Accumulated(e.counts, i + 1) == CountRepeated(obs, labels, bounds, i + 1)
  {
    hide CountUpTo, CountRepeated, Accumulated, ObserveRun, Entry, Legal, Observed;
    HistogramRefines(bounds, obs, labels);
    AccumulatedIs(Entry(ObserveRun(bounds, obs), bounds, labels).counts, obs, labels, bounds, i + 1);
  }

  /** Two observations in the first of two buckets print as four in the second, above +Inf. */
  lemma PrintedBucketExceedsCount(labels: Labels)
    requires Legal(labels)
    ensures var obs := [Observation(labels, 1.0), Observation(labels, 1.0)];
      var e := Entry(ObserveRun([1.0, 2.0], obs), [1.0, 2.0], labels);
      e.count == 2 && |e.counts| == 2 && Accumulated(e.counts, 2) == 4
  {
    var obs := [Observation(labels, 1.0), Observation(labels, 1.0)];
    var bounds := [1.0, 2.0];
    HistogramRefines(bounds, obs, labels);
    assert obs[..1] == [Observation(labels, 1.0)] && obs[..1][..0] == [];
    forall b | b in bounds ensures CountUpTo(obs, labels, b) == 2 {
      assert CountUpTo(obs[..1], labels, b) == 1;
    }
    assert Observed(obs[..1], labels).0 == 1;
    var e := Entry(ObserveRun(bounds, obs), bounds, labels);
    assert e.counts[0] == 2 && e.counts[1] == 2 by { assert bounds[0] in bounds && bounds[1] in bounds; }
    assert Accumulated(e.counts, 2) == Accumulated(e.counts, 1) + e.counts[1];
    assert Accumulated(e.counts, 1) == Accumulated(e.counts, 0) + e.counts[0];
  }
}
