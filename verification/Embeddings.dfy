/** The reordering of an embedding response by the index each vector claims. */
module Embeddings {
  import opened Sorting
  import opened Strings

  type Vector = seq<real>

  /** One entry of a response; its embedding may be missing. */
  datatype Datum = Datum(embedding: Option<Vector>, index: int)

  predicate IndexLe(a: Datum, b: Datum) { a.index <= b.index }

  function Sorted(data: seq<Datum>): seq<Datum> { Sort(data, IndexLe) }

  /** What embed returns for a response: the vectors in index order. */
  function Reorder(data: seq<Datum>): seq<Option<Vector>> {
    seq(|Sorted(data)|, i requires 0 <= i < |Sorted(data)| => Sorted(data)[i].embedding)
  }

  /** The indices are distinct and exactly 0, 1, ... up to the number of vectors. */
  ghost predicate Dense(data: seq<Datum>) {
    DistinctIndices(data) && forall i :: 0 <= i < |data| ==> 0 <= data[i].index < |data|
  }

  ghost predicate AtItsIndex(sorted: seq<Datum>) {
    forall k :: 0 <= k < |sorted| ==> sorted[k].index == k
  }

  lemma {:induction false} CountTwo<T>(s: seq<T>, i: nat, j: nat)
    requires i < j < |s| && s[i] == s[j]
    ensures multiset(s)[s[i]] >= 2
  {
    assert s == s[..j] + s[j..];
    assert s[i] in s[..j] && s[j] in s[j..];
    assert multiset(s[..j])[s[i]] >= 1 && multiset(s[j..])[s[i]] >= 1;
  }

  lemma {:induction false} CountOne<T>(s: seq<T>, k: nat)
    requires k < |s| && forall m :: 0 <= m < |s| && m != k ==> s[m] != s[k]
    ensures multiset(s)[s[k]] == 1
  {
    assert s == s[..k] + [s[k]] + s[k + 1..];
    assert s[k] !in multiset(s[..k]);
    assert s[k] !in multiset(s[k + 1..]);
  }

  lemma DistinctKept(xs: seq<Datum>, ys: seq<Datum>)
    requires multiset(xs) == multiset(ys) && DistinctIndices(xs)
    ensures DistinctIndices(ys)
  {
    forall i, j | 0 <= i < j < |ys| ensures ys[i].index != ys[j].index {
      if ys[i].index == ys[j].index {
        assert ys[i] in multiset(xs) && ys[j] in multiset(xs);
        var a :| 0 <= a < |xs| && xs[a] == ys[i];
        var b :| 0 <= b < |xs| && xs[b] == ys[j];
        assert a == b;
        CountTwo(ys, i, j);
        CountOne(xs, a);
      }
    }
  }

  // Strictly increasing integers grow at least as fast as their positions.
  lemma {:induction false} Spread(sorted: seq<Datum>, i: nat, j: nat)
    requires i <= j < |sorted|
    requires forall a, b :: 0 <= a < b < |sorted| ==> sorted[a].index < sorted[b].index
    ensures sorted[j].index - sorted[i].index >= j - i
  {
    if i < j { Spread(sorted, i, j - 1); }
  }

  ghost predicate DistinctIndices(data: seq<Datum>) {
    forall i, j :: 0 <= i < j < |data| ==> data[i].index != data[j].index
  }

  lemma SortedKeeps(data: seq<Datum>)
    ensures |Sorted(data)| == |data| && forall i :: 0 <= i < |data| ==> Sorted(data)[i] in data
    ensures forall i :: 0 <= i < |data| ==> data[i] in Sorted(data)
    ensures DistinctIndices(data) <==> DistinctIndices(Sorted(data))
  {
    hide DistinctIndices;
    var sorted := Sorted(data);
    SortPermutes(data, IndexLe);
    forall x ensures x in sorted <==> x in data {
      SortKeeps(data, IndexLe, x);
    }
    if DistinctIndices(data) { DistinctKept(data, sorted); }
    if DistinctIndices(sorted) { DistinctKept(sorted, data); }
  }

  // Sorting keeps the data and, when the indices are distinct, makes them strictly increasing.
  lemma SortedMeaning(data: seq<Datum>)
    ensures |Sorted(data)| == |data| && forall i :: 0 <= i < |data| ==> Sorted(data)[i] in data
    ensures forall i :: 0 <= i < |data| ==> data[i] in Sorted(data)
    ensures DistinctIndices(data) <==> DistinctIndices(Sorted(data))
    ensures DistinctIndices(data) ==>
      forall i, j :: 0 <= i < j < |data| ==> Sorted(data)[i].index < Sorted(data)[j].index
  {
    SortedKeeps(data);
    SortOrders(data, IndexLe);
  }

  /** Sorting puts every vector at the index it claims exactly when the indices are dense. */
  lemma AlignedIff(data: seq<Datum>)
    ensures AtItsIndex(Sorted(data)) <==> Dense(data)
  {
    var sorted, n := Sorted(data), |data|;
    SortedMeaning(data);
    if Dense(data) {
      forall k | 0 <= k < n ensures sorted[k].index == k {
        Spread(sorted, 0, k);
        Spread(sorted, k, n - 1);
      }
    }
    if AtItsIndex(sorted) {
      assert forall i :: 0 <= i < n ==> data[i] in sorted;
    }
  }

  /** The response answers every text, each once, with the embedding of the text its index names. */
  ghost predicate Answers(data: seq<Datum>, texts: seq<string>, embedding: string -> Vector) {
    && |data| == |texts| && Dense(data)
    && forall i :: 0 <= i < |data| ==> data[i].embedding == Some(embedding(texts[data[i].index]))
  }

  /** Then the i-th vector returned is the embedding of the i-th text, in whatever order they came. */
  lemma ReorderAligns(data: seq<Datum>, texts: seq<string>, embedding: string -> Vector)
    requires Answers(data, texts, embedding)
    ensures |Reorder(data)| == |texts|
    ensures forall i :: 0 <= i < |texts| ==> Reorder(data)[i] == Some(embedding(texts[i]))
  {
    AlignedIff(data);
    SortedMeaning(data);
    forall i | 0 <= i < |texts| ensures Reorder(data)[i] == Some(embedding(texts[i])) {
      assert Sorted(data)[i] in data;
    }
  }

  lemma GapInSorted(sorted: seq<Datum>, gap: nat, k: nat)
    requires k < |sorted| && gap <= |sorted|
    requires forall i, j :: 0 <= i < j < |sorted| ==> sorted[i].index < sorted[j].index
    requires forall i :: 0 <= i < |sorted| ==> 0 <= sorted[i].index <= |sorted| && sorted[i].index != gap
    ensures sorted[k].index == if k < gap then k else k + 1
  {
    Spread(sorted, 0, k);
    Spread(sorted, k, |sorted| - 1);
    if k < gap {
      Spread(sorted, k, gap - 1);
      Spread(sorted, gap - 1, |sorted| - 1);
    } else {
      Spread(sorted, gap, k);
      Spread(sorted, 0, gap);
    }
  }

  /** A response that leaves one text out returns every later vector one place too early. */
  lemma GapShifts(data: seq<Datum>, gap: nat, k: nat)
    requires DistinctIndices(data) && k < |data| && gap <= |data|
    requires forall i :: 0 <= i < |data| ==> 0 <= data[i].index <= |data| && data[i].index != gap
    ensures k < |Reorder(data)| && Sorted(data)[k].index == if k < gap then k else k + 1
  {
    hide Sorted;
    SortedMeaning(data);
    assert forall i :: 0 <= i < |data| ==> Sorted(data)[i] in data;
    GapInSorted(Sorted(data), gap, k);
  }
}
