/** Retrieval ranking: keyword ranking, the hybrid merge, and the intent classifier. */
module Ranking {
  import opened Strings
  import opened Sorting
  import opened JsMap

  /** question and answer are the metadata entries of those names when they are strings. */
  datatype Chunk = Chunk(id: string, documentId: string, sourceId: string, content: string,
                         title: Option<string>, tags: seq<string>,
                         question: Option<string>, answer: Option<string>)

  datatype Retrieved = Retrieved(chunk: Chunk, score: real)

  datatype AllowedIntent = AllowedIntent(name: string, keywords: seq<string>, examples: seq<string>, enabled: bool)

  datatype BlockedTopic = BlockedTopic(name: string, terms: seq<string>, response: Option<string>, enabled: bool)

  /** The text operations, taken as given: any functions of these types. */
  datatype TextOps = TextOps(
    normalize: string -> string,
    containsPhrase: (string, seq<string>) -> bool,
    overlap: (string, string) -> real,
    keywordScore: (string, seq<string>) -> real)

  predicate HigherScore(a: Retrieved, b: Retrieved) { a.score >= b.score }

  lemma HigherScoreOrders()
    ensures TotalPreorder(HigherScore)
  {
    assert forall a, b, c :: HigherScore(a, b) && HigherScore(b, c) ==> HigherScore(a, c);
  }

  // ----- rankChunks --------------------------------------------------------------------------

  function OrEmpty(value: Option<string>): string {
    match value case Some(v) => v case None => ""
  }

  function Searchable(c: Chunk): string {
    OrEmpty(c.title) + " " + c.content
    + (if c.question.Some? then " " + c.question.value else "")
    + (if c.answer.Some? then " " + c.answer.value else "")
    + " " + Join(c.tags, " ")
  }

  function KeywordScore(ops: TextOps, query: string, c: Chunk): real {
    var s := ops.overlap(query, Searchable(c));
    if s < 1.0 then s else 1.0
  }

  /** The chunks with a positive score, in store order. */
  function Scored(ops: TextOps, query: string, chunks: seq<Chunk>): seq<Retrieved> {
    if chunks == [] then []
    else
      var s := KeywordScore(ops, query, chunks[0]);
      (if s > 0.0 then [Retrieved(chunks[0], s)] else []) + Scored(ops, query, chunks[1..])
  }

  function RankChunks(ops: TextOps, query: string, chunks: seq<Chunk>): seq<Retrieved> {
    Sort(Scored(ops, query, chunks), HigherScore)
  }

  lemma {:induction false} ScoredMeaning(ops: TextOps, query: string, chunks: seq<Chunk>, r: Retrieved)
    ensures multiset(Scored(ops, query, chunks))[r] ==
      if r.score == KeywordScore(ops, query, r.chunk) && r.score > 0.0 then multiset(chunks)[r.chunk] else 0
  {
    hide KeywordScore;
    if chunks != [] {
      ScoredMeaning(ops, query, chunks[1..], r);
      assert chunks == [chunks[0]] + chunks[1..];
    }
  }

  /** What a chunk is matched on: title, content, question, answer and tags, as far as there are any. */
  function Material(c: Chunk): seq<string> {
    [if c.title.Some? then c.title.value else "", c.content]
    + (match c.question case Some(q) => [q] case None => [])
    + (match c.answer case Some(a) => [a] case None => [])
    + [Join(c.tags, " ")]
  }

  /** The score is the positive overlap of the query with the chunk's material, at most 1. */
  predicate Matched(ops: TextOps, query: string, c: Chunk, score: real) {
    var overlap := ops.overlap(query, Join(Material(c), " "));
    score > 0.0 && if overlap <= 1.0 then score == overlap else score == 1.0
  }

  lemma JoinMore(parts: seq<string>, last: string)
    requires parts != []
    ensures Join(parts + [last], " ") == Join(parts, " ") + (" " + last)
  {
    if |parts| > 1 {
      JoinMore(parts[1..], last);
      assert (parts + [last])[1..] == parts[1..] + [last];
      var a, b := parts[0] + " ", Join(parts[1..], " ");
      assert a + (b + (" " + last)) == a + b + (" " + last);
    } else {
      assert (parts + [last])[1..] == [last];
      assert parts[0] + " " + last == parts[0] + (" " + last);
    }
  }

  lemma SearchableIsMaterial(c: Chunk)
    ensures Searchable(c) == Join(Material(c), " ")
  {
    hide Join;
    var head := [OrEmpty(c.title), c.content];
    var q := if c.question.Some? then [c.question.value] else [];
    var a := if c.answer.Some? then [c.answer.value] else [];
    var tags := Join(c.tags, " ");
    TwoJoined(OrEmpty(c.title), c.content);
    var text := OrEmpty(c.title) + " " + c.content;
    var withQuestion := text + if c.question.Some? then " " + c.question.value else "";
    var withAnswer := withQuestion + if c.answer.Some? then " " + c.answer.value else "";
    if c.question.Some? { JoinMore(head, c.question.value); } else { assert head + q == head && text + "" == text; }
    if c.answer.Some? {
      JoinMore(head + q, c.answer.value);
    } else {
      assert head + q + a == head + q && withQuestion + "" == withQuestion;
    }
    JoinMore(head + q + a, tags);
    assert withAnswer + " " + tags == withAnswer + (" " + tags);
    assert Material(c) == head + q + a + [tags];
  }

  lemma TwoJoined(a: string, b: string)
    ensures Join([a, b], " ") == a + " " + b
  {
    assert [a, b][1..] == [b];
  }

  lemma MatchedIff(ops: TextOps, query: string, c: Chunk, score: real)
    ensures Matched(ops, query, c, score) <==> score == KeywordScore(ops, query, c) && score > 0.0
  {
    hide Searchable, Material, Join;
    SearchableIsMaterial(c);
  }

  /**
   Keyword ranking keeps the store's chunks that share a term with the query, as often as the store lists them,
   and no others.
   */
  lemma RankedChunks(ops: TextOps, query: string, chunks: seq<Chunk>, r: Retrieved)
    ensures multiset(RankChunks(ops, query, chunks))[r] ==
      if Matched(ops, query, r.chunk, r.score) then multiset(chunks)[r.chunk] else 0
    ensures r in RankChunks(ops, query, chunks) <==> r.chunk in chunks && Matched(ops, query, r.chunk, r.score)
    ensures Ordered(RankChunks(ops, query, chunks), HigherScore)
  {
    hide KeywordScore, Matched;
    MatchedIff(ops, query, r.chunk, r.score);
    var scored := Scored(ops, query, chunks);
    ScoredMeaning(ops, query, chunks, r);
    SortPermutes(scored, HigherScore);
    assert r in RankChunks(ops, query, chunks) <==> multiset(RankChunks(ops, query, chunks))[r] > 0;
    assert r.chunk in chunks <==> multiset(chunks)[r.chunk] > 0;
    HigherScoreOrders();
    SortOrders(scored, HigherScore);
  }

  // ----- mergeRankedChunks -------------------------------------------------------------------

  function MergeStep(byId: Entries<Retrieved>, c: Retrieved): Entries<Retrieved> {
    match Get(byId, c.chunk.id)
    case None => Set(byId, c.chunk.id, c)
    case Some(existing) =>
      if c.score > existing.score then Set(byId, c.chunk.id, existing.(score := c.score)) else byId
  }

  function Merged(all: seq<Retrieved>): Entries<Retrieved> {
    if all == [] then [] else MergeStep(Merged(all[..|all| - 1]), all[|all| - 1])
  }

  function Values(m: Entries<Retrieved>): seq<Retrieved> {
    seq(|m|, i requires 0 <= i < |m| => m[i].1)
  }

  function MergeRanked(keyword: seq<Retrieved>, semantic: seq<Retrieved>): seq<Retrieved> {
    Sort(Values(Merged(keyword + semantic)), HigherScore)
  }

  method MergeRankedChunks(keyword: seq<Retrieved>, semantic: seq<Retrieved>) returns (ranked: seq<Retrieved>)
    ensures ranked == MergeRanked(keyword, semantic)
  {
    var byId: Entries<Retrieved> := [];
    var all := keyword + semantic;
    for i := 0 to |all|
      invariant byId == Merged(all[..i])
    {
      assert all[..i + 1][..i] == all[..i];
      var c := all[i];
      var at := Find(byId, c.chunk.id);
      if at == |byId| {
        byId := byId + [(c.chunk.id, c)];
      } else if c.score > byId[at].1.score {
        byId := byId[at := (c.chunk.id, byId[at].1.(score := c.score))];
      }
    }
    assert all[..|all|] == all;
    ranked := Sort(Values(byId), HigherScore);
  }

  function FirstIndex(all: seq<Retrieved>, id: string): (i: nat)
    ensures i <= |all|
    ensures i < |all| ==> all[i].chunk.id == id
    ensures forall j :: 0 <= j < i ==> all[j].chunk.id != id
  {
    if all == [] || all[0].chunk.id == id then 0 else 1 + FirstIndex(all[1..], id)
  }

  /** r is what the merge should hold for its id: the first occurrence with the largest score. */
  ghost predicate IsMergeOf(all: seq<Retrieved>, r: Retrieved) {
    && FirstIndex(all, r.chunk.id) < |all| && r.chunk == all[FirstIndex(all, r.chunk.id)].chunk
    && (exists i :: 0 <= i < |all| && all[i].chunk.id == r.chunk.id && all[i].score == r.score)
    && (forall i :: 0 <= i < |all| && all[i].chunk.id == r.chunk.id ==> all[i].score <= r.score)
  }

  ghost predicate HoldsMerges(byId: Entries<Retrieved>, all: seq<Retrieved>) {
    forall i :: 0 <= i < |byId| ==> byId[i].0 == byId[i].1.chunk.id && IsMergeOf(all, byId[i].1)
  }

  ghost predicate InFirstOrder(byId: Entries<Retrieved>, all: seq<Retrieved>) {
    forall i, j :: 0 <= i < j < |byId| ==> FirstIndex(all, byId[i].0) < FirstIndex(all, byId[j].0)
  }

  ghost predicate HasAllIds(byId: Entries<Retrieved>, all: seq<Retrieved>) {
    forall i :: 0 <= i < |all| ==> Find(byId, all[i].chunk.id) < |byId|
  }

  ghost predicate ById(byId: Entries<Retrieved>, all: seq<Retrieved>) {
    HoldsMerges(byId, all) && InFirstOrder(byId, all) && HasAllIds(byId, all)
  }

  lemma FirstIndexSnoc(all: seq<Retrieved>, c: Retrieved, id: string)
    ensures FirstIndex(all + [c], id) ==
      if FirstIndex(all, id) < |all| || c.chunk.id == id then FirstIndex(all, id) else |all| + 1
  {
    var more := all + [c];
    var i, j := FirstIndex(all, id), FirstIndex(more, id);
    assert forall k :: 0 <= k < |all| ==> more[k] == all[k];
    assert more[|all|] == c;
  }

  lemma IsMergeSnoc(all: seq<Retrieved>, c: Retrieved, r: Retrieved)
    requires IsMergeOf(all, r)
    ensures c.chunk.id == r.chunk.id && c.score > r.score ==> IsMergeOf(all + [c], r.(score := c.score))
    ensures !(c.chunk.id == r.chunk.id && c.score > r.score) ==> IsMergeOf(all + [c], r)
  {
    var more := all + [c];
    FirstIndexSnoc(all, c, r.chunk.id);
    assert forall k :: 0 <= k < |all| ==> more[k] == all[k];
    assert more[|all|] == c;
    var i :| 0 <= i < |all| && all[i].chunk.id == r.chunk.id && all[i].score == r.score;
    assert more[i].chunk.id == r.chunk.id && more[i].score == r.score;
  }

  lemma FirstOrderKept(byId: Entries<Retrieved>, all: seq<Retrieved>, c: Retrieved)
    requires HoldsMerges(byId, all) && InFirstOrder(byId, all)
    ensures InFirstOrder(byId, all + [c])
    ensures Find(byId, c.chunk.id) == |byId| && FirstIndex(all, c.chunk.id) == |all| ==>
      InFirstOrder(byId + [(c.chunk.id, c)], all + [c])
  {
    forall i | 0 <= i < |byId|
      ensures FirstIndex(all + [c], byId[i].0) == FirstIndex(all, byId[i].0) < |all|
    {
      FirstIndexSnoc(all, c, byId[i].0);
    }
    FirstIndexSnoc(all, c, c.chunk.id);
  }

  lemma OrderByKeys(byId: Entries<Retrieved>, m: Entries<Retrieved>, all: seq<Retrieved>)
    requires InFirstOrder(byId, all)
    requires |m| == |byId| && forall i :: 0 <= i < |m| ==> m[i].0 == byId[i].0
    ensures InFirstOrder(m, all)
  {
  }

  lemma HasAllIdsKept(
      byId: Entries<Retrieved>, all: seq<Retrieved>, c: Retrieved, m: Entries<Retrieved>)
    requires HasAllIds(byId, all) && |m| >= |byId|
    requires forall i :: 0 <= i < |byId| ==> m[i].0 == byId[i].0
    requires exists i :: 0 <= i < |m| && m[i].0 == c.chunk.id
    ensures HasAllIds(m, all + [c])
  {
    var more := all + [c];
    forall i | 0 <= i < |more| ensures Find(m, more[i].chunk.id) < |m| {
      if i < |all| {
        assert more[i] == all[i];
        assert m[Find(byId, all[i].chunk.id)].0 == more[i].chunk.id;
      }
    }
  }

  lemma {:induction false} NewIdIsMerge(all: seq<Retrieved>, c: Retrieved)
    requires FirstIndex(all, c.chunk.id) == |all|
    ensures IsMergeOf(all + [c], c)
  {
    var more := all + [c];
    FirstIndexSnoc(all, c, c.chunk.id);
    assert more[|all|].chunk.id == c.chunk.id && more[|all|].score == c.score;
  }

  lemma NewIdIsNew(byId: Entries<Retrieved>, all: seq<Retrieved>, c: Retrieved)
    requires HasAllIds(byId, all) && Find(byId, c.chunk.id) == |byId|
    ensures FirstIndex(all, c.chunk.id) == |all|
  {
    forall i | 0 <= i < |all| ensures all[i].chunk.id != c.chunk.id {
      assert Find(byId, all[i].chunk.id) < |byId|;
    }
  }

  lemma {:induction false} MergeNewId(byId: Entries<Retrieved>, all: seq<Retrieved>, c: Retrieved)
    requires ById(byId, all) && Find(byId, c.chunk.id) == |byId|
    ensures ById(byId + [(c.chunk.id, c)], all + [c])
  {
    hide IsMergeOf, FirstIndex, HasAllIds, InFirstOrder;
    var m := byId + [(c.chunk.id, c)];
    NewIdIsNew(byId, all, c);
    FirstOrderKept(byId, all, c);
    assert m[|byId|].0 == c.chunk.id;
    HasAllIdsKept(byId, all, c, m);
    NewIdIsMerge(all, c);
    forall i | 0 <= i < |byId| ensures IsMergeOf(all + [c], byId[i].1) { IsMergeSnoc(all, c, byId[i].1); }
  }

  lemma MergeKnownId(byId: Entries<Retrieved>, all: seq<Retrieved>, c: Retrieved)
    requires ById(byId, all) && DistinctKeys(byId) && Find(byId, c.chunk.id) < |byId|
    ensures ById(Raised(byId, c), all + [c])
  {
    var m := Raised(byId, c);
    FirstOrderKept(byId, all, c);
    OrderByKeys(byId, m, all + [c]);
    assert m[Find(byId, c.chunk.id)].0 == c.chunk.id;
    HasAllIdsKept(byId, all, c, m);
    KnownIdIsMerge(byId, all, c);
  }

  function Raised(byId: Entries<Retrieved>, c: Retrieved): (m: Entries<Retrieved>)
    requires Find(byId, c.chunk.id) < |byId|
    ensures |m| == |byId| && forall i :: 0 <= i < |m| ==> m[i].0 == byId[i].0
  {
    var at := Find(byId, c.chunk.id);
    var r := byId[at].1;
    if c.score > r.score then byId[at := (c.chunk.id, r.(score := c.score))] else byId
  }

  lemma {:induction false} EntryIsMerge(byId: Entries<Retrieved>, all: seq<Retrieved>, c: Retrieved, i: nat)
    requires HoldsMerges(byId, all) && DistinctKeys(byId) && Find(byId, c.chunk.id) < |byId| && i < |byId|
    ensures var m := Raised(byId, c); m[i].0 == m[i].1.chunk.id && IsMergeOf(all + [c], m[i].1)
  {
    IsMergeSnoc(all, c, byId[i].1);
    if i != Find(byId, c.chunk.id) { GetAt(byId, i); }
  }

  lemma KnownIdIsMerge(byId: Entries<Retrieved>, all: seq<Retrieved>, c: Retrieved)
    requires HoldsMerges(byId, all) && DistinctKeys(byId) && Find(byId, c.chunk.id) < |byId|
    ensures HoldsMerges(Raised(byId, c), all + [c])
  {
    forall i | 0 <= i < |byId|
      ensures Raised(byId, c)[i].0 == Raised(byId, c)[i].1.chunk.id
      ensures IsMergeOf(all + [c], Raised(byId, c)[i].1)
    {
      EntryIsMerge(byId, all, c, i);
    }
  }

  lemma FirstOrderDistinct(byId: Entries<Retrieved>, all: seq<Retrieved>)
    requires InFirstOrder(byId, all)
    ensures DistinctKeys(byId)
  {
    forall i, j | 0 <= i < j < |byId| ensures byId[i].0 != byId[j].0 {
      assert FirstIndex(all, byId[i].0) < FirstIndex(all, byId[j].0);
    }
  }

  lemma MergeStepKeeps(byId: Entries<Retrieved>, all: seq<Retrieved>, c: Retrieved)
    requires ById(byId, all)
    ensures ById(MergeStep(byId, c), all + [c])
  {
    if Find(byId, c.chunk.id) == |byId| {
      MergeNewId(byId, all, c);
    } else {
      FirstOrderDistinct(byId, all);
      MergeKnownId(byId, all, c);
    }
  }

  lemma NothingMerged()
    ensures ById(Merged([]), [])
  {
  }

  lemma MergedLast(all: seq<Retrieved>)
    requires all != []
    ensures Merged(all) == MergeStep(Merged(all[..|all| - 1]), all[|all| - 1])
  {
  }

  lemma {:induction false} MergedById(all: seq<Retrieved>)
    ensures ById(Merged(all), all)
  {
    hide ById, MergeStep, Merged;
    if all == [] {
      NothingMerged();
    } else {
      var before, last := all[..|all| - 1], all[|all| - 1];
      MergedById(before);
      MergeStepKeeps(Merged(before), before, last);
      MergedLast(all);
      assert before + [last] == all;
    }
  }

  /** One chunk per id, holding the first occurrence's fields and the largest score of any occurrence. */
  lemma MergeHolds(keyword: seq<Retrieved>, semantic: seq<Retrieved>)
    ensures var all, ranked := keyword + semantic, MergeRanked(keyword, semantic);
      && (forall i :: 0 <= i < |ranked| ==> IsMergeOf(all, ranked[i]))
      && (forall i :: 0 <= i < |all| ==> exists j :: 0 <= j < |ranked| && ranked[j].chunk.id == all[i].chunk.id)
  {
    var all, ranked := keyword + semantic, MergeRanked(keyword, semantic);
    forall i | 0 <= i < |ranked| ensures IsMergeOf(all, ranked[i]) {
      RankedIsMerge(all, ranked[i]);
    }
    forall i | 0 <= i < |all| ensures exists j :: 0 <= j < |ranked| && ranked[j].chunk.id == all[i].chunk.id {
      var r := RankedHas(all, all[i].chunk.id);
    }
  }

  lemma MergeWitness(all: seq<Retrieved>, r: Retrieved) returns (hit: Retrieved, first: Retrieved)
    requires IsMergeOf(all, r)
    ensures hit in all && hit.chunk.id == r.chunk.id && hit.score == r.score
    ensures first in all && first.chunk == r.chunk
  {
    var i :| 0 <= i < |all| && all[i].chunk.id == r.chunk.id && all[i].score == r.score;
    hit, first := all[i], all[FirstIndex(all, r.chunk.id)];
  }

  lemma RankedIsMerge(all: seq<Retrieved>, r: Retrieved)
    requires r in Sort(Values(Merged(all)), HigherScore)
    ensures IsMergeOf(all, r)
  {
    MergedById(all);
    SortKeeps(Values(Merged(all)), HigherScore, r);
  }

  lemma RankedHas(all: seq<Retrieved>, id: string) returns (r: Retrieved)
    requires exists i :: 0 <= i < |all| && all[i].chunk.id == id
    ensures r in Sort(Values(Merged(all)), HigherScore) && r.chunk.id == id
  {
    MergedById(all);
    var k := Find(Merged(all), id);
    r := Values(Merged(all))[k];
    SortKeeps(Values(Merged(all)), HigherScore, r);
  }

  lemma RankedStable(all: seq<Retrieved>, i: nat, j: nat)
    requires i < j < |Merged(all)|
    ensures var ranked := Sort(Values(Merged(all)), HigherScore);
      && |ranked| == |Merged(all)| && ranked[i].score >= ranked[j].score
      && (ranked[i].score == ranked[j].score ==>
           FirstIndex(all, ranked[i].chunk.id) < FirstIndex(all, ranked[j].chunk.id))
  {
    var values := Values(Merged(all));
    MergedById(all);
    HigherScoreOrders();
    SortOrders(values, HigherScore);
    SortPermutes(values, HigherScore);
    var before := (a: Retrieved, b: Retrieved) => FirstIndex(all, a.chunk.id) < FirstIndex(all, b.chunk.id);
    SortStable(values, HigherScore, before);
    var ranked := Sort(values, HigherScore);
    assert !HigherScore(ranked[j], ranked[i]) || before(ranked[i], ranked[j]);
    assert HigherScore(ranked[i], ranked[j]);
  }

  /** Highest score first; equal scores in order of first appearance; hence no id twice. */
  lemma MergeOrder(keyword: seq<Retrieved>, semantic: seq<Retrieved>, i: nat, j: nat)
    requires i < j < |MergeRanked(keyword, semantic)|
    ensures var all, ranked := keyword + semantic, MergeRanked(keyword, semantic);
      && ranked[i].chunk.id != ranked[j].chunk.id
      && (|| ranked[i].score > ranked[j].score
          || (ranked[i].score == ranked[j].score &&
              FirstIndex(all, ranked[i].chunk.id) < FirstIndex(all, ranked[j].chunk.id)))
  {
    var all, ranked := keyword + semantic, MergeRanked(keyword, semantic);
    SortPermutes(Values(Merged(all)), HigherScore);
    RankedStable(all, i, j);
    if ranked[i].chunk.id == ranked[j].chunk.id {
      RankedIsMerge(all, ranked[i]);
      RankedIsMerge(all, ranked[j]);
      SameMerge(all, ranked[i], ranked[j]);
    }
  }

  lemma SameMerge(all: seq<Retrieved>, a: Retrieved, b: Retrieved)
    requires IsMergeOf(all, a) && IsMergeOf(all, b) && a.chunk.id == b.chunk.id
    ensures a == b
  {
  }

  // ----- Chunks handed to the generator ------------------------------------------------------

  function AtLeast(chunks: seq<Retrieved>, threshold: real): seq<Retrieved> {
    if chunks == [] then []
    else (if chunks[0].score >= threshold then [chunks[0]] else []) + AtLeast(chunks[1..], threshold)
  }

  function Supporting(ranked: seq<Retrieved>, threshold: real): seq<Retrieved> {
    var good := AtLeast(ranked, threshold);
    if |good| <= 3 then good else good[..3]
  }

  lemma OrderedTail(ranked: seq<Retrieved>)
    requires Ordered(ranked, HigherScore) && ranked != []
    ensures Ordered(ranked[1..], HigherScore) && forall i :: 0 <= i < |ranked| ==> ranked[i].score <= ranked[0].score
    ensures forall i :: 0 <= i < |ranked| - 1 ==> ranked[1..][i] == ranked[i + 1]
  {
  }

  lemma {:induction false} AtLeastIsPrefix(ranked: seq<Retrieved>, threshold: real)
    requires Ordered(ranked, HigherScore)
    ensures AtLeast(ranked, threshold) <= ranked
    ensures |AtLeast(ranked, threshold)| < |ranked| ==> ranked[|AtLeast(ranked, threshold)|].score < threshold
    ensures forall i :: 0 <= i < |AtLeast(ranked, threshold)| ==> AtLeast(ranked, threshold)[i].score >= threshold
  {
    hide HigherScore;
    if ranked != [] {
      var rest := ranked[1..];
      OrderedTail(ranked);
      if ranked[0].score < threshold {
        NoneAtLeast(rest, threshold);
      } else {
        AtLeastIsPrefix(rest, threshold);
        assert AtLeast(ranked, threshold) == [ranked[0]] + AtLeast(rest, threshold);
      }
    }
  }

  lemma {:induction false} NoneAtLeast(chunks: seq<Retrieved>, threshold: real)
    requires forall i :: 0 <= i < |chunks| ==> chunks[i].score < threshold
    ensures AtLeast(chunks, threshold) == []
  {
    if chunks != [] { NoneAtLeast(chunks[1..], threshold); }
  }

  /** The supporting chunks are a non-empty prefix of the ranking, headed by its best chunk. */
  lemma SupportingIsPrefix(keyword: seq<Retrieved>, semantic: seq<Retrieved>, threshold: real)
    requires var ranked := MergeRanked(keyword, semantic); ranked != [] && ranked[0].score >= threshold
    ensures var ranked := MergeRanked(keyword, semantic);
      var s := Supporting(ranked, threshold);
      && s <= ranked && 1 <= |s| <= 3 && s[0] == ranked[0]
      && (|s| < 3 && |s| < |ranked| ==> ranked[|s|].score < threshold)
      && forall i :: 0 <= i < |s| ==> s[i].score >= threshold
  {
    HigherScoreOrders();
    SortOrders(Values(Merged(keyword + semantic)), HigherScore);
    AtLeastIsPrefix(MergeRanked(keyword, semantic), threshold);
  }

  // ----- classifyIntent ----------------------------------------------------------------------

  datatype Intent = Intent(allowed: bool, name: string, score: real)

  const UNKNOWN_INTENT := Intent(false, "unknown", 0.0)

  function IntentScore(ops: TextOps, message: string, intent: AllowedIntent): (r: real)
    ensures r >= ops.keywordScore(message, intent.keywords) && r >= ops.keywordScore(message, intent.examples)
    ensures r in {ops.keywordScore(message, intent.keywords), ops.keywordScore(message, intent.examples)}
  {
    var a, b := ops.keywordScore(message, intent.keywords), ops.keywordScore(message, intent.examples);
    if a >= b then a else b
  }

  /** The first enabled intent that attains the largest positive score, if any score is positive. */
  ghost predicate IsBestIntent(ops: TextOps, message: string, intents: seq<AllowedIntent>, best: Intent) {
    if best.allowed then
      exists i :: 0 <= i < |intents| && intents[i].enabled && best.name == intents[i].name
        && best.score == IntentScore(ops, message, intents[i]) > 0.0
        && (forall j :: 0 <= j < |intents| && intents[j].enabled ==>
             IntentScore(ops, message, intents[j]) <= best.score)
        && (forall j :: 0 <= j < i && intents[j].enabled ==> IntentScore(ops, message, intents[j]) < best.score)
    else
      best == UNKNOWN_INTENT &&
      forall j :: 0 <= j < |intents| && intents[j].enabled ==> IntentScore(ops, message, intents[j]) <= 0.0
  }

  function BestIntent(ops: TextOps, message: string, intents: seq<AllowedIntent>): Intent {
    if intents == [] then UNKNOWN_INTENT
    else
      var last := |intents| - 1;
      var best := BestIntent(ops, message, intents[..last]);
      var score := IntentScore(ops, message, intents[last]);
      if intents[last].enabled && score > best.score then Intent(true, intents[last].name, score) else best
  }

  lemma {:induction false} BestIntentIsBest(ops: TextOps, message: string, intents: seq<AllowedIntent>)
    ensures IsBestIntent(ops, message, intents, BestIntent(ops, message, intents))
  {
    hide IntentScore;
    if intents != [] {
      var last := |intents| - 1;
      BestIntentIsBest(ops, message, intents[..last]);
      assert forall j :: 0 <= j < last ==> intents[..last][j] == intents[j];
    }
  }

  lemma UnmatchedIntent(ops: TextOps, message: string, intents: seq<AllowedIntent>)
    requires BestIntent(ops, message, intents).score == 0.0
    ensures BestIntent(ops, message, intents) == UNKNOWN_INTENT
  {
    BestIntentIsBest(ops, message, intents);
  }

  method ClassifyIntent(ops: TextOps, message: string, allowedIntents: seq<AllowedIntent>) returns (best: Intent)
    ensures best == BestIntent(ops, message, allowedIntents)
    ensures IsBestIntent(ops, message, allowedIntents, best)
  {
    hide IntentScore, IsBestIntent;
    BestIntentIsBest(ops, message, allowedIntents);
    best := UNKNOWN_INTENT;
    for i := 0 to |allowedIntents|
      invariant best == BestIntent(ops, message, allowedIntents[..i])
    {
      assert allowedIntents[..i + 1][..i] == allowedIntents[..i];
      if allowedIntents[i].enabled {
        var score := IntentScore(ops, message, allowedIntents[i]);
        if score > best.score {
          best := Intent(true, allowedIntents[i].name, score);
        }
      }
    }
    assert allowedIntents[..|allowedIntents|] == allowedIntents;
    if best.score == 0.0 {
      UnmatchedIntent(ops, message, allowedIntents);
      best := UNKNOWN_INTENT;
    }
  }
}
