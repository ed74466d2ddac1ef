/**
 The backfill of missing embeddings: rounds of at most a hundred chunks per tenant, until none is missing or a
 round stores nothing.
 */
module Backfill {
  import opened Strings
  import opened Embeddings

  const BATCH_SIZE := 100
  const MAX_INPUT := 8000

  datatype Chunk = Chunk(id: string, title: Option<string>, content: string, approved: bool, embedding: Option<Vector>)

  /** A tenant's chunks in id order. */
  type Rows = seq<Chunk>

  /** A provider's answer: vectors by position, with gaps where one is missing. */
  type Answer = seq<Option<Vector>>

  /** An embedding provider; the number tells its calls apart, so it may answer the same texts differently. */
  type Provider = (nat, seq<string>) -> Outcome<Answer>

  /** The position in a page, by the call that asked for it, whose write throws; None when no write does. */
  type Faults = nat -> Option<nat>

  predicate IsMissing(c: Chunk) { c.approved && c.embedding.None? }

  function Missing(rows: Rows): (r: Rows)
    ensures |r| <= |rows|
  {
    if rows == [] then []
    else if IsMissing(rows[0]) then [rows[0]] + Missing(rows[1..])
    else Missing(rows[1..])
  }

  function ListMissing(rows: Rows): (r: Rows)
    ensures |r| <= |rows|
  {
    Missing(rows)[..Min(BATCH_SIZE, |Missing(rows)|)]
  }

  function NonBlank(value: string): seq<string> { if value == "" then [] else [value] }

  function InputOf(c: Chunk): string {
    var title := if c.title.Some? then NonBlank(c.title.value) else [];
    var text := Join(title + NonBlank(c.content), "\n");
    text[..Min(MAX_INPUT, |text|)]
  }

  function Inputs(page: Rows): seq<string> {
    seq(|page|, i requires 0 <= i < |page| => InputOf(page[i]))
  }

  /** update ... set embedding where id = id. */
  function SetEmbedding(rows: Rows, id: string, v: Vector): Rows {
    seq(|rows|, i requires 0 <= i < |rows| => if rows[i].id == id then rows[i].(embedding := Some(v)) else rows[i])
  }

  predicate HasVector(vectors: Answer, i: nat) { i < |vectors| && vectors[i].Some? }

  /** How many of the first n positions have a vector. */
  function CountVectors(vectors: Answer, n: nat): (count: nat)
    ensures count <= n
  {
    if n == 0 then 0 else CountVectors(vectors, n - 1) + if HasVector(vectors, n - 1) then 1 else 0
  }

  /** A page's chunks get the vectors at their positions; a chunk without a vector is passed over. */
  function StoreVectors(rows: Rows, page: Rows, vectors: Answer): (r: Rows)
    ensures |r| == |rows|
    ensures forall i :: 0 <= i < |rows| ==> r[i].id == rows[i].id
  {
    if page == [] then rows
    else
      var n := |page| - 1;
      var before := StoreVectors(rows, page[..n], vectors);
      if HasVector(vectors, n) then SetEmbedding(before, page[n].id, vectors[n].value) else before
  }

  ghost predicate DistinctIds(rows: Rows) {
    forall i, j :: 0 <= i < j < |rows| ==> rows[i].id != rows[j].id
  }

  // ----- One round ---------------------------------------------------------------------------

  lemma {:induction false} MissingMeaning(rows: Rows)
    requires DistinctIds(rows)
    ensures DistinctIds(Missing(rows))
    ensures forall c :: c in Missing(rows) <==> c in rows && IsMissing(c)
  {
    if rows != [] {
      assert rows == [rows[0]] + rows[1..];
      assert DistinctIds(rows[1..]);
      MissingMeaning(rows[1..]);
      var rest := Missing(rows[1..]);
      forall j | 0 <= j < |rest| ensures rest[j].id != rows[0].id {
        assert rest[j] in rows[1..];
      }
    }
  }

  /** The chunks of the page are missing rows, each once. */
  ghost predicate PageFits(rows: Rows, page: Rows) {
    DistinctIds(rows) && DistinctIds(page) && forall c :: c in page ==> c in rows && IsMissing(c)
  }

  lemma {:induction false} ListedPageFits(rows: Rows)
    requires DistinctIds(rows)
    ensures PageFits(rows, ListMissing(rows)) && ListMissing(rows) <= Missing(rows)
    ensures ListMissing(rows) == [] <==> Missing(rows) == []
  {
    MissingMeaning(rows);
    assert forall c :: c in ListMissing(rows) ==> c in Missing(rows);
  }

  /** Row i after a page: changed only if the page lists it at a position that has a vector, and then to that vector. */
  lemma {:induction false} StoredRow(rows: Rows, page: Rows, vectors: Answer, i: nat)
    requires DistinctIds(page) && i < |rows|
    ensures var r := StoreVectors(rows, page, vectors);
      && (forall j :: 0 <= j < |page| && page[j].id == rows[i].id ==>
           r[i] == if HasVector(vectors, j) then rows[i].(embedding := vectors[j]) else rows[i])
      && ((forall j :: 0 <= j < |page| ==> page[j].id != rows[i].id) ==> r[i] == rows[i])
  {
    if page != [] {
      var n := |page| - 1;
      assert forall j :: 0 <= j < n ==> page[..n][j] == page[j];
      StoredRow(rows, page[..n], vectors, i);
    }
  }

  lemma {:induction false} SetShrinks(rows: Rows, id: string, v: Vector, i: nat)
    requires DistinctIds(rows) && i < |rows| && rows[i].id == id && IsMissing(rows[i])
    ensures |Missing(SetEmbedding(rows, id, v))| == |Missing(rows)| - 1
  {
    var updated := SetEmbedding(rows, id, v);
    if i == 0 {
      assert updated[1..] == rows[1..];
    } else {
      assert updated[1..] == SetEmbedding(rows[1..], id, v);
      SetShrinks(rows[1..], id, v, i - 1);
    }
  }

  /** The last chunk of a page is still missing when the others have been stored. */
  lemma LastUntouched(rows: Rows, page: Rows, vectors: Answer) returns (i: nat)
    requires PageFits(rows, page) && page != []
    ensures PageFits(rows, page[..|page| - 1]) && IsMissing(page[|page| - 1])
    ensures i < |rows| && StoreVectors(rows, page[..|page| - 1], vectors)[i] == page[|page| - 1]
  {
    var n := |page| - 1;
    assert page[n] in page && forall c :: c in page[..n] ==> c in page;
    i :| 0 <= i < |rows| && rows[i] == page[n];
    assert forall j :: 0 <= j < n ==> page[..n][j].id != page[n].id;
    StoredRow(rows, page[..n], vectors, i);
  }

  /** A page stores as many vectors as it has chunks with one, and the missing set shrinks by exactly that. */
  lemma {:induction false} PageShrinks(rows: Rows, page: Rows, vectors: Answer)
    requires PageFits(rows, page)
    ensures |Missing(StoreVectors(rows, page, vectors))| == |Missing(rows)| - CountVectors(vectors, |page|)
  {
    hide PageFits, SetEmbedding, IsMissing;
    if page != [] {
      var n := |page| - 1;
      var i := LastUntouched(rows, page, vectors);
      PageShrinks(rows, page[..n], vectors);
      if HasVector(vectors, n) {
        StoredDistinct(rows, page, vectors);
        SetShrinks(StoreVectors(rows, page[..n], vectors), page[n].id, vectors[n].value, i);
      }
    }
  }

  lemma StoredDistinct(rows: Rows, page: Rows, vectors: Answer)
    requires PageFits(rows, page) && page != []
    ensures DistinctIds(StoreVectors(rows, page[..|page| - 1], vectors))
  {
  }

  // ----- One tenant --------------------------------------------------------------------------

  function Ask(rows: Rows, calls: nat, provider: Provider): Outcome<Answer> {
    provider(calls, Inputs(ListMissing(rows)))
  }

  /** How far the inner loop gets: to the write that throws, or through the page. */
  function StopAt(n: nat, vectors: Answer, fault: Option<nat>): (stop: nat)
    ensures stop <= n
  {
    if fault.Some? && fault.value < n && HasVector(vectors, fault.value) then fault.value else n
  }

  /** The rows after the first positions of a page. */
  function Round(rows: Rows, vectors: Answer, stop: nat): Rows
    requires stop <= |ListMissing(rows)|
  {
    StoreVectors(rows, ListMissing(rows)[..stop], vectors)
  }

  lemma StartFits(rows: Rows, stop: nat)
    requires DistinctIds(rows) && stop <= |ListMissing(rows)|
    ensures PageFits(rows, ListMissing(rows)[..stop])
  {
    hide ListMissing;
    ListedPageFits(rows);
    assert forall c :: c in ListMissing(rows)[..stop] ==> c in ListMissing(rows);
  }

  lemma {:induction false} NothingStored(rows: Rows, page: Rows, vectors: Answer)
    requires CountVectors(vectors, |page|) == 0
    ensures StoreVectors(rows, page, vectors) == rows
  {
    if page != [] { NothingStored(rows, page[..|page| - 1], vectors); }
  }

  /** A round shrinks the missing set by exactly what it wrote, and changes nothing when it wrote nothing. */
  lemma RoundShrinks(rows: Rows, vectors: Answer, stop: nat)
    requires DistinctIds(rows) && stop <= |ListMissing(rows)|
    ensures DistinctIds(Round(rows, vectors, stop)) && |Round(rows, vectors, stop)| == |rows|
    ensures |Missing(Round(rows, vectors, stop))| == |Missing(rows)| - CountVectors(vectors, stop)
    ensures CountVectors(vectors, stop) == 0 ==> Round(rows, vectors, stop) == rows
  {
    hide Missing, PageFits, ListMissing;
    StartFits(rows, stop);
    PageShrinks(rows, ListMissing(rows)[..stop], vectors);
    if CountVectors(vectors, stop) == 0 { NothingStored(rows, ListMissing(rows)[..stop], vectors); }
  }

  datatype Progress = Progress(rows: Rows, calls: nat, embedded: nat, threw: bool)

  function BackfillRows(rows: Rows, calls: nat, embedded: nat, provider: Provider, faults: Faults): (r: Progress)
    requires DistinctIds(rows)
    ensures DistinctIds(r.rows)
    decreases |Missing(rows)|
  {
    if ListMissing(rows) == [] then Progress(rows, calls, embedded, false)
    else
      match Ask(rows, calls, provider)
      case Threw => Progress(rows, calls + 1, embedded, true)
      case Returned(vectors) =>
        var n := |ListMissing(rows)|;
        var stop := StopAt(n, vectors, faults(calls));
        var written := CountVectors(vectors, stop);
        RoundShrinks(rows, vectors, stop);
        var next := Round(rows, vectors, stop);
        if stop < n then Progress(next, calls + 1, embedded + written, true)
        else if written == 0 then Progress(next, calls + 1, embedded, false)
        else BackfillRows(next, calls + 1, embedded + written, provider, faults)
  }

  /** What one turn of the loop makes of the rest. */
  lemma RoundOf(rows: Rows, calls: nat, embedded: nat, provider: Provider, faults: Faults)
    requires DistinctIds(rows)
    ensures var rest := BackfillRows(rows, calls, embedded, provider, faults);
      if ListMissing(rows) == [] then rest == Progress(rows, calls, embedded, false)
      else
        var reply, n := provider(calls, Inputs(ListMissing(rows))), |ListMissing(rows)|;
        if reply.Threw? then rest == Progress(rows, calls + 1, embedded, true)
        else
          var stop := StopAt(n, reply.value, faults(calls));
          var written, next := CountVectors(reply.value, stop), Round(rows, reply.value, stop);
          if stop < n || written == 0 then rest == Progress(next, calls + 1, embedded + written, stop < n)
          else DistinctIds(next) && rest == BackfillRows(next, calls + 1, embedded + written, provider, faults)
  {
    hide Inputs, Missing, ListMissing, StoreVectors, CountVectors, StopAt;
    if ListMissing(rows) != [] && Ask(rows, calls, provider).Returned? {
      var vectors := Ask(rows, calls, provider).value;
      RoundShrinks(rows, vectors, StopAt(|ListMissing(rows)|, vectors, faults(calls)));
    }
  }

  // ----- All tenants -------------------------------------------------------------------------

  type Store = map<string, Rows>

  datatype Run = Run(store: Store, calls: nat, total: nat, threw: bool)

  datatype BackfillResult = BackfillResult(tenants: nat, embedded: nat)

  ghost predicate ValidStore(store: Store) {
    forall t :: t in store ==> DistinctIds(store[t])
  }

  function RowsOf(store: Store, tenant: string): Rows {
    if tenant in store then store[tenant] else []
  }

  function PutRows(store: Store, tenant: string, rows: Rows): Store {
    if tenant in store then store[tenant := rows] else store
  }

  function BackfillAll(store: Store, calls: nat, tenants: seq<string>, provider: Provider, faults: Faults): (r: Run)
    requires ValidStore(store)
    ensures ValidStore(r.store)
  {
    if tenants == [] then Run(store, calls, 0, false)
    else
      var before := BackfillAll(store, calls, tenants[..|tenants| - 1], provider, faults);
      if before.threw then before
      else
        var tenant := tenants[|tenants| - 1];
        var p := BackfillRows(RowsOf(before.store, tenant), before.calls, 0, provider, faults);
        Run(PutRows(before.store, tenant, p.rows), p.calls, before.total + p.embedded, p.threw)
  }

  lemma StoredRows(store: Store, tenant: string)
    requires ValidStore(store)
    ensures DistinctIds(RowsOf(store, tenant)) && store == PutRows(store, tenant, RowsOf(store, tenant))
  {
  }

  class Backfiller {
    var store: Store
    var calls: nat

    constructor (store: Store)
      ensures this.store == store && calls == 0
    {
      this.store, calls := store, 0;
    }

    /** The inner loop over a page and its vectors, until a write throws. */
    method StorePage(tenant: string, page: Rows, vectors: Answer, fault: Option<nat>)
      returns (stored: nat, threw: bool)
      requires tenant in store
      modifies this`store
      ensures var stop := StopAt(|page|, vectors, fault);
        && stored == CountVectors(vectors, stop) && (threw <==> stop < |page|)
        && store == old(store)[tenant := StoreVectors(old(store[tenant]), page[..stop], vectors)]
    {
      stored := 0;
      for i := 0 to |page|
        invariant tenant in store && stored == CountVectors(vectors, i)
        invariant fault.Some? && fault.value < i ==> !HasVector(vectors, fault.value)
        invariant store == old(store)[tenant := StoreVectors(old(store[tenant]), page[..i], vectors)]
      {
        assert page[..i + 1][..i] == page[..i];
        if HasVector(vectors, i) {
          if fault == Some(i) {
            return stored, true;
          }
          store := store[tenant := SetEmbedding(store[tenant], page[i].id, vectors[i].value)];
          stored := stored + 1;
        }
      }
      threw := false;
    }

    /** The rounds of one tenant; the measure of the missing chunks ends them. */
    method BackfillTenant(tenant: string, provider: Provider, faults: Faults) returns (embedded: nat, threw: bool)
      requires ValidStore(store)
      modifies this
      ensures var p := BackfillRows(old(RowsOf(store, tenant)), old(calls), 0, provider, faults);
        && store == PutRows(old(store), tenant, p.rows) && calls == p.calls
        && embedded == p.embedded && threw == p.threw
    {
      hide Inputs, StoreVectors, ListMissing, Missing, BackfillRows, CountVectors, StopAt, DistinctIds;
      embedded := 0;
      StoredRows(store, tenant);
      ghost var goal := BackfillRows(RowsOf(store, tenant), calls, 0, provider, faults);
      while true
        invariant DistinctIds(RowsOf(store, tenant))
        invariant BackfillRows(RowsOf(store, tenant), calls, embedded, provider, faults) == goal
        invariant store == PutRows(old(store), tenant, RowsOf(store, tenant))
        decreases |Missing(RowsOf(store, tenant))|
      {
        var rows := RowsOf(store, tenant);
        var page := ListMissing(rows);
        RoundOf(rows, calls, embedded, provider, faults);
        if page == [] {
          return embedded, false;
        }
        var reply := provider(calls, Inputs(page));
        var fault := faults(calls);
        calls := calls + 1;
        if reply.Threw? {
          return embedded, true;
        }
        RoundShrinks(rows, reply.value, StopAt(|page|, reply.value, fault));
        var stored;
        stored, threw := StorePage(tenant, page, reply.value, fault);
        embedded := embedded + stored;
        if threw || stored == 0 {
          return;
        }
      }
    }

    method BackfillMissingEmbeddings(tenants: seq<string>, provider: Provider, faults: Faults)
      returns (r: Outcome<BackfillResult>)
      requires ValidStore(store)
      modifies this
      ensures var run := BackfillAll(old(store), old(calls), tenants, provider, faults);
        && store == run.store && calls == run.calls
        && r == if run.threw then Threw else Returned(BackfillResult(|tenants|, run.total))
    {
      hide BackfillRows, PutRows, RowsOf;
      var total := 0;
      for i := 0 to |tenants|
        invariant ValidStore(store)
        invariant BackfillAll(old(store), old(calls), tenants[..i], provider, faults) == Run(store, calls, total, false)
      {
        assert tenants[..i + 1][..i] == tenants[..i];
        var embedded, threw := BackfillTenant(tenants[i], provider, faults);
        total := total + embedded;
        assert BackfillAll(old(store), old(calls), tenants[..i + 1], provider, faults) ==
          Run(store, calls, total, threw);
        if threw {
          RunStays(old(store), old(calls), tenants, i + 1, provider, faults);
          return Threw;
        }
      }
      assert tenants[..|tenants|] == tenants;
      r := Returned(BackfillResult(|tenants|, total));
    }
  }

  lemma {:induction false} RunStays(
      store: Store, calls: nat, tenants: seq<string>, k: nat, provider: Provider, faults: Faults)
    requires ValidStore(store) && k <= |tenants| && BackfillAll(store, calls, tenants[..k], provider, faults).threw
    ensures BackfillAll(store, calls, tenants, provider, faults) ==
      BackfillAll(store, calls, tenants[..k], provider, faults)
    decreases |tenants|
  {
    hide BackfillRows;
    if k < |tenants| {
      assert tenants[..|tenants| - 1][..k] == tenants[..k];
      RunStays(store, calls, tenants[..|tenants| - 1], k, provider, faults);
    } else {
      assert tenants[..k] == tenants;
    }
  }

  // ----- Guarantees --------------------------------------------------------------------------

  /** What is counted is exactly the drop in missing chunks, whether or not the provider or the store throws. */
  lemma {:induction false} CountedIsDrop(rows: Rows, calls: nat, embedded: nat, provider: Provider, faults: Faults)
    requires DistinctIds(rows)
    ensures var p := BackfillRows(rows, calls, embedded, provider, faults);
      p.embedded - embedded == |Missing(rows)| - |Missing(p.rows)|
    decreases |Missing(rows)|
  {
    hide Ask, Round, Missing, ListMissing, CountVectors;
    var reply := Ask(rows, calls, provider);
    if ListMissing(rows) != [] && reply.Returned? {
      var n := |ListMissing(rows)|;
      var stop := StopAt(n, reply.value, faults(calls));
      var written := CountVectors(reply.value, stop);
      RoundShrinks(rows, reply.value, stop);
      if stop == n && written > 0 {
        CountedIsDrop(Round(rows, reply.value, stop), calls + 1, embedded + written, provider, faults);
      }
    }
  }

  /** The provider returned no vector for any chunk of the page. */
  predicate YieldsNothing(page: Rows, reply: Outcome<Answer>) {
    reply.Returned? && forall i :: 0 <= i < |page| ==> !HasVector(reply.value, i)
  }

  lemma {:induction false} CountIsZero(vectors: Answer, n: nat)
    requires CountVectors(vectors, n) == 0
    ensures forall i :: 0 <= i < n ==> !HasVector(vectors, i)
  {
    if n > 0 { CountIsZero(vectors, n - 1); }
  }

  /** A tenant that is left has none missing, or the last page listed for it came back without a vector. */
  lemma {:induction false} ExitCondition(rows: Rows, calls: nat, embedded: nat, provider: Provider, faults: Faults)
    requires DistinctIds(rows)
    ensures var p := BackfillRows(rows, calls, embedded, provider, faults);
      && calls <= p.calls
      && (!p.threw ==>
           || Missing(p.rows) == []
           || (p.calls > 0 && YieldsNothing(ListMissing(p.rows), Ask(p.rows, p.calls - 1, provider))))
    decreases |Missing(rows)|
  {
    hide Ask, Round, Missing, ListMissing, CountVectors;
    ListedPageFits(rows);
    var reply := Ask(rows, calls, provider);
    if ListMissing(rows) != [] && reply.Returned? {
      var n := |ListMissing(rows)|;
      var stop := StopAt(n, reply.value, faults(calls));
      var written := CountVectors(reply.value, stop);
      RoundShrinks(rows, reply.value, stop);
      if written == 0 { CountIsZero(reply.value, stop); }
      if stop == n && written > 0 {
        ExitCondition(Round(rows, reply.value, stop), calls + 1, embedded + written, provider, faults);
      }
    }
  }

  /** Each vector the provider returns is the embedding of the text at its position. */
  ghost predicate Faithful(provider: Provider, embedding: string -> Vector) {
    forall n: nat, texts ::
      provider(n, texts).Returned? ==> AlignedWith(provider(n, texts).value, texts, embedding)
  }

  ghost predicate AlignedWith(vectors: Answer, texts: seq<string>, embedding: string -> Vector) {
    forall i :: 0 <= i < |texts| && HasVector(vectors, i) ==> vectors[i] == Some(embedding(texts[i]))
  }

  /** A chunk's title, a line feed and its content, without a part that is empty, as far as 8000 characters. */
  function OwnText(c: Chunk): string {
    var title := if c.title.Some? then c.title.value else "";
    var text := if title == "" then c.content else if c.content == "" then title else title + "\n" + c.content;
    if |text| <= 8000 then text else text[..8000]
  }

  lemma InputIsOwnText(c: Chunk)
    ensures InputOf(c) == OwnText(c)
  {
    var title := if c.title.Some? then NonBlank(c.title.value) else [];
    var parts := title + NonBlank(c.content);
    if title == [] {
      assert parts == NonBlank(c.content);
    } else if c.content == "" {
      assert parts == title;
    } else {
      assert parts == [c.title.value, c.content] && parts[1..] == [c.content];
      assert Join([c.content], "\n") == c.content;
    }
    var text := Join(parts, "\n");
    assert text[..|text|] == text;
  }

  /** A row is left alone, or it was approved without an embedding and holds the embedding of its own text. */
  predicate OwnEmbedding(was: Chunk, now: Chunk, embedding: string -> Vector) {
    now == was ||
    (was.approved && was.embedding.None? && now == was.(embedding := Some(embedding(OwnText(was)))))
  }

  lemma RoundAligned(
      rows: Rows, vectors: Answer, stop: nat, embedding: string -> Vector, i: nat)
    requires DistinctIds(rows) && i < |rows| && stop <= |ListMissing(rows)|
    requires AlignedWith(vectors, Inputs(ListMissing(rows)), embedding)
    ensures OwnEmbedding(rows[i], Round(rows, vectors, stop)[i], embedding)
  {
    hide InputOf, ListMissing, OwnText;
    InputIsOwnText(rows[i]);
    var all := ListMissing(rows);
    var page := all[..stop];
    StartFits(rows, stop);
    StoredRow(rows, page, vectors, i);
    if j :| 0 <= j < |page| && page[j].id == rows[i].id {
      assert page[j] in page;
      var k :| 0 <= k < |rows| && rows[k] == page[j];
      assert k == i;
      assert Inputs(all)[j] == InputOf(rows[i]);
    }
  }

  /** Over a whole run with a faithful provider, every chunk that got an embedding got that of its own text. */
  lemma {:induction false} Aligned(
      rows: Rows, calls: nat, embedded: nat, provider: Provider, faults: Faults, embedding: string -> Vector, i: nat)
    requires DistinctIds(rows) && i < |rows| && Faithful(provider, embedding)
    ensures var p := BackfillRows(rows, calls, embedded, provider, faults);
      |p.rows| == |rows| && OwnEmbedding(rows[i], p.rows[i], embedding)
    decreases |Missing(rows)|
  {
    hide InputOf, Inputs, Missing, ListMissing, StoreVectors, CountVectors, OwnEmbedding, AlignedWith;
    ListedPageFits(rows);
    var reply := Ask(rows, calls, provider);
    SameRow(rows[i], embedding);
    if ListMissing(rows) != [] && reply.Returned? {
      var n := |ListMissing(rows)|;
      var stop := StopAt(n, reply.value, faults(calls));
      var written := CountVectors(reply.value, stop);
      RoundShrinks(rows, reply.value, stop);
      RoundAligned(rows, reply.value, stop, embedding, i);
      if stop == n && written > 0 {
        var next := Round(rows, reply.value, stop);
        Aligned(next, calls + 1, embedded + written, provider, faults, embedding, i);
        var p := BackfillRows(next, calls + 1, embedded + written, provider, faults);
        OwnTwice(rows[i], next[i], p.rows[i], embedding);
      }
    }
  }

  lemma SameRow(c: Chunk, embedding: string -> Vector)
    ensures OwnEmbedding(c, c, embedding)
  {
  }

  lemma OwnTwice(was: Chunk, mid: Chunk, now: Chunk, embedding: string -> Vector)
    requires OwnEmbedding(was, mid, embedding) && OwnEmbedding(mid, now, embedding)
    ensures OwnEmbedding(was, now, embedding)
  {
  }

  /** And so over all tenants: no run, however it ends, puts an embedding on a chunk that is not its own. */
  lemma {:induction false} RunAligned(
      store: Store, calls: nat, tenants: seq<string>, provider: Provider, faults: Faults, embedding: string -> Vector,
      tenant: string, i: nat)
    requires ValidStore(store) && i < |RowsOf(store, tenant)| && Faithful(provider, embedding)
    ensures var rows := RowsOf(BackfillAll(store, calls, tenants, provider, faults).store, tenant);
      |rows| == |RowsOf(store, tenant)| && OwnEmbedding(RowsOf(store, tenant)[i], rows[i], embedding)
  {
    hide BackfillRows, Faithful;
    if tenants != [] {
      var last := tenants[|tenants| - 1];
      RunAligned(store, calls, tenants[..|tenants| - 1], provider, faults, embedding, tenant, i);
      var mid := BackfillAll(store, calls, tenants[..|tenants| - 1], provider, faults);
      if !mid.threw && last == tenant {
        Aligned(RowsOf(mid.store, tenant), mid.calls, 0, provider, faults, embedding, i);
      }
    }
  }

  ghost predicate Complete(provider: Provider) {
    forall n: nat, texts :: provider(n, texts).Returned? && AnswersEach(provider(n, texts).value, texts)
  }

  predicate AnswersEach(vectors: Answer, texts: seq<string>) {
    forall i :: 0 <= i < |texts| ==> HasVector(vectors, i)
  }

  lemma {:induction false} CountAll(vectors: Answer, n: nat)
    requires forall i :: 0 <= i < n ==> HasVector(vectors, i)
    ensures CountVectors(vectors, n) == n
  {
    if n > 0 { CountAll(vectors, n - 1); }
  }

  /**
   A provider that always answers every text, over a store that does not throw, leaves nothing missing, in one
   call per hundred missing chunks.
   */
  lemma {:induction false} CompleteFills(rows: Rows, calls: nat, embedded: nat, provider: Provider, faults: Faults)
    requires DistinctIds(rows) && Complete(provider) && forall n: nat :: faults(n).None?
    ensures var p := BackfillRows(rows, calls, embedded, provider, faults);
      && !p.threw && Missing(p.rows) == []
      && p.calls - calls == (|Missing(rows)| + 99) / 100
    decreases |Missing(rows)|
  {
    hide InputOf, Missing, StoreVectors;
    ListedPageFits(rows);
    if ListMissing(rows) != [] {
      var reply := Ask(rows, calls, provider);
      assert reply.Returned? && AnswersEach(reply.value, Inputs(ListMissing(rows)));
      CountAll(reply.value, |ListMissing(rows)|);
      var n := |ListMissing(rows)|;
      var stop := StopAt(n, reply.value, faults(calls));
      var written := CountVectors(reply.value, stop);
      RoundShrinks(rows, reply.value, stop);
      CompleteFills(Round(rows, reply.value, stop), calls + 1, embedded + written, provider, faults);
    }
  }

  lemma {:induction false} OthersUntouched(
      store: Store, calls: nat, tenants: seq<string>, provider: Provider, faults: Faults, other: string)
    requires ValidStore(store) && other !in tenants
    ensures RowsOf(BackfillAll(store, calls, tenants, provider, faults).store, other) == RowsOf(store, other)
  {
    hide BackfillRows;
    if tenants != [] {
      assert tenants[|tenants| - 1] in tenants;
      OthersUntouched(store, calls, tenants[..|tenants| - 1], provider, faults, other);
    }
  }

  /** The calls a run needs: one per hundred missing chunks of each tenant. */
  function CallsNeeded(store: Store, tenants: seq<string>): nat {
    if tenants == [] then 0
    else
      CallsNeeded(store, tenants[..|tenants| - 1]) + (|Missing(RowsOf(store, tenants[|tenants| - 1]))| + 99) / 100
  }

  /** And so over all tenants: the run returns, with nothing missing, after just those calls. */
  lemma {:induction false} RunFills(
      store: Store, calls: nat, tenants: seq<string>, provider: Provider, faults: Faults)
    requires ValidStore(store) && Complete(provider) && forall n: nat :: faults(n).None?
    requires forall i, j :: 0 <= i < j < |tenants| ==> tenants[i] != tenants[j]
    ensures var run := BackfillAll(store, calls, tenants, provider, faults);
      && !run.threw && run.calls == calls + CallsNeeded(store, tenants)
      && forall t :: t in tenants ==> Missing(RowsOf(run.store, t)) == []
  {
    hide BackfillRows, Complete, Missing;
    if tenants != [] {
      var before, tenant := tenants[..|tenants| - 1], tenants[|tenants| - 1];
      RunFills(store, calls, before, provider, faults);
      OthersUntouched(store, calls, before, provider, faults, tenant);
      var mid := BackfillAll(store, calls, before, provider, faults);
      CompleteFills(RowsOf(mid.store, tenant), mid.calls, 0, provider, faults);
      assert forall t :: t in tenants ==> t == tenant || t in before;
    }
  }

  /** A run that returns leaves every tenant with none missing, or with a last listed page that got no vector. */
  lemma {:induction false} RunExits(
      store: Store, calls: nat, tenants: seq<string>, provider: Provider, faults: Faults)
    requires ValidStore(store) && forall i, j :: 0 <= i < j < |tenants| ==> tenants[i] != tenants[j]
    ensures var run := BackfillAll(store, calls, tenants, provider, faults);
      !run.threw ==> forall t :: t in tenants ==>
        var rows := RowsOf(run.store, t);
        Missing(rows) == [] || exists n: nat :: YieldsNothing(ListMissing(rows), Ask(rows, n, provider))
  {
    hide BackfillRows, Missing, ListMissing, Ask, YieldsNothing;
    if tenants != [] {
      var before, tenant := tenants[..|tenants| - 1], tenants[|tenants| - 1];
      RunExits(store, calls, before, provider, faults);
      OthersUntouched(store, calls, before, provider, faults, tenant);
      var mid := BackfillAll(store, calls, before, provider, faults);
      if !mid.threw { ExitCondition(RowsOf(mid.store, tenant), mid.calls, 0, provider, faults); }
      assert forall t :: t in tenants ==> t == tenant || t in before;
    }
  }

  /** The OpenAI provider over what its endpoint responds. */
  function OpenAi(respond: (nat, seq<string>) -> Outcome<seq<Datum>>): Provider {
    (n: nat, texts: seq<string>) =>
      if texts == [] then Returned([])
      else match respond(n, texts) case Threw => Threw case Returned(data) => Returned(Reorder(data))
  }

  /** With responses that answer every text by a dense set of indices, in any order, the provider is faithful. */
  lemma OpenAiFaithful(
      respond: (nat, seq<string>) -> Outcome<seq<Datum>>, embedding: string -> Vector)
    requires forall n: nat, texts :: respond(n, texts).Returned? ==> Answers(respond(n, texts).value, texts, embedding)
    ensures Faithful(OpenAi(respond), embedding)
  {
    hide Answers;
    var provider := OpenAi(respond);
    forall n: nat, texts | provider(n, texts).Returned?
      ensures AlignedWith(provider(n, texts).value, texts, embedding)
    {
      if texts != [] { ReorderAligns(respond(n, texts).value, texts, embedding); }
    }
  }

  function TotalMissing(store: Store, tenants: seq<string>): nat {
    if tenants == [] then 0
    else TotalMissing(store, tenants[..|tenants| - 1]) + |Missing(RowsOf(store, tenants[|tenants| - 1]))|
  }

  lemma {:induction false} MissingElsewhere(store: Store, tenant: string, rows: Rows, tenants: seq<string>)
    requires tenant !in tenants
    ensures TotalMissing(PutRows(store, tenant, rows), tenants) == TotalMissing(store, tenants)
  {
    if tenants != [] {
      assert tenants[|tenants| - 1] in tenants;
      MissingElsewhere(store, tenant, rows, tenants[..|tenants| - 1]);
    }
  }

  /** The total a run reports is the drop in missing chunks over all tenants. */
  lemma {:induction false} TotalIsDrop(
      store: Store, calls: nat, tenants: seq<string>, provider: Provider, faults: Faults)
    requires ValidStore(store) && forall i, j :: 0 <= i < j < |tenants| ==> tenants[i] != tenants[j]
    ensures var run := BackfillAll(store, calls, tenants, provider, faults);
      run.total == TotalMissing(store, tenants) - TotalMissing(run.store, tenants)
  {
    hide BackfillRows;
    if tenants != [] {
      var before, tenant := tenants[..|tenants| - 1], tenants[|tenants| - 1];
      TotalIsDrop(store, calls, before, provider, faults);
      OthersUntouched(store, calls, before, provider, faults, tenant);
      var mid := BackfillAll(store, calls, before, provider, faults);
      if !mid.threw {
        var rows := RowsOf(mid.store, tenant);
        CountedIsDrop(rows, mid.calls, 0, provider, faults);
        MissingElsewhere(mid.store, tenant, BackfillRows(rows, mid.calls, 0, provider, faults).rows, before);
      }
    }
  }
}
