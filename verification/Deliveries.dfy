/** Automatic re-sending of failed outbound deliveries, over whole histories of runs. */
module Deliveries {
  import opened Strings
  import opened JsMap

  datatype Status = Sent | Failed

  datatype Delivery = Delivery(
    tenantId: string, channel: string, provider: string, text: string,
    providerAccountId: Option<string>, externalConversationId: Option<string>, externalUserId: Option<string>,
    status: Status, retryable: bool, attempts: nat, updatedAt: int)

  /** The deliveries by id, in store order. */
  type Store = Entries<Delivery>

  datatype Outbound = Outbound(
    tenantId: string, channel: string, provider: string, text: string,
    providerAccountId: Option<string>, externalConversationId: Option<string>, externalUserId: Option<string>)

  /** How a delivery that is recorded went; NoAdapter when its channel has none to send through. */
  datatype Send = NoAdapter | SentOk | Queued | Skipped | FailedSend(retryable: bool)

  /** Threw ends the run: the adapter threw, or the recording did; sent says whether the adapter had been called. */
  datatype SendResult = Recorded(send: Send) | Threw(sent: bool)

  datatype RunResult = RunResult(considered: nat, resent: nat, stillFailing: nat, exhausted: nat)

  datatype Verdict = Resent | StillFailing | Exhausted

  predicate NonEmpty(value: Option<string>) { value.Some? && value.value != "" }

  function BuildOutbound(d: Delivery): Outbound {
    Outbound(d.tenantId, d.channel, d.provider, d.text,
             if NonEmpty(d.providerAccountId) then d.providerAccountId else None,
             if NonEmpty(d.externalConversationId) then d.externalConversationId else None,
             if NonEmpty(d.externalUserId) then d.externalUserId else None)
  }

  /** What the listing selects: failed, retryable, below the ceiling, and last tried before the cut-off. */
  predicate Eligible(d: Delivery, before: int, maxAttempts: int) {
    d.status.Failed? && d.retryable && d.attempts < maxAttempts && d.updatedAt < before
  }

  /** Any page the listing may return: eligible rows, each once, oldest first, none older left out, up to the limit. */
  ghost predicate IsPage(store: Store, page: Store, before: int, maxAttempts: int, limit: nat) {
    && DistinctKeys(page) && |page| <= limit
    && (forall i :: 0 <= i < |page| ==>
         Get(store, page[i].0) == Some(page[i].1) && Eligible(page[i].1, before, maxAttempts))
    && (forall i, j :: 0 <= i < j < |page| ==> page[i].1.updatedAt <= page[j].1.updatedAt)
    && (forall k :: 0 <= k < |store| && Eligible(store[k].1, before, maxAttempts) && Get(page, store[k].0).None? ==>
         |page| == limit && forall i :: 0 <= i < |page| ==> page[i].1.updatedAt <= store[k].1.updatedAt)
  }

  /** The row after a recorded send, and how the run counts it. */
  function Settle(d: Delivery, send: Send, now: int, maxAttempts: int): (Delivery, Verdict) {
    var attempts := d.attempts + 1;
    match send
    case NoAdapter => (d.(retryable := false, updatedAt := now), Exhausted)
    case SentOk => (d.(status := Sent, retryable := false, attempts := attempts, updatedAt := now), Resent)
    case Queued => (d.(status := Sent, retryable := false, attempts := attempts, updatedAt := now), Resent)
    case Skipped => (d.(retryable := false, attempts := attempts, updatedAt := now), Exhausted)
    case FailedSend(retryable) =>
      var exhausted := !retryable || attempts >= maxAttempts;
      (d.(retryable := d.retryable && !exhausted, attempts := attempts, updatedAt := now),
       if exhausted then Exhausted else StillFailing)
  }

  /** One run: when, with which ceiling, over which page, and what each send does. */
  datatype Run = Run(now: int, maxAttempts: int, page: Store, result: string -> SendResult)

  /** How many deliveries of the page are recorded before one throws. */
  function RecordedCount(page: Store, result: string -> SendResult): (k: nat)
    ensures k <= |page|
    ensures AllRecorded(page[..k], result)
    ensures k < |page| ==> result(page[k].0).Threw?
  {
    if page == [] || result(page[0].0).Threw? then 0
    else
      var k := RecordedCount(page[1..], result);
      assert page[..k + 1] == [page[0]] + page[1..][..k];
      1 + k
  }

  predicate AllRecorded(page: Store, result: string -> SendResult) {
    forall i :: 0 <= i < |page| ==> result(page[i].0).Recorded?
  }

  function SettledRow(entry: (string, Delivery), run: Run): (Delivery, Verdict)
    requires run.result(entry.0).Recorded?
  {
    Settle(entry.1, run.result(entry.0).send, run.now, run.maxAttempts)
  }

  function AfterPage(store: Store, page: Store, run: Run): Store
    requires AllRecorded(page, run.result)
  {
    if page == [] then store
    else
      var last := page[|page| - 1];
      Set(AfterPage(store, page[..|page| - 1], run), last.0, SettledRow(last, run).0)
  }

  function CountVerdict(t: RunResult, v: Verdict): RunResult {
    var u := t.(considered := t.considered + 1);
    match v
    case Resent => u.(resent := u.resent + 1)
    case StillFailing => u.(stillFailing := u.stillFailing + 1)
    case Exhausted => u.(exhausted := u.exhausted + 1)
  }

  function Tally(page: Store, run: Run): RunResult
    requires AllRecorded(page, run.result)
  {
    if page == [] then RunResult(0, 0, 0, 0)
    else CountVerdict(Tally(page[..|page| - 1], run), SettledRow(page[|page| - 1], run).1)
  }

  predicate HasAdapter(result: SendResult) { result != Recorded(NoAdapter) && result != SendResult.Threw(false) }

  /** The send of one delivery, if its channel has an adapter. */
  function SendOf(entry: (string, Delivery), result: string -> SendResult): seq<(string, Outbound)> {
    if HasAdapter(result(entry.0)) then [(entry.0, BuildOutbound(entry.1))] else []
  }

  function SendsOf(page: Store, result: string -> SendResult): seq<(string, Outbound)> {
    if page == [] then [] else SendsOf(page[..|page| - 1], result) + SendOf(page[|page| - 1], result)
  }

  function RunStore(store: Store, run: Run): Store {
    AfterPage(store, run.page[..RecordedCount(run.page, run.result)], run)
  }

  /** The delivery that throws has been sent too, unless it had no adapter. */
  function RunSends(run: Run): seq<(string, Outbound)> {
    var k := RecordedCount(run.page, run.result);
    SendsOf(if k < |run.page| then run.page[..k + 1] else run.page, run.result)
  }

  // ----- The worker --------------------------------------------------------------------------

  class Worker {
    var store: Store
    var sends: seq<(string, Outbound)>

    constructor (store: Store)
      ensures this.store == store && sends == []
    {
      this.store, sends := store, [];
    }

    /** One turn of the loop; None when it throws. */
    method Redeliver(entry: (string, Delivery), run: Run) returns (verdict: Option<Verdict>)
      modifies this
      ensures sends == old(sends) + SendOf(entry, run.result)
      ensures verdict.None? <==> run.result(entry.0).Threw?
      ensures verdict.None? ==> store == old(store)
      ensures verdict.Some? ==>
        store == Set(old(store), entry.0, SettledRow(entry, run).0) && verdict.value == SettledRow(entry, run).1
    {
      var (id, d) := entry;
      var result := run.result(id);
      if result == Recorded(NoAdapter) {
        store := Set(store, id, d.(retryable := false, updatedAt := run.now));
        return Some(Exhausted);
      }
      if result == SendResult.Threw(false) {
        return None;
      }
      var attempts := d.attempts + 1;
      sends := sends + [(id, BuildOutbound(d))];
      if result.Threw? {
        return None;
      }
      var send := result.send;
      if send.SentOk? || send.Queued? {
        store := Set(store, id, d.(status := Sent, retryable := false, attempts := attempts, updatedAt := run.now));
        return Some(Resent);
      }
      var permanent := send.Skipped? || !send.retryable;
      var exhausted := permanent || attempts >= run.maxAttempts;
      store := Set(store, id, d.(retryable := d.retryable && !exhausted, attempts := attempts, updatedAt := run.now));
      return Some(if exhausted then Exhausted else StillFailing);
    }

    method RetryFailedDeliveries(run: Run) returns (r: Outcome<RunResult>)
      modifies this
      ensures store == RunStore(old(store), run)
      ensures sends == old(sends) + RunSends(run)
      ensures r.Returned? <==> RecordedCount(run.page, run.result) == |run.page|
      ensures r.Returned? ==> AllRecorded(run.page, run.result) && r.value == Tally(run.page, run)
    {
      hide SettledRow, SendOf, AfterPage, SendsOf, Tally, RecordedCount;
      var page := run.page;
      ghost var k := RecordedCount(page, run.result);
      var result := RunResult(0, 0, 0, 0);
      PageStart(store, run);
      assert page[..0] == [];
      for i := 0 to |page|
        invariant i <= k && AllRecorded(page[..i], run.result)
        invariant store == AfterPage(old(store), page[..i], run)
        invariant sends == old(sends) + SendsOf(page[..i], run.result)
        invariant result == Tally(page[..i], run)
      {
        RecordedUpTo(page, run.result, i);
        PageSnoc(old(store), run, i);
        var verdict := Redeliver(page[i], run);
        if verdict.None? {
          return Outcome.Threw;
        }
        result := CountVerdict(result, verdict.value);
      }
      assert page[..|page|] == page;
      r := Returned(result);
    }
  }

  lemma PageStart(store: Store, run: Run)
    ensures AfterPage(store, [], run) == store && SendsOf([], run.result) == [] &&
      Tally([], run) == RunResult(0, 0, 0, 0)
  {
  }

  /** What one more delivery of the page adds. */
  lemma PageSnoc(store: Store, run: Run, i: nat)
    requires i < |run.page|
    ensures SendsOf(run.page[..i + 1], run.result) ==
      SendsOf(run.page[..i], run.result) + SendOf(run.page[i], run.result)
    ensures AllRecorded(run.page[..i + 1], run.result) ==>
      && AllRecorded(run.page[..i], run.result) && run.result(run.page[i].0).Recorded?
      && AfterPage(store, run.page[..i + 1], run) ==
           Set(AfterPage(store, run.page[..i], run), run.page[i].0, SettledRow(run.page[i], run).0)
      && Tally(run.page[..i + 1], run) == CountVerdict(Tally(run.page[..i], run), SettledRow(run.page[i], run).1)
  {
    hide SettledRow, SendOf, Set;
    var upTo := run.page[..i + 1];
    assert upTo[..i] == run.page[..i] && upTo[i] == run.page[i];
    if AllRecorded(upTo, run.result) {
      assert forall n :: 0 <= n < i ==> run.page[..i][n] == upTo[n];
    }
  }

  lemma {:induction false} RecordedUpTo(page: Store, result: string -> SendResult, i: nat)
    requires i <= RecordedCount(page, result) && i < |page|
    ensures result(page[i].0).Threw? <==> i == RecordedCount(page, result)
    ensures i < RecordedCount(page, result) ==> AllRecorded(page[..i + 1], result)
  {
    var k := RecordedCount(page, result);
    assert forall n :: 0 <= n < k ==> page[..k][n] == page[n];
    assert i < k ==> page[..k][i] == page[i];
    assert forall n :: 0 <= n <= i && i < k ==> page[..i + 1][n] == page[..k][n];
  }

  /** Every run that finishes accounts for each delivery exactly once. */
  lemma {:induction false} TallyAdds(page: Store, run: Run)
    requires AllRecorded(page, run.result)
    ensures var t := Tally(page, run);
      t.considered == |page| && t.considered == t.resent + t.stillFailing + t.exhausted
  {
    if page != [] { TallyAdds(page[..|page| - 1], run); }
  }

  // ----- Budgets -----------------------------------------------------------------------------

  /** The re-sends a row has left. */
  function Left(d: Delivery, maxAttempts: int): nat {
    if d.status.Failed? && d.retryable && d.attempts < maxAttempts then maxAttempts - d.attempts else 0
  }

  function LeftOf(store: Store, id: string, maxAttempts: int): nat {
    match Get(store, id) case Some(d) => Left(d, maxAttempts) case None => 0
  }

  function TotalLeft(store: Store, maxAttempts: int): nat {
    if store == [] then 0 else Left(store[0].1, maxAttempts) + TotalLeft(store[1..], maxAttempts)
  }

  function SendCount(sends: seq<(string, Outbound)>, id: string): nat {
    if sends == [] then 0 else SendCount(sends[..|sends| - 1], id) + if sends[|sends| - 1].0 == id then 1 else 0
  }

  lemma SettleSpends(entry: (string, Delivery), run: Run)
    requires run.result(entry.0).Recorded? && Left(entry.1, run.maxAttempts) > 0
    ensures Left(SettledRow(entry, run).0, run.maxAttempts) < Left(entry.1, run.maxAttempts)
  {
  }

  lemma {:induction false} SendCountConcat(a: seq<(string, Outbound)>, b: seq<(string, Outbound)>, id: string)
    ensures SendCount(a + b, id) == SendCount(a, id) + SendCount(b, id)
  {
    if b == [] {
      assert a + b == a;
    } else {
      assert (a + b)[..|a + b| - 1] == a + b[..|b| - 1];
      SendCountConcat(a, b[..|b| - 1], id);
    }
  }

  lemma {:induction false} TotalAfterUpdate(store: Store, i: nat, id: string, d: Delivery, maxAttempts: int)
    requires i < |store|
    ensures TotalLeft(store[i := (id, d)], maxAttempts) ==
      TotalLeft(store, maxAttempts) - Left(store[i].1, maxAttempts) + Left(d, maxAttempts)
  {
    if i > 0 {
      TotalAfterUpdate(store[1..], i - 1, id, d, maxAttempts);
      assert store[i := (id, d)][1..] == store[1..][i - 1 := (id, d)];
    }
  }

  // The state of the page while it is worked through.
  ghost predicate PageFits(store: Store, page: Store, run: Run) {
    && DistinctKeys(store) && DistinctKeys(page) && AllRecorded(page, run.result)
    && (forall i :: 0 <= i < |page| ==>
         Get(store, page[i].0) == Some(page[i].1) && Left(page[i].1, run.maxAttempts) > 0)
  }

  lemma SetGet(m: Store, key: string, d: Delivery, id: string)
    requires DistinctKeys(m)
    ensures DistinctKeys(Set(m, key, d))
    ensures Get(Set(m, key, d), id) == if id == key then Some(d) else Get(m, id)
  {
    SetMeaning(m, key, d);
  }

  lemma PageFitsBefore(store: Store, page: Store, run: Run, id: string)
    requires PageFits(store, page, run) && page != []
    ensures var before, last := page[..|page| - 1], page[|page| - 1];
      && PageFits(store, before, run) && AllRecorded(before, run.result) && run.result(last.0).Recorded?
      && Get(store, last.0) == Some(last.1) && Left(last.1, run.maxAttempts) > 0
      && Find(before, last.0) == |before|
      && Find(page, id) == (if Find(before, id) < |before| then Find(before, id) else if id ==
        last.0 then |before| else |page|)
  {
    hide Left, Get, SettledRow;
    var before, last := page[..|page| - 1], page[|page| - 1];
    assert page == before + [last];
    FindSnoc(before, last, id);
  }

  /** Working through recorded deliveries: rows outside the page keep their value, each one in it is settled. */
  lemma {:induction false} AfterPageGet(store: Store, page: Store, run: Run, id: string)
    requires PageFits(store, page, run)
    ensures DistinctKeys(AfterPage(store, page, run))
    ensures var i := Find(page, id);
      Get(AfterPage(store, page, run), id) ==
        if i < |page| then Some(SettledRow(page[i], run).0) else Get(store, id)
  {
    hide SettledRow, Left, Set, Get, Find;
    if page != [] {
      var before, last := page[..|page| - 1], page[|page| - 1];
      PageFitsBefore(store, page, run, id);
      AfterPageGet(store, before, run, id);
      SetGet(AfterPage(store, before, run), last.0, SettledRow(last, run).0, id);
    }
  }

  lemma FindSnoc(m: Store, last: (string, Delivery), id: string)
    requires DistinctKeys(m + [last])
    ensures Find(m + [last], id) ==
      if Find(m, id) < |m| then Find(m, id) else if id == last.0 then |m| else |m| + 1
    ensures Find(m, last.0) == |m|
  {
    var all := m + [last];
    assert forall i :: 0 <= i < |m| ==> all[i] == m[i];
    assert all[|m|] == last;
    assert forall i :: 0 <= i < |m| ==> all[i].0 != all[|m|].0;
  }

  lemma SendCountOne(send: (string, Outbound), id: string)
    ensures SendCount([send], id) == if send.0 == id then 1 else 0
    ensures SendCount([], id) == 0
  {
    assert [send][..0] == [];
  }

  /** A page sends each of its deliveries that has an adapter once. */
  lemma {:induction false} SendsOnce(page: Store, result: string -> SendResult, id: string)
    requires DistinctKeys(page)
    ensures SendCount(SendsOf(page, result), id) == if Find(page, id) < |page| && HasAdapter(result(id)) then 1 else 0
  {
    hide BuildOutbound, HasAdapter, Find, SendCount;
    if page == [] {
      SendCountOne(("", Outbound("", "", "", "", None, None, None)), id);
    } else {
      var before, last := page[..|page| - 1], page[|page| - 1];
      SendsOnce(before, result, id);
      assert page == before + [last];
      FindSnoc(before, last, id);
      SendCountConcat(SendsOf(before, result), SendOf(last, result), id);
      SendCountOne((last.0, BuildOutbound(last.1)), id);
    }
  }

  lemma {:induction false} AfterPageTotal(store: Store, page: Store, run: Run)
    requires PageFits(store, page, run)
    ensures TotalLeft(AfterPage(store, page, run), run.maxAttempts) + |page| <= TotalLeft(store, run.maxAttempts)
  {
    hide SettledRow, Left, PageFits;
    if page != [] {
      var before, last := page[..|page| - 1], page[|page| - 1];
      PageFitsBefore(store, page, run, last.0);
      AfterPageTotal(store, before, run);
      AfterPageGet(store, before, run, last.0);
      var mid := AfterPage(store, before, run);
      SettleSpends(last, run);
      TotalAfterUpdate(mid, Find(mid, last.0), last.0, SettledRow(last, run).0, run.maxAttempts);
    }
  }

  // ----- Histories ---------------------------------------------------------------------------

  function History(store: Store, runs: seq<Run>): Store {
    if runs == [] then store else RunStore(History(store, runs[..|runs| - 1]), runs[|runs| - 1])
  }

  function HistorySends(runs: seq<Run>): seq<(string, Outbound)> {
    if runs == [] then [] else HistorySends(runs[..|runs| - 1]) + RunSends(runs[|runs| - 1])
  }

  /** Every run lists its page from the store it finds, with one ceiling throughout. */
  ghost predicate Listed(store: Store, runs: seq<Run>, maxAttempts: int) {
    DistinctKeys(store) &&
    (runs != [] ==>
      var before, last := runs[..|runs| - 1], runs[|runs| - 1];
      && Listed(store, before, maxAttempts) && last.maxAttempts == maxAttempts
      && exists cutoff, limit :: IsPage(History(store, before), last.page, cutoff, maxAttempts, limit))
  }

  /** How many runs ended by throwing at this delivery after sending it. */
  function Aborted(runs: seq<Run>, id: string): nat {
    if runs == [] then 0 else Aborted(runs[..|runs| - 1], id) + Aborts(runs[|runs| - 1], id)
  }

  lemma PageOfStore(store: Store, run: Run, cutoff: int, limit: nat)
    requires DistinctKeys(store) && IsPage(store, run.page, cutoff, run.maxAttempts, limit)
    ensures PageFits(store, run.page[..RecordedCount(run.page, run.result)], run)
  {
    var page, k := run.page, RecordedCount(run.page, run.result);
    assert forall i :: 0 <= i < k ==> page[..k][i] == page[i];
  }

  function Aborts(run: Run, id: string): nat {
    var k := RecordedCount(run.page, run.result);
    if k < |run.page| && run.page[k].0 == id && run.result(id).sent then 1 else 0
  }

  lemma PrefixFind(page: Store, k: nat, id: string)
    requires DistinctKeys(page) && k <= |page|
    ensures Find(page[..k], id) < k <==> Find(page, id) < k
    ensures Find(page, id) < k ==> Find(page[..k], id) == Find(page, id)
    ensures k < |page| && page[k].0 == id ==> Find(page, id) == k
  {
    assert forall i :: 0 <= i < k ==> page[..k][i] == page[i];
  }

  /** A run's sends of one row: the settled one, or the one that throws. */
  lemma RunSendCount(run: Run, id: string)
    requires DistinctKeys(run.page)
    ensures var k, i := RecordedCount(run.page, run.result), Find(run.page, id);
      SendCount(RunSends(run), id) == (if i < k && HasAdapter(run.result(id)) then 1 else 0) + Aborts(run, id)
  {
    hide SendsOf, SendCount, RecordedCount, Find;
    var page, k := run.page, RecordedCount(run.page, run.result);
    var sent := if k < |page| then page[..k + 1] else page;
    assert forall i :: 0 <= i < |sent| ==> sent[i] == page[i];
    SendsOnce(sent, run.result, id);
    assert page[..|page|] == page;
    PrefixFind(page, |sent|, id);
    PrefixFind(page, k, id);
  }

  // ----- What is sent and recorded -----------------------------------------------------------

  predicate SameUnlessEmpty(sent: Option<string>, stored: Option<string>) {
    if stored == Some("") then sent.None? else sent == stored
  }

  /** The message carries the delivery's own tenant, channel, text and recipient. */
  predicate AddressedAs(o: Outbound, d: Delivery) {
    && o.tenantId == d.tenantId && o.channel == d.channel && o.provider == d.provider && o.text == d.text
    && SameUnlessEmpty(o.providerAccountId, d.providerAccountId)
    && SameUnlessEmpty(o.externalConversationId, d.externalConversationId)
    && SameUnlessEmpty(o.externalUserId, d.externalUserId)
  }

  lemma {:induction false} SendsComeFrom(page: Store, result: string -> SendResult, i: nat) returns (j: nat)
    requires i < |SendsOf(page, result)|
    ensures j < |page| && SendsOf(page, result)[i].0 == page[j].0
    ensures AddressedAs(SendsOf(page, result)[i].1, page[j].1)
  {
    var n := |page| - 1;
    var before := SendsOf(page[..n], result);
    assert SendsOf(page, result) == before + SendOf(page[n], result);
    if i < |before| {
      j := SendsComeFrom(page[..n], result, i);
    } else {
      j := n;
    }
  }

  /** Every message a run sends is a stored delivery's own text to its own recipient. */
  lemma SendsAsStored(store: Store, run: Run, cutoff: int, limit: nat, i: nat)
    requires IsPage(store, run.page, cutoff, run.maxAttempts, limit) && i < |RunSends(run)|
    ensures var (id, message) := RunSends(run)[i];
      Get(store, id).Some? &&
      var d := Get(store, id).value;
      && AddressedAs(message, d)
      && d.status.Failed? && d.retryable && d.attempts < run.maxAttempts && d.updatedAt < cutoff
  {
    hide SendsOf, RecordedCount, AddressedAs, Get;
    var k := RecordedCount(run.page, run.result);
    var sent := if k < |run.page| then run.page[..k + 1] else run.page;
    var j := SendsComeFrom(sent, run.result, i);
    assert sent[j] == run.page[j];
  }

  /** What becomes of a listed row whose send is recorded: sent, still to be retried, or given up. */
  lemma SettledMeaning(entry: (string, Delivery), run: Run)
    requires run.result(entry.0).Recorded? && entry.1.status.Failed? && entry.1.retryable
    ensures var d, send := entry.1, run.result(entry.0).send;
      var (row, verdict) := SettledRow(entry, run);
      && (row.status.Sent? <==> send.SentOk? || send.Queued?) && (verdict.Resent? <==> row.status.Sent?)
      && (row.retryable <==> send == FailedSend(true) && d.attempts + 1 < run.maxAttempts)
      && (verdict.StillFailing? <==> row.retryable)
      && row.attempts == d.attempts + (if send.NoAdapter? then 0 else 1) && row.updatedAt == run.now
      && row == d.(status := row.status, retryable := row.retryable, attempts := row.attempts, updatedAt := run.now)
  {
  }

  /** How many rows of a page are sent, and how many are left to be retried, once their sends are recorded. */
  function SentRows(page: Store, run: Run): nat
    requires AllRecorded(page, run.result)
  {
    if page == [] then 0
    else
      SentRows(page[..|page| - 1], run) + if SettledRow(page[|page| - 1], run).0.status.Sent? then 1 else 0
  }

  function RetryRows(page: Store, run: Run): nat
    requires AllRecorded(page, run.result)
  {
    if page == [] then 0
    else RetryRows(page[..|page| - 1], run) + if SettledRow(page[|page| - 1], run).0.retryable then 1 else 0
  }

  /** Resent rows are sent, still failing ones are left to retry, and the rest is given up. */
  lemma {:induction false} TallyMeaning(page: Store, run: Run)
    requires AllRecorded(page, run.result)
    requires forall i :: 0 <= i < |page| ==> page[i].1.status.Failed? && page[i].1.retryable
    ensures var t := Tally(page, run);
      && t.considered == |page| && t.resent == SentRows(page, run) && t.stillFailing == RetryRows(page, run)
      && t.exhausted == |page| - SentRows(page, run) - RetryRows(page, run)
  {
    hide SettledRow;
    if page != [] {
      var n := |page| - 1;
      assert forall i :: 0 <= i < n ==> page[..n][i] == page[i];
      TallyMeaning(page[..n], run);
      SettledMeaning(page[n], run);
    }
  }

  function AttemptsOf(store: Store, id: string): nat {
    match Get(store, id) case Some(d) => d.attempts case None => 0
  }

  /** What settling does to one row: an attempt is counted exactly when there was a send. */
  lemma SettleCounts(entry: (string, Delivery), run: Run)
    requires run.result(entry.0).Recorded?
    ensures SettledRow(entry, run).0.attempts == entry.1.attempts + if HasAdapter(run.result(entry.0)) then 1 else 0
  {
  }

  /** What one run does to one row: its attempts, its budget, and how often it is sent. */
  lemma RunRow(store: Store, run: Run, cutoff: int, limit: nat, id: string)
    requires DistinctKeys(store) && IsPage(store, run.page, cutoff, run.maxAttempts, limit)
    ensures DistinctKeys(RunStore(store, run))
    ensures SendCount(RunSends(run), id) + AttemptsOf(store, id) ==
      AttemptsOf(RunStore(store, run), id) + Aborts(run, id)
    ensures LeftOf(store, id, run.maxAttempts) == 0 ==>
      Get(RunStore(store, run), id) == Get(store, id) && SendCount(RunSends(run), id) == 0 && Aborts(run, id) == 0
    ensures LeftOf(store, id, run.maxAttempts) > 0 ==> AttemptsOf(RunStore(store, run), id) <= run.maxAttempts
  {
    hide SettledRow, RunSends, Find, AfterPage;
    var page, k, i := run.page, RecordedCount(run.page, run.result), Find(run.page, id);
    PageOfStore(store, run, cutoff, limit);
    AfterPageGet(store, page[..k], run, id);
    RunSendCount(run, id);
    PrefixFind(page, k, id);
    assert i < |page| ==> Get(store, id) == Some(page[i].1) && Left(page[i].1, run.maxAttempts) > 0;
    if i < k {
      assert page[..k][i] == page[i];
      SettleCounts(page[i], run);
    }
  }

  /**
   The exact account of a row over any history: each send is an attempt recorded in the row, or the
   send of a run that threw at it.
   */
  lemma {:induction false} SendsAccounted(store: Store, runs: seq<Run>, maxAttempts: int, id: string)
    requires Listed(store, runs, maxAttempts)
    ensures DistinctKeys(History(store, runs))
    ensures SendCount(HistorySends(runs), id) + AttemptsOf(store, id) ==
      AttemptsOf(History(store, runs), id) + Aborted(runs, id)
  {
    if runs != [] {
      var before, last := runs[..|runs| - 1], runs[|runs| - 1];
      hide RunSends, RunStore, Left, AttemptsOf;
      SendsAccounted(store, before, maxAttempts, id);
      var cutoff, limit :| IsPage(History(store, before), last.page, cutoff, maxAttempts, limit);
      RunRow(History(store, before), last, cutoff, limit, id);
      SendCountConcat(HistorySends(before), RunSends(last), id);
    }
  }

  /** A row without budget is never sent or changed; one with budget never gets more attempts than the ceiling. */
  lemma {:induction false} AttemptsCapped(store: Store, runs: seq<Run>, maxAttempts: int, id: string)
    requires Listed(store, runs, maxAttempts)
    ensures LeftOf(store, id, maxAttempts) == 0 ==>
      Get(History(store, runs), id) == Get(store, id) && SendCount(HistorySends(runs), id) == 0 &&
        Aborted(runs, id) == 0
    ensures LeftOf(store, id, maxAttempts) > 0 ==> AttemptsOf(History(store, runs), id) <= maxAttempts
  {
    if runs != [] {
      var before, last := runs[..|runs| - 1], runs[|runs| - 1];
      hide RunSends, RunStore, Left, AttemptsOf, IsPage;
      AttemptsCapped(store, before, maxAttempts, id);
      SendsAccounted(store, before, maxAttempts, id);
      var mid := History(store, before);
      var cutoff, limit :| IsPage(mid, last.page, cutoff, maxAttempts, limit);
      RunRow(mid, last, cutoff, limit, id);
      SendCountConcat(HistorySends(before), RunSends(last), id);
      BudgetMeaning(store, id, maxAttempts);
      BudgetMeaning(mid, id, maxAttempts);
    }
  }

  lemma BudgetMeaning(store: Store, id: string, maxAttempts: int)
    ensures LeftOf(store, id, maxAttempts) > 0 ==> LeftOf(store, id, maxAttempts) == maxAttempts - AttemptsOf(store, id)
    ensures forall other: Store :: Get(other, id) == Get(store, id) ==>
      LeftOf(other, id, maxAttempts) == LeftOf(store, id, maxAttempts) && AttemptsOf(other, id) == AttemptsOf(store, id)
  {
  }

  /**
   Over any history a row is sent at most as often as its starting attempts leave room for, plus
   once for every run that threw at it; a row with no room left is never sent.
   */
  lemma SendBound(store: Store, runs: seq<Run>, maxAttempts: int, id: string)
    requires Listed(store, runs, maxAttempts)
    ensures SendCount(HistorySends(runs), id) <= LeftOf(store, id, maxAttempts) + Aborted(runs, id)
  {
    hide Left, AttemptsOf;
    SendsAccounted(store, runs, maxAttempts, id);
    AttemptsCapped(store, runs, maxAttempts, id);
    BudgetMeaning(store, id, maxAttempts);
  }

  /** How many runs recorded at least one delivery. */
  function BusyRuns(runs: seq<Run>): nat {
    if runs == [] then 0
    else
      var last := runs[|runs| - 1];
      BusyRuns(runs[..|runs| - 1]) + if RecordedCount(last.page, last.result) > 0 then 1 else 0
  }

  /** Only finitely many runs have work: the attempts left in the store bound them. */
  lemma {:induction false} WorkRunsOut(store: Store, runs: seq<Run>, maxAttempts: int)
    requires Listed(store, runs, maxAttempts)
    ensures DistinctKeys(History(store, runs))
    ensures BusyRuns(runs) + TotalLeft(History(store, runs), maxAttempts) <= TotalLeft(store, maxAttempts)
  {
    if runs != [] {
      var before, last := runs[..|runs| - 1], runs[|runs| - 1];
      WorkRunsOut(store, before, maxAttempts);
      var cutoff, limit :| IsPage(History(store, before), last.page, cutoff, maxAttempts, limit);
      PageOfStore(History(store, before), last, cutoff, limit);
      AfterPageTotal(History(store, before), last.page[..RecordedCount(last.page, last.result)], last);
      AfterPageGet(History(store, before), last.page[..RecordedCount(last.page, last.result)], last, "");
    }
  }

  // ----- Exactly when the budget holds -------------------------------------------------------

  /** No row that could be listed was last tried before this one. */
  ghost predicate Oldest(store: Store, id: string, maxAttempts: int) {
    && DistinctKeys(store) && LeftOf(store, id, maxAttempts) > 0
    && forall k :: 0 <= k < |store| && Left(store[k].1, maxAttempts) > 0 ==>
         Get(store, id).value.updatedAt <= store[k].1.updatedAt
  }

  /** A run that lists only this row and throws after sending it: it leaves the store as it was. */
  lemma ThrowingRun(store: Store, id: string, maxAttempts: int, result: string -> SendResult)
    returns (run: Run, cutoff: int)
    requires Oldest(store, id, maxAttempts) && result(id) == SendResult.Threw(true)
    ensures run.result == result && run.maxAttempts == maxAttempts && IsPage(store, run.page, cutoff, maxAttempts, 1)
    ensures RunStore(store, run) == store && SendCount(RunSends(run), id) == 1
  {
    var d := Get(store, id).value;
    var page := [(id, d)];
    run, cutoff := Run(0, maxAttempts, page, result), d.updatedAt + 1;
    SendCountOne((id, BuildOutbound(d)), id);
    assert Find(page, id) == 0;
    assert RecordedCount(page, result) == 0;
    assert page[..0] == [] && page[..1] == page;
    assert SendsOf(page, result) == [] + SendOf(page[0], result);
  }

  ghost predicate ListedBy(store: Store, runs: seq<Run>, maxAttempts: int, adapters: iset<string -> SendResult>) {
    Listed(store, runs, maxAttempts) && forall i :: 0 <= i < |runs| ==> runs[i].result in adapters
  }

  lemma OldestDistinct(store: Store, id: string, maxAttempts: int)
    requires Oldest(store, id, maxAttempts)
    ensures DistinctKeys(store)
  {
  }

  lemma NoRuns(store: Store, id: string, maxAttempts: int)
    requires DistinctKeys(store)
    ensures Listed(store, [], maxAttempts) && History(store, []) == store && SendCount(HistorySends([]), id) == 0
  {
  }

  /** One adapter that throws at the row takes it past any budget: n runs send it n times and record nothing. */
  lemma {:induction false} ThrowingUnbounded(
      store: Store, id: string, maxAttempts: int, result: string -> SendResult, n: nat) returns (runs: seq<Run>)
    requires Oldest(store, id, maxAttempts) && result(id) == SendResult.Threw(true)
    ensures |runs| == n && ListedBy(store, runs, maxAttempts, iset{result})
    ensures History(store, runs) == store && SendCount(HistorySends(runs), id) == n
  {
    hide RunSends, RunStore, IsPage, Oldest, Listed, History, HistorySends, SendCount;
    if n == 0 {
      runs := [];
      assert DistinctKeys(store) by { OldestDistinct(store, id, maxAttempts); }
      NoRuns(store, id, maxAttempts);
    } else {
      var before := ThrowingUnbounded(store, id, maxAttempts, result, n - 1);
      var run, cutoff := ThrowingRun(store, id, maxAttempts, result);
      runs := before + [run];
      ListedSnoc(store, before, run, cutoff, 1);
      SendCountConcat(HistorySends(before), RunSends(run), id);
    }
  }

  lemma ListedSnoc(store: Store, before: seq<Run>, run: Run, cutoff: int, limit: nat)
    requires Listed(store, before, run.maxAttempts) &&
      IsPage(History(store, before), run.page, cutoff, run.maxAttempts, limit)
    ensures Listed(store, before + [run], run.maxAttempts)
    ensures History(store, before + [run]) == RunStore(History(store, before), run)
    ensures HistorySends(before + [run]) == HistorySends(before) + RunSends(run)
  {
    hide IsPage, RunStore, RunSends;
    assert (before + [run])[..|before|] == before;
  }

  ghost predicate WithinBudget(store: Store, runs: seq<Run>, maxAttempts: int, id: string) {
    SendCount(HistorySends(runs), id) <= LeftOf(store, id, maxAttempts)
  }

  lemma {:induction false} NoAborts(runs: seq<Run>, id: string)
    requires forall i :: 0 <= i < |runs| ==> runs[i].result(id) != SendResult.Threw(true)
    ensures Aborted(runs, id) == 0
  {
    if runs != [] { NoAborts(runs[..|runs| - 1], id); }
  }

  /**
   Every history with adapters of a class keeps a row within its budget exactly when no adapter of
   the class throws at it. The row is any that the next listing may start with.
   */
  lemma WithinBudgetIff(
      store: Store, id: string, maxAttempts: int, adapters: iset<string -> SendResult>)
    requires Oldest(store, id, maxAttempts)
    ensures (forall runs :: ListedBy(store, runs, maxAttempts, adapters) ==> WithinBudget(store, runs, maxAttempts,
      id)) <==>
      forall result :: result in adapters ==> result(id) != SendResult.Threw(true)
  {
    if result :| result in adapters && result(id) == SendResult.Threw(true) {
      var runs := ThrowingUnbounded(store, id, maxAttempts, result, LeftOf(store, id, maxAttempts) + 1);
      assert ListedBy(store, runs, maxAttempts, adapters) && !WithinBudget(store, runs, maxAttempts, id);
    } else {
      forall runs | ListedBy(store, runs, maxAttempts, adapters) ensures WithinBudget(store, runs, maxAttempts, id) {
        NoAborts(runs, id);
        SendBound(store, runs, maxAttempts, id);
      }
    }
  }
}
