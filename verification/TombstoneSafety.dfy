/** Whole histories of tombstone runs: any feeds, any settings, any crashes. */
module TombstoneSafety {
  import opened Strings
  import opened Tombstones

  datatype Run = Run(setting: Setting, feed: Feed, crash: Option<Crash>)

  function History(d: Durable, runs: seq<Run>): Durable {
    if runs == [] then d
    else
      var last := runs[|runs| - 1];
      RunSpec(last.setting, History(d, runs[..|runs| - 1]), last.feed, last.crash).1
  }

  /** The tombstone an action is about. */
  predicate About(a: Action, t: Tombstone) {
    match a
    case Erase(_, x) => x == t
    case Ack(x) => x == t
    case ReportSkipped(x) => x == t
    case ReportDeferred(x) => x == t
    case SetCursor(_) => false
  }

  // ----- One run -----------------------------------------------------------------------------

  function Plus(a: Counts, b: Counts): Counts {
    Counts(a.erased + b.erased, a.acked + b.acked, a.skipped + b.skipped, a.deferred + b.deferred)
  }

  function One(a: Action): Counts {
    match a
    case Erase(_, _) => Counts(1, 0, 0, 0)
    case Ack(_) => Counts(0, 1, 0, 0)
    case ReportSkipped(_) => Counts(0, 0, 1, 0)
    case ReportDeferred(_) => Counts(0, 0, 0, 1)
    case SetCursor(_) => Counts(0, 0, 0, 0)
  }

  /** How many actions of each kind. */
  function Tally(actions: seq<Action>): Counts {
    if actions == [] then Counts(0, 0, 0, 0) else Plus(Tally(actions[..|actions| - 1]), One(actions[|actions| - 1]))
  }

  lemma {:induction false} TallyConcat(a: seq<Action>, b: seq<Action>)
    ensures Tally(a + b) == Plus(Tally(a), Tally(b))
  {
    hide One;
    if b == [] {
      assert a + b == a;
    } else {
      assert (a + b)[..|a + b| - 1] == a + b[..|b| - 1];
      TallyConcat(a, b[..|b| - 1]);
    }
  }

  lemma TallyShort(a: Action)
    ensures Tally([]) == Counts(0, 0, 0, 0) && Tally([a]) == One(a)
  {
    assert [a][..0] == [];
  }

  lemma TallyErase(tenantId: string, t: Tombstone)
    ensures Tally([Erase(tenantId, t), Ack(t)]) == Counts(1, 1, 0, 0)
  {
    var both := [Erase(tenantId, t), Ack(t)];
    assert both[..1] == [Erase(tenantId, t)];
    TallyShort(both[0]);
  }

  /** The calls made for one tombstone, by kind. */
  lemma TallyHandled(eraseEnabled: bool, resolution: Resolution, t: Tombstone)
    ensures Tally(Handle(eraseEnabled, resolution, t)) ==
      match resolution
      case Matched(_) =>
        if !AccountLevel(t) then Counts(0, 0, 1, 0) else if !eraseEnabled then Counts(0, 0, 0, 1) else Counts(1, 1, 0,
          0)
      case NoLocalTenant => Counts(0, 1, 0, 0)
      case Ambiguous => Counts(0, 0, 1, 0)
  {
    hide Tally, AccountLevel;
    if resolution.Matched? { TallyErase(resolution.tenantId, t); }
    TallyShort(Ack(t));
    TallyShort(ReportSkipped(t));
    TallyShort(ReportDeferred(t));
  }

  lemma TallyOne(eraseEnabled: bool, resolution: Resolution, t: Tombstone, c: Counts)
    ensures Plus(c, Tally(Handle(eraseEnabled, resolution, t))) == CountOne(eraseEnabled, resolution, t, c)
  {
    hide Tally, AccountLevel, Handle;
    TallyHandled(eraseEnabled, resolution, t);
  }

  lemma CountsAdd(eraseEnabled: bool, resolution: Resolution, t: Tombstone, c: Counts)
    ensures var c' := CountOne(eraseEnabled, resolution, t, c);
      && c'.acked + c'.skipped + c'.deferred == c.acked + c.skipped + c.deferred + 1
      && c'.erased - c.erased <= c'.acked - c.acked
  {
  }

  /**
   The four counters report the calls made, and every fetched tombstone is in exactly one of
   acked, skipped and deferred; the erased ones are among the acked.
   */
  lemma {:induction false} Conservation(setting: Setting, ts: seq<Tombstone>)
    ensures var c := CountAll(setting, ts);
      c == Tally(HandleAll(setting, ts)) && |ts| == c.acked + c.skipped + c.deferred && c.erased <= c.acked
  {
    hide Handle, One, CountOne, Plus;
    if ts != [] {
      var n := |ts| - 1;
      var before, resolution := ts[..n], ResolutionAt(setting, ts, n);
      Conservation(setting, before);
      TallyConcat(HandleAll(setting, before), HandleAt(setting, ts, n));
      TallyOne(setting.eraseEnabled, resolution, ts[n], CountAll(setting, before));
      CountsAdd(setting.eraseEnabled, resolution, ts[n], CountAll(setting, before));
    }
  }

  lemma {:induction false} HandledBy(setting: Setting, ts: seq<Tombstone>, i: nat) returns (j: nat)
    requires i < |HandleAll(setting, ts)|
    ensures j < |ts| && HandleAll(setting, ts)[i] in HandleAt(setting, ts, j)
    ensures HandleAll(setting, ts)[i].Ack? && ResolutionAt(setting, ts, j).Matched? ==>
      i > 0 && HandleAll(setting, ts)[i - 1] == Erase(ResolutionAt(setting, ts, j).tenantId, ts[j])
  {
    var n := |ts| - 1;
    var before := HandleAll(setting, ts[..n]);
    assert HandleAll(setting, ts) == before + HandleAt(setting, ts, n);
    if i < |before| {
      j := HandledBy(setting, ts[..n], i);
      assert ts[..n][j] == ts[j];
    } else {
      j := n;
    }
  }

  lemma HandlesAt(setting: Setting, ts: seq<Tombstone>, j: nat)
    requires j < |ts|
    ensures forall a :: a in HandleAt(setting, ts, j) ==> a in HandleAll(setting, ts)
  {
    hide HandleAt;
    HandleSnoc(setting, ts, j);
    HandlePrefix(setting, ts, j + 1);
    var upTo, all := HandleAll(setting, ts[..j + 1]), HandleAll(setting, ts);
    assert forall a :: a in upTo ==> a in all;
  }

  /** What one run adds, however it ends. */
  function Added(r: Run, d: Durable): seq<Action> {
    Effective(RunActions(r.setting, d.cursor, r.feed), r.crash)
  }

  /** Every effect is one that its own run's look-up calls for; an ack of a matched tenant follows its erasure. */
  lemma AddedJustified(r: Run, d: Durable, i: nat) returns (j: nat)
    requires i < |Added(r, d)| && !Added(r, d)[i].SetCursor?
    ensures j < |r.feed.tombstones| && Added(r, d)[i] in HandleAt(r.setting, r.feed.tombstones, j)
    ensures About(Added(r, d)[i], r.feed.tombstones[j])
    ensures Added(r, d)[i].Ack? && ResolutionAt(r.setting, r.feed.tombstones, j).Matched? ==>
      i > 0 && Added(r, d)[i - 1] == Erase(ResolutionAt(r.setting, r.feed.tombstones, j).tenantId, r.feed.tombstones[j])
  {
    var all := HandleAll(r.setting, r.feed.tombstones);
    assert i < |all|;
    j := HandledBy(r.setting, r.feed.tombstones, i);
  }

  /** The cursor moves only when every tombstone of the page has been handled, and only forward. */
  lemma CursorStep(r: Run, d: Durable)
    ensures var (result, d') := RunSpec(r.setting, d, r.feed, r.crash);
      && d'.done == d.done + Added(r, d)
      && (d'.cursor == d.cursor || d'.cursor == NextCursor(d.cursor, r.feed)) && d.cursor <= d'.cursor
      && (result.Returned? ==> d'.cursor == NextCursor(d.cursor, r.feed))
      && (d'.cursor != d.cursor ==> HandleAll(r.setting, r.feed.tombstones) <= Added(r, d))
  {
    var handled, all := HandleAll(r.setting, r.feed.tombstones), RunActions(r.setting, d.cursor, r.feed);
    var added := Added(r, d);
    HandledSetsNoCursor(r.setting, r.feed.tombstones);
    if |added| <= |handled| {
      assert added == handled[..|added|];
      NoCursorSet(added, d.cursor);
    } else {
      assert added == all == handled + [SetCursor(NextCursor(d.cursor, r.feed))];
    }
    if added == handled { HandledCursor(r.setting, r.feed.tombstones, d.cursor); }
  }

  lemma TallyOfEffects(r: Run, d: Durable)
    requires RunSpec(r.setting, d, r.feed, r.crash).0.Returned?
    ensures Tally(Added(r, d)) == Tally(HandleAll(r.setting, r.feed.tombstones))
  {
    hide HandleAll, Tally;
    var all := HandleAll(r.setting, r.feed.tombstones);
    var cursor := NextCursor(d.cursor, r.feed);
    if cursor != d.cursor {
      TallyConcat(all, [SetCursor(cursor)]);
      TallyCursor(cursor);
    } else {
      assert all + [] == all;
    }
  }

  lemma TallyCursor(cursor: int)
    ensures Tally([SetCursor(cursor)]) == Counts(0, 0, 0, 0)
  {
    TallyShort(SetCursor(cursor));
  }

  /** A run that returns reports what it did: the tombstones it fetched, its calls by kind, and the cursor it left. */
  lemma ReportIsExact(r: Run, d: Durable)
    requires RunSpec(r.setting, d, r.feed, r.crash).0.Returned?
    ensures var (result, d') := RunSpec(r.setting, d, r.feed, r.crash);
      var report, calls := result.value, Tally(d'.done[|d.done|..]);
      && report.counts == calls && report.cursor == d'.cursor
      && report.fetched == |r.feed.tombstones| == calls.acked + calls.skipped + calls.deferred
  {
    hide HandleAll, Tally, Added, RunActions;
    CursorStep(r, d);
    TallyOfEffects(r, d);
    Conservation(r.setting, r.feed.tombstones);
    assert (d.done + Added(r, d))[|d.done|..] == Added(r, d);
  }

  // ----- Histories ---------------------------------------------------------------------------

  lemma {:induction false} CursorNeverDecreases(d: Durable, runs: seq<Run>)
    ensures d.cursor <= History(d, runs).cursor && d.done <= History(d, runs).done
  {
    if runs != [] {
      CursorNeverDecreases(d, runs[..|runs| - 1]);
      CursorStep(runs[|runs| - 1], History(d, runs[..|runs| - 1]));
    }
  }

  /** In any history, a tenant is erased only by a run that enables it, for an account tombstone that matches it. */
  lemma {:induction false} ErasuresJustified(d: Durable, runs: seq<Run>, i: nat) returns (r: Run, j: nat)
    requires |d.done| <= i < |History(d, runs).done| && History(d, runs).done[i].Erase?
    ensures r in runs && j < |r.feed.tombstones|
    ensures var e, t := History(d, runs).done[i], r.feed.tombstones[j];
      && e.cause == t && r.setting.eraseEnabled
      && t.targetType == "account" && r.setting.resolve(j, t.accountId) == Matched(e.tenantId)
  {
    hide RunSpec, Added, HandleAll;
    var before, last := runs[..|runs| - 1], runs[|runs| - 1];
    var h := History(d, before);
    CursorStep(last, h);
    CursorNeverDecreases(d, before);
    if i < |h.done| {
      r, j := ErasuresJustified(d, before, i);
    } else {
      r := last;
      j := AddedJustified(last, h, i - |h.done|);
    }
  }

  /**
   The feed lists every tombstone between the cursor it is asked about and the one it returns, and only newer
   ones.
   */
  ghost predicate Complete(published: set<Tombstone>, since: int, feed: Feed) {
    && (forall t :: t in published && since < t.seqNo <= feed.cursor ==> t in feed.tombstones)
    && (forall t :: t in feed.tombstones ==> t.seqNo > since)
  }

  ghost predicate CompleteFeeds(published: set<Tombstone>, d: Durable, runs: seq<Run>) {
    runs != [] ==>
      && CompleteFeeds(published, d, runs[..|runs| - 1])
      && Complete(published, History(d, runs[..|runs| - 1]).cursor, runs[|runs| - 1].feed)
  }

  predicate Disposed(done: seq<Action>, t: Tombstone) {
    Ack(t) in done || ReportSkipped(t) in done || ReportDeferred(t) in done
  }

  /** Crash or not, no published tombstone at or below the cursor is lost: it was acked or reported. */
  lemma {:induction false} NothingPassedOver(published: set<Tombstone>, d: Durable, runs: seq<Run>, t: Tombstone)
    requires CompleteFeeds(published, d, runs)
    requires t in published && d.cursor < t.seqNo <= History(d, runs).cursor
    ensures Disposed(History(d, runs).done, t)
  {
    hide RunSpec, Added, HandleAll, Handle;
    var before, last := runs[..|runs| - 1], runs[|runs| - 1];
    var h := History(d, before);
    CursorStep(last, h);
    if t.seqNo <= h.cursor {
      NothingPassedOver(published, d, before, t);
    } else {
      assert t in last.feed.tombstones;
      var j :| 0 <= j < |last.feed.tombstones| && last.feed.tombstones[j] == t;
      HandlesAt(last.setting, last.feed.tombstones, j);
      var a := Disposes(last.setting.eraseEnabled, ResolutionAt(last.setting, last.feed.tombstones, j), t);
      StillIn(a, HandleAll(last.setting, last.feed.tombstones), h.done, Added(last, h));
    }
  }

  lemma StillIn(a: Action, handled: seq<Action>, before: seq<Action>, added: seq<Action>)
    requires a in handled && handled <= added
    ensures a in before + added
  {
    var i :| 0 <= i < |handled| && handled[i] == a;
    assert (before + added)[|before| + i] == a;
  }

  lemma Disposes(eraseEnabled: bool, resolution: Resolution, t: Tombstone) returns (a: Action)
    ensures a in Handle(eraseEnabled, resolution, t) && a in [Ack(t), ReportSkipped(t), ReportDeferred(t)]
  {
    var h := Handle(eraseEnabled, resolution, t);
    a := h[|h| - 1];
  }

  /** A tombstone at or below the cursor is never touched again, whatever is enabled later. */
  lemma {:induction false} NeverRevisited(published: set<Tombstone>, d: Durable, runs: seq<Run>, t: Tombstone, i: nat)
    requires CompleteFeeds(published, d, runs) && t.seqNo <= d.cursor
    requires |d.done| <= i < |History(d, runs).done|
    ensures !About(History(d, runs).done[i], t)
  {
    hide RunSpec, Added, HandleAll;
    var before, last := runs[..|runs| - 1], runs[|runs| - 1];
    var h := History(d, before);
    CursorStep(last, h);
    CursorNeverDecreases(d, before);
    if i < |h.done| {
      NeverRevisited(published, d, before, t, i);
    } else if !History(d, runs).done[i].SetCursor? {
      var j := AddedJustified(last, h, i - |h.done|);
      assert last.feed.tombstones[j].seqNo > h.cursor;
    }
  }

  /**
   A run that returns with erasing disabled defers every matched account tombstone of its page, and
   no later history with complete feeds erases or acks it, even with erasing enabled throughout.
   */
  lemma DeferredIsFinal(published: set<Tombstone>, d: Durable, first: Run, later: seq<Run>, j: nat)
    requires j < |first.feed.tombstones| && first.feed.tombstones[j].seqNo <= first.feed.cursor
    requires first.setting.resolve(j, first.feed.tombstones[j].accountId).Matched? && !first.setting.eraseEnabled
    requires first.feed.tombstones[j].targetType == "account"
    requires RunSpec(first.setting, d, first.feed, first.crash).0.Returned?
    requires CompleteFeeds(published, RunSpec(first.setting, d, first.feed, first.crash).1, later)
    ensures var t, d1 := first.feed.tombstones[j], RunSpec(first.setting, d, first.feed, first.crash).1;
      && ReportDeferred(t) in d1.done
      && forall i :: |d1.done| <= i < |History(d1, later).done| ==> !About(History(d1, later).done[i], t)
  {
    var t, d1 := first.feed.tombstones[j], RunSpec(first.setting, d, first.feed, first.crash).1;
    CursorStep(first, d);
    HandlesAt(first.setting, first.feed.tombstones, j);
    assert ReportDeferred(t) in HandleAt(first.setting, first.feed.tombstones, j);
    assert ReportDeferred(t) in RunActions(first.setting, d.cursor, first.feed);
    forall i | |d1.done| <= i < |History(d1, later).done| ensures !About(History(d1, later).done[i], t) {
      NeverRevisited(published, d1, later, t, i);
    }
  }

  // ----- When a required erasure is carried out ----------------------------------------------

  /** No erasure for this tombstone took effect. */
  predicate NotErased(done: seq<Action>, t: Tombstone) {
    forall i :: 0 <= i < |done| ==> !(done[i].Erase? && done[i].cause == t)
  }

  /** The run may erase, the tombstone asks for it, and a look-up made for it finds this tenant. */
  predicate CallsForErasure(r: Run, t: Tombstone, tenantId: string) {
    && r.setting.eraseEnabled && t.targetType == "account"
    && exists j :: 0 <= j < |r.feed.tombstones| && r.feed.tombstones[j] == t &&
         r.setting.resolve(j, t.accountId) == Matched(tenantId)
  }

  lemma AddedErasure(r: Run, d: Durable, e: Action)
    requires e.Erase? && e in Added(r, d)
    ensures CallsForErasure(r, e.cause, e.tenantId)
  {
    hide Added;
    var i :| 0 <= i < |Added(r, d)| && Added(r, d)[i] == e;
    var j := AddedJustified(r, d, i);
  }

  lemma ErasureAdded(r: Run, d: Durable, t: Tombstone, tenantId: string)
    requires CallsForErasure(r, t, tenantId) && HandleAll(r.setting, r.feed.tombstones) <= Added(r, d)
    ensures Erase(tenantId, t) in d.done + Added(r, d)
  {
    hide Added, HandleAll;
    var j :| 0 <= j < |r.feed.tombstones| && r.feed.tombstones[j] == t &&
      r.setting.resolve(j, t.accountId) == Matched(tenantId);
    HandlesAt(r.setting, r.feed.tombstones, j);
    assert Erase(tenantId, t) in HandleAt(r.setting, r.feed.tombstones, j);
    StillIn(Erase(tenantId, t), HandleAll(r.setting, r.feed.tombstones), d.done, Added(r, d));
  }

  /**
   A published tombstone is decided by the run that moves the cursor past it: whatever runs follow, a tenant is
   erased for it exactly when that run may erase, the tombstone asks for it, and the run's look-up finds that tenant.
   */
  lemma {:induction false} ErasureCarriedOutIff(
      published: set<Tombstone>, d: Durable, r: Run, later: seq<Run>, t: Tombstone, tenantId: string)
    requires t in published && Complete(published, d.cursor, r.feed) && NotErased(d.done, t)
    requires d.cursor < t.seqNo <= RunSpec(r.setting, d, r.feed, r.crash).1.cursor
    requires CompleteFeeds(published, RunSpec(r.setting, d, r.feed, r.crash).1, later)
    ensures var d1 := RunSpec(r.setting, d, r.feed, r.crash).1;
      Erase(tenantId, t) in History(d1, later).done <==> CallsForErasure(r, t, tenantId)
  {
    hide RunSpec, Added, HandleAll, CallsForErasure, CompleteFeeds, History;
    var d1, e := RunSpec(r.setting, d, r.feed, r.crash).1, Erase(tenantId, t);
    var last := History(d1, later).done;
    CursorStep(r, d);
    CursorNeverDecreases(d1, later);
    if CallsForErasure(r, t, tenantId) {
      ErasureAdded(r, d, t, tenantId);
      assert last[..|d1.done|] == d1.done;
    }
    if e in last {
      var i :| 0 <= i < |last| && last[i] == e;
      if i >= |d1.done| { NeverRevisited(published, d1, later, t, i); }
      assert last[i] == d1.done[i];
      assert i >= |d.done| && Added(r, d)[i - |d.done|] == e;
      AddedErasure(r, d, e);
    }
  }

  /** A run that dies before its cursor is stored leaves it where it was: the next page lists the same tombstones. */
  lemma CrashRepresents(published: set<Tombstone>, d: Durable, r: Run, next: Feed, t: Tombstone)
    requires Complete(published, d.cursor, r.feed) && t in r.feed.tombstones && t in published
    requires r.crash.Some?
    requires r.crash.value.steps + (if r.crash.value.lost then 1 else 0) <= |HandleAll(r.setting, r.feed.tombstones)|
    requires Complete(published, RunSpec(r.setting, d, r.feed, r.crash).1.cursor, next) && t.seqNo <= next.cursor
    ensures RunSpec(r.setting, d, r.feed, r.crash).1.cursor == d.cursor
    ensures t in next.tombstones
  {
    var handled, added := HandleAll(r.setting, r.feed.tombstones), Added(r, d);
    assert |added| <= |handled|;
    assert added == handled[..|added|];
    HandledSetsNoCursor(r.setting, r.feed.tombstones);
    NoCursorSet(added, d.cursor);
  }

  // ----- An erasure that keeps failing -------------------------------------------------------

  /** The run looks the tombstone's account up as an erasable tenant wherever its page lists it. */
  ghost predicate Erasable(r: Run, t: Tombstone) {
    && r.setting.eraseEnabled && t.targetType == "account"
    && forall j :: 0 <= j < |r.feed.tombstones| && r.feed.tombstones[j] == t ==>
         r.setting.resolve(j, t.accountId).Matched?
  }

  lemma ErasureFirst(r: Run, j: nat)
    requires j < |r.feed.tombstones| && Erasable(r, r.feed.tombstones[j])
    ensures var h := HandleAt(r.setting, r.feed.tombstones, j);
      h != [] && h[0].Erase? && h[0].cause == r.feed.tombstones[j]
  {
  }

  /**
   A run whose erasure of tombstone j fails, as for a tenant on legal hold, handles only what the page lists
   before it.
   */
  lemma NothingAfterFailedErasure(r: Run, d: Durable, j: nat)
    requires j < |r.feed.tombstones| && Erasable(r, r.feed.tombstones[j]) &&
      NotErased(Added(r, d), r.feed.tombstones[j])
    ensures Added(r, d) <= HandleAll(r.setting, r.feed.tombstones[..j])
    ensures RunSpec(r.setting, d, r.feed, r.crash).0.Threw? &&
      RunSpec(r.setting, d, r.feed, r.crash).1.cursor == d.cursor
  {
    hide HandleAll, HandleAt, Erasable;
    var ts := r.feed.tombstones;
    ErasureFirst(r, j);
    var before, all, added := HandleAll(r.setting, ts[..j]), RunActions(r.setting, d.cursor, r.feed), Added(r, d);
    HandleSnoc(r.setting, ts, j);
    HandlePrefix(r.setting, ts, j + 1);
    var upTo := HandleAll(r.setting, ts[..j + 1]);
    assert upTo <= HandleAll(r.setting, ts) <= all && before <= upTo;
    assert all[|before|] == upTo[|before|] == HandleAt(r.setting, ts, j)[0];
    assert added == all[..|added|];
    assert |added| <= |before|;
    HandledSetsNoCursor(r.setting, ts[..j]);
    NoCursorSet(added, d.cursor);
  }

  lemma NotErasedConcat(a: seq<Action>, b: seq<Action>, t: Tombstone)
    requires NotErased(a + b, t)
    ensures NotErased(a, t) && NotErased(b, t)
  {
    assert forall i :: 0 <= i < |a| ==> (a + b)[i] == a[i];
    assert forall i :: 0 <= i < |b| ==> (a + b)[|a| + i] == b[i];
  }

  /** So while the erasure keeps failing, no history moves the cursor to the tombstone. */
  lemma {:induction false} FailedErasureBlocksCursor(
      published: set<Tombstone>, d: Durable, runs: seq<Run>, t: Tombstone)
    requires CompleteFeeds(published, d, runs) && t in published && d.cursor < t.seqNo
    requires forall i :: 0 <= i < |runs| ==> Erasable(runs[i], t)
    requires NotErased(History(d, runs).done, t)
    ensures History(d, runs).cursor < t.seqNo
  {
    if runs != [] {
      hide RunSpec, Added, Erasable, NotErased;
      var before, last := runs[..|runs| - 1], runs[|runs| - 1];
      var h := History(d, before);
      CursorStep(last, h);
      NotErasedConcat(h.done, Added(last, h), t);
      FailedErasureBlocksCursor(published, d, before, t);
      if t in last.feed.tombstones {
        var j :| 0 <= j < |last.feed.tombstones| && last.feed.tombstones[j] == t;
        NothingAfterFailedErasure(last, h, j);
      }
    }
  }
}
