/**
 The consumer of OneBrain's erasure feed: a durable cursor, destructive steps that are off by
 default, and a process that may die at any call.
 */
module Tombstones {
  import opened Strings

  datatype Tombstone = Tombstone(id: string, seqNo: int, accountId: string, targetType: string)

  datatype Resolution = Matched(tenantId: string) | NoLocalTenant | Ambiguous

  datatype Feed = Feed(tombstones: seq<Tombstone>, cursor: int)

  /** What the run does outside its process, in order. */
  datatype Action =
    | Erase(tenantId: string, cause: Tombstone)
    | Ack(t: Tombstone)
    | ReportSkipped(t: Tombstone)
    | ReportDeferred(t: Tombstone)
    | SetCursor(cursor: int)

  /** The durable state: the stored cursor and everything done so far. */
  datatype Durable = Durable(cursor: int, done: seq<Action>)

  datatype Counts = Counts(erased: nat, acked: nat, skipped: nat, deferred: nat)

  datatype RunResult = RunResult(fetched: nat, counts: Counts, cursor: int)

  /**
   resolve answers the n-th look-up of a run, so an erasure may change what a later one finds;
   eraseEnabled is the destructive switch.
   */
  datatype Setting = Setting(resolve: (nat, string) -> Resolution, eraseEnabled: bool)

  /**
   Where the run dies: steps counts the actions that complete, and lost says whether the action
   after them took effect before its caller failed. None is a run that returns.
   */
  datatype Crash = Crash(steps: nat, lost: bool)

  predicate AccountLevel(t: Tombstone) { t.targetType == "account" }

  // ----- What a run does ---------------------------------------------------------------------

  /** What becomes of one tombstone, once its account has been looked up. */
  function Handle(eraseEnabled: bool, resolution: Resolution, t: Tombstone): seq<Action> {
    match resolution
    case Matched(tenantId) =>
      if !AccountLevel(t) then [ReportSkipped(t)]
      else if !eraseEnabled then [ReportDeferred(t)]
      else [Erase(tenantId, t), Ack(t)]
    case NoLocalTenant => [Ack(t)]
    case Ambiguous => [ReportSkipped(t)]
  }

  /** The look-up for tombstone i of a page. */
  function ResolutionAt(setting: Setting, ts: seq<Tombstone>, i: nat): Resolution
    requires i < |ts|
  {
    setting.resolve(i, ts[i].accountId)
  }

  function HandleAt(setting: Setting, ts: seq<Tombstone>, i: nat): seq<Action>
    requires i < |ts|
  {
    Handle(setting.eraseEnabled, ResolutionAt(setting, ts, i), ts[i])
  }

  function HandleAll(setting: Setting, ts: seq<Tombstone>): seq<Action> {
    if ts == [] then [] else HandleAll(setting, ts[..|ts| - 1]) + HandleAt(setting, ts, |ts| - 1)
  }

  function CountOne(eraseEnabled: bool, resolution: Resolution, t: Tombstone, c: Counts): Counts {
    match resolution
    case Matched(_) =>
      if !AccountLevel(t) then c.(skipped := c.skipped + 1)
      else if !eraseEnabled then c.(deferred := c.deferred + 1)
      else c.(erased := c.erased + 1, acked := c.acked + 1)
    case NoLocalTenant => c.(acked := c.acked + 1)
    case Ambiguous => c.(skipped := c.skipped + 1)
  }

  function CountAll(setting: Setting, ts: seq<Tombstone>): Counts {
    if ts == [] then Counts(0, 0, 0, 0)
    else
      var n := |ts| - 1;
      CountOne(setting.eraseEnabled, ResolutionAt(setting, ts, n), ts[n], CountAll(setting, ts[..n]))
  }

  function NextCursor(since: int, feed: Feed): int {
    if feed.cursor > since then feed.cursor else since
  }

  /** Every action of a run that is not interrupted. */
  function RunActions(setting: Setting, since: int, feed: Feed): seq<Action> {
    HandleAll(setting, feed.tombstones) +
    if NextCursor(since, feed) != since then [SetCursor(NextCursor(since, feed))] else []
  }

  function CursorAfter(cursor: int, actions: seq<Action>): int {
    if actions == [] then cursor
    else if actions[|actions| - 1].SetCursor? then actions[|actions| - 1].cursor
    else CursorAfter(cursor, actions[..|actions| - 1])
  }

  function Perform(d: Durable, actions: seq<Action>): Durable {
    Durable(CursorAfter(d.cursor, actions), d.done + actions)
  }

  /** The actions that take effect when the run may crash. */
  function Effective(actions: seq<Action>, crash: Option<Crash>): seq<Action> {
    if crash.None? || crash.value.steps >= |actions| then actions
    else actions[..crash.value.steps + if crash.value.lost then 1 else 0]
  }

  predicate Returns(actions: seq<Action>, crash: Option<Crash>) {
    crash.None? || crash.value.steps >= |actions|
  }

  function RunSpec(setting: Setting, d: Durable, feed: Feed, crash: Option<Crash>): (Outcome<RunResult>, Durable) {
    var actions := RunActions(setting, d.cursor, feed);
    (if Returns(actions, crash)
     then Returned(RunResult(|feed.tombstones|, CountAll(setting, feed.tombstones), NextCursor(d.cursor, feed)))
     else Threw,
     Perform(d, Effective(actions, crash)))
  }

  // ----- The consumer ------------------------------------------------------------------------

  class Consumer {
    var durable: Durable
    // The calls left before the process dies.
    var crash: Option<Crash>

    constructor (durable: Durable, crash: Option<Crash>)
      ensures this.durable == durable && this.crash == crash
    {
      this.durable, this.crash := durable, crash;
    }

    /** Make one call with an effect; false when the process dies in it. */
    method Do(a: Action) returns (alive: bool)
      modifies this
      ensures alive == Returns([a], old(crash))
      ensures durable == Perform(old(durable), Effective([a], old(crash)))
      ensures alive ==> crash == AfterSteps(old(crash), 1)
    {
      assert [a][..1] == [a] && [a][..0] == [];
      assert CursorAfter(durable.cursor, [a]) == if a.SetCursor? then a.cursor else durable.cursor;
      alive := crash.None? || crash.value.steps >= 1;
      if alive || crash.value.lost {
        durable := Durable(if a.SetCursor? then a.cursor else durable.cursor, durable.done + [a]);
      } else {
        assert durable.done + [] == durable.done;
      }
      if crash.Some? && alive {
        crash := Some(crash.value.(steps := crash.value.steps - 1));
      }
    }

    method HandleTombstone(eraseEnabled: bool, resolution: Resolution, t: Tombstone, counts: Counts)
      returns (alive: bool, c: Counts)
      modifies this
      ensures var actions := Handle(eraseEnabled, resolution, t);
        && alive == Returns(actions, old(crash))
        && durable == Perform(old(durable), Effective(actions, old(crash)))
        && (alive ==> crash == AfterSteps(old(crash), |actions|) && c == CountOne(eraseEnabled, resolution, t, counts))
    {
      c := counts;
      match resolution {
        case Matched(tenantId) =>
          if !AccountLevel(t) {
            alive := Do(ReportSkipped(t));
            c := c.(skipped := c.skipped + 1);
          } else if !eraseEnabled {
            alive := Do(ReportDeferred(t));
            c := c.(deferred := c.deferred + 1);
          } else {
            PerformTwo(durable, Erase(tenantId, t), Ack(t), crash);
            alive := Do(Erase(tenantId, t));
            if !alive {
              return;
            }
            alive := Do(Ack(t));
            c := c.(erased := c.erased + 1, acked := c.acked + 1);
          }
        case NoLocalTenant =>
          alive := Do(Ack(t));
          c := c.(acked := c.acked + 1);
        case Ambiguous =>
          alive := Do(ReportSkipped(t));
          c := c.(skipped := c.skipped + 1);
      }
    }

    method ConsumeTombstoneFeed(setting: Setting, feed: Feed) returns (r: Outcome<RunResult>)
      modifies this
      ensures (r, durable) == RunSpec(setting, old(durable), feed, old(crash))
    {
      hide Handle, CountOne;
      var since := durable.cursor;
      var counts := Counts(0, 0, 0, 0);
      ghost var d0, c0 := durable, crash;
      for i := 0 to |feed.tombstones|
        invariant counts == CountAll(setting, feed.tombstones[..i])
        invariant var so := HandleAll(setting, feed.tombstones[..i]);
          && Returns(so, c0) && durable == Perform(d0, so) && crash == AfterSteps(c0, |so|)
      {
        var t := feed.tombstones[i];
        ghost var so, more := HandleAll(setting, feed.tombstones[..i]), HandleAt(setting, feed.tombstones, i);
        HandleSnoc(setting, feed.tombstones, i);
        EffectiveConcat(d0, so, more, c0);
        var resolution := setting.resolve(i, t.accountId);
        var alive;
        alive, counts := HandleTombstone(setting.eraseEnabled, resolution, t, counts);
        if !alive {
          RunPrefix(setting, d0, feed, i, c0);
          return Threw;
        }
      }
      assert feed.tombstones[..|feed.tombstones|] == feed.tombstones;
      var nextCursor := NextCursor(since, feed);
      ghost var all := HandleAll(setting, feed.tombstones);
      HandledCursor(setting, feed.tombstones, d0.cursor);
      if nextCursor != since {
        EffectiveConcat(d0, all, [SetCursor(nextCursor)], c0);
        var alive := Do(SetCursor(nextCursor));
        if !alive {
          return Threw;
        }
      } else {
        assert all + [] == all;
      }
      r := Returned(RunResult(|feed.tombstones|, counts, nextCursor));
    }
  }

  function AfterSteps(crash: Option<Crash>, n: nat): Option<Crash> {
    if crash.None? then None
    else Some(Crash(if crash.value.steps >= n then crash.value.steps - n else 0, crash.value.lost))
  }

  // ----- Runs in pieces ----------------------------------------------------------------------

  lemma {:induction false} CursorConcat(cursor: int, a: seq<Action>, b: seq<Action>)
    ensures CursorAfter(cursor, a + b) == CursorAfter(CursorAfter(cursor, a), b)
  {
    if b == [] {
      assert a + b == a;
    } else {
      assert (a + b)[..|a + b| - 1] == a + b[..|b| - 1];
      CursorConcat(cursor, a, b[..|b| - 1]);
    }
  }

  lemma EffectiveConcat(d: Durable, a: seq<Action>, b: seq<Action>, crash: Option<Crash>)
    requires Returns(a, crash)
    ensures Returns(a + b, crash) <==> Returns(b, AfterSteps(crash, |a|))
    ensures Perform(d, Effective(a + b, crash)) == Perform(Perform(d, a), Effective(b, AfterSteps(crash, |a|)))
    ensures AfterSteps(AfterSteps(crash, |a|), |b|) == AfterSteps(crash, |a + b|)
  {
    var e := Effective(b, AfterSteps(crash, |a|));
    assert Effective(a + b, crash) == a + e;
    CursorConcat(d.cursor, a, e);
    assert d.done + (a + e) == d.done + a + e;
  }

  lemma PerformTwo(d: Durable, a: Action, b: Action, crash: Option<Crash>)
    ensures Returns([a], crash) ==>
      && (Returns([a, b], crash) <==> Returns([b], AfterSteps(crash, 1)))
      && Perform(d, Effective([a, b], crash)) == Perform(Perform(d, [a]), Effective([b], AfterSteps(crash, 1)))
      && AfterSteps(AfterSteps(crash, 1), 1) == AfterSteps(crash, 2)
    ensures !Returns([a], crash) ==> !Returns([a, b], crash) && Effective([a, b], crash) == Effective([a], crash)
  {
    assert [a] + [b] == [a, b];
    if Returns([a], crash) { EffectiveConcat(d, [a], [b], crash); }
    assert [a, b][..1] == [a][..1] && [a, b][..0] == [a][..0];
  }

  lemma HandleSnoc(setting: Setting, ts: seq<Tombstone>, i: nat)
    requires i < |ts|
    ensures HandleAll(setting, ts[..i + 1]) == HandleAll(setting, ts[..i]) + HandleAt(setting, ts, i)
    ensures CountAll(setting, ts[..i + 1]) ==
      CountOne(setting.eraseEnabled, ResolutionAt(setting, ts, i), ts[i], CountAll(setting, ts[..i]))
  {
    hide Handle, CountOne;
    var upTo := ts[..i + 1];
    assert upTo[..i] == ts[..i] && upTo[i] == ts[i];
  }

  /** The first tombstones of a page are handled first. */
  lemma {:induction false} HandlePrefix(setting: Setting, ts: seq<Tombstone>, k: nat)
    requires k <= |ts|
    ensures HandleAll(setting, ts[..k]) <= HandleAll(setting, ts)
    decreases |ts| - k
  {
    hide Handle;
    if k < |ts| {
      HandleSnoc(setting, ts, k);
      HandlePrefix(setting, ts, k + 1);
    } else {
      assert ts[..k] == ts;
    }
  }

  // A run that dies while handling tombstone i dies the same way as the handling of the first i + 1.
  lemma RunPrefix(setting: Setting, d: Durable, feed: Feed, i: nat, crash: Option<Crash>)
    requires i < |feed.tombstones| && !Returns(HandleAll(setting, feed.tombstones[..i + 1]), crash)
    ensures RunSpec(setting, d, feed, crash) ==
      (Threw, Perform(d, Effective(HandleAll(setting, feed.tombstones[..i + 1]), crash)))
  {
    var ts := feed.tombstones;
    HandlePrefix(setting, ts, i + 1);
    var part, all := HandleAll(setting, ts[..i + 1]), RunActions(setting, d.cursor, feed);
    assert part <= all;
    assert Effective(all, crash) == Effective(part, crash);
  }

  lemma {:induction false} NoCursorSet(actions: seq<Action>, cursor: int)
    requires forall i :: 0 <= i < |actions| ==> !actions[i].SetCursor?
    ensures CursorAfter(cursor, actions) == cursor
  {
    if actions != [] { NoCursorSet(actions[..|actions| - 1], cursor); }
  }

  lemma {:induction false} HandledSetsNoCursor(setting: Setting, ts: seq<Tombstone>)
    ensures forall i :: 0 <= i < |HandleAll(setting, ts)| ==> !HandleAll(setting, ts)[i].SetCursor?
  {
    if ts != [] {
      HandledSetsNoCursor(setting, ts[..|ts| - 1]);
      var before, last := HandleAll(setting, ts[..|ts| - 1]), HandleAt(setting, ts, |ts| - 1);
      assert HandleAll(setting, ts) == before + last;
    }
  }

  lemma HandledCursor(setting: Setting, ts: seq<Tombstone>, cursor: int)
    ensures CursorAfter(cursor, HandleAll(setting, ts)) == cursor
  {
    HandledSetsNoCursor(setting, ts);
    NoCursorSet(HandleAll(setting, ts), cursor);
  }
}
