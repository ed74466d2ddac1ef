/**
 The OneBrain delete outbox: rows stay pending until the remote erasure is confirmed or their
 attempt budget is spent, and no failure pattern keeps the queue from emptying.
 */
module DeleteOutbox {
  import opened Strings

  datatype RowStatus = Pending | Done | Failed

  datatype Row = Row(id: string, attempts: nat, status: RowStatus)

  /** What deleting one row's record does; MarkDoneThrew: the erasure succeeded but marking the row did not. */
  datatype DeleteOutcome = Deleted(n: nat) | DeleteThrew | MarkDoneThrew(n: nat)

  datatype DrainResult = DrainResult(processed: nat, deleted: nat, failed: nat)

  /** One run's outcomes by row id; abortAfter is the number of rows recorded before the store itself fails. */
  datatype Run = Run(outcome: string -> DeleteOutcome, abortAfter: Option<nat>)

  /** The repository's clamp on the page size. */
  function PageSize(limit: int): (r: nat)
    ensures 1 <= r <= 500
  {
    var l := if limit == 0 then 100 else limit;
    if l < 1 then 1 else if l > 500 then 500 else l
  }

  ghost predicate DistinctIds(rows: seq<Row>) {
    forall i, j :: 0 <= i < j < |rows| ==> rows[i].id != rows[j].id
  }

  function PendingRows(rows: seq<Row>): seq<Row> {
    if rows == [] then []
    else (if rows[0].status.Pending? then [rows[0]] else []) + PendingRows(rows[1..])
  }

  function ListPending(rows: seq<Row>, limit: int): seq<Row> {
    var pending := PendingRows(rows);
    if |pending| <= PageSize(limit) then pending else pending[..PageSize(limit)]
  }

  /** The row with this id, if any, replaced. */
  function Update(rows: seq<Row>, id: string, row: Row): seq<Row> {
    if rows == [] then []
    else (if rows[0].id == id then [row] else [rows[0]]) + Update(rows[1..], id, row)
  }

  function Attempt(row: Row, maxAttempts: int, outcome: DeleteOutcome): Row {
    if outcome.Deleted? then row.(status := Done)
    else row.(attempts := row.attempts + 1, status := if row.attempts + 1 >= maxAttempts then Failed else Pending)
  }

  /** The first quota pending rows are attempted, in order; the others are left as they are. */
  function Drain(rows: seq<Row>, quota: nat, maxAttempts: int, outcome: string -> DeleteOutcome): (r: seq<Row>)
    ensures |r| == |rows| && forall i :: 0 <= i < |rows| ==> r[i].id == rows[i].id
  {
    if rows == [] then []
    else if rows[0].status.Pending? && quota > 0 then
      [Attempt(rows[0], maxAttempts, outcome(rows[0].id))] + Drain(rows[1..], quota - 1, maxAttempts, outcome)
    else [rows[0]] + Drain(rows[1..], quota, maxAttempts, outcome)
  }

  /** How many rows of a run are recorded. */
  function Quota(run: Run, limit: int): nat {
    if run.abortAfter.Some? && run.abortAfter.value < PageSize(limit) then run.abortAfter.value else PageSize(limit)
  }

  function DeletedBy(outcome: DeleteOutcome): nat {
    if outcome.Deleted? then outcome.n else 0
  }

  function DeletedCount(page: seq<Row>, outcome: string -> DeleteOutcome): nat {
    if page == [] then 0
    else DeletedCount(page[..|page| - 1], outcome) + DeletedBy(outcome(page[|page| - 1].id))
  }

  function FailedCount(page: seq<Row>, outcome: string -> DeleteOutcome): nat {
    if page == [] then 0
    else FailedCount(page[..|page| - 1], outcome) + if outcome(page[|page| - 1].id).Deleted? then 0 else 1
  }

  // ----- The drain ---------------------------------------------------------------------------

  class Outbox {
    var rows: seq<Row>

    constructor (rows: seq<Row>)
      ensures this.rows == rows
    {
      this.rows := rows;
    }

    method MarkDone(row: Row)
      modifies this
      ensures rows == Update(old(rows), row.id, row.(status := Done))
    {
      rows := Update(rows, row.id, row.(status := Done));
    }

    method MarkFailed(row: Row, exhausted: bool)
      modifies this
      ensures var status := if exhausted then Failed else Pending;
        rows == Update(old(rows), row.id, row.(attempts := row.attempts + 1, status := status))
    {
      rows := Update(rows, row.id, row.(attempts := row.attempts + 1, status := if exhausted then Failed else Pending));
    }

    /** One turn of the loop: what the try and the catch do with a row. */
    method DrainOne(row: Row, maxAttempts: int, outcome: DeleteOutcome) returns (deleted: nat, failed: nat)
      modifies this
      ensures rows == Update(old(rows), row.id, Attempt(row, maxAttempts, outcome))
      ensures deleted == DeletedBy(outcome) && failed == (if outcome.Deleted? then 0 else 1)
    {
      match outcome {
        case Deleted(n) =>
          MarkDone(row);
          return n, 0;
        case _ =>
          MarkFailed(row, row.attempts + 1 >= maxAttempts);
          return 0, 1;
      }
    }

    /** The loop over the listed page; false when the store fails and the run throws. */
    method DrainPage(page: seq<Row>, run: Run, maxAttempts: int) returns (alive: bool, deleted: nat, failed: nat)
      requires DistinctIds(rows) && page <= PendingRows(rows)
      modifies this
      ensures !alive <==> run.abortAfter.Some? && run.abortAfter.value < |page|
      ensures rows == Drain(old(rows), if alive then |page| else run.abortAfter.value, maxAttempts, run.outcome)
      ensures alive ==> deleted == DeletedCount(page, run.outcome) && failed == FailedCount(page, run.outcome)
    {
      hide Drain, Update, PendingRows, Attempt;
      deleted, failed := 0, 0;
      DrainNone(rows, maxAttempts, run.outcome);
      for i := 0 to |page|
        invariant rows == Drain(old(rows), i, maxAttempts, run.outcome)
        invariant run.abortAfter.Some? ==> i <= run.abortAfter.value
        invariant deleted == DeletedCount(page[..i], run.outcome) && failed == FailedCount(page[..i], run.outcome)
      {
        if run.abortAfter == Some(i) {
          return false, deleted, failed;
        }
        DrainOneMore(old(rows), i, maxAttempts, run.outcome);
        assert page[..i + 1][..i] == page[..i];
        var d, f := DrainOne(page[i], maxAttempts, run.outcome(page[i].id));
        deleted, failed := deleted + d, failed + f;
      }
      assert page[..|page|] == page;
      alive := true;
    }

    /** None for run: the provider cannot delete. */
    method ProcessOneBrainDeleteOutbox(run: Option<Run>, limit: int, maxAttempts: int)
      returns (r: Outcome<DrainResult>)
      requires DistinctIds(rows)
      modifies this
      ensures run.None? ==> rows == old(rows) && r == Returned(DrainResult(0, 0, 0))
      ensures run.Some? ==>
        var page := ListPending(old(rows), limit);
        && rows == Drain(old(rows), Quota(run.value, limit), maxAttempts, run.value.outcome)
        && (r.Threw? <==> run.value.abortAfter.Some? && run.value.abortAfter.value < |page|)
        && (r.Returned? ==> r.value == DrainResult(|page|, DeletedCount(page, run.value.outcome),
                                                   FailedCount(page, run.value.outcome)))
    {
      hide Drain, PendingRows, PageSize, DeletedCount, FailedCount;
      if run.None? {
        return Returned(DrainResult(0, 0, 0));
      }
      var page := ListPending(rows, limit);
      if |page| <= Quota(run.value, limit) {
        DrainBeyond(rows, |page|, Quota(run.value, limit), maxAttempts, run.value.outcome);
      }
      var alive, deleted, failed := DrainPage(page, run.value, maxAttempts);
      r := if alive then Returned(DrainResult(|page|, deleted, failed)) else Threw;
    }
  }

  lemma {:induction false} DrainNone(rows: seq<Row>, maxAttempts: int, outcome: string -> DeleteOutcome)
    ensures Drain(rows, 0, maxAttempts, outcome) == rows
  {
    if rows != [] { DrainNone(rows[1..], maxAttempts, outcome); }
  }

  lemma {:induction false} UpdateOthers(rows: seq<Row>, id: string, row: Row)
    requires forall i :: 0 <= i < |rows| ==> rows[i].id != id
    ensures Update(rows, id, row) == rows
  {
    if rows != [] { UpdateOthers(rows[1..], id, row); }
  }

  lemma {:induction false} PendingHasId(rows: seq<Row>, i: nat)
    requires i < |PendingRows(rows)|
    ensures exists k :: 0 <= k < |rows| && rows[k] == PendingRows(rows)[i]
  {
    if rows[0].status.Pending? && i == 0 {
      assert rows[0] == PendingRows(rows)[i];
    } else {
      var i' := if rows[0].status.Pending? then i - 1 else i;
      PendingHasId(rows[1..], i');
      var k :| 0 <= k < |rows[1..]| && rows[1..][k] == PendingRows(rows[1..])[i'];
      assert rows[k + 1] == PendingRows(rows)[i];
    }
  }

  lemma {:induction false} DrainOneMore(rows: seq<Row>, i: nat, maxAttempts: int, outcome: string -> DeleteOutcome)
    requires DistinctIds(rows) && i < |PendingRows(rows)|
    ensures var row := PendingRows(rows)[i];
      Drain(rows, i + 1, maxAttempts, outcome) ==
        Update(Drain(rows, i, maxAttempts, outcome), row.id, Attempt(row, maxAttempts, outcome(row.id)))
  {
    var row, rest := PendingRows(rows)[i], rows[1..];
    if rows[0].status.Pending? && i == 0 {
      DrainNone(rest, maxAttempts, outcome);
      DrainNone(rows, maxAttempts, outcome);
      UpdateOthers(rest, row.id, Attempt(row, maxAttempts, outcome(row.id)));
    } else {
      var i' := if rows[0].status.Pending? then i - 1 else i;
      DrainOneMore(rest, i', maxAttempts, outcome);
      PendingHasId(rest, i');
      assert row == PendingRows(rest)[i'];
      assert rows[0].id != row.id;
    }
  }

  lemma PendingCount(rows: seq<Row>)
    ensures |PendingRows(rows)| ==
      if rows == [] then 0 else (if rows[0].status.Pending? then 1 else 0) + |PendingRows(rows[1..])|
  {
  }

  lemma DrainFirst(rows: seq<Row>, quota: nat, maxAttempts: int, outcome: string -> DeleteOutcome)
    requires rows != []
    ensures Drain(rows, quota, maxAttempts, outcome) ==
      if rows[0].status.Pending? && quota > 0
      then [Attempt(rows[0], maxAttempts, outcome(rows[0].id))] + Drain(rows[1..], quota - 1, maxAttempts, outcome)
      else [rows[0]] + Drain(rows[1..], quota, maxAttempts, outcome)
  {
  }

  lemma {:induction false} DrainBeyond(
      rows: seq<Row>, a: nat, b: nat, maxAttempts: int, outcome: string -> DeleteOutcome)
    requires a == b || (a == |PendingRows(rows)| && a <= b)
    ensures Drain(rows, a, maxAttempts, outcome) == Drain(rows, b, maxAttempts, outcome)
  {
    hide Attempt, PendingRows, Drain;
    PendingCount(rows);
    if a != b && rows == [] {
      assert Drain(rows, a, maxAttempts, outcome) == [] == Drain(rows, b, maxAttempts, outcome);
    } else if a != b {
      DrainFirst(rows, a, maxAttempts, outcome);
      DrainFirst(rows, b, maxAttempts, outcome);
      var used := if rows[0].status.Pending? then 1 else 0;
      DrainBeyond(rows[1..], a - used, b - used, maxAttempts, outcome);
    }
  }

  // ----- Progress ----------------------------------------------------------------------------

  /** The attempts a row may still use up: at least one while it is pending. */
  function Budget(row: Row, maxAttempts: int): nat {
    if !row.status.Pending? then 0
    else if maxAttempts - row.attempts >= 1 then maxAttempts - row.attempts else 1
  }

  function TotalBudget(rows: seq<Row>, maxAttempts: int): nat {
    if rows == [] then 0 else Budget(rows[0], maxAttempts) + TotalBudget(rows[1..], maxAttempts)
  }

  function LargestBudget(rows: seq<Row>, maxAttempts: int): nat {
    if rows == [] then 0
    else
      var rest := LargestBudget(rows[1..], maxAttempts);
      if Budget(rows[0], maxAttempts) > rest then Budget(rows[0], maxAttempts) else rest
  }

  lemma BudgetDrops(row: Row, maxAttempts: int, outcome: DeleteOutcome)
    ensures row.status.Pending? <==> Budget(row, maxAttempts) > 0
    ensures row.status.Pending? ==> Budget(Attempt(row, maxAttempts, outcome), maxAttempts) < Budget(row, maxAttempts)
  {
  }

  /** Each run lowers the total budget by at least the rows it records. */
  lemma {:induction false} RunLowersBudget(
      rows: seq<Row>, quota: nat, maxAttempts: int, outcome: string -> DeleteOutcome)
    ensures var rows', n := Drain(rows, quota, maxAttempts, outcome), |PendingRows(rows)|;
      && TotalBudget(rows', maxAttempts) + (if quota <= n then quota else n) <= TotalBudget(rows, maxAttempts)
      && LargestBudget(rows', maxAttempts) <= LargestBudget(rows, maxAttempts)
      && (n <= quota && n > 0 ==> LargestBudget(rows', maxAttempts) < LargestBudget(rows, maxAttempts))
      && (n == 0 ==> LargestBudget(rows, maxAttempts) == 0)
  {
    if rows != [] {
      hide Attempt, Budget, Drain, PendingRows;
      PendingCount(rows);
      DrainFirst(rows, quota, maxAttempts, outcome);
      BudgetDrops(rows[0], maxAttempts, outcome(rows[0].id));
      var q := if rows[0].status.Pending? && quota > 0 then quota - 1 else quota;
      RunLowersBudget(rows[1..], q, maxAttempts, outcome);
    }
  }

  /** The rows after a sequence of runs with no inserts between them. */
  function History(rows: seq<Row>, runs: seq<Run>, limit: int, maxAttempts: int): seq<Row>
    decreases |runs|
  {
    if runs == [] then rows
    else History(Drain(rows, Quota(runs[0], limit), maxAttempts, runs[0].outcome), runs[1..], limit, maxAttempts)
  }

  lemma {:induction false} NoPendingLeft(rows: seq<Row>, quota: nat, maxAttempts: int, outcome: string -> DeleteOutcome)
    requires PendingRows(rows) == []
    ensures Drain(rows, quota, maxAttempts, outcome) == rows
  {
    if rows != [] { NoPendingLeft(rows[1..], quota, maxAttempts, outcome); }
  }

  lemma TimesMonotone(d: nat, x: nat, y: nat)
    requires x <= y
    ensures d * x <= d * y
  {
    assert d * y == d * x + d * (y - x);
  }

  function FullPages(n: nat, page: nat): nat
    requires page >= 1
  { n / page }

  lemma DivideStep(a: nat, b: nat, d: nat)
    requires d >= 1 && a + d <= b
    ensures FullPages(a, d) + 1 <= FullPages(b, d)
  {
    if b / d <= a / d {
      TimesMonotone(d, b / d, a / d);
      assert false;
    }
  }

  lemma DivideMonotone(a: nat, b: nat, d: nat)
    requires d >= 1 && a <= b
    ensures FullPages(a, d) <= FullPages(b, d)
  {
    if a / d > b / d {
      TimesMonotone(d, b / d + 1, a / d);
      assert false;
    }
  }

  /** Enough runs empty the queue, for every failure pattern. */
  lemma QueueEmpties(rows: seq<Row>, runs: seq<Run>, limit: int, maxAttempts: int)
    requires forall i :: 0 <= i < |runs| ==> runs[i].abortAfter.None?
    requires |runs| >= TotalBudget(rows, maxAttempts) / PageSize(limit) + LargestBudget(rows, maxAttempts)
    ensures PendingRows(History(rows, runs, limit, maxAttempts)) == []
  {
    RunsEmpty(rows, runs, limit, maxAttempts);
  }

  lemma {:induction false} RunsEmpty(rows: seq<Row>, runs: seq<Run>, limit: int, maxAttempts: int)
    requires forall i :: 0 <= i < |runs| ==> runs[i].abortAfter.None?
    requires |runs| >= FullPages(TotalBudget(rows, maxAttempts), PageSize(limit)) + LargestBudget(rows, maxAttempts)
    ensures PendingRows(History(rows, runs, limit, maxAttempts)) == []
    decreases |runs|
  {
    hide Drain, PendingRows, TotalBudget, LargestBudget, PageSize, FullPages;
    var page, pending := PageSize(limit), PendingRows(rows);
    if pending == [] {
      SettledStays(rows, runs, limit, maxAttempts);
    } else {
      SomeBudget(rows, maxAttempts);
      var rows' := Drain(rows, page, maxAttempts, runs[0].outcome);
      RunLowersBudget(rows, page, maxAttempts, runs[0].outcome);
      if |pending| >= page {
        DivideStep(TotalBudget(rows', maxAttempts), TotalBudget(rows, maxAttempts), page);
      } else {
        DivideMonotone(TotalBudget(rows', maxAttempts), TotalBudget(rows, maxAttempts), page);
      }
      RunsEmpty(rows', runs[1..], limit, maxAttempts);
    }
  }

  lemma {:induction false} SettledStays(rows: seq<Row>, runs: seq<Run>, limit: int, maxAttempts: int)
    requires PendingRows(rows) == []
    ensures History(rows, runs, limit, maxAttempts) == rows
    decreases |runs|
  {
    if runs != [] {
      NoPendingLeft(rows, Quota(runs[0], limit), maxAttempts, runs[0].outcome);
      SettledStays(rows, runs[1..], limit, maxAttempts);
    }
  }

  lemma {:induction false} SomeBudget(rows: seq<Row>, maxAttempts: int)
    requires PendingRows(rows) != []
    ensures LargestBudget(rows, maxAttempts) >= 1
  {
    if !rows[0].status.Pending? { SomeBudget(rows[1..], maxAttempts); }
  }

  lemma {:induction false} BudgetBounds(rows: seq<Row>, maxAttempts: int)
    requires maxAttempts >= 1
    ensures LargestBudget(rows, maxAttempts) <= maxAttempts
    ensures TotalBudget(rows, maxAttempts) <= |PendingRows(rows)| * maxAttempts
  {
    if rows != [] {
      BudgetBounds(rows[1..], maxAttempts);
      var n := |PendingRows(rows[1..])|;
      assert (n + 1) * maxAttempts == n * maxAttempts + maxAttempts;
    }
  }

  /**
   From n pending rows and with no inserts, floor(n * maxAttempts / limit) + maxAttempts runs leave
   every row done or exhausted, whatever deletions fail.
   */
  lemma ProgressBound(rows: seq<Row>, runs: seq<Run>, limit: int, maxAttempts: int)
    requires maxAttempts >= 1 && forall i :: 0 <= i < |runs| ==> runs[i].abortAfter.None?
    requires |runs| >= |PendingRows(rows)| * maxAttempts / PageSize(limit) + maxAttempts
    ensures PendingRows(History(rows, runs, limit, maxAttempts)) == []
  {
    BudgetBounds(rows, maxAttempts);
    DivideMonotone(TotalBudget(rows, maxAttempts), |PendingRows(rows)| * maxAttempts, PageSize(limit));
    QueueEmpties(rows, runs, limit, maxAttempts);
  }

  // ----- What a run reports ------------------------------------------------------------------

  /** The page is the first pending rows: a hundred by default, never more than five hundred and never none. */
  lemma PageMeaning(rows: seq<Row>, limit: int)
    ensures var page, pending := ListPending(rows, limit), PendingRows(rows);
      && page <= pending
      && (1 <= limit <= 500 ==> |page| == Min(limit, |pending|))
      && (limit == 0 ==> |page| == Min(100, |pending|))
      && (limit > 500 ==> |page| == Min(500, |pending|))
      && (limit < 0 ==> |page| == Min(1, |pending|))
  {
    hide PendingRows;
  }

  function DoneCount(rows: seq<Row>): nat {
    if rows == [] then 0 else (if rows[0].status.Done? then 1 else 0) + DoneCount(rows[1..])
  }

  function AttemptsMade(rows: seq<Row>): nat {
    if rows == [] then 0 else rows[0].attempts + AttemptsMade(rows[1..])
  }

  lemma TotalsCons(row: Row, rows: seq<Row>)
    ensures DoneCount([row] + rows) == (if row.status.Done? then 1 else 0) + DoneCount(rows)
    ensures AttemptsMade([row] + rows) == row.attempts + AttemptsMade(rows)
  {
    assert ([row] + rows)[1..] == rows;
  }

  lemma AttemptCounts(row: Row, maxAttempts: int, outcome: DeleteOutcome)
    ensures var row' := Attempt(row, maxAttempts, outcome);
      && (row'.status.Done? <==> outcome.Deleted?)
      && row'.attempts == row.attempts + if outcome.Deleted? then 0 else 1
  {
  }

  /** A row adds the records its deletion removed, if it was confirmed, and otherwise one failure. */
  lemma {:induction false} CountsFirst(row: Row, page: seq<Row>, outcome: string -> DeleteOutcome)
    ensures FailedCount([row] + page, outcome) ==
      (if outcome(row.id).Deleted? then 0 else 1) + FailedCount(page, outcome)
    ensures DeletedCount([row] + page, outcome) ==
      (match outcome(row.id) case Deleted(n) => n case _ => 0) + DeletedCount(page, outcome)
    ensures FailedCount([], outcome) == 0 && DeletedCount([], outcome) == 0
  {
    var all := [row] + page;
    if page == [] {
      assert all[..0] == [] && all == [row];
    } else {
      assert all[..|all| - 1] == [row] + page[..|page| - 1];
      CountsFirst(row, page[..|page| - 1], outcome);
    }
  }

  /**
   A run's failed count is the attempts it records, and what else it processed became done. The deleted count adds up
   the records that the confirmed deletions removed.
   */
  lemma {:induction false} CountsAreEffects(
      rows: seq<Row>, quota: nat, maxAttempts: int, outcome: string -> DeleteOutcome)
    requires quota <= |PendingRows(rows)|
    ensures var page, rows' := PendingRows(rows)[..quota], Drain(rows, quota, maxAttempts, outcome);
      && AttemptsMade(rows') == AttemptsMade(rows) + FailedCount(page, outcome)
      && DoneCount(rows') + FailedCount(page, outcome) == DoneCount(rows) + quota
  {
    hide PendingRows, Drain, FailedCount, Attempt, AttemptsMade, DoneCount;
    PendingCount(rows);
    if rows == [] {
      assert PendingRows(rows)[..quota] == [] by { assert |PendingRows(rows)| == 0; }
      NothingCounted(maxAttempts, outcome);
    } else {
      DrainFirst(rows, quota, maxAttempts, outcome);
      PendingFirst(rows);
      assert [rows[0]] + rows[1..] == rows;
      TotalsCons(rows[0], rows[1..]);
      if rows[0].status.Pending? && quota > 0 {
        AttemptCounts(rows[0], maxAttempts, outcome(rows[0].id));
        TotalsCons(Attempt(rows[0], maxAttempts, outcome(rows[0].id)),
                   Drain(rows[1..], quota - 1, maxAttempts, outcome));
        CountsAreEffects(rows[1..], quota - 1, maxAttempts, outcome);
        assert PendingRows(rows)[..quota] == [rows[0]] + PendingRows(rows[1..])[..quota - 1];
        CountsFirst(rows[0], PendingRows(rows[1..])[..quota - 1], outcome);
      } else {
        DrainStops(rows, quota, maxAttempts, outcome);
        if quota == 0 {
          assert PendingRows(rows)[..quota] == [];
          NothingCounted(maxAttempts, outcome);
        } else {
          TotalsCons(rows[0], Drain(rows[1..], quota, maxAttempts, outcome));
          CountsAreEffects(rows[1..], quota, maxAttempts, outcome);
          assert PendingRows(rows) == PendingRows(rows[1..]);
        }
      }
    }
  }

  lemma NothingCounted(maxAttempts: int, outcome: string -> DeleteOutcome)
    ensures FailedCount([], outcome) == 0 && Drain([], 0, maxAttempts, outcome) == []
  {
  }

  lemma PendingFirst(rows: seq<Row>)
    requires rows != []
    ensures PendingRows(rows) == (if rows[0].status.Pending? then [rows[0]] else []) + PendingRows(rows[1..])
  {
  }

  lemma DrainStops(rows: seq<Row>, quota: nat, maxAttempts: int, outcome: string -> DeleteOutcome)
    ensures quota == 0 ==> Drain(rows, quota, maxAttempts, outcome) == rows
  {
    if quota == 0 { DrainNone(rows, maxAttempts, outcome); }
  }

  // ----- Safety ------------------------------------------------------------------------------

  /** A run with this quota attempts row i: it is pending, and few enough pending rows come before it. */
  predicate InPage(rows: seq<Row>, quota: nat, i: nat)
    requires i < |rows|
  {
    rows[i].status.Pending? && |PendingRows(rows[..i])| < quota
  }

  lemma {:induction false} DrainRow(
      rows: seq<Row>, quota: nat, maxAttempts: int, outcome: string -> DeleteOutcome, i: nat)
    requires i < |rows|
    ensures Drain(rows, quota, maxAttempts, outcome)[i] ==
      if InPage(rows, quota, i) then Attempt(rows[i], maxAttempts, outcome(rows[i].id)) else rows[i]
  {
    hide Attempt;
    if i > 0 {
      var q := if rows[0].status.Pending? && quota > 0 then quota - 1 else quota;
      DrainRow(rows[1..], q, maxAttempts, outcome, i - 1);
      assert rows[..i][1..] == rows[1..][..i - 1];
    }
  }

  /** Some run had row i in its page and its deletion was confirmed there. */
  predicate Confirmed(rows: seq<Row>, runs: seq<Run>, limit: int, maxAttempts: int, i: nat)
    requires i < |rows|
    decreases |runs|
  {
    runs != [] &&
    var quota := Quota(runs[0], limit);
    || (InPage(rows, quota, i) && runs[0].outcome(rows[i].id).Deleted?)
    || Confirmed(Drain(rows, quota, maxAttempts, runs[0].outcome), runs[1..], limit, maxAttempts, i)
  }

  /**
   Over any runs, aborted or not: a pending row becomes done exactly when a run that attempts it
   confirms its deletion, exhausted only with its attempts used up, and settled rows never change.
   */
  lemma {:induction false} SettledHonestly(rows: seq<Row>, runs: seq<Run>, limit: int, maxAttempts: int, i: nat)
    requires i < |rows|
    ensures |History(rows, runs, limit, maxAttempts)| == |rows|
    ensures var r, r' := rows[i], History(rows, runs, limit, maxAttempts)[i];
      && r'.id == r.id && r'.attempts >= r.attempts
      && (!r.status.Pending? ==> r' == r && !Confirmed(rows, runs, limit, maxAttempts, i))
      && (r.status.Pending? ==> (r'.status.Done? <==> Confirmed(rows, runs, limit, maxAttempts, i)))
      && (r.status.Pending? && r'.status.Failed? ==> r'.attempts >= maxAttempts)
      && (r.status.Pending? && r'.status.Pending? && r'.attempts > r.attempts ==> r'.attempts < maxAttempts)
    decreases |runs|
  {
    if runs != [] {
      hide Drain;
      var quota := Quota(runs[0], limit);
      DrainRow(rows, quota, maxAttempts, runs[0].outcome, i);
      SettledHonestly(Drain(rows, quota, maxAttempts, runs[0].outcome), runs[1..], limit, maxAttempts, i);
    }
  }
}
