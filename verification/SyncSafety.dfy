/** What knowledge sync guarantees, over whole histories of runs that return or throw. */
module SyncSafety {
  import opened Strings
  import opened Intakes
  import opened Sync
  import Accounts

  ghost predicate DistinctJobs(jobs: seq<Job>) {
    forall i, j :: 0 <= i < j < |jobs| ==> KeyOf(jobs[i]) != KeyOf(jobs[j])
  }

  predicate AllCurrent(records: map<Key, SyncRecord>, jobs: seq<Job>, setting: Setting) {
    forall i :: 0 <= i < |jobs| ==> Current(records, jobs[i], setting)
  }

  // ----- The work list -----------------------------------------------------------------------

  ghost predicate DistinctItems(items: seq<Item>) {
    forall i, j :: 0 <= i < j < |items| ==> items[i].id != items[j].id
  }

  ghost predicate DistinctTenants(tenants: seq<Accounts.Tenant>) {
    forall i, j :: 0 <= i < j < |tenants| ==> tenants[i].id != tenants[j].id
  }

  lemma {:induction false} ApprovedItems(items: seq<Item>)
    requires DistinctItems(items)
    ensures DistinctItems(Approved(items))
    ensures forall x :: x in Approved(items) <==> x in items && x.approved
  {
    if items != [] {
      assert items == [items[0]] + items[1..];
      ApprovedItems(items[1..]);
    }
  }

  lemma ListedDistinct(items: seq<Item>, limit: nat)
    requires DistinctItems(items)
    ensures DistinctItems(ListKnowledge(items, limit))
  {
    hide Approved;
    ApprovedItems(items);
  }

  lemma JoinDistinct(before: seq<Job>, tenant: Accounts.Tenant, items: seq<Item>)
    requires DistinctJobs(before) && DistinctItems(items)
    requires forall j :: j in before ==> j.tenant.id != tenant.id
    ensures DistinctJobs(before + JobsOf(tenant, items))
  {
    var mine := JobsOf(tenant, items);
    assert forall i :: 0 <= i < |before| ==> before[i] in before && KeyOf(before[i]).0 != tenant.id;
    assert forall i :: 0 <= i < |mine| ==> mine[i] == Job(tenant, items[i]);
  }

  /** Unique ids give each job its own key, and every job belongs to a listed tenant. */
  lemma {:induction false} JobsDistinct(tenants: seq<Accounts.Tenant>, knowledge: string -> seq<Item>, limit: nat)
    requires DistinctTenants(tenants) && forall id :: DistinctItems(knowledge(id))
    ensures DistinctJobs(Jobs(tenants, knowledge, limit))
    ensures forall j :: j in Jobs(tenants, knowledge, limit) ==> j.tenant in tenants
  {
    hide DistinctJobs, ListKnowledge, DistinctItems;
    if tenants != [] {
      var last := tenants[|tenants| - 1];
      JobsDistinct(tenants[..|tenants| - 1], knowledge, limit);
      ListedDistinct(knowledge(last.id), limit);
      JoinDistinct(Jobs(tenants[..|tenants| - 1], knowledge, limit), last, ListKnowledge(knowledge(last.id), limit));
    } else {
      assert DistinctJobs([]) by { NoJobs(); }
    }
  }

  lemma NoJobs()
    ensures DistinctJobs([])
  {
  }

  // ----- One job -----------------------------------------------------------------------------

  /** A job touches only its own key, calls only when it is not current, and returns only with it current. */
  lemma OneJob(st: State, job: Job, setting: Setting, attempt: Attempt)
    ensures var (after, ok) := SyncOne(st, job, setting, attempt);
      && st.calls <= after.calls
      && (forall k :: k != KeyOf(job) ==>
           && (k in after.records <==> k in st.records)
           && (k in st.records ==> after.records[k] == st.records[k]))
      && (Current(st.records, job, setting) ==> after == st.(skipped := after.skipped))
      && (ok ==> Current(after.records, job, setting))
      && (!Current(st.records, job, setting) && !attempt.LookupThrew? ==>
           after.calls == st.calls + [(KeyOf(job), IntakeOf(job, setting).value)])
      && (!Current(st.records, job, setting) && attempt.LookupThrew? ==> after == st && !ok)
  {
    hide IntakeOf;
  }

  lemma SkipsCurrent(st: State, job: Job, setting: Setting, attempt: Attempt)
    requires Current(st.records, job, setting) && !attempt.LookupThrew?
    ensures SyncOne(st, job, setting, attempt) == (st.(skipped := st.skipped + 1), true)
  {
  }

  /** Currency of one job is kept by every other. */
  lemma OthersKeepCurrent(st: State, job: Job, other: Job, setting: Setting, attempt: Attempt)
    requires KeyOf(job) != KeyOf(other)
    ensures Current(SyncOne(st, job, setting, attempt).0.records, other, setting) <==>
      Current(st.records, other, setting)
  {
    hide IntakeOf, SyncOne;
    OneJob(st, job, setting, attempt);
  }

  // ----- One run -----------------------------------------------------------------------------

  /** A run that returns leaves every job current; it synced what it attempted and skipped the rest. */
  lemma {:induction false} ReturnedIsCurrent(st: State, jobs: seq<Job>, setting: Setting, attempts: Key -> Attempt)
    requires DistinctJobs(jobs) && SyncAll(st, jobs, setting, attempts).1
    ensures var after := SyncAll(st, jobs, setting, attempts).0;
      && AllCurrent(after.records, jobs, setting)
      && after.attempted - st.attempted == after.synced - st.synced
      && after.attempted - st.attempted + after.skipped - st.skipped == |jobs|
  {
    hide Current, IntakeOf, RecordAfter;
    if jobs != [] {
      var n := |jobs| - 1;
      ReturnedIsCurrent(st, jobs[..n], setting, attempts);
      var mid := SyncAll(st, jobs[..n], setting, attempts).0;
      OneJob(mid, jobs[n], setting, attempts(KeyOf(jobs[n])));
      forall i | 0 <= i < n
        ensures Current(SyncAll(st, jobs, setting, attempts).0.records, jobs[i], setting)
      {
        assert jobs[..n][i] == jobs[i];
        OthersKeepCurrent(mid, jobs[n], jobs[i], setting, attempts(KeyOf(jobs[n])));
      }
    }
  }

  /**
   A run whose lookups work makes no intake call exactly when every job is current; then it returns and changes
   nothing.
   */
  lemma {:induction false} IdleIff(st: State, jobs: seq<Job>, setting: Setting, attempts: Key -> Attempt)
    requires forall i :: 0 <= i < |jobs| ==> !attempts(KeyOf(jobs[i])).LookupThrew?
    ensures st.calls <= SyncAll(st, jobs, setting, attempts).0.calls
    ensures AllCurrent(st.records, jobs, setting) ==>
      SyncAll(st, jobs, setting, attempts) == (st.(skipped := st.skipped + |jobs|), true)
    ensures SyncAll(st, jobs, setting, attempts).0.calls == st.calls ==> AllCurrent(st.records, jobs, setting)
  {
    hide SyncOne, Current, IntakeOf;
    if jobs != [] {
      var n := |jobs| - 1;
      var before := jobs[..n];
      assert forall i :: 0 <= i < n ==> before[i] == jobs[i];
      IdleIff(st, before, setting, attempts);
      var mid := SyncAll(st, before, setting, attempts);
      OneJob(mid.0, jobs[n], setting, attempts(KeyOf(jobs[n])));
      assert jobs == before + [jobs[n]];
      if AllCurrent(st.records, jobs, setting) { SkipsCurrent(mid.0, jobs[n], setting, attempts(KeyOf(jobs[n]))); }
    }
  }

  /** Whatever happens in a run, a job keeps being current; if it is, the run does not call for it. */
  lemma {:induction false} CurrentStays(st: State, jobs: seq<Job>, setting: Setting, attempts: Key -> Attempt, job: Job)
    requires Current(st.records, job, setting)
    requires forall i :: 0 <= i < |jobs| ==> KeyOf(jobs[i]) == KeyOf(job) ==> jobs[i] == job
    ensures var after := SyncAll(st, jobs, setting, attempts).0;
      && Current(after.records, job, setting)
      && CallsFor(after.calls, KeyOf(job)) == CallsFor(st.calls, KeyOf(job))
  {
    hide RecordAfter, IntakeOf, Current, SyncOne;
    if jobs != [] {
      var n := |jobs| - 1;
      assert forall i :: 0 <= i < n ==> jobs[..n][i] == jobs[i];
      CurrentStays(st, jobs[..n], setting, attempts, job);
      var mid := SyncAll(st, jobs[..n], setting, attempts).0;
      OneJobCurrent(mid, jobs[n], setting, attempts(KeyOf(jobs[n])), job);
    }
  }

  lemma OneJobCurrent(st: State, job: Job, setting: Setting, attempt: Attempt, kept: Job)
    requires Current(st.records, kept, setting) && (KeyOf(job) == KeyOf(kept) ==> job == kept)
    ensures var after := SyncOne(st, job, setting, attempt).0;
      && Current(after.records, kept, setting)
      && CallsFor(after.calls, KeyOf(kept)) == CallsFor(st.calls, KeyOf(kept))
  {
    hide IntakeOf, Current, SyncOne;
    OneJob(st, job, setting, attempt);
    var after := SyncOne(st, job, setting, attempt).0;
    if job != kept {
      OthersKeepCurrent(st, job, kept, setting, attempt);
      if !Current(st.records, job, setting) && !attempt.LookupThrew? {
        assert after.calls[..|st.calls|] == st.calls;
      }
    }
  }

  /** The intake calls made for a key. */
  function CallsFor(calls: seq<(Key, Intake)>, key: Key): nat {
    if calls == [] then 0
    else CallsFor(calls[..|calls| - 1], key) + if calls[|calls| - 1].0 == key then 1 else 0
  }

  // ----- Histories ---------------------------------------------------------------------------

  datatype Run = Run(jobs: seq<Job>, setting: Setting, attempts: Key -> Attempt)

  function StartRun(st: State): State { st.(attempted := 0, synced := 0, skipped := 0) }

  function RunOnce(st: State, run: Run): (State, bool) {
    SyncAll(StartRun(st), run.jobs, run.setting, run.attempts)
  }

  function History(st: State, runs: seq<Run>): State {
    if runs == [] then st else RunOnce(History(st, runs[..|runs| - 1]), runs[|runs| - 1]).0
  }

  /** How many runs of a history threw. */
  function Throws(st: State, runs: seq<Run>): nat {
    if runs == [] then 0
    else
      var before := runs[..|runs| - 1];
      Throws(st, before) + if RunOnce(History(st, before), runs[|runs| - 1]).1 then 0 else 1
  }

  /** Every run has the same work list and setting: nothing changed between them. */
  ghost predicate SameData(runs: seq<Run>, jobs: seq<Job>, setting: Setting) {
    forall i :: 0 <= i < |runs| ==> runs[i].jobs == jobs && runs[i].setting == setting
  }

  /** Once a success is recorded, no later run sends that item again, whether runs return or throw. */
  lemma {:induction false} NeverResent(st: State, runs: seq<Run>, jobs: seq<Job>, setting: Setting, j: nat)
    requires DistinctJobs(jobs) && SameData(runs, jobs, setting)
    requires j < |jobs| && Current(st.records, jobs[j], setting)
    ensures Current(History(st, runs).records, jobs[j], setting)
    ensures CallsFor(History(st, runs).calls, KeyOf(jobs[j])) == CallsFor(st.calls, KeyOf(jobs[j]))
  {
    hide Current;
    if runs != [] {
      var before, last := runs[..|runs| - 1], runs[|runs| - 1];
      NeverResent(st, before, jobs, setting, j);
      CurrentStays(StartRun(History(st, before)), jobs, setting, last.attempts, jobs[j]);
    }
  }

  /** The jobs a run gets through before it throws. */
  function Reached(st: State, jobs: seq<Job>, setting: Setting, attempts: Key -> Attempt): nat {
    if jobs == [] then 0
    else Reached(st, jobs[..|jobs| - 1], setting, attempts) + if SyncAll(st, jobs, setting, attempts).1 then 1 else 0
  }

  /** A run that throws leaves everything before the throw current, so the next run resumes there. */
  lemma {:induction false} ResumesAtThrow(st: State, jobs: seq<Job>, setting: Setting, attempts: Key -> Attempt)
    requires DistinctJobs(jobs)
    ensures var (after, ok) := SyncAll(st, jobs, setting, attempts);
      var k := Reached(st, jobs, setting, attempts);
      && k <= |jobs| && (ok <==> k == |jobs|)
      && AllCurrent(after.records, jobs[..k], setting)
  {
    hide SyncOne, Current;
    if jobs != [] {
      var n := |jobs| - 1;
      var k := Reached(st, jobs, setting, attempts);
      ResumesAtThrow(st, jobs[..n], setting, attempts);
      if SyncAll(st, jobs, setting, attempts).1 {
        ReturnedIsCurrent(st, jobs, setting, attempts);
        assert jobs[..k] == jobs;
      } else {
        assert jobs[..n][..k] == jobs[..k];
        if k == n {
          var mid := SyncAll(st, jobs[..n], setting, attempts).0;
          forall i | 0 <= i < k
            ensures Current(SyncAll(st, jobs, setting, attempts).0.records, jobs[..k][i], setting)
          {
            OthersKeepCurrent(mid, jobs[n], jobs[..k][i], setting, attempts(KeyOf(jobs[n])));
          }
        }
      }
    }
  }

  // ----- Budgets -----------------------------------------------------------------------------

  /** The jobs that still need a call. */
  function Stale(records: map<Key, SyncRecord>, jobs: seq<Job>, setting: Setting): nat {
    if jobs == [] then 0
    else Stale(records, jobs[..|jobs| - 1], setting) + if Current(records, jobs[|jobs| - 1], setting) then 0 else 1
  }

  lemma {:induction false} StaleAfterOther(st: State, job: Job, attempt: Attempt, jobs: seq<Job>, setting: Setting)
    requires forall i :: 0 <= i < |jobs| ==> KeyOf(jobs[i]) != KeyOf(job)
    ensures Stale(SyncOne(st, job, setting, attempt).0.records, jobs, setting) == Stale(st.records, jobs, setting)
  {
    hide SyncOne, Current;
    if jobs != [] {
      StaleAfterOther(st, job, attempt, jobs[..|jobs| - 1], setting);
      OthersKeepCurrent(st, job, jobs[|jobs| - 1], setting, attempt);
    }
  }

  /** A run keeps whether a job outside it is current. */
  lemma {:induction false} OutsideKept(
      st: State, jobs: seq<Job>, setting: Setting, attempts: Key -> Attempt, other: Job)
    requires forall i :: 0 <= i < |jobs| ==> KeyOf(jobs[i]) != KeyOf(other)
    ensures Current(SyncAll(st, jobs, setting, attempts).0.records, other, setting) <==>
      Current(st.records, other, setting)
  {
    hide SyncOne, Current;
    if jobs != [] {
      var n := |jobs| - 1;
      OutsideKept(st, jobs[..n], setting, attempts, other);
      OthersKeepCurrent(SyncAll(st, jobs[..n], setting, attempts).0, jobs[n], other, setting, attempts(KeyOf(jobs[n])));
    }
  }

  /** Each call of a run uses up a stale job, except the one that throws. */
  lemma {:induction false} RunBudget(st: State, jobs: seq<Job>, setting: Setting, attempts: Key -> Attempt)
    requires DistinctJobs(jobs)
    ensures var (after, ok) := SyncAll(st, jobs, setting, attempts);
      |after.calls| + Stale(after.records, jobs, setting)
        <= |st.calls| + Stale(st.records, jobs, setting) + if ok then 0 else 1
  {
    hide SyncOne, Current;
    if jobs != [] {
      var n := |jobs| - 1;
      var before, last := jobs[..n], jobs[n];
      RunBudget(st, before, setting, attempts);
      var (mid, going) := SyncAll(st, before, setting, attempts);
      OutsideKept(st, before, setting, attempts, last);
      if going {
        OneJob(mid, last, setting, attempts(KeyOf(last)));
        StaleAfterOther(mid, last, attempts(KeyOf(last)), before, setting);
      }
    }
  }

  /** On unchanged data, a history calls at most once per stale item and once more per run that threw. */
  lemma {:induction false} CallBudget(st: State, runs: seq<Run>, jobs: seq<Job>, setting: Setting)
    requires DistinctJobs(jobs) && SameData(runs, jobs, setting)
    ensures |History(st, runs).calls| + Stale(History(st, runs).records, jobs, setting)
         <= |st.calls| + Stale(st.records, jobs, setting) + Throws(st, runs)
  {
    if runs != [] {
      var before, last := runs[..|runs| - 1], runs[|runs| - 1];
      CallBudget(st, before, jobs, setting);
      RunBudget(StartRun(History(st, before)), jobs, setting, last.attempts);
    }
  }

  // ----- How far a run gets ------------------------------------------------------------------

  /** A run goes on behind this job: it is blank, or its lookup works and it is current or is accepted. */
  predicate GetsThrough(records: map<Key, SyncRecord>, job: Job, setting: Setting, attempt: Attempt) {
    IntakeOf(job, setting).None? || (!attempt.LookupThrew? && (Current(records, job, setting) || attempt.Accepted?))
  }

  lemma OneGetsThrough(st: State, job: Job, setting: Setting, attempt: Attempt)
    ensures SyncOne(st, job, setting, attempt).1 <==> GetsThrough(st.records, job, setting, attempt)
  {
    hide IntakeOf, Call;
  }

  ghost predicate AllGetThrough(
      records: map<Key, SyncRecord>, jobs: seq<Job>, setting: Setting, attempts: Key -> Attempt) {
    forall i :: 0 <= i < |jobs| ==> GetsThrough(records, jobs[i], setting, attempts(KeyOf(jobs[i])))
  }

  lemma AllGetThroughSnoc(
      records: map<Key, SyncRecord>, jobs: seq<Job>, setting: Setting, attempts: Key -> Attempt)
    requires jobs != []
    ensures AllGetThrough(records, jobs, setting, attempts) <==>
      var last := jobs[|jobs| - 1];
      AllGetThrough(records, jobs[..|jobs| - 1], setting, attempts)
      && GetsThrough(records, last, setting, attempts(KeyOf(last)))
  {
    hide GetsThrough;
    assert forall i :: 0 <= i < |jobs| - 1 ==> jobs[..|jobs| - 1][i] == jobs[i];
  }

  /** A run returns exactly when each of its jobs, by the records it started from, lets it go on. */
  lemma {:induction false} ReturnsIff(st: State, jobs: seq<Job>, setting: Setting, attempts: Key -> Attempt)
    requires DistinctJobs(jobs)
    ensures SyncAll(st, jobs, setting, attempts).1 <==> AllGetThrough(st.records, jobs, setting, attempts)
  {
    hide SyncOne, Current, IntakeOf;
    if jobs != [] {
      var n := |jobs| - 1;
      var before, last := jobs[..n], jobs[n];
      ReturnsIff(st, before, setting, attempts);
      OutsideKept(st, before, setting, attempts, last);
      OneGetsThrough(SyncAll(st, before, setting, attempts).0, last, setting, attempts(KeyOf(last)));
      AllGetThroughSnoc(st.records, jobs, setting, attempts);
      hide AllGetThrough;
    }
  }

  /** And it gets as far as job j exactly when every job before j does. */
  lemma ReachesIff(st: State, jobs: seq<Job>, setting: Setting, attempts: Key -> Attempt, j: nat)
    requires DistinctJobs(jobs) && j <= |jobs|
    ensures j <= Reached(st, jobs, setting, attempts) <==> AllGetThrough(st.records, jobs[..j], setting, attempts)
  {
    hide AllGetThrough, SyncOne;
    ReachedPrefix(st, jobs, setting, attempts, j);
    ReturnsIff(st, jobs[..j], setting, attempts);
  }

  lemma {:induction false} ReachedPrefix(st: State, jobs: seq<Job>, setting: Setting, attempts: Key -> Attempt, j: nat)
    requires j <= |jobs|
    ensures j <= Reached(st, jobs, setting, attempts) <==> SyncAll(st, jobs[..j], setting, attempts).1
    ensures Reached(st, jobs, setting, attempts) <= |jobs|
    ensures SyncAll(st, jobs, setting, attempts).1 <==> Reached(st, jobs, setting, attempts) == |jobs|
    decreases |jobs|
  {
    hide SyncOne;
    var n := |jobs| - 1;
    if j == |jobs| {
      assert jobs[..j] == jobs;
      if jobs != [] { ReachedPrefix(st, jobs[..n], setting, attempts, n); }
    } else {
      assert jobs[..n][..j] == jobs[..j];
      ReachedPrefix(st, jobs[..n], setting, attempts, j);
    }
  }

  /** A run calls for job j, once, exactly when every job before j lets it go on, j is stale and its lookup works. */
  lemma {:induction false} CalledIff(st: State, jobs: seq<Job>, setting: Setting, attempts: Key -> Attempt, j: nat)
    requires DistinctJobs(jobs) && j < |jobs|
    ensures CallsFor(SyncAll(st, jobs, setting, attempts).0.calls, KeyOf(jobs[j])) ==
      CallsFor(st.calls, KeyOf(jobs[j])) +
      if && AllGetThrough(st.records, jobs[..j], setting, attempts)
         && !Current(st.records, jobs[j], setting) && !attempts(KeyOf(jobs[j])).LookupThrew?
      then 1 else 0
    decreases |jobs|
  {
    hide AllGetThrough, SyncOne, Current, IntakeOf;
    var n := |jobs| - 1;
    var before, last, key := jobs[..n], jobs[n], KeyOf(jobs[j]);
    var (mid, going) := SyncAll(st, before, setting, attempts);
    OneCall(mid, last, setting, attempts(KeyOf(last)), key);
    if j < n {
      assert before[..j] == jobs[..j];
      CalledIff(st, before, setting, attempts, j);
    } else {
      NoCallOutside(st, before, setting, attempts, key);
      OutsideKept(st, before, setting, attempts, last);
      ReturnsIff(st, before, setting, attempts);
    }
  }

  lemma OneCall(st: State, job: Job, setting: Setting, attempt: Attempt, key: Key)
    ensures CallsFor(SyncOne(st, job, setting, attempt).0.calls, key) ==
      CallsFor(st.calls, key) +
      if key == KeyOf(job) && !Current(st.records, job, setting) && !attempt.LookupThrew? then 1 else 0
  {
    hide IntakeOf, SyncOne, Current;
    OneJob(st, job, setting, attempt);
    var after := SyncOne(st, job, setting, attempt).0;
    if !Current(st.records, job, setting) && !attempt.LookupThrew? {
      assert after.calls[..|st.calls|] == st.calls;
    }
  }

  lemma {:induction false} NoCallOutside(
      st: State, jobs: seq<Job>, setting: Setting, attempts: Key -> Attempt, key: Key)
    requires forall i :: 0 <= i < |jobs| ==> KeyOf(jobs[i]) != key
    ensures CallsFor(SyncAll(st, jobs, setting, attempts).0.calls, key) == CallsFor(st.calls, key)
  {
    hide SyncOne, Current, CallsFor;
    if jobs != [] {
      var n := |jobs| - 1;
      NoCallOutside(st, jobs[..n], setting, attempts, key);
      OneCall(SyncAll(st, jobs[..n], setting, attempts).0, jobs[n], setting, attempts(KeyOf(jobs[n])), key);
    }
  }

  // ----- A failing item ----------------------------------------------------------------------

  /** A call that leaves its item stale: every failure but one whose success was stored and whose failure was not. */
  predicate KeepsStale(attempt: Attempt) {
    attempt.LookupThrew? || (attempt.Broken? && (attempt.noted || !(attempt.applied && attempt.written)))
  }

  /** These are exactly the attempts after which a stale item is still stale. */
  lemma StaleIff(st: State, job: Job, setting: Setting, attempt: Attempt)
    requires !Current(st.records, job, setting)
    ensures !Current(SyncOne(st, job, setting, attempt).0.records, job, setting) <==> KeepsStale(attempt)
    ensures KeepsStale(attempt) ==> !SyncOne(st, job, setting, attempt).1
  {
    hide IntakeOf;
  }

  /**
   After a run, item j is current exactly when it was, or the run got to it and its attempt did not leave it
   stale.
   */
  lemma {:induction false} BecomesCurrentIff(
      st: State, jobs: seq<Job>, setting: Setting, attempts: Key -> Attempt, j: nat)
    requires DistinctJobs(jobs) && j < |jobs|
    ensures Current(SyncAll(st, jobs, setting, attempts).0.records, jobs[j], setting) <==>
      || Current(st.records, jobs[j], setting)
      || (AllGetThrough(st.records, jobs[..j], setting, attempts) && !KeepsStale(attempts(KeyOf(jobs[j]))))
    decreases |jobs|
  {
    hide AllGetThrough, SyncOne, Current, KeepsStale;
    var n := |jobs| - 1;
    var before, last := jobs[..n], jobs[n];
    var (mid, going) := SyncAll(st, before, setting, attempts);
    if j < n {
      assert before[..j] == jobs[..j];
      BecomesCurrentIff(st, before, setting, attempts, j);
      OthersKeepCurrent(mid, last, jobs[j], setting, attempts(KeyOf(last)));
    } else {
      OutsideKept(st, before, setting, attempts, last);
      ReturnsIff(st, before, setting, attempts);
      if Current(mid.records, last, setting) {
        OneJobCurrent(mid, last, setting, attempts(KeyOf(last)), last);
      } else {
        StaleIff(mid, last, setting, attempts(KeyOf(last)));
      }
    }
  }

  /** A run does not get past a stale item that stays stale. */
  lemma RunBlocked(st: State, jobs: seq<Job>, setting: Setting, attempts: Key -> Attempt, k: nat)
    requires DistinctJobs(jobs) && k < |jobs|
    requires !Current(st.records, jobs[k], setting) && KeepsStale(attempts(KeyOf(jobs[k])))
    ensures SyncAll(st, jobs, setting, attempts) == SyncAll(st, jobs[..k + 1], setting, attempts)
    ensures !SyncAll(st, jobs, setting, attempts).1
    ensures !Current(SyncAll(st, jobs, setting, attempts).0.records, jobs[k], setting)
  {
    hide IntakeOf, SyncOne, Current;
    var upTo := jobs[..k + 1];
    assert upTo[..k] == jobs[..k];
    OutsideKept(st, jobs[..k], setting, attempts, jobs[k]);
    StaleIff(SyncAll(st, jobs[..k], setting, attempts).0, jobs[k], setting, attempts(KeyOf(jobs[k])));
    StaysThrown(st, jobs, k + 1, setting, attempts);
  }

  /** So while it does, the items after it are neither called for nor recorded, however often sync runs. */
  lemma {:induction false} FailingItemStarvesTheRest(
      st: State, runs: seq<Run>, jobs: seq<Job>, setting: Setting, k: nat, j: nat)
    requires DistinctJobs(jobs) && SameData(runs, jobs, setting) && k < j < |jobs|
    requires !Current(st.records, jobs[k], setting)
    requires forall i :: 0 <= i < |runs| ==> KeepsStale(runs[i].attempts(KeyOf(jobs[k])))
    ensures Throws(st, runs) == |runs|
    ensures !Current(History(st, runs).records, jobs[k], setting)
    ensures Current(History(st, runs).records, jobs[j], setting) <==> Current(st.records, jobs[j], setting)
    ensures CallsFor(History(st, runs).calls, KeyOf(jobs[j])) == CallsFor(st.calls, KeyOf(jobs[j]))
  {
    hide Current;
    if runs != [] {
      var before, last := runs[..|runs| - 1], runs[|runs| - 1];
      FailingItemStarvesTheRest(st, before, jobs, setting, k, j);
      var start := StartRun(History(st, before));
      RunBlocked(start, jobs, setting, last.attempts, k);
      OutsideKept(start, jobs[..k + 1], setting, last.attempts, jobs[j]);
      NoCallOutside(start, jobs[..k + 1], setting, last.attempts, KeyOf(jobs[j]));
    }
  }

  // ----- What the provider holds ----------------------------------------------------------------

  /** If the item has a synced record, its hash is that of what the provider holds for the item. */
  predicate Mirror(st: State, key: Key, hash: Intake -> string) {
    key in st.records && st.records[key].status.Synced? ==>
      key in st.remote && hash(st.remote[key]) == st.records[key].contentHash
  }

  /** The provider took the intake, and neither its success nor its failure was stored. */
  predicate Unrecorded(attempt: Attempt) { attempt == Broken(true, false, false) }

  /**
   A job keeps an item's mirror, except exactly when it is the item's own and an unrecorded intake replaces one
   recorded as synced.
   */
  lemma MirrorIff(st: State, job: Job, setting: Setting, attempt: Attempt, key: Key)
    requires Mirror(st, key, setting.hash)
    ensures Mirror(SyncOne(st, job, setting, attempt).0, key, setting.hash) <==>
      !(KeyOf(job) == key && Unrecorded(attempt) && !Current(st.records, job, setting)
        && key in st.records && st.records[key].status.Synced?)
  {
    hide IntakeOf;
    var after := SyncOne(st, job, setting, attempt).0;
    if KeyOf(job) == key && Unrecorded(attempt) && !Current(st.records, job, setting) {
      assert after.remote[key] == IntakeOf(job, setting).value;
    }
  }

  lemma {:induction false} RunKeepsMirror(
      st: State, jobs: seq<Job>, setting: Setting, attempts: Key -> Attempt, key: Key)
    requires Mirror(st, key, setting.hash) && !Unrecorded(attempts(key))
    ensures Mirror(SyncAll(st, jobs, setting, attempts).0, key, setting.hash)
  {
    hide Mirror, SyncOne, Current;
    if jobs != [] {
      var n := |jobs| - 1;
      RunKeepsMirror(st, jobs[..n], setting, attempts, key);
      MirrorIff(SyncAll(st, jobs[..n], setting, attempts).0, jobs[n], setting, attempts(KeyOf(jobs[n])), key);
    }
  }

  /** The runs share the hash, and none loses track of an intake of this item; all else may change between them. */
  ghost predicate Tracked(runs: seq<Run>, key: Key, hash: Intake -> string) {
    forall i :: 0 <= i < |runs| ==> runs[i].setting.hash == hash && !Unrecorded(runs[i].attempts(key))
  }

  lemma {:induction false} HistoryKeepsMirror(st: State, runs: seq<Run>, key: Key, hash: Intake -> string)
    requires Mirror(st, key, hash) && Tracked(runs, key, hash)
    ensures Mirror(History(st, runs), key, hash)
  {
    if runs != [] {
      var before, last := runs[..|runs| - 1], runs[|runs| - 1];
      HistoryKeepsMirror(st, before, key, hash);
      RunKeepsMirror(StartRun(History(st, before)), last.jobs, last.setting, last.attempts, key);
    }
  }

  ghost predicate Injective(hash: Intake -> string) {
    forall a, b :: hash(a) == hash(b) ==> a == b
  }

  /**
   End to end: over any history, with items and settings changing between runs and runs throwing part way, the
   provider holds the tenant's own record of the item's own current text and facts, for every item with a text that the
   last run got through and none of whose own intakes went unrecorded. A run that returns got through all of them.
   */
  lemma {:induction false} RemoteIsCurrent(st: State, runs: seq<Run>, last: Run, hash: Intake -> string, j: nat)
    requires DistinctJobs(last.jobs) && j < |last.jobs| && Injective(hash)
    requires Mirror(st, KeyOf(last.jobs[j]), hash) && Tracked(runs + [last], KeyOf(last.jobs[j]), hash)
    requires j < Reached(StartRun(History(st, runs)), last.jobs, last.setting, last.attempts)
    ensures var job, remote := last.jobs[j], RunOnce(History(st, runs), last).0.remote;
      Trim(job.item.content) != "" ==>
        (job.tenant.id, job.item.id) in remote
        && Carries(job.tenant, job.item, last.setting.env, remote[(job.tenant.id, job.item.id)])
  {
    hide IntakeOf, Carries, Trim;
    var all, job := runs + [last], last.jobs[j];
    assert all[..|all| - 1] == runs;
    HistoryKeepsMirror(st, all, KeyOf(job), hash);
    var start, after := StartRun(History(st, runs)), RunOnce(History(st, runs), last).0;
    ResumesAtThrow(start, last.jobs, last.setting, last.attempts);
    var through := last.jobs[..Reached(start, last.jobs, last.setting, last.attempts)];
    assert through[j] == job && Current(after.records, through[j], last.setting);
    JobMeaning(job, last.setting);
  }

  lemma JobMeaning(job: Job, setting: Setting)
    ensures var intake := IntakeOf(job, setting);
      && (intake.None? <==> Trim(job.item.content) == "")
      && (intake.Some? ==> Carries(job.tenant, job.item, setting.env, intake.value))
  {
    hide Carries, BuildIntake;
    IntakeMeaning(job.tenant, job.item, setting.env);
  }
}
