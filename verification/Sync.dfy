/** Knowledge sync: hash-guarded export of approved items, over runs that may throw part way. */
module Sync {
  import opened Strings
  import opened Intakes
  import Accounts

  datatype Status = Synced | Failed

  datatype SyncRecord = SyncRecord(contentHash: string, status: Status)

  /** Tenant id and item id. */
  type Key = (string, string)

  datatype Job = Job(tenant: Accounts.Tenant, item: Item)

  /**
   What the outside does when a job is worked on. Broken: the intake or the recording of its success
   threw; the provider may have taken the intake (applied), the success may have been stored (written),
   and the recording of the failure may have worked (noted).
   */
  datatype Attempt = LookupThrew | Accepted | Broken(applied: bool, written: bool, noted: bool)

  datatype Setting = Setting(env: Env, hash: Intake -> string, limit: nat)

  /** The store's records, what the provider holds, the intake calls made, and the counters of a run. */
  datatype State = State(
    records: map<Key, SyncRecord>, remote: map<Key, Intake>, calls: seq<(Key, Intake)>,
    attempted: nat, synced: nat, skipped: nat)

  datatype Report = Report(tenants: nat, attempted: nat, synced: nat, skipped: nat)

  function KeyOf(job: Job): Key { (job.tenant.id, job.item.id) }

  function IntakeOf(job: Job, setting: Setting): Option<Intake> {
    BuildIntake(job.tenant, job.item, setting.env)
  }

  /** The approved items of a listing, in its order. */
  function Approved(items: seq<Item>): seq<Item> {
    if items == [] then []
    else if items[0].approved then [items[0]] + Approved(items[1..])
    else Approved(items[1..])
  }

  function ListKnowledge(items: seq<Item>, limit: nat): seq<Item> {
    var approved := Approved(items);
    if |approved| <= limit then approved else approved[..limit]
  }

  function JobsOf(tenant: Accounts.Tenant, items: seq<Item>): seq<Job> {
    seq(|items|, i requires 0 <= i < |items| => Job(tenant, items[i]))
  }

  /** The work list: tenants in order, and for each its first approved items. */
  function Jobs(tenants: seq<Accounts.Tenant>, knowledge: string -> seq<Item>, limit: nat): seq<Job> {
    if tenants == [] then []
    else
      var last := tenants[|tenants| - 1];
      Jobs(tenants[..|tenants| - 1], knowledge, limit) + JobsOf(last, ListKnowledge(knowledge(last.id), limit))
  }

  predicate HasRecord(records: map<Key, SyncRecord>, key: Key, hash: string) {
    key in records && records[key] == SyncRecord(hash, Synced)
  }

  /** The job needs no call: it is blank, or its record is synced with the current hash. */
  predicate Current(records: map<Key, SyncRecord>, job: Job, setting: Setting) {
    var intake := IntakeOf(job, setting);
    intake.None? || HasRecord(records, KeyOf(job), setting.hash(intake.value))
  }

  predicate Reaches(attempt: Attempt) { attempt.Accepted? || (attempt.Broken? && attempt.applied) }

  /** The record a call leaves behind, if it changes it. */
  function RecordAfter(records: map<Key, SyncRecord>, key: Key, hash: string, attempt: Attempt): map<Key, SyncRecord> {
    var stored :=
      if attempt.Accepted? || (attempt.Broken? && attempt.applied && attempt.written)
      then records[key := SyncRecord(hash, Synced)] else records;
    if attempt.Broken? && attempt.noted then stored[key := SyncRecord(hash, Failed)] else stored
  }

  function Call(st: State, key: Key, intake: Intake, hash: string, attempt: Attempt): State {
    st.(records := RecordAfter(st.records, key, hash, attempt),
        remote := if Reaches(attempt) then st.remote[key := intake] else st.remote,
        calls := st.calls + [(key, intake)],
        attempted := st.attempted + 1,
        synced := st.synced + if attempt.Accepted? then 1 else 0)
  }

  /** One job; false when it throws. */
  function SyncOne(st: State, job: Job, setting: Setting, attempt: Attempt): (State, bool) {
    var intake := IntakeOf(job, setting);
    if intake.None? then (st.(skipped := st.skipped + 1), true)
    else if attempt.LookupThrew? then (st, false)
    else if Current(st.records, job, setting) then (st.(skipped := st.skipped + 1), true)
    else (Call(st, KeyOf(job), intake.value, setting.hash(intake.value), attempt), attempt.Accepted?)
  }

  function SyncAll(st: State, jobs: seq<Job>, setting: Setting, attempts: Key -> Attempt): (State, bool) {
    if jobs == [] then (st, true)
    else
      var before := SyncAll(st, jobs[..|jobs| - 1], setting, attempts);
      if before.1 then SyncOne(before.0, jobs[|jobs| - 1], setting, attempts(KeyOf(jobs[|jobs| - 1]))) else before
  }

  // ----- The exporter ------------------------------------------------------------------------

  class Exporter {
    var records: map<Key, SyncRecord>
    var remote: map<Key, Intake>
    var calls: seq<(Key, Intake)>
    // The counters of the current run.
    var attempted: nat
    var synced: nat
    var skipped: nat

    constructor (records: map<Key, SyncRecord>, remote: map<Key, Intake>)
      ensures Now() == State(records, remote, [], 0, 0, 0)
    {
      this.records, this.remote, calls := records, remote, [];
      attempted, synced, skipped := 0, 0, 0;
    }

    ghost function Now(): State
      reads this
    {
      State(records, remote, calls, attempted, synced, skipped)
    }

    /** One turn of the inner loop; false when it throws. */
    method SyncItem(job: Job, setting: Setting, attempt: Attempt) returns (ok: bool)
      modifies this
      ensures (Now(), ok) == SyncOne(old(Now()), job, setting, attempt)
    {
      hide IntakeOf;
      var intake := IntakeOf(job, setting);
      if intake.None? {
        skipped := skipped + 1;
        return true;
      }
      var key, hash := KeyOf(job), setting.hash(intake.value);
      if attempt.LookupThrew? {
        return false;
      }
      if HasRecord(records, key, hash) {
        skipped := skipped + 1;
        return true;
      }
      attempted := attempted + 1;
      calls := calls + [(key, intake.value)];
      if attempt.Accepted? || attempt.applied {
        remote := remote[key := intake.value];
      }
      if attempt.Accepted? || (attempt.applied && attempt.written) {
        records := records[key := SyncRecord(hash, Synced)];
      }
      if attempt.Accepted? {
        synced := synced + 1;
        return true;
      }
      if attempt.noted {
        records := records[key := SyncRecord(hash, Failed)];
      }
      ok := false;
    }

    /** The inner loop. */
    method SyncTenant(
        jobs: seq<Job>, setting: Setting, attempts: Key -> Attempt, ghost start: State, ghost earlier: seq<Job>)
      returns (ok: bool)
      requires SyncAll(start, earlier, setting, attempts) == (Now(), true)
      modifies this
      ensures SyncAll(start, earlier + jobs, setting, attempts) == (Now(), ok)
    {
      hide SyncOne;
      assert earlier + jobs[..0] == earlier;
      for i := 0 to |jobs|
        invariant SyncAll(start, earlier + jobs[..i], setting, attempts) == (Now(), true)
      {
        ghost var done := earlier + jobs[..i + 1];
        assert done[..|done| - 1] == earlier + jobs[..i] && done[|done| - 1] == jobs[i];
        ok := SyncItem(jobs[i], setting, attempts(KeyOf(jobs[i])));
        if !ok {
          assert (earlier + jobs)[..|done|] == done;
          StaysThrown(start, earlier + jobs, |done|, setting, attempts);
          return;
        }
      }
      assert jobs[..|jobs|] == jobs;
      ok := true;
    }

    method SyncApprovedKnowledge(
        tenants: seq<Accounts.Tenant>, knowledge: string -> seq<Item>, setting: Setting, attempts: Key -> Attempt)
      returns (r: Outcome<Report>)
      modifies this
      ensures var start := old(State(records, remote, calls, 0, 0, 0));
        var (st, ok) := SyncAll(start, Jobs(tenants, knowledge, setting.limit), setting, attempts);
        && Now() == st
        && r == if ok then Returned(Report(|tenants|, st.attempted, st.synced, st.skipped)) else Threw
    {
      hide SyncOne, ListKnowledge;
      attempted, synced, skipped := 0, 0, 0;
      ghost var start := Now();
      for t := 0 to |tenants|
        invariant SyncAll(start, Jobs(tenants[..t], knowledge, setting.limit), setting, attempts) == (Now(), true)
      {
        var jobs := JobsOf(tenants[t], ListKnowledge(knowledge(tenants[t].id), setting.limit));
        ghost var done := Jobs(tenants[..t], knowledge, setting.limit);
        assert tenants[..t + 1][..t] == tenants[..t];
        var ok := SyncTenant(jobs, setting, attempts, start, done);
        if !ok {
          JobsPrefix(tenants, knowledge, setting.limit, t + 1);
          ghost var all := Jobs(tenants, knowledge, setting.limit);
          assert all[..|done + jobs|] == done + jobs;
          StaysThrown(start, all, |done + jobs|, setting, attempts);
          return Threw;
        }
      }
      assert tenants[..|tenants|] == tenants;
      r := Returned(Report(|tenants|, attempted, synced, skipped));
    }
  }

  /** The jobs of the first tenants come first. */
  lemma {:induction false} JobsPrefix(tenants: seq<Accounts.Tenant>, knowledge: string -> seq<Item>, limit: nat, t: nat)
    requires t <= |tenants|
    ensures Jobs(tenants[..t], knowledge, limit) <= Jobs(tenants, knowledge, limit)
    decreases |tenants|
  {
    hide ListKnowledge;
    if t < |tenants| {
      JobsPrefix(tenants[..|tenants| - 1], knowledge, limit, t);
      assert tenants[..|tenants| - 1][..t] == tenants[..t];
    } else {
      assert tenants[..t] == tenants;
    }
  }

  /** A run that throws stops there. */
  lemma {:induction false} StaysThrown(start: State, jobs: seq<Job>, k: nat, setting: Setting, attempts: Key -> Attempt)
    requires k <= |jobs| && !SyncAll(start, jobs[..k], setting, attempts).1
    ensures SyncAll(start, jobs, setting, attempts) == SyncAll(start, jobs[..k], setting, attempts)
    decreases |jobs|
  {
    if k < |jobs| {
      assert jobs[..|jobs| - 1][..k] == jobs[..k];
      StaysThrown(start, jobs[..|jobs| - 1], k, setting, attempts);
    } else {
      assert jobs[..k] == jobs;
    }
  }
}
