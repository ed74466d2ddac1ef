/**
 How sync derives a tenant's OneBrain account, and how the tombstone consumer resolves an account
 back to a tenant.
 */
module Accounts {
  import opened Strings
  import opened Tombstones
  import opened TombstoneSafety

  datatype Tenant = Tenant(id: string, publicId: Option<string>, slug: Option<string>, name: Option<string>)

  /** value?.trim(), with a missing value as the empty string. */
  function TrimmedOrEmpty(value: Option<string>): string {
    if value.Some? then Trim(value.value) else ""
  }

  /** The first of override, slug and publicId that is not blank, and otherwise the id. */
  function AccountIdOf(override: Option<string>, tenant: Tenant): string {
    if TrimmedOrEmpty(override) != "" then TrimmedOrEmpty(override)
    else if TrimmedOrEmpty(tenant.slug) != "" then TrimmedOrEmpty(tenant.slug)
    else if TrimmedOrEmpty(tenant.publicId) != "" then TrimmedOrEmpty(tenant.publicId)
    else tenant.id
  }

  /** The index of the tenant whose stored slug is exactly this, or the number of tenants. */
  function BySlug(tenants: seq<Tenant>, slug: string): (i: nat)
    ensures i <= |tenants|
    ensures i < |tenants| ==> tenants[i].slug == Some(slug)
    ensures forall j :: 0 <= j < i ==> tenants[j].slug != Some(slug)
  {
    if tenants == [] || tenants[0].slug == Some(slug) then 0 else 1 + BySlug(tenants[1..], slug)
  }

  function ResolveTombstoneTenant(override: Option<string>, tenants: seq<Tenant>, accountId: string): Resolution {
    if TrimmedOrEmpty(override) != "" then Ambiguous
    else
      var i := BySlug(tenants, accountId);
      if i < |tenants| then Matched(tenants[i].id) else NoLocalTenant
  }

  /** What the tenants table guarantees: ids and slugs are unique, and ids are not blank. */
  ghost predicate TenantTable(tenants: seq<Tenant>) {
    && (forall i :: 0 <= i < |tenants| ==> Trim(tenants[i].id) != "")
    && (forall i, j :: 0 <= i < j < |tenants| ==>
         tenants[i].id != tenants[j].id && (tenants[i].slug != tenants[j].slug || tenants[i].slug.None?))
  }

  /**
   Without an override, the account derived for a tenant resolves to that tenant exactly when its
   slug is stored trimmed and is not blank.
   */
  lemma ResolutionInverse(override: Option<string>, tenants: seq<Tenant>, i: nat)
    requires TenantTable(tenants) && i < |tenants| && TrimmedOrEmpty(override) == ""
    ensures var t := tenants[i];
      ResolveTombstoneTenant(override, tenants, AccountIdOf(override, t)) == Matched(t.id) <==>
        t.slug.Some? && t.slug.value != "" && Trimmed(t.slug.value)
  {
    var t := tenants[i];
    var account := AccountIdOf(override, t);
    if t.slug.Some? { TrimMeaning(t.slug.value); }
    if t.publicId.Some? {
      TrimMeaning(t.publicId.value);
      TrimMeaning(Trim(t.publicId.value));
    }
    var k := BySlug(tenants, account);
    if k < |tenants| && tenants[k].id == t.id {
      assert k == i;
      assert t.slug == Some(account);
    }
    if t.slug == Some(account) && account != "" {
      assert forall j :: 0 <= j < i ==> tenants[j].slug != t.slug;
      assert k == i;
    }
  }

  /** No other tenant: distinct tenants with well-formed slugs have distinct accounts. */
  lemma AccountsDistinct(tenants: seq<Tenant>, i: nat, j: nat)
    requires TenantTable(tenants) && i < j < |tenants|
    requires forall k :: k in {i, j} ==>
      tenants[k].slug.Some? && tenants[k].slug.value != "" && Trimmed(tenants[k].slug.value)
    ensures AccountIdOf(None, tenants[i]) != AccountIdOf(None, tenants[j])
  {
    TrimMeaning(tenants[i].slug.value);
    TrimMeaning(tenants[j].slug.value);
  }

  /**
   An account that came from the publicId or the id belongs to no tenant unless it equals some
   slug; then, and only then, its tombstone is acked with nothing erased, whatever is enabled.
   */
  lemma FallbackAckedUnerased(
      eraseEnabled: bool, override: Option<string>, tenants: seq<Tenant>, t: Tenant, stone: Tombstone)
    requires TrimmedOrEmpty(override) == "" && TrimmedOrEmpty(t.slug) == "" &&
      stone.accountId == AccountIdOf(override, t)
    ensures Handle(eraseEnabled, ResolveTombstoneTenant(override, tenants, stone.accountId), stone) == [Ack(stone)] <==>
      forall k :: 0 <= k < |tenants| ==> tenants[k].slug != Some(stone.accountId)
  {
    var h := Handle(eraseEnabled, ResolveTombstoneTenant(override, tenants, stone.accountId), stone);
    var k := BySlug(tenants, stone.accountId);
    assert k < |tenants| ==> |h| == 2 || h[0] != Ack(stone);
  }

  /**
   With erasing enabled, an account tombstone has a tenant erased and is then acked exactly when the account is that
   tenant's slug, whichever tenant the account was derived for.
   */
  lemma OwnerErasedIff(
      eraseEnabled: bool, override: Option<string>, tenants: seq<Tenant>, k: nat, stone: Tombstone)
    requires TenantTable(tenants) && k < |tenants| && TrimmedOrEmpty(override) == ""
    ensures var h := Handle(eraseEnabled, ResolveTombstoneTenant(override, tenants, stone.accountId), stone);
      h == [Erase(tenants[k].id, stone), Ack(stone)] <==>
        eraseEnabled && stone.targetType == "account" && tenants[k].slug == Some(stone.accountId)
  {
    var i := BySlug(tenants, stone.accountId);
    if i < |tenants| && tenants[i].id == tenants[k].id { assert i == k; }
    if tenants[k].slug == Some(stone.accountId) { assert i == k; }
  }

  /**
   So the account derived for a tenant leads to another tenant exactly when it is the other's slug, and then the
   tenant's own slug is missing, blank or not stored trimmed.
   */
  lemma MisdirectedIff(override: Option<string>, tenants: seq<Tenant>, i: nat)
    requires TenantTable(tenants) && i < |tenants| && TrimmedOrEmpty(override) == ""
    ensures var t := tenants[i];
      var account := AccountIdOf(override, t);
      var found := ResolveTombstoneTenant(override, tenants, account);
      && (found.Matched? && found.tenantId != t.id <==>
           exists k :: 0 <= k < |tenants| && k != i && tenants[k].slug == Some(account))
      && (found.Matched? && found.tenantId != t.id ==>
           t.slug.None? || t.slug.value == "" || !Trimmed(t.slug.value))
  {
    hide AccountIdOf, TrimmedOrEmpty, Trimmed;
    ResolutionInverse(override, tenants, i);
    var account := AccountIdOf(override, tenants[i]);
    var k := BySlug(tenants, account);
    if m :| 0 <= m < |tenants| && m != i && tenants[m].slug == Some(account) { assert k == m; }
  }

  // ----- Resolution against the table that erasures empty ------------------------------------

  predicate Erased(done: seq<Action>, tenantId: string) {
    exists i :: 0 <= i < |done| && done[i].Erase? && done[i].tenantId == tenantId
  }

  /** The tenants table after these actions: an erasure deletes its tenant's row. */
  function Remaining(tenants: seq<Tenant>, done: seq<Action>): seq<Tenant> {
    if tenants == [] then []
    else (if Erased(done, tenants[0].id) then [] else [tenants[0]]) + Remaining(tenants[1..], done)
  }

  lemma {:induction false} RemainingHas(tenants: seq<Tenant>, done: seq<Action>, t: Tenant)
    ensures t in Remaining(tenants, done) <==> t in tenants && !Erased(done, t.id)
  {
    hide Erased;
    if tenants != [] {
      assert tenants == [tenants[0]] + tenants[1..];
      RemainingHas(tenants[1..], done, t);
    }
  }

  /** Every look-up of the page answers from the table as the run's own erasures have left it. */
  ghost predicate Live(
      override: Option<string>, tenants: seq<Tenant>, done: seq<Action>, setting: Setting, ts: seq<Tombstone>) {
    forall i :: 0 <= i < |ts| ==> ResolutionAt(setting, ts, i) == LiveAt(override, tenants, done, setting, ts, i)
  }

  ghost function LiveAt(
      override: Option<string>, tenants: seq<Tenant>, done: seq<Action>, setting: Setting, ts: seq<Tombstone>,
        i: nat): Resolution
    requires i < |ts|
  {
    ResolveTombstoneTenant(override, Remaining(tenants, done + HandleAll(setting, ts[..i])), ts[i].accountId)
  }

  ghost predicate LiveHistory(override: Option<string>, tenants: seq<Tenant>, d: Durable, runs: seq<Run>) {
    runs != [] ==>
      var before, last := runs[..|runs| - 1], runs[|runs| - 1];
      && LiveHistory(override, tenants, d, before)
      && Live(override, tenants, History(d, before).done, last.setting, last.feed.tombstones)
  }

  /** Under a deployment-wide override no history erases or acks anything. */
  lemma {:induction false} OverrideErasesNothing(
      override: Option<string>, tenants: seq<Tenant>, d: Durable, runs: seq<Run>, i: nat)
    requires TrimmedOrEmpty(override) != "" && LiveHistory(override, tenants, d, runs)
    requires |d.done| <= i < |History(d, runs).done|
    ensures History(d, runs).done[i].ReportSkipped? || History(d, runs).done[i].SetCursor?
  {
    hide RunSpec, Added, Remaining, HandleAll;
    var before, last := runs[..|runs| - 1], runs[|runs| - 1];
    var h := History(d, before);
    CursorStep(last, h);
    if i < |h.done| {
      OverrideErasesNothing(override, tenants, d, before, i);
    } else if !History(d, runs).done[i].SetCursor? {
      var j := AddedJustified(last, h, i - |h.done|);
      assert ResolutionAt(last.setting, last.feed.tombstones, j) == Ambiguous;
    }
  }

  /**
   The account of an erased tenant resolves to no tenant any more, so a further tombstone of it, on
   the same page or presented again after a crash, is acked.
   */
  lemma ErasedThenAcked(
      override: Option<string>, tenants: seq<Tenant>, done: seq<Action>, setting: Setting, ts: seq<Tombstone>, i: nat,
        k: nat)
    requires TenantTable(tenants) && TrimmedOrEmpty(override) == "" && k < |tenants|
    requires Live(override, tenants, done, setting, ts) && i < |ts| && tenants[k].slug == Some(ts[i].accountId)
    requires Erased(done + HandleAll(setting, ts[..i]), tenants[k].id)
    ensures ResolutionAt(setting, ts, i) == NoLocalTenant && HandleAt(setting, ts, i) == [Ack(ts[i])]
  {
    hide HandleAll, Erased, Remaining;
    var now := done + HandleAll(setting, ts[..i]);
    var left := Remaining(tenants, now);
    forall m | 0 <= m < |left| ensures left[m].slug != Some(ts[i].accountId) {
      RemainingHas(tenants, now, left[m]);
      var n :| 0 <= n < |tenants| && tenants[n] == left[m];
      assert n != k;
    }
    assert ResolutionAt(setting, ts, i) == LiveAt(override, tenants, done, setting, ts, i);
  }

  lemma FoundInTable(
      override: Option<string>, tenants: seq<Tenant>, done: seq<Action>, accountId: string) returns (k: nat)
    requires ResolveTombstoneTenant(override, Remaining(tenants, done), accountId).Matched?
    ensures k < |tenants| && tenants[k].slug == Some(accountId)
    ensures ResolveTombstoneTenant(override, Remaining(tenants, done), accountId) == Matched(tenants[k].id)
  {
    hide Erased, Remaining;
    var left := Remaining(tenants, done);
    var t := left[BySlug(left, accountId)];
    RemainingHas(tenants, done, t);
    k :| 0 <= k < |tenants| && tenants[k] == t;
  }

  /** End to end: over any history a tenant is erased only for a tombstone that names its own slug. */
  lemma {:induction false} ErasedOwnsAccount(
      override: Option<string>, tenants: seq<Tenant>, d: Durable, runs: seq<Run>, i: nat) returns (k: nat)
    requires LiveHistory(override, tenants, d, runs)
    requires |d.done| <= i < |History(d, runs).done| && History(d, runs).done[i].Erase?
    ensures var e := History(d, runs).done[i];
      k < |tenants| && tenants[k].id == e.tenantId && tenants[k].slug == Some(e.cause.accountId)
  {
    hide RunSpec, Added, Remaining, HandleAll;
    var before, last := runs[..|runs| - 1], runs[|runs| - 1];
    var h := History(d, before);
    CursorStep(last, h);
    CursorNeverDecreases(d, before);
    if i < |h.done| {
      k := ErasedOwnsAccount(override, tenants, d, before, i);
    } else {
      var j := AddedJustified(last, h, i - |h.done|);
      var ts := last.feed.tombstones;
      assert ResolutionAt(last.setting, ts, j) == LiveAt(override, tenants, h.done, last.setting, ts, j);
      k := FoundInTable(override, tenants, h.done + HandleAll(last.setting, ts[..j]), ts[j].accountId);
    }
  }

  // ----- Each tenant is erased at most once --------------------------------------------------

  ghost predicate ErasedOnce(done: seq<Action>) {
    forall i, j :: 0 <= i < j < |done| && done[i].Erase? && done[j].Erase? ==> done[i].tenantId != done[j].tenantId
  }

  /** What a look-up in the remaining table finds has not been erased. */
  lemma MatchedNotErased(
      override: Option<string>, tenants: seq<Tenant>, done: seq<Action>, accountId: string)
    ensures var r := ResolveTombstoneTenant(override, Remaining(tenants, done), accountId);
      r.Matched? ==> !Erased(done, r.tenantId)
  {
    hide Erased, Remaining;
    var left := Remaining(tenants, done);
    var k := BySlug(left, accountId);
    if k < |left| { RemainingHas(tenants, done, left[k]); }
  }

  lemma HandleOnce(done: seq<Action>, eraseEnabled: bool, resolution: Resolution, t: Tombstone)
    requires ErasedOnce(done) && (resolution.Matched? ==> !Erased(done, resolution.tenantId))
    ensures ErasedOnce(done + Handle(eraseEnabled, resolution, t))
  {
    hide AccountLevel;
    var all, n := done + Handle(eraseEnabled, resolution, t), |done|;
    assert forall i :: n <= i < |all| && all[i].Erase? ==> i == n && resolution == Matched(all[i].tenantId);
    assert forall i :: 0 <= i < n ==> all[i] == done[i];
  }

  lemma NothingHandled(setting: Setting)
    ensures HandleAll(setting, []) == []
  {
  }

  lemma HandleAtIs(setting: Setting, ts: seq<Tombstone>, i: nat)
    requires i < |ts|
    ensures HandleAt(setting, ts, i) == Handle(setting.eraseEnabled, ResolutionAt(setting, ts, i), ts[i])
  {
  }

  lemma {:induction false} PageErasesOnce(
      override: Option<string>, tenants: seq<Tenant>, done: seq<Action>, setting: Setting, ts: seq<Tombstone>, i: nat)
    requires Live(override, tenants, done, setting, ts) && i <= |ts| && ErasedOnce(done)
    ensures ErasedOnce(done + HandleAll(setting, ts[..i]))
  {
    hide ErasedOnce, Erased, Remaining, HandleAll, HandleAt, ResolveTombstoneTenant;
    if i == 0 {
      NothingHandled(setting);
      assert ts[..0] == [] && done + [] == done;
    } else {
      PageErasesOnce(override, tenants, done, setting, ts, i - 1);
      var now := done + HandleAll(setting, ts[..i - 1]);
      assert ResolutionAt(setting, ts, i - 1) == LiveAt(override, tenants, done, setting, ts, i - 1);
      MatchedNotErased(override, tenants, now, ts[i - 1].accountId);
      HandleOnce(now, setting.eraseEnabled, ResolutionAt(setting, ts, i - 1), ts[i - 1]);
      HandleSnoc(setting, ts, i - 1);
      assert done + HandleAll(setting, ts[..i]) == now + HandleAt(setting, ts, i - 1);
      HandleAtIs(setting, ts, i - 1);
    }
  }

  lemma ErasedOncePrefix(done: seq<Action>, all: seq<Action>, part: seq<Action>, cursor: Action)
    requires ErasedOnce(done + all) && cursor.SetCursor? && part <= all + [cursor]
    ensures ErasedOnce(done + part)
  {
    var longer := done + part;
    assert forall i :: 0 <= i < |longer| && longer[i].Erase? ==> i < |done + all| && longer[i] == (done + all)[i];
  }

  /** Over any history, with duplicates on a page and crashes in between, no tenant is erased twice. */
  lemma {:induction false} NeverErasedTwice(override: Option<string>, tenants: seq<Tenant>, d: Durable, runs: seq<Run>)
    requires LiveHistory(override, tenants, d, runs) && ErasedOnce(d.done)
    ensures ErasedOnce(History(d, runs).done)
  {
    if runs != [] {
      hide RunSpec, ErasedOnce, Live, HandleAll;
      var before, last := runs[..|runs| - 1], runs[|runs| - 1];
      var h, ts := History(d, before), last.feed.tombstones;
      NeverErasedTwice(override, tenants, d, before);
      CursorStep(last, h);
      PageErasesOnce(override, tenants, h.done, last.setting, ts, |ts|);
      assert ts[..|ts|] == ts;
      AddedIsPart(last, h);
      ErasedOncePrefix(h.done, HandleAll(last.setting, ts), Added(last, h), SetCursor(NextCursor(h.cursor, last.feed)));
    }
  }

  lemma AddedIsPart(r: Run, d: Durable)
    ensures Added(r, d) <= HandleAll(r.setting, r.feed.tombstones) + [SetCursor(NextCursor(d.cursor, r.feed))]
  {
    hide HandleAll;
  }

  // ----- Such look-ups exist -----------------------------------------------------------------

  /** The setting whose look-ups answer from a list. */
  function Answering(answers: seq<Resolution>, eraseEnabled: bool): Setting {
    Setting((n: nat, account: string) => if n < |answers| then answers[n] else NoLocalTenant, eraseEnabled)
  }

  lemma {:induction false} SameAnswers(a: Setting, b: Setting, ts: seq<Tombstone>)
    requires a.eraseEnabled == b.eraseEnabled
    requires forall i :: 0 <= i < |ts| ==> ResolutionAt(a, ts, i) == ResolutionAt(b, ts, i)
    ensures HandleAll(a, ts) == HandleAll(b, ts)
  {
    hide Handle;
    if ts != [] {
      var n := |ts| - 1;
      assert forall i :: 0 <= i < n ==> ResolutionAt(a, ts[..n], i) == ResolutionAt(a, ts, i);
      assert forall i :: 0 <= i < n ==> ResolutionAt(b, ts[..n], i) == ResolutionAt(b, ts, i);
      SameAnswers(a, b, ts[..n]);
      assert ResolutionAt(a, ts, n) == ResolutionAt(b, ts, n);
    }
  }

  lemma SameLive(
      override: Option<string>, tenants: seq<Tenant>, done: seq<Action>, a: Setting, b: Setting, ts: seq<Tombstone>,
        i: nat)
    requires a.eraseEnabled == b.eraseEnabled && i < |ts|
    requires forall m :: 0 <= m < i ==> ResolutionAt(a, ts, m) == ResolutionAt(b, ts, m)
    ensures LiveAt(override, tenants, done, a, ts, i) == LiveAt(override, tenants, done, b, ts, i)
  {
    hide ResolveTombstoneTenant, Remaining, HandleAll;
    var upTo := ts[..i];
    assert forall m :: 0 <= m < i ==> ResolutionAt(a, upTo, m) == ResolutionAt(a, ts, m);
    assert forall m :: 0 <= m < i ==> ResolutionAt(b, upTo, m) == ResolutionAt(b, ts, m);
    SameAnswers(a, b, upTo);
  }

  lemma LivePrefix(
      override: Option<string>, tenants: seq<Tenant>, done: seq<Action>, s: Setting, ts: seq<Tombstone>, n: nat, i: nat)
    requires i < n <= |ts| && Live(override, tenants, done, s, ts[..n])
    ensures ResolutionAt(s, ts, i) == LiveAt(override, tenants, done, s, ts, i)
  {
    hide ResolveTombstoneTenant, Remaining, HandleAll;
    assert ts[..n][..i] == ts[..i];
    assert ResolutionAt(s, ts[..n], i) == LiveAt(override, tenants, done, s, ts[..n], i);
  }

  lemma AnswersInOrder(answers: seq<Resolution>, eraseEnabled: bool, ts: seq<Tombstone>)
    requires |answers| <= |ts|
    ensures var s := Answering(answers, eraseEnabled);
      s.eraseEnabled == eraseEnabled && forall i :: 0 <= i < |answers| ==> ResolutionAt(s, ts, i) == answers[i]
  {
  }

  // The answers so far, and the live one for tombstone i when it is the next.
  lemma LiveAnswer(
      override: Option<string>, tenants: seq<Tenant>, done: seq<Action>, ts: seq<Tombstone>, eraseEnabled: bool,
      before: seq<Resolution>, next: Resolution, i: nat)
    requires i < |ts| == |before| + 1
    requires Live(override, tenants, done, Answering(before, eraseEnabled), ts[..|before|])
    requires next == LiveAt(override, tenants, done, Answering(before, eraseEnabled), ts, |before|)
    ensures var s' := Answering(before + [next], eraseEnabled);
      ResolutionAt(s', ts, i) == LiveAt(override, tenants, done, s', ts, i)
  {
    hide Live, LiveAt, ResolutionAt, Answering;
    var s, s' := Answering(before, eraseEnabled), Answering(before + [next], eraseEnabled);
    AnswersInOrder(before, eraseEnabled, ts);
    AnswersInOrder(before + [next], eraseEnabled, ts);
    SameLive(override, tenants, done, s, s', ts, i);
    if i < |before| { LivePrefix(override, tenants, done, s, ts, |before|, i); }
  }

  /** For every table, page and switch there is a run whose look-ups are live. */
  lemma {:induction false} LiveExists(
      override: Option<string>, tenants: seq<Tenant>, done: seq<Action>, ts: seq<Tombstone>, eraseEnabled: bool)
      returns (answers: seq<Resolution>)
    ensures |answers| == |ts| && Live(override, tenants, done, Answering(answers, eraseEnabled), ts)
  {
    if ts == [] {
      answers := [];
    } else {
      hide LiveAt, ResolutionAt, Answering;
      var n := |ts| - 1;
      var before := LiveExists(override, tenants, done, ts[..n], eraseEnabled);
      var next := LiveAt(override, tenants, done, Answering(before, eraseEnabled), ts, n);
      answers := before + [next];
      forall i | 0 <= i < |ts|
        ensures var s := Answering(answers, eraseEnabled);
          ResolutionAt(s, ts, i) == LiveAt(override, tenants, done, s, ts, i)
      {
        LiveAnswer(override, tenants, done, ts, eraseEnabled, before, next, i);
      }
    }
  }
}
