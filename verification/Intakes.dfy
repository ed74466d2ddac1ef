/** The intake that knowledge sync builds for an approved item. */
module Intakes {
  import opened Strings
  import Accounts

  const MAX_TITLE := 200
  const MAX_CONTENT := 20000
  const DEFAULT_TITLE := "Approved knowledge"
  const MARKER := "\n[truncated]"

  datatype Item = Item(
    id: string, documentId: string, sourceId: string, title: Option<string>, content: string,
    tags: seq<string>, approved: bool, createdAt: Option<string>, updatedAt: Option<string>, metadata: string)

  datatype Env = Env(accountId: Option<string>, spaceId: Option<string>)

  datatype Scope = Scope(tenantId: string, accountId: string, spaceId: Option<string>)

  /** Facts passed along with the text; dates are already printed. */
  datatype Facts = Facts(
    tenantId: string, publicId: Option<string>, slug: Option<string>, name: Option<string>,
    knowledgeId: string, documentId: string, sourceId: string, tags: seq<string>, approved: bool,
    createdAt: Option<string>, updatedAt: Option<string>, localMetadata: string)

  datatype Intake = Intake(scope: Scope, title: string, content: string, sourceRef: string, facts: Facts)

  /** s.slice(0, end), where a negative end counts from the back. */
  function SliceTo(s: string, end: int): string {
    if end >= |s| then s
    else if end >= 0 then s[..end]
    else if |s| + end > 0 then s[..|s| + end]
    else ""
  }

  function ClampText(value: string, cap: int): string {
    var trimmed := Trim(value);
    if |trimmed| <= cap then trimmed else TrimEnd(SliceTo(trimmed, cap - 12)) + MARKER
  }

  function ClampTitle(title: Option<string>): string {
    var clamped := ClampText(if title.Some? then title.value else DEFAULT_TITLE, MAX_TITLE);
    if clamped == "" then DEFAULT_TITLE else clamped
  }

  function ScopeOf(tenant: Accounts.Tenant, env: Env): Scope {
    var space := Accounts.TrimmedOrEmpty(env.spaceId);
    Scope(tenant.id, Accounts.AccountIdOf(env.accountId, tenant), if space == "" then None else Some(space))
  }

  function SourceRef(tenantId: string, itemId: string): string {
    "communication:tenant:" + tenantId + ":knowledge:" + itemId
  }

  function SerializeDate(date: Option<string>): Option<string> {
    if date == Some("") then None else date
  }

  function BuildIntake(tenant: Accounts.Tenant, item: Item, env: Env): Option<Intake> {
    var content := ClampText(item.content, MAX_CONTENT);
    if content == "" then None
    else
      Some(Intake(
        ScopeOf(tenant, env), ClampTitle(item.title), content, SourceRef(tenant.id, item.id),
        Facts(tenant.id, tenant.publicId, tenant.slug, tenant.name, item.id, item.documentId, item.sourceId, item.tags,
              item.approved, SerializeDate(item.createdAt), SerializeDate(item.updatedAt), item.metadata)))
  }

  /** s is the marker behind the first p characters of whole: its first n without the white space at their end. */
  predicate CutAt(whole: string, s: string, n: nat, p: nat) {
    && p <= n <= |whole| && s == whole[..p] + MARKER
    && (p > 0 ==> !IsSpace(whole[p - 1])) && forall i :: p <= i < n ==> IsSpace(whole[i])
  }

  ghost predicate IsCut(whole: string, s: string, n: nat) {
    exists p: nat :: 0 < p && CutAt(whole, s, n, p)
  }

  /** The trimmed text when it fits, and otherwise the marker behind what is left of its first cap - 12 characters. */
  ghost predicate Clamped(value: string, s: string, cap: nat)
    requires cap > 12
  {
    if |Trim(value)| <= cap then s == Trim(value) else IsCut(Trim(value), s, cap - 12)
  }

  /** Under any cap above 12, clamped text is trimmed, fits, and is the text itself or a cut of it. */
  lemma ClampMeaning(value: string, cap: nat)
    requires cap > 12
    ensures var r := ClampText(value, cap);
      && Clamped(value, r, cap) && Trimmed(r) && |r| <= cap
      && (r == "" <==> Trim(value) == "")
  {
    hide Trim, TrimEnd, IsSpace;
    TrimMeaning(value);
    var t := Trim(value);
    if |t| > cap { CutMeaning(t, cap - 12); }
  }

  lemma CutMeaning(t: string, n: nat)
    requires Trimmed(t) && 0 < n <= |t|
    ensures var r := TrimEnd(SliceTo(t, n)) + MARKER;
      IsCut(t, r, n) && Trimmed(r) && r != "" && |r| <= n + 12
  {
    hide IsSpace;
    var cut := SliceTo(t, n);
    assert cut == t[..n] && cut[0] == t[0];
    TrimEndMeaning(cut);
    MarkerEnds();
    var p := |TrimEnd(cut)|;
    assert TrimEnd(cut) == t[..p];
    assert CutAt(t, TrimEnd(cut) + MARKER, n, p);
  }

  lemma MarkerEnds()
    ensures |MARKER| == 12 && IsSpace(MARKER[0]) && !IsSpace(MARKER[11])
  {
  }

  predicate StaysClamped(value: string, cap: int) {
    var r := ClampText(value, cap);
    |r| <= cap && ClampText(r, cap) == r
  }

  /** Exactly the caps above 12, the length of the marker, are kept and reached in one step, for every text. */
  lemma ClampStableIff(cap: nat)
    ensures (forall value :: StaysClamped(value, cap)) <==> cap > 12
  {
    if cap > 12 {
      forall value ensures StaysClamped(value, cap) {
        ClampMeaning(value, cap);
        TrimMeaning(ClampText(value, cap));
      }
    } else {
      var value := seq(13, _ => 'a');
      TrimMeaning(value);
      ShortCapFails(value, cap);
    }
  }

  lemma ShortCapFails(value: string, cap: nat)
    requires |value| == 13 && Trim(value) == value && cap <= 12
    requires forall i :: 0 <= i < 13 ==> !IsSpace(value[i])
    ensures !StaysClamped(value, cap)
  {
    hide IsSpace, TrimStart, TrimEnd, Trim;
    var cut := SliceTo(value, cap - 12);
    TrimEndMeaning(cut);
    assert |cut| == (if cap == 12 then 0 else cap + 1) && forall i :: 0 <= i < |cut| ==> cut[i] == value[i];
    assert cut != "" ==> !IsSpace(cut[|cut| - 1]);
    assert TrimEnd(cut) == cut;
    MarkerEnds();
    if cap == 12 {
      assert ClampText(value, cap) == "" + MARKER == MARKER;
      TrimMeaning(MARKER);
    }
  }

  /** The first of override, slug and publicId that is not blank, trimmed, and otherwise the id. */
  predicate IsAccount(override: Option<string>, tenant: Accounts.Tenant, account: string) {
    if override.Some? && Trim(override.value) != "" then account == Trim(override.value)
    else if tenant.slug.Some? && Trim(tenant.slug.value) != "" then account == Trim(tenant.slug.value)
    else if tenant.publicId.Some? && Trim(tenant.publicId.value) != "" then account == Trim(tenant.publicId.value)
    else account == tenant.id
  }

  /** A date that is missing or empty is not passed on. */
  predicate IsDate(date: Option<string>, printed: Option<string>) {
    if date.Some? && date.value != "" then printed == date else printed.None?
  }

  /** The intake is the tenant's own and carries the item's own text, title and facts. */
  ghost predicate Carries(tenant: Accounts.Tenant, item: Item, env: Env, intake: Intake) {
    && intake.content != "" && Clamped(item.content, intake.content, 20000)
    && (if item.title.Some? && Trim(item.title.value) != "" then Clamped(item.title.value, intake.title, 200)
        else intake.title == "Approved knowledge")
    && intake.scope.tenantId == tenant.id && IsAccount(env.accountId, tenant, intake.scope.accountId)
    && (if env.spaceId.Some? && Trim(env.spaceId.value) != "" then intake.scope.spaceId == Some(Trim(env.spaceId.value))
        else intake.scope.spaceId.None?)
    && intake.sourceRef == "communication:tenant:" + tenant.id + ":knowledge:" + item.id
    && var facts := intake.facts;
    && facts.tenantId == tenant.id && facts.publicId == tenant.publicId
    && facts.slug == tenant.slug && facts.name == tenant.name
    && facts.knowledgeId == item.id && facts.documentId == item.documentId && facts.sourceId == item.sourceId
    && facts.tags == item.tags && facts.approved == item.approved && facts.localMetadata == item.metadata
    && IsDate(item.createdAt, facts.createdAt) && IsDate(item.updatedAt, facts.updatedAt)
  }

  /** An item is skipped exactly when its content is white space; otherwise its intake carries what it should. */
  lemma IntakeMeaning(tenant: Accounts.Tenant, item: Item, env: Env)
    ensures var r := BuildIntake(tenant, item, env);
      && (r.None? <==> Trim(item.content) == "")
      && (r.Some? ==> Carries(tenant, item, env, r.value))
      && (r.Some? ==> Clean(r.value.content, 20000) && Clean(r.value.title, 200))
  {
    hide Clamped, IsAccount, IsDate, ScopeOf, SerializeDate, ClampText;
    ClampMeaning(item.content, MAX_CONTENT);
    ClampMeaning(if item.title.Some? then item.title.value else DEFAULT_TITLE, MAX_TITLE);
    DefaultIsClean();
    ScopeMeaning(tenant, env);
    DateMeaning(item.createdAt);
    DateMeaning(item.updatedAt);
    var title := if item.title.Some? then item.title.value else DEFAULT_TITLE;
    if item.title.None? { ClampDefault(); }
  }

  lemma DefaultIsClean()
    ensures Clean(DEFAULT_TITLE, MAX_TITLE)
  {
  }

  lemma ClampDefault()
    ensures ClampText(DEFAULT_TITLE, MAX_TITLE) == DEFAULT_TITLE
  {
    TrimMeaning(DEFAULT_TITLE);
  }

  lemma ScopeMeaning(tenant: Accounts.Tenant, env: Env)
    ensures var scope := ScopeOf(tenant, env);
      && scope.tenantId == tenant.id && IsAccount(env.accountId, tenant, scope.accountId)
      && (if env.spaceId.Some? && Trim(env.spaceId.value) != "" then scope.spaceId == Some(Trim(env.spaceId.value))
          else scope.spaceId.None?)
  {
    hide Trim;
  }

  lemma DateMeaning(date: Option<string>)
    ensures IsDate(date, SerializeDate(date))
  {
  }

  predicate Clean(s: string, cap: int) { s != "" && Trimmed(s) && |s| <= cap }

  /** Two items of a tenant with the same intake are the same item, with the same tags and, when it fits, content. */
  lemma SameIntake(tenant: Accounts.Tenant, a: Item, b: Item, env: Env)
    requires BuildIntake(tenant, a, env).Some? && BuildIntake(tenant, a, env) == BuildIntake(tenant, b, env)
    ensures a.id == b.id && a.documentId == b.documentId && a.sourceId == b.sourceId
    ensures a.tags == b.tags && a.metadata == b.metadata
    ensures |Trim(a.content)| <= 20000 && |Trim(b.content)| <= 20000 ==> Trim(a.content) == Trim(b.content)
  {
    hide Trim, IsAccount, IsDate, BuildIntake;
    IntakeMeaning(tenant, a, env);
    IntakeMeaning(tenant, b, env);
  }

  /** The texts agree up to some point, behind which both are blank. */
  ghost predicate SameUpToBlanks(x: string, y: string) {
    exists p: nat :: BlankFrom(x, p) && BlankFrom(y, p) && x[..p] == y[..p]
  }

  predicate BlankFrom(s: string, p: nat) { p <= |s| && forall i :: p <= i < |s| ==> IsSpace(s[i]) }

  lemma TrimEndAt(s: string, p: nat)
    requires BlankFrom(s, p)
    ensures TrimEnd(s) == TrimEnd(s[..p])
  {
    hide IsSpace;
    TrimEndMeaning(s);
    TrimEndMeaning(s[..p]);
    var a, b := TrimEnd(s), TrimEnd(s[..p]);
    assert a != "" ==> a[|a| - 1] == s[|a| - 1];
    assert b != "" ==> b[|b| - 1] == s[|b| - 1];
    assert |a| == |b|;
    assert a == s[..|a|] && b == s[..|b|];
  }

  lemma TrimEndAlikeIff(x: string, y: string)
    ensures TrimEnd(x) == TrimEnd(y) <==> SameUpToBlanks(x, y)
  {
    hide IsSpace;
    if TrimEnd(x) == TrimEnd(y) {
      TrimEndMeaning(x);
      TrimEndMeaning(y);
      var p := |TrimEnd(x)|;
      assert BlankFrom(x, p) && BlankFrom(y, p) && x[..p] == y[..p];
    }
    if p: nat :| BlankFrom(x, p) && BlankFrom(y, p) && x[..p] == y[..p] {
      TrimEndAt(x, p);
      TrimEndAt(y, p);
    }
  }

  /**
   Changing a content that does not fit to another that does not leaves the intake as it was, and so unsent, exactly
   when their first 19988 characters agree up to the white space at their end.
   */
  lemma LongChangeUnseenIff(tenant: Accounts.Tenant, item: Item, content: string, env: Env)
    requires |Trim(item.content)| > 20000 && |Trim(content)| > 20000
    ensures BuildIntake(tenant, item.(content := content), env) == BuildIntake(tenant, item, env) <==>
      SameUpToBlanks(Trim(item.content)[..19988], Trim(content)[..19988])
  {
    hide Trim, TrimEnd, ScopeOf, ClampTitle, SourceRef, SameUpToBlanks;
    TrimEndAlikeIff(Trim(item.content)[..19988], Trim(content)[..19988]);
    var a, b := TrimEnd(Trim(item.content)[..19988]), TrimEnd(Trim(content)[..19988]);
    MarkerEnds();
    assert a + MARKER == b + MARKER ==> a == b by {
      if a + MARKER == b + MARKER { assert a == (a + MARKER)[..|a + MARKER| - 12] == b; }
    }
    assert a + MARKER != "" && b + MARKER != "";
  }

  lemma PartsApart(start: string, a: string, itemA: string, b: string, itemB: string, middle: string)
    requires a == b || (middle != "" && middle[0] !in a && middle[0] !in b)
    requires start + a + middle + itemA == start + b + middle + itemB
    ensures a == b && itemA == itemB
  {
    var x, y := start + a + middle + itemA, start + b + middle + itemB;
    var n := |start|;
    assert forall i :: 0 <= i < |a| ==> x[n + i] == a[i];
    assert forall i :: 0 <= i < |b| ==> y[n + i] == b[i];
    assert middle != "" ==> x[n + |a|] == middle[0] && y[n + |b|] == middle[0];
    assert |a| == |b|;
    assert a == x[n..n + |a|] && b == y[n..n + |b|];
    assert itemA == x[n + |a| + |middle|..] && itemB == y[n + |b| + |middle|..];
  }

  /** Source references differ between items, and between tenants whose ids have no colon. */
  lemma SourceRefInjective(tenantA: string, itemA: string, tenantB: string, itemB: string)
    requires tenantA == tenantB || (':' !in tenantA && ':' !in tenantB)
    ensures SourceRef(tenantA, itemA) == SourceRef(tenantB, itemB) <==> tenantA == tenantB && itemA == itemB
  {
    if SourceRef(tenantA, itemA) == SourceRef(tenantB, itemB) {
      PartsApart("communication:tenant:", tenantA, itemA, tenantB, itemB, ":knowledge:");
    }
  }
}
