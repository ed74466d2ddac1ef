/** What the engine guarantees about its answers, for every store, embedder and generator. */
module Grounding {
  import opened Strings
  import opened Ranking
  import opened Engine

  // ----- Policy ------------------------------------------------------------------------------

  /** Too long, or mentioning a blocked topic: a default one or one of the tenant's. */
  ghost predicate Disallowed(o: EngineOptions, input: InboundMessage, stored: TenantPolicy) {
    var message := o.ops.normalize(input.text);
    || |message| > stored.maxMessageLength
    || (exists t ::
         t in o.defaultBlockedTopics + stored.blockedTopics && t.enabled && o.ops.containsPhrase(message, t.terms))
  }

  predicate OnlyHandoffs(effects: seq<Effect>) {
    |effects| <= 1 && forall i :: 0 <= i < |effects| ==> effects[i].CreateHandoff?
  }

  function ProceedTrace(o: EngineOptions, input: InboundMessage): seq<TraceStep> {
    [TraceStep(NormalizeStep, if o.ops.normalize(input.text) == "" then Failed else Passed, NoDetail),
     TraceStep(BlockedTopicStep, Passed, NoDetail)]
  }

  /** The preflight lets a message through exactly when the policy in force allows it. */
  lemma PreflightIff(o: EngineOptions, input: InboundMessage, stores: Stores)
    ensures var (r, effects) := PreflightSpec(o, input, stores);
      && OnlyHandoffs(effects)
      && (r.Returned? && r.value.Proceed? <==> stores.policy.Returned? && !Disallowed(o, input, stores.policy.value))
      && (r.Returned? && r.value.Proceed? ==>
           && effects == [] && r.value.normalized == o.ops.normalize(input.text)
           && r.value.policy == LoadPolicy(o, stores.policy.value) && r.value.trace == ProceedTrace(o, input))
      && (r.Returned? && r.value.Refusal? ==> !r.value.result.status.Answered?)
  {
    if stores.policy.Returned? {
      var stored, message := stores.policy.value, o.ops.normalize(input.text);
      var topics := o.defaultBlockedTopics + stored.blockedTopics;
      assert LoadPolicy(o, stored).blockedTopics == topics;
      var blocked := FindBlockedTopic(o.ops, message, topics);
      assert blocked.Some? <==> exists t :: t in topics && t.enabled && o.ops.containsPhrase(message, t.terms) by {
        if t :| t in topics && t.enabled && o.ops.containsPhrase(message, t.terms) {
          var i :| 0 <= i < |topics| && topics[i] == t;
        }
      }
    }
  }

  // ----- Grounding ---------------------------------------------------------------------------

  /** The message was embedded, so the store was searched with its embedding. */
  predicate SearchedSemantically(stores: Stores) {
    && stores.hasEmbeddings && stores.embedding.Returned?
    && stores.embedding.value.Some? && stores.embedding.value.value != []
  }

  /** A keyword match of the store's chunks, or a semantic match above the similarity floor. */
  ghost predicate Evidence(o: EngineOptions, message: string, stores: Stores, hit: Retrieved) {
    || (stores.keyword.Returned? && hit.chunk in stores.keyword.value
        && Matched(o.ops, message, hit.chunk, hit.score))
    || (SearchedSemantically(stores) && stores.semantic.Returned? && hit in stores.semantic.value
        && hit.score >= o.semanticMinSimilarity)
  }

  predicate UpToFullStop(text: string, answer: string) { text == answer || text == answer + "." }

  /** What the generator returned, once sanitised. */
  function Generation(stores: Stores): Option<string> {
    if stores.generator.Some? && stores.generator.value.Returned?
    then SanitizeGroundedAnswer(stores.generator.value.value) else None
  }

  ghost predicate ApprovedText(text: string, best: Chunk, stores: Stores) {
    || (ExtractGroundedAnswer(best) != "" && UpToFullStop(text, ExtractGroundedAnswer(best)))
    || (Generation(stores).Some? && SafeGeneration(Generation(stores).value) &&
      UpToFullStop(text, Generation(stores).value))
  }

  ghost predicate GoodGenerate(e: Effect, best: Retrieved, threshold: real) {
    e.Generate? ==>
      && 1 <= |e.chunks| <= 3 && e.chunks[0] == best && e.fallbackAnswer == ExtractGroundedAnswer(best.chunk)
      && forall i :: 0 <= i < |e.chunks| ==> e.chunks[i].score >= threshold
  }

  ghost predicate GroundedIn(r: AnswerResult, effects: seq<Effect>, best: Retrieved, threshold: real, stores: Stores) {
    && best.score >= threshold && r.confidence == best.score
    && r.citations == [CitationOf(best.chunk)]
    && ApprovedText(r.text, best.chunk, stores)
    && forall e :: e in effects ==> GoodGenerate(e, best, threshold)
  }

  lemma RespondGrounded(o: EngineOptions, input: InboundMessage, pre: Preflight, intent: Intent,
                        keyword: seq<Retrieved>, semantic: seq<Retrieved>,
                        trace: seq<TraceStep>, stores: Stores)
    requires pre.Proceed?
    ensures var ranked := MergeRanked(keyword, semantic);
      var (r, effects) := RespondSpec(o, input, pre, intent, ranked, trace, stores);
      && (r.Returned? && r.value.status.Answered? ==>
           ranked != [] && GroundedIn(r.value, effects, ranked[0], pre.policy.confidenceThreshold, stores))
      && |effects| <= 1 && forall e :: e in effects ==> e.CreateHandoff? || e.Generate?
  {
    hide MergeRanked, ExtractGroundedAnswer, SafeGeneration, Supporting, IsDirectTelephoneAnswer, RefusalFor;
    var ranked, threshold := MergeRanked(keyword, semantic), pre.policy.confidenceThreshold;
    if ranked != [] && ranked[0].score >= threshold {
      var name := if intent.allowed then IntentName(intent.name) else ApprovedKnowledge;
      var supporting := Supporting(ranked, threshold);
      SupportingIsPrefix(keyword, semantic, threshold);
    }
  }

  lemma {:induction false} AtLeastMeaning(chunks: seq<Retrieved>, floor: real, r: Retrieved)
    ensures r in AtLeast(chunks, floor) <==> r in chunks && r.score >= floor
  {
    if chunks != [] { AtLeastMeaning(chunks[1..], floor, r); }
  }

  lemma RetrievedIsEvidence(o: EngineOptions, message: string, stores: Stores, hit: Retrieved)
    requires stores.keyword.Returned? && SemanticSpec(o, stores).0.Returned?
    requires hit in RankChunks(o.ops, message, stores.keyword.value) + SemanticSpec(o, stores).0.value
    ensures Evidence(o, message, stores, hit)
  {
    RankedChunks(o.ops, message, stores.keyword.value, hit);
    if stores.semantic.Returned? { AtLeastMeaning(stores.semantic.value, o.semanticMinSimilarity, hit); }
  }

  // The best chunk's score comes from one retrieved hit and its text and citation from another.
  lemma BestHasEvidence(o: EngineOptions, message: string, stores: Stores)
    returns (hit: Retrieved, first: Retrieved)
    requires stores.keyword.Returned? && SemanticSpec(o, stores).0.Returned?
    requires RankedSpec(o, message, stores.keyword.value, SemanticSpec(o, stores).0.value) != []
    ensures var best := RankedSpec(o, message, stores.keyword.value, SemanticSpec(o, stores).0.value)[0];
      && Evidence(o, message, stores, hit) && hit.chunk.id == best.chunk.id && hit.score == best.score
      && Evidence(o, message, stores, first) && first.chunk == best.chunk
  {
    hide SemanticSpec, RankChunks, Evidence, MergeRanked, IsMergeOf;
    var keyword, semantic := RankChunks(o.ops, message, stores.keyword.value), SemanticSpec(o, stores).0.value;
    MergeHolds(keyword, semantic);
    hit, first := MergeWitness(keyword + semantic, MergeRanked(keyword, semantic)[0]);
    RetrievedIsEvidence(o, message, stores, hit);
    RetrievedIsEvidence(o, message, stores, first);
  }

  /** How many of the calls are of the given kind. */
  function Count(effects: seq<Effect>, kind: Effect -> bool): nat {
    if effects == [] then 0 else (if kind(effects[0]) then 1 else 0) + Count(effects[1..], kind)
  }

  predicate IsAsk(e: Effect) { e.Ask? }
  predicate IsLocalAnswer(e: Effect) { e.LocalAnswer? }
  predicate IsHandoff(e: Effect) { e.CreateHandoff? }
  predicate IsGenerate(e: Effect) { e.Generate? }

  lemma {:induction false} CountConcat(a: seq<Effect>, b: seq<Effect>, kind: Effect -> bool)
    ensures Count(a + b, kind) == Count(a, kind) + Count(b, kind)
  {
    if a == [] {
      assert a + b == b;
    } else {
      assert (a + b)[1..] == a[1..] + b;
      CountConcat(a[1..], b, kind);
    }
  }

  lemma {:induction false} CountNone(effects: seq<Effect>, kind: Effect -> bool)
    requires forall e :: e in effects ==> !kind(e)
    ensures Count(effects, kind) == 0
  {
    if effects != [] { CountNone(effects[1..], kind); }
  }

  lemma {:induction false} CountShort(effects: seq<Effect>, kind: Effect -> bool)
    ensures Count(effects, kind) <= |effects|
  {
    if effects != [] { CountShort(effects[1..], kind); }
  }

  /** A local answer's calls: no provider call, and a handoff or a generation at most once. */
  ghost predicate LocalCalls(effects: seq<Effect>) {
    && Count(effects, IsHandoff) + Count(effects, IsGenerate) <= 1
    && Count(effects, IsAsk) == 0 && Count(effects, IsLocalAnswer) == 0
  }

  lemma FailuresThenOne(failures: seq<Effect>, rest: seq<Effect>)
    requires forall e :: e in failures ==> e.SemanticFailure?
    requires |rest| <= 1 && forall e :: e in rest ==> e.CreateHandoff? || e.Generate?
    ensures LocalCalls(failures + rest)
  {
    CountConcat(failures, rest, IsHandoff);
    CountConcat(failures, rest, IsGenerate);
    CountNone(failures, IsHandoff);
    CountNone(failures, IsGenerate);
    CountNone(failures + rest, IsAsk);
    CountNone(failures + rest, IsLocalAnswer);
    if rest != [] { assert rest[1..] == []; }
  }

  lemma AllowedGrounded(o: EngineOptions, input: InboundMessage, pre: Preflight, stores: Stores)
    requires pre.Proceed?
    ensures var (r, effects) := AllowedSpec(o, input, pre, stores);
      && LocalCalls(effects)
      && (r.Returned? && r.value.status.Answered? ==>
           && stores.keyword.Returned? && SemanticSpec(o, stores).0.Returned?
           && var ranked := RankedSpec(o, pre.normalized, stores.keyword.value, SemanticSpec(o, stores).0.value);
           ranked != [] && GroundedIn(r.value, effects, ranked[0], pre.policy.confidenceThreshold, stores))
  {
    hide RankChunks, BestIntent, RespondSpec, MergeRanked, ApprovedText, LocalCalls;
    var (semantic, failures) := SemanticSpec(o, stores);
    if stores.keyword.Threw? || semantic.Threw? {
      assert failures + [] == failures;
      FailuresThenOne(failures, []);
    } else {
      var intent := BestIntent(o.ops, pre.normalized, pre.policy.allowedIntents);
      var keyword := RankChunks(o.ops, pre.normalized, stores.keyword.value);
      var trace := pre.trace + [IntentStep(intent)] + RetrieveStep(semantic.value);
      RespondGrounded(o, input, pre, intent, keyword, semantic.value, trace, stores);
      var ranked := MergeRanked(keyword, semantic.value);
      FailuresThenOne(failures, RespondSpec(o, input, pre, intent, ranked, trace, stores).1);
    }
  }

  lemma AnswerCalls(o: EngineOptions, input: InboundMessage, stores: Stores)
    ensures LocalCalls(AnswerSpec(o, input, stores).1)
    ensures !(stores.policy.Returned? && !Disallowed(o, input, stores.policy.value)) ==>
      && Count(AnswerSpec(o, input, stores).1, IsGenerate) == 0
      && (AnswerSpec(o, input, stores).0.Returned? ==> !AnswerSpec(o, input, stores).0.value.status.Answered?)
  {
    hide AllowedSpec, PreflightSpec, Disallowed;
    PreflightIff(o, input, stores);
    var (pre, effects) := PreflightSpec(o, input, stores);
    if pre.Returned? && pre.value.Proceed? {
      AllowedGrounded(o, input, pre.value, stores);
      assert [] + AllowedSpec(o, input, pre.value, stores).1 == AllowedSpec(o, input, pre.value, stores).1;
    } else {
      assert [] + effects == effects;
      FailuresThenOne([], effects);
      CountNone(effects, IsGenerate);
    }
  }

  /**
   An answered message is allowed by the policy, is backed by a retrieved hit at or above the
   tenant's threshold, cites that hit's chunk and no other, and carries its approved answer or a
   safe generation made from chunks at or above the threshold.
   */
  lemma GroundingSound(o: EngineOptions, input: InboundMessage, stores: Stores)
    returns (best: Retrieved, hit: Retrieved, first: Retrieved)
    requires AnswerSpec(o, input, stores).0.Returned? && AnswerSpec(o, input, stores).0.value.status.Answered?
    ensures stores.policy.Returned? && !Disallowed(o, input, stores.policy.value)
    ensures var message := o.ops.normalize(input.text);
      && Evidence(o, message, stores, hit) && hit.chunk.id == best.chunk.id && hit.score == best.score
      && Evidence(o, message, stores, first) && first.chunk == best.chunk
    ensures var (r, effects) := AnswerSpec(o, input, stores);
      GroundedIn(r.value, effects, best, stores.policy.value.confidenceThreshold, stores)
  {
    hide AllowedSpec, PreflightSpec, SemanticSpec, RankChunks, MergeRanked, Disallowed, Evidence, GroundedIn,
      LocalCalls;
    PreflightIff(o, input, stores);
    var pre := PreflightSpec(o, input, stores).0.value;
    AllowedGrounded(o, input, pre, stores);
    hit, first := BestHasEvidence(o, pre.normalized, stores);
    best := RankedSpec(o, pre.normalized, stores.keyword.value, SemanticSpec(o, stores).0.value)[0];
    var all := AllowedSpec(o, input, pre, stores).1;
    assert AnswerSpec(o, input, stores).1 == [] + all == all;
  }
}
