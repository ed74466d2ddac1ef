/** Exactly when a message is answered, refused or handed off, and with what. */
module Answering {
  import opened Strings
  import opened Ranking
  import opened Engine
  import opened Grounding

  // ----- What the stores and the policy decide -----------------------------------------------

  /** Both searches come back: the semantic one only throws through its error hook. */
  predicate Retrieves(stores: Stores) {
    && stores.keyword.Returned?
    && !(stores.hasEmbeddings && stores.semanticHookThrows &&
         (stores.embedding.Threw? || (SearchedSemantically(stores) && stores.semantic.Threw?)))
  }

  function FoundSemantically(o: EngineOptions, stores: Stores): seq<Retrieved> {
    if SearchedSemantically(stores) && stores.semantic.Returned?
    then AtLeast(stores.semantic.value, o.semanticMinSimilarity) else []
  }

  /** The merged hits of both searches, best first. */
  function Hits(o: EngineOptions, input: InboundMessage, stores: Stores): seq<Retrieved>
    requires stores.keyword.Returned?
  {
    RankedSpec(o, o.ops.normalize(input.text), stores.keyword.value, FoundSemantically(o, stores))
  }

  /** Some hit with evidence reaches the threshold. */
  ghost predicate Backed(o: EngineOptions, input: InboundMessage, stores: Stores, threshold: real) {
    exists hit :: Evidence(o, o.ops.normalize(input.text), stores, hit) && hit.score >= threshold
  }

  /** The chunk has an approved answer or any content at all. */
  predicate HasText(c: Chunk) {
    (c.answer.Some? && Trim(c.answer.value) != "") || Trim(c.content) != ""
  }

  /** A short approved answer to a telephone caller, which is spoken as it is when the engine prefers that. */
  predicate Direct(o: EngineOptions, input: InboundMessage, c: Chunk) {
    && o.preferDirectTelephoneAnswers && input.channel == "telephone"
    && c.answer.Some? && 0 < |Trim(c.answer.value)| <= 360
  }

  predicate GeneratorBreaks(stores: Stores) {
    stores.generator.Some? && stores.generator.value.Threw? && stores.generatorHookThrows
  }

  /** The conditions for an answer. */
  ghost predicate Answers(o: EngineOptions, input: InboundMessage, stores: Stores) {
    && stores.policy.Returned? && !Disallowed(o, input, stores.policy.value)
    && Retrieves(stores) && Backed(o, input, stores, stores.policy.value.confidenceThreshold)
    && var hits := Hits(o, input, stores);
    hits != [] && HasText(hits[0].chunk) && (Direct(o, input, hits[0].chunk) || !GeneratorBreaks(stores))
  }

  /** The i-th topic in force is the first enabled one that the message mentions. */
  ghost predicate FirstBlocked(o: EngineOptions, message: string, topics: seq<BlockedTopic>, i: nat) {
    && i < |topics| && topics[i].enabled && o.ops.containsPhrase(message, topics[i].terms)
    && forall j :: 0 <= j < i ==> !(topics[j].enabled && o.ops.containsPhrase(message, topics[j].terms))
  }

  function IntentsInForce(o: EngineOptions, stored: TenantPolicy): seq<AllowedIntent> {
    if stored.allowedIntents == [] then o.defaultIntents else stored.allowedIntents
  }

  /** Some enabled intent scores on the message. */
  ghost predicate Classified(o: EngineOptions, input: InboundMessage, stored: TenantPolicy) {
    exists a ::
      a in IntentsInForce(o, stored) && a.enabled && IntentScore(o.ops, o.ops.normalize(input.text), a) > 0.0
  }

  /** The conditions for a refusal of the message, for this reason and with this text. */
  ghost predicate Refuses(o: EngineOptions, input: InboundMessage, stores: Stores, reason: Reason, text: string) {
    && stores.policy.Returned?
    && var message, stored := o.ops.normalize(input.text), stores.policy.value;
    if |message| > stored.maxMessageLength then reason == MessageLength && text == o.wording(TooLong)
    else if Disallowed(o, input, stored) then
      exists i: nat :: FirstBlocked(o, message, o.defaultBlockedTopics + stored.blockedTopics, i)
        && RefusesTopic(o, (o.defaultBlockedTopics + stored.blockedTopics)[i], reason, text)
    else
      && Retrieves(stores) && text == o.wording(if SpeaksGerman(input) then NoInformationGerman else NoInformation)
      && if !Backed(o, input, stores, stored.confidenceThreshold)
         then reason == if Classified(o, input, stored) then KnowledgeNotFound else IntentNotAllowed
         else
           var hits := Hits(o, input, stores);
           hits != [] && !HasText(hits[0].chunk) && reason == AnswerValidationFailed
  }

  predicate RefusesTopic(o: EngineOptions, topic: BlockedTopic, reason: Reason, text: string) {
    && reason == Topic(topic.name)
    && text == if topic.response.Some? then topic.response.value else o.wording(OnlyThisBusiness)
  }

  predicate SpeaksGerman(input: InboundMessage) {
    && input.locale.Some? && |input.locale.value| >= 2
    && input.locale.value[0] in {'d', 'D'} && input.locale.value[1] in {'e', 'E'}
  }

  // ----- What comes out ----------------------------------------------------------------------

  /** The text before the tone: the safe generation, or else the chunk's own. */
  function AnswerText(o: EngineOptions, input: InboundMessage, stores: Stores, best: Chunk): string {
    if Direct(o, input, best) || Generation(stores).None? then ExtractGroundedAnswer(best) else Generation(stores).value
  }

  predicate Toned(text: string, answer: string, tone: Tone) {
    if tone == Friendly && (answer == "" || answer[|answer| - 1] !in {'.', '!', '?'}) then text == answer + "."
    else text == answer
  }

  predicate UsageOf(usage: Usage, input: string, output: string) {
    var n := |input| + |output|;
    && usage.inputCharacters == |input| && usage.outputCharacters == |output|
    && 0 <= 1000 * usage.estimatedCredits - n < 1000
  }

  ghost predicate LabelOf(o: EngineOptions, input: InboundMessage, stored: TenantPolicy, shown: IntentLabel) {
    exists best ::
      && IsBestIntent(o.ops, o.ops.normalize(input.text), IntentsInForce(o, stored), best)
      && shown == if best.allowed then IntentName(best.name) else ApprovedKnowledge
  }

  predicate Cites(citation: Citation, c: Chunk) {
    && citation.chunkId == c.id && citation.documentId == c.documentId && citation.sourceId == c.sourceId
    && citation.title == if c.title == Some("") then None else c.title
  }

  /** The steps in front of retrieval, for a message that the policy allows. */
  function AdmittedTrace(o: EngineOptions, input: InboundMessage, stores: Stores): seq<TraceStep>
    requires stores.policy.Returned?
  {
    var message, found := o.ops.normalize(input.text), FoundSemantically(o, stores);
    var intent := BestIntent(o.ops, message, IntentsInForce(o, stores.policy.value));
    ProceedTrace(o, input)
    + [if intent.allowed then TraceStep(IntentPolicy, Passed, Name(intent.name))
       else TraceStep(IntentPolicy, Skipped, UnknownTryApprovedKnowledge)]
    + if found == [] then [] else [TraceStep(SemanticRetrieval, Passed, Number(|found| as real))]
  }

  /** Why the generator's text was not used, if it was not. */
  function GeneratedStep(stores: Stores): TraceStep {
    if stores.generator.None? then TraceStep(GroundedGeneration, Skipped, NotConfigured)
    else if stores.generator.value.Threw? then TraceStep(GroundedGeneration, Skipped, Error)
    else if Generation(stores).None? then TraceStep(GroundedGeneration, Skipped, EmptyOrUnsafe)
    else TraceStep(GroundedGeneration, Passed, Model)
  }

  /** Which text was used, and why not the generator's. */
  function GenerationStep(o: EngineOptions, input: InboundMessage, stores: Stores, best: Chunk): TraceStep {
    if Direct(o, input, best) then TraceStep(GroundedGeneration, Skipped, DirectTelephoneAnswer)
    else GeneratedStep(stores)
  }

  function AnsweredSteps(o: EngineOptions, input: InboundMessage, stores: Stores, best: Retrieved): seq<TraceStep> {
    [TraceStep(RetrieveKnowledge, Passed, Number(best.score)), GenerationStep(o, input, stores, best.chunk),
     TraceStep(GenerateGroundedAnswerStep, Passed, NoDetail), TraceStep(ValidateAnswer, Passed, NoDetail)]
  }

  function BestScore(ranked: seq<Retrieved>): real { if ranked == [] then 0.0 else ranked[0].score }

  function WeakStep(ranked: seq<Retrieved>): TraceStep {
    TraceStep(RetrieveKnowledge, Failed, if ranked == [] then NoChunks else Number(ranked[0].score))
  }

  function EmptySteps(score: real): seq<TraceStep> {
    [TraceStep(RetrieveKnowledge, Passed, Number(score)), TraceStep(ValidateAnswer, Failed, EmptyGroundedAnswer)]
  }

  /** The steps up to a refusal. */
  function RefusedTrace(o: EngineOptions, input: InboundMessage, stores: Stores, reason: Reason): seq<TraceStep>
    requires stores.policy.Returned?
  {
    var first := TraceStep(NormalizeStep, if o.ops.normalize(input.text) == "" then Failed else Passed, NoDetail);
    match reason
    case MessageLength => [first]
    case Topic(name) => [first, TraceStep(BlockedTopicStep, Failed, Name(name))]
    case _ =>
      var hits := if stores.keyword.Returned? then Hits(o, input, stores) else [];
      AdmittedTrace(o, input, stores) +
      if reason.AnswerValidationFailed? then EmptySteps(BestScore(hits)) else [WeakStep(hits)]
  }

  ghost predicate AnsweredAs(o: EngineOptions, input: InboundMessage, stores: Stores, r: AnswerResult)
    requires stores.policy.Returned? && stores.keyword.Returned?
  {
    var hits := Hits(o, input, stores);
    hits != [] &&
    var best, answer := hits[0], AnswerText(o, input, stores, hits[0].chunk);
    && r.status == Answered && r.tenantId == input.tenantId && r.channel == input.channel
    && Toned(r.text, answer, stores.policy.value.tone) && r.confidence == best.score
    && LabelOf(o, input, stores.policy.value, r.intent)
    && |r.citations| == 1 && Cites(r.citations[0], best.chunk)
    && !r.handoffRecommended && r.handoffReason.None?
    && UsageOf(r.usage, o.ops.normalize(input.text), answer)
    && r.trace == AdmittedTrace(o, input, stores) + AnsweredSteps(o, input, stores, best)
  }

  /** A handoff is created exactly when the policy escalates, creates requests, and there is a store for them. */
  predicate Creates(stores: Stores, stored: TenantPolicy) {
    stored.escalationEnabled && stored.createHandoffRequest && stores.handoff.Some?
  }

  predicate RefusedAs(input: InboundMessage, stored: TenantPolicy, reason: Reason, text: string, r: AnswerResult) {
    && r.status == (if stored.escalationEnabled then Handoff else Refused)
    && r.tenantId == input.tenantId && r.channel == input.channel && r.text == text && r.confidence == 0.0
    && r.intent == Refusing(reason) && r.citations == []
    && r.handoffRecommended == stored.escalationEnabled && r.handoffReason == Some(reason)
    && UsageOf(r.usage, input.text, text)
  }

  /** The handoffs among the calls are n of this kind, and nothing is generated. */
  ghost predicate HandoffsAre(effects: seq<Effect>, reason: Reason, message: string, n: nat) {
    && Count(effects, IsHandoff) == n
    && forall e :: e in effects ==> !e.Generate? && (e.CreateHandoff? ==> e == CreateHandoff(reason, message))
  }

  /** The generator is called, if it is, once, for the question, the label, the best text and the supporting hits. */
  ghost predicate GeneratesFrom(o: EngineOptions, input: InboundMessage, stores: Stores, effects: seq<Effect>)
    requires stores.policy.Returned? && stores.keyword.Returned?
  {
    var hits := Hits(o, input, stores);
    hits != [] &&
    var best := hits[0].chunk;
    && Count(effects, IsGenerate) == (if Direct(o, input, best) || stores.generator.None? then 0 else 1)
    && forall e :: e in effects && e.Generate? ==>
         && e.question == input.text && LabelOf(o, input, stores.policy.value, e.intent)
         && e.fallbackAnswer == ExtractGroundedAnswer(best)
         && SupportedBy(hits, stores.policy.value.confidenceThreshold, e.chunks)
  }

  /** The hits at or above the threshold, at most the best three. */
  predicate SupportedBy(hits: seq<Retrieved>, threshold: real, chunks: seq<Retrieved>) {
    && chunks <= hits && 0 < |chunks| <= 3 && (forall i :: 0 <= i < |chunks| ==> chunks[i].score >= threshold)
    && (|chunks| < 3 && |chunks| < |hits| ==> hits[|chunks|].score < threshold)
  }

  /** A refusal throws exactly when creating its handoff does. */
  ghost predicate RefusedOutcome(input: InboundMessage, stored: TenantPolicy, stores: Stores, reason: Reason,
                                 text: string, trace: seq<TraceStep>, r: Outcome<AnswerResult>, effects: seq<Effect>)
  {
    && (r.Threw? <==> Creates(stores, stored) && stores.handoff.value.Threw?)
    && (r.Returned? ==>
         && RefusedAs(input, stored, reason, text, r.value)
         && r.value.trace == trace +
              if Creates(stores, stored) then [TraceStep(HandoffRequest, Passed, Because(reason))] else [])
    && HandoffsAre(effects, reason, input.text, if Creates(stores, stored) then 1 else 0)
  }

  // ----- Retrieval ---------------------------------------------------------------------------

  lemma SemanticMeaning(o: EngineOptions, stores: Stores)
    ensures var (semantic, calls) := SemanticSpec(o, stores);
      && (stores.keyword.Returned? ==> (semantic.Returned? <==> Retrieves(stores)))
      && (semantic.Returned? ==> semantic.value == FoundSemantically(o, stores))
      && forall i :: 0 <= i < |calls| ==> calls[i].SemanticFailure?
  {
  }

  lemma EvidenceIsHit(o: EngineOptions, input: InboundMessage, stores: Stores, hit: Retrieved)
    requires stores.keyword.Returned?
    ensures var message := o.ops.normalize(input.text);
      Evidence(o, message, stores, hit) <==>
        hit in RankChunks(o.ops, message, stores.keyword.value) + FoundSemantically(o, stores)
  {
    hide RankChunks, AtLeast, Matched;
    RankedChunks(o.ops, o.ops.normalize(input.text), stores.keyword.value, hit);
    if stores.semantic.Returned? { AtLeastMeaning(stores.semantic.value, o.semanticMinSimilarity, hit); }
  }

  /** The best hit has the largest score with evidence. */
  lemma BackedIff(o: EngineOptions, input: InboundMessage, stores: Stores, threshold: real)
    requires stores.keyword.Returned?
    ensures var hits := Hits(o, input, stores);
      Backed(o, input, stores, threshold) <==> hits != [] && hits[0].score >= threshold
  {
    hide RankChunks, FoundSemantically, Evidence, MergeRanked, IsMergeOf;
    var message, hits := o.ops.normalize(input.text), Hits(o, input, stores);
    var keyword, semantic := RankChunks(o.ops, message, stores.keyword.value), FoundSemantically(o, stores);
    MergeHolds(keyword, semantic);
    if hits != [] && hits[0].score >= threshold {
      var hit, _ := MergeWitness(keyword + semantic, hits[0]);
      EvidenceIsHit(o, input, stores, hit);
    }
    if hit :| Evidence(o, message, stores, hit) && hit.score >= threshold {
      EvidenceIsHit(o, input, stores, hit);
      var i :| 0 <= i < |keyword + semantic| && (keyword + semantic)[i] == hit;
      BestIsLargest(keyword, semantic, i);
    }
  }

  lemma BestIsLargest(keyword: seq<Retrieved>, semantic: seq<Retrieved>, i: nat)
    requires i < |keyword + semantic|
    ensures var ranked := MergeRanked(keyword, semantic);
      ranked != [] && ranked[0].score >= (keyword + semantic)[i].score
  {
    hide Values, Merged, IsMergeOf, HigherScore;
    var all, ranked := keyword + semantic, MergeRanked(keyword, semantic);
    var r := RankedHas(all, all[i].chunk.id);
    RankedIsMerge(all, r);
    MergeIsLargest(all, r, i);
    var j :| 0 <= j < |ranked| && ranked[j] == r;
    if j > 0 { MergeOrder(keyword, semantic, 0, j); }
  }

  lemma MergeIsLargest(all: seq<Retrieved>, r: Retrieved, i: nat)
    requires IsMergeOf(all, r) && i < |all| && all[i].chunk.id == r.chunk.id
    ensures r.score >= all[i].score
  {
  }

  // ----- The chunk's text --------------------------------------------------------------------

  lemma BlankIff(s: string)
    ensures Trim(s) == "" <==> forall i :: 0 <= i < |s| ==> IsSpace(s[i])
  {
    hide IsSpace;
    TrimStartMeaning(s);
    TrimEndMeaning(TrimStart(s));
  }

  lemma {:induction false} SectionIsEnd(content: string, i: nat)
    requires i <= |content|
    ensures var section := AnswerSection(content, i);
      section.Some? ==> |section.value| <= |content| && section.value == content[|content| - |section.value|..]
    decreases |content| - i
  {
    hide LowerAscii;
    if i < |content| && !AnswerHeadAt(content, i) { SectionIsEnd(content, i + 1); }
  }

  lemma TextIff(c: Chunk)
    ensures ExtractGroundedAnswer(c) != "" <==> HasText(c)
  {
    hide IsSpace, Trim;
    SectionIsEnd(c.content, 0);
    var section := AnswerSection(c.content, 0);
    if section.Some? && Trim(section.value) != "" {
      BlankIff(section.value);
      BlankIff(c.content);
      var i :| 0 <= i < |section.value| && !IsSpace(section.value[i]);
      assert !IsSpace(c.content[|c.content| - |section.value| + i]);
    }
  }

  /** A line starts with "Answer:" here, in any case, and something follows. */
  predicate HeadAt(content: string, k: nat) {
    && k + 7 < |content| && (k == 0 || content[k - 1] == '\n')
    && content[k] in {'A', 'a'} && content[k + 1] in {'N', 'n'} && content[k + 2] in {'S', 's'}
    && content[k + 3] in {'W', 'w'} && content[k + 4] in {'E', 'e'} && content[k + 5] in {'R', 'r'}
    && content[k + 6] == ':'
  }

  predicate FirstHead(content: string, k: nat) {
    HeadAt(content, k) && forall j: nat :: j < k ==> !HeadAt(content, j)
  }

  lemma {:induction false} LowerAt(s: string, i: nat)
    requires i < |s|
    ensures |LowerAscii(s)| == |s|
    ensures LowerAscii(s)[i] == if 'A' <= s[i] <= 'Z' then ((s[i] as int) + 32) as char else s[i]
  {
    if i > 0 { LowerAt(s[1..], i - 1); } else { LowerLength(s); }
  }

  lemma {:induction false} LowerLength(s: string)
    ensures |LowerAscii(s)| == |s|
  {
    if s != "" { LowerLength(s[1..]); }
  }

  lemma HeadIff(content: string, k: nat)
    ensures HeadAt(content, k) <==> AnswerHeadAt(content, k)
  {
    hide LowerAscii;
    if k + 7 < |content| {
      var s := content[k..k + 7];
      LowerLength(s);
      forall i | 0 <= i < 7
        ensures LowerAscii(s)[i] ==
          if 'A' <= content[k + i] <= 'Z' then ((content[k + i] as int) + 32) as char else content[k + i]
      {
        LowerAt(s, i);
      }
      SevenLetters(LowerAscii(s));
    }
  }

  lemma SevenLetters(s: string)
    requires |s| == 7
    ensures s == "answer:" <==>
      s[0] == 'a' && s[1] == 'n' && s[2] == 's' && s[3] == 'w' && s[4] == 'e' && s[5] == 'r' && s[6] == ':'
  {
  }

  lemma {:induction false} SectionFrom(content: string, i: nat)
    requires i <= |content| && forall j: nat :: j < i ==> !HeadAt(content, j)
    ensures forall k :: FirstHead(content, k) ==> AnswerSection(content, i) == Some(content[k + 7..])
    ensures (forall k :: !HeadAt(content, k)) ==> AnswerSection(content, i).None?
    decreases |content| - i
  {
    hide HeadAt, AnswerHeadAt;
    if i < |content| {
      HeadIff(content, i);
      HeadBounds(content, i);
      if !HeadAt(content, i) { SectionFrom(content, i + 1); }
    } else {
      forall k | HeadAt(content, k) ensures false { HeadBounds(content, k); }
    }
  }

  lemma HeadBounds(content: string, k: nat)
    ensures HeadAt(content, k) ==> k + 7 < |content|
  {
  }

  /**
   A chunk's text is its approved answer, or else what follows the first "Answer:" that starts a line, or else its
   content; the first of them that is not blank, trimmed.
   */
  lemma ExtractMeaning(c: Chunk, k: nat)
    ensures c.answer.Some? && Trim(c.answer.value) != "" ==> ExtractGroundedAnswer(c) == Trim(c.answer.value)
    ensures !(c.answer.Some? && Trim(c.answer.value) != "") && FirstHead(c.content, k) ==>
      ExtractGroundedAnswer(c) ==
        if Trim(c.content[k + 7..]) != "" then Trim(c.content[k + 7..]) else Trim(c.content)
    ensures !(c.answer.Some? && Trim(c.answer.value) != "") && (forall j :: !HeadAt(c.content, j)) ==>
      ExtractGroundedAnswer(c) == Trim(c.content)
  {
    hide Trim, HeadAt;
    HeadBounds(c.content, k);
    SectionFrom(c.content, 0);
  }

  lemma DirectIff(o: EngineOptions, input: InboundMessage, c: Chunk)
    requires ExtractGroundedAnswer(c) != ""
    ensures Direct(o, input, c) <==>
      o.preferDirectTelephoneAnswers && IsDirectTelephoneAnswer(input, c, ExtractGroundedAnswer(c))
  {
    hide Trim, AnswerSection;
  }

  // ----- The generator's text ----------------------------------------------------------------

  predicate Blank(s: string) { forall i :: 0 <= i < |s| ==> IsSpace(s[i]) }

  /** Nothing or one quotation mark. */
  predicate MaybeQuote(q: string) { q in {"", "\"", "'"} }

  lemma TrimAround(a: string, t: string, b: string)
    requires Blank(a) && Blank(b) && Trimmed(t)
    ensures Trim(a + t + b) == t
  {
    hide IsSpace, Trim;
    var s := a + t + b;
    TrimIsExact(s);
    assert s[|a|..|a| + |t|] == t;
    assert TrimmedAt(s, t, |a|, |a| + |t|);
  }

  lemma StripAround(q: string, s: string, r: string)
    requires MaybeQuote(q) && MaybeQuote(r) && s != ""
    requires (q == "" ==> !IsQuote(s[0])) && (r == "" ==> !IsQuote(s[|s| - 1]))
    ensures StripQuotes(q + s + r) == s
  {
    var t := q + s + r;
    var u := if q == "" then t else t[1..];
    assert u == s + r;
  }

  /**
   A generation is used without the white space and the quotation marks around it, if it then is at most 900
   characters long and free of the sentinel.
   */
  lemma SanitizeMeaning(a: string, q: string, b: string, t: string, c: string, r: string, d: string)
    requires Blank(a) && Blank(b) && Blank(c) && Blank(d) && MaybeQuote(q) && MaybeQuote(r)
    requires t != "" && Trimmed(t)
    requires (q == "" ==> b == "" && !IsQuote(t[0])) && (r == "" ==> c == "" && !IsQuote(t[|t| - 1]))
    ensures SanitizeGroundedAnswer(Some(a + (q + (b + t + c) + r) + d)) ==
      if |t| <= 900 && !Includes(t, "__NO_GROUNDED_ANSWER__") then Some(t) else None
  {
    hide IsSpace, Trim, StripQuotes, Includes;
    var inner := b + t + c;
    QuoteIsNoSpace(q);
    QuoteIsNoSpace(r);
    TrimAround(a, q + inner + r, d);
    StripAround(q, inner, r);
    TrimAround(b, t, c);
  }

  lemma QuoteIsNoSpace(q: string)
    requires MaybeQuote(q)
    ensures q != "" ==> !IsSpace(q[0])
  {
  }

  // ----- The steps ---------------------------------------------------------------------------

  lemma RefuseMeaning(
      input: InboundMessage, policy: TenantPolicy, trace: seq<TraceStep>, reason: Reason, text: string, stores: Stores)
    ensures var (r, effects) := RefuseSpec(input, policy, trace, reason, text, stores.handoff);
      RefusedOutcome(input, policy, stores, reason, text, trace, r, effects)
  {
    var (r, effects) := RefuseSpec(input, policy, trace, reason, text, stores.handoff);
    if effects != [] { assert effects[1..] == []; }
    assert HandoffsAre(effects, reason, input.text, if Creates(stores, policy) then 1 else 0);
    assert r.Threw? <==> Creates(stores, policy) && stores.handoff.value.Threw?;
    assert r.Returned? ==> UsageOf(r.value.usage, input.text, text);
  }

  lemma GermanLetters(s: string)
    requires |s| == 2
    ensures LowerAscii(s) == "de" <==> s[0] in {'d', 'D'} && s[1] in {'e', 'E'}
  {
    assert s == [s[0]] + [s[1]] && s[1..] == [s[1]] && s[1..][1..] == [];
    assert LowerAscii(s[1..]) == [LowerAscii(s[1..])[0]];
    assert LowerAscii(s) == [LowerAscii(s)[0], LowerAscii(s[1..])[0]];
  }

  lemma GermanIff(o: EngineOptions, input: InboundMessage)
    ensures RefusalFor(o, input.locale) == o.wording(if SpeaksGerman(input) then NoInformationGerman else NoInformation)
  {
    if input.locale.Some? && |input.locale.value| >= 2 { GermanLetters(input.locale.value[..2]); }
  }

  lemma GenerateMeaning(
      input: InboundMessage, intent: IntentLabel, fallback: string, chunks: seq<Retrieved>, stores: Stores)
    ensures var (r, effects) := GenerateSpec(input, intent, fallback, chunks, stores);
      && (r.Threw? <==> GeneratorBreaks(stores))
      && (r.Returned? ==> r.value.0 == if Generation(stores).Some? then Generation(stores).value else fallback)
      && (r.Returned? ==> r.value.1 == GeneratedStep(stores))
      && effects == if stores.generator.None? then [] else [Generate(input.text, intent, fallback, chunks)]
  {
    hide SanitizeGroundedAnswer;
  }

  lemma AnsweredFields(input: InboundMessage, normalized: string, tone: Tone, best: Retrieved, answer: string,
                       intent: IntentLabel, trace: seq<TraceStep>)
    ensures var r := AnsweredWith(input, normalized, tone, best, answer, intent, trace);
      && r.status == Answered && r.tenantId == input.tenantId && r.channel == input.channel
      && Toned(r.text, answer, tone) && r.confidence == best.score && r.intent == intent
      && |r.citations| == 1 && Cites(r.citations[0], best.chunk)
      && !r.handoffRecommended && r.handoffReason.None? && UsageOf(r.usage, normalized, answer) && r.trace == trace
  {
  }

  predicate Weak(ranked: seq<Retrieved>, threshold: real) { ranked == [] || ranked[0].score < threshold }

  lemma RespondWeak(o: EngineOptions, input: InboundMessage, pre: Preflight, intent: Intent,
                    ranked: seq<Retrieved>, trace: seq<TraceStep>, stores: Stores)
    requires pre.Proceed? && Weak(ranked, pre.policy.confidenceThreshold)
    ensures var (r, effects) := RespondSpec(o, input, pre, intent, ranked, trace, stores);
      RefusedOutcome(input, pre.policy, stores, if intent.allowed then KnowledgeNotFound else IntentNotAllowed,
                     RefusalFor(o, input.locale), trace + [WeakStep(ranked)], r, effects)
  {
    hide RefuseSpec, RefusedOutcome, RefusalFor;
    RefuseMeaning(input, pre.policy, trace + [WeakStep(ranked)],
                  if intent.allowed then KnowledgeNotFound else IntentNotAllowed, RefusalFor(o, input.locale), stores);
  }

  lemma RespondEmpty(o: EngineOptions, input: InboundMessage, pre: Preflight, intent: Intent,
                     ranked: seq<Retrieved>, trace: seq<TraceStep>, stores: Stores)
    requires pre.Proceed? && !Weak(ranked, pre.policy.confidenceThreshold) && !HasText(ranked[0].chunk)
    ensures var (r, effects) := RespondSpec(o, input, pre, intent, ranked, trace, stores);
      RefusedOutcome(input, pre.policy, stores, AnswerValidationFailed, RefusalFor(o, input.locale),
                     trace + EmptySteps(ranked[0].score), r, effects)
  {
    hide RefuseSpec, RefusedOutcome, RefusalFor, ExtractGroundedAnswer;
    TextIff(ranked[0].chunk);
    var found := trace + [TraceStep(RetrieveKnowledge, Passed, Number(ranked[0].score))];
    RefuseMeaning(input, pre.policy, found + [TraceStep(ValidateAnswer, Failed, EmptyGroundedAnswer)],
                  AnswerValidationFailed, RefusalFor(o, input.locale), stores);
    assert found + [TraceStep(ValidateAnswer, Failed, EmptyGroundedAnswer)] == trace + EmptySteps(ranked[0].score);
  }

  function Supported(ranked: seq<Retrieved>, threshold: real): seq<Retrieved>
    requires ranked != []
  {
    var supporting := Supporting(ranked, threshold);
    if supporting != [] then supporting else [ranked[0]]
  }

  function GenerateCall(input: InboundMessage, intent: Intent, best: Chunk, chunks: seq<Retrieved>): Effect {
    Generate(input.text, if intent.allowed then IntentName(intent.name) else ApprovedKnowledge,
             ExtractGroundedAnswer(best), chunks)
  }

  lemma RespondStrong(o: EngineOptions, input: InboundMessage, pre: Preflight, intent: Intent,
                      ranked: seq<Retrieved>, trace: seq<TraceStep>, stores: Stores)
    requires pre.Proceed? && !Weak(ranked, pre.policy.confidenceThreshold) && HasText(ranked[0].chunk)
    ensures var (r, effects) := RespondSpec(o, input, pre, intent, ranked, trace, stores);
      var best, answer := ranked[0], AnswerText(o, input, stores, ranked[0].chunk);
      && effects == (if Direct(o, input, best.chunk) || stores.generator.None? then []
                     else [GenerateCall(input, intent, best.chunk, Supported(ranked, pre.policy.confidenceThreshold))])
      && (r.Threw? <==> !Direct(o, input, best.chunk) && GeneratorBreaks(stores))
      && (r.Returned? ==>
           r.value == AnsweredWith(input, pre.normalized, pre.policy.tone, best, answer,
                                   if intent.allowed then IntentName(intent.name) else ApprovedKnowledge,
                                   trace + AnsweredSteps(o, input, stores, best)))
  {
    hide RefuseSpec, RefusalFor, ExtractGroundedAnswer, GenerateSpec, Generation, IsDirectTelephoneAnswer, Direct,
      GeneratorBreaks, GeneratedStep, ApplyTone, CitationOf, EstimateUsage, Supporting;
    var best, policy := ranked[0], pre.policy;
    TextIff(best.chunk);
    DirectIff(o, input, best.chunk);
    var name := if intent.allowed then IntentName(intent.name) else ApprovedKnowledge;
    var chunks := Supported(ranked, policy.confidenceThreshold);
    var fallback := ExtractGroundedAnswer(best.chunk);
    GenerateMeaning(input, name, fallback, chunks, stores);
    var (r, effects) := RespondSpec(o, input, pre, intent, ranked, trace, stores);
    var (g, calls) := GenerateSpec(input, name, fallback, chunks, stores);
    if !Direct(o, input, best.chunk) {
      assert effects == calls;
      assert r.Threw? <==> g.Threw?;
    }
    if r.Returned? { assert r.value.trace == trace + AnsweredSteps(o, input, stores, best); }
  }

  // ----- The whole answer --------------------------------------------------------------------

  lemma AnswerTooLong(o: EngineOptions, input: InboundMessage, stores: Stores)
    requires stores.policy.Returned? && |o.ops.normalize(input.text)| > stores.policy.value.maxMessageLength
    ensures var (r, effects) := AnswerSpec(o, input, stores);
      RefusedOutcome(input, stores.policy.value, stores, MessageLength, o.wording(TooLong),
                     RefusedTrace(o, input, stores, MessageLength), r, effects)
  {
    hide RefuseSpec, AllowedSpec;
    var normalized, policy := o.ops.normalize(input.text), LoadPolicy(o, stores.policy.value);
    var trace := [TraceStep(NormalizeStep, if normalized != "" then Passed else Failed, NoDetail)];
    RefuseMeaning(input, policy, trace, MessageLength, o.wording(TooLong), stores);
  }

  lemma FirstBlockedIs(o: EngineOptions, message: string, topics: seq<BlockedTopic>, i: nat)
    requires FirstBlocked(o, message, topics, i)
    ensures FindBlockedTopic(o.ops, message, topics) == Some(topics[i])
  {
    if i > 0 {
      assert FirstBlocked(o, message, topics[1..], i - 1);
      FirstBlockedIs(o, message, topics[1..], i - 1);
    }
  }

  lemma SomeFirstBlocked(o: EngineOptions, input: InboundMessage, stored: TenantPolicy) returns (i: nat)
    requires Disallowed(o, input, stored) && |o.ops.normalize(input.text)| <= stored.maxMessageLength
    ensures FirstBlocked(o, o.ops.normalize(input.text), o.defaultBlockedTopics + stored.blockedTopics, i)
  {
    var message, topics := o.ops.normalize(input.text), o.defaultBlockedTopics + stored.blockedTopics;
    var t :| t in topics && t.enabled && o.ops.containsPhrase(message, t.terms);
    var k :| 0 <= k < |topics| && topics[k] == t;
    i := 0;
    while !(topics[i].enabled && o.ops.containsPhrase(message, topics[i].terms))
      invariant i <= k
      invariant forall j :: 0 <= j < i ==> !(topics[j].enabled && o.ops.containsPhrase(message, topics[j].terms))
      decreases k - i
    {
      i := i + 1;
    }
  }

  lemma AnswerBlocked(o: EngineOptions, input: InboundMessage, stores: Stores, i: nat)
    requires stores.policy.Returned? && |o.ops.normalize(input.text)| <= stores.policy.value.maxMessageLength
    requires var topics := o.defaultBlockedTopics + stores.policy.value.blockedTopics;
      FirstBlocked(o, o.ops.normalize(input.text), topics, i)
    ensures var topic := (o.defaultBlockedTopics + stores.policy.value.blockedTopics)[i];
      var (r, effects) := AnswerSpec(o, input, stores);
      RefusedOutcome(input, stores.policy.value, stores, Topic(topic.name),
                     if topic.response.Some? then topic.response.value else o.wording(OnlyThisBusiness),
                     RefusedTrace(o, input, stores, Topic(topic.name)), r, effects)
  {
    hide RefuseSpec, AllowedSpec;
    var normalized, policy := o.ops.normalize(input.text), LoadPolicy(o, stores.policy.value);
    var topics := o.defaultBlockedTopics + stores.policy.value.blockedTopics;
    FirstBlockedIs(o, normalized, topics, i);
    var trace := [TraceStep(NormalizeStep, if normalized != "" then Passed else Failed, NoDetail)];
    var blocked := TraceStep(BlockedTopicStep, Failed, Name(topics[i].name));
    RefuseMeaning(input, policy, trace + [blocked], Topic(topics[i].name), BlockedResponse(o, topics[i]), stores);
  }

  lemma IntentMeaning(o: EngineOptions, input: InboundMessage, stored: TenantPolicy)
    ensures var intent := BestIntent(o.ops, o.ops.normalize(input.text), LoadPolicy(o, stored).allowedIntents);
      && (intent.allowed <==> Classified(o, input, stored))
      && LabelOf(o, input, stored, if intent.allowed then IntentName(intent.name) else ApprovedKnowledge)
  {
    hide IntentScore;
    var message, intents := o.ops.normalize(input.text), IntentsInForce(o, stored);
    assert LoadPolicy(o, stored).allowedIntents == intents;
    BestIntentIsBest(o.ops, message, intents);
    if a :| a in intents && a.enabled && IntentScore(o.ops, message, a) > 0.0 {
      var i :| 0 <= i < |intents| && intents[i] == a;
    }
  }

  lemma CallsAfter(failures: seq<Effect>, rest: seq<Effect>, reason: Reason, message: string, n: nat)
    requires forall e :: e in failures ==> e.SemanticFailure?
    requires HandoffsAre(rest, reason, message, n)
    ensures HandoffsAre(failures + rest, reason, message, n)
  {
    CountConcat(failures, rest, IsHandoff);
    CountNone(failures, IsHandoff);
  }

  /** A message that the policy allows, of a policy that is read. */
  ghost predicate Admitted(o: EngineOptions, input: InboundMessage, stores: Stores) {
    stores.policy.Returned? && !Disallowed(o, input, stores.policy.value)
  }

  lemma AnswerUnretrieved(o: EngineOptions, input: InboundMessage, stores: Stores)
    requires Admitted(o, input, stores) && !Retrieves(stores)
    ensures AnswerSpec(o, input, stores).0.Threw?
  {
    hide PreflightSpec, RespondSpec, Disallowed, RankedSpec;
    PreflightIff(o, input, stores);
    SemanticMeaning(o, stores);
  }

  lemma AnswerIsRespond(o: EngineOptions, input: InboundMessage, stores: Stores)
    returns (pre: Preflight, intent: Intent, trace: seq<TraceStep>, failures: seq<Effect>)
    requires Admitted(o, input, stores) && Retrieves(stores)
    ensures trace == AdmittedTrace(o, input, stores)
    ensures pre.Proceed? && pre.normalized == o.ops.normalize(input.text)
    ensures pre.policy == LoadPolicy(o, stores.policy.value)
    ensures intent == BestIntent(o.ops, pre.normalized, pre.policy.allowedIntents)
    ensures var (r, effects) := RespondSpec(o, input, pre, intent, Hits(o, input, stores), trace, stores);
      AnswerSpec(o, input, stores) == (r, failures + effects) && forall e :: e in failures ==> e.SemanticFailure?
  {
    hide PreflightSpec, RespondSpec, Disallowed, SemanticSpec, RankedSpec, BestIntent, FoundSemantically;
    PreflightIff(o, input, stores);
    SemanticMeaning(o, stores);
    pre := PreflightSpec(o, input, stores).0.value;
    intent := BestIntent(o.ops, pre.normalized, pre.policy.allowedIntents);
    failures := SemanticSpec(o, stores).1;
    trace := pre.trace + [IntentStep(intent)] + RetrieveStep(FoundSemantically(o, stores));
    var all := AllowedSpec(o, input, pre, stores).1;
    assert [] + all == all;
  }

  lemma AnswerUnbacked(o: EngineOptions, input: InboundMessage, stores: Stores)
    requires Admitted(o, input, stores) && Retrieves(stores)
    requires !Backed(o, input, stores, stores.policy.value.confidenceThreshold)
    ensures var (r, effects) := AnswerSpec(o, input, stores);
      RefusedOutcome(input, stores.policy.value, stores,
                     if Classified(o, input, stores.policy.value) then KnowledgeNotFound else IntentNotAllowed,
                     o.wording(if SpeaksGerman(input) then NoInformationGerman else NoInformation),
                     RefusedTrace(o, input, stores, KnowledgeNotFound), r, effects)
  {
    hide AnswerSpec, RespondSpec, Hits, Backed, Disallowed, BestIntent, Classified, RefusedAs, LabelOf, HandoffsAre;
    var pre, intent, trace, failures := AnswerIsRespond(o, input, stores);
    BackedIff(o, input, stores, stores.policy.value.confidenceThreshold);
    IntentMeaning(o, input, stores.policy.value);
    GermanIff(o, input);
    var hits := Hits(o, input, stores);
    RespondWeak(o, input, pre, intent, hits, trace, stores);
    var reason := if intent.allowed then KnowledgeNotFound else IntentNotAllowed;
    CallsAfter(failures, RespondSpec(o, input, pre, intent, hits, trace, stores).1, reason, input.text,
               if Creates(stores, stores.policy.value) then 1 else 0);
    SamePolicy(input, stores.policy.value, pre.policy);
  }

  lemma SamePolicy(input: InboundMessage, a: TenantPolicy, b: TenantPolicy)
    requires a.escalationEnabled == b.escalationEnabled
    ensures forall reason, text, r :: RefusedAs(input, a, reason, text, r) <==> RefusedAs(input, b, reason, text, r)
  {
  }

  lemma AnswerEmpty(o: EngineOptions, input: InboundMessage, stores: Stores)
    requires Admitted(o, input, stores) && Retrieves(stores)
    requires Backed(o, input, stores, stores.policy.value.confidenceThreshold)
    requires var hits := Hits(o, input, stores); hits != [] && !HasText(hits[0].chunk)
    ensures var (r, effects) := AnswerSpec(o, input, stores);
      RefusedOutcome(input, stores.policy.value, stores, AnswerValidationFailed,
                     o.wording(if SpeaksGerman(input) then NoInformationGerman else NoInformation),
                     RefusedTrace(o, input, stores, AnswerValidationFailed), r, effects)
  {
    hide AnswerSpec, RespondSpec, Hits, Backed, Disallowed, BestIntent, HasText, RefusedAs, HandoffsAre;
    var pre, intent, trace, failures := AnswerIsRespond(o, input, stores);
    BackedIff(o, input, stores, stores.policy.value.confidenceThreshold);
    GermanIff(o, input);
    var hits := Hits(o, input, stores);
    RespondEmpty(o, input, pre, intent, hits, trace, stores);
    CallsAfter(failures, RespondSpec(o, input, pre, intent, hits, trace, stores).1, AnswerValidationFailed, input.text,
               if Creates(stores, stores.policy.value) then 1 else 0);
    SamePolicy(input, stores.policy.value, pre.policy);
  }

  lemma HitsSupport(o: EngineOptions, input: InboundMessage, stores: Stores, threshold: real)
    requires stores.keyword.Returned?
    requires var hits := Hits(o, input, stores); hits != [] && hits[0].score >= threshold
    ensures SupportedBy(Hits(o, input, stores), threshold, Supported(Hits(o, input, stores), threshold))
  {
    hide Supporting, RankChunks, FoundSemantically, MergeRanked;
    SupportingIsPrefix(RankChunks(o.ops, o.ops.normalize(input.text), stores.keyword.value),
                       FoundSemantically(o, stores), threshold);
  }

  lemma CallsInStrong(o: EngineOptions, input: InboundMessage, stores: Stores, intent: Intent,
                      failures: seq<Effect>, rest: seq<Effect>)
    requires stores.policy.Returned? && stores.keyword.Returned?
    requires var hits := Hits(o, input, stores); hits != [] && hits[0].score >= stores.policy.value.confidenceThreshold
    requires LabelOf(o, input, stores.policy.value,
                     if intent.allowed then IntentName(intent.name) else ApprovedKnowledge)
    requires var hits, threshold := Hits(o, input, stores), stores.policy.value.confidenceThreshold;
      rest == if Direct(o, input, hits[0].chunk) || stores.generator.None? then []
              else [GenerateCall(input, intent, hits[0].chunk, Supported(hits, threshold))]
    requires forall e :: e in failures ==> e.SemanticFailure?
    ensures GeneratesFrom(o, input, stores, failures + rest)
  {
    hide Hits, Direct, LabelOf, SupportedBy, Supported, ExtractGroundedAnswer;
    HitsSupport(o, input, stores, stores.policy.value.confidenceThreshold);
    CountConcat(failures, rest, IsGenerate);
    CountNone(failures, IsGenerate);
    if rest != [] { assert rest[1..] == []; }
  }

  lemma AnswerStrong(o: EngineOptions, input: InboundMessage, stores: Stores)
    requires Admitted(o, input, stores) && Retrieves(stores)
    requires Backed(o, input, stores, stores.policy.value.confidenceThreshold)
    requires var hits := Hits(o, input, stores); hits != [] && HasText(hits[0].chunk)
    ensures var (r, effects) := AnswerSpec(o, input, stores);
      && (r.Returned? <==> Answers(o, input, stores))
      && (r.Returned? ==> AnsweredAs(o, input, stores, r.value))
      && Count(effects, IsHandoff) == 0 && GeneratesFrom(o, input, stores, effects)
  {
    hide AnswerSpec, RespondSpec, Hits, Backed, Disallowed, BestIntent, HasText, LabelOf, Cites, UsageOf, Toned,
      Direct, GeneratorBreaks, AnswerText, AnsweredWith, Classified;
    var pre, intent, trace, failures := AnswerIsRespond(o, input, stores);
    BackedIff(o, input, stores, stores.policy.value.confidenceThreshold);
    IntentMeaning(o, input, stores.policy.value);
    var hits := Hits(o, input, stores);
    RespondStrong(o, input, pre, intent, hits, trace, stores);
    var (r, rest) := RespondSpec(o, input, pre, intent, hits, trace, stores);
    CountNone(failures + rest, IsHandoff);
    CallsInStrong(o, input, stores, intent, failures, rest);
    if r.Returned? {
      AnsweredFields(input, pre.normalized, pre.policy.tone, hits[0], AnswerText(o, input, stores, hits[0].chunk),
                     if intent.allowed then IntentName(intent.name) else ApprovedKnowledge,
                     trace + AnsweredSteps(o, input, stores, hits[0]));
    }
  }

  /**
   A message is answered exactly when the policy is read and allows it, both searches come back, some hit with
   evidence reaches the threshold, the best hit has a text, and no generator that is called for breaks; and then the
   answer is the best hit's.
   */
  lemma AnsweredIff(o: EngineOptions, input: InboundMessage, stores: Stores)
    ensures var (r, effects) := AnswerSpec(o, input, stores);
      && (r.Returned? && r.value.status.Answered? <==> Answers(o, input, stores))
      && (r.Returned? && r.value.status.Answered? ==>
           && AnsweredAs(o, input, stores, r.value)
           && Count(effects, IsHandoff) == 0 && GeneratesFrom(o, input, stores, effects))
  {
    hide AnswerSpec, Disallowed, Backed, Hits, HasText, AnsweredAs, Direct, GeneratorBreaks, Cites,
      HandoffsAre, Classified, GeneratesFrom;
    if !Admitted(o, input, stores) {
      AnswerCalls(o, input, stores);
    } else if !Retrieves(stores) {
      AnswerUnretrieved(o, input, stores);
    } else if !Backed(o, input, stores, stores.policy.value.confidenceThreshold) {
      AnswerUnbacked(o, input, stores);
    } else {
      BackedIff(o, input, stores, stores.policy.value.confidenceThreshold);
      if HasText(Hits(o, input, stores)[0].chunk) {
        AnswerStrong(o, input, stores);
        if AnswerSpec(o, input, stores).0.Returned? {
          StrongStatus(o, input, stores, AnswerSpec(o, input, stores).0.value);
        }
      } else {
        AnswerEmpty(o, input, stores);
      }
    }
  }

  lemma StrongStatus(o: EngineOptions, input: InboundMessage, stores: Stores, r: AnswerResult)
    requires stores.policy.Returned? && stores.keyword.Returned? && AnsweredAs(o, input, stores, r)
    ensures r.status.Answered?
  {
    hide Hits, Toned, LabelOf, Cites, UsageOf;
  }

  /**
   A message that meets the conditions for a refusal is refused for that reason and with that text, or escalated with
   a handoff when the policy says so; only creating the handoff can throw.
   */
  lemma RefusedMeaning(o: EngineOptions, input: InboundMessage, stores: Stores, reason: Reason, text: string)
    requires Refuses(o, input, stores, reason, text)
    ensures var (r, effects) := AnswerSpec(o, input, stores);
      RefusedOutcome(input, stores.policy.value, stores, reason, text,
                     RefusedTrace(o, input, stores, reason), r, effects)
  {
    hide AnswerSpec, Disallowed, Backed, Hits, HasText, HandoffsAre, RefusedOutcome, Classified,
      SpeaksGerman;
    var message, stored := o.ops.normalize(input.text), stores.policy.value;
    if |message| > stored.maxMessageLength {
      AnswerTooLong(o, input, stores);
    } else if Disallowed(o, input, stored) {
      var topics := o.defaultBlockedTopics + stored.blockedTopics;
      var i: nat :| FirstBlocked(o, message, topics, i) && RefusesTopic(o, topics[i], reason, text);
      AnswerBlocked(o, input, stores, i);
    } else if !Backed(o, input, stores, stored.confidenceThreshold) {
      AnswerUnbacked(o, input, stores);
    } else {
      AnswerEmpty(o, input, stores);
    }
  }

  /** Every message that is not answered and does not throw meets the conditions for a refusal. */
  lemma RefusedOtherwise(o: EngineOptions, input: InboundMessage, stores: Stores) returns (reason: Reason, text: string)
    requires AnswerSpec(o, input, stores).0.Returned? && !AnswerSpec(o, input, stores).0.value.status.Answered?
    ensures Refuses(o, input, stores, reason, text)
  {
    hide AnswerSpec, Disallowed, Backed, Hits, HasText, Direct, GeneratorBreaks, AnsweredAs, Classified, FirstBlocked;
    AnsweredIff(o, input, stores);
    if stores.policy.Threw? { PolicyThrows(o, input, stores); }
    var message, stored := o.ops.normalize(input.text), stores.policy.value;
    if |message| > stored.maxMessageLength {
      reason, text := MessageLength, o.wording(TooLong);
    } else if Disallowed(o, input, stored) {
      var i := SomeFirstBlocked(o, input, stored);
      var topic := (o.defaultBlockedTopics + stored.blockedTopics)[i];
      reason := Topic(topic.name);
      text := if topic.response.Some? then topic.response.value else o.wording(OnlyThisBusiness);
      assert RefusesTopic(o, topic, reason, text);
    } else {
      if !Retrieves(stores) { AnswerUnretrieved(o, input, stores); }
      BackedIff(o, input, stores, stored.confidenceThreshold);
      text := o.wording(if SpeaksGerman(input) then NoInformationGerman else NoInformation);
      if !Backed(o, input, stores, stored.confidenceThreshold) {
        reason := if Classified(o, input, stored) then KnowledgeNotFound else IntentNotAllowed;
      } else {
        reason := AnswerValidationFailed;
        if HasText(Hits(o, input, stores)[0].chunk) { AnswerStrong(o, input, stores); }
      }
    }
  }

  lemma PolicyThrows(o: EngineOptions, input: InboundMessage, stores: Stores)
    requires stores.policy.Threw?
    ensures AnswerSpec(o, input, stores).0.Threw?
  {
    hide AllowedSpec;
  }

  /** The engine's own answers carry the label of an intent, and its refusals their reason. */
  lemma AnswerLabel(o: EngineOptions, input: InboundMessage, stores: Stores)
    requires AnswerSpec(o, input, stores).0.Returned?
    ensures var r := AnswerSpec(o, input, stores).0.value;
      r.intent.IntentName? || r.intent.ApprovedKnowledge? || r.intent.Refusing?
  {
    hide AnswerSpec, Answers, Refuses, HandoffsAre, Hits, Toned, Cites, UsageOf, RefusedTrace, GeneratesFrom,
      AdmittedTrace, AnsweredSteps;
    AnsweredIff(o, input, stores);
    if !AnswerSpec(o, input, stores).0.value.status.Answered? {
      var reason, text := RefusedOtherwise(o, input, stores);
      assert stores.policy.Returned? by { RefusalReadsPolicy(o, input, stores, reason, text); }
      RefusedMeaning(o, input, stores, reason, text);
    } else {
      AnswerReadsPolicy(o, input, stores);
    }
  }

  lemma RefusalReadsPolicy(o: EngineOptions, input: InboundMessage, stores: Stores, reason: Reason, text: string)
    requires Refuses(o, input, stores, reason, text)
    ensures stores.policy.Returned?
  {
    hide Disallowed, Backed, Hits, FirstBlocked, Classified;
  }

  lemma AnswerReadsPolicy(o: EngineOptions, input: InboundMessage, stores: Stores)
    requires Answers(o, input, stores)
    ensures stores.policy.Returned? && stores.keyword.Returned?
  {
    hide Disallowed, Backed, Hits;
  }
}
