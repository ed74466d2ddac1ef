/**
 The answer engine: policy preflight, hybrid retrieval, confidence threshold, grounded generation,
 and the refusal with its handoff side effect.
 */
module Engine {
  import opened Strings
  import opened Ranking

  // ----- Data --------------------------------------------------------------------------------

  datatype InboundMessage = InboundMessage(tenantId: string, channel: string, text: string, locale: Option<string>)

  datatype Tone = Neutral | Friendly | Formal

  datatype TenantPolicy = TenantPolicy(
    allowedIntents: seq<AllowedIntent>, blockedTopics: seq<BlockedTopic>,
    confidenceThreshold: real, maxMessageLength: int, tone: Tone,
    escalationEnabled: bool, createHandoffRequest: bool)

  datatype StepOutcome = Passed | Failed | Skipped

  /** The step names of the trace. */
  datatype StepName =
    | NormalizeStep | BlockedTopicStep | HandoffRequest | IntentPolicy | SemanticRetrieval | RetrieveKnowledge
    | GroundedGeneration | GenerateGroundedAnswerStep | ValidateAnswer | OneBrainAnswerStep

  /** Why a message was refused: the handoff reason, and the intent of the refusal. */
  datatype Reason =
    | MessageLength | Topic(name: string) | KnowledgeNotFound | IntentNotAllowed | AnswerValidationFailed
    | OneBrainRequired

  datatype Detail =
    | NoDetail | Number(value: real) | Name(name: string) | Because(reason: Reason)
    | UnknownTryApprovedKnowledge | NoChunks | EmptyGroundedAnswer | DirectTelephoneAnswer
    | NotConfigured | EmptyOrUnsafe | Model | Error
    | Disabled | PolicyRefused | EmptyAnswer | NoEvidence | AnswerTooLong | ChunksUsed(n: int)

  datatype TraceStep = TraceStep(step: StepName, outcome: StepOutcome, detail: Detail)

  datatype IntentLabel = IntentName(name: string) | ApprovedKnowledge | Refusing(reason: Reason)
                       | OneBrainAnswerIntent | OneBrainUnavailable

  /** The sentences the code says itself; their wording is a parameter. */
  datatype FixedText = TooLong | OnlyThisBusiness | NoInformation | NoInformationGerman | OneBrainDown

  datatype Status = Answered | Refused | Handoff

  datatype Citation = Citation(chunkId: string, documentId: string, sourceId: string, title: Option<string>)

  datatype Usage = Usage(inputCharacters: nat, outputCharacters: nat, estimatedCredits: nat)

  datatype AnswerResult = AnswerResult(
    status: Status, tenantId: string, channel: string, text: string, confidence: real, intent: IntentLabel,
    citations: seq<Citation>, handoffRecommended: bool, handoffReason: Option<Reason>,
    usage: Usage, trace: seq<TraceStep>)

  /** Calls with effects outside the engine, in the order they are made. */
  datatype Effect =
    | Ask(question: string)
    | LocalAnswer
    | CreateHandoff(reason: Reason, message: string)
    | Generate(question: string, intent: IntentLabel, fallbackAnswer: string, chunks: seq<Retrieved>)
    | SemanticFailure

  datatype EngineOptions = EngineOptions(
    ops: TextOps, wording: FixedText -> string,
    defaultIntents: seq<AllowedIntent>, defaultBlockedTopics: seq<BlockedTopic>,
    preferDirectTelephoneAnswers: bool, semanticMinSimilarity: real)

  /**
   What the stores, the embedder and the generator do during one call: any values and any
   exceptions. hasEmbeddings says that both the embedder and searchKnowledgeByEmbedding exist;
   None for handoff or generator says that it is not configured; a hook is an error callback.
   */
  datatype Stores = Stores(
    policy: Outcome<TenantPolicy>,
    keyword: Outcome<seq<Chunk>>,
    hasEmbeddings: bool, embedding: Outcome<Option<seq<real>>>, semantic: Outcome<seq<Retrieved>>,
    semanticHookThrows: bool,
    generator: Option<Outcome<Option<string>>>, generatorHookThrows: bool,
    handoff: Option<Outcome<()>>)

  const MAX_GENERATED_ANSWER_LENGTH := 900
  const MAX_DIRECT_TELEPHONE_ANSWER_LENGTH := 360
  const NO_GROUNDED_ANSWER := "__NO_GROUNDED_ANSWER__"

  // ----- Pure pieces -------------------------------------------------------------------------

  function EstimateUsage(input: string, output: string): Usage {
    Usage(|input|, |output|, (|input| + |output| + 999) / 1000)
  }

  function LowerAscii(s: string): string {
    if s == "" then ""
    else [if 'A' <= s[0] <= 'Z' then ((s[0] as int) + 32) as char else s[0]] + LowerAscii(s[1..])
  }

  function RefusalFor(o: EngineOptions, locale: Option<string>): string {
    o.wording(if locale.Some? && |locale.value| >= 2 && LowerAscii(locale.value[..2]) == "de"
              then NoInformationGerman else NoInformation)
  }

  function LoadPolicy(o: EngineOptions, stored: TenantPolicy): TenantPolicy {
    stored.(allowedIntents := if stored.allowedIntents != [] then stored.allowedIntents else o.defaultIntents,
            blockedTopics := o.defaultBlockedTopics + stored.blockedTopics)
  }

  function FindBlockedTopic(ops: TextOps, message: string, topics: seq<BlockedTopic>): (r: Option<BlockedTopic>)
    ensures r.Some? <==>
      exists i :: 0 <= i < |topics| && topics[i].enabled && ops.containsPhrase(message, topics[i].terms)
  {
    if topics == [] then None
    else if topics[0].enabled && ops.containsPhrase(message, topics[0].terms) then Some(topics[0])
    else FindBlockedTopic(ops, message, topics[1..])
  }

  predicate AnswerHeadAt(content: string, i: nat) {
    && i + 7 < |content| && (i == 0 || content[i - 1] == '\n')
    && LowerAscii(content[i..i + 7]) == "answer:"
  }

  /** The text after the first line that starts with "Answer:", if the text is not empty. */
  function AnswerSection(content: string, i: nat): Option<string>
    requires i <= |content|
    decreases |content| - i
  {
    if i == |content| then None
    else if AnswerHeadAt(content, i) then Some(content[i + 7..])
    else AnswerSection(content, i + 1)
  }

  function ExtractGroundedAnswer(c: Chunk): string {
    if c.answer.Some? && Trim(c.answer.value) != "" then Trim(c.answer.value)
    else
      var section := AnswerSection(c.content, 0);
      if section.Some? && Trim(section.value) != "" then Trim(section.value) else Trim(c.content)
  }

  predicate IsQuote(c: char) { c == '"' || c == '\'' }

  /** text.replace(/^["']|["']$/g, "") */
  function StripQuotes(text: string): string {
    var t := if text != "" && IsQuote(text[0]) then text[1..] else text;
    if t != "" && IsQuote(t[|t| - 1]) then t[..|t| - 1] else t
  }

  function SanitizeGroundedAnswer(answer: Option<string>): (r: Option<string>)
    ensures r.Some? ==> SafeGeneration(r.value)
  {
    var text := if answer.Some? then Trim(StripQuotes(Trim(answer.value))) else "";
    if text == "" || Includes(text, NO_GROUNDED_ANSWER) then None
    else if |text| > MAX_GENERATED_ANSWER_LENGTH then None
    else Some(text)
  }

  predicate SafeGeneration(text: string) {
    text != "" && |text| <= MAX_GENERATED_ANSWER_LENGTH && !Includes(text, NO_GROUNDED_ANSWER)
  }

  function ApplyTone(answer: string, tone: Tone): string {
    if tone == Friendly && (answer == "" || answer[|answer| - 1] !in {'.', '!', '?'}) then answer + "." else answer
  }

  function CitationOf(c: Chunk): Citation {
    Citation(c.id, c.documentId, c.sourceId,
             if c.title.Some? && c.title.value != "" then c.title else None)
  }

  predicate IsDirectTelephoneAnswer(input: InboundMessage, c: Chunk, fallbackAnswer: string) {
    && input.channel == "telephone" && |fallbackAnswer| <= MAX_DIRECT_TELEPHONE_ANSWER_LENGTH
    && c.answer.Some? && Trim(c.answer.value) == fallbackAnswer
  }

  function AnsweredWith(input: InboundMessage, normalized: string, tone: Tone, best: Retrieved,
                        answer: string, intent: IntentLabel, trace: seq<TraceStep>): AnswerResult
  {
    AnswerResult(Answered, input.tenantId, input.channel, ApplyTone(answer, tone), best.score, intent,
                 [CitationOf(best.chunk)], false, None, EstimateUsage(normalized, answer), trace)
  }

  // ----- What each step computes and calls ---------------------------------------------------

  function RefuseSpec(input: InboundMessage, policy: TenantPolicy, trace: seq<TraceStep>,
                      reason: Reason, message: string, handoff: Option<Outcome<()>>)
    : (Outcome<AnswerResult>, seq<Effect>)
  {
    var creates := policy.escalationEnabled && policy.createHandoffRequest && handoff.Some?;
    var effects := if creates then [CreateHandoff(reason, input.text)] else [];
    if creates && handoff.value.Threw? then (Threw, effects)
    else
      var trace' := if creates then trace + [TraceStep(HandoffRequest, Passed, Because(reason))] else trace;
      (Returned(AnswerResult(if policy.escalationEnabled then Handoff else Refused,
                             input.tenantId, input.channel, message, 0.0, Refusing(reason), [],
                             policy.escalationEnabled, Some(reason), EstimateUsage(input.text, message), trace')),
       effects)
  }

  /** A refusal, or the go-ahead with the trace so far. */
  datatype Preflight =
    | Refusal(result: AnswerResult)
    | Proceed(trace: seq<TraceStep>, normalized: string, policy: TenantPolicy)

  function PreflightSpec(o: EngineOptions, input: InboundMessage, stores: Stores): (Outcome<Preflight>, seq<Effect>) {
    var normalized := o.ops.normalize(input.text);
    var trace := [TraceStep(NormalizeStep, if normalized != "" then Passed else Failed, NoDetail)];
    if stores.policy.Threw? then (Threw, [])
    else
      var policy := LoadPolicy(o, stores.policy.value);
      var blocked := FindBlockedTopic(o.ops, normalized, policy.blockedTopics);
      if |normalized| > policy.maxMessageLength then
        AsPreflight(RefuseSpec(input, policy, trace, MessageLength, o.wording(TooLong), stores.handoff))
      else if blocked.Some? then
        AsPreflight(RefuseSpec(input, policy, trace + [TraceStep(BlockedTopicStep, Failed, Name(blocked.value.name))],
                               Topic(blocked.value.name), BlockedResponse(o, blocked.value), stores.handoff))
      else
        (Returned(Proceed(trace + [TraceStep(BlockedTopicStep, Passed, NoDetail)], normalized, policy)), [])
  }

  function BlockedResponse(o: EngineOptions, topic: BlockedTopic): string {
    match topic.response case Some(r) => r case None => o.wording(OnlyThisBusiness)
  }

  function AsPreflight(refused: (Outcome<AnswerResult>, seq<Effect>)): (Outcome<Preflight>, seq<Effect>) {
    (if refused.0.Threw? then Threw else Returned(Refusal(refused.0.value)), refused.1)
  }

  function SemanticSpec(o: EngineOptions, stores: Stores): (Outcome<seq<Retrieved>>, seq<Effect>) {
    if !stores.hasEmbeddings then (Returned([]), [])
    else if stores.embedding.Returned? && (stores.embedding.value.None? || stores.embedding.value.value == []) then
      (Returned([]), [])
    else if stores.embedding.Threw? || stores.semantic.Threw? then
      (if stores.semanticHookThrows then Threw else Returned([]), [SemanticFailure])
    else (Returned(AtLeast(stores.semantic.value, o.semanticMinSimilarity)), [])
  }

  /** The generated text, or the fallback, with the trace step that says which. */
  function GenerateSpec(input: InboundMessage, intent: IntentLabel, fallbackAnswer: string, chunks: seq<Retrieved>,
                        stores: Stores): (Outcome<(string, TraceStep)>, seq<Effect>)
  {
    if stores.generator.None? then
      (Returned((fallbackAnswer, TraceStep(GroundedGeneration, Skipped, NotConfigured))), [])
    else
      var effects := [Generate(input.text, intent, fallbackAnswer, chunks)];
      match stores.generator.value
      case Threw =>
        (if stores.generatorHookThrows then Threw
         else Returned((fallbackAnswer, TraceStep(GroundedGeneration, Skipped, Error))), effects)
      case Returned(generated) =>
        match SanitizeGroundedAnswer(generated)
        case None => (Returned((fallbackAnswer, TraceStep(GroundedGeneration, Skipped, EmptyOrUnsafe))), effects)
        case Some(safe) => (Returned((safe, TraceStep(GroundedGeneration, Passed, Model))), effects)
  }

  function IntentStep(intent: Intent): TraceStep {
    if intent.allowed then TraceStep(IntentPolicy, Passed, Name(intent.name))
    else TraceStep(IntentPolicy, Skipped, UnknownTryApprovedKnowledge)
  }

  /** The part of answer() after retrieval: threshold, extraction, generation. */
  function RespondSpec(o: EngineOptions, input: InboundMessage, pre: Preflight, intent: Intent,
                       ranked: seq<Retrieved>, trace: seq<TraceStep>, stores: Stores)
    : (Outcome<AnswerResult>, seq<Effect>)
    requires pre.Proceed?
  {
    var policy := pre.policy;
    if ranked == [] || ranked[0].score < policy.confidenceThreshold then
      var detail := if ranked == [] then NoChunks else Number(ranked[0].score);
      RefuseSpec(input, policy, trace + [TraceStep(RetrieveKnowledge, Failed, detail)],
                 if intent.allowed then KnowledgeNotFound else IntentNotAllowed,
                 RefusalFor(o, input.locale), stores.handoff)
    else
      var best := ranked[0];
      var found := trace + [TraceStep(RetrieveKnowledge, Passed, Number(best.score))];
      var fallback := ExtractGroundedAnswer(best.chunk);
      var name := if intent.allowed then IntentName(intent.name) else ApprovedKnowledge;
      var done :=
        [TraceStep(GenerateGroundedAnswerStep, Passed, NoDetail), TraceStep(ValidateAnswer, Passed, NoDetail)];
      if fallback == "" then
        RefuseSpec(input, policy, found + [TraceStep(ValidateAnswer, Failed, EmptyGroundedAnswer)],
                   AnswerValidationFailed, RefusalFor(o, input.locale), stores.handoff)
      else if o.preferDirectTelephoneAnswers && IsDirectTelephoneAnswer(input, best.chunk, fallback) then
        var direct := TraceStep(GroundedGeneration, Skipped, DirectTelephoneAnswer);
        (Returned(AnsweredWith(input, pre.normalized, policy.tone, best, fallback, name, found + [direct] + done)), [])
      else
        var supporting := Supporting(ranked, policy.confidenceThreshold);
        var (generated, effects) :=
          GenerateSpec(input, name, fallback, if supporting != [] then supporting else [best], stores);
        match generated
        case Threw => (Threw, effects)
        case Returned((answer, step)) =>
          (Returned(AnsweredWith(input, pre.normalized, policy.tone, best, answer, name, found + [step] + done)),
            effects)
  }

  function RetrieveStep(semantic: seq<Retrieved>): seq<TraceStep> {
    if semantic != [] then [TraceStep(SemanticRetrieval, Passed, Number(|semantic| as real))] else []
  }

  function RankedSpec(
      o: EngineOptions, normalized: string, chunks: seq<Chunk>, semantic: seq<Retrieved>): seq<Retrieved> {
    MergeRanked(RankChunks(o.ops, normalized, chunks), semantic)
  }

  /** answer() once the preflight has let the message through. */
  function AllowedSpec(o: EngineOptions, input: InboundMessage, pre: Preflight, stores: Stores)
    : (Outcome<AnswerResult>, seq<Effect>)
    requires pre.Proceed?
  {
    var intent := BestIntent(o.ops, pre.normalized, pre.policy.allowedIntents);
    var (semantic, failures) := SemanticSpec(o, stores);
    if stores.keyword.Threw? || semantic.Threw? then (Threw, failures)
    else
      var ranked := RankedSpec(o, pre.normalized, stores.keyword.value, semantic.value);
      var (result, rest) := RespondSpec(o, input, pre, intent, ranked,
                                        pre.trace + [IntentStep(intent)] + RetrieveStep(semantic.value), stores);
      (result, failures + rest)
  }

  function AnswerSpec(o: EngineOptions, input: InboundMessage, stores: Stores): (Outcome<AnswerResult>, seq<Effect>) {
    var (pre, effects) := PreflightSpec(o, input, stores);
    if pre.Threw? then (Threw, effects)
    else if pre.value.Refusal? then (Returned(pre.value.result), effects)
    else
      var (result, rest) := AllowedSpec(o, input, pre.value, stores);
      (result, effects + rest)
  }

  // ----- The engine --------------------------------------------------------------------------

  /** The array of steps that one call's pieces push onto. */
  class Trace {
    var steps: seq<TraceStep>

    constructor ()
      ensures steps == []
    {
      steps := [];
    }

    method Push(step: TraceStep)
      modifies this
      ensures steps == old(steps) + [step]
    {
      steps := steps + [step];
    }
  }

  class AnswerEngine {
    const options: EngineOptions
    var effects: seq<Effect>
    var semanticFailures: nat

    constructor (options: EngineOptions)
      ensures this.options == options && effects == [] && semanticFailures == 0
    {
      this.options := options;
      effects, semanticFailures := [], 0;
    }

    method Refuse(input: InboundMessage, policy: TenantPolicy, trace: Trace, reason: Reason, message: string,
                  stores: Stores) returns (r: Outcome<AnswerResult>)
      modifies trace, this`effects
      ensures var (spec, made) := RefuseSpec(input, policy, old(trace.steps), reason, message, stores.handoff);
        r == spec && effects == old(effects) + made
    {
      var recommended := policy.escalationEnabled;
      if recommended && policy.createHandoffRequest && stores.handoff.Some? {
        effects := effects + [CreateHandoff(reason, input.text)];
        if stores.handoff.value.Threw? {
          return Threw;
        }
        trace.Push(TraceStep(HandoffRequest, Passed, Because(reason)));
      }
      r := Returned(AnswerResult(if recommended then Handoff else Refused, input.tenantId, input.channel, message,
                                 0.0, Refusing(reason), [], recommended, Some(reason),
                                 EstimateUsage(input.text, message), trace.steps));
    }

    method RunPolicyPreflight(input: InboundMessage, stores: Stores) returns (r: Outcome<Preflight>, trace: Trace)
      modifies this`effects
      ensures var (spec, made) := PreflightSpec(options, input, stores); r == spec && effects == old(effects) + made
      ensures fresh(trace) && (r.Returned? && r.value.Proceed? ==> trace.steps == r.value.trace)
    {
      trace := new Trace();
      var normalized := options.ops.normalize(input.text);
      trace.Push(TraceStep(NormalizeStep, if normalized != "" then Passed else Failed, NoDetail));
      assert trace.steps == [TraceStep(NormalizeStep, if normalized != "" then Passed else Failed, NoDetail)];
      if stores.policy.Threw? {
        return Threw, trace;
      }
      var policy := LoadPolicy(options, stores.policy.value);
      if |normalized| > policy.maxMessageLength {
        var refused := Refuse(input, policy, trace, MessageLength, options.wording(TooLong), stores);
        return if refused.Threw? then Threw else Returned(Refusal(refused.value)), trace;
      }
      var blocked := FindBlockedTopic(options.ops, normalized, policy.blockedTopics);
      if blocked.Some? {
        trace.Push(TraceStep(BlockedTopicStep, Failed, Name(blocked.value.name)));
        var response := BlockedResponse(options, blocked.value);
        var refused := Refuse(input, policy, trace, Topic(blocked.value.name), response, stores);
        return if refused.Threw? then Threw else Returned(Refusal(refused.value)), trace;
      }
      trace.Push(TraceStep(BlockedTopicStep, Passed, NoDetail));
      r := Returned(Proceed(trace.steps, normalized, policy));
    }

    method SemanticSearch(stores: Stores) returns (r: Outcome<seq<Retrieved>>)
      modifies this`effects, this`semanticFailures
      ensures var (spec, made) := SemanticSpec(options, stores); r == spec && effects == old(effects) + made
      ensures semanticFailures == old(semanticFailures) + |SemanticSpec(options, stores).1|
    {
      if !stores.hasEmbeddings {
        return Returned([]);
      }
      if stores.embedding.Returned? {
        if stores.embedding.value.None? || stores.embedding.value.value == [] {
          return Returned([]);
        }
        if stores.semantic.Returned? {
          return Returned(AtLeast(stores.semantic.value, options.semanticMinSimilarity));
        }
      }
      semanticFailures := semanticFailures + 1;
      effects := effects + [SemanticFailure];
      r := if stores.semanticHookThrows then Threw else Returned([]);
    }

    method GenerateGroundedAnswer(input: InboundMessage, trace: Trace, intent: IntentLabel, fallbackAnswer: string,
                                  chunks: seq<Retrieved>, stores: Stores) returns (r: Outcome<string>)
      modifies trace, this`effects
      ensures var (spec, made) := GenerateSpec(input, intent, fallbackAnswer, chunks, stores);
        && effects == old(effects) + made
        && (r.Threw? <==> spec.Threw?)
        && (r.Returned? ==> r.value == spec.value.0 && trace.steps == old(trace.steps) + [spec.value.1])
    {
      if stores.generator.None? {
        trace.Push(TraceStep(GroundedGeneration, Skipped, NotConfigured));
        return Returned(fallbackAnswer);
      }
      effects := effects + [Generate(input.text, intent, fallbackAnswer, chunks)];
      match stores.generator.value {
        case Threw =>
          if stores.generatorHookThrows {
            return Threw;
          }
          trace.Push(TraceStep(GroundedGeneration, Skipped, Error));
          return Returned(fallbackAnswer);
        case Returned(generated) =>
          var safe := SanitizeGroundedAnswer(generated);
          if safe.None? {
            trace.Push(TraceStep(GroundedGeneration, Skipped, EmptyOrUnsafe));
            return Returned(fallbackAnswer);
          }
          trace.Push(TraceStep(GroundedGeneration, Passed, Model));
          return Returned(safe.value);
      }
    }

    method Respond(input: InboundMessage, pre: Preflight, intent: Intent, ranked: seq<Retrieved>, trace: Trace,
                   stores: Stores) returns (r: Outcome<AnswerResult>)
      requires pre.Proceed?
      modifies trace, this`effects
      ensures var (spec, made) := RespondSpec(options, input, pre, intent, ranked, old(trace.steps), stores);
        r == spec && effects == old(effects) + made
    {
      var policy := pre.policy;
      if ranked == [] || ranked[0].score < policy.confidenceThreshold {
        trace.Push(TraceStep(RetrieveKnowledge, Failed,
                             if ranked == [] then NoChunks else Number(ranked[0].score)));
        r := Refuse(input, policy, trace, if intent.allowed then KnowledgeNotFound else IntentNotAllowed,
                    RefusalFor(options, input.locale), stores);
        return;
      }
      var best := ranked[0];
      trace.Push(TraceStep(RetrieveKnowledge, Passed, Number(best.score)));
      var fallback := ExtractGroundedAnswer(best.chunk);
      if fallback == "" {
        trace.Push(TraceStep(ValidateAnswer, Failed, EmptyGroundedAnswer));
        r := Refuse(input, policy, trace, AnswerValidationFailed, RefusalFor(options, input.locale), stores);
        return;
      }
      var name := if intent.allowed then IntentName(intent.name) else ApprovedKnowledge;
      var answer := fallback;
      if options.preferDirectTelephoneAnswers && IsDirectTelephoneAnswer(input, best.chunk, fallback) {
        trace.Push(TraceStep(GroundedGeneration, Skipped, DirectTelephoneAnswer));
      } else {
        var supporting := Supporting(ranked, policy.confidenceThreshold);
        var generated := GenerateGroundedAnswer(input, trace, name, fallback,
                                                if supporting != [] then supporting else [best], stores);
        if generated.Threw? {
          return Threw;
        }
        answer := generated.value;
      }
      ghost var before := trace.steps;
      trace.Push(TraceStep(GenerateGroundedAnswerStep, Passed, NoDetail));
      trace.Push(TraceStep(ValidateAnswer, Passed, NoDetail));
      assert trace.steps == before +
        [TraceStep(GenerateGroundedAnswerStep, Passed, NoDetail), TraceStep(ValidateAnswer, Passed, NoDetail)];
      r := Returned(AnsweredWith(input, pre.normalized, policy.tone, best, answer, name, trace.steps));
    }

    method AnswerAllowed(input: InboundMessage, pre: Preflight, trace: Trace, stores: Stores)
      returns (r: Outcome<AnswerResult>)
      requires pre.Proceed? && trace.steps == pre.trace
      modifies trace, this`effects, this`semanticFailures
      ensures var (spec, made) := AllowedSpec(options, input, pre, stores); r == spec && effects == old(effects) + made
    {
      hide RespondSpec, SemanticSpec, BestIntent;
      var intent := ClassifyIntent(options.ops, pre.normalized, pre.policy.allowedIntents);
      trace.Push(IntentStep(intent));
      var semantic := SemanticSearch(stores);
      if stores.keyword.Threw? || semantic.Threw? {
        return Threw;
      }
      var ranked := MergeRankedChunks(RankChunks(options.ops, pre.normalized, stores.keyword.value), semantic.value);
      if semantic.value != [] {
        trace.Push(TraceStep(SemanticRetrieval, Passed, Number(|semantic.value| as real)));
      }
      assert trace.steps == pre.trace + [IntentStep(intent)] + RetrieveStep(semantic.value);
      r := Respond(input, pre, intent, ranked, trace, stores);
    }

    method Answer(input: InboundMessage, stores: Stores) returns (r: Outcome<AnswerResult>)
      modifies this
      ensures var (spec, made) := AnswerSpec(options, input, stores); r == spec && effects == old(effects) + made
    {
      hide PreflightSpec, AllowedSpec;
      var preflight, trace := RunPolicyPreflight(input, stores);
      if preflight.Threw? {
        return Threw;
      }
      if preflight.value.Refusal? {
        return Returned(preflight.value.result);
      }
      r := AnswerAllowed(input, preflight.value, trace, stores);
    }

    /** What an external provider runs before it asks its model. */
    method PolicyPreflight(input: InboundMessage, stores: Stores) returns (r: Outcome<Option<AnswerResult>>)
      modifies this`effects
      ensures var (spec, made) := PreflightSpec(options, input, stores);
        && effects == old(effects) + made
        && r == (if spec.Threw? then Threw
                 else Returned(if spec.value.Refusal? then Some(spec.value.result) else None))
    {
      var preflight, _ := RunPolicyPreflight(input, stores);
      if preflight.Threw? {
        return Threw;
      }
      r := Returned(if preflight.value.Refusal? then Some(preflight.value.result) else None);
    }
  }
}
