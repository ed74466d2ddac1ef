/** Exactly where a routed message's answer comes from, and what it carries. */
module RoutingOutcomes {
  import opened Strings
  import opened Engine
  import opened Grounding
  import opened Answering
  import opened Routing

  /** A setting's word: trimmed, in lower case, empty when unset. */
  function Word(value: Option<string>): string {
    if value.Some? then LowerAscii(Trim(value.value)) else ""
  }

  /** The answer fails closed exactly when OneBrain is required in words or the fallback is switched off in words. */
  lemma FailsClosedIff(settings: Settings)
    ensures FailsClosed(settings) <==>
      && settings.env.Some?
      && (|| Word(settings.env.value.required) in {"1", "true", "yes", "on"}
          || Word(settings.env.value.fallbackEnabled) in {"0", "false", "no", "off"})
  {
    hide LowerAscii, Trim;
  }

  /** The provider is enabled and configured, and the preflight, if wired, reads a policy that allows the message. */
  ghost predicate IsAsked(o: EngineOptions, input: InboundMessage, route: Route, pre: Stores) {
    && route.settings.Some? && route.settings.value.enabled && route.settings.value.provider.Some?
    && (!route.preflightWired || (pre.policy.Returned? && !Disallowed(o, input, pre.policy.value)))
  }

  /** The provider returned at least one chunk of evidence and 1 to 900 characters once trimmed. */
  predicate Usable(asked: Outcome<AskResult>) {
    && asked.Returned? && asked.value.chunksUsed >= 1
    && asked.value.answer.Some? && 1 <= |Trim(asked.value.answer.value)| <= 900
  }

  /** What stands in the way of a remote answer that was asked for or could not be. */
  predicate Obstacle(settings: Settings, outcome: StepOutcome, detail: Detail) {
    if !settings.enabled then outcome == Skipped && detail == Disabled
    else if settings.provider.None? then outcome == Skipped && detail == NotConfigured
    else
      outcome == Failed &&
      if settings.provider.value.Threw? then detail == Error
      else
        var text, chunks := settings.provider.value.value.answer, settings.provider.value.value.chunksUsed;
        if text.None? || Trim(text.value) == "" then detail == EmptyAnswer
        else if chunks < 1 then detail == NoEvidence
        else detail == AnswerTooLong
  }

  /** The route ends without a remote answer and neither the preflight nor the error hook ends it before. */
  ghost predicate FallsBack(o: EngineOptions, input: InboundMessage, route: Route, pre: Stores) {
    && route.settings.Some?
    && var settings := route.settings.value;
    || !settings.enabled || settings.provider.None?
    || (&& IsAsked(o, input, route, pre) && !Usable(settings.provider.value)
        && (settings.provider.value.Threw? ==> !route.errorHookThrows))
  }

  /** The answer is tried locally. */
  ghost predicate IsLocal(o: EngineOptions, input: InboundMessage, route: Route, pre: Stores) {
    route.settings.None? || (FallsBack(o, input, route, pre) && !FailsClosed(route.settings.value))
  }

  // ----- The fallback ------------------------------------------------------------------------

  lemma UsableIff(asked: AskResult)
    ensures UsableAnswer(asked).0 == if Usable(Returned(asked)) then Some(Trim(asked.answer.value)) else None
  {
    hide Trim;
  }

  lemma ObstacleIs(settings: Settings)
    requires settings.enabled && settings.provider.Some? && !Usable(settings.provider.value)
    ensures Obstacle(settings, Failed, if settings.provider.value.Threw? then Error
                                       else UsableAnswer(settings.provider.value.value).1)
  {
    hide Trim;
  }

  /** The result with one more step at the head of its trace. */
  function Headed(r: AnswerResult, step: TraceStep): AnswerResult { r.(trace := [step] + r.trace) }

  /** What falling back does, for the obstacle that stands in the way. */
  ghost predicate FellBack(o: EngineOptions, input: InboundMessage, settings: Settings, local: Stores,
                           outcome: StepOutcome, detail: Detail, r: Outcome<AnswerResult>, effects: seq<Effect>)
  {
    if FailsClosed(settings) then effects == [] && r.Returned? && IsUnavailable(o, input, detail, r.value)
    else
      var own := AnswerSpec(o, input, local);
      && effects == [LocalAnswer] + own.1
      && (r.Threw? <==> own.0.Threw?)
      && (r.Returned? ==> r.value == Headed(own.0.value, TraceStep(OneBrainAnswerStep, outcome, detail)))
  }

  predicate IsUnavailable(o: EngineOptions, input: InboundMessage, detail: Detail, r: AnswerResult) {
    && r.status == Handoff && r.tenantId == input.tenantId && r.channel == input.channel
    && r.text == o.wording(OneBrainDown) && r.confidence == 0.0 && r.intent == OneBrainUnavailable && r.citations == []
    && r.handoffRecommended && r.handoffReason == Some(OneBrainRequired)
    && UsageOf(r.usage, input.text, o.wording(OneBrainDown))
    && r.trace == [TraceStep(OneBrainAnswerStep, Failed, detail)]
  }

  lemma FallbackIs(o: EngineOptions, input: InboundMessage, settings: Settings, local: Stores,
                   outcome: StepOutcome, detail: Detail)
    ensures var (r, effects) := FallbackSpec(o, input, settings, local, outcome, detail);
      FellBack(o, input, settings, local, outcome, detail, r, effects)
  {
    hide AnswerSpec, FailsClosed;
  }

  // ----- The route ---------------------------------------------------------------------------

  lemma RouteAsks(o: EngineOptions, input: InboundMessage, route: Route, pre: Stores, local: Stores)
    requires IsAsked(o, input, route, pre)
    ensures RouteSpec(o, input, route, pre, local) == AskSpec(o, input, route.settings.value, route, local)
  {
    hide AskSpec, PreflightSpec, Disallowed;
    PreflightIff(o, input, pre);
    var more := AskSpec(o, input, route.settings.value, route, local).1;
    assert [] + more == more;
  }

  /** Where the fallback is taken, the route is the question asked, if it was, and what falling back does. */
  lemma RouteFallsBack(o: EngineOptions, input: InboundMessage, route: Route, pre: Stores, local: Stores)
    returns (outcome: StepOutcome, detail: Detail, asked: seq<Effect>, effects: seq<Effect>)
    requires FallsBack(o, input, route, pre)
    ensures Obstacle(route.settings.value, outcome, detail)
    ensures asked == if IsAsked(o, input, route, pre) then [Ask(input.text)] else []
    ensures RouteSpec(o, input, route, pre, local).1 == asked + effects
    ensures FellBack(o, input, route.settings.value, local, outcome, detail,
                     RouteSpec(o, input, route, pre, local).0, effects)
  {
    hide FallbackSpec, Disallowed, PreflightSpec, Usable, UsableAnswer, FellBack, AskSpec;
    var settings := route.settings.value;
    if !settings.enabled {
      outcome, detail, asked := Skipped, Disabled, [];
    } else if settings.provider.None? {
      outcome, detail, asked := Skipped, NotConfigured, [];
    } else {
      outcome, asked := Failed, [Ask(input.text)];
      detail := if settings.provider.value.Threw? then Error else UsableAnswer(settings.provider.value.value).1;
      RouteAsks(o, input, route, pre, local);
      ObstacleIs(settings);
      AskFallsBack(o, input, settings, route, local);
    }
    FallbackIs(o, input, settings, local, outcome, detail);
    effects := FallbackSpec(o, input, settings, local, outcome, detail).1;
    assert [] + effects == effects;
  }

  lemma AskFallsBack(o: EngineOptions, input: InboundMessage, settings: Settings, route: Route, local: Stores)
    requires settings.provider.Some? && !Usable(settings.provider.value)
    requires settings.provider.value.Threw? ==> !route.errorHookThrows
    ensures var detail := if settings.provider.value.Threw? then Error
                          else UsableAnswer(settings.provider.value.value).1;
      var (r, effects) := FallbackSpec(o, input, settings, local, Failed, detail);
      AskSpec(o, input, settings, route, local) == (r, [Ask(input.text)] + effects)
  {
    hide FallbackSpec, Usable, UsableAnswer;
    if settings.provider.value.Returned? { UsableIff(settings.provider.value.value); }
  }

  /** The other routes: a preflight that throws or refuses, a remote answer, and an error hook that throws. */
  lemma RouteElsewhere(o: EngineOptions, input: InboundMessage, route: Route, pre: Stores, local: Stores)
    requires route.settings.Some? && !FallsBack(o, input, route, pre)
    ensures var (r, effects) := RouteSpec(o, input, route, pre, local);
      && Count(effects, IsLocalAnswer) == 0
      && (if !IsAsked(o, input, route, pre) then Count(effects, IsAsk) == 0 && Refused(o, input, pre, r)
          else if route.settings.value.provider.value.Threw? then effects == [Ask(input.text)] && r.Threw?
          else effects == [Ask(input.text)] && r.Returned? && IsRemote(input, route.settings.value, r.value))
  {
    hide PreflightSpec, Disallowed, Trim, UsableAnswer, FallbackSpec, IsRemote, AnswerSpec;
    var settings := route.settings.value;
    if IsAsked(o, input, route, pre) {
      RouteAsks(o, input, route, pre, local);
      if settings.provider.value.Returned? {
        UsableIff(settings.provider.value.value);
        RemoteIs(input, settings);
      }
      CountNone([Ask(input.text)], IsLocalAnswer);
    } else {
      PreflightIff(o, input, pre);
      var effects := PreflightSpec(o, input, pre).1;
      CountNone(effects, IsLocalAnswer);
      CountNone(effects, IsAsk);
      PreflightIsAnswer(o, input, pre);
    }
  }

  /** The preflight's own refusal, with the step that says so, or its exception. */
  ghost predicate Refused(o: EngineOptions, input: InboundMessage, pre: Stores, r: Outcome<AnswerResult>) {
    var own := AnswerSpec(o, input, pre).0;
    && (r.Threw? <==> own.Threw?)
    && (r.Returned? ==>
         r.value == Headed(own.value, TraceStep(OneBrainAnswerStep, Skipped, PolicyRefused)))
  }

  lemma PreflightIsAnswer(o: EngineOptions, input: InboundMessage, pre: Stores)
    requires pre.policy.Returned? ==> Disallowed(o, input, pre.policy.value)
    ensures var own, gate := AnswerSpec(o, input, pre).0, PreflightSpec(o, input, pre).0;
      (gate.Threw? <==> own.Threw?) && (gate.Returned? ==> gate.value.Refusal? && own == Returned(gate.value.result))
  {
    hide AllowedSpec, PreflightSpec, Disallowed;
    PreflightIff(o, input, pre);
  }

  predicate IsRemote(input: InboundMessage, settings: Settings, r: AnswerResult) {
    && settings.provider.Some? && settings.provider.value.Returned? && settings.provider.value.value.answer.Some?
    && var asked := settings.provider.value.value;
    && r.status == Answered && r.tenantId == input.tenantId && r.channel == input.channel
    && r.text == Trim(asked.answer.value) && r.confidence == 1.0
    && r.intent == OneBrainAnswerIntent && r.citations == [] && !r.handoffRecommended && r.handoffReason.None?
    && UsageOf(r.usage, input.text, r.text)
    && r.trace == [TraceStep(OneBrainAnswerStep, Passed, ChunksUsed(asked.chunksUsed))]
  }

  lemma RemoteIs(input: InboundMessage, settings: Settings)
    requires settings.provider.Some? && settings.provider.value.Returned? && Usable(settings.provider.value)
    ensures var asked := settings.provider.value.value;
      IsRemote(input, settings, RemoteResult(input, Trim(asked.answer.value), asked.chunksUsed))
  {
    hide Trim;
  }

  /**
   The message is answered locally, once, exactly when there are no settings, or nothing fails closed and the provider
   is off, missing, throws past a quiet hook or returns nothing usable; and then the result is the engine's, with the
   obstacle at the head of its trace.
   */
  lemma LocalAnswerIff(o: EngineOptions, input: InboundMessage, route: Route, pre: Stores, local: Stores)
    ensures var (r, effects) := RouteSpec(o, input, route, pre, local);
      var own := AnswerSpec(o, input, local).0;
      && Count(effects, IsLocalAnswer) == (if IsLocal(o, input, route, pre) then 1 else 0)
      && (IsLocal(o, input, route, pre) && route.settings.None? ==> r == own)
      && (IsLocal(o, input, route, pre) && route.settings.Some? ==>
           && (r.Threw? <==> own.Threw?)
           && (r.Returned? ==>
                exists outcome, detail :: Obstacle(route.settings.value, outcome, detail)
                  && r.value == Headed(own.value, TraceStep(OneBrainAnswerStep, outcome, detail))))
  {
    hide AnswerSpec, FailsClosed, FallsBack, Obstacle, RouteSpec, IsAsked, Refused, IsRemote, IsUnavailable;
    if route.settings.None? {
      RouteUnset(o, input, route, pre, local);
      AnswerCalls(o, input, local);
      LocalCount([], AnswerSpec(o, input, local).1);
      assert [] + ([LocalAnswer] + AnswerSpec(o, input, local).1) == [LocalAnswer] + AnswerSpec(o, input, local).1;
    } else if FallsBack(o, input, route, pre) {
      var outcome, detail, asked, effects := RouteFallsBack(o, input, route, pre, local);
      AnswerCalls(o, input, local);
      if FailsClosed(route.settings.value) {
        assert asked + [] == asked;
        CountNone(asked, IsLocalAnswer);
      } else {
        LocalCount(asked, AnswerSpec(o, input, local).1);
      }
    } else {
      RouteElsewhere(o, input, route, pre, local);
    }
  }

  lemma RouteUnset(o: EngineOptions, input: InboundMessage, route: Route, pre: Stores, local: Stores)
    requires route.settings.None?
    ensures var own := AnswerSpec(o, input, local);
      RouteSpec(o, input, route, pre, local) == (own.0, [LocalAnswer] + own.1)
  {
    hide AnswerSpec;
  }

  lemma LocalCount(asked: seq<Effect>, own: seq<Effect>)
    requires (forall e :: e in asked ==> e.Ask?) && Count(own, IsLocalAnswer) == 0
    ensures Count(asked + ([LocalAnswer] + own), IsLocalAnswer) == 1
  {
    CountConcat(asked, [LocalAnswer] + own, IsLocalAnswer);
    CountNone(asked, IsLocalAnswer);
    assert ([LocalAnswer] + own)[1..] == own;
  }

  /** The answer is the provider's, trimmed, exactly when it was asked and returned something usable. */
  lemma RemoteIff(o: EngineOptions, input: InboundMessage, route: Route, pre: Stores, local: Stores)
    ensures var r := RouteSpec(o, input, route, pre, local).0;
      && (r.Returned? && r.value.intent.OneBrainAnswerIntent? <==>
           IsAsked(o, input, route, pre) && Usable(route.settings.value.provider.value))
      && (r.Returned? && r.value.intent.OneBrainAnswerIntent? ==> IsRemote(input, route.settings.value, r.value))
  {
    LabelSources(o, input, route, pre, local);
  }

  /** The message fails closed exactly when the fallback is needed and not allowed; then no local call is made. */
  lemma UnavailableIff(o: EngineOptions, input: InboundMessage, route: Route, pre: Stores, local: Stores)
    ensures var (r, effects) := RouteSpec(o, input, route, pre, local);
      && (r.Returned? && r.value.intent.OneBrainUnavailable? <==>
           FallsBack(o, input, route, pre) && FailsClosed(route.settings.value))
      && (r.Returned? && r.value.intent.OneBrainUnavailable? ==>
           && (effects == if IsAsked(o, input, route, pre) then [Ask(input.text)] else [])
           && exists outcome, detail ::
                Obstacle(route.settings.value, outcome, detail) && IsUnavailable(o, input, detail, r.value))
  {
    LabelSources(o, input, route, pre, local);
  }

  // The label of a result tells which way it came.
  lemma LabelSources(o: EngineOptions, input: InboundMessage, route: Route, pre: Stores, local: Stores)
    ensures var (r, effects) := RouteSpec(o, input, route, pre, local);
      var remote, closed := IsAsked(o, input, route, pre) && Usable(route.settings.value.provider.value),
        FallsBack(o, input, route, pre) && FailsClosed(route.settings.value);
      && (r.Returned? && r.value.intent.OneBrainAnswerIntent? <==> remote)
      && (remote ==> IsRemote(input, route.settings.value, r.value))
      && (r.Returned? && r.value.intent.OneBrainUnavailable? <==> closed)
      && (closed ==>
           && (effects == if IsAsked(o, input, route, pre) then [Ask(input.text)] else [])
           && exists outcome, detail ::
                Obstacle(route.settings.value, outcome, detail) && IsUnavailable(o, input, detail, r.value))
  {
    hide AnswerSpec, FailsClosed, Obstacle, RouteSpec, Disallowed, Trim, UsageOf;
    if AnswerSpec(o, input, local).0.Returned? { AnswerLabel(o, input, local); }
    if AnswerSpec(o, input, pre).0.Returned? { AnswerLabel(o, input, pre); }
    if route.settings.None? {
      RouteUnset(o, input, route, pre, local);
    } else if FallsBack(o, input, route, pre) {
      var outcome, detail, asked, effects := RouteFallsBack(o, input, route, pre, local);
      assert asked + [] == asked;
    } else {
      RouteElsewhere(o, input, route, pre, local);
    }
  }
}
