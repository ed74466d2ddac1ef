/** The router around the engine: preflight, then the OneBrain provider, then the local fallback. */
module Routing {
  import opened Strings
  import opened Engine
  import opened Grounding

  /** The environment's strings, unset ones as None. */
  datatype RuntimeEnv = RuntimeEnv(fallbackEnabled: Option<string>, required: Option<string>)

  datatype AskResult = AskResult(answer: Option<string>, chunksUsed: int)

  /** provider is None when not configured, and otherwise what its ask does when called. */
  datatype Settings = Settings(enabled: bool, provider: Option<Outcome<AskResult>>, env: Option<RuntimeEnv>)

  /** errorHookThrows: whether the onOneBrainError callback throws. */
  datatype Route = Route(settings: Option<Settings>, preflightWired: bool, errorHookThrows: bool)

  const MAX_ONEBRAIN_ANSWER_LENGTH := 900

  function ParseBoolean(value: Option<string>, fallback: bool): bool {
    var normalized := if value.Some? then LowerAscii(Trim(value.value)) else "";
    if normalized in {"1", "true", "yes", "on"} then true
    else if normalized in {"0", "false", "no", "off"} then false
    else fallback
  }

  /** No local answer may stand in for OneBrain. */
  predicate FailsClosed(settings: Settings) {
    || (settings.env.Some? && ParseBoolean(settings.env.value.required, false))
    || (settings.env.Some? && !ParseBoolean(settings.env.value.fallbackEnabled, true))
  }

  function WithOneBrainTrace(r: AnswerResult, step: TraceStep): AnswerResult {
    r.(trace := [step] + r.trace)
  }

  function UnavailableResult(o: EngineOptions, input: InboundMessage, detail: Detail): AnswerResult {
    var text := o.wording(OneBrainDown);
    AnswerResult(Handoff, input.tenantId, input.channel, text, 0.0, OneBrainUnavailable, [], true,
                 Some(OneBrainRequired), EstimateUsage(input.text, text),
                 [TraceStep(OneBrainAnswerStep, Failed, detail)])
  }

  /** The trimmed provider answer, or why it cannot be used. */
  function UsableAnswer(r: AskResult): (Option<string>, Detail) {
    var answer := if r.answer.Some? then Trim(r.answer.value) else "";
    if answer == "" then (None, EmptyAnswer)
    else if r.chunksUsed <= 0 then (None, NoEvidence)
    else if |answer| > MAX_ONEBRAIN_ANSWER_LENGTH then (None, AnswerTooLong)
    else (Some(answer), NoDetail)
  }

  function RemoteResult(input: InboundMessage, answer: string, chunksUsed: int): AnswerResult {
    AnswerResult(Answered, input.tenantId, input.channel, answer, 1.0, OneBrainAnswerIntent, [], false, None,
                 EstimateUsage(input.text, answer), [TraceStep(OneBrainAnswerStep, Passed, ChunksUsed(chunksUsed))])
  }

  function LocalSpec(o: EngineOptions, input: InboundMessage, local: Stores): (Outcome<AnswerResult>, seq<Effect>) {
    var (r, effects) := AnswerSpec(o, input, local);
    (r, [LocalAnswer] + effects)
  }

  /** Fail closed, or answer locally with the reason at the head of the trace. */
  function FallbackSpec(o: EngineOptions, input: InboundMessage, settings: Settings, local: Stores,
                        outcome: StepOutcome, detail: Detail): (Outcome<AnswerResult>, seq<Effect>)
  {
    if FailsClosed(settings) then (Returned(UnavailableResult(o, input, detail)), [])
    else
      var (r, effects) := LocalSpec(o, input, local);
      var step := TraceStep(OneBrainAnswerStep, outcome, detail);
      (if r.Threw? then Threw else Returned(WithOneBrainTrace(r.value, step)), effects)
  }

  /** The ask and what follows it: a remote answer, a rejected one, or the error path. */
  function AskSpec(o: EngineOptions, input: InboundMessage, settings: Settings, route: Route, local: Stores)
    : (Outcome<AnswerResult>, seq<Effect>)
    requires settings.provider.Some?
  {
    var asked := [Ask(input.text)];
    match settings.provider.value
    case Threw =>
      if route.errorHookThrows then (Threw, asked)
      else
        var (r, effects) := FallbackSpec(o, input, settings, local, Failed, Error);
        (r, asked + effects)
    case Returned(result) =>
      var (answer, problem) := UsableAnswer(result);
      if answer.Some? then (Returned(RemoteResult(input, answer.value, result.chunksUsed)), asked)
      else
        // The promise is returned, not awaited inside the try: a local failure is not caught again.
        var (r, effects) := FallbackSpec(o, input, settings, local, Failed, problem);
        (r, asked + effects)
  }

  /** pre and local are what the stores do during the preflight and during the local answer. */
  function RouteSpec(o: EngineOptions, input: InboundMessage, route: Route, pre: Stores, local: Stores)
    : (Outcome<AnswerResult>, seq<Effect>)
  {
    if route.settings.None? then LocalSpec(o, input, local)
    else
      var settings := route.settings.value;
      if !settings.enabled then FallbackSpec(o, input, settings, local, Skipped, Disabled)
      else if settings.provider.None? then FallbackSpec(o, input, settings, local, Skipped, NotConfigured)
      else if !route.preflightWired then AskSpec(o, input, settings, route, local)
      else
        var (gate, effects) := PreflightSpec(o, input, pre);
        if gate.Threw? then (Threw, effects)
        else if gate.value.Refusal? then
          var step := TraceStep(OneBrainAnswerStep, Skipped, PolicyRefused);
          (Returned(WithOneBrainTrace(gate.value.result, step)), effects)
        else
          var (r, more) := AskSpec(o, input, settings, route, local);
          (r, effects + more)
  }

  // ----- The router --------------------------------------------------------------------------

  method RunLocal(engine: AnswerEngine, input: InboundMessage, local: Stores) returns (r: Outcome<AnswerResult>)
    modifies engine
    ensures var (spec, made) := LocalSpec(engine.options, input, local);
      r == spec && engine.effects == old(engine.effects) + made
  {
    hide AnswerSpec;
    engine.effects := engine.effects + [LocalAnswer];
    r := engine.Answer(input, local);
  }

  method FallBack(engine: AnswerEngine, input: InboundMessage, settings: Settings, local: Stores,
                  outcome: StepOutcome, detail: Detail) returns (r: Outcome<AnswerResult>)
    modifies engine
    ensures var (spec, made) := FallbackSpec(engine.options, input, settings, local, outcome, detail);
      r == spec && engine.effects == old(engine.effects) + made
  {
    hide LocalSpec;
    if FailsClosed(settings) {
      return Returned(UnavailableResult(engine.options, input, detail));
    }
    r := RunLocal(engine, input, local);
    if r.Returned? {
      r := Returned(WithOneBrainTrace(r.value, TraceStep(OneBrainAnswerStep, outcome, detail)));
    }
  }

  method AskProvider(engine: AnswerEngine, input: InboundMessage, settings: Settings, route: Route, local: Stores)
    returns (r: Outcome<AnswerResult>)
    requires settings.provider.Some?
    modifies engine
    ensures var (spec, made) := AskSpec(engine.options, input, settings, route, local);
      r == spec && engine.effects == old(engine.effects) + made
  {
    hide FallbackSpec, UsableAnswer;
    engine.effects := engine.effects + [Ask(input.text)];
    match settings.provider.value {
      case Threw =>
        if route.errorHookThrows {
          return Threw;
        }
        r := FallBack(engine, input, settings, local, Failed, Error);
      case Returned(result) =>
        var (answer, problem) := UsableAnswer(result);
        if answer.Some? {
          return Returned(RemoteResult(input, answer.value, result.chunksUsed));
        }
        r := FallBack(engine, input, settings, local, Failed, problem);
    }
  }

  method AnswerWithOneBrainFallback(
      engine: AnswerEngine, input: InboundMessage, route: Route, pre: Stores, local: Stores)
    returns (r: Outcome<AnswerResult>)
    modifies engine
    ensures var (spec, made) := RouteSpec(engine.options, input, route, pre, local);
      r == spec && engine.effects == old(engine.effects) + made
  {
    hide LocalSpec, FallbackSpec, AskSpec, PreflightSpec;
    if route.settings.None? {
      r := RunLocal(engine, input, local);
      return;
    }
    var settings := route.settings.value;
    if !settings.enabled {
      r := FallBack(engine, input, settings, local, Skipped, Disabled);
      return;
    }
    if settings.provider.None? {
      r := FallBack(engine, input, settings, local, Skipped, NotConfigured);
      return;
    }
    if route.preflightWired {
      var refusal := engine.PolicyPreflight(input, pre);
      if refusal.Threw? {
        return Threw;
      }
      if refusal.value.Some? {
        return Returned(WithOneBrainTrace(refusal.value.value, TraceStep(OneBrainAnswerStep, Skipped, PolicyRefused)));
      }
    }
    r := AskProvider(engine, input, settings, route, local);
  }

  // ----- Policy and call counts --------------------------------------------------------------

  /** The stores answer with a policy that disallows the message, or fail. */
  ghost predicate PolicyBlocks(o: EngineOptions, input: InboundMessage, stores: Stores) {
    stores.policy.Returned? ==> Disallowed(o, input, stores.policy.value)
  }

  predicate NotAnswered(r: Outcome<AnswerResult>) { r.Returned? ==> !r.value.status.Answered? }

  ghost predicate OnceEach(effects: seq<Effect>) {
    && Count(effects, IsAsk) <= 1 && Count(effects, IsLocalAnswer) <= 1
    && Count(effects, IsHandoff) <= 1 && Count(effects, IsGenerate) <= 1
  }

  lemma LocalMeaning(o: EngineOptions, input: InboundMessage, local: Stores)
    ensures var (r, effects) := LocalSpec(o, input, local);
      && OnceEach(effects) && Count(effects, IsAsk) == 0 && Count(effects, IsLocalAnswer) == 1
      && (PolicyBlocks(o, input, local) ==> NotAnswered(r) && Count(effects, IsGenerate) == 0)
  {
    hide AnswerSpec, Disallowed;
    AnswerCalls(o, input, local);
    var effects := AnswerSpec(o, input, local).1;
    var first := [LocalAnswer];
    CountConcat(first, effects, IsAsk);
    CountConcat(first, effects, IsLocalAnswer);
    CountConcat(first, effects, IsHandoff);
    CountConcat(first, effects, IsGenerate);
    assert first[1..] == [];
  }

  lemma FallbackMeaning(o: EngineOptions, input: InboundMessage, settings: Settings, local: Stores,
                                           outcome: StepOutcome, detail: Detail)
    ensures var (r, effects) := FallbackSpec(o, input, settings, local, outcome, detail);
      && OnceEach(effects) && Count(effects, IsAsk) == 0
      && (FailsClosed(settings) ==> effects == [] && NotAnswered(r))
      && (!FailsClosed(settings) ==> Count(effects, IsLocalAnswer) == 1)
      && (PolicyBlocks(o, input, local) ==> NotAnswered(r) && Count(effects, IsGenerate) == 0)
  {
    hide LocalSpec, FailsClosed, Disallowed;
    LocalMeaning(o, input, local);
    var (r, effects) := LocalSpec(o, input, local);
    var (r', effects') := FallbackSpec(o, input, settings, local, outcome, detail);
    if PolicyBlocks(o, input, local) {
      assert NotAnswered(r);
      assert FailsClosed(settings) ==> !r'.value.status.Answered?;
      assert !FailsClosed(settings) && r.Threw? ==> r'.Threw?;
      assert !FailsClosed(settings) && r.Returned? ==> !r'.value.status.Answered?;
      assert Count(effects', IsGenerate) == 0;
    }
  }

  /** Remote answers are trimmed, not empty, at most 900 characters, and backed by evidence. */
  ghost predicate UsableRemote(settings: Settings, r: AnswerResult) {
    && settings.provider.Some? && settings.provider.value.Returned?
    && var asked := settings.provider.value.value;
    asked.chunksUsed > 0 && asked.answer.Some? && r.text == Trim(asked.answer.value) && 0 < |r.text| <= 900
  }

  lemma AskMeaning(
      o: EngineOptions, input: InboundMessage, settings: Settings, route: Route, local: Stores)
    requires settings.provider.Some?
    ensures var (r, effects) := AskSpec(o, input, settings, route, local);
      && OnceEach(effects) && Count(effects, IsAsk) == 1
      && (FailsClosed(settings) ==>
           && Count(effects, IsLocalAnswer) == 0 && Count(effects, IsHandoff) == 0
           && (r.Returned? && r.value.status.Answered? ==> UsableRemote(settings, r.value)))
      && (Count(effects, IsLocalAnswer) == 0 ==> NotAnswered(r) || UsableRemote(settings, r.value))
      && (PolicyBlocks(o, input, local) ==>
           Count(effects, IsGenerate) == 0 && (NotAnswered(r) || UsableRemote(settings, r.value)))
  {
    hide FallbackSpec, FailsClosed;
    var asked := [Ask(input.text)];
    assert asked[1..] == [];
    var problem := match settings.provider.value case Threw => Error case Returned(x) => UsableAnswer(x).1;
    FallbackMeaning(o, input, settings, local, Failed, problem);
    var effects := FallbackSpec(o, input, settings, local, Failed, problem).1;
    CountConcat(asked, effects, IsAsk);
    CountConcat(asked, effects, IsLocalAnswer);
    CountConcat(asked, effects, IsHandoff);
    CountConcat(asked, effects, IsGenerate);
  }

  /** Per message, each external call is made at most once, whatever returns and whatever throws. */
  lemma CallsAtMostOnce(
      o: EngineOptions, input: InboundMessage, route: Route, pre: Stores, local: Stores)
    ensures OnceEach(RouteSpec(o, input, route, pre, local).1)
  {
    hide LocalSpec, FallbackSpec, AskSpec, PreflightSpec, Disallowed;
    LocalMeaning(o, input, local);
    if route.settings.Some? {
      var settings := route.settings.value;
      FallbackMeaning(o, input, settings, local, Skipped, Disabled);
      FallbackMeaning(o, input, settings, local, Skipped, NotConfigured);
      if settings.provider.Some? { AskMeaning(o, input, settings, route, local); }
      PreflightIff(o, input, pre);
      var effects := PreflightSpec(o, input, pre).1;
      CountShort(effects, IsHandoff);
      CountNone(effects, IsAsk);
      CountNone(effects, IsLocalAnswer);
      CountNone(effects, IsGenerate);
      if settings.provider.Some? {
        var more := AskSpec(o, input, settings, route, local).1;
        assert [] + more == more;
      }
    }
  }

  /** The message gets as far as the provider, or to the preflight in front of it. */
  predicate ReachesProvider(route: Route) {
    route.settings.Some? && route.settings.value.enabled && route.settings.value.provider.Some?
  }

  /**
   With the engine's preflight wired in, a message that the policy read for it disallows is never
   answered and never reaches the provider or the generator, whatever the settings, outcomes and
   exceptions. In front of a provider that policy is the preflight's, and no local answer is tried.
   */
  lemma PolicyNotRoutedAround(
      o: EngineOptions, input: InboundMessage, route: Route, pre: Stores, local: Stores)
    requires route.preflightWired && PolicyBlocks(o, input, if ReachesProvider(route) then pre else local)
    ensures var (r, effects) := RouteSpec(o, input, route, pre, local);
      && NotAnswered(r) && Count(effects, IsAsk) == 0 && Count(effects, IsGenerate) == 0
      && (ReachesProvider(route) ==> Count(effects, IsLocalAnswer) == 0)
  {
    hide LocalSpec, FallbackSpec, AskSpec, PreflightSpec, Disallowed;
    LocalMeaning(o, input, local);
    if route.settings.Some? {
      var settings := route.settings.value;
      FallbackMeaning(o, input, settings, local, Skipped, Disabled);
      FallbackMeaning(o, input, settings, local, Skipped, NotConfigured);
      PreflightIff(o, input, pre);
      CountNone(PreflightSpec(o, input, pre).1, IsAsk);
      CountNone(PreflightSpec(o, input, pre).1, IsGenerate);
      CountNone(PreflightSpec(o, input, pre).1, IsLocalAnswer);
    }
  }

  /** A message that the local policy disallows is answered, if at all, by the provider, wired or not. */
  lemma LocalPolicyHolds(
      o: EngineOptions, input: InboundMessage, route: Route, pre: Stores, local: Stores)
    requires PolicyBlocks(o, input, local)
    ensures var (r, effects) := RouteSpec(o, input, route, pre, local);
      && Count(effects, IsGenerate) == 0
      && (NotAnswered(r) || (Count(effects, IsAsk) == 1 && UsableRemote(route.settings.value, r.value)))
  {
    hide LocalSpec, FallbackSpec, AskSpec, PreflightSpec, Disallowed, UsableRemote;
    LocalMeaning(o, input, local);
    if route.settings.Some? {
      var settings := route.settings.value;
      FallbackMeaning(o, input, settings, local, Skipped, Disabled);
      FallbackMeaning(o, input, settings, local, Skipped, NotConfigured);
      PreflightIff(o, input, pre);
      CountNone(PreflightSpec(o, input, pre).1, IsGenerate);
      if settings.provider.Some? {
        AskMeaning(o, input, settings, route, local);
        var more := AskSpec(o, input, settings, route, local).1;
        assert [] + more == more;
      }
    }
  }

  /** Without the preflight the provider is asked whatever the policy says. */
  lemma UnwiredIsAsked(
      o: EngineOptions, input: InboundMessage, route: Route, pre: Stores, local: Stores)
    requires route.settings.Some? && route.settings.value.enabled && route.settings.value.provider.Some?
    requires !route.preflightWired || (pre.policy.Returned? && !Disallowed(o, input, pre.policy.value))
    ensures Count(RouteSpec(o, input, route, pre, local).1, IsAsk) == 1
  {
    hide AskSpec, PreflightSpec, Disallowed;
    PreflightIff(o, input, pre);
    AskMeaning(o, input, route.settings.value, route, local);
    var more := AskSpec(o, input, route.settings.value, route, local).1;
    assert [] + more == more;
  }

  /** When OneBrain is required or the fallback is off, nothing but a usable remote answer is answered. */
  lemma FailsClosedAlways(
      o: EngineOptions, input: InboundMessage, route: Route, pre: Stores, local: Stores)
    requires route.settings.Some? && FailsClosed(route.settings.value)
    ensures var (r, effects) := RouteSpec(o, input, route, pre, local);
      && Count(effects, IsLocalAnswer) == 0
      && (r.Returned? && r.value.status.Answered? ==> UsableRemote(route.settings.value, r.value))
  {
    hide FallbackSpec, AskSpec, PreflightSpec, Disallowed, FailsClosed;
    var settings := route.settings.value;
    FallbackMeaning(o, input, settings, local, Skipped, Disabled);
    FallbackMeaning(o, input, settings, local, Skipped, NotConfigured);
    if settings.provider.Some? {
      AskMeaning(o, input, settings, route, local);
      var more := AskSpec(o, input, settings, route, local).1;
      assert [] + more == more;
    }
    PreflightIff(o, input, pre);
    CountNone(PreflightSpec(o, input, pre).1, IsLocalAnswer);
  }

  // ----- The awaited variant -----------------------------------------------------------------

  /** AskSpec had rejectAnswer been awaited inside the try: its exception is caught and retried. */
  function AwaitedAskSpec(o: EngineOptions, input: InboundMessage, settings: Settings, route: Route,
                          local: Stores, again: Stores): (Outcome<AnswerResult>, seq<Effect>)
    requires settings.provider.Some?
  {
    var (r, effects) := AskSpec(o, input, settings, route, local);
    if r.Threw? && settings.provider.value.Returned? && !route.errorHookThrows then
      var (r', more) := FallbackSpec(o, input, settings, again, Failed, Error);
      (r', effects + more)
    else (r, effects)
  }

  /** Awaiting would run the local pipeline twice for every unusable answer whose fallback throws. */
  lemma AwaitingRunsTwice(o: EngineOptions, input: InboundMessage, settings: Settings, route: Route,
                                             local: Stores, again: Stores)
    requires settings.provider.Some? && settings.provider.value.Returned?
    requires UsableAnswer(settings.provider.value.value).0.None? && !FailsClosed(settings) && !route.errorHookThrows
    requires AnswerSpec(o, input, local).0.Threw?
    ensures Count(AwaitedAskSpec(o, input, settings, route, local, again).1, IsLocalAnswer) == 2
    ensures Count(AskSpec(o, input, settings, route, local).1, IsLocalAnswer) == 1
  {
    hide AnswerSpec, FailsClosed, UsableAnswer;
    var problem := UsableAnswer(settings.provider.value.value).1;
    FallbackMeaning(o, input, settings, local, Failed, problem);
    FallbackMeaning(o, input, settings, again, Failed, Error);
    var asked, first := [Ask(input.text)], FallbackSpec(o, input, settings, local, Failed, problem).1;
    assert asked[1..] == [];
    CountConcat(asked, first, IsLocalAnswer);
    CountConcat(asked + first, FallbackSpec(o, input, settings, again, Failed, Error).1, IsLocalAnswer);
  }
}
