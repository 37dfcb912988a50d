/**
 Chats that pay for external calls (src/omo/service.py): registry reloads, routing, budget
 reservations and upstream requests of many concurrent chats, interleaved in any way.
 */
module Service {
  import opened Common
  import opened Contracts
  import opened Orders
  import opened Policy
  import opened Ledger
  import Calculator
  import Classification
  import EventStream
  import Provider
  import Registries

  // ---- routing --------------------------------------------------------------------------------

  /** What the embedded model contributes to `route`, and the printer of the conversation it is shown. */
  datatype Analysis = Analysis(dump: Classification.Dump, model: Model)

  datatype Model =
    | ModelFails                                             // an `OmoError` from the model call
    | Classified(tokens: nat, proposal: Option<Proposal>)    // `None`: the output is not a valid proposal

  /** The request under the caller's own cost cap. */
  function Narrowed(request: ChatRequest, caller: Option<Caller>): ChatRequest {
    if caller.None? || request.omo.maxCost <= caller.value.maxCost then request
    else request.(omo := request.omo.(maxCost := caller.value.maxCost))
  }

  function RetentionOf(caller: Option<Caller>): Option<set<Retention>> {
    if caller.None? then None else Some(caller.value.allowedRetention)
  }

  function HostsOf(caller: Option<Caller>): Option<set<string>> {
    if caller.None? then None else Some(caller.value.allowedHosts)
  }

  function DecideFor(
    request: ChatRequest, snapshot: Registry, settings: Settings, caller: Option<Caller>,
    proposal: Option<Proposal>): Decision
  {
    Decide(Narrowed(request, caller), snapshot, settings, proposal, RetentionOf(caller), HostsOf(caller))
  }

  /** The exceptions that leave `route`: the serializer's ValueError, and the model call's error. */
  datatype RouteOutcome = Routed(decision: Decision) | SerializationRaised | ModelRaised

  function Route(
    request: ChatRequest, snapshot: Registry, settings: Settings, caller: Option<Caller>,
    analysis: Analysis): RouteOutcome
  {
    var first := DecideFor(request, snapshot, settings, caller, None);
    if first.reason != "analysis_needed" then Routed(first)
    else if request.omo.action == OnlyExternal then
      Routed(DecideFor(request, snapshot, settings, caller,
        Some(Proposal(ExternalModel, request.omo.requiredCapability, None))))
    else if Classification.Serialized(analysis.dump, request.messages).None? then SerializationRaised
    else match analysis.model
      case ModelFails => ModelRaised
      case Classified(tokens, proposal) =>
        if tokens > settings.analysisTokens then Routed(RejectFor("analysis_context_exceeded"))
        else if proposal.None? then Routed(RejectFor("invalid_model_proposal"))
        else Routed(DecideFor(request, snapshot, settings, caller, proposal))
  }

  /** An automatic request that is neither a calculation command nor a local question. */
  predicate NeedsAnalysis(request: ChatRequest) {
    && request.omo.action == Auto && request.omo.requiredCapability != CurrentInformation
    && Calculator.FastHelper(request).None? && !LocalEligible(request)
  }

  /**
   Serialization happens outside the handler, so its ValueError is no rejection. It leaves `route`
   for a valid request if and only if the request needs analysis and its printed conversation is
   over 16000 bytes; the model's own error does if and only if the conversation fits and the model
   fails. A helper, a local or an external request never raises, nor does an unusable output.
   */
  lemma RouteRaisesExactly(
    request: ChatRequest, snapshot: Registry, settings: Settings, caller: Option<Caller>, analysis: Analysis)
    requires Classification.ValidRequest(request)
    ensures var tooLong := Utf8Length(analysis.dump(request.messages)) > 16000;
      && (Route(request, snapshot, settings, caller, analysis).SerializationRaised?
        <==> NeedsAnalysis(request) && tooLong)
      && (Route(request, snapshot, settings, caller, analysis).ModelRaised? <==>
            NeedsAnalysis(request) && !tooLong && analysis.model.ModelFails?)
  {
    SameMessages(request, caller);
    NeedsAnalysisExactly(Narrowed(request, caller), snapshot, settings, RetentionOf(caller), HostsOf(caller));
    Classification.ValidFailsExactly(analysis.dump, request);
  }

  /** A valid request that raises, for any printer that adds at least one byte to the contents. */
  lemma FullConversationRaises(
    request: ChatRequest, snapshot: Registry, settings: Settings, caller: Option<Caller>, analysis: Analysis)
    requires request.messages == Classification.FullConversation() && 8 <= request.maxTokens <= 256
    requires request.omo.action == Auto && request.omo.helper.None? && request.omo.requiredCapability == Text
    requires Utf8Length(analysis.dump(request.messages)) > ContentBytes(request.messages)
    ensures Classification.ValidRequest(request)
    ensures Route(request, snapshot, settings, caller, analysis) == SerializationRaised
  {
    Classification.FullConversationFails(analysis.dump, request);
    RouteRaisesExactly(request, snapshot, settings, caller, analysis);
    Classification.ValidFailsExactly(analysis.dump, request);
    FullNeedsAnalysis(request);
  }

  lemma FullNeedsAnalysis(request: ChatRequest)
    requires |request.messages| == 2 && request.omo.action == Auto && request.omo.requiredCapability == Text
    ensures NeedsAnalysis(request)
  {
  }

  lemma NeedsAnalysisExactly(
    request: ChatRequest, snapshot: Registry, settings: Settings, retention: Option<set<Retention>>,
    hosts: Option<set<string>>)
    ensures Decide(request, snapshot, settings, None, retention, hosts).reason == "analysis_needed" <==>
      && request.omo.requiredCapability != CurrentInformation
      && (request.omo.action == OnlyExternal ||
          (request.omo.action == Auto && Calculator.FastHelper(request).None? && !LocalEligible(request)))
  {
    var decision := Decide(request, snapshot, settings, None, retention, hosts);
    assert decision.action == Clarify <==> decision == Decision(Clarify, "analysis_needed", None, None);
    if request.omo.action == OnlyHelper && request.omo.helper.Some? {
      HelperNeedsNoAnalysis(request.omo.helper.value, settings);
    }
  }

  lemma HelperNeedsNoAnalysis(call: HelperCall, settings: Settings)
    ensures DecideHelper(call, settings, "explicit_validated_helper").reason != "analysis_needed"
  {
    assert |"sandbox_disabled"| != |"analysis_needed"|;
  }

  lemma SameMessages(request: ChatRequest, caller: Option<Caller>)
    ensures Calculator.FastHelper(Narrowed(request, caller)) == Calculator.FastHelper(request)
    ensures LocalEligible(Narrowed(request, caller)) == LocalEligible(request)
  {
  }

  function Lookup(models: seq<ModelEntry>, id: string): Option<ModelEntry> {
    if models == [] then None else if models[0].id == id then Some(models[0]) else Lookup(models[1..], id)
  }

  lemma {:induction false} LookupFinds(models: seq<ModelEntry>, entry: ModelEntry)
    requires entry in models && forall i, j | 0 <= i < j < |models| :: models[i].id != models[j].id
    ensures Lookup(models, entry.id) == Some(entry)
  {
    if models[0] != entry {
      var i :| 0 <= i < |models| && models[i] == entry;
      assert models[1..][i - 1] == entry;
      LookupFinds(models[1..], entry);
    }
  }

  /** The least of the server's, the request's and the caller's cost cap. */
  function CostCap(settings: Settings, request: ChatRequest, caller: Option<Caller>): real {
    var requested := if caller.Some? && caller.value.maxCost < request.omo.maxCost then caller.value.maxCost
      else request.omo.maxCost;
    if settings.externalMaxCost <= requested then settings.externalMaxCost else requested
  }

  /** The proposal that `route` decides on, when there is one. */
  function ProposalFor(request: ChatRequest, analysis: Analysis): Option<Proposal> {
    if request.omo.action == OnlyExternal then Some(Proposal(ExternalModel, request.omo.requiredCapability, None))
    else if analysis.model.Classified? then analysis.model.proposal else None
  }

  function CapabilityFor(request: ChatRequest, analysis: Analysis): Capability {
    var proposal := ProposalFor(request, analysis);
    if proposal.Some? then proposal.value.capability else request.omo.requiredCapability
  }

  /** What the server, the request, the caller and the proposal together ask of an external model. */
  function QueryOf(settings: Settings, request: ChatRequest, caller: Option<Caller>, capability: Capability): Query {
    Query(Narrowed(request, caller), capability, settings, RetentionOf(caller), HostsOf(caller))
  }

  lemma ExternalRoute(request: ChatRequest, snapshot: Registry, settings: Settings, caller: Option<Caller>,
      analysis: Analysis)
    requires Route(request, snapshot, settings, caller, analysis).Routed?
    requires Route(request, snapshot, settings, caller, analysis).decision.action == ExternalModel
    ensures Route(request, snapshot, settings, caller, analysis).decision
      == DecideFor(request, snapshot, settings, caller, ProposalFor(request, analysis))
    ensures ProposalFor(request, analysis).Some?
      && ProposalFor(request, analysis).value.capability == CapabilityFor(request, analysis)
    ensures request.omo.action == OnlyExternal ||
      (&& Classification.Serialized(analysis.dump, request.messages).Some?
       && analysis.model.Classified? && analysis.model.tokens <= settings.analysisTokens)
  {
    ExternalNeedsProposal(request, snapshot, settings, caller);
  }

  /** A route to an external model names an entry of the captured registry whose doubled cost fits the cap. */
  lemma RouteAffordable(request: ChatRequest, snapshot: Registry, settings: Settings, caller: Option<Caller>,
      analysis: Analysis)
    returns (entry: ModelEntry)
    requires snapshot.Valid()
    requires Route(request, snapshot, settings, caller, analysis).Routed?
    requires Route(request, snapshot, settings, caller, analysis).decision.action == ExternalModel
    ensures Route(request, snapshot, settings, caller, analysis).decision.target == Some(entry.id)
    ensures Lookup(snapshot.models, entry.id) == Some(entry)
    ensures var query := QueryOf(settings, request, caller, CapabilityFor(request, analysis));
      && entry.Valid() && entry in snapshot.models && query.Allows(entry)
      && forall m | m in snapshot.models && query.Allows(m) :: Before(entry, m)
    ensures request.omo.action == OnlyExternal
      || (analysis.model.Classified? && analysis.model.tokens <= settings.analysisTokens)
    ensures var cost := EstimatedCost(entry, request);
      cost.Some? && 0.0 <= cost.value && 2.0 * cost.value <= CostCap(settings, request, caller)
  {
    ExternalRoute(request, snapshot, settings, caller, analysis);
    entry := ExternalTargetEligible(
      Narrowed(request, caller), snapshot, settings, ProposalFor(request, analysis), RetentionOf(caller),
      HostsOf(caller));
    LookupFinds(snapshot.models, entry);
    CostNotNegative(entry, request);
    SameCost(entry, request, caller);
  }

  lemma ExternalNeedsProposal(request: ChatRequest, snapshot: Registry, settings: Settings, caller: Option<Caller>)
    ensures DecideFor(request, snapshot, settings, caller, None).action != ExternalModel
  {
    if DecideFor(request, snapshot, settings, caller, None).action == ExternalModel {
      ExternalComesFromProposal(Narrowed(request, caller), snapshot, settings, None, RetentionOf(caller),
        HostsOf(caller));
    }
  }

  lemma SameCost(entry: ModelEntry, request: ChatRequest, caller: Option<Caller>)
    ensures EstimatedCost(entry, Narrowed(request, caller)) == EstimatedCost(entry, request)
  {
    var narrowed := Narrowed(request, caller);
    assert narrowed.messages == request.messages && narrowed.maxTokens == request.maxTokens;
    assert InputTokens(entry, narrowed) == InputTokens(entry, request);
  }

  /** A caller's own limits only tighten what is asked of an external model. */
  lemma CallerTightens(settings: Settings, request: ChatRequest, caller: Caller, capability: Capability)
    ensures Tightens(QueryOf(settings, request, Some(caller), capability), QueryOf(settings, request, None, capability))
  {
  }

  /** With a caller's limits `decide` never finds a target that it would not find, or rank first, without. */
  lemma CallerDecision(request: ChatRequest, snapshot: Registry, settings: Settings, caller: Caller,
      proposal: Option<Proposal>)
    requires snapshot.Valid() && DecideFor(request, snapshot, settings, Some(caller), proposal).action == ExternalModel
    ensures proposal.Some?
    ensures var tight, loose := QueryOf(settings, request, Some(caller), proposal.value.capability),
      QueryOf(settings, request, None, proposal.value.capability);
      && DecideFor(request, snapshot, settings, Some(caller), proposal) == DecideExternal(tight, snapshot)
      && DecideFor(request, snapshot, settings, None, proposal) == DecideExternal(loose, snapshot)
      && Eligible(tight, snapshot.models) != []
  {
    var narrowed := Narrowed(request, Some(caller));
    var fast, local := Calculator.FastHelper(request), LocalEligible(request);
    var retention, hosts := RetentionOf(Some(caller)), HostsOf(Some(caller));
    SameMessages(request, Some(caller));
    ExternalDecided(fast, local, narrowed, snapshot, settings, proposal, retention, hosts);
    ExternalReached(fast, local, narrowed, request, snapshot, settings, proposal, retention, hosts, None, None);
    ExternalNamed(Query(narrowed, proposal.value.capability, settings, retention, hosts), snapshot);
  }

  /**
   The target a caller is routed to is among the eligible models of the same request without the
   caller's limits, which then is routed outside too, to a target that ranks no later.
   */
  lemma CallerNeverPromotes(request: ChatRequest, snapshot: Registry, settings: Settings, caller: Caller,
      analysis: Analysis)
    returns (mine: ModelEntry, anyones: ModelEntry)
    requires snapshot.Valid()
    requires Route(request, snapshot, settings, Some(caller), analysis).Routed?
    requires Route(request, snapshot, settings, Some(caller), analysis).decision.action == ExternalModel
    ensures Route(request, snapshot, settings, Some(caller), analysis).decision.target == Some(mine.id)
    ensures Route(request, snapshot, settings, None, analysis) ==
      Routed(Decision(ExternalModel, "eligible_configured_priority", Some(anyones.id), None))
    ensures var unrestricted := Eligible(QueryOf(settings, request, None, CapabilityFor(request, analysis)),
      snapshot.models);
      mine in unrestricted && unrestricted != [] && anyones == unrestricted[0] && Before(anyones, mine)
  {
    var capability, proposal := CapabilityFor(request, analysis), ProposalFor(request, analysis);
    ExternalRoute(request, snapshot, settings, Some(caller), analysis);
    CallerDecision(request, snapshot, settings, caller, proposal);
    CallerTightens(settings, request, caller, capability);
    var tight, loose := QueryOf(settings, request, Some(caller), capability),
      QueryOf(settings, request, None, capability);
    TighteningNeverPromotes(tight, loose, snapshot);
    mine, anyones := Eligible(tight, snapshot.models)[0], Eligible(loose, snapshot.models)[0];
    SameRoute(request, snapshot, settings, caller, analysis);
  }

  /** Without the caller, the same proposal is decided on. */
  lemma SameRoute(request: ChatRequest, snapshot: Registry, settings: Settings, caller: Caller, analysis: Analysis)
    requires Route(request, snapshot, settings, Some(caller), analysis).Routed?
    requires Route(request, snapshot, settings, Some(caller), analysis).decision.action == ExternalModel
    ensures Route(request, snapshot, settings, None, analysis)
      == Routed(DecideFor(request, snapshot, settings, None, ProposalFor(request, analysis)))
  {
    ExternalRoute(request, snapshot, settings, Some(caller), analysis);
    ExternalNeedsProposal(request, snapshot, settings, Some(caller));
    SameMessages(request, Some(caller));
    NeedsAnalysisExactly(Narrowed(request, Some(caller)), snapshot, settings, RetentionOf(Some(caller)),
      HostsOf(Some(caller)));
    NeedsAnalysisExactly(request, snapshot, settings, None, None);
  }

  // ---- where a request goes, exactly ------------------------------------------------------------

  /** One of these actions is decided on: the request's own wish to go outside, or the model's proposal. */
  predicate Analysed(request: ChatRequest, settings: Settings, analysis: Analysis, actions: set<Action>) {
    || (request.omo.action == OnlyExternal && request.omo.requiredCapability != CurrentInformation
        && ExternalModel in actions)
    || (&& NeedsAnalysis(request) && Classification.Serialized(analysis.dump, request.messages).Some?
        && analysis.model.Classified? && analysis.model.tokens <= settings.analysisTokens
        && analysis.model.proposal.Some? && analysis.model.proposal.value.action in actions)
  }

  /** The proposal that the second decision is made on. */
  function Heard(request: ChatRequest, settings: Settings, analysis: Analysis): Option<Proposal> {
    if Analysed(request, settings, analysis, {LocalAnswer, Helper, ExternalModel, Clarify, Reject})
    then ProposalFor(request, analysis) else None
  }

  lemma RouteFollows(
    request: ChatRequest, snapshot: Registry, settings: Settings, caller: Option<Caller>, analysis: Analysis)
    ensures var heard := Heard(request, settings, analysis);
      var routed := Route(request, snapshot, settings, caller, analysis);
      if !Awaits(request) then routed == Routed(DecideFor(request, snapshot, settings, caller, None))
      else if heard.Some? then routed == Routed(DecideFor(request, snapshot, settings, caller, heard))
      else routed.Routed? ==> routed.decision.action == Reject
  {
    SameMessages(request, caller);
    NeedsAnalysisExactly(Narrowed(request, caller), snapshot, settings, RetentionOf(caller), HostsOf(caller));
  }

  /** The entry may serve the request of this caller: its own retention, hosts and cost cap count too. */
  predicate MayServe(
    m: ModelEntry, request: ChatRequest, capability: Capability, settings: Settings, caller: Option<Caller>)
  {
    && Serves(m, request, capability, settings, None, None)
    && (caller.Some? ==>
          && m.retention in caller.value.allowedRetention && m.host in caller.value.allowedHosts
          && Fits(m, request, caller.value.maxCost))
  }

  lemma ServesNarrowed(m: ModelEntry, request: ChatRequest, capability: Capability, settings: Settings,
      caller: Option<Caller>)
    ensures Serves(m, Narrowed(request, caller), capability, settings, RetentionOf(caller), HostsOf(caller))
      <==> MayServe(m, request, capability, settings, caller)
  {
    if caller.Some? && m.inputPrice.Some? && m.outputPrice.Some? {
      var least := Narrowed(request, caller).omo.maxCost;
      FitsSame(m, request, Narrowed(request, caller));
      FitsMore(m, request, least, request.omo.maxCost);
      FitsMore(m, request, least, caller.value.maxCost);
    }
  }

  lemma FitsSame(m: ModelEntry, a: ChatRequest, b: ChatRequest)
    requires m.inputPrice.Some? && m.outputPrice.Some? && a.messages == b.messages && a.maxTokens == b.maxTokens
    ensures forall cap :: Fits(m, a, cap) == Fits(m, b, cap)
  {
  }

  lemma FitsMore(m: ModelEntry, request: ChatRequest, less: real, more: real)
    requires m.inputPrice.Some? && m.outputPrice.Some? && less <= more
    ensures Fits(m, request, less) ==> Fits(m, request, more)
  {
  }

  /** The entry of the least priority number, and then the least identifier, among those that may serve. */
  ghost predicate FirstFor(
    m: ModelEntry, snapshot: Registry, request: ChatRequest, capability: Capability, settings: Settings,
    caller: Option<Caller>)
  {
    && m in snapshot.models && MayServe(m, request, capability, settings, caller)
    && forall other | other in snapshot.models && MayServe(other, request, capability, settings, caller) ::
         m.priority < other.priority || (m.priority == other.priority && StringLe(m.id, other.id))
  }

  /**
   A request is routed outside if and only if it asks for that, or its analysis succeeds and proposes
   that or a local answer, and some entry of the captured registry may serve it within the limits of
   the server, the request and the caller; it is routed to the first such entry.
   */
  lemma RoutedOutsideExactly(
    request: ChatRequest, snapshot: Registry, settings: Settings, caller: Option<Caller>, analysis: Analysis,
    id: string)
    requires snapshot.Valid()
    ensures var routed := Route(request, snapshot, settings, caller, analysis);
      routed.Routed? && routed.decision.action == ExternalModel && routed.decision.target == Some(id) <==>
        Analysed(request, settings, analysis, {ExternalModel, LocalAnswer}) && exists m: ModelEntry ::
          && m.id == id
          && FirstFor(m, snapshot, request, CapabilityFor(request, analysis), settings, caller)
  {
    var narrowed, heard := Narrowed(request, caller), Heard(request, settings, analysis);
    var capability := CapabilityFor(request, analysis);
    RouteFollows(request, snapshot, settings, caller, analysis);
    SameMessages(request, caller);
    OutsideExactly(narrowed, snapshot, settings, None, RetentionOf(caller), HostsOf(caller), id);
    OutsideExactly(narrowed, snapshot, settings, heard, RetentionOf(caller), HostsOf(caller), id);
    forall m ensures FirstFor(m, snapshot, request, capability, settings, caller) <==>
      FirstToServe(m, snapshot, narrowed, capability, settings, RetentionOf(caller), HostsOf(caller))
    {
      forall other { ServesNarrowed(other, request, capability, settings, caller); }
    }
  }

  /** The request states the call, its command spells it, or its analysis succeeds and proposes it. */
  predicate CallGiven(request: ChatRequest, settings: Settings, analysis: Analysis, call: HelperCall) {
    var proposal := if Analysed(request, settings, analysis, {Helper}) then analysis.model.proposal else None;
    CallsFrom(request.omo, Calculator.FastHelper(request), proposal, call)
  }

  lemma HelperHeard(request: ChatRequest, settings: Settings, analysis: Analysis)
    ensures var heard := Heard(request, settings, analysis);
      if Analysed(request, settings, analysis, {Helper}) then Awaits(request) && heard == analysis.model.proposal
      else !Awaits(request) || heard.None? || heard.value.action != Helper
    ensures Analysed(request, settings, analysis, {Helper}) ==>
      analysis.model.Classified? && analysis.model.proposal.Some? && analysis.model.proposal.value.action == Helper
  {
  }

  lemma AwaitsNarrowed(request: ChatRequest, caller: Option<Caller>)
    ensures Awaits(Narrowed(request, caller)) == Awaits(request)
  {
    SameMessages(request, caller);
  }

  lemma CallsNarrowed(
    request: ChatRequest, settings: Settings, caller: Option<Caller>, analysis: Analysis, call: HelperCall)
    ensures CallGiven(request, settings, analysis, call) == CallsFor(
      Narrowed(request, caller), if Awaits(request) then Heard(request, settings, analysis) else None, call)
  {
    HelperHeard(request, settings, analysis);
    AwaitsNarrowed(request, caller);
    SameMessages(request, caller);
    SameCalls(request.omo, Narrowed(request, caller).omo, Calculator.FastHelper(request));
  }

  lemma SameCalls(a: Options, b: Options, fast: Option<HelperCall>)
    requires a.action == b.action && a.helper == b.helper && a.requiredCapability == b.requiredCapability
    ensures forall heard, call :: CallsFrom(a, fast, heard, call) == CallsFrom(b, fast, heard, call)
  {
  }

  /** A request runs a helper if and only if one of these gives the call and it needs no disabled sandbox. */
  lemma RoutedToHelperExactly(
    request: ChatRequest, snapshot: Registry, settings: Settings, caller: Option<Caller>, analysis: Analysis,
    call: HelperCall)
    ensures var routed := Route(request, snapshot, settings, caller, analysis);
      routed.Routed? && routed.decision.action == Helper && routed.decision.helper == Some(call) <==>
        CallGiven(request, settings, analysis, call) && (call.EvenSquares? ==> settings.sandboxEnabled)
  {
    var narrowed, heard := Narrowed(request, caller), Heard(request, settings, analysis);
    RouteFollows(request, snapshot, settings, caller, analysis);
    CallsNarrowed(request, settings, caller, analysis, call);
    if Awaits(request) && heard.None? {
      NothingHeard(request, settings, caller, call);
    } else {
      HelperExactly(narrowed, snapshot, settings, if Awaits(request) then heard else None, RetentionOf(caller),
        HostsOf(caller), call);
    }
  }

  lemma NothingHeard(request: ChatRequest, settings: Settings, caller: Option<Caller>, call: HelperCall)
    requires Awaits(request)
    ensures !CallsFor(Narrowed(request, caller), None, call)
  {
    SameMessages(request, caller);
  }

  /** An analysis that is too long or gives no proposal is refused as that, and nothing else is. */
  lemma AnalysisRefusedExactly(
    request: ChatRequest, snapshot: Registry, settings: Settings, caller: Option<Caller>, analysis: Analysis)
    ensures var routed := Route(request, snapshot, settings, caller, analysis);
      var analysed := NeedsAnalysis(request) && Classification.Serialized(analysis.dump, request.messages).Some?
        && analysis.model.Classified?;
      && (routed.Routed? && routed.decision.reason == "analysis_context_exceeded" <==>
            analysed && analysis.model.tokens > settings.analysisTokens)
      && (routed.Routed? && routed.decision.reason == "invalid_model_proposal" <==>
            analysed && analysis.model.tokens <= settings.analysisTokens && analysis.model.proposal.None?)
  {
    var narrowed, heard := Narrowed(request, caller), Heard(request, settings, analysis);
    RouteFollows(request, snapshot, settings, caller, analysis);
    ReasonKnown(narrowed, snapshot, settings, None, RetentionOf(caller), HostsOf(caller));
    ReasonKnown(narrowed, snapshot, settings, heard, RetentionOf(caller), HostsOf(caller));
    OwnReasons();
    SameMessages(request, caller);
    NeedsAnalysisExactly(narrowed, snapshot, settings, RetentionOf(caller), HostsOf(caller));
  }

  lemma OwnReasons()
    ensures "analysis_context_exceeded" !in REASONS && "invalid_model_proposal" !in REASONS
    ensures "analysis_context_exceeded" != "invalid_model_proposal"
  {
    assert |"analysis_context_exceeded"| != |"invalid_model_proposal"|;
    forall i | 0 <= i < |REASONS|
      ensures REASONS[i] != "analysis_context_exceeded" && REASONS[i] != "invalid_model_proposal"
    {
      assert |REASONS[i]| == 25 ==> REASONS[i][0] == 'e';
      assert |REASONS[i]| == 22 ==> REASONS[i][8] != 'm';
    }
  }

  // ---- the interleaved run --------------------------------------------------------------------

  /** A chat between two awaits. `toSend`: the upstream requests its provider call will send. */
  datatype Phase =
    | Captured
    | Calling(entry: ModelEntry, capability: Capability, cost: real, day: Day, toSend: nat)
    | LookupFailed
    | Over

  datatype Chat = Chat(caller: Option<Caller>, request: ChatRequest, snapshot: Registry, phase: Phase, sent: nat)

  /** Fixed while the service runs: its settings and the access policy. */
  datatype World = World(settings: Settings, callers: map<string, Caller>) {
    predicate Valid() {
      forall id | id in callers :: callers[id].id == id
        && (callers[id].dailyBudget.Some? ==> callers[id].dailyBudget.value >= 0.0)
    }
  }

  /** `asked` records every reservation request made of the ledger. */
  datatype State = State(store: Registry, table: Table, asked: seq<Reservation>, chats: seq<Chat>)

  datatype Step =
    | Reload(result: Registries.ReadResult)
    | Start(callerId: Option<string>, request: ChatRequest)
    | Decided(id: nat, analysis: Analysis, day: Day, hasKey: bool, upstream: seq<Provider.Response<()>>)
    | Send(id: nat)

  /** `chat` after the decision: look up the target, estimate, and ask the ledger for twice the estimate. */
  datatype Payment = Payment(ask: Option<Reservation>, accepted: Phase)

  function Pay(world: World, chat: Chat, analysis: Analysis, day: Day, toSend: nat): Payment {
    var routed := Route(chat.request, chat.snapshot, world.settings, chat.caller, analysis);
    if !routed.Routed? || routed.decision.action != ExternalModel || routed.decision.target.None? then
      Payment(None, Over)
    else match Lookup(chat.snapshot.models, routed.decision.target.value)
      case None => Payment(None, LookupFailed)
      case Some(entry) =>
        var cost := EstimatedCost(entry, chat.request);
        var calling := Calling(
          entry, CapabilityFor(chat.request, analysis), if cost.Some? then cost.value else 0.0, day, toSend);
        Payment(
          if cost.None? || chat.caller.None? then None else Some(ReservationFor(chat.caller.value, cost.value, day)),
          calling)
  }

  /** The state once the ledger has answered: a refused request ends the chat. */
  function AfterPayment(ledger: Ledgering, s: State, id: nat, payment: Payment): State
    requires id < |s.chats|
  {
    if payment.ask.None? then s.(chats := s.chats[id := s.chats[id].(phase := payment.accepted)])
    else
      var (table, ok) := ledger(s.table, payment.ask.value);
      s.(table := table, asked := s.asked + [payment.ask.value],
         chats := s.chats[id := s.chats[id].(phase := if ok then payment.accepted else Over)])
  }

  function ReservationFor(caller: Caller, cost: real, day: Day): Reservation {
    Reservation(caller.id, caller.dailyBudget, Finite(2.0 * cost), day)
  }

  function Apply(ledger: Ledgering, world: World, s: State, step: Step): State {
    match step
    case Reload(result) =>
      if result.Loaded? && !result.registry.Valid() then s
      else s.(store := Registries.AfterReload(s.store, result))
    case Start(callerId, request) =>
      if callerId.Some? && callerId.value !in world.callers then s
      else
        var caller := if callerId.None? then None else Some(world.callers[callerId.value]);
        s.(chats := s.chats + [Chat(caller, request, s.store, Captured, 0)])
    case Decided(id, analysis, day, hasKey, upstream) =>
      if id >= |s.chats| || !s.chats[id].phase.Captured? || |upstream| != 2 then s
      else AfterPayment(ledger, s, id, Pay(world, s.chats[id], analysis, day, Provider.RequestsSent(hasKey, upstream)))
    case Send(id) =>
      if id >= |s.chats| || !s.chats[id].phase.Calling? || s.chats[id].sent >= s.chats[id].phase.toSend then s
      else s.(chats := s.chats[id := s.chats[id].(sent := s.chats[id].sent + 1)])
  }

  function Run(ledger: Ledgering, world: World, store: Registry, steps: seq<Step>): State {
    if steps == [] then State(store, map[], [], [])
    else Apply(ledger, world, Run(ledger, world, store, steps[..|steps| - 1]), steps[|steps| - 1])
  }

  // ---- what is spent --------------------------------------------------------------------------

  function Repeat(n: nat, cost: real): real { if n == 0 then 0.0 else cost + Repeat(n - 1, cost) }

  predicate Bills(chat: Chat, k: Key) {
    chat.phase.Calling? && chat.caller.Some? && (chat.caller.value.id, chat.phase.day) == k
  }

  /** Estimated cost of the upstream requests this chat has sent, on the account `k`. */
  function SpentBy(chat: Chat, k: Key): real { if Bills(chat, k) then Repeat(chat.sent, chat.phase.cost) else 0.0 }

  function ReservedBy(chat: Chat, k: Key): real { if Bills(chat, k) then 2.0 * chat.phase.cost else 0.0 }

  function Spent(chats: seq<Chat>, k: Key): real {
    if chats == [] then 0.0 else Spent(chats[..|chats| - 1], k) + SpentBy(chats[|chats| - 1], k)
  }

  function Reserved(chats: seq<Chat>, k: Key): real {
    if chats == [] then 0.0 else Reserved(chats[..|chats| - 1], k) + ReservedBy(chats[|chats| - 1], k)
  }

  predicate GoodChat(world: World, chat: Chat) {
    && chat.snapshot.Valid()
    && (chat.caller.Some?
      ==> chat.caller.value.id in world.callers && world.callers[chat.caller.value.id] == chat.caller.value)
    && !chat.phase.LookupFailed?
    && (!chat.phase.Calling? ==> chat.sent == 0)
    && (chat.phase.Calling? ==>
          && chat.sent <= chat.phase.toSend <= 2
          && 0.0 <= chat.phase.cost
          && EstimatedCost(chat.phase.entry, chat.request) == Some(chat.phase.cost)
          && 2.0 * chat.phase.cost <= CostCap(world.settings, chat.request, chat.caller)
          && chat.phase.entry in chat.snapshot.models
          && QueryOf(world.settings, chat.request, chat.caller, chat.phase.capability).Allows(chat.phase.entry))
  }

  predicate Budgeted(world: World, k: Key) { k.0 in world.callers && world.callers[k.0].dailyBudget.Some? }

  /** The ledger entry of an account is what its chats have reserved, within the budget. */
  predicate Balanced(world: World, s: State, k: Key) {
    Budgeted(world, k) ==> Held(s.table, k) == Reserved(s.chats, k) <= world.callers[k.0].dailyBudget.value
  }

  ghost predicate Inv(world: World, s: State) {
    && s.store.Valid()
    && (forall i | 0 <= i < |s.chats| :: GoodChat(world, s.chats[i]))
    && (forall k: Key :: Balanced(world, s, k))
  }

  lemma {:induction false} ReservedUpdate(chats: seq<Chat>, id: nat, chat: Chat, k: Key)
    requires id < |chats|
    ensures Reserved(chats[id := chat], k) == Reserved(chats, k) - ReservedBy(chats[id], k) + ReservedBy(chat, k)
  {
    var front := chats[..|chats| - 1];
    if id == |chats| - 1 {
      assert chats[id := chat][..|chats| - 1] == front;
    } else {
      ReservedUpdate(front, id, chat, k);
      assert chats[id := chat][..|chats| - 1] == front[id := chat];
    }
  }

  lemma {:induction false} SpentWithinReserved(world: World, chats: seq<Chat>, k: Key)
    requires forall i | 0 <= i < |chats| :: GoodChat(world, chats[i])
    ensures Spent(chats, k) <= Reserved(chats, k)
  {
    if chats != [] {
      SpentWithinReserved(world, chats[..|chats| - 1], k);
      var last := chats[|chats| - 1];
      AtMostTwice(last.sent, if last.phase.Calling? then last.phase.cost else 0.0);
    }
  }

  lemma AtMostTwice(n: nat, cost: real)
    requires 0.0 <= cost
    ensures n <= 2 ==> Repeat(n, cost) <= 2.0 * cost
  {
    assert Repeat(1, cost) == cost + Repeat(0, cost);
    assert Repeat(2, cost) == cost + Repeat(1, cost);
  }

  /** A decision asks for twice its estimate, exactly when there is a caller to charge. */
  lemma PayExact(world: World, chat: Chat, analysis: Analysis, day: Day, toSend: nat)
    requires GoodChat(world, chat) && chat.phase.Captured? && toSend <= 2
    ensures var payment := Pay(world, chat, analysis, day, toSend);
      && GoodChat(world, chat.(phase := payment.accepted))
      && (payment.accepted.Over? || payment.accepted.Calling?)
      && (payment.accepted.Calling? ==>
            payment.accepted.day == day && payment.accepted.capability == CapabilityFor(chat.request, analysis))
      && payment.ask == (if payment.accepted.Calling? && chat.caller.Some?
           then Some(ReservationFor(chat.caller.value, payment.accepted.cost, day)) else None)
  {
    var routed := Route(chat.request, chat.snapshot, world.settings, chat.caller, analysis);
    if routed.Routed? && routed.decision.action == ExternalModel {
      var entry := RouteAffordable(chat.request, chat.snapshot, world.settings, chat.caller, analysis);
    }
  }

  // ---- every step -----------------------------------------------------------------------------

  /** A chat that is granted its reservation on `k` adds exactly that, and only within the budget. */
  lemma PaymentBalanced(world: World, s: State, id: nat, payment: Payment, k: Key)
    requires world.Valid() && id < |s.chats| && GoodChat(world, s.chats[id]) && s.chats[id].phase.Captured?
    requires GoodChat(world, s.chats[id].(phase := payment.accepted))
    requires payment.ask == (if payment.accepted.Calling? && s.chats[id].caller.Some?
      then Some(ReservationFor(s.chats[id].caller.value, payment.accepted.cost, payment.accepted.day)) else None)
    requires Balanced(world, s, k)
    ensures Balanced(world, AfterPayment(Reserve, s, id, payment), k)
  {
    ReservedUpdate(s.chats, id, AfterPayment(Reserve, s, id, payment).chats[id], k);
  }

  lemma DecidedKeeps(world: World, s: State, id: nat, analysis: Analysis, day: Day, hasKey: bool,
      upstream: seq<Provider.Response<()>>)
    requires world.Valid() && Inv(world, s)
    ensures Inv(world, Apply(Reserve, world, s, Decided(id, analysis, day, hasKey, upstream)))
  {
    if id < |s.chats| && s.chats[id].phase.Captured? && |upstream| == 2 {
      var toSend := Provider.RequestsSent(hasKey, upstream);
      var payment := Pay(world, s.chats[id], analysis, day, toSend);
      PayExact(world, s.chats[id], analysis, day, toSend);
      forall k: Key ensures Balanced(world, AfterPayment(Reserve, s, id, payment), k) {
        assert Balanced(world, s, k);
        PaymentBalanced(world, s, id, payment, k);
      }
    }
  }

  lemma SendKeeps(ledger: Ledgering, world: World, s: State, id: nat)
    requires Inv(world, s)
    ensures Inv(world, Apply(ledger, world, s, Send(id)))
  {
    var next := Apply(ledger, world, s, Send(id));
    forall k: Key ensures Balanced(world, next, k) {
      assert Balanced(world, s, k);
      if next != s {
        ReservedUpdate(s.chats, id, next.chats[id], k);
      }
    }
  }

  lemma StartKeeps(ledger: Ledgering, world: World, s: State, callerId: Option<string>, request: ChatRequest)
    requires world.Valid() && Inv(world, s)
    ensures Inv(world, Apply(ledger, world, s, Start(callerId, request)))
  {
    var next := Apply(ledger, world, s, Start(callerId, request));
    forall k: Key ensures Balanced(world, next, k) {
      assert Balanced(world, s, k);
      if next != s {
        assert next.chats[..|next.chats| - 1] == s.chats;
      }
    }
  }

  lemma StepKeeps(world: World, s: State, step: Step)
    requires world.Valid() && Inv(world, s)
    ensures Inv(world, Apply(Reserve, world, s, step))
  {
    match step
    case Reload(result) =>
      forall k: Key ensures Balanced(world, Apply(Reserve, world, s, step), k) {
        assert Balanced(world, s, k);
      }
    case Start(callerId, request) => StartKeeps(Reserve, world, s, callerId, request);
    case Decided(id, analysis, day, hasKey, upstream) => DecidedKeeps(world, s, id, analysis, day, hasKey, upstream);
    case Send(id) => SendKeeps(Reserve, world, s, id);
  }

  lemma {:induction false} RunKeeps(world: World, store: Registry, steps: seq<Step>)
    requires world.Valid() && store.Valid()
    ensures Inv(world, Run(Reserve, world, store, steps))
  {
    if steps != [] {
      RunKeeps(world, store, steps[..|steps| - 1]);
      StepKeeps(world, Run(Reserve, world, store, steps[..|steps| - 1]), steps[|steps| - 1]);
    }
  }

  // ---- over every run -------------------------------------------------------------------------

  /**
   However chats, reloads and upstream requests interleave, the estimated cost of the requests a
   caller's chats really sent never passes the caller's budget for the day it was reserved on.
   */
  lemma BudgetsKept(world: World, store: Registry, steps: seq<Step>, id: string, day: Day)
    requires world.Valid() && store.Valid()
    requires id in world.callers && world.callers[id].dailyBudget.Some?
    ensures Spent(Run(Reserve, world, store, steps).chats, (id, day)) <= world.callers[id].dailyBudget.value
  {
    var s := Run(Reserve, world, store, steps);
    RunKeeps(world, store, steps);
    SpentWithinReserved(world, s.chats, (id, day));
    assert Balanced(world, s, (id, day));
  }

  /** The share of each chat stays within the least of the three cost caps, with or without a caller. */
  lemma EachChatWithinCap(world: World, store: Registry, steps: seq<Step>, i: nat)
    requires world.Valid() && store.Valid() && i < |Run(Reserve, world, store, steps).chats|
    requires Run(Reserve, world, store, steps).chats[i].phase.Calling?
    ensures var chat := Run(Reserve, world, store, steps).chats[i];
      Repeat(chat.sent, chat.phase.cost) <= CostCap(world.settings, chat.request, chat.caller)
  {
    RunKeeps(world, store, steps);
    var chat := Run(Reserve, world, store, steps).chats[i];
    AtMostTwice(chat.sent, chat.phase.cost);
  }

  /** The registry the last successful reload loaded; the initial one before any. */
  function LastLoaded(store: Registry, steps: seq<Step>): Registry {
    if steps == [] then store
    else
      var last := steps[|steps| - 1];
      if last.Reload? && last.result.Loaded? && last.result.registry.Valid() then last.result.registry
      else LastLoaded(store, steps[..|steps| - 1])
  }

  // ---- the in-memory ledger -------------------------------------------------------------------

  predicate Recorded(ledger: Ledgering, s: State) { s.table == TableAfter(ledger, s.asked) }

  lemma PaymentRecorded(ledger: Ledgering, s: State, id: nat, payment: Payment)
    requires id < |s.chats| && Recorded(ledger, s)
    ensures Recorded(ledger, AfterPayment(ledger, s, id, payment))
  {
    if payment.ask.Some? {
      assert (s.asked + [payment.ask.value])[..|s.asked|] == s.asked;
    }
  }

  lemma StepRecorded(ledger: Ledgering, world: World, s: State, step: Step)
    requires Recorded(ledger, s)
    ensures Recorded(ledger, Apply(ledger, world, s, step))
  {
    if step.Decided? && step.id < |s.chats| && |step.upstream| == 2 {
      var payment := Pay(world, s.chats[step.id], step.analysis, step.day,
        Provider.RequestsSent(step.hasKey, step.upstream));
      PaymentRecorded(ledger, s, step.id, payment);
    }
  }

  lemma {:induction false} RunRecorded(ledger: Ledgering, world: World, store: Registry, steps: seq<Step>)
    ensures Recorded(ledger, Run(ledger, world, store, steps))
  {
    if steps != [] {
      RunRecorded(ledger, world, store, steps[..|steps| - 1]);
      StepRecorded(ledger, world, Run(ledger, world, store, steps[..|steps| - 1]), steps[|steps| - 1]);
    }
  }

  /** Two ledgers that give the same answers lead the chats the same way. */
  predicate SameChats(a: State, b: State) { a.store == b.store && a.asked == b.asked && a.chats == b.chats }

  lemma {:induction false} AskedGrows(ledger: Ledgering, world: World, s: State, step: Step)
    ensures s.asked <= Apply(ledger, world, s, step).asked
  {
  }

  lemma PaymentsAgree(l1: Ledgering, l2: Ledgering, s1: State, s2: State, id: nat, payment: Payment)
    requires SameChats(s1, s2) && id < |s1.chats|
    requires payment.ask.Some? ==> l1(s1.table, payment.ask.value).1 == l2(s2.table, payment.ask.value).1
    ensures SameChats(AfterPayment(l1, s1, id, payment), AfterPayment(l2, s2, id, payment))
  {
  }

  lemma AnswersAgree(pruned: State, kept: State, r: Reservation)
    requires SameChats(pruned, kept) && Recorded(Reserve, kept) && Recorded(ReservePruned, pruned)
    requires Contiguous(kept.asked + [r])
    ensures ReservePruned(pruned.table, r).1 == Reserve(kept.table, r).1
  {
    var asked := kept.asked + [r];
    assert asked[..|asked| - 1] == kept.asked;
    PrunedIsRestriction(asked);
    assert Accepts(ReservePruned, asked) == Accepts(Reserve, asked);
  }

  lemma StepsAgree(world: World, pruned: State, kept: State, step: Step)
    requires SameChats(pruned, kept) && Recorded(Reserve, kept) && Recorded(ReservePruned, pruned)
    requires Contiguous(Apply(Reserve, world, kept, step).asked)
    ensures SameChats(Apply(ReservePruned, world, pruned, step), Apply(Reserve, world, kept, step))
  {
    if step.Decided? && step.id < |kept.chats| && kept.chats[step.id].phase.Captured? && |step.upstream| == 2 {
      var payment := Pay(world, kept.chats[step.id], step.analysis, step.day,
        Provider.RequestsSent(step.hasKey, step.upstream));
      if payment.ask.Some? {
        AnswersAgree(pruned, kept, payment.ask.value);
      }
      PaymentsAgree(ReservePruned, Reserve, pruned, kept, step.id, payment);
    }
  }

  /**
   A service on the in-memory ledger runs exactly as one on the table, as long as no day is asked
   for again after another one.
   */
  lemma {:induction false} MemoryRunsAgree(world: World, store: Registry, steps: seq<Step>)
    requires Contiguous(Run(Reserve, world, store, steps).asked)
    ensures SameChats(Run(ReservePruned, world, store, steps), Run(Reserve, world, store, steps))
  {
    if steps != [] {
      var front := steps[..|steps| - 1];
      AskedGrows(Reserve, world, Run(Reserve, world, store, front), steps[|steps| - 1]);
      MemoryRunsAgree(world, store, front);
      RunRecorded(Reserve, world, store, front);
      RunRecorded(ReservePruned, world, store, front);
      StepsAgree(world, Run(ReservePruned, world, store, front), Run(Reserve, world, store, front), steps[|steps| - 1]);
    }
  }

  lemma BudgetsKeptInMemory(world: World, store: Registry, steps: seq<Step>, id: string, day: Day)
    requires world.Valid() && store.Valid() && Contiguous(Run(Reserve, world, store, steps).asked)
    requires id in world.callers && world.callers[id].dailyBudget.Some?
    ensures Spent(Run(ReservePruned, world, store, steps).chats, (id, day)) <= world.callers[id].dailyBudget.value
  {
    MemoryRunsAgree(world, store, steps);
    BudgetsKept(world, store, steps, id, day);
  }

  // ---- the registry ---------------------------------------------------------------------------

  /** Chats never disturb the store: it is the last registry that validated. */
  lemma {:induction false} StoreIsLastLoaded(world: World, store: Registry, steps: seq<Step>)
    ensures Run(Reserve, world, store, steps).store == LastLoaded(store, steps)
  {
    if steps != [] {
      StoreIsLastLoaded(world, store, steps[..|steps| - 1]);
    }
  }

  lemma ChatsKeepSnapshots(ledger: Ledgering, world: World, s: State, step: Step, i: nat)
    requires i < |s.chats|
    ensures i < |Apply(ledger, world, s, step).chats|
    ensures Apply(ledger, world, s, step).chats[i].snapshot == s.chats[i].snapshot
    ensures Apply(ledger, world, s, step).chats[i].request == s.chats[i].request
    ensures Apply(ledger, world, s, step).chats[i].caller == s.chats[i].caller
  {
  }

  /** A chat started at step `n` keeps the registry that was the last loaded one at that moment. */
  lemma {:induction false} SnapshotIsFromStart(
    world: World, store: Registry, steps: seq<Step>, n: nat, callerId: Option<string>, request: ChatRequest)
    requires n < |steps| && steps[n] == Start(callerId, request) && (callerId.Some? ==> callerId.value in world.callers)
    ensures var id := |Run(Reserve, world, store, steps[..n]).chats|;
      id < |Run(Reserve, world, store, steps).chats|
      && Run(Reserve, world, store, steps).chats[id].snapshot == LastLoaded(store, steps[..n])
      && Run(Reserve, world, store, steps).chats[id].request == request
  {
    var front := steps[..|steps| - 1];
    var id := |Run(Reserve, world, store, steps[..n]).chats|;
    if n == |steps| - 1 {
      StoreIsLastLoaded(world, store, front);
      assert front == steps[..n];
    } else {
      SnapshotIsFromStart(world, store, front, n, callerId, request);
      assert front[..n] == steps[..n];
      ChatsKeepSnapshots(Reserve, world, Run(Reserve, world, store, front), steps[|steps| - 1], id);
    }
  }

  /**
   The lookup in `chat` finds its target in every interleaving, reloads included: an entry of the
   captured registry that passed every filter, and its estimate is the one that was reserved.
   */
  lemma LookupAlwaysFinds(world: World, store: Registry, steps: seq<Step>, i: nat)
    requires world.Valid() && store.Valid() && i < |Run(Reserve, world, store, steps).chats|
    ensures var chat := Run(Reserve, world, store, steps).chats[i];
      && !chat.phase.LookupFailed?
      && (chat.phase.Calling? ==>
            && chat.phase.entry in chat.snapshot.models
            && QueryOf(world.settings, chat.request, chat.caller, chat.phase.capability).Allows(chat.phase.entry)
            && EstimatedCost(chat.phase.entry, chat.request) == Some(chat.phase.cost))
  {
    RunKeeps(world, store, steps);
  }

  // ---- one chat -------------------------------------------------------------------------------

  /** What the upstream would answer, in lines or in chunks, to the requests of one chat. */
  datatype Upstream = Upstream(
    decode: EventStream.Decoder, load: Provider.Bytes -> EventStream.Loading, hasKey: bool,
    lines: seq<Provider.Response<Provider.Lines>>, chunks: seq<Provider.Response<Provider.Chunks>>)
  {
    predicate Valid() { |lines| == 2 && |chunks| == 2 }

    function Sent(stream: bool): nat
      requires Valid()
    {
      if stream then Provider.RequestsSent(hasKey, lines) else Provider.RequestsSent(hasKey, chunks)
    }

    function Completed(stream: bool): Provider.Completion
      requires Valid()
    {
      if stream then Provider.StreamCompleted(decode, hasKey, lines) else Provider.Completed(load, hasKey, chunks)
    }
  }

  datatype Result =
    | External(model: string, estimated: real, completion: Provider.Completion)
    | BudgetExceeded           // OmoError("caller_budget_exceeded", 429)
    | Internal(decision: Decision)
    | RouteRaised(outcome: RouteOutcome)

  function Plan(settings: Settings, snapshot: Registry, request: ChatRequest, caller: Option<Caller>,
      analysis: Analysis, day: Day): Payment {
    Pay(World(settings, map[]), Chat(caller, request, snapshot, Captured, 0), analysis, day, 2)
  }

  /** The table, the result and the number of upstream requests after one chat. */
  function ChatOf(
    ledger: Ledgering, table: Table, settings: Settings, snapshot: Registry, request: ChatRequest,
    caller: Option<Caller>, analysis: Analysis, day: Day, upstream: Upstream): (Table, Result, nat)
    requires upstream.Valid()
  {
    var plan := Plan(settings, snapshot, request, caller, analysis, day);
    if !plan.accepted.Calling? then
      var routed := Route(request, snapshot, settings, caller, analysis);
      (table, if routed.Routed? then Internal(routed.decision) else RouteRaised(routed), 0)
    else
      var (next, ok) := if plan.ask.None? then (table, true) else ledger(table, plan.ask.value);
      if !ok then (next, BudgetExceeded, 0)
      else (next, External(plan.accepted.entry.id, plan.accepted.cost, upstream.Completed(request.stream)),
        upstream.Sent(request.stream))
  }

  /**
   Whatever the ledger: a chat that sends upstream requests sends at most two, to a registry entry
   that passed every filter, and only after the ledger has accepted twice the estimate for its
   caller; a chat that is refused or answered otherwise leaves the table as the refusal left it.
   */
  lemma ChatPaysFirst(
    ledger: Ledgering, table: Table, settings: Settings, snapshot: Registry, request: ChatRequest,
    caller: Option<Caller>, analysis: Analysis, day: Day, upstream: Upstream)
    requires upstream.Valid() && snapshot.Valid()
    ensures var (next, result, sent) := ChatOf(ledger, table, settings, snapshot, request, caller, analysis, day,
      upstream);
      && sent <= 2
      && (sent > 0 ==> result.External?)
      && (result.External? ==>
            && Lookup(snapshot.models, result.model).Some?
            && var entry := Lookup(snapshot.models, result.model).value;
            && QueryOf(settings, request, caller, CapabilityFor(request, analysis)).Allows(entry)
            && EstimatedCost(entry, request) == Some(result.estimated)
            && Repeat(sent, result.estimated) <= CostCap(settings, request, caller)
            && if caller.Some? then (next, true) == ledger(table, ReservationFor(caller.value, result.estimated, day))
               else next == table)
      && (result.Internal? || result.RouteRaised? ==> next == table)
  {
    var routed := Route(request, snapshot, settings, caller, analysis);
    if routed.Routed? && routed.decision.action == ExternalModel {
      var entry := RouteAffordable(request, snapshot, settings, caller, analysis);
      AtMostTwice(upstream.Sent(request.stream), EstimatedCost(entry, request).value);
    }
  }

  /**
   How a chat ends: outside exactly when it is routed there and the ledger accepts twice the bill of
   all its tokens, if there is a caller to charge; with the completion and the requests of the streamed
   call if it asks for a stream and of the buffered call otherwise; else as its decision says.
   */
  lemma ChatEndsExactly(
    ledger: Ledgering, table: Table, settings: Settings, snapshot: Registry, request: ChatRequest,
    caller: Option<Caller>, analysis: Analysis, day: Day, upstream: Upstream)
    requires upstream.Valid() && snapshot.Valid()
    ensures var routed := Route(request, snapshot, settings, caller, analysis);
      var (next, result, sent) := ChatOf(ledger, table, settings, snapshot, request, caller, analysis, day, upstream);
      if !routed.Routed? then result == RouteRaised(routed) && sent == 0
      else if routed.decision.action != ExternalModel then result == Internal(routed.decision) && sent == 0
      else exists entry, cost ::
        && Targeted(snapshot, routed.decision, request, entry, cost)
        && EndsOutside(ledger, table, request, caller, day, upstream, entry.id, cost, result, sent)
  {
    var routed := Route(request, snapshot, settings, caller, analysis);
    if routed.Routed? && routed.decision.action == ExternalModel {
      var entry := RouteAffordable(request, snapshot, settings, caller, analysis);
      EstimateIsBill(entry, request);
      assert Targeted(snapshot, routed.decision, request, entry, EstimatedCost(entry, request).value);
    }
  }

  /** Refused by the ledger, or the completion and the requests of the streamed or the buffered call. */
  predicate EndsOutside(
    ledger: Ledgering, table: Table, request: ChatRequest, caller: Option<Caller>, day: Day, upstream: Upstream,
    model: string, cost: real, result: Result, sent: nat)
    requires upstream.Valid()
  {
    if caller.Some?
      && !ledger(table, Reservation(caller.value.id, caller.value.dailyBudget, Finite(cost + cost), day)).1
    then result == BudgetExceeded && sent == 0
    else if request.stream then
      && result == External(model, cost, Provider.StreamCompleted(upstream.decode, upstream.hasKey, upstream.lines))
      && sent == Provider.RequestsSent(upstream.hasKey, upstream.lines)
    else
      && result == External(model, cost, Provider.Completed(upstream.load, upstream.hasKey, upstream.chunks))
      && sent == Provider.RequestsSent(upstream.hasKey, upstream.chunks)
  }

  /** The decision's target is this entry of the registry, and all tokens of the request cost this there. */
  predicate Targeted(snapshot: Registry, decision: Decision, request: ChatRequest, entry: ModelEntry, cost: real) {
    && entry in snapshot.models && decision.target == Some(entry.id)
    && entry.inputPrice.Some? && entry.outputPrice.Some?
    && Billed(cost, TokenBound(request.messages) as real, entry.inputPrice.value, request.maxTokens as real,
         entry.outputPrice.value)
  }

  /** In memory, or on the table that keeps everything. */
  function LedgerOf(inMemory: bool): Ledgering { if inMemory then ReservePruned else Reserve }

  /**
   A chat is refused for its budget if and only if it is routed outside, its caller has a daily budget
   and what the caller was granted that day leaves no room for twice the estimate. A caller without a
   daily budget never is.
   */
  lemma BudgetExceededExactly(
    h: seq<Reservation>, budgets: map<string, real>, inMemory: bool, settings: Settings, snapshot: Registry,
    request: ChatRequest, caller: Caller, analysis: Analysis, day: Day, upstream: Upstream)
    requires upstream.Valid() && snapshot.Valid()
    requires Consistent(h + [Reservation(caller.id, caller.dailyBudget, Finite(0.0), day)], budgets)
    requires inMemory ==> Contiguous(h + [Reservation(caller.id, caller.dailyBudget, Finite(0.0), day)])
    ensures var ledger := LedgerOf(inMemory);
      var routed := Route(request, snapshot, settings, Some(caller), analysis);
      var result := ChatOf(
        ledger, TableAfter(ledger, h), settings, snapshot, request, Some(caller), analysis, day, upstream).1;
      result.BudgetExceeded? <==>
        && routed.Routed? && routed.decision.action == ExternalModel && caller.dailyBudget.Some?
        && exists entry, cost ::
             && Targeted(snapshot, routed.decision, request, entry, cost)
             && Granted(ledger, h, (caller.id, day)) + 2.0 * cost > caller.dailyBudget.value
  {
    var routed := Route(request, snapshot, settings, Some(caller), analysis);
    if routed.Routed? && routed.decision.action == ExternalModel {
      var entry := RouteAffordable(request, snapshot, settings, Some(caller), analysis);
      var cost := EstimatedCost(entry, request).value;
      EstimateIsBill(entry, request);
      assert Targeted(snapshot, routed.decision, request, entry, cost);
      OneTarget(snapshot, routed.decision, request, entry, cost);
      AcceptsOwed(h, budgets, inMemory, ReservationFor(caller, cost, day));
    }
  }

  /** Ids are unique and a bill is a number, so there is one target and one cost. */
  lemma OneTarget(snapshot: Registry, decision: Decision, request: ChatRequest, entry: ModelEntry, cost: real)
    requires snapshot.Valid() && Targeted(snapshot, decision, request, entry, cost)
    ensures forall e, c :: Targeted(snapshot, decision, request, e, c) ==> e == entry && c == cost
  {
    forall e, c | Targeted(snapshot, decision, request, e, c) ensures e == entry && c == cost {
      assert e == entry;
    }
  }

  lemma AcceptsOwed(h: seq<Reservation>, budgets: map<string, real>, inMemory: bool, r: Reservation)
    requires r.amount.Finite? && r.amount.value >= 0.0
    requires Consistent(h + [r.(amount := Finite(0.0))], budgets)
    requires inMemory ==> Contiguous(h + [r.(amount := Finite(0.0))])
    ensures var ledger := LedgerOf(inMemory);
      ledger(TableAfter(ledger, h), r).1 <==> Owed(r, Granted(ledger, h, r.EntryKey()))
  {
    var all, zero := h + [r], h + [r.(amount := Finite(0.0))];
    assert all[..|all| - 1] == h;
    assert forall i | 0 <= i < |all| :: all[i].Counts() == zero[i].Counts() && all[i].day == zero[i].day;
    assert Consistent(all, budgets) by {
      assert forall i | 0 <= i < |all| :: all[i].caller == zero[i].caller && all[i].budget == zero[i].budget;
    }
    if inMemory {
      MemoryAcceptedExactly(all, budgets);
    } else {
      AcceptedExactly(all, budgets);
    }
  }

  /** What each request would be answered, without the bodies. */
  function Heads<Body>(upstream: seq<Provider.Response<Body>>): seq<Provider.Response<()>> {
    seq(|upstream|, i requires 0 <= i < |upstream| =>
      match upstream[i]
      case Answer(status, _) => Provider.Answer(status, ())
      case NoAnswer(code) => Provider.NoAnswer(code))
  }

  /** A whole chat that nothing comes between: it starts, is decided, and sends while it may. */
  function Alone(
    ledger: Ledgering, world: World, s: State, callerId: Option<string>, request: ChatRequest, analysis: Analysis,
    day: Day, hasKey: bool, heads: seq<Provider.Response<()>>): State
  {
    var id := |s.chats|;
    var decided := Apply(ledger, world, Apply(ledger, world, s, Start(callerId, request)),
      Decided(id, analysis, day, hasKey, heads));
    Apply(ledger, world, Apply(ledger, world, decided, Send(id)), Send(id))
  }

  /** The chat has ended like this: the same target and cost, and as many requests sent. */
  predicate EndedAs(chat: Chat, result: Result, sent: nat) {
    && chat.sent == sent && (chat.phase.Calling? <==> result.External?)
    && (result.External? ==> chat.phase.entry.id == result.model && chat.phase.cost == result.estimated)
  }

  /**
   A chat that runs alone is a run of the interleaved machine: starting, deciding and sending as long
   as it may leaves the same table, the same target and cost, and the same number of requests sent.
   */
  lemma ChatIsRun(
    ledger: Ledgering, world: World, s: State, callerId: Option<string>, request: ChatRequest, analysis: Analysis,
    day: Day, upstream: Upstream)
    requires s.store.Valid() && upstream.Valid() && (callerId.Some? ==> callerId.value in world.callers)
    ensures var caller := if callerId.None? then None else Some(world.callers[callerId.value]);
      var heads := if request.stream then Heads(upstream.lines) else Heads(upstream.chunks);
      var t := Alone(ledger, world, s, callerId, request, analysis, day, upstream.hasKey, heads);
      var (table, result, sent) := ChatOf(
        ledger, s.table, world.settings, s.store, request, caller, analysis, day, upstream);
      t.table == table && |t.chats| == |s.chats| + 1 && t.chats[..|s.chats|] == s.chats
      && EndedAs(t.chats[|s.chats|], result, sent)
  {
    var caller := if callerId.None? then None else Some(world.callers[callerId.value]);
    var heads := if request.stream then Heads(upstream.lines) else Heads(upstream.chunks);
    var chat := Chat(caller, request, s.store, Captured, 0);
    var toSend := Provider.RequestsSent(upstream.hasKey, heads);
    assert toSend == upstream.Sent(request.stream);
    AloneServed(ledger, world, s, callerId, chat, analysis, day, upstream.hasKey, heads);
    AloneEnds(ledger, s.table, world, chat, analysis, day, upstream, toSend);
  }

  /** The payment of a chat and the answer of the ledger decide how it ends. */
  function PaidChat(ledger: Ledgering, table: Table, chat: Chat, payment: Payment, toSend: nat): (Table, Chat) {
    var (next, ok) := if payment.ask.None? then (table, true) else ledger(table, payment.ask.value);
    (next, chat.(
      phase := if ok then payment.accepted else Over, sent := if ok && payment.accepted.Calling? then toSend else 0))
  }

  lemma AloneServed(
    ledger: Ledgering, world: World, s: State, callerId: Option<string>, chat: Chat, analysis: Analysis, day: Day,
    hasKey: bool, heads: seq<Provider.Response<()>>)
    requires |heads| == 2 && (callerId.Some? ==> callerId.value in world.callers)
    requires chat == Chat(
      if callerId.None? then None else Some(world.callers[callerId.value]), chat.request, s.store, Captured, 0)
    ensures var toSend := Provider.RequestsSent(hasKey, heads);
      var t := Alone(ledger, world, s, callerId, chat.request, analysis, day, hasKey, heads);
      var paid := PaidChat(ledger, s.table, chat, Pay(world, chat, analysis, day, toSend), toSend);
      t.table == paid.0 && t.chats == s.chats + [paid.1]
  {
    var id := |s.chats|;
    var started := Apply(ledger, world, s, Start(callerId, chat.request));
    assert started == s.(chats := s.chats + [chat]) && started.chats[id] == chat;
    var toSend := Provider.RequestsSent(hasKey, heads);
    var decided := Apply(ledger, world, started, Decided(id, analysis, day, hasKey, heads));
    assert decided == AfterPayment(ledger, started, id, Pay(world, chat, analysis, day, toSend));
    PayCalls(world, chat, analysis, day, toSend);
    SendTwice(ledger, world, decided, id);
  }

  lemma PayCalls(world: World, chat: Chat, analysis: Analysis, day: Day, toSend: nat)
    ensures var phase := Pay(world, chat, analysis, day, toSend).accepted;
      phase.Calling? ==> phase.toSend == toSend
  {
  }

  /** That is how one chat on a ledger of its own ends. */
  lemma AloneEnds(
    ledger: Ledgering, table: Table, world: World, chat: Chat, analysis: Analysis, day: Day, upstream: Upstream,
    toSend: nat)
    requires chat.snapshot.Valid() && upstream.Valid() && toSend == upstream.Sent(chat.request.stream)
    ensures var paid := PaidChat(ledger, table, chat, Pay(world, chat, analysis, day, toSend), toSend);
      var (next, result, sent) := ChatOf(
        ledger, table, world.settings, chat.snapshot, chat.request, chat.caller, analysis, day, upstream);
      paid.0 == next && EndedAs(paid.1, result, sent)
  {
    SamePlan(world, chat, analysis, day, toSend);
    PlanCalls(world.settings, chat.snapshot, chat.request, chat.caller, analysis, day);
  }

  /** Only a chat that is to call its provider asks for a reservation. */
  lemma PlanCalls(settings: Settings, snapshot: Registry, request: ChatRequest, caller: Option<Caller>,
      analysis: Analysis, day: Day)
    requires snapshot.Valid()
    ensures var plan := Plan(settings, snapshot, request, caller, analysis, day);
      plan.ask.Some? ==> plan.accepted.Calling?
  {
  }

  lemma SendTwice(ledger: Ledgering, world: World, s: State, id: nat)
    requires id < |s.chats| && s.chats[id].sent == 0
    requires s.chats[id].phase.Calling? ==> s.chats[id].phase.toSend <= 2
    ensures Apply(ledger, world, Apply(ledger, world, s, Send(id)), Send(id)) == s.(chats := s.chats[id :=
      s.chats[id].(sent := if s.chats[id].phase.Calling? then s.chats[id].phase.toSend else 0)])
  {
    var once := Apply(ledger, world, s, Send(id));
    var twice := Apply(ledger, world, once, Send(id));
    assert s.chats[id].phase.Calling? && s.chats[id].phase.toSend == 2 ==> once.chats[id].sent == 1;
    assert twice.chats == s.chats[id := twice.chats[id]];
  }

  /** The plan of a chat is its payment, up to the number of requests. */
  lemma SamePlan(world: World, chat: Chat, analysis: Analysis, day: Day, toSend: nat)
    ensures var plan := Plan(world.settings, chat.snapshot, chat.request, chat.caller, analysis, day);
      var payment := Pay(world, chat, analysis, day, toSend);
      payment.ask == plan.ask && payment.accepted ==
        if plan.accepted.Calling? then plan.accepted.(toSend := toSend) else plan.accepted
  {
  }

  class Orchestrator {
    const settings: Settings
    const store: Registries.RegistryStore
    const ledger: BudgetLedger

    constructor (settings: Settings, store: Registries.RegistryStore, ledger: BudgetLedger)
      ensures this.settings == settings && this.store == store && this.ledger == ledger
    {
      this.settings, this.store, this.ledger := settings, store, ledger;
    }

    /** `chat`, up to the text of its answer, on the in-memory ledger. */
    method Chat(request: ChatRequest, caller: Option<Caller>, analysis: Analysis, day: Day, upstream: Upstream)
      returns (result: Result, sent: nat)
      requires upstream.Valid() && store.snapshot.Valid()
      modifies ledger
      ensures (ledger.reservations, result, sent) ==
        ChatOf(ReservePruned, old(ledger.reservations), settings, old(store.snapshot), request, caller, analysis, day,
          upstream)
    {
      var snapshot := store.snapshot;
      var routed := Route(request, snapshot, settings, caller, analysis);
      if !routed.Routed? {
        return RouteRaised(routed), 0;
      }
      var decision := routed.decision;
      if decision.action != ExternalModel {
        return Internal(decision), 0;
      }
      ghost var target := RouteAffordable(request, snapshot, settings, caller, analysis);
      var entry := Lookup(snapshot.models, decision.target.value).value;
      var estimated := EstimatedCost(entry, request).value;
      if caller.Some? {
        var ok := ledger.Reserve(ReservationFor(caller.value, estimated, day));
        if !ok {
          return BudgetExceeded, 0;
        }
      }
      var completion;
      completion, sent := CallProvider(request.stream, upstream);
      return External(entry.id, estimated, completion), sent;
    }
  }

  method CallProvider(stream: bool, upstream: Upstream) returns (completion: Provider.Completion, sent: nat)
    requires upstream.Valid()
    ensures completion == upstream.Completed(stream) && sent == upstream.Sent(stream)
  {
    if stream {
      completion, sent := Provider.CollectStream(upstream.decode, upstream.hasKey, upstream.lines);
    } else {
      completion, sent := Provider.Complete(upstream.load, upstream.hasKey, upstream.chunks);
    }
  }
}
