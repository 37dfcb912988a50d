/** Routing policy: cost estimates, eligibility and the decision tree (src/omo/policy.py). */
module Policy {
  import opened Common
  import opened Contracts
  import opened Orders
  import Calculator

  const LOCAL_QUESTIONS := {"What is a noun?", "What is gravity?", "What is photosynthesis?",
    "What is the opposite of hot?"}

  predicate LocalEligible(request: ChatRequest) {
    && |request.messages| == 1
    && request.messages[0].role == "user"
    && request.messages[0].content in LOCAL_QUESTIONS
    && request.omo.requiredCapability == Text
  }

  function FramedBytes(messages: seq<Message>): nat {
    if messages == [] then 0 else Utf8Length(messages[0].content) + 32 + FramedBytes(messages[1..])
  }

  function InputUpperBound(request: ChatRequest): nat { FramedBytes(request.messages) + 64 }

  function InputTokens(entry: ModelEntry, request: ChatRequest): Option<nat> {
    if entry.byteTokenizer then Some(InputUpperBound(request)) else None
  }

  function EstimatedCost(entry: ModelEntry, request: ChatRequest): Option<real> {
    var tokens := InputTokens(entry, request);
    if tokens.None? || entry.inputPrice.None? || entry.outputPrice.None? then None
    else Some(Price(tokens.value as real, entry.inputPrice.value, request.maxTokens as real, entry.outputPrice.value))
  }

  function Price(inputTokens: real, inputPrice: real, outputTokens: real, outputPrice: real): real {
    (inputTokens * inputPrice + outputTokens * outputPrice) / 1000000.0
  }

  lemma CostNotNegative(entry: ModelEntry, request: ChatRequest)
    requires entry.Valid() && EstimatedCost(entry, request).Some?
    ensures EstimatedCost(entry, request).value >= 0.0
  {
    NotNegative(InputUpperBound(request) as real, entry.inputPrice.value);
    NotNegative(request.maxTokens as real, entry.outputPrice.value);
  }

  /** The bound on input tokens is the bytes of the whole conversation, 32 a message and 64 in all. */
  lemma {:induction false} BoundCoversConversation(messages: seq<Message>)
    ensures FramedBytes(messages) == Utf8Length(AllContent(messages)) + 32 * |messages|
  {
    if messages != [] {
      BoundCoversConversation(messages[1..]);
      Utf8Append(messages[0].content, AllContent(messages[1..]));
    }
  }

  /** The bytes of the conversation with the framing reserve: the most tokens it can be. */
  function TokenBound(messages: seq<Message>): nat { Utf8Length(AllContent(messages)) + 32 * |messages| + 64 }

  /** The bill in USD, with prices for a million tokens. */
  predicate Billed(bill: real, inputTokens: real, inputPrice: real, outputTokens: real, outputPrice: real) {
    bill * 1000000.0 == inputTokens * inputPrice + outputTokens * outputPrice
  }

  /**
   Whatever a call really uses within its bounds is billed at no more than the estimate, and a call
   that uses all of both bounds at exactly that.
   */
  lemma EstimateCoversBill(entry: ModelEntry, request: ChatRequest, inputTokens: nat, outputTokens: nat, bill: real)
    requires entry.Valid() && EstimatedCost(entry, request).Some?
    requires inputTokens <= TokenBound(request.messages) && outputTokens <= request.maxTokens
    requires Billed(bill, inputTokens as real, entry.inputPrice.value, outputTokens as real, entry.outputPrice.value)
    ensures bill <= EstimatedCost(entry, request).value
    ensures inputTokens == TokenBound(request.messages) && outputTokens == request.maxTokens ==>
      bill == EstimatedCost(entry, request).value
  {
    EstimateIsBill(entry, request);
    BillsCompare(
      inputTokens as real, TokenBound(request.messages) as real, entry.inputPrice.value,
      outputTokens as real, request.maxTokens as real, entry.outputPrice.value, bill,
      EstimatedCost(entry, request).value);
  }

  lemma EstimateIsBill(entry: ModelEntry, request: ChatRequest)
    requires EstimatedCost(entry, request).Some?
    ensures entry.byteTokenizer && entry.inputPrice.Some? && entry.outputPrice.Some?
    ensures Billed(EstimatedCost(entry, request).value, TokenBound(request.messages) as real, entry.inputPrice.value,
      request.maxTokens as real, entry.outputPrice.value)
  {
    BoundCoversConversation(request.messages);
    assert InputUpperBound(request) == TokenBound(request.messages);
  }

  lemma BillsCompare(i: real, inputs: real, inputPrice: real, o: real, outputs: real, outputPrice: real,
      bill: real, price: real)
    requires i <= inputs && o <= outputs && inputPrice >= 0.0 && outputPrice >= 0.0
    requires Billed(bill, i, inputPrice, o, outputPrice) && Billed(price, inputs, inputPrice, outputs, outputPrice)
    ensures bill <= price
    ensures i == inputs && o == outputs ==> bill == price
  {
    Scale(i, inputs, inputPrice);
    Scale(o, outputs, outputPrice);
  }

  lemma Scale(x: real, y: real, price: real)
    requires x <= y && price >= 0.0
    ensures x * price <= y * price
  {
  }

  lemma NotNegative(x: real, y: real)
    requires x >= 0.0 && y >= 0.0
    ensures x * y >= 0.0
  {
  }

  /** Everything that restricts the external models of one request. */
  datatype Query = Query(
    request: ChatRequest, capability: Capability, settings: Settings,
    retention: Option<set<Retention>>, hosts: Option<set<string>>)
  {
    function Required(): set<Capability> { {Text, request.omo.requiredCapability, capability} }

    function Budget(): real {
      if settings.externalMaxCost <= request.omo.maxCost then settings.externalMaxCost else request.omo.maxCost
    }

    predicate Open() {
      !request.omo.localOnly && settings.externalEnabled && CurrentInformation !in Required()
    }

    /** The filter on one entry. */
    predicate Admits(m: ModelEntry) {
      && m.enabled && m.available && Required() <= m.capabilities
      && (retention.Some? ==> m.retention in retention.value)
      && (hosts.Some? ==> m.host in hosts.value)
      && InputTokens(m, request).Some?
      && InputTokens(m, request).value + request.maxTokens <= m.contextTokens
      && request.maxTokens <= m.maxOutputTokens
      && EstimatedCost(m, request).Some?
      && EstimatedCost(m, request).value * 2.0 <= Budget()
    }

    /** May this entry serve the query at all? */
    predicate Allows(m: ModelEntry) { Open() && Admits(m) }
  }

  predicate Before(a: ModelEntry, b: ModelEntry) {
    a.priority < b.priority || (a.priority == b.priority && StringLe(a.id, b.id))
  }

  /** The eligible models: the allowed entries in order of priority and identifier. */
  function Eligible(query: Query, models: seq<ModelEntry>): seq<ModelEntry> {
    Sort(Before, Filter((m: ModelEntry) => query.Allows(m), models))
  }

  method EligibleModels(query: Query, registry: Registry) returns (eligible: seq<ModelEntry>)
    ensures eligible == Eligible(query, registry.models)
  {
    var allows := (m: ModelEntry) => query.Allows(m);
    if query.request.omo.localOnly || !query.settings.externalEnabled || CurrentInformation in query.Required() {
      NothingKept(allows, registry.models);
      return [];
    }
    var budget := if query.settings.externalMaxCost <= query.request.omo.maxCost
                  then query.settings.externalMaxCost else query.request.omo.maxCost;
    var request := query.request;
    eligible := [];
    for i := 0 to |registry.models|
      invariant eligible == Filter(allows, registry.models[..i])
    {
      var m := registry.models[i];
      assert registry.models[..i + 1][..i] == registry.models[..i];
      if !m.enabled || !m.available || !(query.Required() <= m.capabilities) {
        continue;
      }
      if query.retention.Some? && m.retention !in query.retention.value {
        continue;
      }
      if query.hosts.Some? && m.host !in query.hosts.value {
        continue;
      }
      var tokens := InputTokens(m, request);
      if tokens.None? || tokens.value + request.maxTokens > m.contextTokens {
        continue;
      }
      if request.maxTokens > m.maxOutputTokens {
        continue;
      }
      var cost := EstimatedCost(m, request);
      if cost.None? || cost.value * 2.0 > budget {
        continue;
      }
      eligible := eligible + [m];
    }
    assert registry.models[..|registry.models|] == registry.models;
    eligible := Sort(Before, eligible);
  }

  lemma {:induction false} NothingKept<T>(keep: T -> bool, s: seq<T>)
    requires forall x :: x in s ==> !keep(x)
    ensures Filter(keep, s) == []
  {
    if s != [] {
      NothingKept(keep, s[..|s| - 1]);
    }
  }

  // ---- what the list depends on ---------------------------------------------------------------

  lemma BeforeIsLinear()
    ensures Linear(Before)
  {
    forall a, b ensures Before(a, b) || Before(b, a) {
      StringLeTotal(a.id, b.id);
    }
    forall a, b, c | Before(a, b) && Before(b, c) ensures Before(a, c) {
      if a.priority == b.priority == c.priority {
        StringLeTransitive(a.id, b.id, c.id);
      }
    }
  }

  lemma DistinctIdsDecide(models: seq<ModelEntry>)
    requires forall i, j | 0 <= i < j < |models| :: models[i].id != models[j].id
    ensures Decisive(Before, models)
  {
    forall a, b | a in models && b in models && Before(a, b) && Before(b, a) ensures a == b {
      StringLeAntisymmetric(a.id, b.id);
    }
  }

  /** The list holds exactly the allowed entries, in strictly increasing order. */
  lemma EligibleExact(query: Query, registry: Registry)
    requires registry.Valid()
    ensures var list := Eligible(query, registry.models);
      && (forall m :: m in list <==> m in registry.models && query.Allows(m))
      && Sorted(Before, list)
  {
    var allows := (m: ModelEntry) => query.Allows(m);
    BeforeIsLinear();
    SortSorts(Before, Filter(allows, registry.models));
    FilterContents(allows, registry.models);
    var list := Eligible(query, registry.models);
    forall m ensures m in list <==> m in registry.models && query.Allows(m) {
      assert m in list <==> m in multiset(list);
      assert m in Filter(allows, registry.models) <==> m in multiset(Filter(allows, registry.models));
    }
  }

  /** The order of the entries in the registry file does not matter. */
  lemma EligibleIgnoresOrder(query: Query, r1: Registry, r2: Registry)
    requires r1.Valid() && multiset(r1.models) == multiset(r2.models)
    ensures Eligible(query, r1.models) == Eligible(query, r2.models)
  {
    var allows := (m: ModelEntry) => query.Allows(m);
    BeforeIsLinear();
    DistinctIdsDecide(r1.models);
    FilterContents(allows, r1.models);
    FilterContents(allows, r2.models);
    DecisiveSame(Before, r1.models, Filter(allows, r1.models));
    SortCanonical(Before, Filter(allows, r1.models), Filter(allows, r2.models));
  }

  /** `tight` restricts `loose` in some of: cost, hosts, retention, locality, capabilities. */
  ghost predicate Tightens(tight: Query, loose: Query) {
    && tight.request.messages == loose.request.messages && tight.request.maxTokens == loose.request.maxTokens
    && (tight.Open() ==> loose.Open())
    && loose.Required() <= tight.Required()
    && tight.Budget() <= loose.Budget()
    && (loose.retention.Some? ==> tight.retention.Some? && tight.retention.value <= loose.retention.value)
    && (loose.hosts.Some? ==> tight.hosts.Some? && tight.hosts.value <= loose.hosts.value)
  }

  /** Restricting a query only removes entries: the rest keep their order. */
  lemma TighteningFilters(tight: Query, loose: Query, registry: Registry)
    requires registry.Valid() && Tightens(tight, loose)
    ensures Eligible(tight, registry.models) ==
      Filter((m: ModelEntry) => tight.Allows(m), Eligible(loose, registry.models))
  {
    var keepTight := (m: ModelEntry) => tight.Allows(m);
    var keepLoose := (m: ModelEntry) => loose.Allows(m);
    var kept := Filter(keepLoose, registry.models);
    forall m ensures keepTight(m) ==> keepLoose(m) {
      TightAllowsLess(tight, loose, m);
    }
    BeforeIsLinear();
    DistinctIdsDecide(registry.models);
    FilterTwice(keepTight, keepLoose, registry.models);
    FilterContents(keepLoose, registry.models);
    DecisiveSame(Before, registry.models, kept);
    FilterSortCommute(Before, keepTight, kept);
  }

  lemma TightAllowsLess(tight: Query, loose: Query, m: ModelEntry)
    requires Tightens(tight, loose)
    ensures tight.Allows(m) ==> loose.Allows(m)
  {
  }

  lemma {:induction false} FilterTwice<T(!new)>(p: T -> bool, q: T -> bool, s: seq<T>)
    requires forall x :: p(x) ==> q(x)
    ensures Filter(p, Filter(q, s)) == Filter(p, s)
  {
    if s != [] {
      FilterTwice(p, q, s[..|s| - 1]);
      var rest := Filter(q, s[..|s| - 1]);
      if q(s[|s| - 1]) {
        assert (rest + [s[|s| - 1]])[..|rest|] == rest;
      }
    }
  }

  /** The first choice under restrictions is an unrestricted choice, never ahead of the first one. */
  lemma TighteningNeverPromotes(tight: Query, loose: Query, registry: Registry)
    requires registry.Valid() && Tightens(tight, loose)
    requires Eligible(tight, registry.models) != []
    ensures Eligible(loose, registry.models) != []
    ensures Eligible(tight, registry.models)[0] in Eligible(loose, registry.models)
    ensures Before(Eligible(loose, registry.models)[0], Eligible(tight, registry.models)[0])
  {
    EligibleExact(tight, registry);
    EligibleExact(loose, registry);
    var first := Eligible(tight, registry.models)[0];
    assert first in Eligible(tight, registry.models);
    assert first in Eligible(loose, registry.models);
    StringLeTotal(first.id, first.id);
  }

  // ---- the decision ---------------------------------------------------------------------------

  function RejectFor(reason: string): Decision { Decision(Reject, reason, None, None) }

  function DecideHelper(call: HelperCall, settings: Settings, reason: string): Decision {
    if call.EvenSquares? && !settings.sandboxEnabled then RejectFor("sandbox_disabled")
    else Decision(Helper, reason, None, Some(call))
  }

  function DecideExternal(query: Query, registry: Registry): Decision {
    var eligible := Eligible(query, registry.models);
    if eligible != [] then Decision(ExternalModel, "eligible_configured_priority", Some(eligible[0].id), None)
    else RejectFor("no_eligible_target")
  }

  /** What the model's proposal leads to. A `LocalAnswer` proposal is treated as an external one. */
  function DecideProposal(
    request: ChatRequest, registry: Registry, settings: Settings, proposal: Proposal,
    retention: Option<set<Retention>>, hosts: Option<set<string>>): Decision
  {
    if proposal.action == Reject then RejectFor("model_rejected")
    else if proposal.action == Clarify then Decision(Clarify, "missing_task_details", None, None)
    else if proposal.capability == CurrentInformation then RejectFor("retrieval_unavailable")
    else if proposal.action == Helper then
      if proposal.helper.None? then RejectFor("invalid_helper_proposal")
      else DecideHelper(proposal.helper.value, settings, "validated_model_helper")
    else DecideExternal(Query(request, proposal.capability, settings, retention, hosts), registry)
  }

  function Decide(
    request: ChatRequest, registry: Registry, settings: Settings, proposal: Option<Proposal>,
    retention: Option<set<Retention>>, hosts: Option<set<string>>): Decision
  {
    DecideOn(Calculator.FastHelper(request), LocalEligible(request), request, registry, settings, proposal, retention,
      hosts)
  }

  /** The decision, given the command found in the request and whether it is a local question. */
  function DecideOn(
    fast: Option<HelperCall>, local: bool, request: ChatRequest, registry: Registry, settings: Settings,
    proposal: Option<Proposal>, retention: Option<set<Retention>>, hosts: Option<set<string>>): Decision
  {
    var action := request.omo.action;
    if request.omo.requiredCapability == CurrentInformation then RejectFor("retrieval_unavailable")
    else if action == OnlyHelper then
      if request.omo.helper.None? then RejectFor("invalid_helper_request")
      else DecideHelper(request.omo.helper.value, settings, "explicit_validated_helper")
    else if action == Auto && fast.Some? then Decision(Helper, "exact_calculation_command", None, fast)
    else if action in {Auto, OnlyLocal} && local then
      Decision(LocalAnswer, "evaluated_development_envelope", None, None)
    else if action == OnlyLocal then RejectFor("outside_local_envelope")
    else if proposal.None? then Decision(Clarify, "analysis_needed", None, None)
    else DecideProposal(request, registry, settings, proposal.value, retention, hosts)
  }

  /** What a proposal can lead to. */
  lemma ProposalDecided(
    request: ChatRequest, registry: Registry, settings: Settings, proposal: Proposal,
    retention: Option<set<Retention>>, hosts: Option<set<string>>)
    ensures var decision := DecideProposal(request, registry, settings, proposal, retention, hosts);
      && decision.action != LocalAnswer
      && (decision.action == Helper ==>
            && proposal.action == Helper && decision.helper == proposal.helper && decision.helper.Some?
            && (decision.helper.value.EvenSquares? ==> settings.sandboxEnabled))
      && (decision.action == ExternalModel ==>
            && proposal.action in {ExternalModel, LocalAnswer}
            && decision == DecideExternal(Query(request, proposal.capability, settings, retention, hosts), registry))
  {
  }

  /** A proposed local answer is decided exactly like a proposed external call. */
  lemma LocalProposalIsExternal(
    request: ChatRequest, registry: Registry, settings: Settings, proposal: Proposal,
    retention: Option<set<Retention>>, hosts: Option<set<string>>)
    requires proposal.action == LocalAnswer
    ensures Decide(request, registry, settings, Some(proposal), retention, hosts)
      == Decide(request, registry, settings, Some(proposal.(action := ExternalModel)), retention, hosts)
  {
    var external := proposal.(action := ExternalModel);
    assert DecideProposal(request, registry, settings, proposal, retention, hosts)
      == DecideProposal(request, registry, settings, external, retention, hosts);
    SameDecision(Calculator.FastHelper(request), LocalEligible(request), request, registry, settings, proposal,
      external, retention, hosts);
  }

  lemma SameDecision(
    fast: Option<HelperCall>, local: bool, request: ChatRequest, registry: Registry, settings: Settings,
    p: Proposal, q: Proposal, retention: Option<set<Retention>>, hosts: Option<set<string>>)
    requires DecideProposal(request, registry, settings, p, retention, hosts)
      == DecideProposal(request, registry, settings, q, retention, hosts)
    ensures DecideOn(fast, local, request, registry, settings, Some(p), retention, hosts)
      == DecideOn(fast, local, request, registry, settings, Some(q), retention, hosts)
  {
  }

  /** Only a proposed external call or local answer leads outside, to the first eligible model. */
  lemma ExternalComesFromProposal(
    request: ChatRequest, registry: Registry, settings: Settings, proposal: Option<Proposal>,
    retention: Option<set<Retention>>, hosts: Option<set<string>>)
    requires Decide(request, registry, settings, proposal, retention, hosts).action == ExternalModel
    ensures proposal.Some? && proposal.value.action in {ExternalModel, LocalAnswer}
    ensures var query := Query(request, proposal.value.capability, settings, retention, hosts);
      Eligible(query, registry.models) != [] && Decide(request, registry, settings, proposal, retention, hosts) ==
        Decision(ExternalModel, "eligible_configured_priority", Some(Eligible(query, registry.models)[0].id), None)
  {
    ExternalDecided(Calculator.FastHelper(request), LocalEligible(request), request, registry, settings, proposal,
      retention, hosts);
    ExternalNamed(Query(request, proposal.value.capability, settings, retention, hosts), registry);
  }

  lemma ExternalDecided(
    fast: Option<HelperCall>, local: bool, request: ChatRequest, registry: Registry, settings: Settings,
    proposal: Option<Proposal>, retention: Option<set<Retention>>, hosts: Option<set<string>>)
    requires DecideOn(fast, local, request, registry, settings, proposal, retention, hosts).action == ExternalModel
    ensures proposal.Some? && proposal.value.action in {ExternalModel, LocalAnswer}
    ensures DecideOn(fast, local, request, registry, settings, proposal, retention, hosts) ==
      DecideExternal(Query(request, proposal.value.capability, settings, retention, hosts), registry)
  {
    if proposal.Some? {
      ProposalDecided(request, registry, settings, proposal.value, retention, hosts);
    }
  }

  /** A request that differs in its cost cap only is decided by the same branch. */
  lemma ExternalReached(
    fast: Option<HelperCall>, local: bool, request: ChatRequest, other: ChatRequest, registry: Registry,
    settings: Settings, proposal: Option<Proposal>, r1: Option<set<Retention>>, h1: Option<set<string>>,
    r2: Option<set<Retention>>, h2: Option<set<string>>)
    requires other == request.(omo := request.omo.(maxCost := other.omo.maxCost))
    requires DecideOn(fast, local, request, registry, settings, proposal, r1, h1).action == ExternalModel
    ensures proposal.Some?
    ensures DecideOn(fast, local, other, registry, settings, proposal, r2, h2) ==
      DecideExternal(Query(other, proposal.value.capability, settings, r2, h2), registry)
  {
    ExternalDecided(fast, local, request, registry, settings, proposal, r1, h1);
    Awaited(fast, local, request, registry, settings, proposal, r1, h1);
    Awaited(fast, local, other, registry, settings, proposal, r2, h2);
    ProposedOutside(request, other, registry, settings, proposal.value, r1, h1, r2, h2);
  }

  lemma ProposedOutside(
    request: ChatRequest, other: ChatRequest, registry: Registry, settings: Settings, proposal: Proposal,
    r1: Option<set<Retention>>, h1: Option<set<string>>, r2: Option<set<Retention>>, h2: Option<set<string>>)
    requires DecideProposal(request, registry, settings, proposal, r1, h1).action == ExternalModel
    ensures DecideProposal(other, registry, settings, proposal, r2, h2) ==
      DecideExternal(Query(other, proposal.capability, settings, r2, h2), registry)
  {
  }

  lemma ExternalNamed(query: Query, registry: Registry)
    requires DecideExternal(query, registry).action == ExternalModel
    ensures Eligible(query, registry.models) != []
    ensures DecideExternal(query, registry) ==
      Decision(ExternalModel, "eligible_configured_priority", Some(Eligible(query, registry.models)[0].id), None)
  {
  }

  /** An external decision names the first eligible entry, and that entry passed every filter. */
  lemma ExternalTargetEligible(
    request: ChatRequest, registry: Registry, settings: Settings, proposal: Option<Proposal>,
    retention: Option<set<Retention>>, hosts: Option<set<string>>)
    returns (entry: ModelEntry)
    requires registry.Valid()
    requires Decide(request, registry, settings, proposal, retention, hosts).action == ExternalModel
    ensures proposal.Some? && proposal.value.action in {ExternalModel, LocalAnswer}
    ensures Decide(request, registry, settings, proposal, retention, hosts).target == Some(entry.id)
    ensures entry in registry.models
      && Query(request, proposal.value.capability, settings, retention, hosts).Allows(entry)
    ensures forall m | m in registry.models
        && Query(request, proposal.value.capability, settings, retention, hosts).Allows(m) :: Before(entry, m)
  {
    ExternalComesFromProposal(request, registry, settings, proposal, retention, hosts);
    var query := Query(request, proposal.value.capability, settings, retention, hosts);
    EligibleExact(query, registry);
    var eligible := Eligible(query, registry.models);
    entry := eligible[0];
    assert entry in eligible;
    forall m | m in registry.models && query.Allows(m) ensures Before(entry, m) {
      assert m in eligible;
      StringLeTotal(m.id, m.id);
    }
  }

  // ---- what is decided, exactly ----------------------------------------------------------------

  /** Nothing in the request itself decides it: it asks to go outside, or it needs analysis. */
  predicate Awaits(request: ChatRequest) {
    && request.omo.requiredCapability != CurrentInformation
    && (request.omo.action == OnlyExternal ||
        (request.omo.action == Auto && Calculator.FastHelper(request).None? && !LocalEligible(request)))
  }

  predicate Proposed(request: ChatRequest, proposal: Option<Proposal>, actions: set<Action>) {
    Awaits(request) && proposal.Some? && proposal.value.action in actions
  }

  /** The call that the options state, that a command spells, or that a proposal which is heard makes. */
  predicate CallsFrom(omo: Options, fast: Option<HelperCall>, heard: Option<Proposal>, call: HelperCall) {
    && omo.requiredCapability != CurrentInformation
    && (|| (omo.action == OnlyHelper && omo.helper == Some(call))
        || (omo.action == Auto && fast == Some(call))
        || (heard.Some? && heard.value.action == Helper && heard.value.capability != CurrentInformation
            && heard.value.helper == Some(call)))
  }

  predicate CallsFor(request: ChatRequest, proposal: Option<Proposal>, call: HelperCall) {
    CallsFrom(request.omo, Calculator.FastHelper(request), if Awaits(request) then proposal else None, call)
  }

  /**
   A helper runs if and only if one of these three sources gives a call, and it is that call; the
   only call that is refused, and how, is one of the sandbox while that is disabled.
   */
  lemma HelperExactly(
    request: ChatRequest, registry: Registry, settings: Settings, proposal: Option<Proposal>,
    retention: Option<set<Retention>>, hosts: Option<set<string>>, call: HelperCall)
    ensures var decision := Decide(request, registry, settings, proposal, retention, hosts);
      && (decision.action == Helper && decision.helper == Some(call) <==>
            CallsFor(request, proposal, call) && (call.EvenSquares? ==> settings.sandboxEnabled))
      && (decision.action == Helper ==> decision.helper.Some?)
      && (CallsFor(request, proposal, call) && call.EvenSquares? && !settings.sandboxEnabled ==>
            decision == RejectFor("sandbox_disabled"))
  {
    if Calculator.FastHelper(request).Some? {
      Calculator.FastHelperOperands(request);
    }
    if LocalEligible(request) {
      LocalIsNoCommand(request);
    }
    var fast, local := Calculator.FastHelper(request), LocalEligible(request);
    HelperDecided(fast, local, request, registry, settings, proposal, retention, hosts);
    ChosenCall(fast, local, request.omo, proposal, call);
  }

  /** The one call of a request. */
  function Chosen(fast: Option<HelperCall>, local: bool, omo: Options, proposal: Option<Proposal>): Option<HelperCall> {
    if omo.action == OnlyHelper then omo.helper
    else if omo.action == Auto && fast.Some? then fast
    else if (omo.action == OnlyExternal || (omo.action == Auto && !local)) && proposal.Some?
      && proposal.value.action == Helper && proposal.value.capability != CurrentInformation
    then proposal.value.helper else None
  }

  lemma ChosenCall(fast: Option<HelperCall>, local: bool, omo: Options, proposal: Option<Proposal>, call: HelperCall)
    requires fast.Some? ==> !local
    ensures var awaits := omo.requiredCapability != CurrentInformation
        && (omo.action == OnlyExternal || (omo.action == Auto && fast.None? && !local));
      CallsFrom(omo, fast, if awaits then proposal else None, call) <==>
        omo.requiredCapability != CurrentInformation && Chosen(fast, local, omo, proposal) == Some(call)
  {
  }

  /** Without a branch of its own in the request, the proposal decides, and only then. */
  lemma Awaited(
    fast: Option<HelperCall>, local: bool, request: ChatRequest, registry: Registry, settings: Settings,
    proposal: Option<Proposal>, retention: Option<set<Retention>>, hosts: Option<set<string>>)
    ensures var decision := DecideOn(fast, local, request, registry, settings, proposal, retention, hosts);
      if request.omo.requiredCapability != CurrentInformation
        && (request.omo.action == OnlyExternal || (request.omo.action == Auto && fast.None? && !local))
      then decision == if proposal.None? then Decision(Clarify, "analysis_needed", None, None)
        else DecideProposal(request, registry, settings, proposal.value, retention, hosts)
      else decision.action != ExternalModel && decision.action != Clarify
  {
  }

  /** The branches that lead to a helper, for any command and any answer to "is this a local question". */
  lemma HelperDecided(
    fast: Option<HelperCall>, local: bool, request: ChatRequest, registry: Registry, settings: Settings,
    proposal: Option<Proposal>, retention: Option<set<Retention>>, hosts: Option<set<string>>)
    requires fast.Some? ==> fast.value.Arithmetic? && !local
    ensures var decision := DecideOn(fast, local, request, registry, settings, proposal, retention, hosts);
      var call := Chosen(fast, local, request.omo, proposal);
      if call.None? || request.omo.requiredCapability == CurrentInformation then decision.action != Helper
      else if call.value.EvenSquares? && !settings.sandboxEnabled then decision == RejectFor("sandbox_disabled")
      else decision.action == Helper && decision.helper == call
  {
    Awaited(fast, local, request, registry, settings, proposal, retention, hosts);
    if proposal.Some? {
      ProposalHelps(request, registry, settings, proposal.value, retention, hosts);
    }
  }

  lemma ProposalHelps(
    request: ChatRequest, registry: Registry, settings: Settings, proposal: Proposal,
    retention: Option<set<Retention>>, hosts: Option<set<string>>)
    ensures var decision := DecideProposal(request, registry, settings, proposal, retention, hosts);
      if proposal.action == Helper && proposal.capability != CurrentInformation && proposal.helper.Some?
      then decision == DecideHelper(proposal.helper.value, settings, "validated_model_helper")
      else decision.action != Helper
  {
  }

  /** The causes of the refusals that do not concern helpers, and of the questions back. */
  lemma RefusedExactly(
    request: ChatRequest, registry: Registry, settings: Settings, proposal: Option<Proposal>,
    retention: Option<set<Retention>>, hosts: Option<set<string>>)
    requires registry.Valid()
    ensures var decision := Decide(request, registry, settings, proposal, retention, hosts);
      && (decision.action == Clarify <==> Awaits(request) && (proposal.None? || proposal.value.action == Clarify))
      && (decision.reason == "model_rejected" <==> Proposed(request, proposal, {Reject}))
      && (decision.reason == "outside_local_envelope" <==>
            && request.omo.requiredCapability != CurrentInformation
            && request.omo.action == OnlyLocal && !LocalEligible(request))
      && (decision.reason == "retrieval_unavailable" <==>
            || request.omo.requiredCapability == CurrentInformation
            || (Proposed(request, proposal, {Helper, ExternalModel, LocalAnswer})
                && proposal.value.capability == CurrentInformation))
      && (decision.reason == "no_eligible_target" <==>
            && Proposed(request, proposal, {ExternalModel, LocalAnswer})
            && proposal.value.capability != CurrentInformation
            && forall m | m in registry.models ::
                 !Serves(m, request, proposal.value.capability, settings, retention, hosts))
  {
    if proposal.Some? {
      NoneEligible(Query(request, proposal.value.capability, settings, retention, hosts), registry);
    }
    if LocalEligible(request) {
      LocalIsNoCommand(request);
    }
    RefusalDecided(Calculator.FastHelper(request), LocalEligible(request), request, registry, settings, proposal,
      retention, hosts);
  }

  lemma RefusalDecided(
    fast: Option<HelperCall>, local: bool, request: ChatRequest, registry: Registry, settings: Settings,
    proposal: Option<Proposal>, retention: Option<set<Retention>>, hosts: Option<set<string>>)
    requires local ==> fast.None?
    ensures var decision := DecideOn(fast, local, request, registry, settings, proposal, retention, hosts);
      var action := request.omo.action;
      var awaits := request.omo.requiredCapability != CurrentInformation
        && (action == OnlyExternal || (action == Auto && fast.None? && !local));
      && (decision.action == Clarify <==> awaits && (proposal.None? || proposal.value.action == Clarify))
      && (decision.reason == "model_rejected" <==> awaits && proposal.Some? && proposal.value.action == Reject)
      && (decision.reason == "outside_local_envelope" <==>
            request.omo.requiredCapability != CurrentInformation && action == OnlyLocal && !local)
      && (decision.reason == "retrieval_unavailable" <==>
            || request.omo.requiredCapability == CurrentInformation
            || (awaits && proposal.Some? && proposal.value.action in {Helper, ExternalModel, LocalAnswer}
                && proposal.value.capability == CurrentInformation))
      && (decision.reason == "no_eligible_target" <==>
            && awaits && proposal.Some? && proposal.value.action in {ExternalModel, LocalAnswer}
            && proposal.value.capability != CurrentInformation
            && Eligible(Query(request, proposal.value.capability, settings, retention, hosts), registry.models) == [])
  {
    ReasonsDiffer();
  }

  const REASONS := [
    "retrieval_unavailable", "invalid_helper_request", "sandbox_disabled", "explicit_validated_helper",
    "exact_calculation_command", "evaluated_development_envelope", "outside_local_envelope", "analysis_needed",
    "model_rejected", "missing_task_details", "invalid_helper_proposal", "validated_model_helper",
    "eligible_configured_priority", "no_eligible_target"]

  /** Tells the reasons of the same length apart. */
  lemma ReasonsDiffer()
    ensures forall i, j | 0 <= i < j < |REASONS| :: REASONS[i] != REASONS[j]
  {
    forall i, j | 0 <= i < j < |REASONS| ensures REASONS[i] != REASONS[j] {
      assert |REASONS[i]| != |REASONS[j]| || REASONS[i][0] != REASONS[j][0] || REASONS[i][1] != REASONS[j][1]
        || REASONS[i][10] != REASONS[j][10];
    }
  }

  lemma ReasonKnown(
    request: ChatRequest, registry: Registry, settings: Settings, proposal: Option<Proposal>,
    retention: Option<set<Retention>>, hosts: Option<set<string>>)
    ensures Decide(request, registry, settings, proposal, retention, hosts).reason in REASONS
  {
    ReasonOn(Calculator.FastHelper(request), LocalEligible(request), request, registry, settings, proposal, retention,
      hosts);
  }

  lemma ReasonOn(
    fast: Option<HelperCall>, local: bool, request: ChatRequest, registry: Registry, settings: Settings,
    proposal: Option<Proposal>, retention: Option<set<Retention>>, hosts: Option<set<string>>)
    ensures DecideOn(fast, local, request, registry, settings, proposal, retention, hosts).reason in REASONS
  {
  }

  /** The bill for all tokens, twice, is within the cap: both in millionths of USD. */
  predicate Fits(m: ModelEntry, request: ChatRequest, cap: real)
    requires m.inputPrice.Some? && m.outputPrice.Some?
  {
    var cost := TokenBound(request.messages) as real * m.inputPrice.value
      + request.maxTokens as real * m.outputPrice.value;
    2.0 * cost <= 1000000.0 * cap
  }

  /** All that an entry must meet to serve a request, on its own fields and those of the request. */
  predicate Serves(
    m: ModelEntry, request: ChatRequest, capability: Capability, settings: Settings,
    retention: Option<set<Retention>>, hosts: Option<set<string>>)
  {
    && settings.externalEnabled && !request.omo.localOnly
    && request.omo.requiredCapability != CurrentInformation && capability != CurrentInformation
    && m.enabled && m.available && m.byteTokenizer && m.inputPrice.Some? && m.outputPrice.Some?
    && Text in m.capabilities && request.omo.requiredCapability in m.capabilities && capability in m.capabilities
    && (retention.None? || m.retention in retention.value) && (hosts.None? || m.host in hosts.value)
    && request.maxTokens <= m.maxOutputTokens && TokenBound(request.messages) + request.maxTokens <= m.contextTokens
    && Fits(m, request, request.omo.maxCost) && Fits(m, request, settings.externalMaxCost)
  }

  lemma AllowsExactly(query: Query, m: ModelEntry)
    ensures query.Allows(m) <==>
      Serves(m, query.request, query.capability, query.settings, query.retention, query.hosts)
  {
    BoundCoversConversation(query.request.messages);
    assert InputUpperBound(query.request) == TokenBound(query.request.messages);
    if EstimatedCost(m, query.request).Some? {
      CostFits(m, query.request, query.settings.externalMaxCost);
      CostFits(m, query.request, query.request.omo.maxCost);
    }
  }

  lemma CostFits(m: ModelEntry, request: ChatRequest, cap: real)
    requires EstimatedCost(m, request).Some?
    ensures m.inputPrice.Some? && m.outputPrice.Some?
    ensures EstimatedCost(m, request).value * 2.0 <= cap <==> Fits(m, request, cap)
  {
    EstimateIsBill(m, request);
  }

  lemma NoneEligible(query: Query, registry: Registry)
    requires registry.Valid()
    ensures Eligible(query, registry.models) == [] <==> forall m | m in registry.models ::
      !Serves(m, query.request, query.capability, query.settings, query.retention, query.hosts)
  {
    EligibleExact(query, registry);
    var list := Eligible(query, registry.models);
    forall m | m in registry.models
      ensures m in list <==> Serves(m, query.request, query.capability, query.settings, query.retention, query.hosts)
    {
      AllowsExactly(query, m);
    }
    if list != [] {
      assert list[0] in list;
    }
  }

  /** The entry that serves the request and before which none that does comes. */
  ghost predicate FirstToServe(
    m: ModelEntry, registry: Registry, request: ChatRequest, capability: Capability, settings: Settings,
    retention: Option<set<Retention>>, hosts: Option<set<string>>)
  {
    && m in registry.models && Serves(m, request, capability, settings, retention, hosts)
    && forall other | other in registry.models && Serves(other, request, capability, settings, retention, hosts) ::
         m.priority < other.priority || (m.priority == other.priority && StringLe(m.id, other.id))
  }

  /**
   A request goes outside if and only if that is what is proposed and some entry may serve it, and
   then to the one of the least priority number and, among those, the least identifier.
   */
  lemma OutsideExactly(
    request: ChatRequest, registry: Registry, settings: Settings, proposal: Option<Proposal>,
    retention: Option<set<Retention>>, hosts: Option<set<string>>, id: string)
    requires registry.Valid()
    ensures var decision := Decide(request, registry, settings, proposal, retention, hosts);
      decision.action == ExternalModel && decision.target == Some(id) <==>
        Proposed(request, proposal, {ExternalModel, LocalAnswer}) && exists m: ModelEntry ::
          && m.id == id
          && FirstToServe(m, registry, request, proposal.value.capability, settings, retention, hosts)
  {
    var decision := Decide(request, registry, settings, proposal, retention, hosts);
    OutsideDecided(Calculator.FastHelper(request), LocalEligible(request), request, registry, settings, proposal,
      retention, hosts);
    if LocalEligible(request) {
      LocalIsNoCommand(request);
    }
    if Proposed(request, proposal, {ExternalModel, LocalAnswer}) {
      var query := Query(request, proposal.value.capability, settings, retention, hosts);
      NoneEligible(query, registry);
      if Eligible(query, registry.models) != [] {
        FirstEligible(query, registry);
      }
    }
  }

  lemma OutsideDecided(
    fast: Option<HelperCall>, local: bool, request: ChatRequest, registry: Registry, settings: Settings,
    proposal: Option<Proposal>, retention: Option<set<Retention>>, hosts: Option<set<string>>)
    ensures var decision := DecideOn(fast, local, request, registry, settings, proposal, retention, hosts);
      if request.omo.requiredCapability != CurrentInformation
        && (request.omo.action == OnlyExternal || (request.omo.action == Auto && fast.None? && !local))
        && proposal.Some? && proposal.value.action in {ExternalModel, LocalAnswer}
        && proposal.value.capability != CurrentInformation
      then var list := Eligible(Query(request, proposal.value.capability, settings, retention, hosts), registry.models);
        if list == [] then decision.action != ExternalModel
        else decision.action == ExternalModel && decision.target == Some(list[0].id)
      else decision.action != ExternalModel
  {
    Awaited(fast, local, request, registry, settings, proposal, retention, hosts);
    if proposal.Some? {
      ProposalDecided(request, registry, settings, proposal.value, retention, hosts);
    }
  }

  /** The head of the list is the only entry that is first to serve. */
  lemma FirstEligible(query: Query, registry: Registry)
    requires registry.Valid() && Eligible(query, registry.models) != []
    ensures forall m :: m == Eligible(query, registry.models)[0] <==>
      FirstToServe(m, registry, query.request, query.capability, query.settings, query.retention, query.hosts)
  {
    EligibleExact(query, registry);
    var list := Eligible(query, registry.models);
    forall m
      ensures m == list[0] <==>
        FirstToServe(m, registry, query.request, query.capability, query.settings, query.retention, query.hosts)
    {
      AllowsExactly(query, m);
      AllowsExactly(query, list[0]);
      assert list[0] in list;
      StringLeTotal(m.id, m.id);
      if m in list && m != list[0] {
        assert Before(list[0], m);
        if FirstToServe(m, registry, query.request, query.capability, query.settings, query.retention, query.hosts) {
          StringLeAntisymmetric(m.id, list[0].id);
          assert false;
        }
      } else if m == list[0] {
        forall other | other in registry.models && Serves(
            other, query.request, query.capability, query.settings, query.retention, query.hosts)
          ensures Before(m, other)
        {
          AllowsExactly(query, other);
          assert other in list;
        }
      }
    }
  }

  /** A local question is never a calculation command. */
  lemma LocalIsNoCommand(request: ChatRequest)
    requires LocalEligible(request)
    ensures Calculator.FastHelper(request) == None
  {
    assert request.messages[0].content[0] == 'W';
    Calculator.CommandStarts(request.messages[0].content);
  }

  /** The local model answers exactly the listed questions, whatever else is proposed. */
  lemma LocalExactly(
    request: ChatRequest, registry: Registry, settings: Settings, proposal: Option<Proposal>,
    retention: Option<set<Retention>>, hosts: Option<set<string>>)
    ensures Decide(request, registry, settings, proposal, retention, hosts).action == LocalAnswer <==>
      && request.omo.action in {Auto, OnlyLocal} && request.omo.requiredCapability == Text
      && exists question :: question in LOCAL_QUESTIONS && request.messages == [Message("user", question)]
  {
    if LocalEligible(request) {
      LocalIsNoCommand(request);
    }
    LocalDecided(Calculator.FastHelper(request), LocalEligible(request), request, registry, settings, proposal,
      retention, hosts);
    if LocalEligible(request) {
      assert request.messages == [Message("user", request.messages[0].content)];
    }
  }

  lemma LocalDecided(
    fast: Option<HelperCall>, local: bool, request: ChatRequest, registry: Registry, settings: Settings,
    proposal: Option<Proposal>, retention: Option<set<Retention>>, hosts: Option<set<string>>)
    requires local ==> fast.None? && request.omo.requiredCapability == Text
    ensures DecideOn(fast, local, request, registry, settings, proposal, retention, hosts).action == LocalAnswer <==>
      local && request.omo.action in {Auto, OnlyLocal}
  {
    if proposal.Some? {
      ProposalDecided(request, registry, settings, proposal.value, retention, hosts);
    }
  }

  /** A request that must stay local never leaves, whoever proposes what. */
  lemma LocalOnlyStays(
    request: ChatRequest, registry: Registry, settings: Settings, proposal: Option<Proposal>,
    retention: Option<set<Retention>>, hosts: Option<set<string>>)
    requires registry.Valid() && (request.omo.localOnly || !settings.externalEnabled)
    ensures Decide(request, registry, settings, proposal, retention, hosts).action != ExternalModel
  {
    if Decide(request, registry, settings, proposal, retention, hosts).action == ExternalModel {
      var entry := ExternalTargetEligible(request, registry, settings, proposal, retention, hosts);
    }
  }
}
