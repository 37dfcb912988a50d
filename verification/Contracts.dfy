/** The validated request and configuration types (src/omo/contracts.py, registry.py, access.py, config.py). */
module Contracts {
  import opened Common

  datatype Message = Message(role: string, content: string)

  /** Bytes of the contents of some messages. */
  function ContentBytes(messages: seq<Message>): nat {
    if messages == [] then 0
    else ContentBytes(messages[..|messages| - 1]) + Utf8Length(messages[|messages| - 1].content)
  }

  /** The contents of all messages, one after the other. */
  function AllContent(messages: seq<Message>): string {
    if messages == [] then "" else messages[0].content + AllContent(messages[1..])
  }

  lemma {:induction false} AllContentLast(messages: seq<Message>, m: Message)
    ensures AllContent(messages + [m]) == AllContent(messages) + m.content
  {
    if messages == [] {
      assert messages + [m] == [m] && AllContent([m]) == m.content + "";
    } else {
      AllContentLast(messages[1..], m);
      assert (messages + [m])[1..] == messages[1..] + [m];
      PlusAssociates(messages[0].content, AllContent(messages[1..]), m.content);
    }
  }

  /** The bytes that the limits count are those of the whole conversation. */
  lemma {:induction false} ContentBytesCount(messages: seq<Message>)
    ensures ContentBytes(messages) == Utf8Length(AllContent(messages))
  {
    if messages != [] {
      var front, last := messages[..|messages| - 1], messages[|messages| - 1];
      ContentBytesCount(front);
      AllContentLast(front, last);
      Utf8Append(AllContent(front), last.content);
      assert messages == front + [last];
    }
  }

  datatype Capability = Text | Coding | CurrentInformation
  datatype Retention = NoRetention | ProviderDefault | UnknownRetention
  datatype Action = LocalAnswer | Helper | ExternalModel | Clarify | Reject

  datatype Operation = Add | Subtract | Multiply | Divide
  datatype Unit = NoUnit | AED | USD | Kilogram | Metre | Second

  datatype HelperCall =
    | Arithmetic(operation: Operation, a: string, b: string, unit: Unit)
    | EvenSquares(values: seq<int>)

  datatype RequestedAction = Auto | OnlyLocal | OnlyHelper | OnlyExternal

  datatype Options = Options(
    localOnly: bool, action: RequestedAction, helper: Option<HelperCall>, requiredCapability: Capability, maxCost: real)

  datatype ChatRequest = ChatRequest(messages: seq<Message>, stream: bool, maxTokens: nat, omo: Options)

  datatype Proposal = Proposal(action: Action, capability: Capability, helper: Option<HelperCall>)

  /** A registry entry. `host` is the hostname of its base URL. */
  datatype ModelEntry = ModelEntry(
    id: string, host: string, enabled: bool, available: bool, capabilities: set<Capability>,
    contextTokens: nat, maxOutputTokens: nat, inputPrice: Option<real>, outputPrice: Option<real>,
    retention: Retention, priority: nat, byteTokenizer: bool)
  {
    predicate Valid() {
      (inputPrice.Some? ==> inputPrice.value >= 0.0) && (outputPrice.Some? ==> outputPrice.value >= 0.0)
    }
  }

  datatype Registry = Registry(version: string, models: seq<ModelEntry>) {
    /** What the validators of `Registry` and `ModelEntry` leave of the costs and identifiers. */
    predicate Valid() {
      && (forall i, j | 0 <= i < j < |models| :: models[i].id != models[j].id)
      && |models| <= 32
      && (forall i | 0 <= i < |models| :: models[i].Valid())
    }
  }

  datatype Caller = Caller(
    id: string, maxCost: real, dailyBudget: Option<real>, allowedRetention: set<Retention>, allowedHosts: set<string>)

  datatype Settings = Settings(sandboxEnabled: bool, externalEnabled: bool, externalMaxCost: real, analysisTokens: nat)

  datatype Decision = Decision(action: Action, reason: string, target: Option<string>, helper: Option<HelperCall>)
}
