/** The conversation as the classifier sees it (src/omo/classification.py). JSON printing is a parameter. */
module Classification {
  import opened Common
  import opened Contracts

  type Dump = seq<Message> -> string

  const MAX_MESSAGES := 24
  const MAX_SERIALIZED_BYTES := 16000

  /** Between 1 and 24 messages, a system message only at the start, a user message at the end. */
  predicate WellFormed(messages: seq<Message>) {
    && 1 <= |messages| <= MAX_MESSAGES
    && (forall i | 0 < i < |messages| :: messages[i].role != "system")
    && messages[|messages| - 1].role == "user"
  }

  /** `serialize_messages`: `None` stands for a ValueError. */
  method SerializeMessages(dump: Dump, messages: seq<Message>) returns (serialized: Option<string>)
    ensures serialized == Serialized(dump, messages)
  {
    if !(1 <= |messages| <= MAX_MESSAGES) {
      return None;
    }
    for index := 0 to |messages|
      invariant forall i | 0 < i < index :: messages[i].role != "system"
    {
      if messages[index].role == "system" && index != 0 {
        return None;
      }
    }
    if messages[|messages| - 1].role != "user" {
      return None;
    }
    var text := dump(messages);
    return if Utf8Length(text) > MAX_SERIALIZED_BYTES then None else Some(text);
  }

  function Serialized(dump: Dump, messages: seq<Message>): Option<string> {
    if WellFormed(messages) && Utf8Length(dump(messages)) <= MAX_SERIALIZED_BYTES then Some(dump(messages)) else None
  }

  const MAX_CONTENT_BYTES := 16000
  const MAX_CONTENT := 12000
  const ROLES := {"system", "user", "assistant"}

  predicate ValidMessage(m: Message) { m.role in ROLES && 1 <= |m.content| <= MAX_CONTENT }

  /** What the validators of `ChatRequest` leave. */
  predicate ValidRequest(request: ChatRequest) {
    && WellFormed(request.messages)
    && (forall m | m in request.messages :: ValidMessage(m))
    && ContentBytes(request.messages) <= MAX_CONTENT_BYTES
    && 8 <= request.maxTokens <= 256
    && (request.omo.action == OnlyHelper <==> request.omo.helper.Some?)
  }

  /** The bound on a request is on its contents, the bound on the serialization on the whole text. */
  lemma ValidFailsExactly(dump: Dump, request: ChatRequest)
    requires ValidRequest(request)
    ensures Serialized(dump, request.messages).None? <==> Utf8Length(dump(request.messages)) > MAX_SERIALIZED_BYTES
  {
  }

  /** Two messages that fill the content bound. */
  function FullConversation(): seq<Message> {
    [Message("system", seq(8000, _ => 'x')), Message("user", seq(8000, _ => 'x'))]
  }

  /** Any printer that adds something to the contents makes a valid request fail. */
  lemma FullConversationFails(dump: Dump, request: ChatRequest)
    requires request.messages == FullConversation() && 8 <= request.maxTokens <= 256
    requires request.omo.action == OnlyHelper <==> request.omo.helper.Some?
    requires Utf8Length(dump(request.messages)) > ContentBytes(request.messages)
    ensures ValidRequest(request) && Serialized(dump, request.messages).None?
  {
    var text := seq(8000, _ => 'x');
    AsciiLength(text);
    var messages := request.messages;
    var none: seq<Message> := [];
    assert messages[..1] == [Message("system", text)] && messages[..1][..0] == none;
    assert ContentBytes(messages[..1]) == 8000;
    assert ContentBytes(messages) == 16000;
  }
}
