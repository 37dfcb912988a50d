/** The model worker: one reply line for every request line (src/omo/inference_worker.py). */
module InferenceWorker {
  import opened Common
  import opened Contracts

  /** A decoded `role`: a string, another value that can be hashed, or a list or object, which cannot. */
  datatype RawRole = Name(name: string) | Scalar | Unhashable

  /** A decoded item of `messages`. `NoMessage`: not an object with exactly the two keys. */
  datatype RawMessage = NoMessage | Raw(role: RawRole, content: Option<string>)

  /**
   A decoded request with a list of messages and no unknown key. `maxTokens` is `None` when it is
   missing or not an integer; `optionsTyped` says that the two optional fields have their types.
   */
  datatype Request = Request(
    messages: seq<RawMessage>, maxTokens: Option<int>, optionsTyped: bool, hasSchema: bool, countOnly: bool)

  /**
   One line of standard input, once JSON decoding has been tried on it. `DecoderRaises`: an
   exception other than TypeError and ValueError, such as the RecursionError of deep nesting.
   */
  datatype Input = Unreadable | DecoderRaises | Decoded(request: Request)

  /** One line of standard output after the ready line. */
  datatype Reply = Failure(code: string) | Tokens(count: nat) | Completion(text: string, finish: string)

  /** The loaded model. `None` stands for an exception raised inside the engine. */
  datatype Engine = Engine(
    context: int,
    tokens: seq<Message> -> Option<nat>,
    complete: (seq<Message>, int, bool) -> Option<(string, string)>)

  const ROLES := {"system", "user", "assistant"}

  predicate GoodMessage(m: RawMessage) {
    && m.Raw? && m.role.Name? && m.role.name in ROLES
    && m.content.Some? && 1 <= |m.content.value| <= 60000
  }

  predicate AllGood(raw: seq<RawMessage>) { forall i | 0 <= i < |raw| :: GoodMessage(raw[i]) }

  function Clean(raw: seq<RawMessage>): seq<Message>
    requires AllGood(raw)
  {
    if raw == [] then []
    else
      var last := raw[|raw| - 1];
      Clean(raw[..|raw| - 1]) + [Message(last.role.name, last.content.value)]
  }

  /** The request contract, stated on the whole message list at once. */
  predicate Acceptable(r: Request) {
    && 1 <= |r.messages| <= 24
    && AllGood(r.messages) && ContentBytes(Clean(r.messages)) <= 60000
    && r.maxTokens.Some? && 8 <= r.maxTokens.value <= 256
    && r.optionsTyped
  }

  predicate BadRole(m: RawMessage) { m.Raw? && m.role.Unhashable? }

  /** A role that cannot be hashed raises in the membership test, if no message before it is refused. */
  predicate Crashes(r: Request) {
    && 1 <= |r.messages| <= 24
    && exists i :: 0 <= i < |r.messages| && BadRole(r.messages[i]) && AllGood(r.messages[..i])
  }

  function WithSystem(ms: seq<Message>): seq<Message> {
    if ms == [] || ms[0].role != "system"
    then [Message("system", "You are a helpful assistant.")] + ms
    else ms
  }

  function ReplyTo(engine: Engine, line: Input): Reply {
    if line.Unreadable? then Failure("invalid_request")
    else if line.DecoderRaises? then Failure("inference_failed")
    else if Crashes(line.request) then Failure("inference_failed")
    else if !Acceptable(line.request) then Failure("invalid_request")
    else AnswerTo(engine, line.request)
  }

  function AnswerTo(engine: Engine, r: Request): Reply
    requires Acceptable(r)
  {
    var ms := WithSystem(Clean(r.messages));
    match engine.tokens(ms)
    case None => Failure("inference_failed")
    case Some(n) =>
      if n + r.maxTokens.value + 16 > engine.context then Failure("context_exceeded")
      else if r.countOnly then Tokens(n)
      else match engine.complete(ms, r.maxTokens.value, r.hasSchema)
        case None => Failure("inference_failed")
        case Some((text, finish)) => Completion(text, finish)
  }

  /** The result of `_parse_request`: the clean messages, `None`, or a TypeError. */
  datatype Parsing = Parsed(messages: seq<Message>) | Refused | Raised

  method ParseRequest(r: Request) returns (parsed: Parsing)
    ensures parsed.Parsed? <==> Acceptable(r)
    ensures parsed.Parsed? ==> parsed.messages == Clean(r.messages)
    ensures parsed.Raised? <==> Crashes(r)
  {
    if !(1 <= |r.messages| <= 24) {
      return Refused;
    }
    var totalBytes := 0;
    var messages: seq<Message> := [];
    for i := 0 to |r.messages|
      invariant AllGood(r.messages[..i]) && messages == Clean(r.messages[..i])
      invariant totalBytes == ContentBytes(messages)
    {
      var m := r.messages[i];
      if m.NoMessage? {
        BadMessageRefused(r, i);
        return Refused;
      }
      if m.role.Unhashable? {
        CrashFound(r, i);
        return Raised;
      }
      if m.role.Scalar? || m.role.name !in ROLES || m.content.None? || !(1 <= |m.content.value| <= 60000) {
        BadMessageRefused(r, i);
        return Refused;
      }
      CleanStep(r.messages, i);
      totalBytes := totalBytes + Utf8Length(m.content.value);
      messages := messages + [Message(m.role.name, m.content.value)];
    }
    assert r.messages[..|r.messages|] == r.messages;
    GoodNeverCrashes(r);
    if totalBytes > 60000 || r.maxTokens.None? || !(8 <= r.maxTokens.value <= 256) || !r.optionsTyped {
      return Refused;
    }
    return Parsed(messages);
  }

  lemma CleanStep(raw: seq<RawMessage>, i: nat)
    requires i < |raw| && AllGood(raw[..i]) && GoodMessage(raw[i])
    ensures AllGood(raw[..i + 1])
    ensures var m := Message(raw[i].role.name, raw[i].content.value);
      && Clean(raw[..i + 1]) == Clean(raw[..i]) + [m]
      && ContentBytes(Clean(raw[..i + 1])) == ContentBytes(Clean(raw[..i])) + Utf8Length(m.content)
  {
    var before, m := Clean(raw[..i]), Message(raw[i].role.name, raw[i].content.value);
    assert raw[..i + 1][..i] == raw[..i];
    assert (before + [m])[..|before|] == before;
  }

  lemma CrashFound(r: Request, i: nat)
    requires 1 <= |r.messages| <= 24 && i < |r.messages|
    requires AllGood(r.messages[..i]) && BadRole(r.messages[i])
    ensures Crashes(r) && !Acceptable(r)
  {
    assert !GoodMessage(r.messages[i]);
  }

  lemma GoodNeverCrashes(r: Request)
    requires AllGood(r.messages)
    ensures !Crashes(r)
  {
    forall i | 0 <= i < |r.messages| ensures r.messages[i].role.Name? {
      assert GoodMessage(r.messages[i]);
    }
  }

  /** The first bad message decides: what follows it is not looked at. */
  lemma BadMessageRefused(r: Request, i: nat)
    requires i < |r.messages| && AllGood(r.messages[..i]) && !GoodMessage(r.messages[i])
    requires !BadRole(r.messages[i])
    ensures !Acceptable(r) && !Crashes(r)
  {
    forall k | 0 <= k < |r.messages| && BadRole(r.messages[k])
      ensures !AllGood(r.messages[..k])
    {
      if k > i {
        assert r.messages[..k][i] == r.messages[i];
      }
    }
  }

  /** The body of the request loop, whose handler answers whatever is raised. */
  method AnswerLine(engine: Engine, line: Input) returns (reply: Reply)
    ensures reply == ReplyTo(engine, line)
  {
    if line.Unreadable? {
      return Failure("invalid_request");
    }
    if line.DecoderRaises? {
      return Failure("inference_failed");
    }
    var request := line.request;
    var parsed := ParseRequest(request);
    if parsed.Raised? {
      return Failure("inference_failed");
    }
    if parsed.Refused? {
      return Failure("invalid_request");
    }
    var messages := if parsed.messages == [] || parsed.messages[0].role != "system"
                    then [Message("system", "You are a helpful assistant.")] + parsed.messages
                    else parsed.messages;
    var tokens := engine.tokens(messages);
    if tokens.None? {
      return Failure("inference_failed");
    }
    if tokens.value + request.maxTokens.value + 16 > engine.context {
      return Failure("context_exceeded");
    }
    if request.countOnly {
      return Tokens(tokens.value);
    }
    var result := engine.complete(messages, request.maxTokens.value, request.hasSchema);
    return if result.None? then Failure("inference_failed") else Completion(result.value.0, result.value.1);
  }

  /** The request loop: the i-th output line answers the i-th input line, and there are no others. */
  method Serve(engine: Engine, lines: seq<Input>) returns (out: seq<Reply>)
    ensures |out| == |lines|
    ensures forall i :: 0 <= i < |lines| ==> out[i] == ReplyTo(engine, lines[i])
  {
    out := [];
    for n := 0 to |lines|
      invariant |out| == n
      invariant forall i :: 0 <= i < n ==> out[i] == ReplyTo(engine, lines[i])
    {
      var reply := AnswerLine(engine, lines[n]);
      out := out + [reply];
    }
  }

  // ---- what the engine is asked, and what is answered --------------------------------------------

  /** The messages of the request in order, after the default system message when they start with none. */
  predicate Prompts(r: Request, prompt: seq<Message>)
    requires Acceptable(r)
  {
    var system := r.messages[0].role.name == "system";
    && |prompt| == |r.messages| + (if system then 0 else 1)
    && (!system ==> prompt[0] == Message("system", "You are a helpful assistant."))
    && forall i | 0 <= i < |r.messages| :: GoodMessage(r.messages[i]) &&
         prompt[|prompt| - |r.messages| + i] == Message(r.messages[i].role.name, r.messages[i].content.value)
  }

  lemma {:induction false} CleanAt(raw: seq<RawMessage>)
    requires AllGood(raw)
    ensures |Clean(raw)| == |raw|
    ensures forall i | 0 <= i < |raw| ::
      GoodMessage(raw[i]) && Clean(raw)[i] == Message(raw[i].role.name, raw[i].content.value)
  {
    if raw != [] {
      CleanAt(raw[..|raw| - 1]);
    }
  }

  /** The default message in front, if there is one to put there. */
  lemma SystemFirst(prompt: seq<Message>, messages: seq<Message>)
    requires messages != [] && |prompt| == |messages| + (if messages[0].role == "system" then 0 else 1)
    requires messages[0].role == "system" || prompt[0] == Message("system", "You are a helpful assistant.")
    requires prompt[|prompt| - |messages|..] == messages
    ensures prompt == WithSystem(messages)
  {
    assert prompt == prompt[..|prompt| - |messages|] + messages;
  }

  lemma PromptIs(r: Request, prompt: seq<Message>)
    requires Acceptable(r) && Prompts(r, prompt)
    ensures prompt == WithSystem(Clean(r.messages))
  {
    FirstIs(r);
    LastAre(r, prompt, |prompt| - |r.messages|);
    SystemFirst(prompt, Clean(r.messages));
  }

  lemma FirstIs(r: Request)
    requires Acceptable(r)
    ensures r.messages[0].Raw? && r.messages[0].role.Name? && |Clean(r.messages)| == |r.messages|
    ensures Clean(r.messages)[0].role == r.messages[0].role.name
  {
    CleanAt(r.messages);
  }

  lemma LastAre(r: Request, prompt: seq<Message>, skipped: nat)
    requires Acceptable(r) && Prompts(r, prompt) && skipped == |prompt| - |r.messages|
    ensures prompt[skipped..] == Clean(r.messages)
  {
    CleanAt(r.messages);
    forall i | 0 <= i < |r.messages| ensures prompt[skipped..][i] == Clean(r.messages)[i] {
      assert prompt[skipped..][i] == prompt[skipped + i];
    }
  }

  /**
   The reply to an acceptable request: the engine's text and finish reason if and only if it is no
   count, the prompt fits the context and the engine completes it; the engine's count if and only if
   that is what is asked and it fits; else the failure that says what went wrong.
   */
  lemma RepliesExactly(engine: Engine, r: Request, prompt: seq<Message>)
    requires Acceptable(r) && Prompts(r, prompt)
    ensures var reply := ReplyTo(engine, Decoded(r));
      var tokens := engine.tokens(prompt);
      var result := engine.complete(prompt, r.maxTokens.value, r.hasSchema);
      var fits := tokens.Some? && tokens.value + r.maxTokens.value + 16 <= engine.context;
      && (forall text, finish :: reply == Completion(text, finish) <==>
            fits && !r.countOnly && result == Some((text, finish)))
      && (forall n: nat :: reply == Tokens(n) <==> fits && r.countOnly && tokens == Some(n))
      && (reply == Failure("context_exceeded") <==> tokens.Some? && !fits)
      && (reply == Failure("inference_failed") <==> tokens.None? || (fits && !r.countOnly && result.None?))
  {
    GoodNeverCrashes(r);
    PromptIs(r, prompt);
    assert |"context_exceeded"| == |"inference_failed"| && "context_exceeded"[0] != "inference_failed"[0];
  }

  /** Lines that are not acceptable requests, and what each is told. */
  lemma RefusesExactly(engine: Engine, line: Input)
    ensures ReplyTo(engine, line) == Failure("invalid_request") <==>
      line.Unreadable? || (line.Decoded? && !Acceptable(line.request) && !Crashes(line.request))
    ensures line.DecoderRaises? || (line.Decoded? && Crashes(line.request)) ==>
      ReplyTo(engine, line) == Failure("inference_failed")
  {
    assert |"invalid_request"| != |"context_exceeded"| && |"invalid_request"| != |"inference_failed"|;
    if line.Decoded? && Acceptable(line.request) {
      GoodNeverCrashes(line.request);
    }
  }
}
