/** The OpenAI-compatible adapter: bounded retries around one response (src/omo/provider.py). */
module Provider {
  import opened Common
  import opened EventStream

  /** What the upstream would answer to one request: a status with its body, or no response at all. */
  datatype Response<+Body> = Answer(status: nat, body: Body) | NoAnswer(code: string) {
    predicate RateLimited() { Answer? && status == 429 }
  }

  function StatusCode(status: nat): string {
    if status == 400 then "provider_bad_request"
    else if status == 401 then "provider_authentication"
    else if status == 402 then "provider_quota"
    else if status == 403 then "provider_authorization"
    else if status == 404 then "provider_model_unavailable"
    else "provider_unavailable"
  }

  /** How many upstream requests one call sends, given what each would be answered. */
  function RequestsSent<Body>(hasKey: bool, upstream: seq<Response<Body>>): nat
    requires |upstream| == 2
  {
    if !hasKey then 0 else if upstream[0].RateLimited() then 2 else 1
  }

  // ---- streaming ------------------------------------------------------------------------------

  datatype Lines = Lines(lines: seq<string>, ending: Ending)

  /** The last response decides; it is a rate limit only when both were. */
  function Streamed(decode: Decoder, last: Response<Lines>): Parse {
    match last
    case NoAnswer(code) => Parse([], 0, Failed(code))
    case Answer(status, body) =>
      if status == 429 then Parse([], 0, Failed("provider_rate_limited"))
      else if status != 200 then Parse([], 0, Failed(StatusCode(status)))
      else Outcome(decode, body.lines, body.ending)
  }

  method Stream(decode: Decoder, hasKey: bool, upstream: seq<Response<Lines>>)
    returns (events: seq<Event>, verdict: Verdict, sent: nat)
    requires |upstream| == 2
    ensures sent == RequestsSent(hasKey, upstream) <= 2
    ensures sent == 2 <==> hasKey && upstream[0].Answer? && upstream[0].status == 429
    ensures sent == 0 <==> !hasKey
    ensures !hasKey ==> events == [] && verdict == Failed("provider_credentials_missing")
    ensures hasKey ==> events == Streamed(decode, upstream[sent - 1]).events
    ensures hasKey ==> verdict == Streamed(decode, upstream[sent - 1]).verdict
    ensures events != [] ==> upstream[sent - 1].Answer? && upstream[sent - 1].status == 200
    ensures !verdict.Undecided?
  {
    if !hasKey {
      return [], Failed("provider_credentials_missing"), 0;
    }
    sent := 0;
    for attempt := 1 to 3
      invariant sent == attempt - 1
      invariant attempt == 2 ==> upstream[0].RateLimited()
      invariant attempt < 3
    {
      sent := attempt;
      match upstream[attempt - 1]
      case NoAnswer(code) => return [], Failed(code), sent;
      case Answer(status, body) =>
        if status == 429 {
          if attempt == 2 {
            return [], Failed("provider_rate_limited"), sent;
          }
          continue;
        }
        if status != 200 {
          return [], Failed(StatusCode(status)), sent;
        }
        events, verdict := ReadLines(decode, body.lines, body.ending);
        return events, verdict, sent;
    }
    assert false;  // the statement after the loop is never reached
  }

  datatype Completion =
    | Answered(text: string, usage: Option<Usage>, attempts: nat, finish: Json)
    | Refused(code: string, attempts: nat)
    | Crashed  // an exception outside the handled ones

  function AllText(events: seq<Event>): string {
    if events == [] then "" else AllText(events[..|events| - 1]) + events[|events| - 1].text
  }

  lemma {:induction false} TextSizeIsLength(events: seq<Event>)
    ensures TextSize(events) == Utf8Length(AllText(events))
  {
    if events != [] {
      TextSizeIsLength(events[..|events| - 1]);
      Utf8Append(AllText(events[..|events| - 1]), events[|events| - 1].text);
    }
  }

  function LastUsage(events: seq<Event>): Option<Usage> {
    if events == [] then None
    else if events[|events| - 1].usage.Some? then events[|events| - 1].usage
    else LastUsage(events[..|events| - 1])
  }

  /** The empty string counts as no finish reason. */
  function LastFinish(events: seq<Event>): string {
    if events == [] then ""
    else
      var finish := events[|events| - 1].finish;
      if finish.Some? && finish.value != "" then finish.value else LastFinish(events[..|events| - 1])
  }

  function Collected(events: seq<Event>, verdict: Verdict, sent: nat): Completion {
    if verdict.Escaped? then Crashed
    else if verdict.Failed? then Refused(verdict.code, sent)
    else if AllText(events) == "" then Refused("provider_empty_response", if events == [] then 0 else sent)
    else Answered(AllText(events), LastUsage(events), sent,
      Str(if LastFinish(events) == "" then "stop" else LastFinish(events)))
  }

  /** The completion of a streamed call. */
  function StreamCompleted(decode: Decoder, hasKey: bool, upstream: seq<Response<Lines>>): Completion
    requires |upstream| == 2
  {
    if !hasKey then Refused("provider_credentials_missing", 0)
    else
      var sent := RequestsSent(hasKey, upstream);
      var p := Streamed(decode, upstream[sent - 1]);
      Collected(p.events, p.verdict, sent)
  }

  /** The collecting loop: the concatenated text, the last usage and the last finish reason. */
  method Gather(events: seq<Event>) returns (text: string, usage: Option<Usage>, finish: string)
    ensures text == AllText(events) && usage == LastUsage(events) && finish == LastFinish(events)
  {
    text, usage, finish := "", None, "";
    for i := 0 to |events|
      invariant text == AllText(events[..i]) && usage == LastUsage(events[..i]) && finish == LastFinish(events[..i])
    {
      var event := events[i];
      assert events[..i + 1][..i] == events[..i];
      text := text + event.text;
      usage := if event.usage.Some? then event.usage else usage;
      finish := if event.finish.Some? && event.finish.value != "" then event.finish.value else finish;
    }
    assert events[..|events|] == events;
  }

  method CollectStream(decode: Decoder, hasKey: bool, upstream: seq<Response<Lines>>)
    returns (r: Completion, sent: nat)
    requires |upstream| == 2
    ensures sent == RequestsSent(hasKey, upstream)
    ensures r == StreamCompleted(decode, hasKey, upstream)
  {
    var events, verdict;
    events, verdict, sent := Stream(decode, hasKey, upstream);
    if verdict.Escaped? {
      return Crashed, sent;
    }
    if verdict.Failed? {
      return Refused(verdict.code, sent), sent;
    }
    var text, usage, finish := Gather(events);
    if text == "" {
      return Refused("provider_empty_response", if events == [] then 0 else sent), sent;
    }
    return Answered(text, usage, sent, Str(if finish == "" then "stop" else finish)), sent;
  }

  // ---- one buffered response ------------------------------------------------------------------

  type Bytes = seq<bv8>

  datatype Chunks = Chunks(chunks: seq<Bytes>, ending: Ending)

  function Concat(chunks: seq<Bytes>): Bytes {
    if chunks == [] then [] else Concat(chunks[..|chunks| - 1]) + chunks[|chunks| - 1]
  }

  function Truthy(v: Option<Json>): bool {
    v.Some? && match v.value
      case Null => false
      case Bool(b) => b
      case Num(n) => n != 0
      case Frac(mantissa, _) => mantissa != 0
      case NotFinite => true
      case Str(s) => s != ""
      case Arr(items) => items != []
      case Obj(fields) => fields != map[]
  }

  function Length(v: Json): Option<nat> {
    match v
    case Str(s) => Some(|s|)
    case Arr(items) => Some(|items|)
    case Obj(fields) => Some(|fields|)
    case _ => None
  }

  /** What becomes of an assistant's text without tool calls. */
  function ReadText(text: string, usage: Option<Json>, finish: Json, attempts: nat): Completion {
    if text == "" then Refused("provider_invalid_response", attempts)
    else if Utf8Length(text) > MAX_TEXT_BYTES then Refused("provider_response_too_large", attempts)
    else match ReadUsage(usage)
      case None => Refused("provider_invalid_response", attempts)
      case Some(u) => Answered(text, u, attempts, finish)
  }

  function ReadMessage(choice: map<string, Json>, message: map<string, Json>, usage: Option<Json>,
      attempts: nat): Completion {
    if Truthy(Field(message, "tool_calls")) then Refused("provider_tools_unsupported", attempts)
    else if Field(message, "content").None? then Refused("provider_invalid_response", attempts)
    else
      var text := message["content"];
      if Field(message, "role") != Some(Str("assistant")) || !text.Str? then
        Refused("provider_invalid_response", attempts)
      else ReadText(text.s, usage, if "finish_reason" in choice then choice["finish_reason"] else Str("stop"), attempts)
  }

  /** The checks on a body. A decoder that raises escapes, and so does a message without `get`. */
  function ReadAnswer(body: Loading, attempts: nat): Completion {
    var invalid := Refused("provider_invalid_response", attempts);
    if body.LoadRaises? then Crashed
    else if body.NotJson? || !body.json.Obj? || Field(body.json.fields, "choices").None? then invalid
    else
      var choices := body.json.fields["choices"];
      if Length(choices).None? then invalid
      else if Length(choices).value != 1 then Refused("provider_tools_unsupported", attempts)
      else if !choices.Arr? || !choices.items[0].Obj? || Field(choices.items[0].fields, "message").None? then invalid
      else
        var message := choices.items[0].fields["message"];
        if !message.Obj? then Crashed
        else ReadMessage(choices.items[0].fields, message.fields, Field(body.json.fields, "usage"), attempts)
  }

  function Buffered(load: Bytes -> Loading, last: Response<Chunks>, attempts: nat): Completion {
    match last
    case NoAnswer(code) => Refused(code, attempts)
    case Answer(status, body) =>
      if status == 429 then Refused("provider_rate_limited", attempts)
      else if status != 200 then Refused(StatusCode(status), attempts)
      else if |Concat(body.chunks)| > MAX_RESPONSE_BYTES then Refused("provider_response_too_large", attempts)
      else if body.ending.Broken? then Refused(body.ending.code, attempts)
      else ReadAnswer(load(Concat(body.chunks)), attempts)
  }

  /** The completion of a buffered call, given what each request would be answered. */
  function Completed(load: Bytes -> Loading, hasKey: bool, upstream: seq<Response<Chunks>>): Completion
    requires |upstream| == 2
  {
    if !hasKey then Refused("provider_credentials_missing", 0)
    else Buffered(load, upstream[RequestsSent(hasKey, upstream) - 1], RequestsSent(hasKey, upstream))
  }

  /** A body whose only choice has a message that is not an object, and so has no `get`. */
  predicate MessageNotObject(body: Loading) {
    && body.Loaded? && body.json.Obj?
    && match Field(body.json.fields, "choices")
       case Some(Arr(items)) =>
         && |items| == 1 && items[0].Obj? && Field(items[0].fields, "message").Some?
         && !Field(items[0].fields, "message").value.Obj?
       case _ => false
  }

  lemma AnswerCrashesExactly(body: Loading, attempts: nat)
    ensures ReadAnswer(body, attempts).Crashed? <==> body.LoadRaises? || MessageNotObject(body)
  {
    if MessageNotObject(body) {
      assert Length(body.json.fields["choices"]) == Some(1);
    }
  }

  /** The response that decides a call: the second one after a rate limit. */
  function Last<Body>(upstream: seq<Response<Body>>): Response<Body>
    requires |upstream| == 2
  {
    upstream[if upstream[0].RateLimited() then 1 else 0]
  }

  /**
   Not every bad response ends as a provider error: an exception outside the handled ones leaves
   `complete` if and only if the last answer is a 200 whose whole, bounded body raises in the
   decoder or holds one choice with a message that is not an object.
   */
  lemma CompleteCrashesExactly(load: Bytes -> Loading, hasKey: bool, upstream: seq<Response<Chunks>>)
    requires |upstream| == 2
    ensures Completed(load, hasKey, upstream).Crashed? <==>
      && hasKey && Last(upstream).Answer? && Last(upstream).status == 200
      && var body := Last(upstream).body;
      && |Concat(body.chunks)| <= MAX_RESPONSE_BYTES && body.ending.EndOfInput?
      && (load(Concat(body.chunks)).LoadRaises? || MessageNotObject(load(Concat(body.chunks))))
  {
    if hasKey && Last(upstream).Answer? {
      AnswerCrashesExactly(load(Concat(Last(upstream).body.chunks)), RequestsSent(hasKey, upstream));
    }
  }

  lemma OneChunk(bytes: Bytes)
    ensures Concat([bytes]) == bytes
  {
    var none: seq<Bytes> := [];
    assert [bytes][..0] == none && Concat(none) == [];
    assert [] + bytes == bytes;
  }

  /** The body `{"choices": [{"message": "x"}]}`, whatever bytes it is decoded from. */
  function TextMessage(): Json { Obj(map["choices" := Arr([Obj(map["message" := Str("x")])])]) }

  lemma TextMessageCrashes(load: Bytes -> Loading, bytes: Bytes, second: Response<Chunks>)
    requires load(bytes) == Loaded(TextMessage()) && |bytes| <= MAX_RESPONSE_BYTES
    ensures Completed(load, true, [Answer(200, Chunks([bytes], EndOfInput)), second]) == Crashed
  {
    OneChunk(bytes);
    var choice := map["message" := Str("x")];
    assert Field(choice, "message") == Some(Str("x"));
    assert Field(TextMessage().fields, "choices") == Some(Arr([Obj(choice)]));
    CompleteCrashesExactly(load, true, [Answer(200, Chunks([bytes], EndOfInput)), second]);
  }

  /** `depth` opening brackets and as many closing ones, as bytes. */
  function Nested(depth: nat): Bytes { seq(depth, _ => 0x5B as bv8) + seq(depth, _ => 0x5D as bv8) }

  /** A body within the limit that the decoder raises on, without any choice in it, crashes too. */
  lemma NestedBodyCrashes(load: Bytes -> Loading, second: Response<Chunks>)
    requires load(Nested(30000)).LoadRaises?
    ensures Completed(load, true, [Answer(200, Chunks([Nested(30000)], EndOfInput)), second]) == Crashed
  {
    OneChunk(Nested(30000));
    CompleteCrashesExactly(load, true, [Answer(200, Chunks([Nested(30000)], EndOfInput)), second]);
  }

  /**
   An exception leaves `collect_stream` if and only if the last answer is a 200 in which, within
   the limits, some valid events are followed by a block that the decoder raises on.
   */
  lemma StreamCrashesExactly(decode: Decoder, hasKey: bool, upstream: seq<Response<Lines>>)
    requires |upstream| == 2
    ensures StreamCompleted(decode, hasKey, upstream).Crashed? <==>
      && hasKey && Last(upstream).Answer? && Last(upstream).status == 200
      && var lines := Last(upstream).body.lines;
      EscapesWithin(decode, Raws(Closed(lines[..Admitted(lines)])))
  {
    if hasKey && Last(upstream).Answer? {
      EscapesExactly(decode, Last(upstream).body.lines, Last(upstream).body.ending);
    }
  }

  /** A stream of one block that the decoder raises on crashes: 16000 opening brackets are such a block. */
  lemma NestedStreamCrashes(decode: Decoder, second: Response<Lines>, ending: Ending)
    requires decode(Brackets(16000)).Unhandled?
    ensures StreamCompleted(decode, true, [Answer(200, Lines(["data:" + Brackets(16000), ""], ending)), second])
      == Crashed
  {
    OneBlockCrashes(decode, Brackets(16000), second, ending);
  }

  lemma OneBlockCrashes(decode: Decoder, raw: string, second: Response<Lines>, ending: Ending)
    requires raw != "" && |raw| <= MAX_EVENT_BYTES && forall i | 0 <= i < |raw| :: raw[i] == '['
    requires decode(raw).Unhandled?
    ensures StreamCompleted(decode, true, [Answer(200, Lines(["data:" + raw, ""], ending)), second]) == Crashed
  {
    var lines := ["data:" + raw, ""];
    OneBlock(raw);
    FirstRaises(decode, raw);
    StreamCrashesExactly(decode, true, [Answer(200, Lines(lines, ending)), second]);
  }

  lemma FirstRaises(decode: Decoder, raw: string)
    requires raw != "" && |raw| <= MAX_EVENT_BYTES && forall i | 0 <= i < |raw| :: raw[i] == '['
    requires decode(raw).Unhandled?
    ensures EscapesWithin(decode, [raw])
  {
    var none: seq<Event> := [];
    AsciiLength(raw);
    assert raw != "[DONE]" by {
      assert "[DONE]"[1] == 'D';
    }
    assert EscapesAfter(decode, none, [raw]);
  }

  function Brackets(n: nat): string { seq(n, _ => '[') }

  /** A text on one data line is one block, within the limit, and read as it is. */
  lemma OneBlock(raw: string)
    requires raw != "" && |raw| <= MAX_EVENT_BYTES && forall i | 0 <= i < |raw| :: raw[i] == '['
    ensures var lines := ["data:" + raw, ""]; lines[..Admitted(lines)] == lines && Raws(Closed(lines)) == [raw]
  {
    var line := "data:" + raw;
    var lines := [line, ""];
    var none: seq<string> := [];
    OneGroup(line);
    OneRaw(line, raw);
    AsciiLength(line);
    assert lines[..1] == [line] && [line][..0] == none;
    assert Size([line]) == |line| + 1 && Size(lines) == |line| + 2;
  }

  lemma OneGroup(line: string)
    requires line != ""
    ensures Closed([line, ""]) == [[line]]
  {
    var none: seq<string> := [];
    assert FirstBlank([""]) == 0 && [line, ""][1..] == [""];
    assert FirstBlank([line, ""]) == 1;
    ClosedAt([line, ""], 1);
    assert [line, ""][..1] == [line] && [line, ""][2..] == none;
    assert Closed(none) == [];
  }

  lemma OneRaw(line: string, raw: string)
    requires line == "data:" + raw && raw != "" && raw[0] == '['
    ensures Raws([[line]]) == [raw]
  {
    var none: seq<string> := [];
    var no: seq<seq<string>> := [];
    assert line[5..] == raw && StripLeft(raw) == raw;
    assert [line][..0] == none && DataParts([line]) == [raw];
    assert [[line]][..0] == no && Raws(no) == [];
  }

  /**
   A call whose deciding response is no 200 is refused, with the code of its status and the number of
   requests sent, whether it streams or not; a request without a response gives the transport's code.
   */
  lemma RefusedAlike<Body>(
    decode: Decoder, load: Bytes -> Loading, streamed: seq<Response<Lines>>, buffered: seq<Response<Chunks>>,
    upstream: seq<Response<Body>>)
    requires |streamed| == 2 && |buffered| == 2 && |upstream| == 2
    requires forall i | 0 <= i < 2 :: SameHead(streamed[i], upstream[i]) && SameHead(buffered[i], upstream[i])
    requires !(Last(upstream).Answer? && Last(upstream).status == 200)
    ensures var codes := map[
        400 := "provider_bad_request", 401 := "provider_authentication", 402 := "provider_quota",
        403 := "provider_authorization", 404 := "provider_model_unavailable", 429 := "provider_rate_limited"];
      var code := if Last(upstream).NoAnswer? then Last(upstream).code
        else if Last(upstream).status in codes then codes[Last(upstream).status] else "provider_unavailable";
      var refused := Refused(code, if upstream[0] == Last(upstream) && !upstream[0].RateLimited() then 1 else 2);
      StreamCompleted(decode, true, streamed) == refused && Completed(load, true, buffered) == refused
    ensures var refused := Refused("provider_credentials_missing", 0);
      StreamCompleted(decode, false, streamed) == refused && Completed(load, false, buffered) == refused
  {
  }

  /**
   Why a 200 answer is refused before its message is looked at: a body over the limit, even over a
   broken connection, then the connection, then a text that is not JSON or is no list of one choice.
   */
  lemma BodyRefused(load: Bytes -> Loading, upstream: seq<Response<Chunks>>)
    requires |upstream| == 2 && Last(upstream).Answer? && Last(upstream).status == 200
    ensures var attempts, r := RequestsSent(true, upstream), Completed(load, true, upstream);
      var all, ending := Concat(Last(upstream).body.chunks), Last(upstream).body.ending;
      if |all| > MAX_RESPONSE_BYTES then r == Refused("provider_response_too_large", attempts)
      else if ending.Broken? then r == Refused(ending.code, attempts)
      else
        && (load(all).NotJson? ==> r == Refused("provider_invalid_response", attempts))
        && (forall fields, items ::
              (load(all) == Loaded(Obj(fields)) && Field(fields, "choices") == Some(Arr(items)) && |items| != 1) ==>
                r == Refused("provider_tools_unsupported", attempts))
  {
  }

  /** The same status, or the same failure of the connection, whatever the bodies. */
  predicate SameHead<A, B>(a: Response<A>, b: Response<B>) {
    match a
    case Answer(status, _) => b.Answer? && b.status == status
    case NoAnswer(code) => b.NoAnswer? && b.code == code
  }

  // ---- the round trip of a buffered completion ------------------------------------------------

  /** What an upstream puts into the body of a completion; `None` is a missing key. */
  datatype Said = Said(role: Json, content: Json, tools: Option<Json>, finish: Option<Json>, usage: Option<Json>)

  function AnswerJson(said: Said): Json {
    Obj(With(map["choices" := Arr([Obj(AnswerChoice(said))])], "usage", said.usage))
  }

  function AnswerChoice(said: Said): map<string, Json> {
    With(map["message" := Obj(AnswerMessage(said))], "finish_reason", said.finish)
  }

  function AnswerMessage(said: Said): map<string, Json> {
    With(map["role" := said.role, "content" := said.content], "tool_calls", said.tools)
  }

  /** The values that Python takes for false. */
  predicate Empty(v: Json) {
    v in {Null, Bool(false), Num(0), Str(""), Arr([]), Obj(map[])} || (v.Frac? && v.mantissa == 0)
  }

  /** An assistant's text within the limit, without tool calls. */
  predicate SaysText(said: Said, text: string) {
    && said.role == Str("assistant") && said.content == Str(text) && text != ""
    && Utf8Length(text) <= MAX_TEXT_BYTES && (said.tools.None? || Empty(said.tools.value))
  }

  /**
   A completion that is printed in a body within the limit, however cut into chunks, is answered if
   and only if it is an assistant's text with a proper usage report and no tool call; and then with
   that text, that report and its finish reason, which is "stop" when there is none. Tool calls are
   refused as such.
   */
  lemma BufferedRoundTrip(load: Bytes -> Loading, upstream: seq<Response<Chunks>>, said: Said)
    requires |upstream| == 2 && Last(upstream).Answer? && Last(upstream).status == 200
    requires Last(upstream).body.ending.EndOfInput? && |Concat(Last(upstream).body.chunks)| <= MAX_RESPONSE_BYTES
    requires load(Concat(Last(upstream).body.chunks)) == Loaded(AnswerJson(said))
    ensures var attempts, r := RequestsSent(true, upstream), Completed(load, true, upstream);
      && (forall text, usage, finish :: r == Answered(text, usage, attempts, finish) <==>
            && SaysText(said, text) && Reports(said.usage, usage)
            && finish == if said.finish.Some? then said.finish.value else Str("stop"))
      && (r.Refused? || (r.Answered? && r.attempts == attempts))
      && (said.tools.Some? && !Empty(said.tools.value) ==> r == Refused("provider_tools_unsupported", attempts))
  {
    var attempts := RequestsSent(true, upstream);
    AnswerRead(said, attempts);
    MessageExactly(said, attempts);
  }

  lemma MessageExactly(said: Said, attempts: nat)
    ensures var r := ReadMessage(AnswerChoice(said), AnswerMessage(said), said.usage, attempts);
      && (forall text, usage, finish :: r == Answered(text, usage, attempts, finish) <==>
            && SaysText(said, text) && Reports(said.usage, usage)
            && finish == if said.finish.Some? then said.finish.value else Str("stop"))
      && (r.Refused? || (r.Answered? && r.attempts == attempts))
      && (said.tools.Some? && !Empty(said.tools.value) ==> r == Refused("provider_tools_unsupported", attempts))
  {
    var message, choice := AnswerMessage(said), AnswerChoice(said);
    UsageExactly(said.usage);
    assert Field(message, "tool_calls") == said.tools && Field(message, "content") == Some(said.content);
    assert Field(message, "role") == Some(said.role) && Field(choice, "finish_reason") == said.finish;
  }

  lemma AnswerRead(said: Said, attempts: nat)
    ensures ReadAnswer(Loaded(AnswerJson(said)), attempts)
      == ReadMessage(AnswerChoice(said), AnswerMessage(said), said.usage, attempts)
  {
    var choice, body := AnswerChoice(said), AnswerJson(said).fields;
    assert Field(body, "choices") == Some(Arr([Obj(choice)])) && Field(body, "usage") == said.usage;
    assert Field(choice, "message") == Some(Obj(AnswerMessage(said)));
  }

  lemma {:induction false} ConcatGrows(chunks: seq<Bytes>, i: nat)
    requires i <= |chunks|
    ensures |Concat(chunks[..i])| <= |Concat(chunks)|
    decreases |chunks|
  {
    if i == |chunks| {
      assert chunks[..i] == chunks;
    } else {
      assert chunks[..|chunks| - 1][..i] == chunks[..i];
      ConcatGrows(chunks[..|chunks| - 1], i);
    }
  }

  method Complete(load: Bytes -> Loading, hasKey: bool, upstream: seq<Response<Chunks>>)
    returns (r: Completion, sent: nat)
    requires |upstream| == 2
    ensures sent == RequestsSent(hasKey, upstream) <= 2
    ensures sent == 2 <==> hasKey && upstream[0].Answer? && upstream[0].status == 429
    ensures sent == 0 <==> !hasKey
    ensures r == Completed(load, hasKey, upstream)
  {
    if !hasKey {
      return Refused("provider_credentials_missing", 0), 0;
    }
    sent := 0;
    for attempt := 1 to 3
      invariant sent == attempt - 1
      invariant attempt == 2 ==> upstream[0].RateLimited()
      invariant attempt < 3
    {
      sent := attempt;
      match upstream[attempt - 1]
      case NoAnswer(code) => return Refused(code, sent), sent;
      case Answer(status, answer) =>
        if status == 429 {
          if attempt == 2 {
            return Refused("provider_rate_limited", attempt), sent;
          }
          continue;
        }
        if status != 200 {
          return Refused(StatusCode(status), attempt), sent;
        }
        var body: Bytes := [];
        for i := 0 to |answer.chunks|
          invariant body == Concat(answer.chunks[..i]) && |body| <= MAX_RESPONSE_BYTES
        {
          assert answer.chunks[..i + 1][..i] == answer.chunks[..i];
          if |body| + |answer.chunks[i]| > MAX_RESPONSE_BYTES {
            ConcatGrows(answer.chunks, i + 1);
            return Refused("provider_response_too_large", attempt), sent;
          }
          body := body + answer.chunks[i];
        }
        assert answer.chunks[..|answer.chunks|] == answer.chunks;
        if answer.ending.Broken? {
          return Refused(answer.ending.code, attempt), sent;
        }
        return ReadAnswer(load(body), attempt), sent;
    }
    assert false;  // the statement after the loop is never reached
  }
}
