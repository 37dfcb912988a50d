/**
 The chunk printer of the chat endpoint (src/omo/api.py, `chunks`), read back by the parser of
 `EventStream`: the round trip, its exact limits, and what a truncated stream can give.
 */
module StreamPrinter {
  import opened Common
  import opened EventStream
  import opened Provider

  const CHUNK := 256

  /** What is printed: identification, the text, the usage and the routing metadata. */
  datatype Reply = Reply(id: string, created: int, model: string, text: string, usage: Option<Usage>, omo: Json) {
    function Base(): map<string, Json> {
      map["id" := Str(id), "created" := Num(created), "model" := Str(model), "object" := Str("chat.completion.chunk")]
    }
  }

  function UsageJson(usage: Option<Usage>): Json {
    match usage
    case None => Null
    case Some(u) => Obj(map["prompt_tokens" := Num(u.prompt), "completion_tokens" := Num(u.completion),
      "total_tokens" := Num(u.total)])
  }

  function Choice(delta: map<string, Json>, finish: Json): Json {
    Arr([Obj(map["index" := Num(0), "delta" := Obj(delta), "finish_reason" := finish])])
  }

  function TextChunk(reply: Reply, part: string): Json {
    Obj(reply.Base()["choices" := Choice(map["content" := Str(part)], Null)])
  }

  function LastChunk(reply: Reply): Json {
    Obj(reply.Base()["choices" := Choice(map[], Str("stop"))]["usage" := UsageJson(reply.usage)]["omo" := reply.omo])
  }

  /** The text in pieces of `CHUNK` characters, the last one possibly shorter. */
  function Pieces(text: string): seq<string> {
    if text == "" then []
    else
      var start := (|text| - 1) / CHUNK * CHUNK;
      Pieces(text[..start]) + [text[start..]]
  }

  function TextChunks(reply: Reply, parts: seq<string>): seq<Json> {
    if parts == [] then [] else TextChunks(reply, parts[..|parts| - 1]) + [TextChunk(reply, parts[|parts| - 1])]
  }

  function Payloads(reply: Reply): seq<Json> { TextChunks(reply, Pieces(reply.text)) + [LastChunk(reply)] }

  function Dumps(codec: Codec, payloads: seq<Json>): (r: seq<string>)
    ensures |r| == |payloads|
  {
    if payloads == [] then [] else [codec.dump(payloads[0])] + Dumps(codec, payloads[1..])
  }

  function Bodies(codec: Codec, reply: Reply): seq<string> { Dumps(codec, Payloads(reply)) + ["[DONE]"] }

  function Block(body: string): string { "data: " + body + "\n\n" }

  function TextOf(bodies: seq<string>): string {
    if bodies == [] then "" else Block(bodies[0]) + TextOf(bodies[1..])
  }

  /** The whole character stream. */
  function Print(codec: Codec, reply: Reply): string { TextOf(Bodies(codec, reply)) }

  // ---- lines ----------------------------------------------------------------------------------

  predicate IsBreak(c: char) {
    c as int in {10, 11, 12, 13, 28, 29, 30, 0x85, 0x2028, 0x2029}
  }

  function FirstBreak(t: string): (k: nat)
    ensures k <= |t| && (k < |t| ==> IsBreak(t[k])) && forall i | 0 <= i < k :: !IsBreak(t[i])
  {
    if t == "" || IsBreak(t[0]) then 0 else 1 + FirstBreak(t[1..])
  }

  /** `splitlines`: a final unterminated line counts, carriage return and line feed are one break. */
  function SplitLines(t: string): seq<string> {
    var k := FirstBreak(t);
    if t == "" then []
    else if k == |t| then [t]
    else if t[k] == '\r' && k + 1 < |t| && t[k + 1] == '\n' then [t[..k]] + SplitLines(t[k + 2..])
    else [t[..k]] + SplitLines(t[k + 1..])
  }

  /** One printed line of JSON, or the end marker: printable ASCII that does not start with a space. */
  predicate Printable(body: string) {
    body != "" && body[0] != ' ' && forall i | 0 <= i < |body| :: ' ' <= body[i] <= '~'
  }

  function LinesOf(bodies: seq<string>): seq<string> {
    if bodies == [] then [] else ["data: " + bodies[0], ""] + LinesOf(bodies[1..])
  }

  lemma {:induction false} FirstBreakAt(a: string, b: string)
    requires forall i | 0 <= i < |a| :: !IsBreak(a[i])
    ensures FirstBreak(a + "\n" + b) == |a| && FirstBreak(a) == |a|
  {
    if a != "" {
      assert (a + "\n" + b)[1..] == a[1..] + "\n" + b;
      FirstBreakAt(a[1..], b);
    }
  }

  lemma SplitOne(line: string, rest: string)
    requires forall i | 0 <= i < |line| :: !IsBreak(line[i])
    ensures SplitLines(line + "\n" + rest) == [line] + SplitLines(rest)
  {
    var t := line + "\n" + rest;
    FirstBreakAt(line, rest);
    assert t[|line|] == '\n' && t[..|line|] == line && t[|line| + 1..] == rest;
  }

  lemma SplitBlock(body: string, rest: string)
    requires Printable(body)
    ensures SplitLines(Block(body) + rest) == ["data: " + body, ""] + SplitLines(rest)
  {
    var line := "data: " + body;
    assert Block(body) + rest == line + "\n" + ("" + "\n" + rest);
    SplitOne(line, "" + "\n" + rest);
    SplitOne("", rest);
  }

  predicate AllPrintable(bodies: seq<string>) { forall i | 0 <= i < |bodies| :: Printable(bodies[i]) }

  /** A piece of a line that was cut off: nothing, or a non-empty start of the next data line. */
  predicate Cut(bodies: seq<string>, m: nat, q: string) {
    m <= |bodies| && (q != "" ==> m < |bodies| && q <= "data: " + bodies[m])
  }

  function Rest(q: string): seq<string> { if q == "" then [] else [q] }

  /** The lines of a truncated stream: whole blocks, then perhaps a cut line. */
  lemma {:induction false} SplitPrefix(bodies: seq<string>, t: string) returns (m: nat, q: string)
    requires AllPrintable(bodies) && t <= TextOf(bodies)
    ensures Cut(bodies, m, q) && SplitLines(t) == LinesOf(bodies[..m]) + Rest(q)
    ensures t == TextOf(bodies) ==> m == |bodies| && q == ""
  {
    if bodies == [] {
      m, q := 0, "";
    } else {
      var block, others := Block(bodies[0]), bodies[1..];
      if |t| >= |block| {
        var rest := t[|block|..];
        DropBlock(block, TextOf(others), t);
        m, q := SplitPrefix(others, rest);
        AddBlock(bodies, rest, m, q);
        m := m + 1;
      } else {
        m := 0;
        q := CutLine(bodies[0], t);
      }
    }
  }

  lemma DropBlock(block: string, others: string, t: string)
    requires t <= block + others && |t| >= |block|
    ensures t == block + t[|block|..] && t[|block|..] <= others
    ensures t == block + others ==> t[|block|..] == others
  {
    assert t[..|block|] == (block + others)[..|block|] == block;
    assert (block + others)[|block|..] == others;
  }

  lemma AddBlock(bodies: seq<string>, rest: string, m: nat, q: string)
    requires bodies != [] && Printable(bodies[0])
    requires Cut(bodies[1..], m, q) && SplitLines(rest) == LinesOf(bodies[1..][..m]) + Rest(q)
    ensures Cut(bodies, m + 1, q) && SplitLines(Block(bodies[0]) + rest) == LinesOf(bodies[..m + 1]) + Rest(q)
  {
    SplitBlock(bodies[0], rest);
    var some := bodies[..m + 1];
    assert some[0] == bodies[0] && some[1..] == bodies[1..][..m];
    var two := ["data: " + bodies[0], ""];
    assert LinesOf(some) == two + LinesOf(some[1..]);
    assert two + (LinesOf(some[1..]) + Rest(q)) == (two + LinesOf(some[1..])) + Rest(q);
  }

  lemma CutLine(body: string, t: string) returns (q: string)
    requires Printable(body) && t <= Block(body) && |t| < |Block(body)|
    ensures q <= "data: " + body && SplitLines(t) == Rest(q)
  {
    var line := "data: " + body;
    assert Block(body) == line + "\n\n";
    if |t| <= |line| {
      q := t;
      assert forall i | 0 <= i < |t| :: t[i] == line[i];
      FirstBreakAt(t, "");
    } else {
      q := line;
      assert t == line + "\n" + "";
      FirstBreakAt(line, "");
      assert t[..|line|] == line && t[|line| + 1..] == "";
    }
  }

  // ---- blocks ---------------------------------------------------------------------------------

  lemma {:induction false} LinesOfLast(bodies: seq<string>, body: string)
    ensures LinesOf(bodies + [body]) == LinesOf(bodies) + ["data: " + body, ""]
  {
    if bodies == [] {
      assert bodies + [body] == [body] && [body][1..] == [];
    } else {
      LinesOfLast(bodies[1..], body);
      assert (bodies + [body])[1..] == bodies[1..] + [body];
    }
  }

  lemma DataLine(body: string)
    requires Printable(body)
    ensures DataParts(["data: " + body]) == [body]
  {
    var line := "data: " + body;
    assert line[..5] == "data:" && line[5..] == " " + body;
    assert (" " + body)[1..] == body;
    assert StripLeft(" " + body) == StripLeft(body) == body;
    var none: seq<string> := [];
    assert [line][..0] == none;
  }

  lemma {:induction false} BlocksOf(bodies: seq<string>)
    requires AllPrintable(bodies)
    ensures Raws(Closed(LinesOf(bodies))) == bodies && Pending(LinesOf(bodies)) == []
  {
    if bodies != [] {
      var front, body := bodies[..|bodies| - 1], bodies[|bodies| - 1];
      var lines := LinesOf(front);
      BlocksOf(front);
      assert bodies == front + [body];
      LinesOfLast(front, body);
      assert LinesOf(bodies) == (lines + ["data: " + body]) + [""];
      GroupLine(lines, "data: " + body);
      GroupBlank(lines + ["data: " + body]);
      DataLine(body);
      assert (Closed(lines) + [["data: " + body]])[..|Closed(lines)|] == Closed(lines);
    }
  }

  lemma CutBlocks(bodies: seq<string>, m: nat, q: string)
    requires AllPrintable(bodies) && Cut(bodies, m, q)
    ensures var lines := LinesOf(bodies[..m]) + Rest(q);
      Raws(Closed(lines)) == bodies[..m] && Pending(lines) == Rest(q)
  {
    BlocksOf(bodies[..m]);
    if q != "" {
      GroupLine(LinesOf(bodies[..m]), q);
    } else {
      assert LinesOf(bodies[..m]) + Rest(q) == LinesOf(bodies[..m]);
    }
  }

  /** A cut line reads as the end marker only when the line it was cut from starts like it. */
  lemma CutMarker(body: string, q: string)
    requires Printable(body) && q != "" && q <= "data: " + body
    requires DataParts([q]) != [] && Join(DataParts([q])) == "[DONE]"
    ensures body[0] == '['
  {
    var none: seq<string> := [];
    assert [q][..0] == none;
    assert IsData(q) && StripLeft(q[5..]) == "[DONE]";
    StripShortens(q[5..]);
    var line := "data: " + body;
    assert forall i | 0 <= i < |q| :: q[i] == line[i];
    assert q[5] == ' ' && q[6] == body[0];
    assert q[5..][1..] == q[6..];
    assert StripLeft(q[5..]) == StripLeft(q[6..]) == q[6..];
  }

  lemma {:induction false} StripShortens(s: string)
    ensures |StripLeft(s)| <= |s|
  {
    if s != "" {
      StripShortens(s[1..]);
    }
  }

  // ---- the payloads ---------------------------------------------------------------------------

  /** What the printer needs of the JSON encoder, for the objects it prints. */
  predicate Encodes(codec: Codec, j: Json) {
    Printable(codec.dump(j)) && codec.dump(j)[0] == '{' && codec.load(codec.dump(j)) == Loaded(j)
  }

  predicate EncodesAll(codec: Codec, reply: Reply) {
    forall i | 0 <= i < |Payloads(reply)| :: Encodes(codec, Payloads(reply)[i])
  }

  lemma {:induction false} DumpsAt(codec: Codec, payloads: seq<Json>)
    ensures forall i | 0 <= i < |payloads| :: Dumps(codec, payloads)[i] == codec.dump(payloads[i])
  {
    if payloads != [] {
      DumpsAt(codec, payloads[1..]);
    }
  }

  lemma BodiesAt(codec: Codec, reply: Reply)
    requires EncodesAll(codec, reply)
    ensures var bodies, payloads := Bodies(codec, reply), Payloads(reply);
      && AllPrintable(bodies) && |bodies| == |payloads| + 1 && bodies[|payloads|] == "[DONE]"
      && forall i | 0 <= i < |payloads| :: bodies[i] == codec.dump(payloads[i]) && bodies[i][0] == '{'
  {
    DumpsAt(codec, Payloads(reply));
  }

  /** What a parser should see of the reply. */
  function TextEvents(parts: seq<string>): seq<Event> {
    if parts == [] then [] else TextEvents(parts[..|parts| - 1]) + [Event(parts[|parts| - 1], None, None)]
  }

  function Expected(reply: Reply): seq<Event> {
    TextEvents(Pieces(reply.text)) + [Event("", Some("stop"), reply.usage)]
  }

  lemma TextChunkReads(reply: Reply, part: string)
    ensures StreamChunk(TextChunk(reply, part)) == Some(Event(part, None, None))
  {
  }

  lemma LastChunkReads(reply: Reply)
    ensures StreamChunk(LastChunk(reply)) == Some(Event("", Some("stop"), reply.usage))
  {
  }

  lemma {:induction false} TextChunksRead(reply: Reply, parts: seq<string>)
    ensures |TextChunks(reply, parts)| == |TextEvents(parts)| == |parts|
    ensures forall i | 0 <= i < |parts| :: StreamChunk(TextChunks(reply, parts)[i]) == Some(TextEvents(parts)[i])
  {
    if parts != [] {
      TextChunksRead(reply, parts[..|parts| - 1]);
      TextChunkReads(reply, parts[|parts| - 1]);
    }
  }

  lemma PayloadsRead(reply: Reply)
    ensures |Payloads(reply)| == |Expected(reply)|
    ensures forall i | 0 <= i < |Payloads(reply)| :: StreamChunk(Payloads(reply)[i]) == Some(Expected(reply)[i])
  {
    TextChunksRead(reply, Pieces(reply.text));
    LastChunkReads(reply);
  }

  lemma {:induction false} PiecesJoin(text: string)
    ensures AllText(TextEvents(Pieces(text))) == text && LastUsage(TextEvents(Pieces(text))) == None
    decreases |text|
  {
    if text != "" {
      var start := (|text| - 1) / CHUNK * CHUNK;
      PiecesJoin(text[..start]);
      var parts := Pieces(text);
      assert parts[..|parts| - 1] == Pieces(text[..start]) && parts[|parts| - 1] == text[start..];
      var events := TextEvents(parts);
      assert events[..|events| - 1] == TextEvents(parts[..|parts| - 1]);
      assert text[..start] + text[start..] == text;
    }
  }

  lemma ExpectedCollected(reply: Reply)
    ensures AllText(Expected(reply)) == reply.text && LastUsage(Expected(reply)) == reply.usage
    ensures LastFinish(Expected(reply)) == "stop"
  {
    var front := TextEvents(Pieces(reply.text));
    PiecesJoin(reply.text);
    assert Expected(reply)[..|front|] == front;
    assert AllText(front) + "" == AllText(front);
  }

  // ---- truncation -----------------------------------------------------------------------------

  /** The end marker is the body after the last payload and nowhere else. */
  predicate Marked(bodies: seq<string>, count: nat) {
    && AllPrintable(bodies) && |bodies| == count + 1 && bodies[count] == "[DONE]"
    && forall i | 0 <= i < count :: bodies[i][0] == '{'
  }

  /** A successful parse of whole blocks and a cut line has read exactly the payloads. */
  lemma SuccessReadsAll(decode: Decoder, bodies: seq<string>, count: nat, m: nat, q: string, ending: Ending)
    requires Marked(bodies, count) && Cut(bodies, m, q)
    requires Outcome(decode, LinesOf(bodies[..m]) + Rest(q), ending).verdict.Complete?
    ensures var p := Outcome(decode, LinesOf(bodies[..m]) + Rest(q), ending);
      |p.events| == count && EventsOf(decode, p.events, bodies)
      && TextSize(p.events) <= MAX_TEXT_BYTES
  {
    var lines := LinesOf(bodies[..m]) + Rest(q);
    var p := Outcome(decode, lines, ending);
    var n := Admitted(lines);
    var raws := Raws(Closed(lines[..n]));
    CutBlocks(bodies, m, q);
    OutcomeMeaning(decode, lines, ending);
    SomeBlocks(lines, n);
    BlocksAreBodies(bodies, m, raws);
    if |p.events| == |raws| {
      assert lines[..n] == lines && raws == bodies[..m];
      assert q != "" && DataParts([q]) != [];
      CutMarker(bodies[m], q);
    }
  }

  lemma BlocksAreBodies(bodies: seq<string>, m: nat, raws: seq<string>)
    requires m <= |bodies| && raws <= bodies[..m]
    ensures |raws| <= m && forall i | 0 <= i < |raws| :: raws[i] == bodies[i]
  {
  }

  lemma ReadEventsExpected(codec: Codec, reply: Reply, events: seq<Event>)
    requires EncodesAll(codec, reply) && |events| == |Payloads(reply)|
    requires EventsOf(JsonDecoder(codec), events, Bodies(codec, reply))
    ensures events == Expected(reply)
  {
    BodiesAt(codec, reply);
    PayloadsRead(reply);
    var payloads := Payloads(reply);
    forall i | 0 <= i < |events| ensures events[i] == Expected(reply)[i] {
      assert Encodes(codec, payloads[i]);
      assert JsonDecoder(codec)(codec.dump(payloads[i])) == Read(StreamChunk(payloads[i]).value);
    }
  }

  lemma SomeBlocks(lines: seq<string>, n: nat)
    requires n <= |lines|
    ensures Raws(Closed(lines[..n])) <= Raws(Closed(lines))
  {
    ClosedPrefix(lines, n);
    var few, all := Closed(lines[..n]), Closed(lines);
    assert all[..|few|] == few;
    RawsPrefix(all, |few|);
  }

  /** When no body raises in the decoder, nothing escapes from whole blocks and a cut line. */
  lemma BlocksHandled(decode: Decoder, bodies: seq<string>, m: nat, q: string, ending: Ending)
    requires AllPrintable(bodies) && Cut(bodies, m, q)
    requires forall i | 0 <= i < |bodies| :: bodies[i] == "[DONE]" || !decode(bodies[i]).Unhandled?
    ensures !Outcome(decode, LinesOf(bodies[..m]) + Rest(q), ending).verdict.Escaped?
  {
    var lines := LinesOf(bodies[..m]) + Rest(q);
    var raws := Raws(Closed(lines[..Admitted(lines)]));
    EscapesExactly(decode, lines, ending);
    CutBlocks(bodies, m, q);
    SomeBlocks(lines, Admitted(lines));
    BlocksAreBodies(bodies, m, raws);
    forall events ensures !EscapesAfter(decode, events, raws) {
      assert |events| < |raws| ==> raws[|events|] == bodies[|events|];
    }
  }

  lemma BodiesHandled(codec: Codec, reply: Reply)
    requires EncodesAll(codec, reply)
    ensures forall i | 0 <= i < |Bodies(codec, reply)| ::
      Bodies(codec, reply)[i] == "[DONE]" || !JsonDecoder(codec)(Bodies(codec, reply)[i]).Unhandled?
  {
    BodiesAt(codec, reply);
    var payloads := Payloads(reply);
    forall i | 0 <= i < |payloads| ensures !JsonDecoder(codec)(Bodies(codec, reply)[i]).Unhandled? {
      assert Encodes(codec, payloads[i]);
    }
  }

  /** A parse of whole blocks and a cut line fails, or has read exactly what should be seen. */
  lemma OutcomeReadsAll(codec: Codec, reply: Reply, lines: seq<string>, m: nat, q: string, ending: Ending)
    requires EncodesAll(codec, reply) && Cut(Bodies(codec, reply), m, q)
    requires lines == LinesOf(Bodies(codec, reply)[..m]) + Rest(q)
    ensures var p := Outcome(JsonDecoder(codec), lines, ending);
      !p.verdict.Undecided? && !p.verdict.Escaped? && (p.verdict.Complete? ==> p.events == Expected(reply))
  {
    var decode, bodies := JsonDecoder(codec), Bodies(codec, reply);
    BodiesAt(codec, reply);
    BodiesHandled(codec, reply);
    BlocksHandled(decode, bodies, m, q, ending);
    OutcomeMeaning(decode, lines, ending);
    if Outcome(decode, lines, ending).verdict.Complete? {
      SuccessReadsAll(decode, bodies, |Payloads(reply)|, m, q, ending);
      ReadEventsExpected(codec, reply, Outcome(decode, lines, ending).events);
    }
  }

  /** What is collected from such a parse. */
  lemma CollectedWhole(reply: Reply, p: Parse)
    requires !p.verdict.Undecided? && !p.verdict.Escaped? && (p.verdict.Complete? ==> p.events == Expected(reply))
    ensures var r := Collected(p.events, p.verdict, 1);
      if p.verdict.Complete? && reply.text != "" then r == Answered(reply.text, reply.usage, 1, Str("stop"))
        else r.Refused?
  {
    ExpectedCollected(reply);
  }

  /**
   Truncation is safe: whatever prefix of the printed stream arrives, and however the connection
   then ends, the collected answer is the whole reply or an error, never a shorter text.
   */
  lemma PrefixGivesAllOrNothing(codec: Codec, reply: Reply, t: string, ending: Ending)
    requires EncodesAll(codec, reply) && t <= Print(codec, reply)
    ensures var p := Outcome(JsonDecoder(codec), SplitLines(t), ending);
      var r := Collected(p.events, p.verdict, 1);
      r.Refused? || r == Answered(reply.text, reply.usage, 1, Str("stop"))
  {
    var m, q := SplitPrinted(codec, reply, t);
    OutcomeReadsAll(codec, reply, SplitLines(t), m, q, ending);
    CollectedWhole(reply, Outcome(JsonDecoder(codec), SplitLines(t), ending));
  }

  lemma SplitPrinted(codec: Codec, reply: Reply, t: string) returns (m: nat, q: string)
    requires EncodesAll(codec, reply) && t <= Print(codec, reply)
    ensures Cut(Bodies(codec, reply), m, q) && SplitLines(t) == LinesOf(Bodies(codec, reply)[..m]) + Rest(q)
    ensures t == Print(codec, reply) ==> m == |Bodies(codec, reply)| && q == ""
  {
    BodiesAt(codec, reply);
    m, q := SplitPrefix(Bodies(codec, reply), t);
  }

  // ---- the whole stream, and its limits -------------------------------------------------------

  lemma {:induction false} SizeAppend(a: seq<string>, b: seq<string>)
    ensures Size(a + b) == Size(a) + Size(b)
  {
    if b == [] {
      assert a + b == a;
    } else {
      assert (a + b)[..|a + b| - 1] == a + b[..|b| - 1];
      SizeAppend(a, b[..|b| - 1]);
    }
  }

  lemma SizeOfTwo(a: string, b: string)
    ensures Size([a, b]) == Utf8Length(a) + Utf8Length(b) + 2
  {
    var none: seq<string> := [];
    assert [a, b][..1] == [a] && [a][..0] == none;
    assert Size([a]) == Utf8Length(a) + 1;
  }

  /** The parser counts exactly the printed characters. */
  lemma {:induction false} SizeOfLines(bodies: seq<string>)
    requires AllPrintable(bodies)
    ensures Size(LinesOf(bodies)) == |TextOf(bodies)|
  {
    if bodies != [] {
      var line := "data: " + bodies[0];
      AsciiLength(line);
      SizeOfLines(bodies[1..]);
      SizeAppend([line, ""], LinesOf(bodies[1..]));
      SizeOfTwo(line, "");
    }
  }

  /** The parser's limits, as conditions on what is printed. */
  predicate FitsLimits(codec: Codec, reply: Reply) {
    && |Print(codec, reply)| <= MAX_RESPONSE_BYTES
    && Utf8Length(reply.text) <= MAX_TEXT_BYTES
    && forall i | 0 <= i < |Payloads(reply)| :: |codec.dump(Payloads(reply)[i])| <= MAX_EVENT_BYTES
  }

  lemma BodiesFit(codec: Codec, reply: Reply)
    requires EncodesAll(codec, reply) && FitsLimits(codec, reply)
    ensures EventsOf(JsonDecoder(codec), Expected(reply), Bodies(codec, reply)[..|Payloads(reply)|])
    ensures |Expected(reply)| == |Payloads(reply)| && TextSize(Expected(reply)) <= MAX_TEXT_BYTES
  {
    var decode, bodies, payloads := JsonDecoder(codec), Bodies(codec, reply), Payloads(reply);
    BodiesAt(codec, reply);
    PayloadsRead(reply);
    forall i | 0 <= i < |payloads|
      ensures Utf8Length(bodies[i]) <= MAX_EVENT_BYTES && bodies[i] != "[DONE]"
      ensures decode(bodies[i]) == Read(Expected(reply)[i])
    {
      assert Encodes(codec, payloads[i]);
      AsciiLength(bodies[i]);
    }
    assert TextSize(Expected(reply)) <= MAX_TEXT_BYTES by {
      ExpectedCollected(reply);
      TextSizeIsLength(Expected(reply));
    }
  }

  lemma WholeStreamFits(codec: Codec, reply: Reply, ending: Ending)
    requires EncodesAll(codec, reply) && FitsLimits(codec, reply)
    ensures Outcome(JsonDecoder(codec), LinesOf(Bodies(codec, reply)), ending).verdict.Complete?
  {
    var decode, bodies := JsonDecoder(codec), Bodies(codec, reply);
    var front := bodies[..|Payloads(reply)|];
    BodiesAt(codec, reply);
    BodiesFit(codec, reply);
    TakesAll(decode, front, Expected(reply));
    MarkerCompletes(decode, front, Expected(reply));
    assert bodies == front + ["[DONE]"];
    BlocksOf(bodies);
    SizeOfLines(bodies);
    var lines := LinesOf(bodies);
    assert lines[..|lines|] == lines;
    DecisionIsFinal(decode, lines, |lines|, ending);
  }

  lemma MarkerCompletes(decode: Decoder, front: seq<string>, events: seq<Event>)
    requires Interpret(decode, front) == Parse(events, TextSize(events), Undecided)
    ensures Interpret(decode, front + ["[DONE]"]).verdict.Complete?
  {
    assert (front + ["[DONE]"])[..|front|] == front;
    assert Utf8Length("[DONE]") == 6;
  }

  /** A stream past the response limit never reaches the blank line that closes the end marker. */
  lemma OverflowFails(codec: Codec, reply: Reply, ending: Ending)
    requires EncodesAll(codec, reply) && |Print(codec, reply)| > MAX_RESPONSE_BYTES
    ensures !Outcome(JsonDecoder(codec), LinesOf(Bodies(codec, reply)), ending).verdict.Complete?
  {
    var decode, bodies, count := JsonDecoder(codec), Bodies(codec, reply), |Payloads(reply)|;
    var lines := LinesOf(bodies);
    var n := Admitted(lines);
    BodiesAt(codec, reply);
    SizeOfLines(bodies);
    AdmittedFits(lines);
    assert n < |lines| by { assert lines[..|lines|] == lines; }
    AdmittedBlocks(bodies, count, n);
    OutcomeMeaning(decode, lines, ending);
    BlocksAreBodies(bodies, count, Raws(Closed(lines[..n])));
  }

  /** Without the last blank line, only payloads are closed. */
  lemma AdmittedBlocks(bodies: seq<string>, count: nat, n: nat)
    requires Marked(bodies, count) && n < |LinesOf(bodies)|
    ensures Raws(Closed(LinesOf(bodies)[..n])) <= bodies[..count]
  {
    var front, lines := bodies[..count], LinesOf(bodies);
    assert bodies == front + ["[DONE]"];
    LinesOfLast(front, "[DONE]");
    var open := LinesOf(front) + Rest("data: [DONE]");
    assert "data: " + "[DONE]" == "data: [DONE]";
    assert lines == open + [""];
    assert open[..n] == lines[..n];
    CutBlocks(bodies, count, "data: [DONE]");
    SomeBlocks(open, n);
  }

  /**
   The round trip and its exact limits: reading the whole printed stream back gives the text, the
   usage and the finish reason exactly when the stream fits the parser's limits.
   */
  lemma RoundTripExact(codec: Codec, reply: Reply, ending: Ending)
    requires EncodesAll(codec, reply)
    ensures var p := Outcome(JsonDecoder(codec), SplitLines(Print(codec, reply)), ending);
      var r := Collected(p.events, p.verdict, 1);
      if reply.text != "" && FitsLimits(codec, reply) then r == Answered(reply.text, reply.usage, 1, Str("stop"))
      else r.Refused?
  {
    var lines := SplitLines(Print(codec, reply));
    var m, q := SplitPrinted(codec, reply, Print(codec, reply));
    OutcomeReadsAll(codec, reply, lines, m, q, ending);
    CollectedWhole(reply, Outcome(JsonDecoder(codec), lines, ending));
    WholeLines(Bodies(codec, reply), m, q);
    CompleteExactly(codec, reply, ending);
  }

  /** The reply in one body. */
  function Whole(reply: Reply): Said {
    Said(Str("assistant"), Str(reply.text), None, Some(Str("stop")), Some(UsageJson(reply.usage)))
  }

  /**
   A reply within the parser's limits is the same answer whether the upstream prints it in one body
   or streams it.
   */
  lemma StreamedAsBuffered(
    codec: Codec, reply: Reply, load: Bytes -> Loading, buffered: seq<Response<Chunks>>,
    streamed: seq<Response<Lines>>)
    requires EncodesAll(codec, reply) && FitsLimits(codec, reply) && reply.text != ""
    requires |buffered| == 2 && Last(buffered).Answer? && Last(buffered).status == 200
    requires Last(buffered).body.ending.EndOfInput? && |Concat(Last(buffered).body.chunks)| <= MAX_RESPONSE_BYTES
    requires load(Concat(Last(buffered).body.chunks))
      == Loaded(AnswerJson(Whole(reply)))
    requires |streamed| == 2 && Last(streamed).Answer? && Last(streamed).status == 200
    requires Last(streamed).body.lines == SplitLines(Print(codec, reply))
    requires buffered[0].RateLimited() == streamed[0].RateLimited()
    ensures Completed(load, true, buffered).Answered?
    ensures StreamCompleted(JsonDecoder(codec), true, streamed) == Completed(load, true, buffered)
  {
    WholeRead(load, buffered, reply);
    RoundTripExact(codec, reply, Last(streamed).body.ending);
    var p := Outcome(JsonDecoder(codec), SplitLines(Print(codec, reply)), Last(streamed).body.ending);
    AttemptsOnly(p, RequestsSent(true, streamed));
  }

  lemma WholeRead(load: Bytes -> Loading, buffered: seq<Response<Chunks>>, reply: Reply)
    requires reply.text != "" && Utf8Length(reply.text) <= MAX_TEXT_BYTES
    requires |buffered| == 2 && Last(buffered).Answer? && Last(buffered).status == 200
    requires Last(buffered).body.ending.EndOfInput? && |Concat(Last(buffered).body.chunks)| <= MAX_RESPONSE_BYTES
    requires load(Concat(Last(buffered).body.chunks)) == Loaded(AnswerJson(Whole(reply)))
    ensures Completed(load, true, buffered) ==
      Answered(reply.text, reply.usage, RequestsSent(true, buffered), Str("stop"))
  {
    BufferedRoundTrip(load, buffered, Whole(reply));
    assert SaysText(Whole(reply), reply.text) && Reports(Whole(reply).usage, reply.usage);
  }

  /** The number of attempts is only reported. */
  lemma AttemptsOnly(p: Parse, sent: nat)
    requires Collected(p.events, p.verdict, 1).Answered?
    ensures var r := Collected(p.events, p.verdict, 1);
      Collected(p.events, p.verdict, sent) == Answered(r.text, r.usage, sent, r.finish)
  {
  }

  lemma WholeLines(bodies: seq<string>, m: nat, q: string)
    requires m == |bodies| && q == ""
    ensures LinesOf(bodies[..m]) + Rest(q) == LinesOf(bodies)
  {
    assert bodies[..m] == bodies;
  }

  lemma CompleteExactly(codec: Codec, reply: Reply, ending: Ending)
    requires EncodesAll(codec, reply)
    ensures Outcome(JsonDecoder(codec), LinesOf(Bodies(codec, reply)), ending).verdict.Complete?
      <==> FitsLimits(codec, reply)
  {
    if FitsLimits(codec, reply) {
      WholeStreamFits(codec, reply, ending);
    } else if Outcome(JsonDecoder(codec), LinesOf(Bodies(codec, reply)), ending).verdict.Complete? {
      CompleteFits(codec, reply, ending);
    }
  }

  lemma CompleteFits(codec: Codec, reply: Reply, ending: Ending)
    requires EncodesAll(codec, reply)
    requires Outcome(JsonDecoder(codec), LinesOf(Bodies(codec, reply)), ending).verdict.Complete?
    ensures FitsLimits(codec, reply)
  {
    var decode, bodies, count := JsonDecoder(codec), Bodies(codec, reply), |Payloads(reply)|;
    BodiesAt(codec, reply);
    if |Print(codec, reply)| > MAX_RESPONSE_BYTES {
      OverflowFails(codec, reply, ending);
    }
    assert bodies[..|bodies|] == bodies && LinesOf(bodies) + Rest("") == LinesOf(bodies);
    SuccessReadsAll(decode, bodies, count, |bodies|, "", ending);
    var events := Outcome(decode, LinesOf(bodies), ending).events;
    ReadEventsExpected(codec, reply, events);
    ExpectedCollected(reply);
    TextSizeIsLength(events);
    forall i | 0 <= i < count ensures |codec.dump(Payloads(reply)[i])| <= MAX_EVENT_BYTES {
      AsciiLength(bodies[i]);
    }
  }

  // ---- the printing loop ----------------------------------------------------------------------

  lemma PiecesStep(text: string, start: nat, end: nat)
    requires start % CHUNK == 0 && start < end <= |text| && (end == start + CHUNK || (end == |text| < start + CHUNK))
    ensures Pieces(text[..end]) == Pieces(text[..start]) + [text[start..end]]
  {
    assert (end - 1) / CHUNK * CHUNK == start;
    assert text[..end][..start] == text[..start] && text[..end][start..] == text[start..end];
  }

  function Emitted(emit: string -> string, parts: seq<string>): seq<string> {
    if parts == [] then [] else Emitted(emit, parts[..|parts| - 1]) + [emit(parts[|parts| - 1])]
  }

  /** The `k`-th slice adds one piece. */
  lemma EmitStep(emit: string -> string, text: string, k: nat, end: nat)
    requires CHUNK * k < end <= |text| && (end == CHUNK * k + CHUNK || (end == |text| < CHUNK * k + CHUNK))
    ensures Emitted(emit, Pieces(text[..end]))
      == Emitted(emit, Pieces(text[..CHUNK * k])) + [emit(text[CHUNK * k..end])]
  {
    PiecesStep(text, CHUNK * k, end);
    EmitOne(emit, Pieces(text[..CHUNK * k]), text[CHUNK * k..end]);
  }

  lemma EmitOne(emit: string -> string, parts: seq<string>, part: string)
    ensures Emitted(emit, parts + [part]) == Emitted(emit, parts) + [emit(part)]
  {
    assert (parts + [part])[..|parts|] == parts;
  }

  /** The loop of the generator: one string for each piece of the text. */
  method EmitPieces(emit: string -> string, text: string) returns (out: seq<string>)
    ensures out == Emitted(emit, Pieces(text))
  {
    out := [];
    var start: nat := 0;
    ghost var k: nat, done: nat := 0, 0;  // slices and characters printed
    while start < |text|
      invariant start == CHUNK * k && done == if start <= |text| then start else |text|
      invariant out == Emitted(emit, Pieces(text[..done]))
    {
      var end := if start + CHUNK <= |text| then start + CHUNK else |text|;
      EmitStep(emit, text, k, end);
      out := out + [emit(text[start..end])];
      start, done, k := start + CHUNK, end, k + 1;
    }
    assert text[..done] == text;
  }

  function Emitter(codec: Codec, reply: Reply): string -> string {
    (part: string) => Block(codec.dump(TextChunk(reply, part)))
  }

  lemma {:induction false} EmittedAt(codec: Codec, reply: Reply, parts: seq<string>)
    ensures |Emitted(Emitter(codec, reply), parts)| == |TextChunks(reply, parts)| == |parts|
    ensures forall i | 0 <= i < |parts| ::
      Emitted(Emitter(codec, reply), parts)[i] == Block(codec.dump(TextChunks(reply, parts)[i]))
  {
    if parts != [] {
      EmittedAt(codec, reply, parts[..|parts| - 1]);
    }
  }

  /** The generator: its strings are the blocks of `Print`, one each. */
  method Chunks(codec: Codec, reply: Reply) returns (out: seq<string>)
    ensures |out| == |Bodies(codec, reply)|
    ensures forall i | 0 <= i < |out| :: out[i] == Block(Bodies(codec, reply)[i])
  {
    out := EmitPieces(Emitter(codec, reply), reply.text);
    EmittedAt(codec, reply, Pieces(reply.text));
    DumpsAt(codec, Payloads(reply));
    out := out + [Block(codec.dump(LastChunk(reply)))] + [Block("[DONE]")];
  }
}
