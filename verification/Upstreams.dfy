/**
 The streams of any upstream (src/omo/provider.py, `stream` and `collect_stream`): whatever the chunks
 hold and however they are laid out in lines, what is collected from them.
 */
module Upstreams {
  import opened Common
  import opened EventStream
  import opened Provider

  // ---- the layout -----------------------------------------------------------------------------

  /** A line of data with any white space before it, or a line without data, such as a comment. */
  datatype Line = Data(pad: string, part: string) | Other(line: string) {
    predicate Valid() {
      match this
      case Data(pad, part) =>
        (forall i | 0 <= i < |pad| :: IsSpace(pad[i])) && (part == "" || !IsSpace(part[0]))
      case Other(line) => line != "" && !IsData(line)
    }

    function Text(): string {
      match this
      case Data(pad, part) => "data:" + pad + part
      case Other(line) => line
    }
  }

  type Block = seq<Line>

  predicate ValidBlock(block: Block) { forall i | 0 <= i < |block| :: block[i].Valid() }

  function Texts(block: Block): seq<string> {
    if block == [] then [] else Texts(block[..|block| - 1]) + [block[|block| - 1].Text()]
  }

  function Parts(block: Block): seq<string> {
    if block == [] then []
    else
      var front, last := Parts(block[..|block| - 1]), block[|block| - 1];
      if last.Data? then front + [last.part] else front
  }

  /** The blocks on the wire, each with the blank line that ends it. */
  function Wire(blocks: seq<Block>): seq<string> {
    if blocks == [] then [] else Wire(blocks[..|blocks| - 1]) + Texts(blocks[|blocks| - 1]) + [""]
  }

  /** The texts that the blocks with data carry. */
  function Bodies(blocks: seq<Block>): seq<string> {
    if blocks == [] then []
    else
      var front, parts := Bodies(blocks[..|blocks| - 1]), Parts(blocks[|blocks| - 1]);
      if parts == [] then front else front + [Join(parts)]
  }

  predicate ValidBlocks(blocks: seq<Block>) { forall i | 0 <= i < |blocks| :: ValidBlock(blocks[i]) }

  lemma {:induction false} Stripped(pad: string, part: string)
    requires (forall i | 0 <= i < |pad| :: IsSpace(pad[i])) && (part == "" || !IsSpace(part[0]))
    ensures StripLeft(pad + part) == part
  {
    if pad == "" {
      assert pad + part == part;
    } else {
      Stripped(pad[1..], part);
      assert (pad + part)[1..] == pad[1..] + part;
    }
  }

  lemma LineRead(line: Line)
    requires line.Valid()
    ensures line.Text() != "" && (IsData(line.Text()) <==> line.Data?)
    ensures line.Data? ==> StripLeft(line.Text()[5..]) == line.part
  {
    if line.Data? {
      Stripped(line.pad, line.part);
      assert line.Text() == "data:" + (line.pad + line.part);
      assert line.Text()[..5] == "data:" && line.Text()[5..] == line.pad + line.part;
    }
  }

  /** The lines of a block only extend the pending group, by the parts of its data lines. */
  lemma {:induction false} BlockPends(lines: seq<string>, block: Block)
    requires ValidBlock(block)
    ensures Closed(lines + Texts(block)) == Closed(lines)
    ensures Pending(lines + Texts(block)) == Pending(lines) + Texts(block)
    ensures DataParts(Texts(block)) == Parts(block)
  {
    if block == [] {
      assert lines + [] == lines && Pending(lines) + [] == Pending(lines);
    } else {
      var front, last := block[..|block| - 1], block[|block| - 1];
      BlockPends(lines, front);
      LineRead(last);
      GroupLine(lines + Texts(front), last.Text());
      PlusAssociates(lines, Texts(front), [last.Text()]);
      PlusAssociates(Pending(lines), Texts(front), [last.Text()]);
      AppendedLast(Texts(front), last.Text());
    }
  }

  /** The blocks are read as what their data lines carry, joined by line breaks. */
  lemma {:induction false} WireRead(blocks: seq<Block>)
    requires ValidBlocks(blocks)
    ensures Raws(Closed(Wire(blocks))) == Bodies(blocks) && Pending(Wire(blocks)) == []
  {
    if blocks != [] {
      var front, last := blocks[..|blocks| - 1], blocks[|blocks| - 1];
      WireRead(front);
      BlockPends(Wire(front), last);
      GroupBlank(Wire(front) + Texts(last));
      assert [] + Texts(last) == Texts(last);
      AppendedLast(Closed(Wire(front)), Texts(last));
    }
  }

  // ---- the chunks -----------------------------------------------------------------------------

  /** What an upstream puts into one chunk; `None` is a missing key. */
  datatype Chunk = Chunk(content: Option<Json>, tools: Option<Json>, finish: Option<Json>, usage: Option<Json>)

  function Payload(c: Chunk): Json {
    var delta := With(With(map["role" := Str("assistant")], "content", c.content), "tool_calls", c.tools);
    var choice := With(map["index" := Num(0), "delta" := Obj(delta)], "finish_reason", c.finish);
    Obj(With(map["object" := Str("chat.completion.chunk"), "choices" := Arr([Obj(choice)])], "usage", c.usage))
  }

  /** Text or nothing, no tool call, a reason in words or none, and a proper usage report. */
  ghost predicate Proper(c: Chunk) {
    && (c.content.None? || c.content.value.Str?)
    && (c.tools.None? || c.tools.value.Null?)
    && (c.finish.None? || c.finish.value.Null? || c.finish.value.Str?)
    && exists usage :: Reports(c.usage, usage)
  }

  ghost predicate AllProper(chunks: seq<Chunk>) { forall i | 0 <= i < |chunks| :: Proper(chunks[i]) }

  function Content(c: Chunk): string { if c.content.Some? && c.content.value.Str? then c.content.value.s else "" }

  function Contents(chunks: seq<Chunk>): string {
    if chunks == [] then "" else Content(chunks[0]) + Contents(chunks[1..])
  }

  /** No finish reason, or an empty one. */
  predicate Unnamed(c: Chunk) { c.finish in {None, Some(Null), Some(Str(""))} }

  /** The report of the last chunk that has one. */
  ghost predicate LastReport(chunks: seq<Chunk>, usage: Option<Usage>) {
    if usage.None? then forall i | 0 <= i < |chunks| :: Reports(chunks[i].usage, None)
    else exists k :: LastReportAt(chunks, usage, k)
  }

  predicate LastReportAt(chunks: seq<Chunk>, usage: Option<Usage>, k: nat) {
    k < |chunks| && Reports(chunks[k].usage, usage) && forall i | k < i < |chunks| :: Reports(chunks[i].usage, None)
  }

  /** The reason of the last chunk that has one that is not empty, else "stop". */
  ghost predicate LastReason(chunks: seq<Chunk>, finish: Json) {
    || (finish == Str("stop") && forall i | 0 <= i < |chunks| :: Unnamed(chunks[i]))
    || exists k :: LastReasonAt(chunks, finish, k)
  }

  predicate LastReasonAt(chunks: seq<Chunk>, finish: Json, k: nat) {
    && k < |chunks| && !Unnamed(chunks[k]) && chunks[k].finish == Some(finish)
    && forall i | k < i < |chunks| :: Unnamed(chunks[i])
  }

  lemma ChunkRead(c: Chunk)
    ensures StreamChunk(Payload(c)).Some? <==> Proper(c)
    ensures var event := StreamChunk(Payload(c));
      event.Some? ==>
        && event.value.text == Content(c) && Reports(c.usage, event.value.usage)
        && (Unnamed(c) <==> event.value.finish in {None, Some("")})
        && (!Unnamed(c) ==> event.value.finish.Some? && c.finish == Some(Str(event.value.finish.value)))
  {
    UsageExactly(c.usage);
    var delta := With(With(map["role" := Str("assistant")], "content", c.content), "tool_calls", c.tools);
    var choice := With(map["index" := Num(0), "delta" := Obj(delta)], "finish_reason", c.finish);
    var fields := Payload(c).fields;
    assert Field(choice, "delta") == Some(Obj(delta)) && Field(choice, "finish_reason") == c.finish;
    assert Field(delta, "content") == c.content && Field(delta, "tool_calls") == c.tools;
    assert Field(fields, "choices") == Some(Arr([Obj(choice)])) && Field(fields, "usage") == c.usage;
  }

  ghost function EventOf(c: Chunk): (event: Event)
    requires Proper(c)
    ensures StreamChunk(Payload(c)) == Some(event)
  {
    ChunkRead(c);
    StreamChunk(Payload(c)).value
  }

  /** The events of proper chunks. */
  ghost function Events(chunks: seq<Chunk>): (events: seq<Event>)
    requires AllProper(chunks)
    ensures |events| == |chunks|
  {
    if chunks == [] then [] else Events(chunks[..|chunks| - 1]) + [EventOf(chunks[|chunks| - 1])]
  }

  lemma {:induction false} EventsAt(chunks: seq<Chunk>)
    requires AllProper(chunks)
    ensures forall i | 0 <= i < |chunks| :: Events(chunks)[i] == EventOf(chunks[i])
  {
    if chunks != [] {
      EventsAt(chunks[..|chunks| - 1]);
    }
  }

  lemma {:induction false} ContentsLast(chunks: seq<Chunk>, c: Chunk)
    ensures Contents(chunks + [c]) == Contents(chunks) + Content(c)
  {
    if chunks == [] {
      assert chunks + [c] == [c] && Contents([c]) == Content(c) + "";
    } else {
      ContentsLast(chunks[1..], c);
      assert (chunks + [c])[1..] == chunks[1..] + [c];
      PlusAssociates(Content(chunks[0]), Contents(chunks[1..]), Content(c));
    }
  }

  /** What the loop of `collect_stream` keeps of these events is what the chunks say. */
  ghost predicate Kept(chunks: seq<Chunk>, events: seq<Event>) {
    && AllText(events) == Contents(chunks) && LastReport(chunks, LastUsage(events))
    && (LastFinish(events) == "" ==> forall i | 0 <= i < |chunks| :: Unnamed(chunks[i]))
    && (LastFinish(events) != "" ==> LastReason(chunks, Str(LastFinish(events))))
  }

  lemma {:induction false} EventsCollected(chunks: seq<Chunk>)
    requires AllProper(chunks)
    ensures Kept(chunks, Events(chunks))
  {
    if chunks == [] {
      NothingKept();
    } else {
      var front, last := chunks[..|chunks| - 1], chunks[|chunks| - 1];
      assert chunks == front + [last];
      EventsCollected(front);
      KeptGrows(front, Events(front), last);
    }
  }

  lemma NothingKept()
    ensures Kept([], [])
  {
  }

  lemma KeptGrows(front: seq<Chunk>, before: seq<Event>, last: Chunk)
    requires Kept(front, before) && Proper(last)
    ensures Kept(front + [last], before + [EventOf(last)])
  {
    ChunkRead(last);
    var event := EventOf(last);
    var events := before + [event];
    ContentsLast(front, last);
    AppendedLast(before, event);
    ReportGrows(front, last, LastUsage(before), LastUsage(events));
    ReasonGrows(front, last, LastFinish(before), LastFinish(events));
  }

  lemma ReportGrows(front: seq<Chunk>, last: Chunk, before: Option<Usage>, after: Option<Usage>)
    requires LastReport(front, before)
    requires (after.Some? && Reports(last.usage, after)) || (Reports(last.usage, None) && after == before)
    ensures LastReport(front + [last], after)
  {
    var chunks := front + [last];
    if after.Some? && Reports(last.usage, after) {
      assert LastReportAt(chunks, after, |front|);
    } else if after.Some? {
      var k :| LastReportAt(front, before, k);
      assert LastReportAt(chunks, after, k);
    }
  }

  lemma ReasonGrows(front: seq<Chunk>, last: Chunk, before: string, after: string)
    requires before == "" ==> forall i | 0 <= i < |front| :: Unnamed(front[i])
    requires before != "" ==> LastReason(front, Str(before))
    requires if Unnamed(last) then after == before else after != "" && last.finish == Some(Str(after))
    ensures after == "" ==> forall i | 0 <= i < |front + [last]| :: Unnamed((front + [last])[i])
    ensures after != "" ==> LastReason(front + [last], Str(after))
  {
    var chunks := front + [last];
    if !Unnamed(last) {
      assert LastReasonAt(chunks, Str(after), |front|);
    } else if before != "" {
      if k :| LastReasonAt(front, Str(before), k) {
        assert LastReasonAt(chunks, Str(after), k);
      }
    }
  }

  // ---- the whole stream -----------------------------------------------------------------------

  /** The texts are those of the chunks, each small enough, and none is the marker. */
  predicate Carries(codec: Codec, bodies: seq<string>, chunks: seq<Chunk>) {
    && |bodies| == |chunks|
    && forall i | 0 <= i < |bodies| ::
         Utf8Length(bodies[i]) <= MAX_EVENT_BYTES && bodies[i] != "[DONE]"
         && codec.load(bodies[i]) == Loaded(Payload(chunks[i]))
  }

  lemma {:induction false} ContentsPrefix(chunks: seq<Chunk>, n: nat)
    requires n <= |chunks|
    ensures Utf8Length(Contents(chunks[..n])) <= Utf8Length(Contents(chunks))
    decreases |chunks|
  {
    if n == |chunks| {
      assert chunks[..n] == chunks;
    } else {
      var front, last := chunks[..|chunks| - 1], chunks[|chunks| - 1];
      assert front[..n] == chunks[..n] && chunks == front + [last];
      ContentsPrefix(front, n);
      ContentsLast(front, last);
      Utf8Append(Contents(front), Content(last));
    }
  }

  /** What Json decoding makes of the texts. */
  predicate Decodes(decode: Decoder, bodies: seq<string>, chunks: seq<Chunk>) {
    |bodies| == |chunks| && forall i | 0 <= i < |bodies| :: DecodesTo(decode, bodies[i], chunks[i])
  }

  predicate DecodesTo(decode: Decoder, body: string, c: Chunk) {
    Utf8Length(body) <= MAX_EVENT_BYTES && body != "[DONE]" && decode(body) == ReadingOf(c)
  }

  function ReadingOf(c: Chunk): Reading {
    match StreamChunk(Payload(c))
    case None => Invalid
    case Some(event) => Read(event)
  }

  lemma CarriesDecodes(codec: Codec, bodies: seq<string>, chunks: seq<Chunk>)
    requires Carries(codec, bodies, chunks)
    ensures Decodes(JsonDecoder(codec), bodies, chunks)
  {
  }

  lemma EventsDecode(decode: Decoder, bodies: seq<string>, chunks: seq<Chunk>)
    requires Decodes(decode, bodies, chunks) && AllProper(chunks)
    ensures EventsOf(decode, Events(chunks), bodies)
  {
    EventsAt(chunks);
    forall i | 0 <= i < |chunks| ensures decode(bodies[i]) == Read(Events(chunks)[i]) {
      assert DecodesTo(decode, bodies[i], chunks[i]) && Events(chunks)[i] == EventOf(chunks[i]);
    }
  }

  /** Proper chunks within the text limit are all taken. */
  lemma ProperTaken(decode: Decoder, bodies: seq<string>, chunks: seq<Chunk>)
    requires Decodes(decode, bodies, chunks) && AllProper(chunks) && Utf8Length(Contents(chunks)) <= MAX_TEXT_BYTES
    ensures Interpret(decode, bodies) == Parse(Events(chunks), TextSize(Events(chunks)), Undecided)
  {
    EventsDecode(decode, bodies, chunks);
    EventsCollected(chunks);
    TextSizeIsLength(Events(chunks));
    TakesAll(decode, bodies, Events(chunks));
  }

  lemma {:induction false} FirstImproper(chunks: seq<Chunk>) returns (k: nat)
    ensures k <= |chunks| && AllProper(chunks[..k]) && (k < |chunks| ==> !Proper(chunks[k]))
    ensures AllProper(chunks) <==> k == |chunks|
  {
    if chunks == [] {
      k := 0;
    } else if Proper(chunks[0]) {
      k := FirstImproper(chunks[1..]);
      assert k < |chunks| - 1 ==> chunks[1..][k] == chunks[k + 1];
      forall i | 0 <= i < k + 1 ensures Proper(chunks[i]) {
        assert i > 0 ==> chunks[i] == chunks[1..][i - 1];
      }
      k := k + 1;
    } else {
      k := 0;
    }
  }

  lemma InvalidLast(decode: Decoder, bodies: seq<string>, body: string)
    requires Interpret(decode, bodies).verdict.Undecided?
    requires Utf8Length(body) <= MAX_EVENT_BYTES && body != "[DONE]" && decode(body).Invalid?
    ensures Interpret(decode, bodies + [body]).verdict == Failed("provider_invalid_response")
  {
    AppendedLast(bodies, body);
  }

  lemma FailedStays(decode: Decoder, few: seq<string>, bodies: seq<string>)
    requires few <= bodies && Interpret(decode, few).verdict.Failed?
    ensures Interpret(decode, bodies) == Interpret(decode, few)
  {
    PrefixTake(few, bodies);
    DecidedStays(decode, bodies, |few|);
  }

  /** The first improper chunk fails the stream, whatever follows it. */
  lemma FirstImproperFails(decode: Decoder, bodies: seq<string>, chunks: seq<Chunk>, k: nat)
    requires Decodes(decode, bodies, chunks) && Utf8Length(Contents(chunks)) <= MAX_TEXT_BYTES
    requires k < |chunks| && !Proper(chunks[k]) && AllProper(chunks[..k])
    ensures Interpret(decode, bodies).verdict == Failed("provider_invalid_response")
  {
    DecodesPrefix(decode, bodies, chunks, k);
    ContentsPrefix(chunks, k);
    ProperTaken(decode, bodies[..k], chunks[..k]);
    OneMore(bodies, k);
    ImproperFails(decode, bodies[..k], bodies[k], bodies, chunks[k]);
  }

  lemma DecodesPrefix(decode: Decoder, bodies: seq<string>, chunks: seq<Chunk>, k: nat)
    requires Decodes(decode, bodies, chunks) && k < |chunks|
    ensures Decodes(decode, bodies[..k], chunks[..k]) && DecodesTo(decode, bodies[k], chunks[k])
  {
  }

  lemma ImproperFails(decode: Decoder, before: seq<string>, body: string, bodies: seq<string>, c: Chunk)
    requires before + [body] <= bodies && Interpret(decode, before).verdict.Undecided?
    requires !Proper(c) && DecodesTo(decode, body, c)
    ensures Interpret(decode, bodies).verdict == Failed("provider_invalid_response")
  {
    ChunkRead(c);
    InvalidLast(decode, before, body);
    FailedStays(decode, before + [body], bodies);
  }

  lemma OneMore<T>(s: seq<T>, k: nat)
    requires k < |s|
    ensures s[..k] + [s[k]] <= s
  {
  }

  predicate IsMarker(block: Block) { ValidBlock(block) && Parts(block) == ["[DONE]"] }

  /** The lines of the blocks and of the marker, perhaps without the blank line after it. */
  function Sent(blocks: seq<Block>, marker: Block, closed: bool): seq<string> {
    Wire(blocks) + Texts(marker) + if closed then [""] else []
  }

  /** Before the marker's blank line, its block is pending. */
  lemma MarkerWaits(blocks: seq<Block>, marker: Block)
    requires ValidBlocks(blocks) && ValidBlock(marker)
    ensures var open := Wire(blocks) + Texts(marker);
      && Raws(Closed(open)) == Bodies(blocks) && Pending(open) == Texts(marker)
      && DataParts(Pending(open)) == Parts(marker)
  {
    WireRead(blocks);
    BlockPends(Wire(blocks), marker);
    assert [] + Texts(marker) == Texts(marker);
  }

  lemma MarkerCloses(blocks: seq<Block>, marker: Block)
    requires ValidBlocks(blocks) && ValidBlock(marker) && Parts(marker) != []
    ensures Raws(Closed(Wire(blocks) + Texts(marker) + [""])) == Bodies(blocks) + [Join(Parts(marker))]
  {
    var open := Wire(blocks) + Texts(marker);
    MarkerWaits(blocks, marker);
    GroupBlank(open);
    AppendedLast(Closed(open), Texts(marker));
  }

  lemma DoneDecides(decode: Decoder, bodies: seq<string>)
    ensures var p := Interpret(decode, bodies);
      Interpret(decode, bodies + ["[DONE]"]) == if p.verdict.Undecided? then p.(verdict := Complete) else p
  {
    AppendedLast(bodies, "[DONE]");
    assert Utf8Length("[DONE]") == 6;
  }

  lemma ClosedDecides(decode: Decoder, lines: seq<string>, bodies: seq<string>, ending: Ending)
    requires Size(lines) <= MAX_RESPONSE_BYTES && Raws(Closed(lines)) == bodies + ["[DONE]"]
    ensures var p := Interpret(decode, bodies);
      Outcome(decode, lines, ending) == if p.verdict.Undecided? then p.(verdict := Complete) else p
  {
    DoneDecides(decode, bodies);
    assert lines[..|lines|] == lines;
    DecisionIsFinal(decode, lines, |lines|, ending);
  }

  lemma OpenDecides(decode: Decoder, lines: seq<string>, bodies: seq<string>)
    requires Size(lines) <= MAX_RESPONSE_BYTES && Raws(Closed(lines)) == bodies && MarkerPending(lines)
    ensures var p := Interpret(decode, bodies);
      Outcome(decode, lines, EndOfInput) == if p.verdict.Undecided? then p.(verdict := Complete) else p
  {
    assert lines[..|lines|] == lines;
  }

  lemma StreamDecides(decode: Decoder, blocks: seq<Block>, marker: Block, closed: bool, ending: Ending)
    requires ValidBlocks(blocks) && IsMarker(marker)
    requires Size(Sent(blocks, marker, closed)) <= MAX_RESPONSE_BYTES && (closed || ending.EndOfInput?)
    ensures var p := Interpret(decode, Bodies(blocks));
      Outcome(decode, Sent(blocks, marker, closed), ending) ==
        if p.verdict.Undecided? then p.(verdict := Complete) else p
  {
    if closed {
      MarkerCloses(blocks, marker);
      ClosedDecides(decode, Sent(blocks, marker, closed), Bodies(blocks), ending);
    } else {
      MarkerWaits(blocks, marker);
      assert Sent(blocks, marker, closed) == Wire(blocks) + Texts(marker);
      OpenDecides(decode, Sent(blocks, marker, closed), Bodies(blocks));
    }
  }

  /** What the completion of a stream of these chunks must be. */
  ghost predicate Reads(chunks: seq<Chunk>, r: Completion, attempts: nat) {
    if !AllProper(chunks) then r == Refused("provider_invalid_response", attempts)
    else if Contents(chunks) == "" then r.Refused? && r.code == "provider_empty_response"
    else
      && r.Answered? && r.text == Contents(chunks) && r.attempts == attempts
      && LastReport(chunks, r.usage) && LastReason(chunks, r.finish)
  }

  lemma CollectedReads(chunks: seq<Chunk>, events: seq<Event>, attempts: nat)
    requires AllProper(chunks) && Kept(chunks, events)
    ensures Reads(chunks, Collected(events, Complete, attempts), attempts)
  {
    var r := Collected(events, Complete, attempts);
    var reason := if LastFinish(events) == "" then "stop" else LastFinish(events);
    assert LastReason(chunks, Str(reason));
    if AllText(events) != "" {
      assert r == Answered(AllText(events), LastUsage(events), attempts, Str(reason));
    }
  }

  /**
   Whatever chunks an upstream streams before the marker, within the limits, in whatever layout of
   data lines, comments and other fields: the call is answered if and only if every chunk is proper
   and they hold some text, and then with the contents in order, the usage of the last report and the
   last finish reason. One improper chunk anywhere makes the response invalid.
   */
  lemma AnyStreamRead(
    codec: Codec, upstream: seq<Response<Lines>>, blocks: seq<Block>, marker: Block, closed: bool,
    chunks: seq<Chunk>)
    requires |upstream| == 2 && Last(upstream).Answer? && Last(upstream).status == 200
    requires Last(upstream).body.lines == Sent(blocks, marker, closed)
    requires closed || Last(upstream).body.ending.EndOfInput?
    requires ValidBlocks(blocks) && IsMarker(marker) && Carries(codec, Bodies(blocks), chunks)
    requires Size(Sent(blocks, marker, closed)) <= MAX_RESPONSE_BYTES
    requires Utf8Length(Contents(chunks)) <= MAX_TEXT_BYTES
    ensures Reads(chunks, StreamCompleted(JsonDecoder(codec), true, upstream), RequestsSent(true, upstream))
  {
    CarriesDecodes(codec, Bodies(blocks), chunks);
    ChunksDecide(JsonDecoder(codec), blocks, marker, closed, Last(upstream).body.ending, chunks,
      RequestsSent(true, upstream));
  }

  lemma ChunksDecide(
    decode: Decoder, blocks: seq<Block>, marker: Block, closed: bool, ending: Ending, chunks: seq<Chunk>, sent: nat)
    requires ValidBlocks(blocks) && IsMarker(marker) && Decodes(decode, Bodies(blocks), chunks)
    requires Size(Sent(blocks, marker, closed)) <= MAX_RESPONSE_BYTES && (closed || ending.EndOfInput?)
    requires Utf8Length(Contents(chunks)) <= MAX_TEXT_BYTES
    ensures var p := Outcome(decode, Sent(blocks, marker, closed), ending);
      Reads(chunks, Collected(p.events, p.verdict, sent), sent)
  {
    var k := FirstImproper(chunks);
    StreamDecides(decode, blocks, marker, closed, ending);
    if k < |chunks| {
      FirstImproperFails(decode, Bodies(blocks), chunks, k);
    } else {
      assert chunks[..k] == chunks;
      ProperTaken(decode, Bodies(blocks), chunks);
      EventsCollected(chunks);
      CollectedReads(chunks, Events(chunks), sent);
    }
  }
}
