/**
 The bounded upstream event-stream parser (src/omo/provider.py, `stream`): a dialect of server-sent
 events (section 9.2.6 of the WHATWG HTML Living Standard). Only `data:` lines count, all leading
 white space of their value is dropped, and a `[DONE]` that is pending at end of input is accepted.
 */
module EventStream {
  import opened Common

  const MAX_RESPONSE_BYTES := 65536
  const MAX_TEXT_BYTES := 32768
  const MAX_EVENT_BYTES := 16384

  // ---- JSON -----------------------------------------------------------------------------------

  datatype Json =
    | Null | Bool(b: bool) | Num(n: int) | Frac(mantissa: int, exponent: int) | NotFinite | Str(s: string)
    | Arr(items: seq<Json>) | Obj(fields: map<string, Json>)

  /**
   What `json.loads` does with a text: a value, a ValueError on text that is not JSON, or an
   exception that is neither ValueError, TypeError, KeyError nor IndexError. Arrays nested deeper
   than the interpreter's recursion limit raise a RecursionError.
   */
  datatype Loading = Loaded(json: Json) | NotJson | LoadRaises

  /** `json.dumps` and `json.loads`. */
  datatype Codec = Codec(dump: Json -> string, load: string -> Loading)

  function Field(o: map<string, Json>, key: string): Option<Json> { if key in o then Some(o[key]) else None }

  /** An object with the key, or without it. */
  function With(o: map<string, Json>, key: string, v: Option<Json>): map<string, Json> {
    if v.None? then o else o[key := v.value]
  }

  predicate Missing(v: Option<Json>) { v.None? || v.value.Null? }

  // ---- one event ------------------------------------------------------------------------------

  datatype Usage = Usage(prompt: nat, completion: nat, total: nat)

  datatype Event = Event(text: string, finish: Option<string>, usage: Option<Usage>)

  predicate IsCount(v: Option<Json>) { v.Some? && v.value.Num? && v.value.n >= 0 }

  /** `None` is the `ValueError`. */
  function ReadUsage(v: Option<Json>): Option<Option<Usage>> {
    if Missing(v) then Some(None)
    else if !v.value.Obj? then None
    else
      var o := v.value.fields;
      var p, c, t := Field(o, "prompt_tokens"), Field(o, "completion_tokens"), Field(o, "total_tokens");
      if IsCount(p) && IsCount(c) && IsCount(t) then Some(Some(Usage(p.value.n, c.value.n, t.value.n))) else None
  }

  /** A usage report is missing, null, or an object with the three counts, whatever else it holds. */
  predicate Reports(v: Option<Json>, usage: Option<Usage>) {
    match v
    case None => usage.None?
    case Some(Null) => usage.None?
    case Some(Obj(o)) =>
      && usage.Some? && "prompt_tokens" in o && o["prompt_tokens"] == Num(usage.value.prompt)
      && "completion_tokens" in o && o["completion_tokens"] == Num(usage.value.completion)
      && "total_tokens" in o && o["total_tokens"] == Num(usage.value.total)
    case _ => false
  }

  /** What is read is what is reported, and only what reports nothing is refused. */
  lemma UsageExactly(v: Option<Json>)
    ensures forall usage :: ReadUsage(v) == Some(usage) <==> Reports(v, usage)
  {
  }

  function ReadChoice(choice: map<string, Json>, usage: Option<Json>): Option<Event> {
    var delta := Field(choice, "delta");
    if delta.None? || !delta.value.Obj? || !Missing(Field(delta.value.fields, "tool_calls")) then None
    else
      var content := if "content" in delta.value.fields then delta.value.fields["content"] else Str("");
      var finish := Field(choice, "finish_reason");
      var read := ReadUsage(usage);
      if !content.Str? || (!Missing(finish) && !finish.value.Str?) || read.None? then None
      else Some(Event(content.s, if Missing(finish) then None else Some(finish.value.s), read.value))
  }

  function StreamChunk(payload: Json): Option<Event> {
    if !payload.Obj? || "choices" !in payload.fields || !payload.fields["choices"].Arr? then None
    else
      var choices := payload.fields["choices"].items;
      if |choices| != 1 || !choices[0].Obj? then None
      else ReadChoice(choices[0].fields, Field(payload.fields, "usage"))
  }

  /** How the text of one event is read. `Unhandled`: an exception that no handler on the way catches. */
  datatype Reading = Read(event: Event) | Invalid | Unhandled

  type Decoder = string -> Reading

  function Decode(codec: Codec, raw: string): Reading {
    match codec.load(raw)
    case NotJson => Invalid
    case LoadRaises => Unhandled
    case Loaded(payload) =>
      match StreamChunk(payload)
      case None => Invalid
      case Some(event) => Read(event)
  }

  function JsonDecoder(codec: Codec): Decoder { (raw: string) => Decode(codec, raw) }

  // ---- the specification: blank-separated blocks ----------------------------------------------

  function FirstBlank(lines: seq<string>): (k: nat)
    ensures k <= |lines| && (k < |lines| ==> lines[k] == "") && forall i | 0 <= i < k :: lines[i] != ""
  {
    if lines == [] || lines[0] == "" then 0 else 1 + FirstBlank(lines[1..])
  }

  /** The groups of lines that a blank line ends. */
  function Closed(lines: seq<string>): seq<seq<string>> {
    var k := FirstBlank(lines);
    if k == |lines| then [] else [lines[..k]] + Closed(lines[k + 1..])
  }

  /** The lines after the last blank line. */
  function Pending(lines: seq<string>): seq<string> {
    var k := FirstBlank(lines);
    if k == |lines| then lines else Pending(lines[k + 1..])
  }

  /** What `str.lstrip` removes. */
  predicate IsSpace(c: char) {
    var code := c as int;
    9 <= code <= 13 || 28 <= code <= 32 || code in {0x85, 0xA0, 0x1680, 0x2028, 0x2029, 0x202F, 0x205F, 0x3000}
    || 0x2000 <= code <= 0x200A
  }

  function StripLeft(s: string): string { if s != [] && IsSpace(s[0]) then StripLeft(s[1..]) else s }

  predicate IsData(line: string) { "data:" <= line }

  function DataParts(group: seq<string>): seq<string> {
    if group == [] then []
    else
      var front, line := DataParts(group[..|group| - 1]), group[|group| - 1];
      if IsData(line) then front + [StripLeft(line[5..])] else front
  }

  function Join(parts: seq<string>): string {
    if parts == [] then "" else if |parts| == 1 then parts[0] else parts[0] + "\n" + Join(parts[1..])
  }

  /** The parts in order, with one line break between two of them. */
  lemma {:induction false} JoinAppends(a: seq<string>, b: seq<string>)
    requires a != [] && b != []
    ensures Join(a + b) == Join(a) + "\n" + Join(b)
  {
    if |a| == 1 {
      assert a + b == [a[0]] + b && (a + b)[1..] == b;
    } else {
      JoinAppends(a[1..], b);
      assert (a + b)[1..] == a[1..] + b;
      PlusAssociates(a[0] + "\n", Join(a[1..]), "\n" + Join(b));
      PlusAssociates(Join(a[1..]), "\n", Join(b));
    }
  }

  /** The events' texts: groups without data lines do not count. */
  function Raws(groups: seq<seq<string>>): seq<string> {
    if groups == [] then []
    else
      var front, parts := Raws(groups[..|groups| - 1]), DataParts(groups[|groups| - 1]);
      if parts == [] then front else front + [Join(parts)]
  }

  /** `Escaped`: an exception that is not a provider error leaves the parser. */
  datatype Verdict = Undecided | Complete | Failed(code: string) | Escaped

  datatype Parse = Parse(events: seq<Event>, textBytes: nat, verdict: Verdict)

  function Take(decode: Decoder, p: Parse, raw: string): Parse {
    if Utf8Length(raw) > MAX_EVENT_BYTES then p.(verdict := Failed("provider_event_too_large"))
    else if raw == "[DONE]" then p.(verdict := Complete)
    else match decode(raw)
      case Invalid => p.(verdict := Failed("provider_invalid_response"))
      case Unhandled => p.(verdict := Escaped)
      case Read(event) =>
        if p.textBytes + Utf8Length(event.text) > MAX_TEXT_BYTES then
          p.(verdict := Failed("provider_response_too_large"))
        else Parse(p.events + [event], p.textBytes + Utf8Length(event.text), Undecided)
  }

  /** The events of consecutive blocks, up to the first block that decides the stream. */
  function Interpret(decode: Decoder, raws: seq<string>): Parse {
    if raws == [] then Parse([], 0, Undecided)
    else
      var before := Interpret(decode, raws[..|raws| - 1]);
      if before.verdict.Undecided? then Take(decode, before, raws[|raws| - 1]) else before
  }

  function Size(lines: seq<string>): nat {
    if lines == [] then 0 else Size(lines[..|lines| - 1]) + Utf8Length(lines[|lines| - 1]) + 1
  }

  /** The lines with their breaks, as one text. */
  function Unsplit(lines: seq<string>): string {
    if lines == [] then "" else Unsplit(lines[..|lines| - 1]) + lines[|lines| - 1] + "\n"
  }

  /** What the response limit counts: the bytes of the lines with one break each. */
  lemma {:induction false} SizeIsBytes(lines: seq<string>)
    ensures Size(lines) == Utf8Length(Unsplit(lines))
  {
    if lines != [] {
      var front, last := Unsplit(lines[..|lines| - 1]), lines[|lines| - 1];
      SizeIsBytes(lines[..|lines| - 1]);
      Utf8Append(front, last);
      Utf8Append(front + last, "\n");
      AsciiByte();
    }
  }

  lemma AsciiByte()
    ensures Utf8Length("\n") == 1
  {
    assert "\n"[1..] == "";
  }

  /** How many lines fit the response limit. */
  function Admitted(lines: seq<string>): (n: nat)
    ensures n <= |lines|
  {
    if lines == [] || Size(lines) <= MAX_RESPONSE_BYTES then |lines| else Admitted(lines[..|lines| - 1])
  }

  /** The end marker has been read, but no blank line after it. */
  predicate MarkerPending(lines: seq<string>) {
    DataParts(Pending(lines)) != [] && Join(DataParts(Pending(lines))) == "[DONE]"
  }

  /** How the connection ends: normally, or with a time-out or transport error. */
  datatype Ending = EndOfInput | Broken(code: string)

  function Outcome(decode: Decoder, lines: seq<string>, ending: Ending): Parse {
    var n := Admitted(lines);
    var p := Interpret(decode, Raws(Closed(lines[..n])));
    if !p.verdict.Undecided? then p
    else if n < |lines| then p.(verdict := Failed("provider_response_too_large"))
    else if ending.Broken? then p.(verdict := Failed(ending.code))
    else if MarkerPending(lines) then p.(verdict := Complete)
    else p.(verdict := Failed(if p.events != [] then "provider_stream_incomplete" else "provider_stream_no_data"))
  }

  // ---- the incremental loop -------------------------------------------------------------------

  lemma GroupBlank(lines: seq<string>)
    ensures Closed(lines + [""]) == Closed(lines) + [Pending(lines)] && Pending(lines + [""]) == []
  {
    ClosedBlank(lines);
    PendingBlank(lines);
  }

  lemma ClosedAt(lines: seq<string>, k: nat)
    requires k == FirstBlank(lines) < |lines|
    ensures Closed(lines) == [lines[..k]] + Closed(lines[k + 1..])
  {
  }

  lemma PendingAt(lines: seq<string>, k: nat)
    requires k == FirstBlank(lines) < |lines|
    ensures Pending(lines) == Pending(lines[k + 1..])
  {
  }

  lemma {:induction false} ClosedBlank(lines: seq<string>)
    ensures Closed(lines + [""]) == Closed(lines) + [Pending(lines)]
    decreases |lines|
  {
    var k := FirstBlank(lines);
    FirstBlankAppend(lines, "");
    if k == |lines| {
      NoBlankYet(lines);
    } else {
      ClosedBlank(lines[k + 1..]);
      SlicesOfAppended(lines, "", k);
      ClosedAt(lines + [""], k);
      ClosedAt(lines, k);
      PendingAt(lines, k);
      PlusAssociates([lines[..k]], Closed(lines[k + 1..]), [Pending(lines[k + 1..])]);
    }
  }

  lemma NoBlankYet(lines: seq<string>)
    requires FirstBlank(lines) == FirstBlank(lines + [""]) == |lines|
    ensures Closed(lines + [""]) == Closed(lines) + [Pending(lines)]
  {
    AppendedLast(lines, "");
    OneClosed(lines + [""], lines);
    NoneClosed(lines);
  }

  lemma OneClosed(all: seq<string>, lines: seq<string>)
    requires FirstBlank(all) == |lines| < |all| && all[..|lines|] == lines && all[|lines| + 1..] == []
    ensures Closed(all) == [lines]
  {
    ClosedAt(all, |lines|);
    NoneClosed(all[|lines| + 1..]);
  }

  lemma NoneClosed(lines: seq<string>)
    requires FirstBlank(lines) == |lines|
    ensures Closed(lines) == [] && Pending(lines) == lines
  {
  }

  lemma {:induction false} PendingBlank(lines: seq<string>)
    ensures Pending(lines + [""]) == []
    decreases |lines|
  {
    var k := FirstBlank(lines);
    var all := lines + [""];
    FirstBlankAppend(lines, "");
    if k == |lines| {
      assert all[k + 1..] == [];
    } else {
      PendingBlank(lines[k + 1..]);
      SlicesOfAppended(lines, "", k);
    }
  }

  lemma GroupLine(lines: seq<string>, x: string)
    requires x != ""
    ensures Closed(lines + [x]) == Closed(lines) && Pending(lines + [x]) == Pending(lines) + [x]
  {
    ClosedLine(lines, x);
    PendingLine(lines, x);
  }

  lemma {:induction false} ClosedLine(lines: seq<string>, x: string)
    requires x != ""
    ensures Closed(lines + [x]) == Closed(lines)
    decreases |lines|
  {
    var k := FirstBlank(lines);
    var all := lines + [x];
    FirstBlankAppend(lines, x);
    if k < |lines| {
      ClosedLine(lines[k + 1..], x);
      SlicesOfAppended(lines, x, k);
      ClosedAt(all, k);
      ClosedAt(lines, k);
    }
  }

  lemma {:induction false} PendingLine(lines: seq<string>, x: string)
    requires x != ""
    ensures Pending(lines + [x]) == Pending(lines) + [x]
    decreases |lines|
  {
    var k := FirstBlank(lines);
    FirstBlankAppend(lines, x);
    if k < |lines| {
      PendingLine(lines[k + 1..], x);
      SlicesOfAppended(lines, x, k);
      PendingAt(lines + [x], k);
      PendingAt(lines, k);
    }
  }

  lemma {:induction false} FirstBlankAppend(lines: seq<string>, x: string)
    ensures FirstBlank(lines + [x]) ==
      if FirstBlank(lines) < |lines| || x == "" then FirstBlank(lines) else |lines| + 1
  {
    if lines != [] && lines[0] != "" {
      assert (lines + [x])[1..] == lines[1..] + [x];
      FirstBlankAppend(lines[1..], x);
    } else if lines == [] {
      assert lines + [x] == [x] && [x][1..] == [];
    }
  }

  lemma {:induction false} AdmittedAt(lines: seq<string>, i: nat)
    requires i < |lines| && Size(lines[..i + 1]) > MAX_RESPONSE_BYTES >= Size(lines[..i])
    ensures Admitted(lines) == i
    decreases |lines|
  {
    SizeMonotone(lines, i + 1);
    var front := lines[..|lines| - 1];
    if i == |lines| - 1 {
      assert lines[..i] == front;
    } else {
      assert front[..i + 1] == lines[..i + 1] && front[..i] == lines[..i];
      AdmittedAt(front, i);
    }
  }

  lemma {:induction false} SizeMonotone(lines: seq<string>, i: nat)
    requires i <= |lines|
    ensures Size(lines[..i]) <= Size(lines)
    decreases |lines|
  {
    if i == |lines| {
      assert lines[..i] == lines;
    } else {
      var front := lines[..|lines| - 1];
      assert front[..i] == lines[..i];
      SizeMonotone(front, i);
    }
  }

  /** The state of the loop after some lines, while nothing is decided. */
  ghost predicate Reached(decode: Decoder, lines: seq<string>, p: Parse, eventData: seq<string>) {
    && Size(lines) <= MAX_RESPONSE_BYTES
    && Interpret(decode, Raws(Closed(lines))) == p && p.verdict.Undecided?
    && eventData == DataParts(Pending(lines))
  }

  /** A non-blank line only extends the pending group. */
  lemma LineReached(decode: Decoder, lines: seq<string>, p: Parse, eventData: seq<string>, line: string)
    requires Reached(decode, lines, p, eventData) && line != "" && Size(lines + [line]) <= MAX_RESPONSE_BYTES
    ensures Reached(decode, lines + [line], p, if IsData(line) then eventData + [StripLeft(line[5..])] else eventData)
  {
    GroupLine(lines, line);
    assert (Pending(lines) + [line])[..|Pending(lines)|] == Pending(lines);
  }

  /** A blank line hands the pending group over, if it has data. */
  lemma BlankInterpreted(decode: Decoder, lines: seq<string>, p: Parse, eventData: seq<string>)
    requires Reached(decode, lines, p, eventData)
    ensures Pending(lines + [""]) == []
    ensures Interpret(decode, Raws(Closed(lines + [""]))) ==
      if eventData == [] then p else Take(decode, p, Join(eventData))
  {
    GroupBlank(lines);
    var groups := Closed(lines);
    assert (groups + [Pending(lines)])[..|groups|] == groups;
    var raws := Raws(groups);
    assert (raws + [Join(eventData)])[..|raws|] == raws;
  }

  lemma {:induction false} DecidedStays(decode: Decoder, raws: seq<string>, n: nat)
    requires n <= |raws| && !Interpret(decode, raws[..n]).verdict.Undecided?
    ensures Interpret(decode, raws) == Interpret(decode, raws[..n])
    decreases |raws|
  {
    if n == |raws| {
      assert raws[..n] == raws;
    } else {
      assert raws[..|raws| - 1][..n] == raws[..n];
      DecidedStays(decode, raws[..|raws| - 1], n);
    }
  }

  lemma {:induction false} ClosedPrefix(lines: seq<string>, n: nat)
    requires n <= |lines|
    ensures Closed(lines[..n]) <= Closed(lines)
    decreases |lines|
  {
    if n == |lines| {
      assert lines[..n] == lines;
    } else {
      var front, x := lines[..|lines| - 1], lines[|lines| - 1];
      assert lines == front + [x] && front[..n] == lines[..n];
      ClosedPrefix(front, n);
      if x == "" { GroupBlank(front); } else { GroupLine(front, x); }
    }
  }

  lemma {:induction false} RawsPrefix(groups: seq<seq<string>>, n: nat)
    requires n <= |groups|
    ensures Raws(groups[..n]) <= Raws(groups)
    decreases |groups|
  {
    if n == |groups| {
      assert groups[..n] == groups;
    } else {
      assert groups[..|groups| - 1][..n] == groups[..n];
      RawsPrefix(groups[..|groups| - 1], n);
    }
  }

  /** Once the lines read so far decide, the lines after them do not matter. */
  lemma DecidedEarly(decode: Decoder, lines: seq<string>, n: nat)
    requires n <= |lines| && !Interpret(decode, Raws(Closed(lines[..n]))).verdict.Undecided?
    ensures Interpret(decode, Raws(Closed(lines))) == Interpret(decode, Raws(Closed(lines[..n])))
  {
    ClosedPrefix(lines, n);
    var few, all := Closed(lines[..n]), Closed(lines);
    PrefixTake(few, all);
    RawsPrefix(all, |few|);
    PrefixTake(Raws(few), Raws(all));
    DecidedStays(decode, Raws(all), |Raws(few)|);
  }

  lemma {:induction false} AdmittedLeast(lines: seq<string>, n: nat)
    requires n <= |lines| && Size(lines[..n]) <= MAX_RESPONSE_BYTES
    ensures n <= Admitted(lines)
    decreases |lines|
  {
    if n < |lines| {
      assert lines[..|lines| - 1][..n] == lines[..n];
      AdmittedLeast(lines[..|lines| - 1], n);
    }
    assert lines[..|lines|] == lines;
  }

  /** A decision within the response limit is the outcome of the whole stream, however it goes on. */
  lemma DecisionIsFinal(decode: Decoder, lines: seq<string>, n: nat, ending: Ending)
    requires n <= |lines| && Size(lines[..n]) <= MAX_RESPONSE_BYTES
    requires !Interpret(decode, Raws(Closed(lines[..n]))).verdict.Undecided?
    ensures Outcome(decode, lines, ending) == Interpret(decode, Raws(Closed(lines[..n])))
  {
    AdmittedLeast(lines, n);
    var read := lines[..Admitted(lines)];
    assert read[..n] == lines[..n];
    DecidedEarly(decode, read, n);
  }

  lemma OverflowIsFinal(decode: Decoder, lines: seq<string>, i: nat, p: Parse, eventData: seq<string>, ending: Ending)
    requires i < |lines| && Reached(decode, lines[..i], p, eventData) && Size(lines[..i + 1]) > MAX_RESPONSE_BYTES
    ensures Outcome(decode, lines, ending) == p.(verdict := Failed("provider_response_too_large"))
  {
    AdmittedAt(lines, i);
  }

  lemma EndIsFinal(decode: Decoder, lines: seq<string>, p: Parse, eventData: seq<string>, ending: Ending)
    requires Reached(decode, lines, p, eventData)
    ensures Outcome(decode, lines, ending) == p.(verdict :=
      if ending.Broken? then Failed(ending.code)
      else if eventData != [] && Join(eventData) == "[DONE]" then Complete
      else Failed(if p.events != [] then "provider_stream_incomplete" else "provider_stream_no_data"))
  {
    assert lines[..|lines|] == lines;
  }

  /** A blank line: the pending group is taken, and either decides the stream or is an event. */
  lemma BlankStep(decode: Decoder, lines: seq<string>, i: nat, p: Parse, eventData: seq<string>, ending: Ending)
    requires i < |lines| && lines[i] == "" && Reached(decode, lines[..i], p, eventData)
    requires Size(lines[..i + 1]) <= MAX_RESPONSE_BYTES
    ensures var taken := if eventData == [] then p else Take(decode, p, Join(eventData));
      if taken.verdict.Undecided? then Reached(decode, lines[..i + 1], taken, [])
      else Outcome(decode, lines, ending) == taken
  {
    assert lines[..i + 1] == lines[..i] + [""];
    BlankInterpreted(decode, lines[..i], p, eventData);
    BlockTaken(decode, lines, i + 1, if eventData == [] then p else Take(decode, p, Join(eventData)), ending);
  }

  /** With no line pending, the interpretation so far goes on or is final. */
  lemma BlockTaken(decode: Decoder, lines: seq<string>, n: nat, taken: Parse, ending: Ending)
    requires n <= |lines| && Size(lines[..n]) <= MAX_RESPONSE_BYTES && Pending(lines[..n]) == []
    requires Interpret(decode, Raws(Closed(lines[..n]))) == taken
    ensures if taken.verdict.Undecided? then Reached(decode, lines[..n], taken, [])
      else Outcome(decode, lines, ending) == taken
  {
    if !taken.verdict.Undecided? {
      DecisionIsFinal(decode, lines, n, ending);
    }
  }

  /** The byte count of the loop, and what happens when it passes the limit. */
  lemma CountStep(decode: Decoder, lines: seq<string>, i: nat, p: Parse, eventData: seq<string>, ending: Ending)
    requires i < |lines| && Reached(decode, lines[..i], p, eventData)
    ensures Size(lines[..i + 1]) == Size(lines[..i]) + Utf8Length(lines[i]) + 1
    ensures Size(lines[..i + 1]) > MAX_RESPONSE_BYTES ==>
      Outcome(decode, lines, ending) == p.(verdict := Failed("provider_response_too_large"))
    ensures Size(lines[..i + 1]) <= MAX_RESPONSE_BYTES && lines[i] != "" ==>
      Reached(decode, lines[..i + 1], p, if IsData(lines[i]) then eventData + [StripLeft(lines[i][5..])] else eventData)
  {
    assert lines[..i + 1] == lines[..i] + [lines[i]];
    if Size(lines[..i + 1]) > MAX_RESPONSE_BYTES {
      OverflowIsFinal(decode, lines, i, p, eventData, ending);
    } else if lines[i] != "" {
      LineReached(decode, lines[..i], p, eventData, lines[i]);
    }
  }

  /** One block: too large, the end marker, unreadable, over the text limit, or one more event. */
  method TakeBlock(decode: Decoder, before: seq<Event>, bytes: nat, raw: string)
    returns (events: seq<Event>, textBytes: nat, verdict: Verdict)
    ensures Parse(events, textBytes, verdict) == Take(decode, Parse(before, bytes, Undecided), raw)
    ensures verdict.Undecided? ==> events != []
  {
    events, textBytes := before, bytes;
    if Utf8Length(raw) > MAX_EVENT_BYTES {
      return events, textBytes, Failed("provider_event_too_large");
    }
    if raw == "[DONE]" {
      return events, textBytes, Complete;
    }
    var reading := decode(raw);
    if reading.Invalid? {
      return events, textBytes, Failed("provider_invalid_response");
    }
    if reading.Unhandled? {
      return events, textBytes, Escaped;
    }
    if bytes + Utf8Length(reading.event.text) > MAX_TEXT_BYTES {
      return events, textBytes, Failed("provider_response_too_large");
    }
    return before + [reading.event], bytes + Utf8Length(reading.event.text), Undecided;
  }

  /** The loop over the lines: what it yields and how it ends is the specification's outcome. */
  method ReadLines(decode: Decoder, lines: seq<string>, ending: Ending) returns (events: seq<Event>, verdict: Verdict)
    ensures events == Outcome(decode, lines, ending).events && verdict == Outcome(decode, lines, ending).verdict
    ensures !verdict.Undecided?
  {
    events := [];
    var sawData := false;
    var totalBytes: nat, textBytes: nat := 0, 0;
    var eventData: seq<string> := [];
    for i := 0 to |lines|
      invariant totalBytes == Size(lines[..i])
      invariant Reached(decode, lines[..i], Parse(events, textBytes, Undecided), eventData)
      invariant sawData <==> events != []
    {
      var line := lines[i];
      CountStep(decode, lines, i, Parse(events, textBytes, Undecided), eventData, ending);
      totalBytes := totalBytes + Utf8Length(line) + 1;
      if totalBytes > MAX_RESPONSE_BYTES {
        return events, Failed("provider_response_too_large");
      }
      if line == "" {
        BlankStep(decode, lines, i, Parse(events, textBytes, Undecided), eventData, ending);
        if eventData == [] {
          continue;
        }
        events, textBytes, verdict := TakeBlock(decode, events, textBytes, Join(eventData));
        eventData := [];
        if !verdict.Undecided? {
          return;
        }
        sawData := true;
      } else if IsData(line) {
        eventData := eventData + [StripLeft(line[5..])];
      }
    }
    assert lines[..|lines|] == lines;
    EndIsFinal(decode, lines, Parse(events, textBytes, Undecided), eventData, ending);
    if ending.Broken? {
      return events, Failed(ending.code);
    }
    if eventData != [] && Join(eventData) == "[DONE]" {
      return events, Complete;
    }
    return events, Failed(if sawData then "provider_stream_incomplete" else "provider_stream_no_data");
  }

  // ---- what the specification means -----------------------------------------------------------

  function TextSize(events: seq<Event>): nat {
    if events == [] then 0 else TextSize(events[..|events| - 1]) + Utf8Length(events[|events| - 1].text)
  }

  /** The i-th event is the i-th block, small enough and not the end marker. */
  predicate EventsOf(decode: Decoder, events: seq<Event>, raws: seq<string>) {
    && |events| <= |raws|
    && forall i | 0 <= i < |events| ::
        Utf8Length(raws[i]) <= MAX_EVENT_BYTES && raws[i] != "[DONE]" && decode(raws[i]) == Read(events[i])
  }

  /** The block that stops the interpretation after these events, and what the verdict says of it. */
  predicate Stops(decode: Decoder, events: seq<Event>, raw: string, verdict: Verdict) {
    var small := Utf8Length(raw) <= MAX_EVENT_BYTES;
    var read := small && raw != "[DONE]";
    match verdict
    case Undecided => false
    case Complete => raw == "[DONE]"
    case Escaped => read && decode(raw).Unhandled?
    case Failed(code) =>
      || (!small && code == "provider_event_too_large")
      || (read && decode(raw).Invalid? && code == "provider_invalid_response")
      || (read && decode(raw).Read? && TextSize(events) + Utf8Length(decode(raw).event.text) > MAX_TEXT_BYTES
          && code == "provider_response_too_large")
  }

  /** What the interpretation of some blocks says about them. */
  predicate Meaning(decode: Decoder, p: Parse, raws: seq<string>) {
    && EventsOf(decode, p.events, raws)
    && p.textBytes == TextSize(p.events) <= MAX_TEXT_BYTES
    && (p.verdict.Undecided? <==> |p.events| == |raws|)
    && (|p.events| < |raws| ==> Stops(decode, p.events, raws[|p.events|], p.verdict))
  }

  lemma TakeMeaning(decode: Decoder, front: seq<string>, before: Parse, raw: string)
    requires Meaning(decode, before, front) && before.verdict.Undecided?
    ensures Meaning(decode, Take(decode, before, raw), front + [raw])
  {
    assert Utf8Length("[DONE]") == 6;
    var p := Take(decode, before, raw);
    EventsStay(decode, before.events, front, raw);
    if p.verdict.Undecided? {
      AppendedLast(before.events, decode(raw).event);
    }
  }

  lemma {:induction false} InterpretMeaning(decode: Decoder, raws: seq<string>)
    ensures Meaning(decode, Interpret(decode, raws), raws)
  {
    if raws != [] {
      var front := raws[..|raws| - 1];
      InterpretMeaning(decode, front);
      var before := Interpret(decode, front);
      assert raws == front + [raws[|raws| - 1]];
      if before.verdict.Undecided? {
        TakeMeaning(decode, front, before, raws[|raws| - 1]);
      } else {
        MeaningStays(decode, front, before, raws[|raws| - 1]);
      }
    }
  }

  lemma MeaningStays(decode: Decoder, front: seq<string>, p: Parse, raw: string)
    requires Meaning(decode, p, front) && !p.verdict.Undecided?
    ensures Meaning(decode, p, front + [raw])
  {
    assert forall i | 0 <= i < |front| :: (front + [raw])[i] == front[i];
  }

  /**
   What is yielded and when it succeeds: the valid blocks before the first `[DONE]`, within the
   three byte limits, and success only when that marker is there.
   */
  lemma OutcomeMeaning(decode: Decoder, lines: seq<string>, ending: Ending)
    ensures var p := Outcome(decode, lines, ending);
      var n := Admitted(lines);
      var raws := Raws(Closed(lines[..n]));
      && Size(lines[..n]) <= MAX_RESPONSE_BYTES
      && EventsOf(decode, p.events, raws)
      && TextSize(p.events) <= MAX_TEXT_BYTES
      && !p.verdict.Undecided?
      && (p.verdict.Complete? <==>
            if |p.events| < |raws| then raws[|p.events|] == "[DONE]"
            else n == |lines| && ending.EndOfInput? && MarkerPending(lines))
  {
    AdmittedFits(lines);
    InterpretMeaning(decode, Raws(Closed(lines[..Admitted(lines)])));
    assert Utf8Length("[DONE]") == 6;
  }

  /**
   A stream that does not succeed says why: the first block that is no valid event within its limits;
   else the response limit, the broken connection, or the end of input without the marker.
   */
  lemma FailureNamesItsCause(decode: Decoder, lines: seq<string>, ending: Ending)
    ensures var p := Outcome(decode, lines, ending);
      var n := Admitted(lines);
      var raws := Raws(Closed(lines[..n]));
      if |p.events| < |raws| then Stops(decode, p.events, raws[|p.events|], p.verdict)
      else if n < |lines| then p.verdict == Failed("provider_response_too_large")
      else if ending.Broken? then p.verdict == Failed(ending.code)
      else if MarkerPending(lines) then p.verdict == Complete
      else if raws != [] then p.verdict == Failed("provider_stream_incomplete")
      else p.verdict == Failed("provider_stream_no_data")
  {
    InterpretMeaning(decode, Raws(Closed(lines[..Admitted(lines)])));
  }

  lemma {:induction false} AdmittedFits(lines: seq<string>)
    ensures Size(lines[..Admitted(lines)]) <= MAX_RESPONSE_BYTES
  {
    if Size(lines) <= MAX_RESPONSE_BYTES {
      assert lines[..|lines|] == lines;
    } else {
      var front := lines[..|lines| - 1];
      AdmittedFits(front);
      assert lines[..Admitted(front)] == front[..Admitted(front)];
    }
  }

  /** After a decision such as `[DONE]`, neither further lines nor a broken connection matter. */
  lemma RestIgnored(decode: Decoder, lines: seq<string>, more: seq<string>, e1: Ending, e2: Ending)
    requires Size(lines) <= MAX_RESPONSE_BYTES && !Interpret(decode, Raws(Closed(lines))).verdict.Undecided?
    ensures Outcome(decode, lines + more, e1) == Outcome(decode, lines, e2)
  {
    assert (lines + more)[..|lines|] == lines && lines[..|lines|] == lines;
    DecisionIsFinal(decode, lines + more, |lines|, e1);
    DecisionIsFinal(decode, lines, |lines|, e2);
  }

  // ---- exceptions that escape -----------------------------------------------------------------

  /** After these events within the text limit, the next block is small enough and reading it raises. */
  predicate EscapesAfter(decode: Decoder, events: seq<Event>, raws: seq<string>) {
    && EventsOf(decode, events, raws) && TextSize(events) <= MAX_TEXT_BYTES && |events| < |raws|
    && Utf8Length(raws[|events|]) <= MAX_EVENT_BYTES && raws[|events|] != "[DONE]" && decode(raws[|events|]).Unhandled?
  }

  /** Blocks within the limits are all taken, one event each. */
  lemma {:induction false} TakesAll(decode: Decoder, raws: seq<string>, events: seq<Event>)
    requires |raws| == |events| && EventsOf(decode, events, raws) && TextSize(events) <= MAX_TEXT_BYTES
    ensures Interpret(decode, raws) == Parse(events, TextSize(events), Undecided)
  {
    if raws != [] {
      var n := |raws| - 1;
      TakesAll(decode, raws[..n], events[..n]);
      TakesOne(decode, raws[..n], raws[n], events[..n], events[n]);
      assert raws == raws[..n] + [raws[n]] && events == events[..n] + [events[n]];
    }
  }

  lemma TakesOne(decode: Decoder, raws: seq<string>, raw: string, events: seq<Event>, event: Event)
    requires Interpret(decode, raws) == Parse(events, TextSize(events), Undecided)
    requires Utf8Length(raw) <= MAX_EVENT_BYTES && raw != "[DONE]" && decode(raw) == Read(event)
    requires TextSize(events + [event]) <= MAX_TEXT_BYTES
    ensures Interpret(decode, raws + [raw]) == Parse(events + [event], TextSize(events + [event]), Undecided)
  {
    AppendedLast(raws, raw);
    AppendedLast(events, event);
  }

  ghost predicate EscapesWithin(decode: Decoder, raws: seq<string>) {
    exists events :: EscapesAfter(decode, events, raws)
  }

  lemma {:induction false} EscapedAfterEvents(decode: Decoder, raws: seq<string>)
    requires Interpret(decode, raws).verdict.Escaped?
    ensures EscapesAfter(decode, Interpret(decode, raws).events, raws)
  {
    var front, last := raws[..|raws| - 1], raws[|raws| - 1];
    var before := Interpret(decode, front);
    if before.verdict.Escaped? {
      EscapedAfterEvents(decode, front);
      MoreBlocks(decode, before.events, front, last);
      assert raws == front + [last];
    } else {
      InterpretMeaning(decode, front);
      EventsStay(decode, before.events, front, last);
      assert raws == front + [last];
    }
  }

  lemma EventsStay(decode: Decoder, events: seq<Event>, raws: seq<string>, raw: string)
    requires EventsOf(decode, events, raws)
    ensures EventsOf(decode, events, raws + [raw])
  {
  }

  lemma MoreBlocks(decode: Decoder, events: seq<Event>, raws: seq<string>, raw: string)
    requires EscapesAfter(decode, events, raws)
    ensures EscapesAfter(decode, events, raws + [raw])
  {
    EventsStay(decode, events, raws, raw);
  }

  lemma TakesThenEscapes(decode: Decoder, raws: seq<string>, events: seq<Event>)
    requires EscapesAfter(decode, events, raws)
    ensures Interpret(decode, raws).verdict.Escaped?
  {
    var n := |events|;
    TakesAll(decode, raws[..n], events);
    NextRaises(decode, raws[..n], raws[n], events);
    assert raws[..n + 1] == raws[..n] + [raws[n]];
    DecidedStays(decode, raws, n + 1);
  }

  lemma NextRaises(decode: Decoder, before: seq<string>, raw: string, events: seq<Event>)
    requires Interpret(decode, before) == Parse(events, TextSize(events), Undecided)
    requires Utf8Length(raw) <= MAX_EVENT_BYTES && raw != "[DONE]" && decode(raw).Unhandled?
    ensures Interpret(decode, before + [raw]).verdict.Escaped?
  {
    AppendedLast(before, raw);
  }

  /**
   An exception that is not a provider error leaves the parser if and only if, among the blocks
   within the response limit, some valid events are followed by a block within its own limit that
   the decoder raises on.
   */
  lemma EscapesExactly(decode: Decoder, lines: seq<string>, ending: Ending)
    ensures Outcome(decode, lines, ending).verdict.Escaped? <==>
      EscapesWithin(decode, Raws(Closed(lines[..Admitted(lines)])))
  {
    InterpretEscapes(decode, Raws(Closed(lines[..Admitted(lines)])));
  }

  lemma InterpretEscapes(decode: Decoder, raws: seq<string>)
    ensures Interpret(decode, raws).verdict.Escaped? <==> EscapesWithin(decode, raws)
  {
    if Interpret(decode, raws).verdict.Escaped? {
      EscapedAfterEvents(decode, raws);
    }
    if events :| EscapesAfter(decode, events, raws) {
      TakesThenEscapes(decode, raws, events);
    }
  }
}
