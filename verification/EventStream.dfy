/** Incremental reading of a server-sent-event stream with byte accounting. */
module EventStream {
  import opened Wrappers
  import opened Text

  const MAX_RESPONSE_BYTES: nat := 4_000_000
  const MAX_OUTPUT_BYTES: nat := 1_000_000

  datatype Json =
    | Null | Bool(truth: bool) | Number(digits: string) | Str(text: string) | Arr(items: seq<Json>)
    | Obj(fields: map<string, Json>)

  type JsonParser = string -> Option<Json>

  datatype Error = ResponseTooLarge | InvalidStream | OutputTooLarge | NotCompleted | UnhashableType

  /* ---------- Sizes ---------- */

  function CharSize(c: char): nat
  {
    var n := c as int;
    if n < 0x80 then 1 else if n < 0x800 then 2 else if n < 0x10000 then 3 else 4
  }

  function Utf8Size(s: string): nat
  {
    if s == "" then 0 else CharSize(s[0]) + Utf8Size(s[1..])
  }

  lemma {:induction false} Utf8SizeAppend(a: string, b: string)
    ensures Utf8Size(a + b) == Utf8Size(a) + Utf8Size(b)
  {
    if a == "" {
      assert a + b == b;
    } else {
      assert (a + b)[1..] == a[1..] + b;
      Utf8SizeAppend(a[1..], b);
    }
  }

  function StreamSize(lines: seq<string>): nat
  {
    if lines == [] then 0 else StreamSize(lines[..|lines| - 1]) + Utf8Size(lines[|lines| - 1]) + 1
  }

  /** The number of leading lines that fit the response limit. */
  function Fitting(lines: seq<string>): (n: nat)
    ensures n <= |lines| && StreamSize(lines[..n]) <= MAX_RESPONSE_BYTES
    ensures n < |lines| ==> StreamSize(lines[..n + 1]) > MAX_RESPONSE_BYTES
  {
    if lines == [] then 0
    else
      var before := lines[..|lines| - 1];
      var n := Fitting(before);
      assert before[..n] == lines[..n];
      assert n < |before| ==> before[..n + 1] == lines[..n + 1];
      assert lines[..|lines|] == lines && before[..|before|] == before;
      if n < |before| || StreamSize(lines) > MAX_RESPONSE_BYTES then n else |lines|
  }

  /* ---------- Phase one: from lines to event payloads ---------- */

  /** The value of a data line that counts: leading white space is dropped, and "[DONE]" is passed over. */
  function DataValue(line: string): Option<string>
  {
    if !StartsWith(line, "data:") then None
    else
      var value := LStrip(line[5..]);
      if value == "[DONE]" then None else Some(value)
  }

  datatype Grouping = Grouping(payloads: seq<string>, open_: seq<string>)

  /** Data lines gather until a blank line dispatches them, joined by line feeds. */
  function Group(lines: seq<string>): Grouping
  {
    if lines == [] then Grouping([], [])
    else
      var before, line := Group(lines[..|lines| - 1]), lines[|lines| - 1];
      if line == "" then
        if before.open_ == [] then before else Grouping(before.payloads + [Join(before.open_, "\n")], [])
      else
        var value := DataValue(line);
        if value == None then before else before.(open_ := before.open_ + [value.value])
  }

  /* ---------- Phase two: from payloads to output ---------- */

  datatype Event =
    | Delta(text: string) | BadDelta | Completion(output: Option<string>) | Failure | Unhashable | Other

  function Field(fields: map<string, Json>, name: string): Json
  {
    if name in fields then fields[name] else Null
  }

  predicate IsText(part: Json)
  {
    part.Obj? && Field(part.fields, "type") == Str("output_text") && Field(part.fields, "text").Str?
  }

  function PartTexts(parts: seq<Json>): seq<string>
  {
    if parts == [] then []
    else
      var n := |parts| - 1;
      PartTexts(parts[..n]) + if IsText(parts[n]) then [Field(parts[n].fields, "text").text] else []
  }

  predicate IsMessage(item: Json)
  {
    item.Obj? && Field(item.fields, "type") == Str("message") && Field(item.fields, "content").Arr?
  }

  function ItemTexts(items: seq<Json>): seq<string>
  {
    if items == [] then []
    else
      var n := |items| - 1;
      ItemTexts(items[..n]) + if IsMessage(items[n]) then PartTexts(Field(items[n].fields, "content").items) else []
  }

  /** The texts of a completed event, or None if there is no text to be had. */
  function CompletedText(fields: map<string, Json>): Option<string>
  {
    var response := Field(fields, "response");
    if !response.Obj? || !Field(response.fields, "output").Arr? then None
    else
      var texts := ItemTexts(Field(response.fields, "output").items);
      if texts == [] then None else Some(Concat(texts))
  }

  lemma {:induction false} PartTextsAppend(a: seq<Json>, b: seq<Json>)
    ensures PartTexts(a + b) == PartTexts(a) + PartTexts(b)
    decreases |b|
  {
    if b == [] {
      assert a + b == a;
    } else {
      var n := |b| - 1;
      PartTextsAppend(a, b[..n]);
      assert (a + b)[..|a| + n] == a + b[..n] && (a + b)[|a| + n] == b[n];
    }
  }

  lemma {:induction false} ItemTextsAppend(a: seq<Json>, b: seq<Json>)
    ensures ItemTexts(a + b) == ItemTexts(a) + ItemTexts(b)
    decreases |b|
  {
    hide PartTexts;
    if b == [] {
      assert a + b == a;
    } else {
      var n := |b| - 1;
      ItemTextsAppend(a, b[..n]);
      assert (a + b)[..|a| + n] == a + b[..n] && (a + b)[|a| + n] == b[n];
    }
  }

  /** The texts of an output are those of its message items, item by item, and theirs those of their text parts, part by
      part; nothing else adds any. */
  lemma TextsExactly(item: Json, part: Json)
    ensures PartTexts([]) == [] && ItemTexts([]) == []
    ensures PartTexts([part]) ==
            if part.Obj? && "type" in part.fields && part.fields["type"] == Str("output_text")
               && "text" in part.fields && part.fields["text"].Str?
            then [part.fields["text"].text] else []
    ensures ItemTexts([item]) ==
            if item.Obj? && "type" in item.fields && item.fields["type"] == Str("message")
               && "content" in item.fields && item.fields["content"].Arr?
            then PartTexts(item.fields["content"].items) else []
  {
    assert [part][..0] == [] && [item][..0] == [];
    assert PartTexts([]) == [] && ItemTexts([]) == [];
  }

  method CompletedOutputText(fields: map<string, Json>) returns (r: Option<string>)
    ensures r == CompletedText(fields)
  {
    var response := Field(fields, "response");
    if !response.Obj? { return None; }
    var output := Field(response.fields, "output");
    if !output.Arr? { return None; }
    var texts: seq<string> := [];
    var i := 0;
    while i < |output.items|
      invariant 0 <= i <= |output.items| && texts == ItemTexts(output.items[..i])
    {
      var item := output.items[i];
      assert output.items[..i + 1][..i] == output.items[..i];
      i := i + 1;
      if !item.Obj? || Field(item.fields, "type") != Str("message") { continue; }
      var content := Field(item.fields, "content");
      if !content.Arr? { continue; }
      var j := 0;
      while j < |content.items|
        invariant 0 <= j <= |content.items|
        invariant texts == ItemTexts(output.items[..i - 1]) + PartTexts(content.items[..j])
      {
        var part := content.items[j];
        assert content.items[..j + 1][..j] == content.items[..j];
        j := j + 1;
        if part.Obj? && Field(part.fields, "type") == Str("output_text") {
          var text := Field(part.fields, "text");
          if text.Str? { texts := texts + [text.text]; }
        }
      }
      assert content.items[..j] == content.items;
    }
    assert output.items[..i] == output.items;
    if texts == [] { return None; }
    return Some(Concat(texts));
  }

  function Classify(fields: map<string, Json>): Event
  {
    var kind := Field(fields, "type");
    if kind == Str("response.output_text.delta") then
      (if Field(fields, "delta").Str? then Delta(Field(fields, "delta").text) else BadDelta)
    else if kind == Str("response.completed") then Completion(CompletedText(fields))
    else if kind == Str("error") || kind == Str("response.failed") || kind == Str("response.incomplete") then Failure
    else if kind.Arr? || kind.Obj? then Unhashable
    else Other
  }

  /** A payload that is not a JSON object is an error of the stream. */
  function Decoded(parse: JsonParser, payload: string): Option<Event>
  {
    match parse(payload)
    case Some(Obj(fields)) => Some(Classify(fields))
    case _ => None
  }

  predicate OfType(parse: JsonParser, payload: string, kind: string)
  {
    match parse(payload)
    case Some(Obj(fields)) => "type" in fields && fields["type"] == Str(kind)
    case _ => false
  }

  predicate TextIn(parse: JsonParser, payload: string, name: string, text: string)
  {
    match parse(payload)
    case Some(Obj(fields)) => name in fields && fields[name] == Str(text)
    case _ => false
  }

  /** Which payload is which event. */
  lemma DecodedExactly(parse: JsonParser, payload: string)
    ensures var e := Decoded(parse, payload);
            && (e.Some? <==> parse(payload).Some? && parse(payload).value.Obj?)
            && (forall text :: e == Some(Delta(text)) <==>
                  OfType(parse, payload, "response.output_text.delta") && TextIn(parse, payload, "delta", text))
            && (e == Some(BadDelta) <==>
                  OfType(parse, payload, "response.output_text.delta")
                  && forall text :: !TextIn(parse, payload, "delta", text))
            && ((e.Some? && e.value.Completion?) <==> OfType(parse, payload, "response.completed"))
            && (e == Some(Failure) <==>
                  OfType(parse, payload, "error") || OfType(parse, payload, "response.failed")
                  || OfType(parse, payload, "response.incomplete"))
            && (e == Some(Unhashable) <==>
                  e.Some? && "type" in parse(payload).value.fields
                  && (parse(payload).value.fields["type"].Arr? || parse(payload).value.fields["type"].Obj?))
  {
    hide CompletedText;
    var e := Decoded(parse, payload);
    if OfType(parse, payload, "response.output_text.delta") {
      var fields := parse(payload).value.fields;
      if "delta" in fields && fields["delta"].Str? { assert TextIn(parse, payload, "delta", fields["delta"].text); }
    }
  }

  datatype Reader = Reader(parts: seq<string>, bytes: nat, completed: bool)

  const START := Reader([], 0, false)

  function Limited(r: Reader): Result<Reader, Error>
  {
    if r.bytes > MAX_OUTPUT_BYTES then Err(OutputTooLarge) else Ok(r)
  }

  function Applied(r: Reader, e: Event): Result<Reader, Error>
  {
    match e
    case Delta(text) => Limited(r.(parts := r.parts + [text], bytes := r.bytes + Utf8Size(text)))
    case BadDelta => Err(InvalidStream)
    case Completion(output) =>
      if r.parts != [] then Ok(r.(completed := true))
      else if output == None then Err(InvalidStream)
      else Limited(Reader([output.value], Utf8Size(output.value), true))
    case Failure => Err(NotCompleted)
    case Unhashable => Err(UnhashableType)
    case Other => Ok(r)
  }

  /** The dispatched events applied in order, up to the first error. */
  function Interpret(parse: JsonParser, payloads: seq<string>): Result<Reader, Error>
  {
    if payloads == [] then Ok(START)
    else
      match Interpret(parse, payloads[..|payloads| - 1])
      case Err(error) => Err(error)
      case Ok(reader) =>
        match Decoded(parse, payloads[|payloads| - 1])
        case None => Err(InvalidStream)
        case Some(event) => Applied(reader, event)
  }

  function FinishedWith(parse: JsonParser, payload: string, reader: Reader): Result<Reader, Error>
  {
    match Decoded(parse, payload)
    case None => Err(InvalidStream)
    case Some(Completion(output)) =>
      if reader.parts != [] then Ok(reader.(completed := true))
      else if output == None then Err(InvalidStream)
      else Ok(Reader([output.value], reader.bytes, true))
    case Some(_) => Ok(reader)
  }

  /** The end of the stream: an undispatched completed event still counts, without a size check. */
  function Finished(parse: JsonParser, reader: Reader, open_: seq<string>): Result<Reader, Error>
  {
    if open_ == [] then Ok(reader) else FinishedWith(parse, Join(open_, "\n"), reader)
  }

  function Output(r: Reader): Result<string, Error>
  {
    if !r.completed || r.parts == [] then Err(InvalidStream) else Ok(Concat(r.parts))
  }

  /** Group, then interpret, then finish; the response limit cuts the stream off at a line. */
  function Read(parse: JsonParser, lines: seq<string>): Result<string, Error>
  {
    var n := Fitting(lines);
    var grouping := Group(lines[..n]);
    match Interpret(parse, grouping.payloads)
    case Err(error) => Err(error)
    case Ok(reader) =>
      if n < |lines| then Err(ResponseTooLarge)
      else
        match Finished(parse, reader, grouping.open_)
        case Err(error) => Err(error)
        case Ok(end) => Output(end)
  }

  /* ---------- The loop does exactly that ---------- */

  lemma {:induction false} StreamSizeGrows(lines: seq<string>, m: nat, n: nat)
    requires m <= n <= |lines|
    ensures StreamSize(lines[..m]) <= StreamSize(lines[..n])
    decreases n - m
  {
    if m < n {
      assert lines[..n][..n - 1] == lines[..n - 1];
      StreamSizeGrows(lines, m, n - 1);
    }
  }

  lemma FittingAt(lines: seq<string>, n: nat)
    requires n <= |lines| && StreamSize(lines[..n]) <= MAX_RESPONSE_BYTES
    requires n < |lines| ==> StreamSize(lines[..n + 1]) > MAX_RESPONSE_BYTES
    ensures Fitting(lines) == n
  {
    var m := Fitting(lines);
    if m < n {
      StreamSizeGrows(lines, m + 1, n);
    } else if n < m {
      StreamSizeGrows(lines, n + 1, m);
    }
  }

  lemma FittingAtLeast(lines: seq<string>, n: nat)
    requires n <= |lines| && StreamSize(lines[..n]) <= MAX_RESPONSE_BYTES
    ensures Fitting(lines) >= n
  {
    var m := Fitting(lines);
    if m < n {
      StreamSizeGrows(lines, m + 1, n);
    }
  }

  lemma OnePayloadMore(lines: seq<string>, line: string)
    ensures Group(lines).payloads <= Group(lines + [line]).payloads
  {
    hide DataValue, Join;
    assert (lines + [line])[..|lines|] == lines;
  }

  lemma {:induction false} PayloadsGrow(lines: seq<string>, m: nat, n: nat)
    requires m <= n <= |lines|
    ensures Group(lines[..m]).payloads <= Group(lines[..n]).payloads
    decreases n - m
  {
    hide Group;
    if m < n {
      assert lines[..n] == lines[..n - 1] + [lines[n - 1]];
      PayloadsGrow(lines, m, n - 1);
      OnePayloadMore(lines[..n - 1], lines[n - 1]);
    }
  }

  lemma {:induction false} ErrorPersists(parse: JsonParser, payloads: seq<string>, n: nat)
    requires n <= |payloads| && Interpret(parse, payloads[..n]).Err?
    ensures Interpret(parse, payloads) == Interpret(parse, payloads[..n])
    decreases |payloads|
  {
    if n == |payloads| {
      assert payloads[..n] == payloads;
    } else {
      assert payloads[..|payloads| - 1][..n] == payloads[..n];
      ErrorPersists(parse, payloads[..|payloads| - 1], n);
    }
  }

  lemma StopsWith(parse: JsonParser, lines: seq<string>, n: nat, error: Error)
    requires n <= |lines| && StreamSize(lines[..n]) <= MAX_RESPONSE_BYTES
    requires Interpret(parse, Group(lines[..n]).payloads) == Err(error)
    ensures Read(parse, lines) == Err(error)
  {
    hide Fitting, Interpret, Group;
    FittingAtLeast(lines, n);
    var m := Fitting(lines);
    PayloadsGrow(lines, n, m);
    var payloads, k := Group(lines[..m]).payloads, |Group(lines[..n]).payloads|;
    assert payloads[..k] == Group(lines[..n]).payloads;
    ErrorPersists(parse, payloads, k);
  }

  lemma DispatchStep(parse: JsonParser, lines: seq<string>, i: nat, reader: Reader)
    requires i < |lines| && lines[i] == "" && Group(lines[..i]).open_ != []
    requires Interpret(parse, Group(lines[..i]).payloads) == Ok(reader)
    ensures Group(lines[..i + 1]).open_ == []
    ensures var event := Decoded(parse, Join(Group(lines[..i]).open_, "\n"));
            Interpret(parse, Group(lines[..i + 1]).payloads)
            == if event == None then Err(InvalidStream) else Applied(reader, event.value)
  {
    hide Decoded, Applied, Join;
    assert lines[..i + 1][..i] == lines[..i];
    var before, payload := Group(lines[..i]).payloads, Join(Group(lines[..i]).open_, "\n");
    assert (before + [payload])[..|before|] == before;
  }

  lemma QuietStep(lines: seq<string>, i: nat)
    requires i < |lines| && (lines[i] != "" || Group(lines[..i]).open_ == [])
    ensures Group(lines[..i + 1]).payloads == Group(lines[..i]).payloads
    ensures var value := DataValue(lines[i]);
            Group(lines[..i + 1]).open_ ==
            if lines[i] == "" || value == None then Group(lines[..i]).open_ else Group(lines[..i]).open_ + [value.value]
  {
    assert lines[..i + 1][..i] == lines[..i];
  }

  /** One dispatched event applied in place: the parts grow, the counter follows, errors end the reading. */
  method Apply(parse: JsonParser, payload: string, reader: Reader) returns (r: Result<Reader, Error>)
    ensures var event := Decoded(parse, payload);
            r == if event == None then Err(InvalidStream) else Applied(reader, event.value)
  {
    var parsed := parse(payload);
    if parsed == None || !parsed.value.Obj? { return Err(InvalidStream); }
    var fields := parsed.value.fields;
    var parts, bytes, completed := reader.parts, reader.bytes, reader.completed;
    var kind := Field(fields, "type");
    if kind == Str("response.output_text.delta") {
      var delta := Field(fields, "delta");
      if !delta.Str? { return Err(InvalidStream); }
      bytes := bytes + Utf8Size(delta.text);
      if bytes > MAX_OUTPUT_BYTES { return Err(OutputTooLarge); }
      parts := parts + [delta.text];
    } else if kind == Str("response.completed") {
      completed := true;
      if parts == [] {
        var extracted := CompletedOutputText(fields);
        if extracted == None { return Err(InvalidStream); }
        bytes := Utf8Size(extracted.value);
        if bytes > MAX_OUTPUT_BYTES { return Err(OutputTooLarge); }
        parts := [extracted.value];
      }
    } else if kind.Arr? || kind.Obj? {
      return Err(UnhashableType);
    } else if kind == Str("error") || kind == Str("response.failed") || kind == Str("response.incomplete") {
      return Err(NotCompleted);
    }
    return Ok(Reader(parts, bytes, completed));
  }

  method ReadStructuredOutput(parse: JsonParser, lines: seq<string>) returns (r: Result<string, Error>)
    ensures r == Read(parse, lines)
  {
    hide Group, Interpret, Decoded, Applied, Fitting, DataValue, FinishedWith, Join;
    var dataLines: seq<string>, reader, totalBytes := [], START, 0;
    var i := 0;
    EmptyStream(parse);
    assert lines[..0] == [];
    while i < |lines|
      invariant 0 <= i <= |lines|
      invariant totalBytes == StreamSize(lines[..i]) <= MAX_RESPONSE_BYTES
      invariant dataLines == Group(lines[..i]).open_
      invariant Interpret(parse, Group(lines[..i]).payloads) == Ok(reader)
    {
      var line := lines[i];
      assert lines[..i + 1][..i] == lines[..i];
      totalBytes := totalBytes + Utf8Size(line) + 1;
      if totalBytes > MAX_RESPONSE_BYTES {
        FittingAt(lines, i);
        return Err(ResponseTooLarge);
      }
      if line == "" && dataLines != [] {
        DispatchStep(parse, lines, i, reader);
        var applied := Apply(parse, Join(dataLines, "\n"), reader);
        dataLines := [];
        if applied.Err? {
          StopsWith(parse, lines, i + 1, applied.error);
          return Err(applied.error);
        }
        reader := applied.value;
      } else {
        QuietStep(lines, i);
        var value := DataValue(line);
        if line != "" && value.Some? {
          dataLines := dataLines + [value.value];
        }
      }
      i := i + 1;
    }
    assert lines[..i] == lines;
    FittingAt(lines, i);
    if dataLines != [] {
      var last := FinishReading(parse, Join(dataLines, "\n"), reader);
      if last.Err? { return Err(last.error); }
      reader := last.value;
    }
    if !reader.completed || reader.parts == [] { return Err(InvalidStream); }
    return Ok(Concat(reader.parts));
  }

  lemma EmptyStream(parse: JsonParser)
    ensures Group([]) == Grouping([], []) && Interpret(parse, []) == Ok(START) && StreamSize([]) == 0
  {
  }

  method FinishReading(parse: JsonParser, payload: string, reader: Reader) returns (r: Result<Reader, Error>)
    ensures r == FinishedWith(parse, payload, reader)
  {
    var parsed := parse(payload);
    if parsed == None || !parsed.value.Obj? { return Err(InvalidStream); }
    r := Ok(reader);
    if Field(parsed.value.fields, "type") == Str("response.completed") {
      r := Ok(reader.(completed := true));
      if reader.parts == [] {
        var extracted := CompletedOutputText(parsed.value.fields);
        if extracted == None { return Err(InvalidStream); }
        r := Ok(Reader([extracted.value], reader.bytes, true));
      }
    }
  }

  /* ---------- The counter ---------- */

  /** The running counter is the size of the parts, and never exceeds the limit. */
  lemma {:induction false} CounterIsExact(parse: JsonParser, payloads: seq<string>)
    requires Interpret(parse, payloads).Ok?
    ensures var r := Interpret(parse, payloads).value;
            && r.bytes == Utf8Size(Concat(r.parts)) <= MAX_OUTPUT_BYTES
            && (r.completed ==> r.parts != [])
  {
    hide Decoded;
    if payloads != [] {
      var before := payloads[..|payloads| - 1];
      CounterIsExact(parse, before);
      var reader := Interpret(parse, before).value;
      match Decoded(parse, payloads[|payloads| - 1])
      case Some(Delta(text)) =>
        ConcatOne(text);
        ConcatAppend(reader.parts, [text]);
        Utf8SizeAppend(Concat(reader.parts), text);
      case Some(Completion(output)) =>
        if reader.parts == [] { ConcatOne(output.value); }
      case _ =>
    }
  }

  lemma ConcatOne(text: string)
    ensures Concat([text]) == text
  {
  }

  /** The completed event left over at the end of the stream whose text was never measured. */
  predicate UnmeasuredTail(parse: JsonParser, lines: seq<string>)
  {
    var grouping := Group(lines);
    var reader := Interpret(parse, grouping.payloads);
    && reader.Ok? && reader.value.parts == [] && grouping.open_ != []
    && match Decoded(parse, Join(grouping.open_, "\n"))
       case Some(Completion(output)) => output.Some? && Utf8Size(output.value) > MAX_OUTPUT_BYTES
       case _ => false
  }

  /** A successful result is larger than the limit exactly if it is the text of such a left-over event. In
      particular it is not when the last line is blank. */
  lemma OutputWithinLimitExactly(parse: JsonParser, lines: seq<string>)
    requires Read(parse, lines).Ok?
    ensures Utf8Size(Read(parse, lines).value) > MAX_OUTPUT_BYTES <==> UnmeasuredTail(parse, lines)
    ensures lines != [] && lines[|lines| - 1] == "" ==> Utf8Size(Read(parse, lines).value) <= MAX_OUTPUT_BYTES
  {
    hide Decoded, Fitting, Interpret, Join;
    assert lines[..Fitting(lines)] == lines;
    var grouping := Group(lines);
    CounterIsExact(parse, grouping.payloads);
    if grouping.open_ != [] {
      var end := FinishedWith(parse, Join(grouping.open_, "\n"), Interpret(parse, grouping.payloads).value);
      if Interpret(parse, grouping.payloads).value.parts == [] && end.value.parts != [] {
        ConcatOne(end.value.parts[0]);
      }
    }
  }

  /* ---------- The contents ---------- */

  /** The decoded events of the payloads. */
  function Delivered(parse: JsonParser, payloads: seq<string>): seq<Event>
  {
    if payloads == [] then []
    else
      var event := Decoded(parse, payloads[|payloads| - 1]);
      Delivered(parse, payloads[..|payloads| - 1]) + if event.Some? then [event.value] else []
  }

  function Deltas(events: seq<Event>): seq<string>
  {
    if events == [] then []
    else
      var last := events[|events| - 1];
      Deltas(events[..|events| - 1]) + if last.Delta? then [last.text] else []
  }

  /** The position of the first completed event, or the length if there is none. */
  function FirstCompletion(events: seq<Event>): (c: nat)
    ensures c <= |events| && (c < |events| ==> events[c].Completion?)
    ensures forall i | 0 <= i < c :: !events[i].Completion?
  {
    if events == [] then 0
    else
      var before := events[..|events| - 1];
      var c := FirstCompletion(before);
      if c < |before| || !events[|events| - 1].Completion? then (if c < |before| then c else |events|) else |before|
  }

  /** What the events stand for: all deltas, with the first completed event's own text in front if it came before
      any delta. */
  function Meaning(events: seq<Event>): seq<string>
  {
    var c := FirstCompletion(events);
    if c == |events| || Deltas(events[..c]) != [] || events[c].output == None then Deltas(events)
    else [events[c].output.value] + Deltas(events)
  }

  lemma {:induction false} PartsAreMeaning(parse: JsonParser, payloads: seq<string>)
    requires Interpret(parse, payloads).Ok?
    ensures var r, events := Interpret(parse, payloads).value, Delivered(parse, payloads);
            && r.parts == Meaning(events)
            && (r.completed <==> FirstCompletion(events) < |events|)
  {
    hide Decoded;
    if payloads != [] {
      var before := payloads[..|payloads| - 1];
      PartsAreMeaning(parse, before);
      CounterIsExact(parse, before);
      var events, event := Delivered(parse, before), Decoded(parse, payloads[|payloads| - 1]).value;
      MeaningStep(Interpret(parse, before).value, events, event);
    }
  }

  lemma FirstCompletionStep(events: seq<Event>, event: Event)
    ensures FirstCompletion(events + [event]) ==
            var c := FirstCompletion(events);
            if c < |events| then c else if event.Completion? then |events| else |events| + 1
  {
  }

  lemma DeltasStep(events: seq<Event>, event: Event)
    ensures Deltas(events + [event]) == Deltas(events) + if event.Delta? then [event.text] else []
  {
  }

  lemma MeaningBeforeCompletion(events: seq<Event>, event: Event)
    requires FirstCompletion(events) == |events|
    ensures Meaning(events) == Deltas(events)
    ensures event.Delta? ==> Meaning(events + [event]) == Meaning(events) + [event.text]
    ensures event.Completion? && Deltas(events) == [] && event.output.Some? ==>
              Meaning(events + [event]) == [event.output.value]
    ensures !event.Delta? && !(event.Completion? && Deltas(events) == []) ==> Meaning(events + [event]) == Meaning(events)
  {
  }

  lemma MeaningAfterCompletion(events: seq<Event>, event: Event)
    requires FirstCompletion(events) < |events|
    ensures Meaning(events + [event]) == Meaning(events) + if event.Delta? then [event.text] else []
  {
    hide FirstCompletion, Deltas;
    var after, c := events + [event], FirstCompletion(events);
    FirstCompletionStep(events, event);
    DeltasStep(events, event);
    assert after[c] == events[c] && after[..c] == events[..c];
  }

  lemma MeaningStep(reader: Reader, events: seq<Event>, event: Event)
    requires reader.parts == Meaning(events) && (reader.completed <==> FirstCompletion(events) < |events|)
    requires reader.completed ==> reader.parts != []
    requires Applied(reader, event).Ok?
    ensures var r := Applied(reader, event).value;
            r.parts == Meaning(events + [event]) && (r.completed <==> FirstCompletion(events + [event]) < |events| + 1)
  {
    hide FirstCompletion, Deltas, Utf8Size, Meaning;
    FirstCompletionStep(events, event);
    if FirstCompletion(events) < |events| {
      MeaningAfterCompletion(events, event);
    } else {
      MeaningBeforeCompletion(events, event);
    }
  }

  /** A stream that ends at its first completed event yields the concatenation of all deltas, or the completed
      event's own text if there was none. */
  lemma StreamEndingAtCompletion(parse: JsonParser, lines: seq<string>, event: Event)
    requires Read(parse, lines).Ok? && Group(lines).open_ == []
    requires var events := Delivered(parse, Group(lines).payloads);
             events != [] && FirstCompletion(events) == |events| - 1 && event == events[|events| - 1]
    ensures var deltas := Deltas(Delivered(parse, Group(lines).payloads));
            && (deltas != [] ==> Read(parse, lines) == Ok(Concat(deltas)))
            && (deltas == [] ==> event.output.Some? && Read(parse, lines) == Ok(event.output.value))
  {
    hide Fitting, Interpret, Delivered, Group;
    assert lines[..Fitting(lines)] == lines;
    var payloads := Group(lines).payloads;
    PartsAreMeaning(parse, payloads);
    var events := Delivered(parse, payloads);
    if Deltas(events) == [] {
      ConcatOne(if event.output.Some? then event.output.value else "");
      assert event.output.Some? ==> [event.output.value] + [] == [event.output.value];
    }
  }

  /** The same if the stream breaks off right after the data of its first completed event, without the blank line. */
  lemma StreamBreakingOffAtCompletion(parse: JsonParser, lines: seq<string>, output: Option<string>)
    requires Read(parse, lines).Ok? && Group(lines).open_ != []
    requires Decoded(parse, Join(Group(lines).open_, "\n")) == Some(Completion(output))
    requires var events := Delivered(parse, Group(lines).payloads); FirstCompletion(events) == |events|
    ensures var deltas := Deltas(Delivered(parse, Group(lines).payloads));
            && (deltas != [] ==> Read(parse, lines) == Ok(Concat(deltas)))
            && (deltas == [] ==> output.Some? && Read(parse, lines) == Ok(output.value))
  {
    hide Fitting, Interpret, Delivered, Group, Decoded, Join;
    assert lines[..Fitting(lines)] == lines;
    PartsAreMeaning(parse, Group(lines).payloads);
    if output.Some? { ConcatOne(output.value); }
  }

  /** A normal return implies that a completed event was decoded, dispatched or left over at the end. */
  lemma ReturnImpliesCompletion(parse: JsonParser, lines: seq<string>)
    requires Read(parse, lines).Ok?
    ensures var grouping := Group(lines);
            || (exists e :: e in Delivered(parse, grouping.payloads) && e.Completion?)
            || (grouping.open_ != [] && Decoded(parse, Join(grouping.open_, "\n")).Some?
                && Decoded(parse, Join(grouping.open_, "\n")).value.Completion?)
  {
    hide Fitting, Interpret, Delivered, Decoded, Group, Join;
    assert lines[..Fitting(lines)] == lines;
    var payloads := Group(lines).payloads;
    PartsAreMeaning(parse, payloads);
    var events := Delivered(parse, payloads);
    if FirstCompletion(events) < |events| {
      assert events[FirstCompletion(events)] in events;
    }
  }

  /* ---------- When reading succeeds, and how it fails ---------- */

  function SizeOf(events: seq<Event>): nat
  {
    Utf8Size(Concat(Meaning(events)))
  }

  /** What is wrong with the next event after `events` (None: it did not decode), if anything. */
  function Offense(events: seq<Event>, next: Option<Event>): Option<Error>
  {
    match next
    case None => Some(InvalidStream)
    case Some(BadDelta) => Some(InvalidStream)
    case Some(Failure) => Some(NotCompleted)
    case Some(Unhashable) => Some(UnhashableType)
    case Some(Other) => None
    case Some(Delta(text)) => if SizeOf(events) + Utf8Size(text) > MAX_OUTPUT_BYTES then Some(OutputTooLarge) else None
    case Some(Completion(output)) =>
      if Meaning(events) != [] then None
      else if output == None then Some(InvalidStream)
      else if Utf8Size(output.value) > MAX_OUTPUT_BYTES then Some(OutputTooLarge)
      else None
  }

  function OffenseAt(parse: JsonParser, payloads: seq<string>, i: nat): Option<Error>
    requires i < |payloads|
  {
    Offense(Delivered(parse, payloads[..i]), Decoded(parse, payloads[i]))
  }

  /** No event offends. */
  predicate Inoffensive(parse: JsonParser, payloads: seq<string>)
  {
    forall i | 0 <= i < |payloads| :: OffenseAt(parse, payloads, i) == None
  }

  /** Event `i` is the first that offends. */
  predicate OffendsFirst(parse: JsonParser, payloads: seq<string>, i: nat, error: Error)
  {
    i < |payloads| && OffenseAt(parse, payloads, i) == Some(error) && forall j | 0 <= j < i :: OffenseAt(parse, payloads, j) == None
  }

  predicate Completes(events: seq<Event>)
  {
    exists i | 0 <= i < |events| :: events[i].Completion?
  }

  /** The events that count at the end of the stream: those dispatched, and a completion that is left over. */
  function Counted(parse: JsonParser, grouping: Grouping): seq<Event>
  {
    var events := Delivered(parse, grouping.payloads);
    if grouping.open_ == [] then events
    else
      match Decoded(parse, Join(grouping.open_, "\n"))
      case Some(Completion(output)) => events + [Completion(output)]
      case _ => events
  }

  /** What is left over at the end is an event, and if it completes a stream without text, it has one. */
  predicate TailReads(parse: JsonParser, grouping: Grouping)
  {
    grouping.open_ != [] ==>
      match Decoded(parse, Join(grouping.open_, "\n"))
      case None => false
      case Some(Completion(output)) => Meaning(Delivered(parse, grouping.payloads)) != [] || output.Some?
      case Some(_) => true
  }

  lemma AppliedOffends(reader: Reader, events: seq<Event>, event: Event)
    requires reader.parts == Meaning(events) && reader.bytes == SizeOf(events)
    ensures var r := Applied(reader, event);
            if Offense(events, Some(event)) == None then r.Ok? else r == Err(Offense(events, Some(event)).value)
  {
    hide Meaning, Utf8Size, Concat;
  }

  lemma {:induction false} InterpretExactly(parse: JsonParser, payloads: seq<string>)
    ensures Inoffensive(parse, payloads) <==> Interpret(parse, payloads).Ok?
    ensures Interpret(parse, payloads).Ok? ==>
              var r, events := Interpret(parse, payloads).value, Delivered(parse, payloads);
              r.parts == Meaning(events) && r.bytes == SizeOf(events) && (r.completed <==> Completes(events))
    ensures Interpret(parse, payloads).Err? ==>
              exists i :: OffendsFirst(parse, payloads, i, Interpret(parse, payloads).error)
    decreases |payloads|
  {
    hide Decoded, Applied, Offense, Meaning, Delivered, Concat, Utf8Size;
    if Interpret(parse, payloads).Ok? {
      PartsAreMeaning(parse, payloads);
      CounterIsExact(parse, payloads);
      CompletesExactly(Delivered(parse, payloads));
    }
    if payloads != [] {
      var n := |payloads| - 1;
      var before := payloads[..n];
      InterpretExactly(parse, before);
      forall i: nat | i < n ensures OffenseAt(parse, payloads, i) == OffenseAt(parse, before, i) {
        assert payloads[..i] == before[..i];
      }
      if Interpret(parse, before).Ok? {
        if Decoded(parse, payloads[n]).Some? {
          AppliedOffends(Interpret(parse, before).value, Delivered(parse, before), Decoded(parse, payloads[n]).value);
        } else {
          UndecodedOffends(Delivered(parse, before));
        }
        if Interpret(parse, payloads).Err? {
          assert OffendsFirst(parse, payloads, n, Interpret(parse, payloads).error);
        }
      } else {
        var error := Interpret(parse, before).error;
        var i :| OffendsFirst(parse, before, i, error);
        assert OffendsFirst(parse, payloads, i, error);
      }
    }
  }

  lemma UndecodedOffends(events: seq<Event>)
    ensures Offense(events, None) == Some(InvalidStream)
  {
  }

  lemma CompletesExactly(events: seq<Event>)
    ensures FirstCompletion(events) < |events| <==> Completes(events)
  {
  }

  /** Only one event offends first. */
  lemma OneOffends(parse: JsonParser, payloads: seq<string>, i: nat, e: Error, j: nat, f: Error)
    requires OffendsFirst(parse, payloads, i, e) && OffendsFirst(parse, payloads, j, f)
    ensures i == j && e == f
  {
    hide Offense;
  }

  /** Reading fails with the error of the first event that offends among the lines within the response limit; else at that
      limit, if there are more lines; else it succeeds exactly if what is left over reads and a completion was dispatched
      or is left over, and then gives what the events stand for. */
  lemma ReadExactly(parse: JsonParser, lines: seq<string>)
    ensures var n := Fitting(lines);
            var grouping := Group(lines[..n]);
            && (forall i, error | OffendsFirst(parse, grouping.payloads, i, error) :: Read(parse, lines) == Err(error))
            && (Inoffensive(parse, grouping.payloads)
                || exists i, error :: OffendsFirst(parse, grouping.payloads, i, error))
            && (Inoffensive(parse, grouping.payloads) ==>
                  Read(parse, lines) ==
                  if n < |lines| then Err(ResponseTooLarge)
                  else if TailReads(parse, grouping) && Completes(Counted(parse, grouping))
                  then Ok(Concat(Meaning(Counted(parse, grouping))))
                  else Err(InvalidStream))
  {
    hide Fitting, Group, Interpret, OffendsFirst, Inoffensive, TailReads, Counted, Completes, Finished, Meaning, Concat,
      Delivered;
    var n := Fitting(lines);
    var grouping := Group(lines[..n]);
    InterpretExactly(parse, grouping.payloads);
    forall i, error | OffendsFirst(parse, grouping.payloads, i, error) ensures Read(parse, lines) == Err(error) {
      OffendersAreNot(parse, grouping.payloads, i, error);
      var j :| OffendsFirst(parse, grouping.payloads, j, Interpret(parse, grouping.payloads).error);
      OneOffends(parse, grouping.payloads, i, error, j, Interpret(parse, grouping.payloads).error);
    }
    if Inoffensive(parse, grouping.payloads) && n == |lines| {
      CounterIsExact(parse, grouping.payloads);
      EndsExactly(parse, grouping, Interpret(parse, grouping.payloads).value);
    }
  }

  lemma OffendersAreNot(parse: JsonParser, payloads: seq<string>, i: nat, error: Error)
    requires OffendsFirst(parse, payloads, i, error)
    ensures !Inoffensive(parse, payloads)
  {
    hide Offense;
  }

  lemma EndsExactly(parse: JsonParser, grouping: Grouping, reader: Reader)
    requires var events := Delivered(parse, grouping.payloads);
             && reader.parts == Meaning(events) && (reader.completed <==> Completes(events))
    requires reader.completed ==> reader.parts != []
    ensures var end := Finished(parse, reader, grouping.open_);
            (if end.Err? then Err(end.error) else Output(end.value)) ==
            if TailReads(parse, grouping) && Completes(Counted(parse, grouping))
            then Ok(Concat(Meaning(Counted(parse, grouping))))
            else Err(InvalidStream)
  {
    hide Decoded, Delivered, Join, Meaning, Concat, Completes;
    var events := Delivered(parse, grouping.payloads);
    if grouping.open_ != [] && Decoded(parse, Join(grouping.open_, "\n")).Some?
       && Decoded(parse, Join(grouping.open_, "\n")).value.Completion? {
      CompletionAppends(events, Decoded(parse, Join(grouping.open_, "\n")).value);
    }
  }

  /** A completion at the end only counts if there was nothing before it. */
  lemma CompletionAppends(events: seq<Event>, event: Event)
    requires event.Completion?
    ensures Completes(events + [event])
    ensures Meaning(events) != [] ==> Meaning(events + [event]) == Meaning(events)
    ensures Meaning(events) == [] && event.output.Some? && !Completes(events) ==> Meaning(events + [event]) == [event.output.value]
  {
    hide Meaning;
    assert (events + [event])[|events|].Completion?;
    CompletesExactly(events);
    if FirstCompletion(events) < |events| {
      MeaningAfterCompletion(events, event);
    } else {
      MeaningBeforeCompletion(events, event);
    }
  }

  /* ---------- Framing ---------- */

  /** A line of a printed event: a data line, or a line of another field or a comment. */
  datatype Item = Data(value: string) | Noise(line: string)

  predicate Printable(item: Item)
  {
    match item
    case Data(value) => LStrip(value) == value && value != "[DONE]"
    case Noise(line) => line != "" && !StartsWith(line, "data:")
  }

  function Printed(item: Item): string
  {
    match item
    case Data(value) => "data: " + value
    case Noise(line) => line
  }

  function Values(items: seq<Item>): seq<string>
  {
    if items == [] then []
    else
      var last := items[|items| - 1];
      Values(items[..|items| - 1]) + if last.Data? then [last.value] else []
  }

  function PrintedAll(items: seq<Item>): seq<string>
  {
    if items == [] then [] else PrintedAll(items[..|items| - 1]) + [Printed(items[|items| - 1])]
  }

  /** Each event's lines and the blank line after them. */
  function Frames(events: seq<seq<Item>>): seq<string>
  {
    if events == [] then [] else Frames(events[..|events| - 1]) + PrintedAll(events[|events| - 1]) + [""]
  }

  function Payloads(events: seq<seq<Item>>): seq<string>
  {
    if events == [] then []
    else
      var values := Values(events[|events| - 1]);
      Payloads(events[..|events| - 1]) + if values == [] then [] else [Join(values, "\n")]
  }

  predicate AllPrintable(items: seq<Item>)
  {
    forall i | 0 <= i < |items| :: Printable(items[i])
  }

  lemma ItemValue(item: Item)
    requires Printable(item)
    ensures Printed(item) != "" && DataValue(Printed(item)) == if item.Data? then Some(item.value) else None
  {
    hide LStrip;
    if item.Data? {
      var line := Printed(item);
      assert line[..5] == "data:" && line[5..] == " " + item.value;
      BlankBefore(item.value);
    }
  }

  lemma BlankBefore(value: string)
    ensures LStrip(" " + value) == LStrip(value)
  {
    LStripUnfold(" " + value);
    hide LStrip;
    assert (" " + value)[0] == ' ' && (" " + value)[1..] == value;
  }

  lemma GroupLine(lines: seq<string>, line: string)
    requires line != ""
    ensures Group(lines + [line]) ==
            var value := DataValue(line);
            if value == None then Group(lines) else Group(lines).(open_ := Group(lines).open_ + [value.value])
  {
    assert (lines + [line])[..|lines|] == lines;
  }

  lemma {:induction false} ItemsGather(lines: seq<string>, items: seq<Item>)
    requires AllPrintable(items) && Group(lines).open_ == []
    ensures Group(lines + PrintedAll(items)) == Grouping(Group(lines).payloads, Values(items))
    decreases |items|
  {
    hide Printable, Printed, DataValue, Group;
    if items == [] {
      assert lines + [] == lines;
    } else {
      var n := |items| - 1;
      ItemsGather(lines, items[..n]);
      ItemValue(items[n]);
      GroupLine(lines + PrintedAll(items[..n]), Printed(items[n]));
      assert lines + PrintedAll(items) == lines + PrintedAll(items[..n]) + [Printed(items[n])];
    }
  }

  /** Grouping undoes the framing of section 9.2.5 of the WHATWG HTML standard: any events printed with data lines,
      other fields and comments in any order come back as their data, joined by line feeds. */
  lemma {:induction false} FramingRoundTrip(events: seq<seq<Item>>)
    requires forall e | 0 <= e < |events| :: AllPrintable(events[e])
    ensures Group(Frames(events)) == Grouping(Payloads(events), [])
    decreases |events|
  {
    hide AllPrintable, Join, DataValue;
    if events != [] {
      var n := |events| - 1;
      var before := Frames(events[..n]);
      FramingRoundTrip(events[..n]);
      ItemsGather(before, events[n]);
      var all := Frames(events);
      assert all[..|all| - 1] == before + PrintedAll(events[n]) && all[|all| - 1] == "";
    }
  }

  /** The value that section 9.2.6 of the WHATWG HTML standard gives a data line: one leading space removed. */
  function StandardValue(line: string): string
    requires StartsWith(line, "data:")
  {
    var value := line[5..];
    if value != "" && value[0] == ' ' then value[1..] else value
  }

  /** The reader agrees with the standard exactly on values without further leading white space, but for "[DONE]". */
  lemma ValueIsStandardExactly(line: string)
    requires StartsWith(line, "data:")
    ensures DataValue(line) == Some(StandardValue(line))
            <==> (StandardValue(line) == "" || !IsSpace(StandardValue(line)[0])) && StandardValue(line) != "[DONE]"
  {
    var value, standard := line[5..], StandardValue(line);
    assert LStrip(value) == LStrip(standard);
    if standard != "" && IsSpace(standard[0]) {
      assert LStrip(standard) != standard;
    }
  }
}
