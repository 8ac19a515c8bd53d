/**
 * The analysis endpoint (`POST /api/generate`): it forwards the prompt to
 * the chat-completions service and relays the reply as a stream. The relay
 * reads the reply chunk by chunk, carries an incomplete last line over in a
 * buffer, and for every complete line of the form `data: <json>` (other
 * than `data: [DONE]`) emits `choices[0].delta.content`, or '' when that is
 * missing. A line whose payload does not parse is skipped.
 */
module GenerateRoute {
  import opened Js
  import opened Strings

  const DataPrefix := "data: "
  const DoneLine := "data: [DONE]"
  const UpstreamFailure := "GPT API 요청 실패"
  const FallbackFailure := "분석에 실패했습니다."

  /** A line the relay handles: a `data: ` line that is not the end marker. */
  predicate IsDataLine(line: string) {
    StartsWith(line, DataPrefix) && line != DoneLine
  }

  /**
   * `choices[0].delta.content` read off the parsed payload key by key:
   * undefined as soon as a step finds no object or no such key.
   */
  function ChoiceContent(fields: map<string, Value>): Value {
    var choices := Field(fields, "choices");
    if choices.Arr? && |choices.items| > 0 && choices.items[0].Obj? then
      var delta := Field(choices.items[0].fields, "delta");
      if delta.Obj? then Field(delta.fields, "content") else Undefined
    else Undefined
  }

  /**
   * What one line contributes to the stream. `jsonParse` is `JSON.parse`
   * (None: it throws). None: the line is not handled, its payload does
   * not parse, or reading `json.choices[0]` throws; the error is logged and
   * the line skipped.
   */
  function EmitLine(line: string, jsonParse: string -> Option<Value>): (r: Option<Value>)
    ensures r.Some? ==> IsDataLine(line) && jsonParse(line[|DataPrefix|..]).Some?
    ensures r.Some? ==> r.value == Str("") || Truthy(r.value)
    ensures (&& IsDataLine(line) && jsonParse(line[|DataPrefix|..]).Some?
             && jsonParse(line[|DataPrefix|..]).value.Obj?
             && Field(jsonParse(line[|DataPrefix|..]).value.fields, "choices").Arr?) ==> r.Some?
    ensures IsDataLine(line) ==>
      var payload := jsonParse(line[|DataPrefix|..]);
      payload.Some? && payload.value.Obj? && Field(payload.value.fields, "choices").Arr? ==>
        var content := ChoiceContent(payload.value.fields);
        && (Truthy(content) ==> r == Some(content))
        && (!Truthy(content) ==> r == Some(Str("")))
  {
    if !IsDataLine(line) then None
    else
      match jsonParse(line[|DataPrefix|..])
      case None => None
      case Some(json) =>
        match Member(json, "choices")
        case None => None
        case Some(choices) =>
          match First(choices)
          case None => None
          case Some(choice) => Some(Or(OptionalMember(OptionalMember(choice, "delta"), "content"), Str("")))
  }

  /** The values the relay enqueues for a run of complete lines, in order. */
  function EmitAll(lines: seq<string>, jsonParse: string -> Option<Value>): (out: seq<Value>)
    ensures |out| <= |lines|
    decreases |lines|
  {
    if |lines| == 0 then []
    else
      var init := EmitAll(lines[..|lines| - 1], jsonParse);
      match EmitLine(lines[|lines| - 1], jsonParse)
      case Some(v) => init + [v]
      case None => init
  }

  /**
   * The whole stream: the lines of all the text received, except the last
   * piece, which is never followed by a line break and is never processed.
   */
  function Stream(chunks: seq<string>, jsonParse: string -> Option<Value>): seq<Value> {
    var lines := Split(Concat(chunks), '\n');
    EmitAll(lines[..|lines| - 1], jsonParse)
  }

  /**
   * The `ReadableStream.start` loop. Chunks arrive already decoded. After
   * the loop the carried buffer is the text after the last line break, and
   * the values enqueued are exactly the stream of the complete lines.
   */
  method Relay(chunks: seq<string>, jsonParse: string -> Option<Value>) returns (emitted: seq<Value>, buffer: string)
    ensures '\n' !in buffer
    ensures var lines := Split(Concat(chunks), '\n'); buffer == lines[|lines| - 1]
    ensures emitted == Stream(chunks, jsonParse)
  {
    emitted := [];
    buffer := "";
    ghost var done: seq<string> := [];
    var k := 0;
    while k < |chunks|
      invariant 0 <= k <= |chunks|
      invariant '\n' !in buffer
      invariant forall i :: 0 <= i < |done| ==> '\n' !in done[i]
      invariant Join(done + [buffer], "\n") == Concat(chunks[..k])
      invariant emitted == EmitAll(done, jsonParse)
    {
      var lines := Split(buffer + chunks[k], '\n');
      AdvanceChunk(done, buffer, chunks, k);
      emitted := EmitLines(emitted, done, lines[..|lines| - 1], jsonParse);
      done := done + lines[..|lines| - 1];
      buffer := lines[|lines| - 1];
      k := k + 1;
    }
    assert chunks[..k] == chunks;
    SplitUnique(done + [buffer], '\n');
    assert (done + [buffer])[..|done|] == done;
  }

  /** One turn of the relay loop keeps the carried text equal to the text received. */
  lemma AdvanceChunk(done: seq<string>, buffer: string, chunks: seq<string>, k: nat)
    requires k < |chunks|
    requires forall i :: 0 <= i < |done| ==> '\n' !in done[i]
    requires Join(done + [buffer], "\n") == Concat(chunks[..k])
    ensures var lines := Split(buffer + chunks[k], '\n');
      var done' := done + lines[..|lines| - 1];
      && |lines| >= 1
      && (forall i :: 0 <= i < |done'| ==> '\n' !in done'[i])
      && Join(done' + [lines[|lines| - 1]], "\n") == Concat(chunks[..k + 1])
  {
    var lines := Split(buffer + chunks[k], '\n');
    CarryChunk(done, buffer, chunks[k]);
    ConcatSnoc(chunks[..k], chunks[k]);
    assert chunks[..k + 1] == chunks[..k] + [chunks[k]];
    var done' := done + lines[..|lines| - 1];
    assert done' + [lines[|lines| - 1]] == done + lines;
    NoBreakAppended(done, lines[..|lines| - 1]);
  }

  /** Lines without a line break, followed by more of them. */
  lemma NoBreakAppended(done: seq<string>, more: seq<string>)
    requires forall i :: 0 <= i < |done| ==> '\n' !in done[i]
    requires forall i :: 0 <= i < |more| ==> '\n' !in more[i]
    ensures forall i :: 0 <= i < |done + more| ==> '\n' !in (done + more)[i]
  {
    forall i | 0 <= i < |done + more| ensures '\n' !in (done + more)[i] {
      if i >= |done| {
        assert (done + more)[i] == more[i - |done|];
      }
    }
  }

  /**
   * One chunk: the buffer and the chunk, split at the line breaks, extend
   * the lines already processed by exactly the chunk's text.
   */
  lemma CarryChunk(done: seq<string>, buffer: string, chunk: string)
    ensures var lines := Split(buffer + chunk, '\n');
      && Join(done + lines, "\n") == Join(done + [buffer], "\n") + chunk
      && |lines| >= 1
      && lines == lines[..|lines| - 1] + [lines[|lines| - 1]]
  {
    var lines := Split(buffer + chunk, '\n');
    JoinSplit(buffer + chunk, '\n');
    assert ['\n'] == "\n";
    JoinAfter(done, lines, "\n");
    JoinAfter(done, [buffer], "\n");
    var lead := JoinLead(done, "\n");
    assert lead + (buffer + chunk) == (lead + buffer) + chunk;
    assert lines == lines[..|lines| - 1] + [lines[|lines| - 1]];
  }

  /** The inner `for` loop: the lines of one chunk, enqueued after what was enqueued before. */
  method EmitLines(emitted: seq<Value>, ghost done: seq<string>, lines: seq<string>, jsonParse: string -> Option<Value>)
    returns (out: seq<Value>)
    requires emitted == EmitAll(done, jsonParse)
    ensures out == EmitAll(done + lines, jsonParse)
  {
    out := emitted;
    var j := 0;
    assert done + lines[..0] == done;
    while j < |lines|
      invariant 0 <= j <= |lines|
      invariant out == EmitAll(done + lines[..j], jsonParse)
    {
      assert (done + lines[..j + 1])[..|done| + j] == done + lines[..j];
      var line := EmitLine(lines[j], jsonParse);
      if line.Some? {
        out := out + [line.value];
      }
      j := j + 1;
    }
    assert lines[..j] == lines;
  }

  /** A last line without a line break after it is never relayed, even a well-formed data line. */
  lemma UnterminatedLineDropped(line: string, jsonParse: string -> Option<Value>)
    requires '\n' !in line
    ensures Stream([line], jsonParse) == []
  {
    assert [line][1..] == [];
    assert Concat([line]) == line;
    SplitWithoutSeparator(line, '\n');
    assert Split(Concat([line]), '\n')[..0] == [];
  }

  /** A complete data line whose payload carries a content string relays exactly that string. */
  lemma ContentRelayed(text: string, payload: string, content: string, jsonParse: string -> Option<Value>,
                       fields: map<string, Value>)
    requires '\n' !in payload && text == DataPrefix + payload + "\n"
    requires DataPrefix + payload != DoneLine
    requires jsonParse(payload) == Some(Obj(fields)) && Field(fields, "choices").Arr?
    requires ChoiceContent(fields) == Str(content)
    ensures Stream([text], jsonParse) == [Str(content)]
  {
    var line := DataPrefix + payload;
    assert '\n' !in DataPrefix;
    assert '\n' !in line;
    assert Concat([text]) == text + Concat([]);
    assert text == line + "\n" + "";
    SplitUnique([line, ""], '\n');
    assert Join([line, ""], "\n") == line + "\n" + "";
    assert line[..|DataPrefix|] == DataPrefix;
    assert line[|DataPrefix|..] == payload;
    assert Split(text, '\n')[..1] == [line];
  }

  /**
   * A reply with no `data: ` line relays nothing. The request asks for a
   * whole (non-streamed) completion, whose body is one JSON object and
   * carries no such line, so the stream the endpoint returns is empty.
   */
  lemma NoDataLineNoOutput(chunks: seq<string>, jsonParse: string -> Option<Value>)
    requires forall line :: line in Split(Concat(chunks), '\n') ==> !StartsWith(line, DataPrefix)
    ensures Stream(chunks, jsonParse) == []
  {
    var lines := Split(Concat(chunks), '\n');
    var complete := lines[..|lines| - 1];
    forall i | 0 <= i < |complete| ensures !IsDataLine(complete[i]) {
      assert complete[i] in lines;
    }
    NothingEmitted(complete, jsonParse);
  }

  /** Lines none of which the relay handles contribute nothing. */
  lemma {:induction false} NothingEmitted(lines: seq<string>, jsonParse: string -> Option<Value>)
    requires forall i :: 0 <= i < |lines| ==> !IsDataLine(lines[i])
    ensures EmitAll(lines, jsonParse) == []
    decreases |lines|
  {
    if |lines| > 0 {
      NothingEmitted(lines[..|lines| - 1], jsonParse);
    }
  }

  /** The reply of the endpoint: the relayed stream, or a 500 whose JSON body names the error. */
  datatype Response = EventStream(contents: seq<Value>) | Failure(status: int, body: Value)

  /** What the upstream service answered: whether its status was ok, and its body in chunks. */
  datatype Upstream = Upstream(ok: bool, chunks: seq<string>)

  /** `{ error: error instanceof Error ? error.message : '분석에 실패했습니다.' }`; None: a thrown non-Error. */
  function ErrorBody(message: Option<string>): (body: Value)
    ensures body.Obj? && body.fields.Keys == {"error"}
    ensures body.fields["error"] == Str(if message.Some? then message.value else FallbackFailure)
  {
    Obj(map["error" := Str(if message.Some? then message.value else FallbackFailure)])
  }

  /**
   * POST. `upstream` is the call to the service: its answer, or what it
   * (or reading the request) threw. A non-ok answer is a 500 with the
   * service-failure message; an ok answer is streamed.
   */
  method Post(upstream: Result<Upstream, Option<string>>, jsonParse: string -> Option<Value>) returns (response: Response)
    ensures upstream.Err? ==> response == Failure(500, ErrorBody(upstream.error))
    ensures upstream.Ok? && !upstream.value.ok ==> response == Failure(500, ErrorBody(Some(UpstreamFailure)))
    ensures upstream.Ok? && upstream.value.ok ==> response == EventStream(Stream(upstream.value.chunks, jsonParse))
  {
    match upstream {
      case Err(thrown) =>
        response := Failure(500, ErrorBody(thrown));
      case Ok(answer) =>
        if !answer.ok {
          response := Failure(500, ErrorBody(Some(UpstreamFailure)));
        } else {
          var emitted, _ := Relay(answer.chunks, jsonParse);
          response := EventStream(emitted);
        }
    }
  }
}
