/** The client side of one completion exchange (src/api/chat.ts): projecting a
    conversation onto the wire, merging the request settings, consuming the streamed
    response line by line, and the role-sequence check.
    The network is a parameter: `Response` is what the endpoint answered, its body the
    already-decoded text chunks in arrival order and how the reading ended. */
module ChatApi {
  import opened Types
  import opened Framing
  import opened Groups

  // ---------------------------------------------------------------------------
  // Request side

  /** One `{role, content}` entry of the request. An absent content is a field that
      JSON serialisation leaves out. */
  datatype WireMessage = WireMessage(role: Role, content: Option<string>)

  /** A partial character configuration, one optional field per setting. */
  datatype ConfigFields = ConfigFields(
    name: Option<string>,
    avatar: Option<string>,
    systemPrompt: Option<string>,
    temperature: Option<real>,
    topP: Option<real>,
    model: Option<string>)

  const DefaultModel := "qwen2_5-14b-instruct"
  const DefaultTemperature: real := 0.8
  const DefaultTopP: real := 0.7

  const DefaultConfig := ConfigFields(None, None, None, Some(DefaultTemperature), Some(DefaultTopP), Some(DefaultModel))

  datatype ApiRequestBody = ApiRequestBody(
    messages: seq<WireMessage>,
    model: string,
    temperature: real,
    topP: real,
    stream: bool)

  /** `group.messages[group.currentIndex]` names a variant. */
  predicate Selectable(g: ChatGroup) {
    0 <= g.currentIndex < |g.messages|
  }

  function Projected(g: ChatGroup): WireMessage
    requires Selectable(g)
  {
    var m := g.messages[g.currentIndex];
    WireMessage(m.role, Some(m.content))
  }

  /** The active-variant projection of a conversation. Reading a variant that is not there
      throws, so the projection exists only when every group's index is in range. */
  function ActiveProjection(history: seq<ChatGroup>): (r: Option<seq<WireMessage>>)
    ensures r.Some? <==> forall i :: 0 <= i < |history| ==> Selectable(history[i])
    ensures r.Some? ==> |r.value| == |history| && forall i :: 0 <= i < |history| ==> r.value[i] == Projected(history[i])
  {
    if history == [] then Some([])
    else if !Selectable(history[0]) then None
    else match ActiveProjection(history[1..])
      case None => None
      case Some(rest) => Some([Projected(history[0])] + rest)
  }

  /** formatMessages: one entry per group, in group order, from the group's current variant. */
  method FormatMessages(history: seq<ChatGroup>) returns (formatted: Option<seq<WireMessage>>)
    ensures formatted == ActiveProjection(history)
  {
    var out: seq<WireMessage> := [];
    for i := 0 to |history|
      invariant |out| == i
      invariant forall j :: 0 <= j < i ==> Selectable(history[j]) && out[j] == Projected(history[j])
    {
      var group := history[i];
      if !(0 <= group.currentIndex < |group.messages|) {
        // `currentMsg.role` on a missing variant: the exchange fails before any request.
        return None;
      }
      var currentMsg := group.messages[group.currentIndex];
      out := out + [WireMessage(currentMsg.role, Some(currentMsg.content))];
    }
    assert forall j :: 0 <= j < |history| ==> Selectable(history[j]);
    var projection := ActiveProjection(history);
    assert projection.value == out;
    return Some(out);
  }

  /** `{...defaults, ...config}`: every field the caller gives wins, the others come from the defaults. */
  function MergeConfig(defaults: ConfigFields, config: ConfigFields): (r: ConfigFields)
    ensures config.name.Some? ==> r.name == config.name
    ensures config.name.None? ==> r.name == defaults.name
    ensures config.avatar.Some? ==> r.avatar == config.avatar
    ensures config.avatar.None? ==> r.avatar == defaults.avatar
    ensures config.systemPrompt.Some? ==> r.systemPrompt == config.systemPrompt
    ensures config.systemPrompt.None? ==> r.systemPrompt == defaults.systemPrompt
    ensures config.temperature.Some? ==> r.temperature == config.temperature
    ensures config.temperature.None? ==> r.temperature == defaults.temperature
    ensures config.topP.Some? ==> r.topP == config.topP
    ensures config.topP.None? ==> r.topP == defaults.topP
    ensures config.model.Some? ==> r.model == config.model
    ensures config.model.None? ==> r.model == defaults.model
  {
    ConfigFields(
      Override(defaults.name, config.name),
      Override(defaults.avatar, config.avatar),
      Override(defaults.systemPrompt, config.systemPrompt),
      Override(defaults.temperature, config.temperature),
      Override(defaults.topP, config.topP),
      Override(defaults.model, config.model))
  }

  function Override<T>(base: Option<T>, over: Option<T>): Option<T> {
    if over.Some? then over else base
  }

  /** The request body: the first entry is replaced by a system entry carrying the configured
      prompt, the rest of the projection follows from its second entry on. */
  function RequestBody(formatted: seq<WireMessage>, finalConfig: ConfigFields): (body: ApiRequestBody)
    requires finalConfig.model.Some? && finalConfig.temperature.Some? && finalConfig.topP.Some?
    ensures |body.messages| == if |formatted| == 0 then 1 else |formatted|
    ensures body.messages[0] == WireMessage(System, finalConfig.systemPrompt)
    ensures forall i :: 1 <= i < |body.messages| ==> body.messages[i] == formatted[i]
    ensures body.model == finalConfig.model.value
    ensures body.temperature == finalConfig.temperature.value && body.topP == finalConfig.topP.value
    ensures body.stream
  {
    var tail := if |formatted| == 0 then [] else formatted[1..];
    ApiRequestBody(
      [WireMessage(System, finalConfig.systemPrompt)] + tail,
      finalConfig.model.value,
      finalConfig.temperature.value,
      finalConfig.topP.value,
      true)
  }

  /** What streamChat posts for `history` and `config`; nothing when the projection fails. */
  function BuildRequest(history: seq<ChatGroup>, config: ConfigFields): (r: Option<ApiRequestBody>)
    ensures r.Some? <==> forall i :: 0 <= i < |history| ==> Selectable(history[i])
    ensures r.Some? ==>
      && |r.value.messages| == (if |history| == 0 then 1 else |history|)
      && r.value.messages[0] == WireMessage(System, config.systemPrompt)
      && (forall i :: 1 <= i < |history| ==> r.value.messages[i] == Projected(history[i]))
      && r.value.model == (if config.model.Some? then config.model.value else DefaultModel)
      && r.value.temperature == (if config.temperature.Some? then config.temperature.value else DefaultTemperature)
      && r.value.topP == (if config.topP.Some? then config.topP.value else DefaultTopP)
      && r.value.stream
  {
    match ActiveProjection(history)
    case None => None
    case Some(formatted) => Some(RequestBody(formatted, MergeConfig(DefaultConfig, config)))
  }

  /** The first group's own variant is never sent: histories that differ only there give
      the same request. */
  lemma FirstGroupContentIgnored(h1: seq<ChatGroup>, h2: seq<ChatGroup>, config: ConfigFields)
    requires |h1| == |h2| > 0 && h1[1..] == h2[1..]
    requires Selectable(h1[0]) && Selectable(h2[0])
    ensures BuildRequest(h1, config) == BuildRequest(h2, config)
  {
    var r1, r2 := BuildRequest(h1, config), BuildRequest(h2, config);
    if r1.Some? {
      forall i | 1 <= i < |h1| ensures h1[i] == h2[i] {
        assert h1[i] == h1[1..][i - 1];
      }
      assert r2.Some?;
      assert r1.value.messages == r2.value.messages;
    } else {
      forall i | 1 <= i < |h1| ensures h1[i] == h2[i] {
        assert h1[i] == h1[1..][i - 1];
      }
    }
  }

  // ---------------------------------------------------------------------------
  // Response side

  /** Why the error callback fires: the projection threw, the request could not be sent,
      the status was not OK, there was no body, or a read of the body failed. */
  datatype StreamError = MalformedHistory | Unreachable | HttpStatus(status: int) | NullBody | ReadFailed

  /** The callbacks the exchange fires, in order. */
  datatype Event = Token(text: string) | Complete | Error(cause: StreamError)

  /** The chunks a body delivered, in arrival order, and whether the read after the last
      of them failed instead of reporting the end of the body. */
  datatype Body = Body(chunks: seq<string>, failed: bool)

  /** What the endpoint did with the request: `fetch` rejected, or an answer with its
      status and its body, if any. */
  datatype Response = Refused | Answered(ok: bool, status: int, body: Option<Body>)

  const DataPrefix := "data: "
  const DoneSentinel := "[DONE]"

  /** The events one complete line produces. Lines without the data prefix are ignored;
      the sentinel completes; any other payload yields its delta when it is a non-empty
      string. `extract` reads `choices[0].delta.content` from a payload and answers None
      when the payload does not parse or has no such string. */
  function LineEvents(line: string, extract: string -> Option<string>): (r: seq<Event>)
    ensures |r| <= 1 && (r == [] || !r[0].Error?)
  {
    if !StartsWith(line, DataPrefix) then []
    else
      var data := line[|DataPrefix|..];
      if Trim(data) == DoneSentinel then [Complete]
      else match extract(data)
        case Some(content) => if content != "" then [Token(content)] else []
        case None => []
  }

  /** The events of a sequence of lines, line after line. */
  function LinesEvents(lines: seq<string>, extract: string -> Option<string>): (r: seq<Event>)
    ensures |r| <= |lines|
    ensures forall i :: 0 <= i < |r| ==> !r[i].Error?
  {
    if lines == [] then [] else LineEvents(lines[0], extract) + LinesEvents(lines[1..], extract)
  }

  lemma {:induction false} LinesEventsAppend(a: seq<string>, b: seq<string>, extract: string -> Option<string>)
    ensures LinesEvents(a + b, extract) == LinesEvents(a, extract) + LinesEvents(b, extract)
  {
    if a == [] {
      assert a + b == b;
    } else {
      assert (a + b)[1..] == a[1..] + b;
      LinesEventsAppend(a[1..], b, extract);
    }
  }

  /** The last event of a body: the completion of the physical end, or the error of a
      failed read. */
  function EndEvent(body: Body): Event {
    if body.failed then Error(ReadFailed) else Complete
  }

  /** The events of a body: those of every complete line of the text received, then its end. */
  function ReadEvents(body: Body, extract: string -> Option<string>): seq<Event> {
    LinesEvents(CompleteLines(Concat(body.chunks)), extract) + [EndEvent(body)]
  }

  /** Everything one call of streamChat reports. */
  function ExchangeEvents(history: seq<ChatGroup>, config: ConfigFields, response: Response,
                          extract: string -> Option<string>): (r: seq<Event>)
    ensures BuildRequest(history, config).None? ==> r == [Error(MalformedHistory)]
    ensures BuildRequest(history, config).Some? && response.Refused? ==> r == [Error(Unreachable)]
    ensures BuildRequest(history, config).Some? && response.Answered? && !response.ok ==>
      r == [Error(HttpStatus(response.status))]
    ensures BuildRequest(history, config).Some? && response.Answered? && response.ok && response.body.None? ==>
      r == [Error(NullBody)]
    ensures BuildRequest(history, config).Some? && response.Answered? && response.ok && response.body.Some? ==>
      r == ReadEvents(response.body.value, extract)
    // A failure before the body is read is reported alone; an error is always the last event,
    // and every exchange ends with a completion or an error.
    ensures !(response.Answered? && response.ok && response.body.Some?) ==> |r| == 1 && r[0].Error?
    ensures forall i :: 0 <= i < |r| && r[i].Error? ==> i == |r| - 1
    ensures |r| > 0 && (r[|r| - 1].Complete? || r[|r| - 1].Error?)
  {
    if BuildRequest(history, config).None? then [Error(MalformedHistory)]
    else match response
      case Refused => [Error(Unreachable)]
      case Answered(ok, status, body) =>
        if !ok then [Error(HttpStatus(status))]
        else match body
          case None => [Error(NullBody)]
          case Some(b) => ReadEvents(b, extract)
  }

  /** streamChat: build and post the request, then read the body chunk by chunk, keeping the
      unterminated tail in `buffer` and dispatching every complete line as it arrives. */
  method StreamChat(history: seq<ChatGroup>, config: ConfigFields, response: Response,
                    extract: string -> Option<string>)
    returns (request: Option<ApiRequestBody>, events: seq<Event>)
    ensures request == BuildRequest(history, config)
    ensures events == ExchangeEvents(history, config, response, extract)
  {
    var formatted := FormatMessages(history);
    if formatted.None? {
      return None, [Error(MalformedHistory)];
    }
    var finalConfig := MergeConfig(DefaultConfig, config);
    request := Some(RequestBody(formatted.value, finalConfig));
    if response.Refused? {
      return request, [Error(Unreachable)];
    }
    if !response.ok {
      return request, [Error(HttpStatus(response.status))];
    }
    if response.body.None? {
      return request, [Error(NullBody)];
    }
    events := ReadBody(response.body.value, extract);
  }

  /** The reading loop of streamChat: append each chunk to the buffer, split it, keep the
      last piece as the new buffer and dispatch the others; at the end of the body report
      completion, and when a read fails report the error (the buffer is then dropped).
      The events depend only on the text received, not on where the chunks were cut. */
  method ReadBody(body: Body, extract: string -> Option<string>) returns (events: seq<Event>)
    ensures events == ReadEvents(body, extract)
  {
    var chunks := body.chunks;
    var buffer := "";
    ghost var dispatched: seq<string> := [];
    events := [];
    var i := 0;
    while true
      invariant 0 <= i <= |chunks|
      invariant '\n' !in buffer && NoNewlines(dispatched)
      invariant Terminated(dispatched) + buffer == Concat(chunks[..i])
      invariant events == LinesEvents(dispatched, extract)
      decreases |chunks| - i
    {
      if i == |chunks| {
        if body.failed {
          events := events + [Error(ReadFailed)];
        } else {
          events := events + [Complete];
        }
        break;
      }
      ghost var buffer0 := buffer;
      buffer := buffer + chunks[i];
      var parts := Split(buffer);
      buffer := parts[|parts| - 1];
      var lines := parts[..|parts| - 1];
      assert NoNewlines(lines);
      var batch := DispatchLines(lines, extract);
      LinesEventsAppend(dispatched, lines, extract);
      events := events + batch;
      BufferStep(chunks, i, dispatched, buffer0, lines, buffer);
      dispatched := dispatched + lines;
      i := i + 1;
    }
    assert chunks[..i] == chunks;
    LinesOfFramedText(dispatched, buffer);
  }

  /** Dispatch the complete lines split off one buffer, in order. The sentinel reports
      completion and the loop moves on to the next line: it does not stop reading. */
  method DispatchLines(lines: seq<string>, extract: string -> Option<string>) returns (events: seq<Event>)
    ensures events == LinesEvents(lines, extract)
  {
    events := [];
    for j := 0 to |lines|
      invariant events == LinesEvents(lines[..j], extract)
    {
      var line := lines[j];
      LinesEventsStep(lines[..j], line, extract);
      assert lines[..j + 1] == lines[..j] + [line];
      ghost var expected := events + LineEvents(line, extract);
      if StartsWith(line, DataPrefix) {
        var data := line[|DataPrefix|..];
        if Trim(data) == DoneSentinel {
          events := events + [Complete];
          assert events == expected;
          continue;
        }
        var content := extract(data);
        if content.Some? && content.value != "" {
          events := events + [Token(content.value)];
          assert events == expected;
        } else {
          assert events == expected;
        }
      } else {
        assert events == expected;
      }
    }
    assert lines[..|lines|] == lines;
  }

  lemma LinesEventsStep(lines: seq<string>, line: string, extract: string -> Option<string>)
    ensures LinesEvents(lines + [line], extract) == LinesEvents(lines, extract) + LineEvents(line, extract)
  {
    LinesEventsAppend(lines, [line], extract);
    assert LinesEvents([line], extract) == LineEvents(line, extract) + LinesEvents([], extract);
  }

  /** One more chunk: when the buffer with the chunk appended is framed as `lines` and a
      newline-free `last`, the lines join the dispatched ones and `last` is the new buffer. */
  lemma BufferStep(chunks: seq<string>, i: nat, dispatched: seq<string>, buffer: string,
                   lines: seq<string>, last: string)
    requires i < |chunks|
    requires NoNewlines(dispatched) && Terminated(dispatched) + buffer == Concat(chunks[..i])
    requires NoNewlines(lines) && Terminated(lines) + last == buffer + chunks[i]
    ensures NoNewlines(dispatched + lines)
    ensures Terminated(dispatched + lines) + last == Concat(chunks[..i + 1])
  {
    TerminatedAppend(dispatched, lines);
    assert chunks[..i + 1][..i] == chunks[..i];
    var d := Terminated(dispatched);
    assert d + Terminated(lines) + last == d + (Terminated(lines) + last);
    assert d + (buffer + chunks[i]) == (d + buffer) + chunks[i];
  }

  // ---------------------------------------------------------------------------
  // Properties of the consumer

  /** Each line contributes its own events at its own place among the others. */
  lemma LineInContext(before: seq<string>, line: string, after: seq<string>, extract: string -> Option<string>)
    ensures LinesEvents(before + [line] + after, extract)
         == LinesEvents(before, extract) + LineEvents(line, extract) + LinesEvents(after, extract)
  {
    LinesEventsAppend(before + [line], after, extract);
    LinesEventsStep(before, line, extract);
  }

  /** The sentinel produces a completion but does not stop the reading: the lines after it
      are still dispatched. */
  lemma DoneDoesNotStopReading(before: seq<string>, payload: string, after: seq<string>,
                               extract: string -> Option<string>)
    requires Trim(payload) == DoneSentinel
    ensures LinesEvents(before + [DataPrefix + payload] + after, extract)
         == LinesEvents(before, extract) + [Complete] + LinesEvents(after, extract)
  {
    var line := DataPrefix + payload;
    assert line[|DataPrefix|..] == payload;
    assert LineEvents(line, extract) == [Complete];
    LineInContext(before, line, after, extract);
  }

  /** A payload that does not parse, or whose delta is missing or empty, produces nothing and
      does not stop the reading. */
  lemma FailingPayloadSkipped(before: seq<string>, data: string, after: seq<string>,
                              extract: string -> Option<string>)
    requires Trim(data) != DoneSentinel && (extract(data).None? || extract(data) == Some(""))
    ensures LinesEvents(before + [DataPrefix + data] + after, extract)
         == LinesEvents(before, extract) + LinesEvents(after, extract)
  {
    var line := DataPrefix + data;
    assert line[|DataPrefix|..] == data;
    assert LineEvents(line, extract) == [];
    LineInContext(before, line, after, extract);
  }

  /** A payload with a non-empty delta produces exactly one token carrying it, in line order. */
  lemma DeltaBecomesToken(before: seq<string>, data: string, delta: string, after: seq<string>,
                          extract: string -> Option<string>)
    requires Trim(data) != DoneSentinel && extract(data) == Some(delta) && delta != ""
    ensures LinesEvents(before + [DataPrefix + data] + after, extract)
         == LinesEvents(before, extract) + [Token(delta)] + LinesEvents(after, extract)
  {
    var line := DataPrefix + data;
    assert line[|DataPrefix|..] == data;
    assert LineEvents(line, extract) == [Token(delta)];
    LineInContext(before, line, after, extract);
  }

  /** A body whose text is one terminated line reports that line's events, then its end. */
  lemma OneLineRead(body: Body, line: string, extract: string -> Option<string>)
    requires '\n' !in line && Concat(body.chunks) == line + "\n"
    ensures ReadEvents(body, extract) == LineEvents(line, extract) + [EndEvent(body)]
  {
    assert Terminated([line]) + "" == Concat(body.chunks);
    LinesOfFramedText([line], "");
    LinesEventsStep([], line, extract);
    assert [] + [line] == [line];
  }

  /** So a body that is only the sentinel line, and then ends, reports completion twice:
      once for the sentinel and once for the physical end. */
  lemma DoneThenEndCompletesTwice(body: Body, extract: string -> Option<string>)
    requires Concat(body.chunks) == DataPrefix + DoneSentinel + "\n" && !body.failed
    ensures ReadEvents(body, extract) == [Complete, Complete]
  {
    var line := DataPrefix + DoneSentinel;
    OneLineRead(body, line, extract);
    assert line[|DataPrefix|..] == DoneSentinel;
    TrimUnpadded(DoneSentinel);
  }

  /** A data line split across any number of chunks still yields its delta once, whole,
      before the end of the body; when the next read fails, the token has already been
      reported and the error follows it. */
  lemma TokenSplitAcrossChunks(body: Body, payload: string, delta: string,
                               extract: string -> Option<string>)
    requires Concat(body.chunks) == DataPrefix + payload + "\n" && '\n' !in payload
    requires Trim(payload) != DoneSentinel && extract(payload) == Some(delta) && delta != ""
    ensures ReadEvents(body, extract) == [Token(delta), EndEvent(body)]
    ensures body.failed ==> ReadEvents(body, extract) == [Token(delta), Error(ReadFailed)]
  {
    var line := DataPrefix + payload;
    assert '\n' !in line;
    OneLineRead(body, line, extract);
    assert line[|DataPrefix|..] == payload;
  }

  /** Text after the last newline is never dispatched: the events are those of the complete
      lines before it, then the end of the body. */
  lemma UnterminatedTextDiscarded(body: Body, lines: seq<string>, tail: string,
                                  extract: string -> Option<string>)
    requires NoNewlines(lines) && '\n' !in tail && Concat(body.chunks) == Terminated(lines) + tail
    ensures ReadEvents(body, extract) == LinesEvents(lines, extract) + [EndEvent(body)]
  {
    LinesOfFramedText(lines, tail);
  }

  /** Lines without the data prefix produce nothing. */
  lemma {:induction false} NonDataLinesSilent(lines: seq<string>, extract: string -> Option<string>)
    requires forall i :: 0 <= i < |lines| ==> !StartsWith(lines[i], DataPrefix)
    ensures LinesEvents(lines, extract) == []
  {
    if lines != [] {
      NonDataLinesSilent(lines[1..], extract);
    }
  }

  /** A corollary of the contract of ReadBody, whose loop consumes the chunks one at a time:
      two bodies that deliver the same text and end the same way report the same events,
      wherever the chunks were cut. */
  lemma ChunkBoundariesIrrelevant(b1: Body, b2: Body, extract: string -> Option<string>)
    requires Concat(b1.chunks) == Concat(b2.chunks) && b1.failed == b2.failed
    ensures ReadEvents(b1, extract) == ReadEvents(b2, extract)
  {
  }

  /** A conversation the chat store keeps well formed always projects: its request exists,
      so streaming it never reports the malformed-history error, and every entry but the
      first carries the role of its group. */
  lemma WellFormedConversationProjects(groups: seq<ChatGroup>, config: ConfigFields, response: Response,
                                       extract: string -> Option<string>)
    requires WellFormed(groups)
    ensures ActiveProjection(groups).Some?
    ensures forall i :: 0 <= i < |groups| ==> ActiveProjection(groups).value[i].role == groups[i].role
    ensures BuildRequest(groups, config).Some?
    ensures ExchangeEvents(groups, config, response, extract) != [Error(MalformedHistory)]
  {
    assert forall i :: 0 <= i < |groups| ==> Selectable(groups[i]) by {
      forall i | 0 <= i < |groups| ensures Selectable(groups[i]) {
        assert GroupWellFormed(groups[i]);
      }
    }
    forall i | 0 <= i < |groups| ensures ActiveProjection(groups).value[i].role == groups[i].role {
      assert GroupWellFormed(groups[i]);
      var g := groups[i];
      assert g.messages[g.currentIndex].role == g.role;
    }
  }

  // ---------------------------------------------------------------------------
  // validateMessageSequence

  /** The role a well-formed sequence has at position `i`: the system prompt first, then
      user on odd positions and assistant on even ones. */
  function ExpectedRole(i: nat): Role {
    if i == 0 then System else if i % 2 == 1 then User else Assistant
  }

  /** validateMessageSequence: accepts exactly the role sequences system, user, assistant,
      user, assistant, ... (including the empty one). */
  method ValidateMessageSequence(history: seq<ChatGroup>) returns (ok: bool)
    ensures ok <==> forall i :: 0 <= i < |history| ==> history[i].role == ExpectedRole(i)
  {
    if |history| == 0 {
      return true;
    }
    if history[0].role != System {
      return false;
    }
    var i := 1;
    while i < |history|
      invariant 1 <= i <= |history|
      invariant forall j :: 0 <= j < i ==> history[j].role == ExpectedRole(j)
    {
      var currentRole := history[i].role;
      var prevRole := history[i - 1].role;
      if currentRole == System { return false; }
      if currentRole == prevRole { return false; }
      if currentRole == Assistant && prevRole != User { return false; }
      if currentRole == User && prevRole != Assistant && prevRole != System { return false; }
      i := i + 1;
    }
    return true;
  }

  /** An accepted sequence opens with the system prompt and never repeats a role, which is
      the shape the chat store's group rule keeps. */
  lemma AcceptedSequenceAlternates(history: seq<ChatGroup>)
    requires forall i :: 0 <= i < |history| ==> history[i].role == ExpectedRole(i)
    ensures |history| > 0 ==> history[0].role == System
    ensures forall i :: 0 < i < |history| ==> history[i].role != history[i - 1].role
  {
    forall i | 0 < i < |history| ensures history[i].role != history[i - 1].role {
      assert history[i].role == ExpectedRole(i) && history[i - 1].role == ExpectedRole(i - 1);
    }
  }

  /** The last test of the loop never fires: a user role that passed the earlier tests
      already follows an assistant or the system prompt. */
  lemma UserPredecessorTestRedundant(prevRole: Role, currentRole: Role)
    requires currentRole != System && currentRole != prevRole
    requires currentRole == Assistant ==> prevRole == User
    ensures currentRole == User ==> prevRole == Assistant || prevRole == System
  {
  }
}
