/**
 The MCP client and server on top of the frames: request ids, the client's wait for a
 response, the server's read loop, and the correlation of the two over every run.
 */
module McpProtocol {
  import opened Wrappers
  import opened Sequences
  import opened JsonRpc

  // One line as a reader sees it.
  datatype Line = BlankLine | Malformed | Message(m: RpcMessage)

  datatype ClientError =
    | Remote(code: I64, message: string)
    | Closed
    | BadFrame
    | UnexpectedResponseId(expected: I64, actual: I64)

  type Answer = Result<Json, ClientError>

  datatype Reaction = Ignore | Finish(answer: Answer)

  // What the client does with one message while it waits for a response, with the id it
  // expects; the handshake expects no particular one. The id of an error response is never
  // looked at.
  function React(expected: Option<I64>, m: RpcMessage): Reaction {
    match m
    case ResultResponse(rid, result) =>
      Finish(if expected.Some? && rid != expected.value then Err(UnexpectedResponseId(expected.value, rid))
             else Ok(result))
    case ErrorResponse(_, error) => Finish(Err(Remote(error.code, error.message)))
    case Request(_, _, _) => Ignore
    case Notification(_, _) => Ignore
  }

  // Waiting for a response: the answer, and the lines not read.
  function Await(expected: Option<I64>, inbox: seq<Line>): (Answer, seq<Line>)
    decreases |inbox|
  {
    if inbox == [] then (Err(Closed), [])
    else match inbox[0]
      case BlankLine => Await(expected, inbox[1..])
      case Malformed => (Err(BadFrame), inbox[1..])
      case Message(m) =>
        match React(expected, m)
        case Ignore => Await(expected, inbox[1..])
        case Finish(answer) => (answer, inbox[1..])
  }

  const LAST_ID: I64 := 0x7fff_ffff_ffff_ffff

  // The id after the last is the smallest, in a build that does not check overflow.
  function IdAfter(id: I64): I64 {
    if id == LAST_ID then -0x8000_0000_0000_0000 else id + 1
  }

  class McpClient {
    // Whether the build checks integer overflow.
    const overflowChecks: bool
    var nextId: I64
    var outbox: seq<RpcMessage>
    // Everything the transport will deliver until it closes.
    var inbox: seq<Line>

    constructor (inbox: seq<Line>, overflowChecks: bool)
      ensures nextId == 1 && outbox == [] && this.inbox == inbox && this.overflowChecks == overflowChecks
    {
      this.overflowChecks, nextId, outbox, this.inbox := overflowChecks, 1, [], inbox;
    }

    // No further id can be given out.
    ghost predicate Exhausted()
      reads this
    {
      overflowChecks && nextId == LAST_ID
    }

    method AwaitResponse(expected: Option<I64>) returns (answer: Answer)
      modifies this`inbox
      ensures (answer, inbox) == Await(expected, old(inbox))
    {
      while inbox != []
        invariant Await(expected, inbox) == Await(expected, old(inbox))
        decreases |inbox|
      {
        var line := inbox[0];
        inbox := inbox[1..];
        match line {
          case BlankLine =>
          case Malformed => return Err(BadFrame);
          case Message(m) =>
            match React(expected, m) {
              case Ignore =>
              case Finish(a) => return a;
            }
        }
      }
      answer := Err(Closed);
    }

    // None is the overflow panic, before anything is sent.
    method SendRequest(verb: string, params: Option<Json>) returns (answer: Option<Answer>)
      modifies this
      ensures old(Exhausted()) ==>
                answer.None? && nextId == old(nextId) && outbox == old(outbox) && inbox == old(inbox)
      ensures !old(Exhausted()) ==>
                && answer.Some? && nextId == IdAfter(old(nextId))
                && outbox == old(outbox) + [Request(old(nextId), verb, params)]
                && (answer.value, inbox) == Await(Some(old(nextId)), old(inbox))
    {
      var id := nextId;
      if overflowChecks && id == LAST_ID {
        return None;
      }
      nextId := IdAfter(id);
      outbox := outbox + [Request(id, verb, params)];
      var a := AwaitResponse(Some(id));
      answer := Some(a);
    }

    // The handshake is a request whose response may carry any id, and then a notification.
    method InitializeHandshake(params: Json) returns (answer: Option<Answer>)
      modifies this
      ensures old(Exhausted()) ==>
                answer.None? && nextId == old(nextId) && outbox == old(outbox) && inbox == old(inbox)
      ensures !old(Exhausted()) ==>
                && answer.Some? && nextId == IdAfter(old(nextId))
                && (answer.value, inbox) == Await(None, old(inbox))
                && outbox == old(outbox) + [Request(old(nextId), "initialize", Some(params))]
                             + if answer.value.Ok? then [Notification("notifications/initialized", None)] else []
    {
      var id := nextId;
      if overflowChecks && id == LAST_ID {
        return None;
      }
      nextId := IdAfter(id);
      outbox := outbox + [Request(id, "initialize", Some(params))];
      var a := AwaitResponse(None);
      if a.Ok? {
        outbox := outbox + [Notification("notifications/initialized", None)];
      }
      answer := Some(a);
    }
  }

  predicate IsResponse(m: RpcMessage) {
    m.ResultResponse? || m.ErrorResponse?
  }

  // Lines that a waiting client passes over.
  ghost predicate Noise(lines: seq<Line>) {
    forall i | 0 <= i < |lines| :: lines[i].BlankLine? || (lines[i].Message? && !IsResponse(lines[i].m))
  }

  /** Whatever notifications, requests and blank lines arrive first, the client ends with the
      first response in the stream. */
  lemma {:induction false} AwaitSkipsNoise(expected: Option<I64>, noise: seq<Line>, m: RpcMessage, rest: seq<Line>)
    requires Noise(noise) && IsResponse(m)
    ensures Await(expected, noise + [Message(m)] + rest) == (React(expected, m).answer, rest)
    decreases |noise|
  {
    var inbox := noise + [Message(m)] + rest;
    if noise == [] {
      assert inbox[1..] == rest;
    } else {
      assert inbox[1..] == noise[1..] + [Message(m)] + rest;
      AwaitSkipsNoise(expected, noise[1..], m, rest);
    }
  }

  // ------------------------------------------------------------------------ server

  type Failure = (I64, string)

  datatype Handlers = Handlers(serverInfo: Json, tools: Json, callTool: Option<Json> -> Result<Json, Failure>)

  // grant_initialize: the protocol version must be a non-empty string.
  function GrantInitialize(h: Handlers, params: Option<Json>): Result<Json, Failure> {
    var version := if params.Some? && params.value.Obj? then StrOf(params.value.fields, "protocolVersion") else None;
    if version == None || version == Some("") then Err((-32602, "missing protocolVersion")) else Ok(h.serverInfo)
  }

  // The parameters are an object whose protocol version is a non-empty string.
  predicate NamesVersion(params: Option<Json>) {
    && params.Some? && params.value.Obj? && "protocolVersion" in params.value.fields
    && params.value.fields["protocolVersion"].Str? && params.value.fields["protocolVersion"].text != ""
  }

  function Dispatch(h: Handlers, verb: string, params: Option<Json>): Result<Json, Failure> {
    if verb == "initialize" then GrantInitialize(h, params)
    else if verb == "tools/list" then Ok(h.tools)
    else if verb == "tools/call" then h.callTool(params)
    else Err((-32601, "method not found: " + verb))
  }

  function HandleRequest(h: Handlers, req: RpcMessage): (r: RpcMessage)
    requires req.Request?
    ensures IsResponse(r) && r.id == req.id
    ensures req.verb == "tools/list" ==> r == ResultResponse(req.id, h.tools)
    ensures req.verb == "initialize" ==>
              r == if NamesVersion(req.params) then ResultResponse(req.id, h.serverInfo)
                   else ErrorResponse(req.id, RpcError(-32602, "missing protocolVersion", None))
    ensures req.verb == "tools/call" ==>
              match h.callTool(req.params)
              case Ok(value) => r == ResultResponse(req.id, value)
              case Err((code, message)) => r == ErrorResponse(req.id, RpcError(code, message, None))
    ensures req.verb !in {"initialize", "tools/list", "tools/call"} ==>
              r == ErrorResponse(req.id, RpcError(-32601, "method not found: " + req.verb, None))
  {
    match Dispatch(h, req.verb, req.params)
    case Ok(value) => ResultResponse(req.id, value)
    case Err((code, message)) => ErrorResponse(req.id, RpcError(code, message, None))
  }

  // The requests a server gets to see: those before the first malformed line.
  function Requests(lines: seq<Line>): seq<RpcMessage> {
    if lines == [] || lines[0].Malformed? then []
    else (if lines[0].Message? && lines[0].m.Request? then [lines[0].m] else []) + Requests(lines[1..])
  }

  ghost predicate AllRequests(ms: seq<RpcMessage>) {
    forall i | 0 <= i < |ms| :: ms[i].Request?
  }

  function Ids(ms: seq<RpcMessage>): seq<int> {
    if ms == [] then [] else [if ms[0].Notification? then 0 else ms[0].id] + Ids(ms[1..])
  }

  function Responses(h: Handlers, reqs: seq<RpcMessage>): seq<RpcMessage>
    requires AllRequests(reqs)
  {
    if reqs == [] then [] else [HandleRequest(h, reqs[0])] + Responses(h, reqs[1..])
  }

  // McpServer::serve: the responses written, and whether the input ended cleanly.
  method Serve(h: Handlers, lines: seq<Line>) returns (written: seq<RpcMessage>, clean: bool)
    ensures AllRequests(Requests(lines))
    ensures written == Responses(h, Requests(lines))
    ensures clean <==> forall i | 0 <= i < |lines| :: !lines[i].Malformed?
  {
    RequestsOnly(lines);
    written := [];
    assert lines[0..] == lines;
    Concat0(Responses(h, Requests(lines)));
    for i := 0 to |lines|
      invariant forall j | 0 <= j < i :: !lines[j].Malformed?
      invariant AllRequests(Requests(lines[i..]))
      invariant written + Responses(h, Requests(lines[i..])) == Responses(h, Requests(lines))
    {
      RequestsStep(lines, i);
      match lines[i]
      case BlankLine =>
      case Malformed =>
        Concat0(written);
        return written, false;
      case Message(m) =>
        if m.Request? {
          ResponsesCons(h, m, Requests(lines[i + 1..]), written);
          written := written + [HandleRequest(h, m)];
        }
    }
    Concat0(written);
    clean := true;
  }

  lemma {:induction false} RequestsStep(lines: seq<Line>, i: nat)
    requires i < |lines|
    ensures AllRequests(Requests(lines[i + 1..]))
    ensures Requests(lines[i..])
            == if lines[i].Malformed? then []
               else if lines[i].Message? && lines[i].m.Request? then [lines[i].m] + Requests(lines[i + 1..])
               else Requests(lines[i + 1..])
  {
    assert lines[i..][1..] == lines[i + 1..];
    RequestsOnly(lines[i + 1..]);
    Concat0(Requests(lines[i + 1..]));
  }

  lemma {:induction false} ResponsesCons(h: Handlers, req: RpcMessage, reqs: seq<RpcMessage>, written: seq<RpcMessage>)
    requires req.Request? && AllRequests(reqs)
    ensures var all := [req] + reqs;
            && AllRequests(all)
            && written + Responses(h, all) == (written + [HandleRequest(h, req)]) + Responses(h, reqs)
  {
    assert ([req] + reqs)[1..] == reqs;
    Concat3(written, [HandleRequest(h, req)], Responses(h, reqs));
  }

  lemma {:induction false} RequestsOnly(lines: seq<Line>)
    ensures AllRequests(Requests(lines))
  {
    if lines != [] {
      RequestsOnly(lines[1..]);
    }
  }

  /** What the server gets to see, said without reading line by line: a request on any line before
      the first malformed one stands after the requests before it and before those behind it; no
      other message adds any; and nothing behind a malformed line is seen. */
  lemma {:induction false} RequestsAround(before: seq<Line>, line: Line, rest: seq<Line>)
    requires forall i | 0 <= i < |before| :: !before[i].Malformed?
    ensures Requests(before + ([line] + rest))
            == Requests(before)
               + (match line
                  case Malformed => []
                  case BlankLine => Requests(rest)
                  case Message(m) => (if m.Request? then [m] else []) + Requests(rest))
    decreases |before|
  {
    if before == [] {
      Concat0([line] + rest);
      assert ([line] + rest)[1..] == rest;
      Concat0(Requests(rest));
      Concat0(Requests([line] + rest));
    } else {
      TailOfAppend(before, [line] + rest);
      RequestsAround(before[1..], line, rest);
      Concat3(if before[0].Message? && before[0].m.Request? then [before[0].m] else [], Requests(before[1..]),
              match line
              case Malformed => []
              case BlankLine => Requests(rest)
              case Message(m) => (if m.Request? then [m] else []) + Requests(rest));
    }
  }

  /** The server answers every request it sees exactly once, in order, with its own id: it is a
      FIFO peer in the sense of the runs below. */
  lemma {:induction false} ServerAnswersInOrder(h: Handlers, reqs: seq<RpcMessage>)
    requires AllRequests(reqs)
    ensures Ids(Responses(h, reqs)) == Ids(reqs) && |Responses(h, reqs)| == |reqs|
    ensures forall i | 0 <= i < |reqs| :: Responses(h, reqs)[i] == HandleRequest(h, reqs[i])
  {
    if reqs != [] {
      ServerAnswersInOrder(h, reqs[1..]);
      assert forall i | 0 < i < |reqs| :: reqs[i] == reqs[1..][i - 1];
      assert ([HandleRequest(h, reqs[0])] + Responses(h, reqs[1..]))[1..] == Responses(h, reqs[1..]);
    }
  }

  // --------------------------------------- client and peer over two FIFO channels

  // Waiting for the response to `id`, checking its id or (in the handshake) not.
  datatype Waiting = Idle | Awaiting(id: I64, checked: bool) {
    function Expected(): Option<I64>
      requires Awaiting?
    {
      if checked then Some(id) else None
    }
  }

  type Body = Result<Json, RpcError>

  // The peer's answer to one request.
  datatype Answered = Answered(id: I64, body: Body)

  // What one request came to.
  datatype Completed = Completed(id: I64, checked: bool, outcome: Answer)

  datatype System = System(nextId: I64, client: Waiting, toServer: seq<I64>, toClient: seq<Line>,
                           answered: seq<Answered>, completed: seq<Completed>)

  // One step of the client, the peer, or a channel; any order is possible.
  datatype Action =
    | Send(checked: bool)           // the client issues its next request
    | Receive                       // the client reads one line
    | Emit(line: Line)              // the peer sends a line that is no response, possibly malformed
    | Reply(body: Body)             // the peer answers its oldest request

  const INITIAL := System(1, Idle, [], [], [], [])

  predicate CarriesResponse(line: Line) {
    line.Message? && IsResponse(line.m)
  }

  function ResponseFor(a: Answered): RpcMessage {
    match a.body
    case Ok(result) => ResultResponse(a.id, result)
    case Err(error) => ErrorResponse(a.id, error)
  }

  // What reading one line does to a waiting client.
  function ReactToLine(expected: Option<I64>, line: Line): Reaction {
    match line
    case BlankLine => Ignore
    case Malformed => Finish(Err(BadFrame))
    case Message(m) => React(expected, m)
  }

  function Step(s: System, a: Action): System {
    match a
    case Send(checked) =>
      if s.client.Idle? && s.nextId < LAST_ID
      then s.(nextId := s.nextId + 1, client := Awaiting(s.nextId, checked), toServer := s.toServer + [s.nextId])
      else s
    case Receive =>
      if s.client.Idle? || s.toClient == [] then s
      else
        var s' := s.(toClient := s.toClient[1..]);
        (match ReactToLine(s.client.Expected(), s.toClient[0])
         case Ignore => s'
         case Finish(answer) =>
           s'.(client := Idle, completed := s.completed + [Completed(s.client.id, s.client.checked, answer)]))
    case Emit(line) => if CarriesResponse(line) then s else s.(toClient := s.toClient + [line])
    case Reply(body) =>
      if s.toServer == [] then s
      else
        var a := Answered(s.toServer[0], body);
        s.(toServer := s.toServer[1..], toClient := s.toClient + [Message(ResponseFor(a))],
           answered := s.answered + [a])
  }

  function Run(s: System, actions: seq<Action>): System
    decreases |actions|
  {
    if actions == [] then s else Run(Step(s, actions[0]), actions[1..])
  }

  // The responses under way to the client.
  function Pending(lines: seq<Line>): seq<RpcMessage> {
    if lines == [] then [] else (if CarriesResponse(lines[0]) then [lines[0].m] else []) + Pending(lines[1..])
  }

  lemma {:induction false} PendingAppend(lines: seq<Line>, line: Line)
    ensures Pending(lines + [line]) == Pending(lines) + if CarriesResponse(line) then [line.m] else []
  {
    if lines == [] {
      assert lines + [line] == [line];
      assert Pending([line][1..]) == [];
    } else {
      assert (lines + [line])[1..] == lines[1..] + [line];
      PendingAppend(lines[1..], line);
      var first := if CarriesResponse(lines[0]) then [lines[0].m] else [];
      var last := if CarriesResponse(line) then [line.m] else [];
      Concat3(first, Pending(lines[1..]), last);
    }
  }

  // How many requests were given up at a malformed line; each leaves its response unread.
  function Lost(cs: seq<Completed>): (n: nat)
    ensures n <= |cs|
  {
    if cs == [] then 0
    else Lost(cs[..|cs| - 1]) + if cs[|cs| - 1].outcome == Err(BadFrame) then 1 else 0
  }

  // What a request ends with when it reads this answer, its own or another's.
  function Reads(id: I64, checked: bool, a: Answered): Answer {
    match a.body
    case Ok(result) => if checked && a.id != id then Err(UnexpectedResponseId(id, a.id)) else Ok(result)
    case Err(error) => Err(Remote(error.code, error.message))
  }

  // The i-th request ended at a malformed line, or read the next answer nobody had read.
  ghost predicate Accounted(cs: seq<Completed>, answered: seq<Answered>, i: nat)
    requires i < |cs|
  {
    && cs[i].id == i + 1
    && (cs[i].outcome == Err(BadFrame)
        || (&& i - Lost(cs[..i]) < |answered|
            && cs[i].outcome == Reads(i + 1, cs[i].checked, answered[i - Lost(cs[..i])])))
  }

  ghost predicate AllAccounted(cs: seq<Completed>, answered: seq<Answered>) {
    forall i | 0 <= i < |cs| :: Accounted(cs, answered, i)
  }

  ghost predicate AnswersInOrder(answered: seq<Answered>) {
    forall i | 0 <= i < |answered| :: answered[i].id == i + 1
  }

  // Ids from `from` up, in order.
  ghost predicate CountsFrom(ids: seq<I64>, from: int) {
    forall i | 0 <= i < |ids| :: ids[i] == from + i
  }

  function ResponsesFor(answers: seq<Answered>): seq<RpcMessage> {
    if answers == [] then [] else [ResponseFor(answers[0])] + ResponsesFor(answers[1..])
  }

  lemma {:induction false} ResponsesForAppend(answers: seq<Answered>, a: Answered)
    ensures ResponsesFor(answers + [a]) == ResponsesFor(answers) + [ResponseFor(a)]
  {
    if answers == [] {
      Concat0([a]);
      assert [a][1..] == [];
    } else {
      TailOfAppend(answers, [a]);
      ResponsesForAppend(answers[1..], a);
      Concat3([ResponseFor(answers[0])], ResponsesFor(answers[1..]), [ResponseFor(a)]);
    }
  }

  // The responses under way are exactly the answers not read, oldest first.
  ghost predicate Underway(lines: seq<Line>, answered: seq<Answered>, read: int) {
    0 <= read <= |answered| && Pending(lines) == ResponsesFor(answered[read..])
  }

  ghost predicate Invariant(s: System) {
    && AllAccounted(s.completed, s.answered) && AnswersInOrder(s.answered)
    && CountsFrom(s.toServer, |s.answered| + 1) && |s.answered| + |s.toServer| == s.nextId - 1
    && s.nextId == |s.completed| + (if s.client.Idle? then 1 else 2)
    && (s.client.Awaiting? ==> s.client.id == |s.completed| + 1)
    && Underway(s.toClient, s.answered, |s.completed| - Lost(s.completed))
  }

  lemma {:induction false} StepKeepsInvariant(s: System, a: Action)
    requires Invariant(s)
    ensures Invariant(Step(s, a))
  {
    match a
    case Send(checked) => SendKeepsInvariant(s, checked);
    case Receive => ReceiveKeepsInvariant(s);
    case Emit(line) => EmitKeepsInvariant(s, line);
    case Reply(body) => ReplyKeepsInvariant(s, body);
  }

  lemma SendKeepsInvariant(s: System, checked: bool)
    requires Invariant(s)
    ensures Invariant(Step(s, Send(checked)))
  {
  }

  lemma {:induction false} EmitKeepsInvariant(s: System, line: Line)
    requires Invariant(s)
    ensures Invariant(Step(s, Emit(line)))
  {
    if !CarriesResponse(line) {
      PendingAppend(s.toClient, line);
      Concat0(Pending(s.toClient));
    }
  }

  lemma {:induction false} LostAppend(cs: seq<Completed>, c: Completed)
    ensures Lost(cs + [c]) == Lost(cs) + if c.outcome == Err(BadFrame) then 1 else 0
  {
    assert (cs + [c])[..|cs|] == cs;
  }

  lemma {:induction false} AccountedAppend(cs: seq<Completed>, answered: seq<Answered>, c: Completed)
    requires AllAccounted(cs, answered) && c.id == |cs| + 1
    requires || c.outcome == Err(BadFrame)
             || (&& |cs| - Lost(cs) < |answered|
                 && c.outcome == Reads(c.id, c.checked, answered[|cs| - Lost(cs)]))
    ensures AllAccounted(cs + [c], answered)
  {
    var all := cs + [c];
    forall i | 0 <= i < |all|
      ensures Accounted(all, answered, i)
    {
      CutAppend(cs, [c], if i < |cs| then i else |cs|);
      if i < |cs| {
        assert Accounted(cs, answered, i) && all[..i] == cs[..i];
      } else {
        assert all[..i] == cs;
      }
    }
  }

  lemma {:induction false} AccountedMore(cs: seq<Completed>, answered: seq<Answered>, a: Answered)
    requires AllAccounted(cs, answered)
    ensures AllAccounted(cs, answered + [a])
  {
    forall i | 0 <= i < |cs|
      ensures Accounted(cs, answered + [a], i)
    {
      assert Accounted(cs, answered, i);
    }
  }

  lemma {:induction false} UnderwayNext(lines: seq<Line>, answered: seq<Answered>, read: int)
    requires lines != [] && Underway(lines, answered, read)
    ensures if CarriesResponse(lines[0])
            then && read < |answered| && lines[0].m == ResponseFor(answered[read])
                 && Underway(lines[1..], answered, read + 1)
            else Underway(lines[1..], answered, read)
  {
    if CarriesResponse(lines[0]) {
      var unread := answered[read..];
      assert Pending(lines)[0] == lines[0].m && Pending(lines)[1..] == Pending(lines[1..]);
      assert ResponsesFor(unread)[1..] == ResponsesFor(unread[1..]);
      assert unread[1..] == answered[read + 1..];
    } else {
      Concat0(Pending(lines[1..]));
    }
  }

  lemma {:induction false} ReceiveKeepsInvariant(s: System)
    requires Invariant(s)
    ensures Invariant(Step(s, Receive))
  {
    if s.client.Awaiting? && s.toClient != [] {
      var line, read := s.toClient[0], |s.completed| - Lost(s.completed);
      UnderwayNext(s.toClient, s.answered, read);
      if CarriesResponse(line) {
        var outcome := Reads(s.client.id, s.client.checked, s.answered[read]);
        ResponseIsRead(s.client, s.answered[read]);
        CompletionKeepsInvariant(s, outcome);
      } else if line.Malformed? {
        CompletionKeepsInvariant(s, Err(BadFrame));
      } else {
        assert ReactToLine(s.client.Expected(), line) == Ignore;
      }
    }
  }

  lemma ResponseIsRead(client: Waiting, a: Answered)
    requires client.Awaiting?
    ensures ReactToLine(client.Expected(), Message(ResponseFor(a))) == Finish(Reads(client.id, client.checked, a))
  {
  }

  // The first line under way ends the request with this outcome.
  lemma {:induction false} CompletionKeepsInvariant(s: System, outcome: Answer)
    requires Invariant(s) && s.client.Awaiting? && s.toClient != []
    requires var read := |s.completed| - Lost(s.completed);
             || (outcome == Err(BadFrame) && Underway(s.toClient[1..], s.answered, read))
             || (&& outcome != Err(BadFrame) && Underway(s.toClient[1..], s.answered, read + 1) && read < |s.answered|
                 && outcome == Reads(s.client.id, s.client.checked, s.answered[read]))
    ensures var c := Completed(s.client.id, s.client.checked, outcome);
            Invariant(s.(toClient := s.toClient[1..], client := Idle, completed := s.completed + [c]))
  {
    CompletionParts(s.completed, s.answered, Completed(s.client.id, s.client.checked, outcome), s.toClient[1..]);
  }

  lemma {:induction false} CompletionParts(cs: seq<Completed>, answered: seq<Answered>, c: Completed, rest: seq<Line>)
    requires AllAccounted(cs, answered) && c.id == |cs| + 1
    requires var read := |cs| - Lost(cs);
             || (c.outcome == Err(BadFrame) && Underway(rest, answered, read))
             || (&& c.outcome != Err(BadFrame) && Underway(rest, answered, read + 1) && read < |answered|
                 && c.outcome == Reads(c.id, c.checked, answered[read]))
    ensures AllAccounted(cs + [c], answered) && Underway(rest, answered, |cs + [c]| - Lost(cs + [c]))
  {
    AccountedAppend(cs, answered, c);
    LostAppend(cs, c);
  }

  lemma {:induction false} UnderwayMore(lines: seq<Line>, answered: seq<Answered>, read: int, a: Answered)
    requires Underway(lines, answered, read)
    ensures Underway(lines + [Message(ResponseFor(a))], answered + [a], read)
  {
    PendingAppend(lines, Message(ResponseFor(a)));
    CutAppend(answered, [a], read);
    ResponsesForAppend(answered[read..], a);
  }

  lemma {:induction false} ReplyKeepsInvariant(s: System, body: Body)
    requires Invariant(s)
    ensures Invariant(Step(s, Reply(body)))
  {
    if s.toServer != [] {
      var a := Answered(s.toServer[0], body);
      UnderwayMore(s.toClient, s.answered, |s.completed| - Lost(s.completed), a);
      AccountedMore(s.completed, s.answered, a);
    }
  }

  lemma {:induction false} RunKeepsInvariant(s: System, actions: seq<Action>)
    requires Invariant(s)
    ensures Invariant(Run(s, actions))
    decreases |actions|
  {
    if actions != [] {
      StepKeepsInvariant(s, actions[0]);
      RunKeepsInvariant(Step(s, actions[0]), actions[1..]);
    }
  }

  // What the request with number `id` came to, when `lost` requests before it were given up at a
  // malformed line: given up itself, or ended by the answer to request id - lost.
  ghost predicate ReadsTooOld(c: Completed, id: int, lost: nat, answered: seq<Answered>) {
    && c.id == id
    && (c.outcome == Err(BadFrame)
        || (&& 0 < id - lost <= |answered|
            && c.outcome
               == match answered[id - lost - 1].body
                  case Ok(result) =>
                    if c.checked && lost > 0 then Err(UnexpectedResponseId(c.id, id - lost)) else Ok(result)
                  case Err(error) => Err(Remote(error.code, error.message))))
  }

  /** Correlation over every run, in any interleaving of the client, the peer, unrelated traffic
      and malformed lines. Request ids count up from 1 and the peer answers them in that order.
      With `lost` requests given up at a malformed line before it, request i + 1 is itself given
      up there or reads the answer to request i + 1 - lost: a result is refused with that id iff
      ids are checked and lost > 0, while an error is always reported as this request's own. */
  lemma {:induction false} EveryRunCorrelates(actions: seq<Action>)
    ensures var s := Run(INITIAL, actions);
            && |s.answered| < s.nextId && AnswersInOrder(s.answered)
            && forall i | 0 <= i < |s.completed| ::
                 ReadsTooOld(s.completed[i], i + 1, Lost(s.completed[..i]), s.answered)
  {
    RunKeepsInvariant(INITIAL, actions);
    Correlated(Run(INITIAL, actions));
  }

  lemma {:induction false} Correlated(s: System)
    requires Invariant(s)
    ensures forall i | 0 <= i < |s.completed| ::
              ReadsTooOld(s.completed[i], i + 1, Lost(s.completed[..i]), s.answered)
  {
    forall i | 0 <= i < |s.completed|
      ensures ReadsTooOld(s.completed[i], i + 1, Lost(s.completed[..i]), s.answered)
    {
      AccountedReads(s.completed, s.answered, i);
    }
  }

  lemma {:induction false} AccountedReads(cs: seq<Completed>, answered: seq<Answered>, i: nat)
    requires i < |cs| && Accounted(cs, answered, i) && AnswersInOrder(answered)
    ensures ReadsTooOld(cs[i], i + 1, Lost(cs[..i]), answered)
  {
    assert Lost(cs[..i]) <= |cs[..i]| == i;
  }

  // No malformed line is sent.
  ghost predicate WellFormed(actions: seq<Action>) {
    forall i | 0 <= i < |actions| :: actions[i] != Emit(Malformed)
  }

  ghost predicate NothingLost(s: System) {
    Malformed !in s.toClient && forall i | 0 <= i < |s.completed| :: s.completed[i].outcome != Err(BadFrame)
  }

  lemma {:induction false} RunLosesNothing(s: System, actions: seq<Action>)
    requires NothingLost(s) && WellFormed(actions)
    ensures NothingLost(Run(s, actions))
    decreases |actions|
  {
    if actions != [] {
      assert actions[0] != Emit(Malformed);
      StepLosesNothing(s, actions[0]);
      RunLosesNothing(Step(s, actions[0]), actions[1..]);
    }
  }

  lemma {:induction false} StepLosesNothing(s: System, a: Action)
    requires NothingLost(s) && a != Emit(Malformed)
    ensures NothingLost(Step(s, a))
  {
    if a.Receive? && s.toClient != [] {
      assert s.toClient[0] in s.toClient;
    }
  }

  lemma {:induction false} LostNone(cs: seq<Completed>)
    requires forall i | 0 <= i < |cs| :: cs[i].outcome != Err(BadFrame)
    ensures Lost(cs) == 0
    decreases |cs|
  {
    if cs != [] {
      LostNone(cs[..|cs| - 1]);
    }
  }

  /** So without malformed lines every request comes to the peer's answer to that very request,
      and none ever ends in UnexpectedResponseId. */
  lemma {:induction false} WellFormedRunsCorrelate(actions: seq<Action>)
    requires WellFormed(actions)
    ensures var s := Run(INITIAL, actions);
            && AnswersInOrder(s.answered)
            && forall i | 0 <= i < |s.completed| ::
                 && i < |s.answered| && s.completed[i].id == i + 1
                 && s.completed[i].outcome == AnswerFor(s.answered[i].body)
  {
    RunKeepsInvariant(INITIAL, actions);
    RunLosesNothing(INITIAL, actions);
    OwnAnswers(Run(INITIAL, actions));
  }

  lemma {:induction false} OwnAnswers(s: System)
    requires Invariant(s) && NothingLost(s)
    ensures forall i | 0 <= i < |s.completed| ::
              && i < |s.answered| && s.completed[i].id == i + 1
              && s.completed[i].outcome == AnswerFor(s.answered[i].body)
  {
    forall i | 0 <= i < |s.completed|
      ensures i < |s.answered| && s.completed[i].id == i + 1
      ensures s.completed[i].outcome == AnswerFor(s.answered[i].body)
    {
      LostNone(s.completed[..i]);
      AccountedReads(s.completed, s.answered, i);
      ReadsOwn(s.completed[i], i + 1, s.answered);
    }
  }

  lemma ReadsOwn(c: Completed, id: nat, answered: seq<Answered>)
    requires ReadsTooOld(c, id, 0, answered) && c.outcome != Err(BadFrame)
    ensures 0 < id <= |answered| && c.id == id && c.outcome == AnswerFor(answered[id - 1].body)
  {
  }

  // The answer the client should report for a body.
  function AnswerFor(body: Body): Answer {
    match body
    case Ok(result) => Ok(result)
    case Err(error) => Err(Remote(error.code, error.message))
  }

  function Receives(n: nat): seq<Action> {
    if n == 0 then [] else [Receive] + Receives(n - 1)
  }

  /** Once an answer is under way, reading what has arrived completes the request. */
  lemma {:induction false} ReadingCompletes(s: System)
    requires Invariant(s) && s.client.Awaiting? && Pending(s.toClient) != []
    ensures exists n :: 0 < n <= |s.toClient| && Run(s, Receives(n)).client.Idle?
    decreases |s.toClient|
  {
    var s' := Step(s, Receive);
    StepKeepsInvariant(s, Receive);
    assert Receives(1)[1..] == [];
    if s'.client.Idle? {
      assert Run(s, Receives(1)) == Run(s', Receives(1)[1..]) == s';
    } else {
      ReadingCompletes(s');
      var n :| 0 < n <= |s'.toClient| && Run(s', Receives(n)).client.Idle?;
      assert Receives(n + 1)[1..] == Receives(n);
      assert Run(s, Receives(n + 1)) == Run(s', Receives(n));
    }
  }

  // The request of a waiting client ends with this answer, and these lines are left.
  function Ended(s: System, answer: Answer, rest: seq<Line>): System
    requires s.client.Awaiting?
  {
    s.(client := Idle, toClient := rest,
       completed := s.completed + [Completed(s.client.id, s.client.checked, answer)])
  }

  /** The client's own wait is a run of the system: unless it ends because the stream does, it
      reads some lines, and the request ends with its answer and leaves its rest. */
  lemma {:induction false} AwaitIsRun(s: System)
    requires s.client.Awaiting? && Await(s.client.Expected(), s.toClient).0 != Err(Closed)
    ensures var (answer, rest) := Await(s.client.Expected(), s.toClient);
            exists n :: 0 < n <= |s.toClient| && Run(s, Receives(n)) == Ended(s, answer, rest)
    decreases |s.toClient|
  {
    var (answer, rest) := Await(s.client.Expected(), s.toClient);
    var s' := Step(s, Receive);
    assert Receives(1)[1..] == [];
    if s'.client.Idle? {
      assert Run(s, Receives(1)) == Run(s', []) == Ended(s, answer, rest);
    } else {
      AwaitIsRun(s');
      var n :| 0 < n <= |s'.toClient| && Run(s', Receives(n)) == Ended(s', answer, rest);
      assert Receives(n + 1)[1..] == Receives(n);
      assert Run(s, Receives(n + 1)) == Run(s', Receives(n)) == Ended(s, answer, rest);
    }
  }

  /** The silent case does occur: after one malformed line, the error meant for the first request
      is reported as the outcome of the second, although the peer has not answered that one. */
  lemma {:induction false} LateErrorIsMisattributed(s: System, error: RpcError)
    requires Invariant(s) && s.client.Idle? && s.toServer == [] && s.toClient == []
    requires s.nextId + 1 < LAST_ID
    ensures var given, second := s.nextId, s.nextId + 1;
            var s1 := Step(Step(Step(s, Send(true)), Emit(Malformed)), Receive);
            var s2 := Step(Step(Step(s1, Send(true)), Reply(Err(error))), Receive);
            && s2.answered == s.answered + [Answered(given, Err(error))] && s2.toServer == [second]
            && s2.completed == s.completed + [Completed(given, true, Err(BadFrame))]
                               + [Completed(second, true, Err(Remote(error.code, error.message)))]
  {
    var s1 := Step(Step(Step(s, Send(true)), Emit(Malformed)), Receive);
    assert s1.toClient == [] && s1.toServer == [s.nextId];
    var asked := Step(s1, Send(true));
    assert asked.toServer == [s.nextId, s.nextId + 1];
  }
}
