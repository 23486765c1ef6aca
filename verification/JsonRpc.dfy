/**
 JSON-RPC messages over newline-delimited frames: the untagged message codec at the level
 of JSON objects, and the incremental frame reader.
 */
module JsonRpc {
  import opened Wrappers
  import opened Sequences

  type Byte = x: int | 0 <= x < 256

  const TAB: Byte := 9
  const NEWLINE: Byte := 10
  const RETURN: Byte := 13
  const SPACE: Byte := 32

  type I64 = x: int | -0x8000_0000_0000_0000 <= x < 0x8000_0000_0000_0000

  // Integers that a JSON value can hold: signed or unsigned 64 bits.
  type JsonInt = x: int | -0x8000_0000_0000_0000 <= x < 0x1_0000_0000_0000_0000

  datatype Json =
    | Null
    | Bool(flag: bool)
    | Int(number: JsonInt)
    | Float(literal: string)
    | Str(text: string)
    | Arr(items: seq<Json>)
    | Obj(fields: Fields)

  type Fields = map<string, Json>

  datatype RpcError = RpcError(code: I64, message: string, data: Option<Json>)

  datatype RpcMessage =
    | Request(id: I64, verb: string, params: Option<Json>)
    | ResultResponse(id: I64, result: Json)
    | ErrorResponse(id: I64, error: RpcError)
    | Notification(verb: string, params: Option<Json>)

  // ------------------------------------------------------------- the untagged codec

  function OptionalField(name: string, v: Option<Json>): Fields {
    if v.Some? then map[name := v.value] else map[]
  }

  function EncodeError(e: RpcError): Fields {
    map["code" := Int(e.code), "message" := Str(e.message)] + OptionalField("data", e.data)
  }

  // Serialization writes the members of the variant and no tag.
  function Encode(m: RpcMessage): Fields {
    match m
    case Request(id, verb, params) => map["id" := Int(id), "method" := Str(verb)] + OptionalField("params", params)
    case ResultResponse(id, result) => map["id" := Int(id), "result" := result]
    case ErrorResponse(id, error) => map["id" := Int(id), "error" := Obj(EncodeError(error))]
    case Notification(verb, params) => map["method" := Str(verb)] + OptionalField("params", params)
  }

  function I64Of(f: Fields, name: string): Option<I64> {
    if name in f && f[name].Int? && -0x8000_0000_0000_0000 <= f[name].number < 0x8000_0000_0000_0000
    then Some(f[name].number) else None
  }

  function StrOf(f: Fields, name: string): Option<string> {
    if name in f && f[name].Str? then Some(f[name].text) else None
  }

  // An optional member that is null reads as absent.
  function OptionalOf(f: Fields, name: string): Option<Json> {
    if name in f && f[name] != Null then Some(f[name]) else None
  }

  function ErrorOf(f: Fields): Option<RpcError> {
    if "error" in f && f["error"].Obj? then
      var e := f["error"].fields;
      var code, message := I64Of(e, "code"), StrOf(e, "message");
      if code.Some? && message.Some? then Some(RpcError(code.value, message.value, OptionalOf(e, "data"))) else None
    else None
  }

  // Deserialization takes the first variant whose required members are there: request,
  // result response, error response, notification.
  function Decode(f: Fields): Option<RpcMessage> {
    var id, verb := I64Of(f, "id"), StrOf(f, "method");
    if id.Some? && verb.Some? then Some(Request(id.value, verb.value, OptionalOf(f, "params")))
    else if id.Some? && "result" in f then Some(ResultResponse(id.value, f["result"]))
    else if id.Some? && ErrorOf(f).Some? then Some(ErrorResponse(id.value, ErrorOf(f).value))
    else if verb.Some? then Some(Notification(verb.value, OptionalOf(f, "params")))
    else None
  }

  // Some optional member is an explicit null.
  predicate CarriesNull(m: RpcMessage) {
    match m
    case Request(_, _, params) => params == Some(Null)
    case ResultResponse(_, _) => false
    case ErrorResponse(_, error) => error.data == Some(Null)
    case Notification(_, params) => params == Some(Null)
  }

  // The same message with that member left out.
  function WithoutNull(m: RpcMessage): RpcMessage
    requires CarriesNull(m)
  {
    match m
    case Request(id, verb, _) => Request(id, verb, None)
    case ErrorResponse(id, error) => ErrorResponse(id, error.(data := None))
    case Notification(verb, _) => Notification(verb, None)
  }

  /** A message decodes to itself iff no optional member is an explicit null; otherwise it
      decodes to the same message without that member. */
  lemma {:induction false} CodecRoundTripIff(m: RpcMessage)
    ensures Decode(Encode(m)) == Some(m) <==> !CarriesNull(m)
    ensures CarriesNull(m) ==> Decode(Encode(m)) == Some(WithoutNull(m))
  {
    if m.ErrorResponse? {
      var e := EncodeError(m.error);
      assert I64Of(e, "code") == Some(m.error.code) && StrOf(e, "message") == Some(m.error.message);
      assert StrOf(Encode(m), "method") == None && "result" !in Encode(m);
    }
  }

  // The id and the verb that the members give.
  ghost predicate HasId(f: Fields, id: I64) {
    "id" in f && f["id"] == Int(id)
  }

  ghost predicate HasVerb(f: Fields, verb: string) {
    "method" in f && f["method"] == Str(verb)
  }

  // The member, unless it is absent or null.
  ghost predicate HasOptional(f: Fields, name: string, v: Option<Json>) {
    match v
    case Some(value) => name in f && f[name] == value && value != Null
    case None => name !in f || f[name] == Null
  }

  ghost predicate HasError(f: Fields, e: RpcError) {
    && "error" in f && f["error"].Obj?
    && var g := f["error"].fields;
    && "code" in g && g["code"] == Int(e.code) && "message" in g && g["message"] == Str(e.message)
    && HasOptional(g, "data", e.data)
  }

  /** Which members decide, for any object: an id and a verb make a request; an id, no verb and a
      result make a response with it, even a null one; an id, no verb, no result and an error make
      a response with that; and a verb without a 64-bit id makes a notification. */
  lemma {:induction false} DecodeIff(f: Fields, m: RpcMessage)
    ensures Decode(f) == Some(m)
            <==> match m
                 case Request(id, verb, params) =>
                   HasId(f, id) && HasVerb(f, verb) && HasOptional(f, "params", params)
                 case ResultResponse(id, result) =>
                   HasId(f, id) && (forall v :: !HasVerb(f, v)) && "result" in f && f["result"] == result
                 case ErrorResponse(id, error) =>
                   HasId(f, id) && (forall v :: !HasVerb(f, v)) && "result" !in f && HasError(f, error)
                 case Notification(verb, params) =>
                   (forall i :: !HasId(f, i)) && HasVerb(f, verb) && HasOptional(f, "params", params)
  {
    DecodedId(f);
    DecodedVerb(f);
    if m.ErrorResponse? {
      DecodedError(f, m.error);
    }
  }

  lemma {:induction false} DecodedId(f: Fields)
    ensures forall id: I64 :: HasId(f, id) <==> I64Of(f, "id") == Some(id)
    ensures I64Of(f, "id").None? <==> forall id: I64 :: !HasId(f, id)
  {
    if I64Of(f, "id").Some? {
      assert HasId(f, I64Of(f, "id").value);
    }
  }

  lemma {:induction false} DecodedVerb(f: Fields)
    ensures forall verb: string :: HasVerb(f, verb) <==> StrOf(f, "method") == Some(verb)
    ensures StrOf(f, "method").None? <==> forall verb: string :: !HasVerb(f, verb)
  {
    if StrOf(f, "method").Some? {
      assert HasVerb(f, StrOf(f, "method").value);
    }
  }

  lemma {:induction false} DecodedError(f: Fields, e: RpcError)
    ensures HasError(f, e) <==> ErrorOf(f) == Some(e)
  {
  }

  /** No other member matters, such as the `jsonrpc` member of a peer. */
  lemma {:induction false} OtherMembersDoNotMatter(f: Fields, g: Fields)
    requires forall name | name in {"id", "method", "params", "result", "error"} ::
               (name in f <==> name in g) && (name in f ==> f[name] == g[name])
    ensures Decode(f) == Decode(g)
  {
    assert "id" in {"id", "method", "params", "result", "error"};
  }

  /** And no other member is written. */
  lemma {:induction false} EncodedMembers(m: RpcMessage)
    ensures Encode(m).Keys
            == match m
               case Request(_, _, params) => {"id", "method"} + (if params.Some? then {"params"} else {})
               case ResultResponse(_, _) => {"id", "result"}
               case ErrorResponse(_, _) => {"id", "error"}
               case Notification(_, params) => {"method"} + (if params.Some? then {"params"} else {})
  {
  }

  /** A request whose id is not a 64-bit integer is taken for a notification, so its sender
      never gets an answer. */
  lemma ForeignIdReadsAsNotification(f: Fields, verb: string)
    requires "method" in f && f["method"] == Str(verb) && I64Of(f, "id").None?
    ensures Decode(f).Some? && Decode(f).value.Notification? && Decode(f).value.verb == verb
  {
  }

  // ------------------------------------------------------------------------ frames

  datatype FrameError = ParseError | NotAnObject

  // The JSON library, as far as frames depend on it.
  datatype Codec = Codec(render: Json -> seq<Byte>, parse: seq<Byte> -> Option<Json>)

  predicate IsSpace(b: Byte) {
    b == SPACE || b == TAB || b == NEWLINE || b == RETURN
  }

  predicate AllSpace(s: seq<Byte>) {
    forall i | 0 <= i < |s| :: IsSpace(s[i])
  }

  // Printing is compact and escapes control characters (section 7 of RFC 8259); parsing
  // inverts it, tolerates trailing white space, and rejects blank text.
  ghost predicate Lawful(c: Codec) {
    && (forall v: Json :: c.render(v) != [] && NEWLINE !in c.render(v) && !IsSpace(c.render(v)[0]))
    && (forall v: Json, ws: seq<Byte> | AllSpace(ws) :: c.parse(c.render(v) + ws) == Some(v))
    && (forall ws: seq<Byte> | AllSpace(ws) :: c.parse(ws).None?)
  }

  function ToFrame(c: Codec, m: RpcMessage): seq<Byte> {
    c.render(Obj(Encode(m))) + [NEWLINE]
  }

  function FromFrame(c: Codec, line: seq<Byte>): Result<RpcMessage, FrameError> {
    match c.parse(line)
    case None => Err(ParseError)
    case Some(Obj(f)) => (match Decode(f) case Some(m) => Ok(m) case None => Err(ParseError))
    case Some(_) => Err(NotAnObject)
  }

  /** A line is a message iff it parses to an object that decodes to it; anything else that parses
      but is no object is told apart from what does not parse or decode. */
  lemma {:induction false} FromFrameIff(c: Codec, line: seq<Byte>, m: RpcMessage)
    ensures FromFrame(c, line) == Ok(m)
            <==> exists f: Fields :: c.parse(line) == Some(Obj(f)) && Decode(f) == Some(m)
    ensures FromFrame(c, line) == Err(NotAnObject) <==> c.parse(line).Some? && !c.parse(line).value.Obj?
  {
    if c.parse(line).Some? && c.parse(line).value.Obj? {
      assert c.parse(line) == Some(Obj(c.parse(line).value.fields));
    }
  }

  predicate Blank(b: Byte) {
    b == SPACE || b == TAB || b == RETURN
  }

  function TrimStart(s: seq<Byte>): seq<Byte> {
    if s != [] && Blank(s[0]) then TrimStart(s[1..]) else s
  }

  function TrimEnd(s: seq<Byte>): seq<Byte> {
    if s != [] && Blank(s[|s| - 1]) then TrimEnd(s[..|s| - 1]) else s
  }

  function Trim(s: seq<Byte>): seq<Byte> {
    TrimEnd(TrimStart(s))
  }

  predicate AllBlank(s: seq<Byte>) {
    forall i | 0 <= i < |s| :: Blank(s[i])
  }

  // What is left when blanks are cut off, and nothing else, until neither end is blank.
  ghost predicate Strips(s: seq<Byte>, before: seq<Byte>, kept: seq<Byte>, after: seq<Byte>) {
    && s == before + kept + after && AllBlank(before) && AllBlank(after)
    && (kept != [] ==> !Blank(kept[0]) && !Blank(kept[|kept| - 1]))
  }

  lemma {:induction false} TrimStartCuts(s: seq<Byte>) returns (before: seq<Byte>)
    ensures s == before + TrimStart(s) && AllBlank(before) && (TrimStart(s) != [] ==> !Blank(TrimStart(s)[0]))
  {
    before := [];
    if s != [] && Blank(s[0]) {
      var more := TrimStartCuts(s[1..]);
      before := [s[0]] + more;
      assert s == [s[0]] + s[1..];
      Concat3([s[0]], more, TrimStart(s[1..]));
    } else {
      Concat0(s);
    }
  }

  lemma {:induction false} TrimEndCuts(s: seq<Byte>) returns (after: seq<Byte>)
    ensures s == TrimEnd(s) + after && AllBlank(after)
    ensures TrimEnd(s) != [] ==> !Blank(TrimEnd(s)[|TrimEnd(s)| - 1]) && TrimEnd(s)[0] == s[0]
    decreases |s|
  {
    after := [];
    if s != [] && Blank(s[|s| - 1]) {
      var more := TrimEndCuts(s[..|s| - 1]);
      after := more + [s[|s| - 1]];
      assert s == s[..|s| - 1] + [s[|s| - 1]];
      Concat3(TrimEnd(s[..|s| - 1]), more, [s[|s| - 1]]);
    } else {
      Concat0(s);
    }
  }

  /** Trimming cuts blanks off both ends, all of them and nothing else. */
  lemma {:induction false} TrimStrips(s: seq<Byte>)
    ensures exists before, after :: Strips(s, before, Trim(s), after)
  {
    var before := TrimStartCuts(s);
    var after := TrimEndCuts(TrimStart(s));
    Concat3(before, Trim(s), after);
    assert Strips(s, before, Trim(s), after);
  }

  // trim_buf: two indices close in on what is not blank.
  method TrimBuf(buf: seq<Byte>) returns (trimmed: seq<Byte>)
    ensures trimmed == Trim(buf)
  {
    var start, end := 0, |buf|;
    while start < end && Blank(buf[start])
      invariant start <= end == |buf| && TrimStart(buf[start..]) == TrimStart(buf)
    {
      assert buf[start..][1..] == buf[start + 1..];
      start := start + 1;
    }
    assert TrimStart(buf) == buf[start..end];
    while end > start && Blank(buf[end - 1])
      invariant start <= end <= |buf| && TrimEnd(buf[start..end]) == Trim(buf)
    {
      assert buf[start..end][..end - start - 1] == buf[start..end - 1];
      end := end - 1;
    }
    trimmed := buf[start..end];
  }

  // The position of the first newline.
  function FirstNewline(s: seq<Byte>): (r: Option<nat>)
    ensures r.Some? ==> r.value < |s| && s[r.value] == NEWLINE && NEWLINE !in s[..r.value]
    ensures r.None? ==> NEWLINE !in s
  {
    if s == [] then None
    else if s[0] == NEWLINE then Some(0)
    else
      var r := FirstNewline(s[1..]);
      assert r.Some? ==> s[..r.value + 1] == [s[0]] + s[1..][..r.value];
      if r.Some? then Some(r.value + 1) else None
  }

  // The complete lines of a stream, newlines included, and what follows the last of them.
  function Lines(s: seq<Byte>): seq<seq<Byte>> {
    var i := FirstNewline(s);
    if i.None? then [] else [s[..i.value + 1]] + Lines(s[i.value + 1..])
  }

  function Leftover(s: seq<Byte>): seq<Byte> {
    var i := FirstNewline(s);
    if i.None? then s else Leftover(s[i.value + 1..])
  }

  function FrameOf<R>(line: seq<Byte>, decode: seq<Byte> -> R): seq<R> {
    if Trim(line) == [] then [] else [decode(Trim(line))]
  }

  function FramesOf<R>(lines: seq<seq<Byte>>, decode: seq<Byte> -> R): seq<R> {
    if lines == [] then [] else FrameOf(lines[0], decode) + FramesOf(lines[1..], decode)
  }

  class FrameReader<R> {
    const decode: seq<Byte> -> R
    var buffer: seq<Byte>

    constructor (decode: seq<Byte> -> R)
      ensures Valid() && this.decode == decode && buffer == []
    {
      this.decode, buffer := decode, [];
    }

    ghost predicate Valid()
      reads this`buffer
    {
      NEWLINE !in buffer
    }

    method Push(bytes: seq<Byte>) returns (frames: seq<R>)
      modifies this`buffer
      ensures Valid()
      ensures frames == Deliver(old(buffer) + bytes, decode)
      ensures buffer == Leftover(old(buffer) + bytes)
    {
      buffer := buffer + bytes;
      ghost var stream := buffer;
      frames := [];
      LeftoverHasNoNewline(stream);
      Concat0(Deliver(buffer, decode));
      var newline := FirstNewline(buffer);
      while newline.Some?
        invariant newline == FirstNewline(buffer)
        invariant frames + Deliver(buffer, decode) == Deliver(stream, decode)
        invariant Leftover(buffer) == Leftover(stream)
        decreases |buffer|
      {
        DeliverFirst(buffer, decode, frames);
        var line := buffer[..newline.value + 1];
        buffer := buffer[newline.value + 1..];
        newline := FirstNewline(buffer);
        var trimmed := TrimBuf(line);
        if trimmed == [] {
          Concat0(frames);
          continue;
        }
        frames := frames + [decode(trimmed)];
      }
      Concat0(frames);
    }
  }

  // What a stream delivers.
  function Deliver<R>(s: seq<Byte>, decode: seq<Byte> -> R): seq<R> {
    FramesOf(Lines(s), decode)
  }

  lemma {:induction false} DeliverFirst<R>(s: seq<Byte>, decode: seq<Byte> -> R, before: seq<R>)
    requires FirstNewline(s).Some?
    ensures var n := FirstNewline(s).value + 1;
            && Leftover(s) == Leftover(s[n..])
            && before + Deliver(s, decode) == (before + FrameOf(s[..n], decode)) + Deliver(s[n..], decode)
  {
    var n := FirstNewline(s).value + 1;
    FramesCons(s[..n], Lines(s[n..]), decode);
    Concat3(before, FrameOf(s[..n], decode), Deliver(s[n..], decode));
  }

  lemma {:induction false} FramesCons<R>(line: seq<Byte>, rest: seq<seq<Byte>>, decode: seq<Byte> -> R)
    ensures FramesOf([line] + rest, decode) == FrameOf(line, decode) + FramesOf(rest, decode)
  {
    assert ([line] + rest)[1..] == rest;
  }

  // ------------------------------------------------------- independence of chunking

  lemma {:induction false} FirstNewlineIs(s: seq<Byte>, i: nat)
    requires i < |s| && s[i] == NEWLINE && NEWLINE !in s[..i]
    ensures FirstNewline(s) == Some(i)
  {
    var r := FirstNewline(s);
    assert s[i] in s;
    assert forall j | 0 <= j < i :: s[j] == s[..i][j];
    assert forall j | 0 <= j < r.value :: s[j] == s[..r.value][j];
  }

  lemma {:induction false} StreamAppend(a: seq<Byte>, b: seq<Byte>)
    ensures Lines(a + b) == Lines(a) + Lines(Leftover(a) + b)
    ensures Leftover(a + b) == Leftover(Leftover(a) + b)
    decreases |a|
  {
    var i := FirstNewline(a);
    if i.Some? {
      var n := i.value + 1;
      FirstLineOfAppend(a, b, n);
      StreamAppend(a[n..], b);
      Concat3([a[..n]], Lines(a[n..]), Lines(Leftover(a[n..]) + b));
    } else {
      Concat0(Lines(a + b));
    }
  }

  lemma {:induction false} FirstLineOfAppend(a: seq<Byte>, b: seq<Byte>, n: nat)
    requires FirstNewline(a).Some? && n == FirstNewline(a).value + 1
    ensures Lines(a + b) == [a[..n]] + Lines(a[n..] + b)
    ensures Leftover(a + b) == Leftover(a[n..] + b)
  {
    FirstNewlinePrefix(a, b);
    CutAppend(a, b, n);
    FirstLine(a + b, n);
  }

  lemma FirstLine(s: seq<Byte>, n: nat)
    requires FirstNewline(s).Some? && n == FirstNewline(s).value + 1
    ensures Lines(s) == [s[..n]] + Lines(s[n..]) && Leftover(s) == Leftover(s[n..])
  {
  }

  lemma {:induction false} FirstNewlinePrefix(a: seq<Byte>, b: seq<Byte>)
    requires FirstNewline(a).Some?
    ensures FirstNewline(a + b) == FirstNewline(a)
  {
    var i := FirstNewline(a).value;
    CutAppend(a, b, i);
    FirstNewlineIs(a + b, i);
  }

  lemma {:induction false} FramesAppend<R>(a: seq<seq<Byte>>, b: seq<seq<Byte>>, decode: seq<Byte> -> R)
    ensures FramesOf(a + b, decode) == FramesOf(a, decode) + FramesOf(b, decode)
  {
    if a == [] {
      assert a + b == b;
      Concat0(FramesOf(b, decode));
    } else {
      assert (a + b)[1..] == a[1..] + b;
      FramesAppend(a[1..], b, decode);
      Concat3(FrameOf(a[0], decode), FramesOf(a[1..], decode), FramesOf(b, decode));
    }
  }

  lemma NoLineLeft(s: seq<Byte>)
    requires NEWLINE !in s
    ensures Lines(s) == [] && Leftover(s) == s
  {
  }

  lemma {:induction false} LeftoverHasNoNewline(s: seq<Byte>)
    ensures NEWLINE !in Leftover(s)
    decreases |s|
  {
    var i := FirstNewline(s);
    if i.Some? {
      LeftoverHasNoNewline(s[i.value + 1..]);
    }
  }

  /** Any partition of a stream into chunks yields the frames and the leftover of one push. */
  method PushAll<R>(reader: FrameReader<R>, chunks: seq<seq<Byte>>) returns (frames: seq<R>)
    requires reader.Valid()
    modifies reader`buffer
    ensures reader.Valid()
    ensures frames == Deliver(old(reader.buffer) + Concat(chunks), reader.decode)
    ensures reader.buffer == Leftover(old(reader.buffer) + Concat(chunks))
  {
    frames := [];
    ghost var stream := reader.buffer + Concat(chunks);
    assert chunks[0..] == chunks;
    for i := 0 to |chunks|
      invariant reader.Valid()
      invariant frames + Deliver(reader.buffer + Concat(chunks[i..]), reader.decode) == Deliver(stream, reader.decode)
      invariant Leftover(reader.buffer + Concat(chunks[i..])) == Leftover(stream)
    {
      DeliverChunk(reader.buffer, chunks, i, reader.decode, frames);
      var more := reader.Push(chunks[i]);
      frames := frames + more;
    }
    NothingMore(reader.buffer, chunks, reader.decode, frames);
  }

  lemma {:induction false} DeliverChunk<R>(buffer: seq<Byte>, chunks: seq<seq<Byte>>, i: nat,
                                           decode: seq<Byte> -> R, before: seq<R>)
    requires i < |chunks|
    ensures var now := buffer + chunks[i];
            var rest := Leftover(now) + Concat(chunks[i + 1..]);
            && before + Deliver(buffer + Concat(chunks[i..]), decode)
               == (before + Deliver(now, decode)) + Deliver(rest, decode)
            && Leftover(buffer + Concat(chunks[i..])) == Leftover(rest)
  {
    var now, later := buffer + chunks[i], Concat(chunks[i + 1..]);
    assert chunks[i..][1..] == chunks[i + 1..];
    assert buffer + Concat(chunks[i..]) == now + later;
    StreamAppend(now, later);
    FramesAppend(Lines(now), Lines(Leftover(now) + later), decode);
    var first, rest := Deliver(now, decode), Deliver(Leftover(now) + later, decode);
    assert Deliver(now + later, decode) == first + rest;
    Concat3(before, first, rest);
  }

  lemma {:induction false} NothingMore<R>(buffer: seq<Byte>, chunks: seq<seq<Byte>>, decode: seq<Byte> -> R,
                                          before: seq<R>)
    requires NEWLINE !in buffer
    ensures before + Deliver(buffer + Concat(chunks[|chunks|..]), decode) == before
    ensures Leftover(buffer + Concat(chunks[|chunks|..])) == buffer
  {
    assert buffer + Concat(chunks[|chunks|..]) == buffer;
    NoLineLeft(buffer);
  }

  // ----------------------------------------------------------- one frame per newline

  function Newlines(s: seq<Byte>): nat {
    if s == [] then 0 else (if s[0] == NEWLINE then 1 else 0) + Newlines(s[1..])
  }

  lemma {:induction false} NewlinesAppend(a: seq<Byte>, b: seq<Byte>)
    ensures Newlines(a + b) == Newlines(a) + Newlines(b)
  {
    if a == [] {
      assert a + b == b;
    } else {
      assert (a + b)[1..] == a[1..] + b;
      NewlinesAppend(a[1..], b);
    }
  }

  lemma {:induction false} NoNewlines(s: seq<Byte>)
    requires NEWLINE !in s
    ensures Newlines(s) == 0
  {
    if s != [] {
      NoNewlines(s[1..]);
    }
  }

  // Trimming stops at the newline that ends the line, so the line is never empty.
  lemma {:induction false} TrimKeepsNewline(line: seq<Byte>)
    requires line != [] && line[|line| - 1] == NEWLINE
    ensures Trim(line) != [] && Trim(line)[|Trim(line)| - 1] == NEWLINE
    ensures !Blank(line[0]) ==> Trim(line) == line
  {
    if Blank(line[0]) {
      TrimKeepsNewline(line[1..]);
    }
  }

  /** There is exactly one result per newline in the stream: the branch that skips blank
      lines never fires, and blank lines are decoded like any other. */
  lemma {:induction false} OneFramePerNewline<R>(s: seq<Byte>, decode: seq<Byte> -> R)
    ensures |Deliver(s, decode)| == |Lines(s)| == Newlines(s)
    ensures forall k | 0 <= k < |Lines(s)| :: Deliver(s, decode)[k] == decode(Trim(Lines(s)[k]))
    decreases |s|
  {
    var i := FirstNewline(s);
    if i.None? {
      NoNewlines(s);
    } else {
      var line, rest := s[..i.value + 1], s[i.value + 1..];
      assert s == line + rest;
      NewlinesAppend(line, rest);
      assert line == s[..i.value] + [NEWLINE];
      NewlinesAppend(s[..i.value], [NEWLINE]);
      NoNewlines(s[..i.value]);
      assert [NEWLINE][1..] == [];
      TrimKeepsNewline(line);
      OneFramePerNewline(rest, decode);
      assert ([line] + Lines(rest))[1..] == Lines(rest);
    }
  }

  // Bytes up to the first newline, with it.
  ghost predicate IsLine(line: seq<Byte>) {
    line != [] && line[|line| - 1] == NEWLINE && NEWLINE !in line[..|line| - 1]
  }

  ghost predicate AllLines(lines: seq<seq<Byte>>) {
    forall k | 0 <= k < |lines| :: IsLine(lines[k])
  }

  lemma {:induction false} FirstIsLine(s: seq<Byte>, n: nat)
    requires FirstNewline(s).Some? && n == FirstNewline(s).value + 1
    ensures IsLine(s[..n]) && s == s[..n] + s[n..]
  {
    assert s[..n][..n - 1] == s[..n - 1];
  }

  /** The lines and what is left over are the stream, cut behind every newline and nowhere else. */
  lemma {:induction false} LinesAreCutAtNewlines(s: seq<Byte>)
    ensures Concat(Lines(s)) + Leftover(s) == s && AllLines(Lines(s)) && NEWLINE !in Leftover(s)
    decreases |s|
  {
    var i := FirstNewline(s);
    if i.None? {
      Concat0(s);
    } else {
      var n := i.value + 1;
      var line, rest := s[..n], s[n..];
      FirstLine(s, n);
      FirstIsLine(s, n);
      LinesAreCutAtNewlines(rest);
      ConcatCons(line, Lines(rest));
      Concat3(line, Concat(Lines(rest)), Leftover(rest));
    }
  }

  /** Contrary to the reader's description, a blank line comes back as a parse error. */
  lemma {:induction false} BlankLineIsAnError(c: Codec, line: seq<Byte>)
    requires Lawful(c) && line != [] && AllSpace(line) && line[|line| - 1] == NEWLINE
    ensures FramesOf([line], l => FromFrame(c, l)) == [Err(ParseError)]
  {
    TrimKeepsNewline(line);
    TrimIsPart(line);
    assert [line][1..] == [];
  }

  lemma {:induction false} TrimIsPart(s: seq<Byte>)
    requires AllSpace(s)
    ensures AllSpace(Trim(s))
    decreases |s|
  {
    if s != [] && Blank(s[0]) {
      TrimIsPart(s[1..]);
    } else {
      TrimEndIsPart(s);
    }
  }

  lemma {:induction false} TrimEndIsPart(s: seq<Byte>)
    requires AllSpace(s)
    ensures AllSpace(TrimEnd(s))
    decreases |s|
  {
    if s != [] && Blank(s[|s| - 1]) {
      TrimEndIsPart(s[..|s| - 1]);
    }
  }

  // --------------------------------------------------------- messages over a stream

  function FramesFor(c: Codec, ms: seq<RpcMessage>): seq<Byte> {
    if ms == [] then [] else ToFrame(c, ms[0]) + FramesFor(c, ms[1..])
  }

  function Delivered(ms: seq<RpcMessage>): seq<Result<RpcMessage, FrameError>> {
    if ms == [] then [] else [Ok(ms[0])] + Delivered(ms[1..])
  }

  lemma {:induction false} FrameRoundTrip(c: Codec, m: RpcMessage)
    requires Lawful(c) && !CarriesNull(m)
    ensures Trim(ToFrame(c, m)) == ToFrame(c, m) && FromFrame(c, ToFrame(c, m)) == Ok(m)
  {
    var text := c.render(Obj(Encode(m)));
    assert text != [] && !IsSpace(text[0]);
    TrimKeepsNewline(ToFrame(c, m));
    assert AllSpace([NEWLINE]);
    assert c.parse(text + [NEWLINE]) == Some(Obj(Encode(m)));
    CodecRoundTripIff(m);
  }

  /** The frames of any messages without explicit nulls, read back from one stream (and so,
      by PushAll, from any chunks of it), are those messages, in order, with nothing left. */
  lemma {:induction false} StreamRoundTrip(c: Codec, ms: seq<RpcMessage>)
    requires Lawful(c) && forall i | 0 <= i < |ms| :: !CarriesNull(ms[i])
    ensures Leftover(FramesFor(c, ms)) == []
    ensures Deliver(FramesFor(c, ms), l => FromFrame(c, l)) == Delivered(ms)
  {
    if ms != [] {
      var m := ms[0];
      var frame, rest := ToFrame(c, m), FramesFor(c, ms[1..]);
      var s := FramesFor(c, ms);
      var i := |frame| - 1;
      assert frame[..i] == c.render(Obj(Encode(m))) && s[..i] == frame[..i];
      FirstNewlineIs(s, i);
      assert s[..i + 1] == frame && s[i + 1..] == rest;
      FrameRoundTrip(c, m);
      StreamRoundTrip(c, ms[1..]);
      assert ([frame] + Lines(rest))[1..] == Lines(rest);
    }
  }
}
