/** Messages over a byte stream: a `Content-Length` header block, an empty line, and the content, as in the base
    protocol of the Language Server Protocol. */
module McpFraming {
  import opened Prelude
  import opened Decimal
  import opened Text

  type Byte = b: int | 0 <= b < 256

  type Bytes = seq<Byte>

  const LF: Byte := 10
  const CRLF: Bytes := [13, 10]
  const USIZE_LIMIT := 0x1_0000_0000_0000_0000

  // ----- Text and bytes -----

  predicate AllAscii(s: string) { forall i | 0 <= i < |s| :: s[i] < 128 as char }

  function Ascii(s: string): (b: Bytes)
    requires AllAscii(s)
    ensures |b| == |s|
  {
    seq(|s|, i requires 0 <= i < |s| => s[i] as int)
  }

  predicate Continuation(b: Byte) { 0x80 <= b < 0xC0 }

  /** The scalar value that `s` starts with and how many bytes it takes; none if they are not well-formed UTF-8. */
  function DecodeOne(s: Bytes): Option<(char, nat)>
    requires s != []
    ensures DecodeOne(s).Some? ==> 1 <= DecodeOne(s).value.1 <= |s|
  {
    var b := s[0];
    if b < 0x80 then Some((b as char, 1))
    else if 0xC2 <= b < 0xE0 && |s| >= 2 && Continuation(s[1]) then
      Some((((b as int - 0xC0) * 64 + s[1] - 0x80) as char, 2))
    else if 0xE0 <= b < 0xF0 && |s| >= 3 && Continuation(s[1]) && Continuation(s[2])
            && (b == 0xE0 ==> s[1] >= 0xA0) && (b == 0xED ==> s[1] < 0xA0) then
      Some((((b as int - 0xE0) * 4096 + (s[1] as int - 0x80) * 64 + s[2] - 0x80) as char, 3))
    else if 0xF0 <= b < 0xF5 && |s| >= 4 && Continuation(s[1]) && Continuation(s[2]) && Continuation(s[3])
            && (b == 0xF0 ==> s[1] >= 0x90) && (b == 0xF4 ==> s[1] < 0x90) then
      Some((((b as int - 0xF0) * 262144 + (s[1] as int - 0x80) * 4096 + (s[2] as int - 0x80) * 64 + s[3] - 0x80) as char, 4))
    else None
  }

  function DecodeUtf8(s: Bytes): Option<string> {
    if s == [] then Some("")
    else match DecodeOne(s)
      case None => None
      case Some((c, n)) =>
        match DecodeUtf8(s[n..])
        case None => None
        case Some(rest) => Some([c] + rest)
  }

  /** An optional plus sign and at least one digit, below 2^64. */
  function ParseUsize(s: string): Option<nat> {
    var digits := if s != "" && s[0] == '+' then s[1..] else s;
    if digits == "" || !AllDigits(digits) || NumberOf(digits) >= USIZE_LIMIT then None else Some(NumberOf(digits))
  }

  // ----- Reading -----

  const HEADER := "Content-Length:"

  /** Up to and including the first line feed, or everything. */
  function Line(s: Bytes): (line: Bytes)
    ensures line <= s && (s != [] ==> line != [])
  {
    if s == [] then [] else if s[0] == LF then [LF] else [s[0]] + Line(s[1..])
  }

  /** The content length after one more header line. */
  function ReadHeader(line: Bytes, seen: Option<nat>): Result<Option<nat>> {
    match DecodeUtf8(line)
    case None => Err(InvalidInput("MCP header is not valid UTF-8"))
    case Some(text) =>
      var header := Trim(text);
      if HEADER <= header then
        match ParseUsize(Trim(header[|HEADER|..]))
        case None => Err(InvalidInput("invalid Content-Length value"))
        case Some(n) => Ok(Some(n))
      else Ok(seen)
  }

  datatype Headers = EndOfHeaders(length: Option<nat>, rest: Bytes) | NoHeaders | BadHeaders(error: StorageError)

  function ReadHeaders(s: Bytes, seen: Option<nat>): Headers
    decreases |s|
  {
    var line := Line(s);
    if s == [] then
      if seen.None? then NoHeaders else BadHeaders(InvalidInput("unexpected EOF while reading MCP headers"))
    else if line == CRLF then EndOfHeaders(seen, s[|line|..])
    else match ReadHeader(line, seen)
      case Err(e) => BadHeaders(e)
      case Ok(length) => ReadHeaders(s[|line|..], length)
  }

  /** A payload and what follows it, the end of the stream, or an error. */
  datatype Reading = Payload(body: Bytes, rest: Bytes) | EndOfStream | BadFrame(error: StorageError)

  function ReadFrame(s: Bytes): Reading {
    match ReadHeaders(s, None)
    case NoHeaders => EndOfStream
    case BadHeaders(e) => BadFrame(e)
    case EndOfHeaders(None, _) => BadFrame(InvalidInput("missing Content-Length header"))
    case EndOfHeaders(Some(n), rest) =>
      if |rest| < n then BadFrame(Unavailable("failed to read MCP payload body")) else Payload(rest[..n], rest[n..])
  }

  /** The bytes a reader has not taken yet. */
  class ByteReader {
    var rest: Bytes

    constructor (stream: Bytes)
      ensures rest == stream
    {
      rest := stream;
    }

    method ReadUntilLineFeed() returns (line: Bytes)
      modifies this
      ensures line == Line(old(rest)) && rest == old(rest)[|line|..]
    {
      line := [];
      assert rest == old(rest)[|line|..];
      while rest != []
        invariant Line(old(rest)) == line + Line(rest)
        invariant |line| <= |old(rest)| && rest == old(rest)[|line|..]
        decreases |rest|
      {
        var b := rest[0];
        line := line + [b];
        rest := rest[1..];
        if b == LF {
          return;
        }
      }
    }

    method ReadExact(n: nat) returns (body: Option<Bytes>)
      modifies this
      ensures |old(rest)| < n ==> body == None
      ensures |old(rest)| >= n ==> body == Some(old(rest)[..n]) && rest == old(rest)[n..]
    {
      if |rest| < n {
        rest := [];
        return None;
      }
      body := Some(rest[..n]);
      rest := rest[n..];
    }

    method ReadMcpPayload() returns (r: Result<Option<Bytes>>)
      modifies this
      ensures match ReadFrame(old(rest))
              case EndOfStream => r == Ok(None)
              case BadFrame(e) => r == Err(e)
              case Payload(body, after) => r == Ok(Some(body)) && rest == after
    {
      var contentLength: Option<nat> := None;
      while true
        invariant ReadHeaders(old(rest), None) == ReadHeaders(rest, contentLength)
        decreases |rest|
      {
        var line := ReadUntilLineFeed();
        if |line| == 0 {
          if contentLength.None? {
            return Ok(None);
          }
          return Err(InvalidInput("unexpected EOF while reading MCP headers"));
        }
        if line == CRLF {
          break;
        }
        var header := ReadHeader(line, contentLength);
        if header.Err? {
          return Err(header.error);
        }
        contentLength := header.value;
      }
      if contentLength.None? {
        return Err(InvalidInput("missing Content-Length header"));
      }
      var payload := ReadExact(contentLength.value);
      if payload.None? {
        return Err(Unavailable("failed to read MCP payload body"));
      }
      return Ok(payload);
    }
  }

  // ----- Writing -----

  function HeaderText(length: nat): (text: string)
    ensures AllAscii(text)
  {
    assert AllAscii(HEADER + " ");
    assert AllAscii(Digits(length));
    HEADER + " " + Digits(length)
  }

  function Frame(body: Bytes): Bytes { Ascii(HeaderText(|body|)) + CRLF + CRLF + body }

  function Frames(bodies: seq<Bytes>): Bytes {
    if bodies == [] then [] else Frames(bodies[..|bodies| - 1]) + Frame(bodies[|bodies| - 1])
  }

  class ByteWriter {
    var sent: Bytes

    constructor ()
      ensures sent == []
    {
      sent := [];
    }

    method WriteMcpPayload(payload: Bytes)
      modifies this
      ensures sent == old(sent) + Frame(payload)
    {
      sent := sent + Ascii(HeaderText(|payload|)) + CRLF + CRLF;
      sent := sent + payload;
    }
  }

  // ----- The server -----

  /** How a payload is answered. `refuse`: the error response to a payload that is not JSON, none if it is; `handle`:
      what a request makes of the storage behind the server, and the response, none for a notification, or an error. */
  datatype Server<!S> = Server(refuse: Bytes -> Option<Bytes>, handle: (S, Bytes) -> (S, Result<Option<Bytes>>))

  function Answer<S>(server: Server<S>, state: S, payload: Bytes): (S, Result<Option<Bytes>>) {
    var refused := server.refuse(payload);
    if refused.Some? then (state, Ok(refused)) else server.handle(state, payload)
  }

  /** The responses written, the storage left behind, and how serving ended. */
  datatype Service<S> = Service(responses: seq<Bytes>, state: S, end: Result<()>)

  /** Serving a stream: a handler's error ends it, after the responses before it. */
  function Served<S>(s: Bytes, state: S, server: Server<S>): Service<S>
    decreases |s|
  {
    match ReadFrame(s)
    case EndOfStream => Service([], state, Ok(()))
    case BadFrame(e) => Service([], state, Err(e))
    case Payload(body, rest) =>
      PayloadIsShorter(s);
      var answered := Answer(server, state, body);
      if answered.1.Err? then Service([], answered.0, Err(answered.1.error))
      else Before(Listed(answered.1.value), Served(rest, answered.0, server))
  }

  /** A service with responses before it. */
  function Before<S>(done: seq<Bytes>, service: Service<S>): Service<S> {
    service.(responses := done + service.responses)
  }

  function Listed(response: Option<Bytes>): seq<Bytes> { if response.Some? then [response.value] else [] }

  lemma {:induction false} HeadersAreShorter(s: Bytes, seen: Option<nat>)
    ensures ReadHeaders(s, seen).EndOfHeaders? ==> |ReadHeaders(s, seen).rest| < |s|
    decreases |s|
  {
    if s != [] && Line(s) != CRLF {
      var header := ReadHeader(Line(s), seen);
      if header.Ok? {
        HeadersAreShorter(s[|Line(s)|..], header.value);
      }
    }
  }

  lemma PayloadIsShorter(s: Bytes)
    ensures ReadFrame(s).Payload? ==> |ReadFrame(s).rest| < |s|
  {
    var headers := ReadHeaders(s, None);
    HeadersAreShorter(s, None);
    assert headers.EndOfHeaders? ==> |headers.rest| < |s|;
  }

  lemma {:induction false} FramesCons(first: Bytes, bodies: seq<Bytes>)
    ensures Frames([first] + bodies) == Frame(first) + Frames(bodies)
  {
    if bodies == [] {
      assert [first] + bodies == [] + [first];
      FramesSnoc([], first);
    } else {
      var n := |bodies| - 1;
      var before, last := bodies[..n], bodies[n];
      assert bodies == before + [last];
      assert [first] + bodies == ([first] + before) + [last];
      FramesCons(first, before);
      FramesSnoc([first] + before, last);
      FramesSnoc(before, last);
      Regroup(Frame(first), Frames(before), Frame(last));
    }
  }

  lemma FramesSnoc(bodies: seq<Bytes>, last: Bytes)
    ensures Frames(bodies + [last]) == Frames(bodies) + Frame(last)
  {
    assert (bodies + [last])[..|bodies|] == bodies;
  }

  /** `state` is the storage behind the server. */
  method RunMcpStdio<S>(reader: ByteReader, writer: ByteWriter, storage: S, server: Server<S>)
    returns (state: S, r: Result<()>)
    modifies reader, writer
    ensures var service := Served(old(reader.rest), storage, server);
            writer.sent == old(writer.sent) + Frames(service.responses) && state == service.state && r == service.end
  {
    state := storage;
    ghost var all := Served(reader.rest, storage, server);
    ghost var done: seq<Bytes> := [];
    assert Before([], all) == all && writer.sent + [] == writer.sent;
    while true
      invariant all == Before(done, Served(reader.rest, state, server))
      invariant writer.sent == old(writer.sent) + Frames(done)
      decreases |reader.rest|
    {
      ServeOne(done, reader.rest, state, server);
      var payload := reader.ReadMcpPayload();
      if payload.Err? {
        return state, Err(payload.error);
      }
      if payload.value.None? {
        break;
      }
      var response := server.refuse(payload.value.value);
      if response.None? {
        var answer := server.handle(state, payload.value.value);
        state := answer.0;
        if answer.1.Err? {
          return state, Err(answer.1.error);
        }
        response := answer.1.value;
      }
      FramesJoin(done, response);
      Regroup(old(writer.sent), Frames(done), if response.Some? then Frame(response.value) else []);
      if response.Some? {
        writer.WriteMcpPayload(response.value);
      }
      done := done + Listed(response);
    }
    r := Ok(());
  }

  /** How it goes on after an answer. */
  function ServedOn<S>(done: seq<Bytes>, rest: Bytes, answered: (S, Result<Option<Bytes>>), server: Server<S>)
    : Service<S>
  {
    match answered.1
    case Err(e) => Service(done, answered.0, Err(e))
    case Ok(response) => Before(done + Listed(response), Served(rest, answered.0, server))
  }

  lemma {:induction false} ServeOne<S>(done: seq<Bytes>, s: Bytes, state: S, server: Server<S>)
    ensures match ReadFrame(s)
            case EndOfStream => Before(done, Served(s, state, server)) == Service(done, state, Ok(()))
            case BadFrame(e) => Before(done, Served(s, state, server)) == Service(done, state, Err(e))
            case Payload(body, rest) =>
              && |rest| < |s|
              && Before(done, Served(s, state, server)) == ServedOn(done, rest, Answer(server, state, body), server)
  {
    PayloadIsShorter(s);
    assert done + [] == done;
    match ReadFrame(s)
    case Payload(body, rest) =>
      var (next, answer) := Answer(server, state, body);
      if answer.Ok? {
        Regroup(done, Listed(answer.value), Served(rest, next, server).responses);
      }
    case _ =>
  }

  lemma Regroup<T>(a: seq<T>, b: seq<T>, c: seq<T>)
    ensures a + b + c == a + (b + c)
  {
  }

  lemma FramesJoin(done: seq<Bytes>, response: Option<Bytes>)
    ensures Frames(done + Listed(response)) == Frames(done) + if response.Some? then Frame(response.value) else []
  {
    if response.Some? {
      FramesSnoc(done, response.value);
    } else {
      assert done + Listed(response) == done;
    }
  }
}
