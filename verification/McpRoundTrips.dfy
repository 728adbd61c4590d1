/** The reader undoes the writer on any bodies, frames delimit themselves, and a cut frame is never taken for a
    payload. */
module McpRoundTrips {
  import opened Prelude
  import opened Decimal
  import opened Text
  import opened McpFraming

  // ----- ASCII header lines -----

  lemma AsciiAppend(a: string, b: string)
    requires AllAscii(a) && AllAscii(b)
    ensures AllAscii(a + b) && Ascii(a + b) == Ascii(a) + Ascii(b)
  {
    assert forall i | 0 <= i < |a + b| :: (a + b)[i] == if i < |a| then a[i] else b[i - |a|];
  }

  lemma {:induction false} DecodeAscii(s: string)
    requires AllAscii(s)
    ensures DecodeUtf8(Ascii(s)) == Some(s)
  {
    if s != "" {
      assert Ascii(s)[0] == s[0] as int;
      assert Ascii(s)[1..] == Ascii(s[1..]);
      DecodeAscii(s[1..]);
      assert [s[0]] + s[1..] == s;
    }
  }

  lemma {:induction false} LineEnds(before: Bytes, rest: Bytes)
    requires LF !in before
    ensures Line(before + [LF] + rest) == before + [LF]
  {
    var s := before + [LF] + rest;
    if before != [] {
      assert s[1..] == before[1..] + [LF] + rest;
      LineEnds(before[1..], rest);
      assert [s[0]] + (before[1..] + [LF]) == before + [LF];
    }
  }

  lemma {:induction false} LineRunsOut(s: Bytes)
    requires LF !in s
    ensures Line(s) == s
  {
    if s != [] {
      LineRunsOut(s[1..]);
    }
  }

  // ----- Trimming -----

  lemma TrimParsed(digits: string)
    requires digits != "" && AllDigits(digits)
    ensures Trim(" " + digits) == digits
  {
    var s := " " + digits;
    assert s[1..] == digits;
    assert IsWhite(' ') && IsDigit(digits[0]) && IsDigit(digits[|digits| - 1]);
    assert TrimStart(s) == TrimStart(digits) == digits;
  }

  // ----- The header line -----

  /** The header text and its line end. */
  function HeaderLine(length: nat): string { HeaderText(length) + "\r\n" }

  lemma HeaderLineBytes(length: nat)
    ensures AllAscii(HeaderLine(length))
    ensures Ascii(HeaderLine(length)) == Ascii(HeaderText(length)) + CRLF
    ensures Ascii(HeaderText(length) + "\r") + [LF] == Ascii(HeaderLine(length))
    ensures LF !in Ascii(HeaderText(length) + "\r")
  {
    AsciiAppend(HeaderText(length), "\r\n");
    AsciiAppend(HeaderText(length), "\r");
    var text := HeaderText(length);
    assert forall i | 0 <= i < |text| :: text[i] != '\n' by {
      NoLineFeedIn(length);
    }
  }

  lemma NoLineFeedIn(length: nat)
    ensures forall i | 0 <= i < |HeaderText(length)| :: HeaderText(length)[i] != '\n'
  {
    var digits := Digits(length);
    assert forall i | 0 <= i < |digits| :: IsDigit(digits[i]);
    assert forall i | 0 <= i < |HEADER + " "| :: (HEADER + " ")[i] != '\n';
  }

  lemma ParseDigits(length: nat)
    requires length < USIZE_LIMIT
    ensures ParseUsize(Digits(length)) == Some(length)
  {
    NumberOfDigits(length);
    assert IsDigit(Digits(length)[0]);
  }

  lemma HeaderParts(length: nat)
    ensures var header := HeaderText(length);
            && HEADER <= header && header[|HEADER|..] == " " + Digits(length)
            && header[0] == 'C' && IsDigit(header[|header| - 1])
  {
    var digits := Digits(length);
    assert HeaderText(length) == HEADER + (" " + digits);
    assert IsDigit(digits[|digits| - 1]);
  }

  lemma HeaderIsRead(length: nat, seen: Option<nat>)
    requires length < USIZE_LIMIT
    ensures AllAscii(HeaderLine(length)) && ReadHeader(Ascii(HeaderLine(length)), seen) == Ok(Some(length))
  {
    var text, header := HeaderLine(length), HeaderText(length);
    HeaderLineBytes(length);
    DecodeAscii(text);
    HeaderParts(length);
    assert text[0] == 'C' && TrimStart(text) == text;
    TrimEndDrops(header, "\r\n");
    TrimParsed(Digits(length));
    ParseDigits(length);
  }

  lemma EmptyLineIsRead(s: Bytes, seen: Option<nat>)
    ensures ReadHeaders(CRLF + s, seen) == EndOfHeaders(seen, s)
  {
    LineEnds([13], s);
    assert CRLF + s == [13] + [LF] + s;
    assert (CRLF + s)[2..] == s;
  }

  lemma HeaderBlockIsRead(length: nat, s: Bytes)
    requires length < USIZE_LIMIT
    ensures ReadHeaders(Ascii(HeaderText(length)) + CRLF + CRLF + s, None) == EndOfHeaders(Some(length), s)
  {
    HeaderLineBytes(length);
    var line := Ascii(HeaderLine(length));
    var before := Ascii(HeaderText(length) + "\r");
    var input := Ascii(HeaderText(length)) + CRLF + CRLF + s;
    assert input == before + [LF] + (CRLF + s);
    LineEnds(before, CRLF + s);
    assert |line| > 2 && input[|line|..] == CRLF + s;
    HeaderIsRead(length, None);
    EmptyLineIsRead(s, Some(length));
  }

  // ----- Whole frames -----

  /** A frame delimits itself: whatever follows it, its body is read and exactly what follows is left. */
  lemma FrameIsRead(body: Bytes, rest: Bytes)
    requires |body| < USIZE_LIMIT
    ensures ReadFrame(Frame(body) + rest) == Payload(body, rest)
  {
    assert Frame(body) + rest == Ascii(HeaderText(|body|)) + CRLF + CRLF + (body + rest);
    HeaderBlockIsRead(|body|, body + rest);
    assert (body + rest)[..|body|] == body && (body + rest)[|body|..] == rest;
  }

  /** The payloads of a stream in order, and how reading it ended. */
  function ReadAll(s: Bytes): (seq<Bytes>, Reading)
    decreases |s|
  {
    PayloadIsShorter(s);
    match ReadFrame(s)
    case Payload(body, rest) => var (bodies, end) := ReadAll(rest); ([body] + bodies, end)
    case end => ([], end)
  }

  lemma {:induction false} FramesAreReadThen(bodies: seq<Bytes>, rest: Bytes)
    requires forall i | 0 <= i < |bodies| :: |bodies[i]| < USIZE_LIMIT
    ensures ReadAll(Frames(bodies) + rest) == (bodies + ReadAll(rest).0, ReadAll(rest).1)
  {
    if bodies == [] {
      assert Frames(bodies) + rest == rest && bodies + ReadAll(rest).0 == ReadAll(rest).0;
    } else {
      var first, others := bodies[0], bodies[1..];
      assert bodies == [first] + others;
      FramesCons(first, others);
      assert Frames(bodies) + rest == Frame(first) + (Frames(others) + rest);
      FrameIsRead(first, Frames(others) + rest);
      FramesAreReadThen(others, rest);
      Regroup([first], others, ReadAll(rest).0);
    }
  }

  /** Any bodies, whatever bytes they hold, come back in order and then the stream ends. */
  lemma FramesRoundTrip(bodies: seq<Bytes>)
    requires forall i | 0 <= i < |bodies| :: |bodies[i]| < USIZE_LIMIT
    ensures ReadAll(Frames(bodies)) == (bodies, EndOfStream)
  {
    FramesAreReadThen(bodies, []);
    assert Frames(bodies) + [] == Frames(bodies) && bodies + [] == bodies;
  }

  /** Answering requests one by one, each on the storage the one before left, up to the first handler error. */
  function Exchanged<S>(requests: seq<Bytes>, state: S, server: Server<S>): Service<S> {
    if requests == [] then Service([], state, Ok(()))
    else
      var (next, answer) := Answer(server, state, requests[0]);
      match answer
      case Err(e) => Service([], next, Err(e))
      case Ok(response) => Before(Listed(response), Exchanged(requests[1..], next, server))
  }

  predicate Short(bodies: seq<Bytes>) { forall i | 0 <= i < |bodies| :: |bodies[i]| < USIZE_LIMIT }

  lemma {:induction false} FramesAreServed<S>(requests: seq<Bytes>, state: S, server: Server<S>)
    requires Short(requests)
    ensures Served(Frames(requests), state, server) == Exchanged(requests, state, server)
  {
    if requests != [] {
      var first, others := requests[0], requests[1..];
      assert requests == [first] + others;
      FramesCons(first, others);
      FrameIsRead(first, Frames(others));
      FramesAreServed(others, Answer(server, state, first).0, server);
    }
  }

  /** A client that frames its requests and reads what the server writes gets the responses, in order, up to the first
      request whose handler fails; the storage is left as answering those requests one by one leaves it. */
  lemma ExchangeRoundTrip<S>(requests: seq<Bytes>, state: S, server: Server<S>)
    requires Short(requests) && Short(Exchanged(requests, state, server).responses)
    ensures var service := Served(Frames(requests), state, server);
            && service == Exchanged(requests, state, server)
            && ReadAll(Frames(service.responses)) == (service.responses, EndOfStream)
  {
    FramesAreServed(requests, state, server);
    FramesRoundTrip(Exchanged(requests, state, server).responses);
  }

  /** A request that is refused gets its refusal and reaches no handler; a notification gets no response; a handler's error
      ends the exchange with what the handler left of the storage. */
  lemma {:induction false} OneExchange<S>(request: Bytes, others: seq<Bytes>, state: S, server: Server<S>)
    ensures var service := Exchanged([request] + others, state, server);
            var (next, answer) := server.handle(state, request);
            if server.refuse(request).Some? then
              var rest := Exchanged(others, state, server);
              service == Service([server.refuse(request).value] + rest.responses, rest.state, rest.end)
            else if answer.Err? then service == Service([], next, Err(answer.error))
            else
              var rest := Exchanged(others, next, server);
              service == Service((if answer.value.Some? then [answer.value.value] else []) + rest.responses,
                                 rest.state, rest.end)
  {
    var requests := [request] + others;
    assert requests[0] == request && requests[1..] == others;
    assert Exchanged(requests, state, server) ==
           var (next, answer) := Answer(server, state, request);
           match answer
           case Err(e) => Service([], next, Err(e))
           case Ok(response) => Before(Listed(response), Exchanged(others, next, server));
  }

  /** A stream may be cut between requests and served in two sittings. */
  lemma {:induction false} ExchangesCompose<S>(first: seq<Bytes>, second: seq<Bytes>, state: S, server: Server<S>)
    ensures var (before, whole) := (Exchanged(first, state, server), Exchanged(first + second, state, server));
            whole == if before.end.Err? then before
                     else Before(before.responses, Exchanged(second, before.state, server))
  {
    if first == [] {
      assert first + second == second;
      assert [] + Exchanged(second, state, server).responses == Exchanged(second, state, server).responses;
    } else {
      var (next, answer) := Answer(server, state, first[0]);
      assert (first + second)[0] == first[0] && (first + second)[1..] == first[1..] + second;
      if answer.Ok? {
        var rest := Exchanged(first[1..], next, server);
        ExchangesCompose(first[1..], second, next, server);
        Regroup(Listed(answer.value), rest.responses, Exchanged(second, rest.state, server).responses);
      }
    }
  }

  // ----- Cut frames -----

  /** A header line that may be cut: until its name is complete it is skipped, from then on it is a length or an
      error. */
  lemma CutHeaderIsRead(length: nat, k: nat)
    requires k <= |HeaderText(length)| + 1
    ensures AllAscii(HeaderText(length) + "\r")
    ensures var line := Ascii(HeaderText(length) + "\r")[..k];
            && LF !in line
            && if k < |HEADER| then ReadHeader(line, None) == Ok(None)
               else ReadHeader(line, None).Ok? ==> ReadHeader(line, None).value.Some?
  {
    var whole := HeaderText(length) + "\r";
    HeaderLineBytes(length);
    var text := whole[..k];
    assert Ascii(whole)[..k] == Ascii(text);
    DecodeAscii(text);
    if k < |HEADER| {
      TrimIsShorter(text);
      TrimIsShorter(TrimStart(text));
    } else {
      HeaderParts(length);
      assert whole[..|HEADER|] == HEADER && text[..|HEADER|] == HEADER;
      assert text[0] == 'C' && TrimStart(text) == text;
      assert text[|HEADER| - 1] == ':';
      TrimEndKeeps(text, |HEADER| - 1);
      assert HEADER <= TrimEnd(text);
    }
  }

  /** A last line without its end is read as a header, and then the stream is over. */
  lemma CutLineIsRead(s: Bytes, seen: Option<nat>)
    requires s != [] && LF !in s
    ensures var headers := ReadHeaders(s, seen);
            match ReadHeader(s, seen)
            case Err(e) => headers == BadHeaders(e)
            case Ok(None) => headers == NoHeaders
            case Ok(Some(_)) => headers.BadHeaders?
  {
    LineRunsOut(s);
    assert s[|s|..] == [];
  }

  lemma ReturnIsSkipped(seen: Option<nat>)
    ensures ReadHeader([13], seen) == Ok(seen)
  {
    assert Ascii("\r") == [13];
    DecodeAscii("\r");
    assert "\r"[1..] == "";
  }

  lemma CutInHeader(length: nat, k: nat)
    requires k <= |HeaderText(length)| + 1
    ensures AllAscii(HeaderText(length) + "\r")
    ensures var cut := ReadFrame(Ascii(HeaderText(length) + "\r")[..k]);
            if k < |HEADER| then cut == EndOfStream else cut.BadFrame?
  {
    HeaderLineBytes(length);
    var s := Ascii(HeaderText(length) + "\r")[..k];
    CutHeaderIsRead(length, k);
    if s != [] {
      CutLineIsRead(s, None);
    }
  }

  lemma CutAfterHeader(length: nat, tail: Bytes)
    requires length < USIZE_LIMIT && (tail == [] || tail == [13])
    ensures ReadFrame(Ascii(HeaderText(length)) + CRLF + tail).BadFrame?
  {
    HeaderLineBytes(length);
    var line := Ascii(HeaderLine(length));
    var before := Ascii(HeaderText(length) + "\r");
    var input := Ascii(HeaderText(length)) + CRLF + tail;
    assert input == before + [LF] + tail;
    LineEnds(before, tail);
    assert |line| > 2 && input[|line|..] == tail;
    HeaderIsRead(length, None);
    if tail == [13] {
      ReturnIsSkipped(Some(length));
      CutLineIsRead(tail, Some(length));
    }
    assert ReadHeaders(tail, Some(length)).BadHeaders?;
    assert Line(input) == line && line != CRLF;
  }

  lemma CutInBody(length: nat, part: Bytes)
    requires |part| < length < USIZE_LIMIT
    ensures ReadFrame(Ascii(HeaderText(length)) + CRLF + CRLF + part).BadFrame?
  {
    HeaderBlockIsRead(length, part);
  }

  /** A frame cut short is never read as a payload: an error, or the end of the stream if the cut comes before the
      header name is complete. */
  lemma CutFrameIsNoPayload(body: Bytes, k: nat)
    requires |body| < USIZE_LIMIT && k < |Frame(body)|
    ensures var cut := ReadFrame(Frame(body)[..k]);
            if k < |HEADER| then cut == EndOfStream else cut.BadFrame?
  {
    var n := |HeaderText(|body|)|;
    var text := Ascii(HeaderText(|body|));
    HeaderParts(|body|);
    HeaderLineBytes(|body|);
    if k <= n + 1 {
      assert Frame(body) == Ascii(HeaderText(|body|) + "\r") + ([LF] + CRLF + body);
      assert Frame(body)[..k] == Ascii(HeaderText(|body|) + "\r")[..k];
      CutInHeader(|body|, k);
    } else if k <= n + 3 {
      var tail: Bytes := if k == n + 2 then [] else [13];
      assert Frame(body)[..k] == text + CRLF + tail;
      CutAfterHeader(|body|, tail);
    } else {
      assert Frame(body)[..k] == text + CRLF + CRLF + body[..k - n - 4];
      CutInBody(|body|, body[..k - n - 4]);
    }
  }

  /** A stream cut inside a frame yields the frames before the cut and nothing else. */
  lemma CutStream(bodies: seq<Bytes>, last: Bytes, k: nat)
    requires (forall i | 0 <= i < |bodies| :: |bodies[i]| < USIZE_LIMIT) && |last| < USIZE_LIMIT && k < |Frame(last)|
    ensures ReadAll(Frames(bodies) + Frame(last)[..k]).0 == bodies
    ensures ReadAll(Frames(bodies) + Frame(last)[..k]).1.EndOfStream? <==> k < |HEADER|
  {
    FramesAreReadThen(bodies, Frame(last)[..k]);
    CutFrameIsNoPayload(last, k);
    assert bodies + [] == bodies;
  }
}
