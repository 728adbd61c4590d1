/** What a frame is, byte by byte: UTF-8 header lines, one of which gives the length, an empty line, and the content. */
module McpFrames {
  import opened Prelude
  import opened Decimal
  import opened Text
  import opened McpFraming

  // ----- UTF-8 -----

  /** Section 3 of RFC 3629. */
  function EncodeOne(c: char): (b: Bytes)
    ensures b != []
  {
    var n := c as int;
    if n < 0x80 then [n]
    else if n < 0x800 then [0xC0 + n / 64, 0x80 + n % 64]
    else if n < 0x1_0000 then [0xE0 + n / 4096, 0x80 + n / 64 % 64, 0x80 + n % 64]
    else [0xF0 + n / 262144, 0x80 + n / 4096 % 64, 0x80 + n / 64 % 64, 0x80 + n % 64]
  }

  function EncodeUtf8(s: string): Bytes { if s == "" then [] else EncodeOne(s[0]) + EncodeUtf8(s[1..]) }

  lemma TwoParts(x: int, y: int)
    requires 0 <= y < 64
    ensures (x * 64 + y) / 64 == x && (x * 64 + y) % 64 == y
  {
  }

  lemma ThreeParts(x: int, y: int, z: int)
    requires 0 <= y < 64 && 0 <= z < 64
    ensures var n := x * 4096 + y * 64 + z; n / 4096 == x && n / 64 % 64 == y && n % 64 == z
  {
    TwoParts(x * 64 + y, z);
    TwoParts(x, y);
  }

  lemma FourParts(w: int, x: int, y: int, z: int)
    requires 0 <= x < 64 && 0 <= y < 64 && 0 <= z < 64
    ensures var n := w * 262144 + x * 4096 + y * 64 + z;
            n / 262144 == w && n / 4096 % 64 == x && n / 64 % 64 == y && n % 64 == z
  {
    ThreeParts(w * 64 + x, y, z);
    TwoParts(w, x);
  }

  lemma DecodeTwo(c: char, s: Bytes)
    requires 0x80 <= c as int < 0x800 && EncodeOne(c) <= s
    ensures DecodeOne(s) == Some((c, 2))
  {
    assert s[0] == EncodeOne(c)[0] && s[1] == EncodeOne(c)[1];
  }

  lemma DecodeThree(c: char, s: Bytes)
    requires 0x800 <= c as int < 0x1_0000 && EncodeOne(c) <= s
    ensures DecodeOne(s) == Some((c, 3))
  {
    var n := c as int;
    assert s[0] == EncodeOne(c)[0] && s[1] == EncodeOne(c)[1] && s[2] == EncodeOne(c)[2];
    ThreeParts(n / 4096, n / 64 % 64, n % 64);
    assert n == n / 4096 * 4096 + n / 64 % 64 * 64 + n % 64;
  }

  lemma DecodeFour(c: char, s: Bytes)
    requires 0x1_0000 <= c as int && EncodeOne(c) <= s
    ensures DecodeOne(s) == Some((c, 4))
  {
    var n := c as int;
    assert s[0] == EncodeOne(c)[0] && s[1] == EncodeOne(c)[1] && s[2] == EncodeOne(c)[2] && s[3] == EncodeOne(c)[3];
    assert n == n / 262144 * 262144 + n / 4096 % 64 * 4096 + n / 64 % 64 * 64 + n % 64;
  }

  lemma DecodeEncodedOne(c: char, rest: Bytes)
    ensures DecodeOne(EncodeOne(c) + rest) == Some((c, |EncodeOne(c)|))
  {
    var n := c as int;
    if 0x80 <= n < 0x800 {
      DecodeTwo(c, EncodeOne(c) + rest);
    } else if 0x800 <= n < 0x1_0000 {
      DecodeThree(c, EncodeOne(c) + rest);
    } else if 0x1_0000 <= n {
      DecodeFour(c, EncodeOne(c) + rest);
    }
  }

  lemma EncodeTwo(s: Bytes)
    requires s != [] && 0x80 <= s[0] < 0xE0 && DecodeOne(s).Some?
    ensures DecodeOne(s).value.1 == 2 && EncodeOne(DecodeOne(s).value.0) == s[..2]
  {
    TwoParts(s[0] as int - 0xC0, s[1] as int - 0x80);
  }

  lemma EncodeThree(s: Bytes)
    requires s != [] && 0xE0 <= s[0] < 0xF0 && DecodeOne(s).Some?
    ensures DecodeOne(s).value.1 == 3 && EncodeOne(DecodeOne(s).value.0) == s[..3]
  {
    ThreeParts(s[0] as int - 0xE0, s[1] as int - 0x80, s[2] as int - 0x80);
  }

  lemma EncodeFour(s: Bytes)
    requires s != [] && 0xF0 <= s[0] && DecodeOne(s).Some?
    ensures DecodeOne(s).value.1 == 4 && EncodeOne(DecodeOne(s).value.0) == s[..4]
  {
    FourParts(s[0] as int - 0xF0, s[1] as int - 0x80, s[2] as int - 0x80, s[3] as int - 0x80);
  }

  lemma EncodeDecodedOne(s: Bytes)
    requires s != [] && DecodeOne(s).Some?
    ensures EncodeOne(DecodeOne(s).value.0) == s[..DecodeOne(s).value.1]
  {
    if 0x80 <= s[0] < 0xE0 {
      EncodeTwo(s);
    } else if 0xE0 <= s[0] < 0xF0 {
      EncodeThree(s);
    } else if 0xF0 <= s[0] {
      EncodeFour(s);
    }
  }

  lemma {:induction false} DecodeEncoded(s: string)
    ensures DecodeUtf8(EncodeUtf8(s)) == Some(s)
  {
    if s != "" {
      var first, rest := EncodeOne(s[0]), EncodeUtf8(s[1..]);
      DecodeEncodedOne(s[0], rest);
      assert (first + rest)[|first|..] == rest;
      DecodeEncoded(s[1..]);
      assert [s[0]] + s[1..] == s;
    }
  }

  lemma {:induction false} EncodeDecoded(b: Bytes)
    requires DecodeUtf8(b).Some?
    ensures EncodeUtf8(DecodeUtf8(b).value) == b
  {
    if b != [] {
      var (c, n) := DecodeOne(b).value;
      EncodeDecodedOne(b);
      EncodeDecoded(b[n..]);
      var s := DecodeUtf8(b).value;
      assert s[0] == c && s[1..] == DecodeUtf8(b[n..]).value;
      assert b == b[..n] + b[n..];
    }
  }

  /** Bytes are read as a text exactly when they are its encoding. */
  lemma DecodesExactly(b: Bytes, s: string)
    ensures DecodeUtf8(b) == Some(s) <==> b == EncodeUtf8(s)
  {
    DecodeEncoded(s);
    if DecodeUtf8(b).Some? {
      EncodeDecoded(b);
    }
  }

  // ----- Numbers -----

  function Zeros(k: nat): (s: string)
    ensures |s| == k && forall i | 0 <= i < k :: s[i] == '0'
  {
    seq(k, i requires 0 <= i < k => '0')
  }

  /** The digits of `n`, perhaps after some zeros. */
  ghost predicate IsNumeral(s: string, n: nat) { exists k: nat :: s == Zeros(k) + Digits(n) }

  lemma {:induction false} ZerosCountNothing(k: nat, digits: string)
    requires AllDigits(digits)
    ensures AllDigits(Zeros(k) + digits) && NumberOf(Zeros(k) + digits) == NumberOf(digits)
    decreases |digits|, k
  {
    var s := Zeros(k) + digits;
    if digits != "" {
      var n := |digits| - 1;
      ZerosCountNothing(k, digits[..n]);
      assert s[..|s| - 1] == Zeros(k) + digits[..n];
    } else if k > 0 {
      ZerosCountNothing(k - 1, "");
      assert s[..|s| - 1] == Zeros(k - 1) + "";
    }
  }

  lemma OneDigitMore(k: nat, m: nat, d: nat)
    requires d < 10
    ensures IsNumeral(Zeros(k) + Digits(m) + [DigitChar(d)], 10 * m + d)
  {
    if m == 0 {
      assert Zeros(k) + "0" + [DigitChar(d)] == Zeros(k + 1) + [DigitChar(d)];
    } else {
      assert (10 * m + d) / 10 == m && (10 * m + d) % 10 == d;
      assert Zeros(k) + Digits(m) + [DigitChar(d)] == Zeros(k) + Digits(10 * m + d);
    }
  }

  lemma {:induction false} DigitsAreNumeral(s: string)
    requires s != "" && AllDigits(s)
    ensures IsNumeral(s, NumberOf(s))
  {
    var n := |s| - 1;
    var d := DigitValue(s[n]);
    assert DigitChar(d) == s[n];
    if n == 0 {
      assert NumberOf(s[..0]) == 0 && NumberOf(s) == d && Digits(d) == [DigitChar(d)];
      assert s == Zeros(0) + Digits(d);
    } else {
      DigitsAreNumeral(s[..n]);
      var k: nat :| s[..n] == Zeros(k) + Digits(NumberOf(s[..n]));
      OneDigitMore(k, NumberOf(s[..n]), d);
      assert s == s[..n] + [DigitChar(d)];
    }
  }

  lemma NumeralIsNumber(s: string, n: nat)
    requires IsNumeral(s, n)
    ensures s != "" && AllDigits(s) && NumberOf(s) == n
  {
    var k: nat :| s == Zeros(k) + Digits(n);
    ZerosCountNothing(k, Digits(n));
    NumberOfDigits(n);
  }

  /** A decimal below 2^64, with or without a plus sign. */
  ghost predicate ReadsAs(s: string, n: nat) {
    n < 0x1_0000_0000_0000_0000 && (IsNumeral(s, n) || (s != "" && s[0] == '+' && IsNumeral(s[1..], n)))
  }

  lemma UsizeExactly(s: string, n: nat)
    ensures ParseUsize(s) == Some(n) <==> ReadsAs(s, n)
  {
    var digits := if s != "" && s[0] == '+' then s[1..] else s;
    if digits != "" && AllDigits(digits) {
      DigitsAreNumeral(digits);
    }
    if IsNumeral(digits, n) {
      NumeralIsNumber(digits, n);
    }
    if IsNumeral(s, n) {
      NumeralIsNumber(s, n);
      assert IsDigit(s[0]);
    }
  }

  // ----- Header lines -----

  /** A header line that sets the length to `n`, or leaves it as it was. */
  ghost predicate LineSays(text: string, seen: Option<nat>, n: Option<nat>) {
    var header := Trim(text);
    if "Content-Length:" <= header then n.Some? && ReadsAs(Trim(header[15..]), n.value) else n == seen
  }

  lemma HeaderExactly(line: Bytes, seen: Option<nat>, n: Option<nat>)
    ensures ReadHeader(line, seen) == Ok(n) <==> exists text :: line == EncodeUtf8(text) && LineSays(text, seen, n)
  {
    if DecodeUtf8(line).Some? {
      var text := DecodeUtf8(line).value;
      DecodesExactly(line, text);
      if n.Some? && HEADER <= Trim(text) {
        UsizeExactly(Trim(Trim(text)[|HEADER|..]), n.value);
      }
    }
    forall text | line == EncodeUtf8(text) ensures DecodeUtf8(line) == Some(text) {
      DecodesExactly(line, text);
    }
  }

  /** Ends at its only line feed, and is not the empty line. */
  predicate IsHeaderLine(line: Bytes) {
    line != [] && line[|line| - 1] == LF && LF !in line[..|line| - 1] && line != [13, 10]
  }

  /** Header lines that lead from one length seen to another. */
  ghost predicate IsBlock(lines: seq<Bytes>, seen: Option<nat>, length: Option<nat>) {
    if lines == [] then length == seen
    else
      && IsHeaderLine(lines[0])
      && exists n :: HeaderGives(lines[0], seen, n) && IsBlock(lines[1..], n, length)
  }

  ghost predicate HeaderGives(line: Bytes, seen: Option<nat>, n: Option<nat>) {
    exists text :: line == EncodeUtf8(text) && LineSays(text, seen, n)
  }

  function Flat(lines: seq<Bytes>): Bytes { if lines == [] then [] else lines[0] + Flat(lines[1..]) }

  lemma {:induction false} LineOf(line: Bytes, rest: Bytes)
    requires line != [] && line[|line| - 1] == LF && LF !in line[..|line| - 1]
    ensures Line(line + rest) == line
  {
    var s := line + rest;
    if |line| > 1 {
      assert line[0] == line[..|line| - 1][0] && line[0] != LF;
      assert s[1..] == line[1..] + rest;
      assert line[1..][..|line[1..]| - 1] == line[..|line| - 1][1..];
      LineOf(line[1..], rest);
      assert [line[0]] + line[1..] == line;
    } else {
      assert line == [LF] && s[0] == LF;
    }
  }

  lemma {:induction false} LineShape(s: Bytes)
    ensures LF !in (if Line(s) != [] && Line(s)[|Line(s)| - 1] == LF then Line(s)[..|Line(s)| - 1] else Line(s))
    ensures s != [] && (Line(s) == [] || Line(s)[|Line(s)| - 1] != LF) ==> Line(s) == s
  {
    if s != [] && s[0] != LF {
      LineShape(s[1..]);
      var tail := Line(s[1..]);
      assert Line(s) == [s[0]] + tail;
      if tail != [] && tail[|tail| - 1] == LF {
        assert Line(s)[..|Line(s)| - 1] == [s[0]] + tail[..|tail| - 1];
      } else if s[1..] == [] {
        assert s == [s[0]];
      } else {
        assert [s[0]] + s[1..] == s;
      }
    }
  }

  // ----- Frames -----

  lemma FlatCons(lines: seq<Bytes>, rest: Bytes)
    requires lines != []
    ensures Flat(lines) + rest == lines[0] + (Flat(lines[1..]) + rest)
  {
  }

  /** One header line is read. */
  lemma HeadersStep(line: Bytes, more: Bytes, seen: Option<nat>, n: Option<nat>)
    requires IsHeaderLine(line) && ReadHeader(line, seen) == Ok(n)
    ensures ReadHeaders(line + more, seen) == ReadHeaders(more, n)
  {
    LineOf(line, more);
    assert (line + more)[|line|..] == more;
  }

  lemma HeadersEnd(seen: Option<nat>, rest: Bytes)
    ensures ReadHeaders(CRLF + rest, seen) == EndOfHeaders(seen, rest)
  {
    LineOf(CRLF, rest);
    assert (CRLF + rest)[2..] == rest;
  }

  lemma {:induction false} BlockIsRead(lines: seq<Bytes>, seen: Option<nat>, length: Option<nat>, rest: Bytes)
    requires IsBlock(lines, seen, length)
    ensures ReadHeaders(Flat(lines) + (CRLF + rest), seen) == EndOfHeaders(length, rest)
  {
    if lines == [] {
      assert Flat(lines) + (CRLF + rest) == CRLF + rest;
      HeadersEnd(seen, rest);
    } else {
      var n :| HeaderGives(lines[0], seen, n) && IsBlock(lines[1..], n, length);
      FlatCons(lines, CRLF + rest);
      HeaderExactly(lines[0], seen, n);
      HeadersStep(lines[0], Flat(lines[1..]) + (CRLF + rest), seen, n);
      BlockIsRead(lines[1..], n, length, rest);
    }
  }

  /** What is read first: the empty line, a header line, or a line cut short. */
  lemma FirstLine(s: Bytes) returns (line: Bytes, more: Bytes)
    requires s != []
    ensures line == Line(s) && s == line + more && |more| < |s|
    ensures line == CRLF || IsHeaderLine(line) || (more == [] && LF !in s)
  {
    line := Line(s);
    more := s[|line|..];
    LineShape(s);
  }

  lemma ReadLine(s: Bytes, line: Bytes, more: Bytes, seen: Option<nat>)
    requires s != [] && line == Line(s) && s == line + more
    ensures ReadHeaders(s, seen) ==
            if line == CRLF then EndOfHeaders(seen, more)
            else if ReadHeader(line, seen).Err? then BadHeaders(ReadHeader(line, seen).error)
            else ReadHeaders(more, ReadHeader(line, seen).value)
  {
    assert s[|line|..] == more;
  }

  lemma BlockCons(line: Bytes, lines: seq<Bytes>, seen: Option<nat>, n: Option<nat>, length: Option<nat>)
    requires IsHeaderLine(line) && ReadHeader(line, seen) == Ok(n) && IsBlock(lines, n, length)
    ensures IsBlock([line] + lines, seen, length) && Flat([line] + lines) == line + Flat(lines)
  {
    HeaderExactly(line, seen, n);
    assert ([line] + lines)[1..] == lines;
    assert HeaderGives(line, seen, n);
  }

  lemma NothingLeft(seen: Option<nat>)
    ensures !ReadHeaders([], seen).EndOfHeaders?
  {
  }

  lemma BlockGoesOn(line: Bytes, others: seq<Bytes>, seen: Option<nat>, n: Option<nat>, length: Option<nat>, rest: Bytes)
    requires IsHeaderLine(line) && ReadHeader(line, seen) == Ok(n) && IsBlock(others, n, length)
    ensures IsBlock([line] + others, seen, length)
    ensures Flat([line] + others) + (CRLF + rest) == line + (Flat(others) + (CRLF + rest))
  {
    BlockCons(line, others, seen, n, length);
    Regroup(line, Flat(others), CRLF + rest);
  }

  lemma {:induction false} ReadIsBlock(s: Bytes, seen: Option<nat>, length: Option<nat>, rest: Bytes)
    returns (lines: seq<Bytes>)
    requires ReadHeaders(s, seen) == EndOfHeaders(length, rest)
    ensures IsBlock(lines, seen, length) && s == Flat(lines) + (CRLF + rest)
    decreases |s|
  {
    NothingLeft(seen);
    var line, more := FirstLine(s);
    ReadLine(s, line, more, seen);
    if line == CRLF {
      lines := [];
    } else {
      var n := ReadHeader(line, seen).value;
      NothingLeft(n);
      var others := ReadIsBlock(more, n, length, rest);
      BlockGoesOn(line, others, seen, n, length, rest);
      lines := [line] + others;
    }
  }

  lemma PayloadFollows(s: Bytes, body: Bytes, rest: Bytes)
    ensures ReadFrame(s) == Payload(body, rest) <==> ReadHeaders(s, None) == EndOfHeaders(Some(|body|), body + rest)
  {
    assert (body + rest)[..|body|] == body && (body + rest)[|body|..] == rest;
    var read := ReadHeaders(s, None);
    if read.EndOfHeaders? && read.length.Some? && read.length.value <= |read.rest| {
      assert read.rest == read.rest[..read.length.value] + read.rest[read.length.value..];
    }
  }

  /** A payload is read exactly when the stream starts with header lines that end up giving its length, an empty line, and
      the payload; what is left is what follows it. */
  lemma PayloadExactly(s: Bytes, body: Bytes, rest: Bytes)
    ensures ReadFrame(s) == Payload(body, rest) <==>
            exists lines :: IsBlock(lines, None, Some(|body|)) && s == Flat(lines) + ([13, 10] + (body + rest))
  {
    PayloadFollows(s, body, rest);
    if ReadFrame(s) == Payload(body, rest) {
      var lines := ReadIsBlock(s, None, Some(|body|), body + rest);
    }
    if lines :| IsBlock(lines, None, Some(|body|)) && s == Flat(lines) + ([13, 10] + (body + rest)) {
      BlockIsRead(lines, None, Some(|body|), body + rest);
    }
  }

  // ----- The end of the stream -----

  /** Header lines, the last perhaps cut short, that never give a length. */
  ghost predicate IsEnd(s: Bytes, lines: seq<Bytes>, tail: Bytes) {
    && s == Flat(lines) + tail && IsBlock(lines, None, None)
    && LF !in tail && (tail == [] || HeaderGives(tail, None, None))
  }

  lemma {:induction false} LengthStays(lines: seq<Bytes>, seen: Option<nat>, length: Option<nat>)
    requires IsBlock(lines, seen, length) && seen.Some?
    ensures length.Some?
  {
    if lines != [] {
      var n :| HeaderGives(lines[0], seen, n) && IsBlock(lines[1..], n, length);
      LengthStays(lines[1..], n, length);
    }
  }

  lemma {:induction false} LineWithoutEnd(s: Bytes)
    requires LF !in s
    ensures Line(s) == s
  {
    if s != [] {
      LineWithoutEnd(s[1..]);
    }
  }

  lemma {:induction false} EndIsRead(s: Bytes, lines: seq<Bytes>, tail: Bytes)
    requires IsEnd(s, lines, tail)
    ensures ReadHeaders(s, None) == NoHeaders
    decreases |lines|
  {
    if lines == [] {
      assert s == tail;
      if tail != [] {
        LineWithoutEnd(tail);
        HeaderExactly(tail, None, None);
        ReadLine(s, tail, [], None);
      }
    } else {
      var n :| HeaderGives(lines[0], None, n) && IsBlock(lines[1..], n, None);
      if n.Some? {
        LengthStays(lines[1..], n, None);
      }
      FlatCons(lines, tail);
      HeaderExactly(lines[0], None, n);
      HeadersStep(lines[0], Flat(lines[1..]) + tail, None, n);
      EndIsRead(Flat(lines[1..]) + tail, lines[1..], tail);
    }
  }

  lemma {:induction false} LengthIsKept(s: Bytes, seen: Option<nat>)
    requires ReadHeaders(s, seen) == NoHeaders
    ensures seen == None
    decreases |s|
  {
    if s != [] {
      LengthIsKept(s[|Line(s)|..], ReadHeader(Line(s), seen).value);
    }
  }

  lemma {:induction false} ReadIsEnd(s: Bytes) returns (lines: seq<Bytes>, tail: Bytes)
    requires ReadHeaders(s, None) == NoHeaders
    ensures IsEnd(s, lines, tail)
    decreases |s|
  {
    lines, tail := [], s;
    if s != [] {
      var line, more := FirstLine(s);
      ReadLine(s, line, more, None);
      LengthIsKept(more, ReadHeader(line, None).value);
      HeaderExactly(line, None, None);
      if IsHeaderLine(line) {
        lines, tail := ReadIsEnd(more);
        EndCons(line, more, lines, tail);
        lines := [line] + lines;
      } else {
        assert s == line + [] && HeaderGives(line, None, None);
      }
    }
  }

  lemma EndCons(line: Bytes, more: Bytes, lines: seq<Bytes>, tail: Bytes)
    requires IsEnd(more, lines, tail) && IsHeaderLine(line) && ReadHeader(line, None) == Ok(None)
    ensures IsEnd(line + more, [line] + lines, tail)
  {
    BlockCons(line, lines, None, None, None);
    assert line + (Flat(lines) + tail) == line + Flat(lines) + tail;
  }

  /** The stream ends cleanly exactly when nothing is left but header lines that give no length, whole or cut short. */
  lemma EndExactly(s: Bytes)
    ensures ReadFrame(s) == EndOfStream <==> exists lines, tail :: IsEnd(s, lines, tail)
  {
    if ReadFrame(s) == EndOfStream {
      var lines, tail := ReadIsEnd(s);
    }
    if lines, tail :| IsEnd(s, lines, tail) {
      EndIsRead(s, lines, tail);
    }
  }
}
