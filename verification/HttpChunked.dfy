/** Chunked framing: what the writer emits and what the reader makes of any byte stream. */
module ChunkedFraming {
  import opened HttpText
  import opened Options
  import opened Sequences

  const ULONG_MAX := 0xffff_ffff_ffff_ffff
  const RECV_BUFSIZ := 4096

  // ---- Numbers in hexadecimal ---------------------------------------------------------------------

  function HexDigit(n: nat): (c: char)
    requires n < 16
  {
    "0123456789abcdef"[n]
  }

  /** from_i_to_hex */
  function Hex(n: nat): (r: Text)
    ensures |r| > 0
  {
    if n < 16 then [HexDigit(n)] else Hex(n / 16) + [HexDigit(n % 16)]
  }

  lemma HexMore(n: nat, ret: Text)
    requires n > 0
    ensures (if n < 16 then [] else Hex(n / 16)) + ([HexDigit(n % 16)] + ret) == Hex(n) + ret
  {
    if n >= 16 { Associate(Hex(n / 16), [HexDigit(n % 16)], ret); }
  }

  method FromIToHex(n0: nat) returns (ret: Text)
    ensures ret == Hex(n0)
  {
    var n := n0;
    ret := [HexDigit(n % 16)];
    n := n / 16;
    while n > 0
      invariant Hex(n0) == (if n > 0 then Hex(n) else []) + ret
    {
      HexMore(n, ret);
      ret := [HexDigit(n % 16)] + ret;
      n := n / 16;
    }
  }

  predicate IsHex(c: char) {
    '0' <= c <= '9' || 'a' <= c <= 'f' || 'A' <= c <= 'F'
  }

  function DigitValue(c: char): (v: nat)
    requires IsHex(c)
    ensures v < 16
  {
    if '0' <= c <= '9' then (c - '0') as nat
    else if 'a' <= c <= 'f' then (c - 'a') as nat + 10
    else (c - 'A') as nat + 10
  }

  /** The digits at the start of s. */
  function Digits(s: Text): (r: Text)
    ensures r <= s && forall c :: c in r ==> IsHex(c)
  {
    if s != [] && IsHex(s[0]) then [s[0]] + Digits(s[1..]) else []
  }

  function Value(digits: Text): nat
    requires forall c :: c in digits ==> IsHex(c)
  {
    if digits == [] then 0 else 16 * Value(digits[..|digits| - 1]) + DigitValue(digits[|digits| - 1])
  }

  predicate IsSpace(c: char) {
    c == ' ' || c == '\t' || c == '\n' || c == '\U{0B}' || c == '\U{0C}' || c == '\r'
  }

  function SkipSpaces(s: Text): Text {
    if s != [] && IsSpace(s[0]) then SkipSpaces(s[1..]) else s
  }

  function SkipPrefix(s: Text): Text {
    if |s| >= 3 && s[0] == '0' && (s[1] == 'x' || s[1] == 'X') && IsHex(s[2]) then s[2..] else s
  }

  /** strtoul with base 16: white space, a sign, an optional 0x and digits; none when there is no digit. */
  function Strtoul(s: Text): Option<nat> {
    var t := SkipSpaces(s);
    var negative := t != [] && t[0] == '-';
    var u := SkipPrefix(if t != [] && (t[0] == '-' || t[0] == '+') then t[1..] else t);
    var digits := Digits(u);
    if digits == [] then None
    else if Value(digits) > ULONG_MAX then Some(ULONG_MAX)
    else Some(if negative then (ULONG_MAX + 1 - Value(digits)) % (ULONG_MAX + 1) else Value(digits))
  }

  lemma {:induction false} HexIsHex(n: nat)
    ensures forall c :: c in Hex(n) ==> IsHex(c) && !IsSpace(c) && c != '-' && c != '+' && c != '\0'
  {
    HexDigitIsHex(n % 16);
    if n >= 16 { HexIsHex(n / 16); }
  }

  lemma HexDigitIsHex(n: nat)
    requires n < 16
    ensures IsHex(HexDigit(n)) && DigitValue(HexDigit(n)) == n
    ensures !IsSpace(HexDigit(n)) && HexDigit(n) != '-' && HexDigit(n) != '+' && HexDigit(n) != '\0'
  {
  }

  lemma ValueOfMore(digits: Text, n: nat)
    requires n < 16 && forall c :: c in digits ==> IsHex(c)
    ensures (forall c :: c in digits + [HexDigit(n)] ==> IsHex(c)) && Value(digits + [HexDigit(n)]) == 16 * Value(digits) + n
  {
    HexDigitIsHex(n);
    assert (digits + [HexDigit(n)])[..|digits|] == digits;
  }

  lemma {:induction false} HexValue(n: nat)
    ensures forall c :: c in Hex(n) ==> IsHex(c)
    ensures Value(Hex(n)) == n
  {
    HexIsHex(n);
    if n >= 16 {
      HexValue(n / 16);
      ValueOfMore(Hex(n / 16), n % 16);
    } else {
      ValueOfMore([], n);
    }
  }

  lemma {:induction false} DigitsBefore(digits: Text, rest: Text)
    requires (forall c :: c in digits ==> IsHex(c)) && rest != [] && !IsHex(rest[0])
    ensures Digits(digits + rest) == digits
  {
    if digits == [] {
      assert digits + rest == rest;
    } else {
      assert (digits + rest)[1..] == digits[1..] + rest;
      DigitsBefore(digits[1..], rest);
    }
  }

  lemma StrtoulOfDigits(digits: Text)
    requires digits != [] && (forall c :: c in digits ==> IsHex(c)) && Value(digits) < ULONG_MAX
    ensures Strtoul(digits + CRLF) == Some(Value(digits))
  {
    var s := digits + CRLF;
    assert s[0] == digits[0] && s[0] in digits;
    if |digits| >= 2 {
      assert s[1] == digits[1] && s[1] in digits;
    }
    assert SkipSpaces(s) == s && SkipPrefix(s) == s;
    DigitsBefore(digits, CRLF);
  }

  /** The size that the writer prints is the size the reader reads. */
  lemma StrtoulOfHex(n: nat)
    requires n < ULONG_MAX
    ensures Strtoul(Hex(n) + CRLF) == Some(n)
  {
    HexIsHex(n);
    HexValue(n);
    StrtoulOfDigits(Hex(n));
  }

  // ---- Lines -------------------------------------------------------------------------------------------

  /** A line with its line feed, or what is left of a stream without one; none at the end. */
  function NextLine(s: Text): (r: Option<Text>)
    ensures r.Some? ==> r.value != [] && r.value <= s
    ensures r.None? <==> s == []
  {
    if s == [] then None
    else if s[0] == '\n' then Some([s[0]])
    else
      match NextLine(s[1..])
      case None => Some([s[0]])
      case Some(rest) => Some([s[0]] + rest)
  }

  lemma {:induction false} LineBefore(line: Text, rest: Text)
    requires line != [] && line[|line| - 1] == '\n' && forall i :: 0 <= i < |line| - 1 ==> line[i] != '\n'
    ensures NextLine(line + rest) == Some(line)
  {
    var s := line + rest;
    assert s[0] == line[0];
    if |line| > 1 {
      assert s[0] != '\n';
      assert s[1..] == line[1..] + rest;
      LineBefore(line[1..], rest);
      assert line == [line[0]] + line[1..];
    } else {
      assert line == [line[0]];
    }
  }

  /** What a C function sees of a text. */
  function CStr(s: Text): Text {
    if s == [] || s[0] == '\0' then [] else [s[0]] + CStr(s[1..])
  }

  lemma {:induction false} CStrWithoutNul(s: Text)
    requires '\0' !in s
    ensures CStr(s) == s
  {
    if s != [] {
      assert s[0] in s;
      CStrWithoutNul(s[1..]);
    }
  }

  // ---- The reader, on values -----------------------------------------------------------------------------

  /** Whether reading succeeded, the content handed to the receiver, and what is left of the stream. */
  datatype Read = Read(ok: bool, content: Text, rest: Text)

  /** A result after some content was already handed over. */
  function Prefixed(done: Text, r: Read): Read {
    Read(r.ok, done + r.content, r.rest)
  }

  /** The lines after the last chunk, up to the empty line. */
  function Trailer(s: Text): Read
    decreases |s|
  {
    match NextLine(s)
    case None => Read(false, [], [])
    case Some(line) =>
      var rest := s[|line|..];
      if CStr(line) == CRLF then Read(true, [], rest)
      else if |line| > HEADER_MAX_LENGTH then Read(false, [], rest)
      else Trailer(rest)
  }

  /** The loop of read_content_chunked, with a size line read and the stream after it. */
  function DecodeFrom(line: Text, rest: Text): Read
    decreases |rest|, 0
  {
    match Strtoul(CStr(line))
    case None => Read(false, [], rest)
    case Some(n) =>
      if n == ULONG_MAX then Read(false, [], rest)
      else if n == 0 then Trailer(rest)
      else if |rest| < n then Read(false, rest, [])
      else After(rest[..n], rest[n..])
  }

  /** What follows the n bytes of a chunk: the line end and the next chunks. */
  function After(content: Text, rest: Text): Read
    decreases |rest|, 1
  {
    match NextLine(rest)
    case None => Read(false, content, [])
    case Some(end) =>
      var after := rest[|end|..];
      if CStr(end) != CRLF then Read(false, content, after)
      else
        match NextLine(after)
        case None => Read(false, content, [])
        case Some(line) =>
          var more := DecodeFrom(line, after[|line|..]);
          Read(more.ok, content + more.content, more.rest)
  }

  /** read_content_chunked */
  function Decode(s: Text): Read {
    match NextLine(s)
    case None => Read(false, [], [])
    case Some(line) => DecodeFrom(line, s[|line|..])
  }

  // ---- The writer, on values --------------------------------------------------------------------------------

  function Chunk(payload: Text): Text {
    Hex(|payload|) + CRLF + payload + CRLF
  }

  const LAST_CHUNK: Text := "0\r\n\r\n"

  function Encode(payloads: seq<Text>): Text {
    if payloads == [] then LAST_CHUNK else Chunk(payloads[0]) + Encode(payloads[1..])
  }

  /** Payloads that a writer with size_t lengths can frame. */
  ghost predicate Framable(payloads: seq<Text>) {
    forall p :: p in payloads ==> 0 < |p| < ULONG_MAX
  }

  lemma DecodeLast(tail: Text)
    ensures Decode(LAST_CHUNK + tail) == Read(true, [], tail)
  {
    var s := LAST_CHUNK + tail;
    assert s == "0\r\n" + (CRLF + tail);
    LineBefore("0\r\n", CRLF + tail);
    CStrWithoutNul("0\r\n");
    StrtoulOfHex(0);
    assert Hex(0) + CRLF == "0\r\n";
    assert s[3..] == CRLF + tail;
    LineBefore(CRLF, tail);
    CStrWithoutNul(CRLF);
    assert (CRLF + tail)[2..] == tail;
  }

  lemma SizeLine(n: nat, rest: Text)
    requires n < ULONG_MAX
    ensures NextLine(Hex(n) + CRLF + rest) == Some(Hex(n) + CRLF)
    ensures Strtoul(CStr(Hex(n) + CRLF)) == Some(n)
  {
    var line := Hex(n) + CRLF;
    HexIsHex(n);
    forall i | 0 <= i < |line| - 1 ensures line[i] != '\n' {
      if i < |Hex(n)| { assert line[i] == Hex(n)[i] && Hex(n)[i] in Hex(n); }
    }
    LineBefore(line, rest);
    assert '\0' !in line;
    CStrWithoutNul(line);
    StrtoulOfHex(n);
  }

  lemma EndLine(rest: Text)
    ensures NextLine(CRLF + rest) == Some(CRLF) && CStr(CRLF) == CRLF
  {
    LineBefore(CRLF, rest);
    CStrWithoutNul(CRLF);
  }

  lemma LongEnough(line: Text, rest: Text, n: nat)
    requires Strtoul(CStr(line)) == Some(n) && 0 < n < ULONG_MAX && n <= |rest|
    ensures DecodeFrom(line, rest) == After(rest[..n], rest[n..])
  {
  }

  lemma AfterEnd(content: Text, after: Text)
    ensures After(content, CRLF + after) == Prefixed(content, Decode(after))
  {
    EndLine(after);
    assert (CRLF + after)[2..] == after;
  }

  /** One chunk in front of anything. */
  lemma DecodeChunk(payload: Text, after: Text)
    requires 0 < |payload| < ULONG_MAX
    ensures Decode(Chunk(payload) + after) == Prefixed(payload, Decode(after))
  {
    var n := |payload|;
    var line, rest := Hex(n) + CRLF, payload + (CRLF + after);
    assert Chunk(payload) + after == line + rest;
    SizeLine(n, rest);
    assert (line + rest)[|line|..] == rest;
    LongEnough(line, rest, n);
    assert rest[n..] == CRLF + after && rest[..n] == payload;
    AfterEnd(payload, after);
  }

  /** The reader returns exactly the payloads and leaves exactly what follows the framing. */
  lemma {:induction false} DecodeEncode(payloads: seq<Text>, tail: Text)
    requires Framable(payloads)
    ensures Decode(Encode(payloads) + tail) == Read(true, Concat(payloads), tail)
  {
    if payloads == [] {
      DecodeLast(tail);
    } else {
      assert payloads[0] in payloads;
      DecodeEncode(payloads[1..], tail);
      assert Encode(payloads) + tail == Chunk(payloads[0]) + (Encode(payloads[1..]) + tail);
      DecodeChunk(payloads[0], Encode(payloads[1..]) + tail);
    }
  }

  /** The framing is unambiguous: equal encodings have equal contents. */
  lemma EncodeInjective(a: seq<Text>, b: seq<Text>)
    requires Framable(a) && Framable(b) && Encode(a) == Encode(b)
    ensures Concat(a) == Concat(b)
  {
    DecodeEncode(a, []);
    DecodeEncode(b, []);
    assert Encode(a) + [] == Encode(a) && Encode(b) + [] == Encode(b);
  }

  /** Chunks without the last one are not accepted. */
  lemma {:induction false} UnfinishedIsRejected(payloads: seq<Text>)
    requires Framable(payloads)
    ensures !Decode(Chunks(payloads)).ok && Decode(Chunks(payloads)).content == Concat(payloads)
  {
    if payloads != [] {
      assert payloads[0] in payloads;
      UnfinishedIsRejected(payloads[1..]);
      DecodeChunk(payloads[0], Chunks(payloads[1..]));
    }
  }

  function Chunks(payloads: seq<Text>): Text {
    if payloads == [] then [] else Chunk(payloads[0]) + Chunks(payloads[1..])
  }

  // ---- Streams -----------------------------------------------------------------------------------------------

  /** A socket.  It delivers at least a byte while there are any, and accepts at least a byte. */
  class Stream {
    var incoming: Text
    var outgoing: Text

    constructor (incoming: Text)
      ensures this.incoming == incoming && outgoing == []
    {
      this.incoming := incoming;
      outgoing := [];
    }

    /** As many bytes as the socket pleases, at most size. */
    method Read(size: nat) returns (data: Text)
      requires size > 0
      modifies `incoming
      ensures old(incoming) == data + incoming && |data| <= size
      ensures data == [] <==> old(incoming) == []
    {
      if incoming == [] {
        return [];
      }
      var n: nat :| 1 <= n <= size && n <= |incoming|;
      data, incoming := incoming[..n], incoming[n..];
    }

    method Write(data: Text) returns (length: nat)
      requires data != []
      modifies `outgoing
      ensures 1 <= length <= |data| && outgoing == old(outgoing) + data[..length]
    {
      length :| 1 <= length <= |data|;
      outgoing := outgoing + data[..length];
    }

    /** write_data */
    method WriteData(d: Text)
      modifies `outgoing
      ensures outgoing == old(outgoing) + d
    {
      var offset := 0;
      while offset < |d|
        invariant 0 <= offset <= |d|
        invariant outgoing + d[offset..] == old(outgoing) + d
      {
        var length := Write(d[offset..]);
        assert d[offset..][..length] + d[offset + length..] == d[offset..];
        offset := offset + length;
      }
    }
  }

  // ---- stream_line_reader ---------------------------------------------------------------------------------------

  class StreamLineReader {
    const strm: Stream
    const fixedBuffer: array<char>
    var usedSize: nat
    var growable: Text

    ghost predicate Valid()
      reads this, fixedBuffer
    {
      0 < fixedBuffer.Length && usedSize < fixedBuffer.Length
      && (growable != [] ==> usedSize == fixedBuffer.Length - 1)
    }

    /** What ptr() and size() describe. */
    function Line(): Text
      requires Valid()
      reads this, fixedBuffer
    {
      if growable == [] then fixedBuffer[..usedSize] else growable
    }

    constructor (strm: Stream, bufsiz: nat)
      requires bufsiz > 0
      ensures Valid() && this.strm == strm && fresh(fixedBuffer)
    {
      this.strm := strm;
      fixedBuffer := new char[bufsiz](_ => '\0');
      usedSize, growable := 0, [];
    }

    /** Short lines stay in the fixed buffer, which keeps room for the terminator. */
    method Append(c: char)
      requires Valid()
      modifies this, fixedBuffer
      ensures Valid() && Line() == old(Line()) + [c]
    {
      if usedSize < fixedBuffer.Length - 1 {
        fixedBuffer[usedSize] := c;
        usedSize := usedSize + 1;
        fixedBuffer[usedSize] := '\0';
        assert fixedBuffer[..usedSize] == old(fixedBuffer[..usedSize]) + [c];
      } else {
        if growable == [] {
          growable := fixedBuffer[..usedSize];
        }
        growable := growable + [c];
      }
    }

    /** Reads byte by byte up to a line feed. */
    method GetLine() returns (ok: bool)
      requires Valid()
      modifies this, fixedBuffer, strm
      ensures Valid() && strm.outgoing == old(strm.outgoing)
      ensures ok <==> NextLine(old(strm.incoming)).Some?
      ensures ok ==> Some(Line()) == NextLine(old(strm.incoming)) && old(strm.incoming) == Line() + strm.incoming
      ensures !ok ==> strm.incoming == []
    {
      usedSize, growable := 0, [];
      ghost var all := strm.incoming;
      while true
        invariant Valid() && all == Line() + strm.incoming && strm.outgoing == old(strm.outgoing)
        invariant '\n' !in Line()
        decreases |strm.incoming|
      {
        var byte := strm.Read(1);
        if byte == [] {
          if Line() == [] {
            return false;
          }
          NoLineFeed(Line());
          assert all == Line();
          break;
        }
        ghost var before := Line();
        Append(byte[0]);
        assert all == Line() + strm.incoming;
        if byte[0] == '\n' {
          forall i | 0 <= i < |Line()| - 1 ensures Line()[i] != '\n' { assert Line()[i] == before[i]; }
          LineBefore(Line(), strm.incoming);
          assert NextLine(all) == Some(Line());
          break;
        }
      }
      return true;
    }
  }

  lemma {:induction false} NoLineFeed(s: Text)
    requires s != [] && '\n' !in s
    ensures NextLine(s) == Some(s)
  {
    assert s[0] in s;
    if |s| > 1 {
      NoLineFeed(s[1..]);
      assert s == [s[0]] + s[1..];
    } else {
      assert s == [s[0]] && s[1..] == [];
    }
  }

  // ---- read_content_chunked -------------------------------------------------------------------------------

  /** The content receiver: keeps everything. */
  class Receiver {
    var content: Text

    constructor ()
      ensures content == []
    {
      content := [];
    }
  }

  /** read_content_with_length: any number of short reads. */
  method ReadContentWithLength(strm: Stream, len: nat, out: Receiver) returns (ok: bool)
    modifies strm, out
    ensures ok <==> len <= |old(strm.incoming)|
    ensures out.content == old(out.content) + (if ok then old(strm.incoming)[..len] else old(strm.incoming))
    ensures strm.incoming == (if ok then old(strm.incoming)[len..] else []) && strm.outgoing == old(strm.outgoing)
  {
    ghost var all, before := strm.incoming, out.content;
    var r := 0;
    while r < len
      invariant 0 <= r <= len && r <= |all|
      invariant strm.incoming == all[r..] && out.content == before + all[..r] && strm.outgoing == old(strm.outgoing)
    {
      var readLen := len - r;
      var data := strm.Read(if readLen < RECV_BUFSIZ then readLen else RECV_BUFSIZ);
      if data == [] {
        assert all[..r] == all;
        return false;
      }
      assert all[r..][..|data|] == data;
      assert all[..r] + data == all[..r + |data|];
      out.content := out.content + data;
      r := r + |data|;
    }
    return true;
  }

  /** The lines after the last chunk. */
  method ReadTrailer(lineReader: StreamLineReader) returns (ok: bool)
    requires lineReader.Valid()
    modifies lineReader, lineReader.fixedBuffer, lineReader.strm
    ensures lineReader.Valid() && lineReader.strm.outgoing == old(lineReader.strm.outgoing)
    ensures Read(ok, [], lineReader.strm.incoming) == Trailer(old(lineReader.strm.incoming))
  {
    ghost var all := lineReader.strm.incoming;
    var line := lineReader.GetLine();
    if !line {
      return false;
    }
    while CStr(lineReader.Line()) != CRLF
      invariant lineReader.Valid() && lineReader.strm.outgoing == old(lineReader.strm.outgoing)
      invariant NextLine(lineReader.Line() + lineReader.strm.incoming) == Some(lineReader.Line())
      invariant Trailer(lineReader.Line() + lineReader.strm.incoming) == Trailer(all)
      decreases |lineReader.strm.incoming|
    {
      ghost var here := lineReader.Line() + lineReader.strm.incoming;
      assert here[|lineReader.Line()|..] == lineReader.strm.incoming;
      if |lineReader.Line()| > HEADER_MAX_LENGTH {
        return false;
      }
      line := lineReader.GetLine();
      if !line {
        return false;
      }
    }
    ghost var here := lineReader.Line() + lineReader.strm.incoming;
    assert here[|lineReader.Line()|..] == lineReader.strm.incoming;
    return true;
  }

  /** read_content_chunked */
  method ReadContentChunked(strm: Stream, out: Receiver) returns (ok: bool)
    modifies strm, out
    ensures Read(ok, out.content, strm.incoming) == Prefixed(old(out.content), Decode(old(strm.incoming)))
    ensures strm.outgoing == old(strm.outgoing)
  {
    var lineReader := new StreamLineReader(strm, 16);
    ghost var all := strm.incoming;
    var line := lineReader.GetLine();
    if !line {
      return false;
    }
    assert all[|lineReader.Line()|..] == strm.incoming;
    ghost var done;
    ok, done := ReadChunks(lineReader, out);
  }

  lemma PrefixedTwice(a: Text, b: Text, r: Read)
    ensures Prefixed(a, Prefixed(b, r)) == Prefixed(a + b, r)
  {
    assert a + (b + r.content) == a + b + r.content;
  }

  lemma EndOfDone(done: Text, line: Text, rest: Text)
    requires Strtoul(CStr(line)) == Some(0)
    ensures Prefixed(done, DecodeFrom(line, rest)) == Read(Trailer(rest).ok, done, Trailer(rest).rest)
  {
    TrailerHasNoContent(rest);
  }

  lemma {:induction false} TrailerHasNoContent(s: Text)
    ensures Trailer(s).content == []
    decreases |s|
  {
    match NextLine(s)
    case None =>
    case Some(line) => TrailerHasNoContent(s[|line|..]);
  }

  /** The loop over the chunks and the trailer; done is what it hands to the receiver. */
  method ReadChunks(lineReader: StreamLineReader, out: Receiver) returns (ok: bool, ghost done: Text)
    requires lineReader.Valid()
    modifies lineReader, lineReader.fixedBuffer, lineReader.strm, out
    ensures lineReader.Valid() && lineReader.strm.outgoing == old(lineReader.strm.outgoing)
    ensures out.content == old(out.content) + done
    ensures Read(ok, done, lineReader.strm.incoming) == DecodeFrom(old(lineReader.Line()), old(lineReader.strm.incoming))
  {
    ghost var result := DecodeFrom(lineReader.Line(), lineReader.strm.incoming);
    done := [];
    while true
      invariant lineReader.Valid() && lineReader.strm.outgoing == old(lineReader.strm.outgoing)
      invariant out.content == old(out.content) + done
      invariant result == Prefixed(done, DecodeFrom(lineReader.Line(), lineReader.strm.incoming))
      decreases |lineReader.strm.incoming|
    {
      var chunkLen := Strtoul(CStr(lineReader.Line()));
      if chunkLen.None? || chunkLen.value == ULONG_MAX {
        return false, done;
      }
      if chunkLen.value == 0 {
        break;
      }
      var more;
      ghost var chunk;
      more, chunk := ReadChunk(lineReader, chunkLen.value, out);
      Associate(old(out.content), done, chunk);
      if !more {
        return false, done + chunk;
      }
      PrefixedTwice(done, chunk, DecodeFrom(lineReader.Line(), lineReader.strm.incoming));
      done := done + chunk;
    }
    EndOfDone(done, lineReader.Line(), lineReader.strm.incoming);
    ok := ReadTrailer(lineReader);
  }

  /** Reads a chunk of n bytes, its line end and the next size line. */
  method ReadChunk(lineReader: StreamLineReader, n: nat, out: Receiver) returns (ok: bool, ghost chunk: Text)
    requires lineReader.Valid() && Strtoul(CStr(lineReader.Line())) == Some(n) && 0 < n < ULONG_MAX
    modifies lineReader, lineReader.fixedBuffer, lineReader.strm, out
    ensures lineReader.Valid() && lineReader.strm.outgoing == old(lineReader.strm.outgoing)
    ensures out.content == old(out.content) + chunk
    ensures ok ==> |lineReader.strm.incoming| < |old(lineReader.strm.incoming)|
    ensures DecodeFrom(old(lineReader.Line()), old(lineReader.strm.incoming)) ==
            if ok then Prefixed(chunk, DecodeFrom(lineReader.Line(), lineReader.strm.incoming))
            else Read(false, chunk, lineReader.strm.incoming)
  {
    ghost var line, rest := lineReader.Line(), lineReader.strm.incoming;
    ok := ReadContentWithLength(lineReader.strm, n, out);
    chunk := if ok then rest[..n] else rest;
    if ok {
      LongEnough(line, rest, n);
      ok := EndOfChunk(lineReader, chunk);
    }
  }

  /** Reads the line end of a chunk and the next size line. */
  method EndOfChunk(lineReader: StreamLineReader, ghost chunk: Text) returns (ok: bool)
    requires lineReader.Valid()
    modifies lineReader, lineReader.fixedBuffer, lineReader.strm
    ensures lineReader.Valid() && lineReader.strm.outgoing == old(lineReader.strm.outgoing)
    ensures |lineReader.strm.incoming| <= |old(lineReader.strm.incoming)|
    ensures var r := After(chunk, old(lineReader.strm.incoming));
            if ok then r == Prefixed(chunk, DecodeFrom(lineReader.Line(), lineReader.strm.incoming))
            else r == Read(false, chunk, lineReader.strm.incoming)
  {
    ghost var rest := lineReader.strm.incoming;
    var line := lineReader.GetLine();
    if !line {
      return false;
    }
    ghost var after := lineReader.strm.incoming;
    assert rest[|lineReader.Line()|..] == after;
    if CStr(lineReader.Line()) != CRLF {
      return false;
    }
    line := lineReader.GetLine();
    if !line {
      return false;
    }
    assert after[|lineReader.Line()|..] == lineReader.strm.incoming;
    return true;
  }

  // ---- write_content_chunked ------------------------------------------------------------------------------

  /** What a content provider does with the sink it is given. */
  datatype Action = Write(data: Text) | Done

  class DataSink {
    const strm: Stream
    var offset: nat
    var dataAvailable: bool

    constructor (strm: Stream)
      ensures this.strm == strm && offset == 0 && dataAvailable
    {
      this.strm := strm;
      offset, dataAvailable := 0, true;
    }

    /** data_sink.write without compression: an empty payload emits nothing, but ends the loop. */
    method Write(d: Text)
      modifies this, strm
      ensures strm.outgoing == old(strm.outgoing) + (if d == [] then [] else Chunk(d)) && strm.incoming == old(strm.incoming)
      ensures offset == old(offset) + |d| && dataAvailable == (d != [])
    {
      dataAvailable := |d| > 0;
      offset := offset + |d|;
      if d != [] {
        var size := FromIToHex(|d|);
        strm.WriteData(size + CRLF + d + CRLF);
      }
    }

    /** data_sink.done */
    method Finish()
      modifies this, strm
      ensures strm.outgoing == old(strm.outgoing) + LAST_CHUNK && strm.incoming == old(strm.incoming)
      ensures !dataAvailable && offset == old(offset)
    {
      dataAvailable := false;
      strm.WriteData("0\r\n");
      ghost var before := strm.outgoing;
      strm.WriteData(CRLF);
      assert "0\r\n" + CRLF == LAST_CHUNK;
    }
  }

  /** What a list of provider calls leaves on the stream, one action a call. */
  function Emitted(actions: seq<Action>): Text {
    if actions == [] then []
    else
      match actions[0]
      case Done => LAST_CHUNK
      case Write(d) => if d == [] then [] else Chunk(d) + Emitted(actions[1..])
  }

  /** Whether the loop was ended by the provider. */
  predicate Ended(actions: seq<Action>) {
    actions != [] && (actions[0].Done? || actions[0].data == [] || Ended(actions[1..]))
  }

  lemma EmittedWrite(before: Text, d: Text, todo: seq<Action>)
    requires todo != [] && todo[0] == Write(d)
    ensures d != [] ==> before + Chunk(d) + Emitted(todo[1..]) == before + Emitted(todo) && (Ended(todo[1..]) <==> Ended(todo))
    ensures d == [] ==> before + [] == before + Emitted(todo) && Ended(todo)
  {
    if d != [] { Associate(before, Chunk(d), Emitted(todo[1..])); }
  }

  /** write_content_chunked: the provider is called while data is available; when it has no action left it
      cancels. */
  method WriteContentChunked(strm: Stream, actions: seq<Action>) returns (ok: bool)
    modifies strm
    ensures strm.outgoing == old(strm.outgoing) + Emitted(actions) && strm.incoming == old(strm.incoming)
    ensures ok <==> Ended(actions)
  {
    var sink := new DataSink(strm);
    var i := 0;
    while sink.dataAvailable
      invariant fresh(sink) && sink.strm == strm && i <= |actions| && strm.incoming == old(strm.incoming)
      invariant sink.dataAvailable ==> strm.outgoing + Emitted(actions[i..]) == old(strm.outgoing) + Emitted(actions)
      invariant sink.dataAvailable ==> (Ended(actions[i..]) <==> Ended(actions))
      invariant !sink.dataAvailable ==> strm.outgoing == old(strm.outgoing) + Emitted(actions) && Ended(actions)
      decreases |actions| - i, sink.dataAvailable
    {
      if i == |actions| {
        return false;
      }
      ghost var todo, before := actions[i..], strm.outgoing;
      assert todo[0] == actions[i] && todo[1..] == actions[i + 1..];
      match actions[i] {
        case Write(d) =>
          sink.Write(d);
          EmittedWrite(before, d, todo);
        case Done => sink.Finish();
      }
      i := i + 1;
    }
    return true;
  }

  function Writes(payloads: seq<Text>): (r: seq<Action>)
    ensures |r| == |payloads| && forall i :: 0 <= i < |r| ==> r[i] == Write(payloads[i])
  {
    seq(|payloads|, i requires 0 <= i < |payloads| => Write(payloads[i]))
  }

  lemma {:induction false} EmittedIsEncoded(payloads: seq<Text>, more: seq<Action>)
    requires Framable(payloads)
    ensures Emitted(Writes(payloads) + [Done] + more) == Encode(payloads)
    ensures Ended(Writes(payloads) + [Done] + more)
  {
    var actions := Writes(payloads) + [Done] + more;
    if payloads == [] {
      assert actions[0] == Done;
    } else {
      assert payloads[0] in payloads;
      assert actions[0] == Write(payloads[0]);
      assert actions[1..] == Writes(payloads[1..]) + [Done] + more;
      EmittedIsEncoded(payloads[1..], more);
    }
  }

  /** Whatever non-empty payloads are written before done, the reader returns their concatenation and
      consumes exactly what was written. */
  lemma RoundTrip(payloads: seq<Text>, more: seq<Action>, tail: Text)
    requires Framable(payloads)
    ensures Decode(Emitted(Writes(payloads) + [Done] + more) + tail) == Read(true, Concat(payloads), tail)
  {
    EmittedIsEncoded(payloads, more);
    DecodeEncode(payloads, tail);
  }

  /** An empty write ends the body without the last chunk, and the reader then fails at the end of the
      stream, having received the payloads so far. */
  lemma {:induction false} EmptyWriteTruncates(payloads: seq<Text>, more: seq<Action>)
    requires Framable(payloads)
    ensures Ended(Writes(payloads) + [Write([])] + more)
    ensures Emitted(Writes(payloads) + [Write([])] + more) == Chunks(payloads)
  {
    var actions := Writes(payloads) + [Write([])] + more;
    if payloads == [] {
      assert actions[0] == Write([]);
    } else {
      assert payloads[0] in payloads;
      assert actions[0] == Write(payloads[0]);
      assert actions[1..] == Writes(payloads[1..]) + [Write([])] + more;
      EmptyWriteTruncates(payloads[1..], more);
    }
  }

  /** The first action that ends the provider loop is done, not an empty write. */
  predicate EndsWithDone(actions: seq<Action>) {
    actions != [] && (actions[0].Done? || (actions[0].data != [] && EndsWithDone(actions[1..])))
  }

  /** What the provider wrote before the loop ended. */
  function Written(actions: seq<Action>): Text {
    if actions == [] || actions[0].Done? || actions[0].data == [] then []
    else actions[0].data + Written(actions[1..])
  }

  /** Writes that a writer with size_t lengths can frame. */
  ghost predicate Writable(actions: seq<Action>) {
    forall a :: a in actions && a.Write? ==> |a.data| < ULONG_MAX
  }

  lemma DecodeEmitted(d: Text, more: seq<Action>, tail: Text)
    requires 0 < |d| < ULONG_MAX
    ensures Decode(Chunk(d) + Emitted(more) + tail) == Prefixed(d, Decode(Emitted(more) + tail))
  {
    Associate(Chunk(d), Emitted(more), tail);
    DecodeChunk(d, Emitted(more) + tail);
  }

  /** For every list of provider calls the reader gets what was written, and it accepts the body exactly if the
      loop was ended by done.  Ended by an empty write, the loop reports success for a body that is not accepted. */
  lemma {:induction false} DecodesIffDone(actions: seq<Action>)
    requires Writable(actions)
    ensures Decode(Emitted(actions)) == Read(EndsWithDone(actions), Written(actions), [])
  {
    if actions != [] && actions[0].Write? && actions[0].data != [] {
      assert actions[0] in actions;
      DecodesIffDone(actions[1..]);
      DecodeChunk(actions[0].data, Emitted(actions[1..]));
    } else if actions != [] && actions[0].Done? {
      DecodeLast([]);
      assert LAST_CHUNK + [] == LAST_CHUNK;
    }
  }

  /** What follows a body that was ended by done is left on the stream. */
  lemma {:induction false} DoneLeavesTail(actions: seq<Action>, tail: Text)
    requires Writable(actions) && EndsWithDone(actions)
    ensures Decode(Emitted(actions) + tail) == Read(true, Written(actions), tail)
  {
    if actions[0].Done? {
      DecodeLast(tail);
    } else {
      assert actions[0] in actions;
      DoneLeavesTail(actions[1..], tail);
      DecodeEmitted(actions[0].data, actions[1..], tail);
    }
  }
}
