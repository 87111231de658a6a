/** Which byte streams the chunked reader accepts: the numerals that strtoul reads, and the framings built on them. */
module ChunkedGrammar {
  import opened HttpText
  import opened Options
  import opened Sequences
  import opened ChunkedFraming

  // ---- Numerals ---------------------------------------------------------------------------------------

  const LOWER_DIGITS: Text := "0123456789abcdef"
  const UPPER_DIGITS: Text := "0123456789ABCDEF"
  const WHITE_SPACE: Text := " \t\n\U{0B}\U{0C}\r"

  /** c is the digit n, in either case. */
  predicate IsDigit(c: char, n: nat) {
    n < 16 && (c == LOWER_DIGITS[n] || c == UPPER_DIGITS[n])
  }

  predicate Spells(digits: Text, ds: seq<nat>) {
    |digits| == |ds| && forall i :: 0 <= i < |ds| ==> IsDigit(digits[i], ds[i])
  }

  function Pow16(n: nat): nat {
    if n == 0 then 1 else 16 * Pow16(n - 1)
  }

  /** The number with the given digits, the most significant one first. */
  function Number(ds: seq<nat>): nat {
    if ds == [] then 0 else ds[0] * Pow16(|ds| - 1) + Number(ds[1..])
  }

  /** The parts of a text that starts with a number. */
  datatype Numeral = Numeral(spaces: Text, sign: Text, prefix: Text, digits: Text, rest: Text)
  {
    function Unsigned(): Text {
      prefix + (digits + rest)
    }

    function All(): Text {
      spaces + (sign + Unsigned())
    }
  }

  predicate StartsWithDigit(s: Text) {
    s != [] && exists n :: 0 <= n < 16 && IsDigit(s[0], n)
  }

  /** The digits end where no digit follows; a zero in front of an x and a digit belongs to the prefix. */
  ghost predicate WellFormedNumeral(d: Numeral, ds: seq<nat>) {
    && (forall c :: c in d.spaces ==> c in WHITE_SPACE)
    && (d.sign == "" || d.sign == "+" || d.sign == "-")
    && (d.prefix == "" || d.prefix == "0x" || d.prefix == "0X")
    && ds != [] && Spells(d.digits, ds) && !StartsWithDigit(d.rest)
    && (d.prefix == "" && d.digits == "0" && |d.rest| >= 2 && d.rest[0] in "xX" ==> !StartsWithDigit(d.rest[1..]))
  }

  /** The unsigned long for a sign and a number. */
  function Converted(sign: Text, n: nat): nat {
    if n > ULONG_MAX then ULONG_MAX
    else if sign == "-" && n > 0 then ULONG_MAX + 1 - n
    else n
  }

  lemma DigitIsHex(c: char, n: nat)
    requires IsDigit(c, n)
    ensures IsHex(c) && DigitValue(c) == n && !IsSpace(c) && c != '+' && c != '-' && c != 'x' && c != 'X'
  {
  }

  lemma HexIsDigit(c: char)
    requires IsHex(c)
    ensures IsDigit(c, DigitValue(c))
  {
  }

  lemma DigitStarts(s: Text)
    ensures StartsWithDigit(s) <==> s != [] && IsHex(s[0])
  {
    if s != [] && IsHex(s[0]) { HexIsDigit(s[0]); }
    if StartsWithDigit(s) {
      var n :| 0 <= n < 16 && IsDigit(s[0], n);
      DigitIsHex(s[0], n);
    }
  }

  lemma SpaceIsWhite(c: char)
    ensures IsSpace(c) <==> c in WHITE_SPACE
  {
  }

  lemma {:induction false} NumberMore(ds: seq<nat>, d: nat)
    ensures Number(ds + [d]) == 16 * Number(ds) + d
  {
    if ds == [] {
      assert ds + [d] == [d] && [d][1..] == [];
    } else {
      NumberMore(ds[1..], d);
      assert (ds + [d])[1..] == ds[1..] + [d];
      Shifted(ds[0], Pow16(|ds| - 1));
    }
  }

  lemma Shifted(d: nat, p: nat)
    ensures d * (16 * p) == 16 * (d * p)
  {
  }

  lemma SpelledAreHex(digits: Text, ds: seq<nat>)
    requires Spells(digits, ds)
    ensures forall c :: c in digits ==> IsHex(c)
  {
    forall c | c in digits ensures IsHex(c) {
      var i :| 0 <= i < |digits| && digits[i] == c;
      DigitIsHex(c, ds[i]);
    }
  }

  /** The digits read have the value of the digits spelled. */
  lemma {:induction false} SpelledValue(digits: Text, ds: seq<nat>)
    requires Spells(digits, ds)
    ensures (forall c :: c in digits ==> IsHex(c)) && Value(digits) == Number(ds)
  {
    SpelledAreHex(digits, ds);
    if ds != [] {
      var n := |ds| - 1;
      SpelledValue(digits[..n], ds[..n]);
      DigitIsHex(digits[n], ds[n]);
      assert ds == ds[..n] + [ds[n]];
      NumberMore(ds[..n], ds[n]);
    }
  }

  lemma {:induction false} SpacesSkipped(spaces: Text, s: Text)
    requires (forall c :: c in spaces ==> c in WHITE_SPACE) && (s == [] || !IsSpace(s[0]))
    ensures SkipSpaces(spaces + s) == s
  {
    if spaces == [] {
      assert spaces + s == s;
    } else {
      assert spaces[0] in spaces;
      SpaceIsWhite(spaces[0]);
      assert (spaces + s)[1..] == spaces[1..] + s;
      SpacesSkipped(spaces[1..], s);
    }
  }

  lemma {:induction false} DigitsTaken(digits: Text, rest: Text)
    requires (forall c :: c in digits ==> IsHex(c)) && (rest == [] || !IsHex(rest[0]))
    ensures Digits(digits + rest) == digits
  {
    if digits == [] {
      assert digits + rest == rest;
    } else {
      assert digits[0] in digits && (digits + rest)[1..] == digits[1..] + rest;
      DigitsTaken(digits[1..], rest);
    }
  }

  /** Behind the sign, the prefix is skipped and the digits are taken. */
  lemma UnsignedRead(d: Numeral, ds: seq<nat>)
    requires WellFormedNumeral(d, ds)
    ensures Digits(SkipPrefix(d.Unsigned())) == d.digits
    ensures d.Unsigned() != [] && IsHex(d.Unsigned()[0])
  {
    SpelledAreHex(d.digits, ds);
    DigitStarts(d.rest);
    DigitsTaken(d.digits, d.rest);
    var t := d.digits + d.rest;
    assert t[0] == d.digits[0] && t[0] in d.digits;
    if d.prefix == "" {
      assert d.Unsigned() == t;
      NoPrefix(d, ds);
    } else {
      assert (d.prefix + t)[2..] == t && (d.prefix + t)[2] == t[0];
    }
  }

  lemma NoPrefix(d: Numeral, ds: seq<nat>)
    requires WellFormedNumeral(d, ds) && d.prefix == ""
    ensures SkipPrefix(d.digits + d.rest) == d.digits + d.rest
  {
    var t := d.digits + d.rest;
    if |t| >= 3 && t[0] == '0' && (t[1] == 'x' || t[1] == 'X') {
      if |d.digits| >= 2 {
        DigitIsHex(d.digits[1], ds[1]);
        assert false;
      } else {
        assert d.digits == "0" && t[1] == d.rest[0];
        DigitStarts(d.rest[1..]);
        assert t[2] == d.rest[1..][0];
      }
    }
  }

  /** A text behind its spaces, as a sign and the rest. */
  lemma SignRead(t: Text, sign: Text, u: Text)
    requires (sign == "" || sign == "+" || sign == "-") && t == sign + u && u != [] && IsHex(u[0])
    ensures !IsSpace(t[0]) && (t[0] == '-' <==> sign == "-") && (if t[0] == '-' || t[0] == '+' then t[1..] else t) == u
  {
    if sign == "" {
      assert t == u;
    } else {
      assert t[0] == sign[0] && t[1..] == u;
    }
  }

  lemma StrtoulOf(s: Text, t: Text, u: Text, digits: Text)
    requires SkipSpaces(s) == t && t != [] && u == (if t[0] == '-' || t[0] == '+' then t[1..] else t)
    requires Digits(SkipPrefix(u)) == digits && digits != []
    ensures Strtoul(s) == Some(Converted(if t[0] == '-' then "-" else "", Value(digits)))
  {
  }

  /** Every spelling of a number is read: either case, leading zeros, white space, a sign, a prefix, and anything
      behind it that is not a digit. */
  lemma NumeralIsRead(d: Numeral, ds: seq<nat>)
    requires WellFormedNumeral(d, ds)
    ensures Strtoul(d.All()) == Some(Converted(d.sign, Number(ds)))
  {
    UnsignedRead(d, ds);
    SpelledValue(d.digits, ds);
    var t := d.sign + d.Unsigned();
    SignRead(t, d.sign, d.Unsigned());
    SpacesSkipped(d.spaces, t);
    StrtoulOf(d.All(), t, d.Unsigned(), d.digits);
  }

  lemma {:induction false} SpacesOf(s: Text) returns (spaces: Text)
    ensures s == spaces + SkipSpaces(s) && forall c :: c in spaces ==> c in WHITE_SPACE
    ensures SkipSpaces(s) != [] ==> !IsSpace(SkipSpaces(s)[0])
  {
    if s != [] && IsSpace(s[0]) {
      SpaceIsWhite(s[0]);
      var more := SpacesOf(s[1..]);
      spaces := [s[0]] + more;
      assert s == [s[0]] + s[1..];
    } else {
      spaces := [];
    }
  }

  lemma {:induction false} DigitsSpelled(s: Text) returns (ds: seq<nat>)
    ensures Spells(Digits(s), ds) && !StartsWithDigit(s[|Digits(s)|..])
  {
    if s != [] && IsHex(s[0]) {
      HexIsDigit(s[0]);
      var more := DigitsSpelled(s[1..]);
      ds := [DigitValue(s[0])] + more;
      assert s[|Digits(s)|..] == s[1..][|Digits(s[1..])|..];
    } else {
      ds := [];
      DigitStarts(s);
      assert s[0..] == s;
    }
  }

  lemma SplitSign(t: Text) returns (sign: Text, u: Text)
    ensures (sign == "" || sign == "+" || sign == "-") && t == sign + u
    ensures u == if t != [] && (t[0] == '-' || t[0] == '+') then t[1..] else t
  {
    if t != [] && (t[0] == '-' || t[0] == '+') {
      sign, u := [t[0]], t[1..];
    } else {
      sign, u := [], t;
    }
  }

  lemma SplitDigits(u: Text, sign: Text, spaces: Text) returns (d: Numeral, ds: seq<nat>)
    requires (forall c :: c in spaces ==> c in WHITE_SPACE) && (sign == "" || sign == "+" || sign == "-")
    requires Digits(SkipPrefix(u)) != []
    ensures WellFormedNumeral(d, ds) && d.spaces == spaces && d.sign == sign && d.Unsigned() == u
  {
    var v := SkipPrefix(u);
    ds := DigitsSpelled(v);
    d := Numeral(spaces, sign, u[..|u| - |v|], Digits(v), v[|Digits(v)|..]);
    assert v == d.digits + d.rest;
    NotThePrefix(u, d, ds);
  }

  lemma DigitsRead(s: Text, t: Text, u: Text)
    requires SkipSpaces(s) == t && u == (if t != [] && (t[0] == '-' || t[0] == '+') then t[1..] else t)
    ensures Strtoul(s).Some? <==> Digits(SkipPrefix(u)) != []
  {
  }

  /** What is read is a numeral. */
  lemma ReadIsNumeral(s: Text) returns (d: Numeral, ds: seq<nat>)
    requires Strtoul(s).Some?
    ensures WellFormedNumeral(d, ds) && d.All() == s
  {
    var spaces := SpacesOf(s);
    var sign, u := SplitSign(SkipSpaces(s));
    DigitsRead(s, SkipSpaces(s), u);
    d, ds := SplitDigits(u, sign, spaces);
  }

  lemma NotThePrefix(u: Text, d: Numeral, ds: seq<nat>)
    requires d.digits + d.rest == SkipPrefix(u) && d.prefix == u[..|u| - |SkipPrefix(u)|] && Spells(d.digits, ds) && ds != []
    ensures d.prefix == "" || d.prefix == "0x" || d.prefix == "0X"
    ensures d.prefix == "" && d.digits == "0" && |d.rest| >= 2 && d.rest[0] in "xX" ==> !StartsWithDigit(d.rest[1..])
  {
    if SkipPrefix(u) == u {
      if d.digits == "0" && |d.rest| >= 2 && d.rest[0] in "xX" {
        assert u[0] == '0' && u[1] == d.rest[0] && u[2] == d.rest[1..][0];
        DigitStarts(d.rest[1..]);
      }
    } else {
      assert d.prefix == [u[0], u[1]];
    }
  }

  /** strtoul finds a number exactly in the texts that start with a numeral. */
  lemma StrtoulIff(s: Text)
    ensures Strtoul(s).Some? <==> exists d: Numeral, ds: seq<nat> :: WellFormedNumeral(d, ds) && d.All() == s
  {
    if Strtoul(s).Some? {
      var d, ds := ReadIsNumeral(s);
    }
    if d: Numeral, ds: seq<nat> :| WellFormedNumeral(d, ds) && d.All() == s {
      NumeralIsRead(d, ds);
    }
  }

  // ---- Framings ------------------------------------------------------------------------------------------

  datatype SizedChunk = SizedChunk(line: Text, payload: Text)

  /** Chunks with their size lines, the size line of the last chunk, and the lines before the empty one. */
  datatype Framing = Framing(chunks: seq<SizedChunk>, last: Text, trailer: seq<Text>)

  predicate IsLine(line: Text) {
    line != [] && line[|line| - 1] == '\n' && forall i :: 0 <= i < |line| - 1 ==> line[i] != '\n'
  }

  predicate Announces(line: Text, n: nat) {
    IsLine(line) && Strtoul(CStr(line)) == Some(n)
  }

  predicate WellFormed(f: Framing) {
    && (forall c :: c in f.chunks ==> Announces(c.line, |c.payload|) && 0 < |c.payload| < ULONG_MAX)
    && Announces(f.last, 0)
    && forall t :: t in f.trailer ==> IsLine(t) && t != CRLF && |t| <= HEADER_MAX_LENGTH
  }

  /** The chunks, and end behind them. */
  function Chunked(chunks: seq<SizedChunk>, end: Text): Text {
    if chunks == [] then end else chunks[0].line + (chunks[0].payload + (CRLF + Chunked(chunks[1..], end)))
  }

  /** The lines and the empty one, and tail behind them. */
  function TrailerStream(trailer: seq<Text>, tail: Text): Text {
    if trailer == [] then CRLF + tail else trailer[0] + TrailerStream(trailer[1..], tail)
  }

  /** The framing, and tail behind it. */
  function FramingStream(f: Framing, tail: Text): Text {
    Chunked(f.chunks, f.last + TrailerStream(f.trailer, tail))
  }

  function Payloads(chunks: seq<SizedChunk>): Text {
    if chunks == [] then [] else chunks[0].payload + Payloads(chunks[1..])
  }

  lemma LineFirst(line: Text, rest: Text)
    requires IsLine(line)
    ensures NextLine(line + rest) == Some(line) && (line + rest)[|line|..] == rest
  {
    LineBefore(line, rest);
  }

  /** A C string is the line end exactly when the line is. */
  lemma EndsInCrlf(line: Text)
    requires IsLine(line)
    ensures CStr(line) == CRLF <==> line == CRLF
  {
    if line == CRLF {
      CStrWithoutNul(CRLF);
    }
    if CStr(line) == CRLF {
      CStrIsPrefix(line);
      assert line[0] == '\r' && line[1] == '\n';
      assert |line| == 2;
    }
  }

  lemma {:induction false} CStrIsPrefix(s: Text)
    ensures CStr(s) <= s
  {
    if s != [] && s[0] != '\0' { CStrIsPrefix(s[1..]); }
  }

  lemma {:induction false} TrailerIsRead(trailer: seq<Text>, tail: Text)
    requires forall t :: t in trailer ==> IsLine(t) && t != CRLF && |t| <= HEADER_MAX_LENGTH
    ensures Trailer(TrailerStream(trailer, tail)) == Read(true, [], tail)
  {
    if trailer == [] {
      LineFirst(CRLF, tail);
      EndsInCrlf(CRLF);
    } else {
      assert trailer[0] in trailer;
      LineFirst(trailer[0], TrailerStream(trailer[1..], tail));
      EndsInCrlf(trailer[0]);
      TrailerIsRead(trailer[1..], tail);
    }
  }

  /** One chunk, however its size is written. */
  lemma ChunkIsRead(c: SizedChunk, after: Text)
    requires Announces(c.line, |c.payload|) && 0 < |c.payload| < ULONG_MAX
    ensures Decode(c.line + (c.payload + (CRLF + after))) == Prefixed(c.payload, Decode(after))
  {
    var rest := c.payload + (CRLF + after);
    LineFirst(c.line, rest);
    LongEnough(c.line, rest, |c.payload|);
    assert rest[..|c.payload|] == c.payload && rest[|c.payload|..] == CRLF + after;
    AfterEnd(c.payload, after);
  }

  lemma PrefixedRead(a: Text, b: Text, tail: Text)
    ensures Prefixed(a, Read(true, b, tail)) == Read(true, a + b, tail)
  {
  }

  lemma {:induction false} ChunksAreRead(chunks: seq<SizedChunk>, end: Text, tail: Text)
    requires forall c :: c in chunks ==> Announces(c.line, |c.payload|) && 0 < |c.payload| < ULONG_MAX
    requires Decode(end) == Read(true, [], tail)
    ensures Decode(Chunked(chunks, end)) == Read(true, Payloads(chunks), tail)
  {
    if chunks != [] {
      assert chunks[0] in chunks;
      ChunksAreRead(chunks[1..], end, tail);
      ChunkIsRead(chunks[0], Chunked(chunks[1..], end));
      PrefixedRead(chunks[0].payload, Payloads(chunks[1..]), tail);
    }
  }

  /** Every framing is accepted, with its payloads, and what follows stays on the stream. */
  lemma FramingIsAccepted(f: Framing, tail: Text)
    requires WellFormed(f)
    ensures Decode(FramingStream(f, tail)) == Read(true, Payloads(f.chunks), tail)
  {
    LineFirst(f.last, TrailerStream(f.trailer, tail));
    TrailerIsRead(f.trailer, tail);
    ChunksAreRead(f.chunks, f.last + TrailerStream(f.trailer, tail), tail);
  }

  /** A line read is complete when something follows it. */
  lemma {:induction false} LineComplete(s: Text)
    requires NextLine(s).Some? && s[|NextLine(s).value|..] != []
    ensures IsLine(NextLine(s).value)
  {
    if s[0] == '\n' {
    } else {
      assert NextLine(s[1..]).Some?;
      assert s[|NextLine(s).value|..] == s[1..][|NextLine(s[1..]).value|..];
      LineComplete(s[1..]);
      var more := NextLine(s[1..]).value;
      assert forall i :: 0 < i < |NextLine(s).value| ==> NextLine(s).value[i] == more[i - 1];
    }
  }

  /** The line end is complete in itself. */
  lemma {:induction false} LineEndComplete(s: Text)
    requires NextLine(s).Some? && CStr(NextLine(s).value) == CRLF
    ensures NextLine(s).value == CRLF
  {
    var line := NextLine(s).value;
    CStrIsPrefix(line);
    assert line[0] == '\r' && line[1] == '\n';
    assert s[0] == line[0] && s[1] == line[1];
    assert NextLine(s[1..]) == Some(['\n']);
  }

  lemma {:induction false} TrailerAccepted(s: Text) returns (trailer: seq<Text>)
    requires Trailer(s).ok
    ensures forall t :: t in trailer ==> IsLine(t) && t != CRLF && |t| <= HEADER_MAX_LENGTH
    ensures s == TrailerStream(trailer, Trailer(s).rest)
    decreases |s|
  {
    var line := NextLine(s).value;
    var rest := s[|line|..];
    assert s == line + rest;
    if CStr(line) == CRLF {
      LineEndComplete(s);
      trailer := [];
    } else {
      var more := TrailerAccepted(rest);
      LineComplete(s);
      EndsInCrlf(line);
      trailer := [line] + more;
      TrailerMore(line, more, Trailer(rest).rest);
    }
  }

  lemma TrailerMore(line: Text, more: seq<Text>, tail: Text)
    ensures TrailerStream([line] + more, tail) == line + TrailerStream(more, tail)
  {
    assert ([line] + more)[1..] == more;
  }

  lemma ChunkedMore(c: SizedChunk, more: seq<SizedChunk>, end: Text)
    ensures Chunked([c] + more, end) == c.line + (c.payload + (CRLF + Chunked(more, end)))
    ensures Payloads([c] + more) == c.payload + Payloads(more)
  {
    assert ([c] + more)[1..] == more;
  }

  /** A stream that is accepted begins with a framing. */
  lemma {:induction false} AcceptedIsFraming(s: Text) returns (f: Framing)
    requires Decode(s).ok
    ensures WellFormed(f) && s == FramingStream(f, Decode(s).rest) && Decode(s).content == Payloads(f.chunks)
    decreases |s|
  {
    var line := NextLine(s).value;
    var rest := s[|line|..];
    if Strtoul(CStr(line)) == Some(0) {
      f := AcceptedLast(s, line, rest);
    } else {
      var c, after := AcceptedChunk(s, line, rest);
      var more := AcceptedIsFraming(after);
      f := Framing([c] + more.chunks, more.last, more.trailer);
      ChunkedMore(c, more.chunks, more.last + TrailerStream(more.trailer, Decode(after).rest));
    }
  }

  lemma AcceptedLast(s: Text, line: Text, rest: Text) returns (f: Framing)
    requires Decode(s).ok && NextLine(s) == Some(line) && s[|line|..] == rest && Strtoul(CStr(line)) == Some(0)
    ensures WellFormed(f) && f.chunks == [] && s == FramingStream(f, Decode(s).rest) && Decode(s).content == []
  {
    var trailer := TrailerAccepted(rest);
    LineComplete(s);
    TrailerHasNoContent(rest);
    f := Framing([], line, trailer);
  }

  /** What follows the payload of an accepted chunk. */
  lemma AcceptedEnd(content: Text, rest: Text) returns (after: Text)
    requires After(content, rest).ok
    ensures rest == CRLF + after && After(content, rest) == Prefixed(content, Decode(after))
  {
    LineEndComplete(rest);
    after := rest[2..];
    AfterEnd(content, after);
  }

  lemma AcceptedChunk(s: Text, line: Text, rest: Text) returns (c: SizedChunk, after: Text)
    requires Decode(s).ok && NextLine(s) == Some(line) && s[|line|..] == rest && Strtoul(CStr(line)) != Some(0)
    ensures Announces(c.line, |c.payload|) && 0 < |c.payload| < ULONG_MAX && |after| < |s|
    ensures s == c.line + (c.payload + (CRLF + after)) && Decode(s) == Prefixed(c.payload, Decode(after))
  {
    var n := AcceptedSize(line, rest);
    after := AcceptedEnd(rest[..n], rest[n..]);
    LineComplete(s);
    c := SizedChunk(line, rest[..n]);
    Rejoined(s, line, rest, n, after);
  }

  lemma Rejoined(s: Text, line: Text, rest: Text, n: nat, after: Text)
    requires line <= s && s[|line|..] == rest && n <= |rest| && rest[n..] == CRLF + after
    ensures s == line + (rest[..n] + (CRLF + after)) && |after| < |s|
  {
    assert s == line + rest;
    assert rest == rest[..n] + rest[n..];
  }

  /** An accepted size line in front of rest is not that of the last chunk. */
  lemma AcceptedSize(line: Text, rest: Text) returns (n: nat)
    requires DecodeFrom(line, rest).ok && Strtoul(CStr(line)) != Some(0)
    ensures Strtoul(CStr(line)) == Some(n) && 0 < n < ULONG_MAX && n <= |rest|
    ensures DecodeFrom(line, rest) == After(rest[..n], rest[n..])
  {
    n := Strtoul(CStr(line)).value;
  }

  /** The reader accepts exactly the streams that begin with a framing. */
  lemma AcceptedIffFraming(s: Text)
    ensures Decode(s).ok <==> exists f: Framing, tail: Text :: WellFormed(f) && s == FramingStream(f, tail)
  {
    if Decode(s).ok {
      var f := AcceptedIsFraming(s);
    }
    if f: Framing, tail: Text :| WellFormed(f) && s == FramingStream(f, tail) {
      FramingIsAccepted(f, tail);
    }
  }

  lemma {:induction false} TrailerLonger(trailer: seq<Text>, tail: Text, more: Text)
    ensures TrailerStream(trailer, tail + more) == TrailerStream(trailer, tail) + more
  {
    if trailer == [] {
      Associate(CRLF, tail, more);
    } else {
      TrailerLonger(trailer[1..], tail, more);
      Associate(trailer[0], TrailerStream(trailer[1..], tail), more);
    }
  }

  lemma {:induction false} ChunkedLonger(chunks: seq<SizedChunk>, end: Text, more: Text)
    ensures Chunked(chunks, end + more) == Chunked(chunks, end) + more
  {
    if chunks != [] {
      var c, rest := chunks[0], Chunked(chunks[1..], end);
      ChunkedLonger(chunks[1..], end, more);
      Associate(CRLF, rest, more);
      Associate(c.payload, CRLF + rest, more);
      Associate(c.line, c.payload + (CRLF + rest), more);
    }
  }

  lemma FramingLonger(f: Framing, tail: Text, more: Text)
    ensures FramingStream(f, tail + more) == FramingStream(f, tail) + more
  {
    TrailerLonger(f.trailer, tail, more);
    Associate(f.last, TrailerStream(f.trailer, tail), more);
    ChunkedLonger(f.chunks, f.last + TrailerStream(f.trailer, tail), more);
  }

  /** A framing that is cut off anywhere is not accepted. */
  lemma CutOffIsRejected(f: Framing, start: Text, missing: Text)
    requires WellFormed(f) && FramingStream(f, []) == start + missing && missing != []
    ensures !Decode(start).ok
  {
    FramingIsAccepted(f, []);
    if Decode(start).ok {
      var g := AcceptedIsFraming(start);
      FramingLonger(g, Decode(start).rest, missing);
      FramingIsAccepted(g, Decode(start).rest + missing);
      assert false;
    }
  }

  /** A size line in any spelling, with or without an extension behind the size. */
  lemma SizeLineAnnounces(d: Numeral, ds: seq<nat>, extension: Text)
    requires WellFormedNumeral(d, ds) && d.sign != "-" && Number(ds) <= ULONG_MAX && d.rest == extension + CRLF
    requires '\n' !in d.All()[..|d.All()| - 1] && '\0' !in d.All()
    ensures Announces(d.All(), Number(ds))
  {
    var line := d.All();
    assert line[|line| - 1] == d.rest[|d.rest| - 1] == '\n';
    forall i | 0 <= i < |line| - 1 ensures line[i] != '\n' {
      assert line[i] == line[..|line| - 1][i];
    }
    CStrWithoutNul(line);
    NumeralIsRead(d, ds);
  }

  lemma SizeLineIsPlain(digits: Text, extension: Text) returns (line: Text)
    requires '\n' !in digits && '\0' !in digits && '\n' !in extension && '\0' !in extension
    ensures line == digits + (extension + CRLF) && '\n' !in line[..|line| - 1] && '\0' !in line
  {
    line := digits + (extension + CRLF);
    assert line[..|line| - 1] == digits + extension + "\r";
  }

  lemma SizeNumeral(digits: Text, ds: seq<nat>, rest: Text) returns (d: Numeral)
    requires ds != [] && Spells(digits, ds) && rest != [] && (rest[0] == '\r' || rest[0] == ';' || rest[0] == ' ' || rest[0] == '\t')
    ensures WellFormedNumeral(d, ds) && d.sign == "" && d.rest == rest && d.All() == digits + rest
  {
    d := Numeral([], [], [], digits, rest);
    DigitStarts(rest);
  }

  /** A chunk size in upper or lower case, with leading zeros and an extension. */
  lemma AnySpellingAnnounces(digits: Text, ds: seq<nat>, extension: Text)
    requires ds != [] && Spells(digits, ds) && Number(ds) <= ULONG_MAX
    requires extension == [] || extension[0] == ';' || extension[0] == ' ' || extension[0] == '\t'
    requires '\n' !in extension && '\0' !in extension
    ensures Announces(digits + extension + CRLF, Number(ds))
  {
    SpelledAreHex(digits, ds);
    var line := SizeLineIsPlain(digits, extension);
    var d := SizeNumeral(digits, ds, extension + CRLF);
    SizeLineAnnounces(d, ds, extension);
    assert line == digits + extension + CRLF;
  }
}
