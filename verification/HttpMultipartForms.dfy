/** Whole multipart forms: what the parser makes of every form, of forms that are not closed, and of forms that are
    cut off. */
module MultipartForms {
  import opened HttpText
  import opened Sequences
  import opened MultipartParsing

  // ---- Forms ----------------------------------------------------------------------------------------

  datatype FormPart = FormPart(headers: seq<Text>, body: Text)

  /** pat first occurs right behind s. */
  predicate Ends(s: Text, pat: Text)
    requires pat != []
  {
    Find(s + pat, pat) == |s|
  }

  /** A header line that is accepted. */
  predicate GoodHeader(f: Format, h: Text) {
    h != [] && f.headerOk(h) && Ends(h, CRLF)
  }

  /** The code limits the length of the first header line only. */
  predicate GoodPart(f: Format, part: FormPart) {
    && (forall h :: h in part.headers ==> GoodHeader(f, h))
    && (part.headers != [] ==> |part.headers[0]| <= HEADER_MAX_LENGTH)
    && Ends(part.body, f.Delimiter())
  }

  predicate GoodParts(f: Format, parts: seq<FormPart>) {
    parts != [] && forall p :: p in parts ==> GoodPart(f, p)
  }

  function HeaderText(headers: seq<Text>, rest: Text): Text {
    if headers == [] then CRLF + rest else headers[0] + (CRLF + HeaderText(headers[1..], rest))
  }

  function PartText(f: Format, part: FormPart, rest: Text): Text {
    HeaderText(part.headers, part.body + (f.Delimiter() + rest))
  }

  /** Parts with a delimiter behind each; end is what follows the last one. */
  function PartsText(f: Format, parts: seq<FormPart>, end: Text): Text
    requires parts != []
  {
    PartText(f, parts[0], if |parts| == 1 then end else CRLF + PartsText(f, parts[1..], end))
  }

  function Form(f: Format, parts: seq<FormPart>, end: Text): Text
    requires parts != []
  {
    f.Opening() + PartsText(f, parts, end)
  }

  /** What the caller is to be told. */
  function EventsOf(parts: seq<FormPart>): seq<Event> {
    if parts == [] then [] else [Part, Content(parts[0].body)] + EventsOf(parts[1..])
  }

  const START := Machine(0, [], [], false)

  // ---- One part --------------------------------------------------------------------------------------

  lemma EndsWithin(s: Text, pat: Text, rest: Text)
    requires pat != [] && Ends(s, pat)
    ensures Find(s + (pat + rest), pat) == |s| < |s + (pat + rest)|
    ensures (s + (pat + rest))[|s| + |pat|..] == rest && (s + (pat + rest))[..|s|] == s
  {
    Associate(s, pat, rest);
    FirstStays(s + pat, rest, pat);
  }

  lemma {:induction false} HeadersRead(f: Format, headers: seq<Text>, rest: Text, m: Machine)
    requires (forall h :: h in headers ==> GoodHeader(f, h)) && m.content == HeaderText(headers, rest)
    ensures HeaderLines(f, m) == Go(Machine(3, rest, m.events + [Part], m.valid))
    decreases |headers|
  {
    if headers == [] {
      FirstHeader([], rest);
      assert m.content == [] + (CRLF + rest);
    } else {
      var h, more := headers[0], HeaderText(headers[1..], rest);
      assert h in headers;
      FirstHeader(h, more);
      HeadersRead(f, headers[1..], rest, m.(content := more));
    }
  }

  lemma FirstHeader(h: Text, rest: Text)
    requires h == [] || Ends(h, CRLF)
    ensures Find(h + (CRLF + rest), CRLF) == |h| < |h + (CRLF + rest)|
    ensures (h + (CRLF + rest))[|h| + 2..] == rest && (h + (CRLF + rest))[..|h|] == h
  {
    if h == [] {
      assert h + CRLF == CRLF && CRLF[..2] == CRLF;
      assert Ends(h, CRLF);
    }
    EndsWithin(h, CRLF, rest);
  }

  lemma HeadersTurnRead(f: Format, part: FormPart, rest: Text, m: Machine)
    requires GoodPart(f, part) && m.content == HeaderText(part.headers, rest)
    ensures HeadersTurn(f, m) == Go(Machine(3, rest, m.events + [Part], m.valid))
  {
    HeadersRead(f, part.headers, rest, m);
    if part.headers == [] {
      FirstHeader([], rest);
      assert m.content == [] + (CRLF + rest);
    } else {
      assert part.headers[0] in part.headers;
      FirstHeader(part.headers[0], HeaderText(part.headers[1..], rest));
    }
  }

  lemma BodyRead(f: Format, body: Text, rest: Text, m: Machine)
    requires Ends(body, f.Delimiter()) && m.content == body + (f.Delimiter() + rest)
    ensures BodyTurn(f, m) == Go(Machine(4, rest, m.events + [Content(body)], m.valid))
  {
    EndsWithin(body, f.Delimiter(), rest);
    BodyFound(f, m, |body|);
  }

  lemma RunGoes(f: Format, m: Machine, n: Machine)
    requires m.content != [] && Step(f, m) == Go(n)
    ensures Run(f, m) == Run(f, n)
  {
  }

  lemma {:induction false} HeaderTextSome(headers: seq<Text>, rest: Text)
    ensures HeaderText(headers, rest) != []
  {
  }

  /** From the state behind a boundary to the one behind the next delimiter. */
  lemma PartRead(f: Format, part: FormPart, rest: Text, events: seq<Event>, valid: bool)
    requires GoodPart(f, part)
    ensures Run(f, Machine(1, PartText(f, part, rest), events, valid))
            == Run(f, Machine(4, rest, events + [Part] + [Content(part.body)], valid))
  {
    var tail := part.body + (f.Delimiter() + rest);
    HeaderTextSome(part.headers, tail);
    var m1 := Machine(1, PartText(f, part, rest), events, valid);
    var m2, m3 := m1.(state := 2), Machine(3, tail, events + [Part], valid);
    RunGoes(f, m1, m2);
    HeadersTurnRead(f, part, tail, m2);
    RunGoes(f, m2, m3);
    BodyRead(f, part.body, rest, m3);
    RunGoes(f, m3, Machine(4, rest, events + [Part] + [Content(part.body)], valid));
  }

  lemma NextBoundary(f: Format, rest: Text, events: seq<Event>, valid: bool)
    ensures Run(f, Machine(4, CRLF + rest, events, valid)) == Run(f, Machine(1, rest, events, valid))
  {
    assert (CRLF + rest)[2..] == rest && (CRLF + rest)[..2] == CRLF;
    RunGoes(f, Machine(4, CRLF + rest, events, valid), Machine(1, rest, events, valid));
  }

  lemma EventsMore(events: seq<Event>, body: Text, more: seq<Event>)
    ensures events + [Part] + [Content(body)] + more == events + ([Part, Content(body)] + more)
  {
  }

  /** From the first part to what follows the last delimiter. */
  lemma {:induction false} PartsRead(f: Format, parts: seq<FormPart>, end: Text, events: seq<Event>, valid: bool)
    requires GoodParts(f, parts)
    ensures Run(f, Machine(1, PartsText(f, parts, end), events, valid)) == Run(f, Machine(4, end, events + EventsOf(parts), valid))
    decreases |parts|
  {
    var part := parts[0];
    assert part in parts;
    var done := events + [Part] + [Content(part.body)];
    EventsMore(events, part.body, EventsOf(parts[1..]));
    if |parts| == 1 {
      PartRead(f, part, end, events, valid);
      assert done + [] == done;
    } else {
      var rest := PartsText(f, parts[1..], end);
      PartRead(f, part, CRLF + rest, events, valid);
      NextBoundary(f, rest, done, valid);
      PartsRead(f, parts[1..], end, done, valid);
    }
  }

  // ---- The whole form ----------------------------------------------------------------------------------

  /** The first boundary is found behind anything that does not contain it. */
  lemma OpeningRead(f: Format, preamble: Text, rest: Text)
    requires Ends(preamble, f.Opening())
    ensures Run(f, Machine(0, preamble + (f.Opening() + rest), [], false)) == Run(f, Machine(1, rest, [], false))
  {
    var o := f.Opening();
    var m := Machine(0, preamble + (o + rest), [], false);
    EndsWithin(preamble, o, rest);
    assert m.content[|preamble|..] == o + rest;
    assert (o + rest)[|o|..] == rest && (o + rest)[..|o|] == o;
    RunGoes(f, m, Machine(1, rest, [], false));
  }

  lemma FormRead(f: Format, preamble: Text, parts: seq<FormPart>, end: Text)
    requires GoodParts(f, parts) && Ends(preamble, f.Opening())
    ensures Feed(f, START, preamble + Form(f, parts, end)) == Run(f, Machine(4, end, EventsOf(parts), false))
  {
    var t := preamble + Form(f, parts, end);
    assert [] + t == t;
    OpeningRead(f, preamble, PartsText(f, parts, end));
    PartsRead(f, parts, end, [], false);
    assert [] + EventsOf(parts) == EventsOf(parts);
  }

  /** Every form whose last delimiter is followed by two dashes is valid, and reported part by part with exactly the
      bodies; preamble and epilogue are ignored. */
  lemma FormIsParsed(f: Format, preamble: Text, parts: seq<FormPart>, epilogue: Text)
    requires GoodParts(f, parts) && Ends(preamble, f.Opening())
    ensures Feed(f, START, preamble + Form(f, parts, DASH + epilogue)) == (Machine(4, [], EventsOf(parts), true), true)
  {
    FormRead(f, preamble, parts, DASH + epilogue);
    var m := Machine(4, DASH + epilogue, EventsOf(parts), false);
    assert m.content[..2] == DASH;
    RunGoes(f, m, Machine(4, [], EventsOf(parts), true));
  }

  /** When no further part follows, the form is valid exactly if the two dashes do. */
  lemma ValidIffClosed(f: Format, preamble: Text, parts: seq<FormPart>, end: Text)
    requires GoodParts(f, parts) && Ends(preamble, f.Opening()) && !StartsWith(end, CRLF)
    ensures var r := Feed(f, START, preamble + Form(f, parts, end));
            r.1 && r.0.events == EventsOf(parts) && (r.0.valid <==> StartsWith(end, DASH))
  {
    if StartsWith(end, DASH) {
      assert end == DASH + end[2..];
      FormIsParsed(f, preamble, parts, end[2..]);
    } else {
      FormRead(f, preamble, parts, end);
    }
  }

  // ---- Validity is final ---------------------------------------------------------------------------------

  lemma LongerFinds(c: Text, y: Text, pat: Text)
    requires pat != [] && Find(c, pat) < |c|
    ensures Find(c + y, pat) == Find(c, pat) && Find(c, pat) + |pat| <= |c|
    ensures (c + y)[Find(c, pat) + |pat|..] == c[Find(c, pat) + |pat|..] + y
    ensures (c + y)[..Find(c, pat)] == c[..Find(c, pat)]
  {
    FirstStays(c, y, pat);
    FindIsFirst(c, pat);
  }

  lemma {:induction false} HeadersLonger(f: Format, m: Machine, y: Text)
    requires HeaderLines(f, m).Go?
    ensures var n := HeaderLines(f, m).next;
            HeaderLines(f, m.(content := m.content + y)) == Go(n.(content := n.content + y)) && n.valid == m.valid
    decreases |m.content|
  {
    var pos := Find(m.content, CRLF);
    LongerFinds(m.content, y, CRLF);
    if pos > 0 {
      var m1 := m.(content := m.content[pos + 2..]);
      HeadersLonger(f, m1, y);
      assert m.(content := m.content + y).(content := (m.content + y)[pos + 2..]) == m1.(content := m1.content + y);
    }
  }

  /** The turn that closes a form. */
  predicate Closes(m: Machine) {
    m.state >= 4 && StartsWith(m.content, DASH)
  }

  lemma InitialAt(f: Format, m: Machine, pos: nat)
    requires pos == Find(m.content, f.Opening()) < |m.content|
    ensures pos + |f.Opening()| <= |m.content|
    ensures InitialTurn(f, m) == Go(m.(content := m.content[pos + |f.Opening()|..], state := 1))
  {
    OpeningAt(m.content, f.Opening(), pos);
  }

  lemma InitialFinds(f: Format, m: Machine)
    requires InitialTurn(f, m).Go?
    ensures Find(m.content, f.Opening()) < |m.content|
  {
  }

  lemma InitialLonger(f: Format, m: Machine, y: Text)
    requires InitialTurn(f, m).Go?
    ensures var n := InitialTurn(f, m).next;
            InitialTurn(f, m.(content := m.content + y)) == Go(n.(content := n.content + y)) && n.valid == m.valid
  {
    InitialFinds(f, m);
    var pos := Find(m.content, f.Opening());
    LongerFinds(m.content, y, f.Opening());
    InitialAt(f, m, pos);
    InitialAt(f, m.(content := m.content + y), pos);
  }

  lemma HeadersTurnLonger(f: Format, m: Machine, y: Text)
    requires HeadersTurn(f, m).Go?
    ensures var n := HeadersTurn(f, m).next;
            HeadersTurn(f, m.(content := m.content + y)) == Go(n.(content := n.content + y)) && n.valid == m.valid
  {
    HeadersLonger(f, m, y);
    LongerFinds(m.content, y, CRLF);
  }

  lemma BodyLonger(f: Format, m: Machine, y: Text)
    requires BodyTurn(f, m).Go?
    ensures var n := BodyTurn(f, m).next;
            BodyTurn(f, m.(content := m.content + y)) == Go(n.(content := n.content + y)) && n.valid == m.valid
  {
    var pos := Find(m.content, f.Delimiter());
    LongerFinds(m.content, y, f.Delimiter());
    BodyFound(f, m, pos);
    BodyFound(f, m.(content := m.content + y), pos);
  }

  lemma BoundaryLonger(m: Machine, y: Text)
    requires m.state >= 4 && BoundaryTurn(m).Go?
    ensures var n, longer := BoundaryTurn(m).next, BoundaryTurn(m.(content := m.content + y));
            if Closes(m) then n.content == [] && longer == Go(n)
            else longer == Go(n.(content := n.content + y)) && n.valid == m.valid
  {
    assert (m.content + y)[..2] == m.content[..2];
    assert (m.content + y)[2..] == m.content[2..] + y;
  }

  /** A turn that goes on does the same when more has arrived; the one that closes the form drops it. */
  lemma StepLonger(f: Format, m: Machine, y: Text)
    requires m.content != [] && Step(f, m).Go?
    ensures var n, longer := Step(f, m).next, Step(f, m.(content := m.content + y));
            if Closes(m) then n.content == [] && longer == Go(n)
            else longer == Go(n.(content := n.content + y)) && n.valid == m.valid
  {
    match m.state
    case 0 => InitialLonger(f, m, y);
    case 1 =>
    case 2 => HeadersTurnLonger(f, m, y);
    case 3 => BodyLonger(f, m, y);
    case _ => BoundaryLonger(m, y);
  }

  lemma OpeningAt(c: Text, pat: Text, pos: nat)
    requires pat != [] && pos == Find(c, pat) < |c|
    ensures pos + |pat| <= |c| && StartsWith(c[pos..], pat) && c[pos..][|pat|..] == c[pos + |pat|..]
  {
    FindIsFirst(c, pat);
    assert c[pos..][..|pat|] == c[pos..pos + |pat|];
  }

  /** Once a form is valid, what follows does not matter. */
  lemma {:induction false} ValidIsFinal(f: Format, m: Machine, y: Text)
    requires !m.valid && Run(f, m).0.valid
    ensures Run(f, m).1 && Run(f, m.(content := m.content + y)) == Run(f, m)
    decreases |m.content|, Pending(m)
  {
    OnlyClosingIsValid(f, m);
    var n, all := Step(f, m).next, m.(content := m.content + y);
    StepLonger(f, m, y);
    RunGoes(f, m, n);
    RunGoes(f, all, Step(f, all).next);
    if !n.valid {
      StepDecreases(f, m);
      ValidIsFinal(f, n, y);
    }
  }

  lemma OnlyClosingIsValid(f: Format, m: Machine)
    requires !m.valid && m.content != []
    ensures Step(f, m).Return? ==> !Step(f, m).last.valid
  {
    if m.state == 2 { HeadersStayInvalid(f, m); }
  }

  lemma {:induction false} HeadersStayInvalid(f: Format, m: Machine)
    requires !m.valid
    ensures HeaderLines(f, m).Return? ==> !HeaderLines(f, m).last.valid
    decreases |m.content|
  {
    var pos := Find(m.content, CRLF);
    if 0 < pos < |m.content| && f.headerOk(m.content[..pos]) {
      FindIsFirst(m.content, CRLF);
      HeadersStayInvalid(f, m.(content := m.content[pos + 2..]));
    }
  }

  /** A form that is cut off before its two last dashes are complete is not valid, wherever that is. */
  lemma CutOffIsNotValid(f: Format, preamble: Text, parts: seq<FormPart>, start: Text, missing: Text)
    requires GoodParts(f, parts) && Ends(preamble, f.Opening())
    requires start + missing == preamble + Form(f, parts, "-")
    ensures !Feed(f, START, start).0.valid
  {
    ValidIffClosed(f, preamble, parts, "-");
    assert [] + start == start && [] + (start + missing) == start + missing;
    if Feed(f, START, start).0.valid {
      ValidIsFinal(f, START.(content := start), missing);
      assert false;
    }
  }

  /** Text behind the closing boundary is ignored only when it arrives with it: in a later call a line that is no header
      makes the form invalid again. */
  lemma LateEpilogueFails(f: Format, events: seq<Event>, line: Text)
    requires line != [] && Ends(line, CRLF) && !f.headerOk(line)
    ensures var r := Feed(f, Machine(4, [], events, true), CRLF + (line + CRLF));
            !r.1 && (|line| <= HEADER_MAX_LENGTH ==> !r.0.valid)
  {
    var rest := line + CRLF;
    assert rest == line + (CRLF + []);
    FirstHeader(line, []);
    var m := Machine(4, CRLF + rest, events, true);
    assert [] + (CRLF + rest) == m.content;
    NextBoundary(f, rest, events, true);
    RunGoes(f, Machine(1, rest, events, true), Machine(2, rest, events, true));
  }
}
