/** Multipart forms that arrive in any number of pieces. */
module MultipartPieces {
  import opened HttpText
  import opened Sequences
  import opened MultipartParsing
  import opened MultipartForms

  // ---- What is reported, however it is cut ---------------------------------------------------------------

  /** The content reported for each part. */
  function Bodies(events: seq<Event>): seq<Text> {
    if events == [] then []
    else
      var before := Bodies(events[..|events| - 1]);
      match events[|events| - 1]
      case Part => before + [[]]
      case Content(data) => if before == [] then [] else before[..|before| - 1] + [before[|before| - 1] + data]
  }

  function BodiesOf(parts: seq<FormPart>): (r: seq<Text>)
    ensures |r| == |parts|
  {
    if parts == [] then [] else [parts[0].body] + BodiesOf(parts[1..])
  }

  lemma BodiesMore(events: seq<Event>, e: Event)
    ensures Bodies(events + [e]) ==
              match e
              case Part => Bodies(events) + [[]]
              case Content(data) =>
                var before := Bodies(events);
                if before == [] then [] else before[..|before| - 1] + [before[|before| - 1] + data]
  {
    assert (events + [e])[..|events|] == events;
  }

  /** What is reported later adds to what was reported, however that was cut. */
  lemma {:induction false} BodiesAgree(a: seq<Event>, b: seq<Event>, more: seq<Event>)
    requires Bodies(a) == Bodies(b)
    ensures Bodies(a + more) == Bodies(b + more)
  {
    if more == [] {
      assert a + more == a && b + more == b;
    } else {
      var n := |more| - 1;
      BodiesAgree(a, b, more[..n]);
      BodiesLast(a, more, n);
      BodiesLast(b, more, n);
      BodiesMore(a + more[..n], more[n]);
      BodiesMore(b + more[..n], more[n]);
    }
  }

  lemma BodiesLast(a: seq<Event>, more: seq<Event>, n: nat)
    requires |more| == n + 1
    ensures a + more == a + more[..n] + [more[n]]
  {
    assert more == more[..n] + [more[n]];
    Associate(a, more[..n], [more[n]]);
  }

  /** Content in two pieces is the content in one. */
  lemma ContentJoins(events: seq<Event>, x: Text, y: Text)
    ensures Bodies(events + [Content(x)] + [Content(y)]) == Bodies(events + [Content(x + y)])
  {
    BodiesMore(events, Content(x));
    BodiesMore(events + [Content(x)], Content(y));
    BodiesMore(events, Content(x + y));
    var before := Bodies(events);
    if before != [] {
      var n := |before| - 1;
      var one := before[..n] + [before[n] + x];
      assert one[..n] == before[..n] && one[n] == before[n] + x;
      Associate(before[n], x, y);
    }
  }

  lemma NoContentAdds(events: seq<Event>)
    ensures Bodies(events + [Content([])]) == Bodies(events)
  {
    BodiesMore(events, Content([]));
    var before := Bodies(events);
    if before != [] {
      var n := |before| - 1;
      assert before[n] + [] == before[n];
      assert before == before[..n] + [before[n]];
    }
  }

  lemma BodiesOfPart(events: seq<Event>, body: Text)
    ensures Bodies(events + [Part] + [Content(body)]) == Bodies(events) + [body]
  {
    BodiesMore(events, Part);
    BodiesMore(events + [Part], Content(body));
    var before := Bodies(events) + [[]];
    assert before[..|before| - 1] == Bodies(events) && before[|before| - 1] == [] && [] + body == body;
  }

  lemma {:induction false} BodiesOfEvents(parts: seq<FormPart>, events: seq<Event>)
    ensures Bodies(events + EventsOf(parts)) == Bodies(events) + BodiesOf(parts)
  {
    if parts == [] {
      assert events + [] == events && Bodies(events) + [] == Bodies(events);
    } else {
      var body := parts[0].body;
      EventsMore(events, body, EventsOf(parts[1..]));
      BodiesOfPart(events, body);
      BodiesOfEvents(parts[1..], events + [Part] + [Content(body)]);
      Associate(Bodies(events), [body], BodiesOf(parts[1..]));
    }
  }

  // ---- Events do not influence the parser -------------------------------------------------------------------

  function Plus(events: seq<Event>, m: Machine): Machine {
    m.(events := events + m.events)
  }

  function PlusTurn(events: seq<Event>, t: Turn): Turn {
    match t
    case Go(next) => Go(Plus(events, next))
    case Return(last, ok) => Return(Plus(events, last), ok)
  }

  /** One header line. */
  lemma HeaderLineRead(f: Format, m: Machine, pos: nat)
    requires pos == Find(m.content, CRLF) < |m.content|
    ensures pos + 2 <= |m.content|
    ensures pos > 0 && f.headerOk(m.content[..pos]) ==> HeaderLines(f, m) == HeaderLines(f, m.(content := m.content[pos + 2..]))
    ensures pos > 0 && !f.headerOk(m.content[..pos]) ==> HeaderLines(f, m) == Return(m.(valid := false), false)
    ensures pos == 0 ==> HeaderLines(f, m) == Go(Machine(3, m.content[2..], m.events + [Part], m.valid))
  {
    FindIsFirst(m.content, CRLF);
  }

  lemma {:induction false} HeadersPlus(f: Format, m: Machine, events: seq<Event>)
    ensures HeaderLines(f, Plus(events, m)) == PlusTurn(events, HeaderLines(f, m))
    decreases |m.content|
  {
    var pos := Find(m.content, CRLF);
    if pos < |m.content| {
      HeaderLineRead(f, m, pos);
      HeaderLineRead(f, Plus(events, m), pos);
      Associate(events, m.events, [Part]);
      HeadersPlus(f, m.(content := m.content[pos + 2..]), events);
    }
  }

  lemma BodyPlus(f: Format, m: Machine, events: seq<Event>)
    ensures BodyTurn(f, Plus(events, m)) == PlusTurn(events, BodyTurn(f, m))
  {
    var d := f.Delimiter();
    if |d| <= |m.content| {
      var pos := Find(m.content, d);
      if pos < |m.content| {
        BodyFound(f, m, pos);
        BodyFound(f, Plus(events, m), pos);
        Associate(events, m.events, [Content(m.content[..pos])]);
      } else {
        Associate(events, m.events, [Content(m.content[..|m.content| - |d|])]);
      }
    }
  }

  lemma StepPlus(f: Format, m: Machine, events: seq<Event>)
    requires m.content != []
    ensures Step(f, Plus(events, m)) == PlusTurn(events, Step(f, m))
  {
    match m.state
    case 0 =>
    case 1 =>
    case 2 => HeadersPlus(f, m, events);
    case 3 => BodyPlus(f, m, events);
    case _ =>
  }

  lemma {:induction false} RunPlus(f: Format, m: Machine, events: seq<Event>)
    ensures Run(f, Plus(events, m)) == (Plus(events, Run(f, m).0), Run(f, m).1)
    decreases |m.content|, Pending(m)
  {
    if m.content != [] {
      StepPlus(f, m, events);
      if Step(f, m).Go? {
        StepDecreases(f, m);
        RunPlus(f, Step(f, m).next, events);
      }
    }
  }

  /** Same but for how the content was cut. */
  ghost predicate Alike(a: (Machine, bool), b: (Machine, bool)) {
    a.1 == b.1 && a.0.state == b.0.state && a.0.content == b.0.content && a.0.valid == b.0.valid && Bodies(a.0.events) == Bodies(b.0.events)
  }

  lemma RunAlike(f: Format, m: Machine, n: Machine)
    requires Alike((m, true), (n, true))
    ensures Alike(Run(f, m), Run(f, n))
  {
    var bare := m.(events := []);
    assert Plus(m.events, bare) == m by { assert m.events + [] == m.events; }
    assert Plus(n.events, bare) == n by { assert n.events + [] == n.events; }
    RunPlus(f, bare, m.events);
    RunPlus(f, bare, n.events);
    BodiesAgree(m.events, n.events, Run(f, bare).0.events);
  }

  // ---- Streams that can be cut anywhere -----------------------------------------------------------------------

  /** All header lines are accepted and short, and the empty line follows. */
  predicate LinesAccepted(f: Format, c: Text)
    decreases |c|
  {
    var pos := Find(c, CRLF);
    pos < |c| && pos < HEADER_MAX_LENGTH
    && (pos == 0 || (f.headerOk(c[..pos]) && pos + 2 <= |c| && LinesAccepted(f, c[pos + 2..])))
  }

  /** From this state the content runs to the closing boundary without trouble. */
  ghost predicate Smooth(f: Format, m: Machine)
    decreases |m.content|, Pending(m)
  {
    && m.content != [] && 1 <= m.state <= 4 && !m.valid
    && (m.state == 2 ==> LinesAccepted(f, m.content))
    && if m.state == 4 && !StartsWith(m.content, CRLF) then m.content == DASH || m.content == DASH + CRLF
       else Step(f, m).Go? && (StepDecreases(f, m); Smooth(f, Step(f, m).next))
  }

  function More(m: Machine, y: Text): Machine {
    m.(content := m.content + y)
  }

  /** What is left to do when the content has been used up in the middle of such a stream. */
  ghost predicate GoesOn(f: Format, m: Machine, n: Machine, y: Text) {
    Smooth(f, More(n, y)) && Alike(Run(f, More(n, y)), Run(f, More(m, y)))
  }

  /** The closing boundary was read; at most a line end is missing. */
  predicate Closed(m: Machine, rest: Text) {
    m.valid && (m.state == 1 || m.state == 4) && (m.content + rest == [] || (m.state == 4 && (m.content + rest == CRLF || m.content + rest == "\n")))
  }

  lemma {:induction false} LinesCut(f: Format, m: Machine, y: Text)
    requires m.state == 2 && LinesAccepted(f, m.content + y)
    ensures Find(m.content, CRLF) <= HEADER_MAX_LENGTH
    ensures HeaderLines(f, m).Return? ==>
              var n := HeaderLines(f, m).last;
              && HeaderLines(f, m).ok && n.state == 2 && n.valid == m.valid && LinesAccepted(f, n.content + y)
              && HeaderLines(f, More(m, y)) == HeaderLines(f, More(n, y))
    decreases |m.content|
  {
    var c := m.content;
    var pos := Find(c, CRLF);
    if pos < |c| {
      LongerFinds(c, y, CRLF);
      if pos > 0 {
        LinesCut(f, m.(content := c[pos + 2..]), y);
        LinesNext(f, m, y, pos);
      }
    } else {
      FoundLater(c, y, CRLF);
    }
  }

  lemma LinesNext(f: Format, m: Machine, y: Text, pos: nat)
    requires 0 < pos == Find(m.content, CRLF) < |m.content| && pos == Find(m.content + y, CRLF)
    requires pos + 2 <= |m.content| && (m.content + y)[pos + 2..] == m.content[pos + 2..] + y && (m.content + y)[..pos] == m.content[..pos]
    requires f.headerOk(m.content[..pos])
    ensures HeaderLines(f, m) == HeaderLines(f, m.(content := m.content[pos + 2..]))
    ensures HeaderLines(f, More(m, y)) == HeaderLines(f, More(m.(content := m.content[pos + 2..]), y))
  {
  }

  /** What is not found yet is found in its last bytes and what follows. */
  lemma FoundLater(c: Text, y: Text, pat: Text)
    requires pat != [] && Find(c, pat) == |c| && Find(c + y, pat) < |c + y|
    ensures |c| < Find(c + y, pat) + |pat| <= |c + y|
  {
    FindIsFirst(c, pat);
    FindIsFirst(c + y, pat);
    OccursEarlier(c, y, pat, Find(c + y, pat));
  }

  lemma OccursEarlier(c: Text, y: Text, pat: Text, k: nat)
    requires OccursAt(c + y, pat, k)
    ensures k + |pat| <= |c| ==> OccursAt(c, pat, k)
  {
    if k + |pat| <= |c| { assert c[k..k + |pat|] == (c + y)[k..k + |pat|]; }
  }

  // ---- One call --------------------------------------------------------------------------------------------------

  /** The headers are incomplete. */
  lemma HeadersPause(f: Format, m: Machine, y: Text)
    requires m.state == 2 && m.content != [] && Smooth(f, More(m, y)) && HeadersTurn(f, m).Return?
    ensures var n := HeadersTurn(f, m).last;
            HeadersTurn(f, m).ok && GoesOn(f, m, n, y)
  {
    LinesCut(f, m, y);
    var n := HeadersTurn(f, m).last;
    LinesGoDown(f, n.content + y);
    LinesGoDown(f, m.content + y);
    assert Step(f, More(n, y)) == Step(f, More(m, y));
  }

  lemma LinesGoDown(f: Format, c: Text)
    requires LinesAccepted(f, c)
    ensures c != [] && Find(c, CRLF) <= HEADER_MAX_LENGTH
  {
  }

  /** The body is incomplete: all but the last bytes are reported. */
  lemma BodyPause(f: Format, m: Machine, y: Text)
    requires m.state == 3 && m.content != [] && Smooth(f, More(m, y)) && BodyTurn(f, m).Return?
    ensures var n := BodyTurn(f, m).last;
            BodyTurn(f, m).ok && GoesOn(f, m, n, y)
  {
    var c, d := m.content, f.Delimiter();
    if |d| < |c| {
      BodyPauseLong(f, m, y, |c| - |d|);
    }
  }

  lemma BodyPauseLong(f: Format, m: Machine, y: Text, len: nat)
    requires m.state == 3 && Smooth(f, More(m, y)) && BodyTurn(f, m).Return? && 0 < len == |m.content| - |f.Delimiter()|
    ensures BodyTurn(f, m) == Return(Emit(m, len), true) && GoesOn(f, m, Emit(m, len), y)
  {
    assert Find(m.content, f.Delimiter()) >= |m.content|;
    var whole, n := More(m, y), More(Emit(m, len), y);
    var k := Find(whole.content, f.Delimiter());
    FoundAt(f, whole, k);
    DelimiterInWhole(f, m.content, y, len);
    FoundAt(f, n, k - len);
    PastAlike(f, m, y, len, k);
    RunGoes(f, whole, Past(f, whole, k));
    RunGoes(f, n, Past(f, n, k - len));
    RunAlike(f, Past(f, n, k - len), Past(f, whole, k));
    SmoothAlike(f, Past(f, whole, k), Past(f, n, k - len));
    StepDecreases(f, n);
  }

  /** m behind the delimiter at pos. */
  function Past(f: Format, m: Machine, pos: nat): Machine
    requires pos + |f.Delimiter()| <= |m.content|
  {
    Machine(4, m.content[pos + |f.Delimiter()|..], m.events + [Content(m.content[..pos])], m.valid)
  }

  lemma FoundAt(f: Format, m: Machine, pos: nat)
    requires pos == Find(m.content, f.Delimiter()) < |m.content|
    ensures pos + |f.Delimiter()| <= |m.content| && BodyTurn(f, m) == Go(Past(f, m, pos))
  {
    FindIsFirst(m.content, f.Delimiter());
    BodyFound(f, m, pos);
  }

  lemma PastAlike(f: Format, m: Machine, y: Text, len: nat, k: nat)
    requires len <= |m.content| && len <= k && k + |f.Delimiter()| <= |m.content + y|
    ensures var whole, n := Past(f, More(m, y), k), Past(f, More(Emit(m, len), y), k - len);
            Alike((n, true), (whole, true)) && n == whole.(events := n.events)
  {
    PauseJoins(m.content, y, len, k, |f.Delimiter()|);
    ContentJoins(m.events, m.content[..len], (m.content[len..] + y)[..k - len]);
  }

  lemma PauseJoins(c: Text, y: Text, len: nat, k: nat, n: nat)
    requires len <= |c| && len <= k && k + n <= |c + y|
    ensures (c[len..] + y)[k - len + n..] == (c + y)[k + n..]
    ensures c[..len] + (c[len..] + y)[..k - len] == (c + y)[..k]
  {
    assert c[len..] + y == (c + y)[len..];
  }

  lemma {:induction false} SmoothAlike(f: Format, m: Machine, n: Machine)
    requires Smooth(f, m) && n == m.(events := n.events)
    ensures Smooth(f, n)
    decreases |m.content|, Pending(m)
  {
    var bare := m.(events := []);
    assert Plus(m.events, bare) == m by { assert m.events + [] == m.events; }
    assert Plus(n.events, bare) == n by { assert n.events + [] == n.events; }
    StepPlus(f, bare, m.events);
    StepPlus(f, bare, n.events);
    if !(m.state == 4 && !StartsWith(m.content, CRLF)) {
      StepDecreases(f, m);
      StepDecreases(f, n);
      SmoothAlike(f, Step(f, m).next, Step(f, n).next);
    }
  }

  /** One call in the middle of a stream. */
  lemma {:induction false} CallGoesOn(f: Format, m: Machine, y: Text)
    requires Smooth(f, More(m, y))
    ensures Run(f, m).1
    ensures GoesOn(f, m, Run(f, m).0, y) || (Closed(Run(f, m).0, y) && Alike((Run(f, m).0.(state := 4, content := []), true), (Run(f, More(m, y)).0.(state := 4, content := []), true)))
    decreases |m.content|, Pending(m)
  {
    var whole := More(m, y);
    if m.content == [] {
    } else if Step(f, m).Go? {
      var n := Step(f, m).next;
      StepLonger(f, m, y);
      StepDecreases(f, m);
      RunGoes(f, m, n);
      RunGoes(f, whole, Step(f, whole).next);
      if Closes(m) {
        ClosingCall(f, m, y);
      } else {
        CallGoesOn(f, n, y);
      }
    } else {
      match m.state
      case 1 => assert false;
      case 2 => HeadersPause(f, m, y);
      case 3 => BodyPause(f, m, y);
      case _ => BoundaryPause(f, m, y);
    }
  }

  /** A single byte behind a delimiter is kept. */
  lemma BoundaryPause(f: Format, m: Machine, y: Text)
    requires m.state == 4 && m.content != [] && Smooth(f, More(m, y)) && BoundaryTurn(m).Return?
    ensures Run(f, m) == (m, true)
  {
    FirstTwo(m.content, y);
  }

  lemma FirstTwo(c: Text, y: Text)
    ensures |c| >= 2 ==> (c + y)[..2] == c[..2]
  {
  }

  lemma ClosingCall(f: Format, m: Machine, y: Text)
    requires m.state == 4 && Closes(m) && Smooth(f, More(m, y))
    ensures Run(f, m) == (Machine(4, [], m.events, true), true) && Closed(Run(f, m).0, y)
  {
    RunGoes(f, m, Machine(4, [], m.events, true));
    assert (m.content + y)[..2] == m.content[..2] == DASH;
    assert y == (m.content + y)[|m.content|..];
  }

  // ---- All calls ---------------------------------------------------------------------------------------------------

  lemma FeedNext(f: Format, m: Machine, chunks: seq<Text>)
    requires chunks != []
    ensures var r := Run(f, More(m, chunks[0]));
            FeedAll(Actual(f), m, chunks) == if !r.1 then r else FeedAll(Actual(f), r.0, chunks[1..])
  {
  }

  /** Such a stream ends valid. */
  lemma {:induction false} SmoothRun(f: Format, m: Machine)
    requires Smooth(f, m)
    ensures Run(f, m).1 && Run(f, m).0.valid && Closed(Run(f, m).0, [])
    decreases |m.content|, Pending(m)
  {
    if m.state == 4 && !StartsWith(m.content, CRLF) {
      assert m.content[..2] == DASH;
      RunGoes(f, m, Machine(4, [], m.events, true));
    } else {
      var n := Step(f, m).next;
      StepDecreases(f, m);
      RunGoes(f, m, n);
      SmoothRun(f, n);
    }
  }

  lemma ClosedCall(f: Format, m: Machine, rest: Text)
    requires Closed(m, rest)
    ensures m.content == [] ==> Run(f, m) == (m, true)
    ensures Run(f, m).1 && Closed(Run(f, m).0, rest) && Run(f, m).0.events == m.events
  {
    if m.content == CRLF {
      var n := m.(state := 1, content := []);
      assert CRLF[..2] == CRLF && CRLF[2..] == [];
      RunGoes(f, m, n);
    } else {
      assert |m.content| < 2;
    }
  }

  /** Nothing changes behind the closing boundary. */
  lemma {:induction false} AfterClosing(f: Format, m: Machine, chunks: seq<Text>)
    requires Closed(m, Concat(chunks))
    ensures var r := FeedAll(Actual(f), m, chunks);
            r.1 && r.0.valid && r.0.events == m.events
    decreases |chunks|
  {
    if chunks != [] {
      var x, y := chunks[0], Concat(chunks[1..]);
      Associate(m.content, x, y);
      FeedNext(f, m, chunks);
      ClosedCall(f, More(m, x), y);
      AfterClosing(f, Run(f, More(m, x)).0, chunks[1..]);
    }
  }

  /** However the rest of such a stream is cut, it is reported as in one piece. */
  lemma {:induction false} InPieces(f: Format, m: Machine, chunks: seq<Text>)
    requires chunks != [] && Smooth(f, More(m, Concat(chunks)))
    ensures var r, whole := FeedAll(Actual(f), m, chunks), Run(f, More(m, Concat(chunks)));
            r.1 && r.0.valid && Bodies(r.0.events) == Bodies(whole.0.events)
    decreases |chunks|
  {
    var x, y := chunks[0], Concat(chunks[1..]);
    var m1 := More(m, x);
    Associate(m.content, x, y);
    FeedNext(f, m, chunks);
    if |chunks| == 1 {
      assert m1.content + [] == m1.content;
      SmoothRun(f, m1);
    } else {
      CallGoesOn(f, m1, y);
      var n := Run(f, m1).0;
      if GoesOn(f, m1, n, y) {
        InPieces(f, n, chunks[1..]);
      } else {
        AfterClosing(f, n, chunks[1..]);
      }
    }
  }

  // ---- Forms are such streams -------------------------------------------------------------------------------------------

  /** All header lines are short, not only the first. */
  predicate ShortParts(f: Format, parts: seq<FormPart>) {
    && (forall p :: p in parts ==> GoodPart(f, p))
    && forall p, h :: p in parts && h in p.headers ==> |h| < HEADER_MAX_LENGTH
  }

  predicate Closing(end: Text) {
    end == DASH || end == DASH + CRLF
  }

  lemma {:induction false} HeadersAccepted(f: Format, headers: seq<Text>, rest: Text)
    requires forall h :: h in headers ==> GoodHeader(f, h) && |h| < HEADER_MAX_LENGTH
    ensures LinesAccepted(f, HeaderText(headers, rest))
    decreases |headers|
  {
    if headers == [] {
      FirstHeader([], rest);
      assert HeaderText(headers, rest) == [] + (CRLF + rest);
    } else {
      assert headers[0] in headers;
      FirstHeader(headers[0], HeaderText(headers[1..], rest));
      HeadersAccepted(f, headers[1..], rest);
    }
  }

  lemma SmoothStep(f: Format, m: Machine, n: Machine)
    requires Smooth(f, n) && m.content != [] && 1 <= m.state <= 3 && !m.valid && (m.state == 2 ==> LinesAccepted(f, m.content))
    requires Step(f, m) == Go(n)
    ensures Smooth(f, m)
  {
  }

  lemma SmoothPart(f: Format, part: FormPart, rest: Text, events: seq<Event>)
    requires GoodPart(f, part) && forall h :: h in part.headers ==> |h| < HEADER_MAX_LENGTH
    requires Smooth(f, Machine(4, rest, events + [Part] + [Content(part.body)], false))
    ensures Smooth(f, Machine(1, PartText(f, part, rest), events, false))
  {
    var tail := part.body + (f.Delimiter() + rest);
    HeaderTextSome(part.headers, tail);
    var m1 := Machine(1, PartText(f, part, rest), events, false);
    var m2, m3 := m1.(state := 2), Machine(3, tail, events + [Part], false);
    BodyRead(f, part.body, rest, m3);
    SmoothStep(f, m3, Machine(4, rest, events + [Part] + [Content(part.body)], false));
    HeadersTurnRead(f, part, tail, m2);
    HeadersAccepted(f, part.headers, tail);
    SmoothStep(f, m2, m3);
    SmoothStep(f, m1, m2);
  }

  lemma SmoothBoundary(f: Format, rest: Text, events: seq<Event>)
    requires Smooth(f, Machine(1, rest, events, false))
    ensures Smooth(f, Machine(4, CRLF + rest, events, false))
  {
    assert (CRLF + rest)[2..] == rest && (CRLF + rest)[..2] == CRLF;
    assert Step(f, Machine(4, CRLF + rest, events, false)) == Go(Machine(1, rest, events, false));
  }

  lemma {:induction false} FormIsSmooth(f: Format, parts: seq<FormPart>, end: Text, events: seq<Event>)
    requires parts != [] && ShortParts(f, parts) && Closing(end)
    ensures Smooth(f, Machine(1, PartsText(f, parts, end), events, false))
    decreases |parts|
  {
    var part := parts[0];
    assert part in parts;
    var done := events + [Part] + [Content(part.body)];
    if |parts| == 1 {
      assert Smooth(f, Machine(4, end, done, false)) by { assert end[..2] == DASH; }
      SmoothPart(f, part, end, events);
    } else {
      FormIsSmooth(f, parts[1..], end, done);
      SmoothBoundary(f, PartsText(f, parts[1..], end), done);
      SmoothPart(f, part, CRLF + PartsText(f, parts[1..], end), events);
    }
  }

  /** Behind the first boundary the parts may arrive in any pieces. */
  lemma PartsInPieces(f: Format, parts: seq<FormPart>, end: Text, chunks: seq<Text>)
    requires parts != [] && ShortParts(f, parts) && Closing(end) && chunks != [] && Concat(chunks) == PartsText(f, parts, end)
    ensures var r := FeedAll(Actual(f), Machine(1, [], [], false), chunks);
            r.1 && r.0.valid && Bodies(r.0.events) == BodiesOf(parts)
  {
    var m := Machine(1, [], [], false);
    assert [] + Concat(chunks) == Concat(chunks);
    FormIsSmooth(f, parts, end, []);
    InPieces(f, m, chunks);
    PartsRead(f, parts, end, [], false);
    var closing := Machine(4, end, [] + EventsOf(parts), false);
    assert end[..2] == DASH;
    RunGoes(f, closing, Machine(4, [], [] + EventsOf(parts), true));
    BodiesOfEvents(parts, []);
    assert Bodies([]) + BodiesOf(parts) == BodiesOf(parts);
  }

  // ---- The opening boundary -------------------------------------------------------------------------------------------------

  lemma {:induction false} HeaderTextLonger(headers: seq<Text>, rest: Text, more: Text)
    ensures HeaderText(headers, rest + more) == HeaderText(headers, rest) + more
  {
    if headers == [] {
      Associate(CRLF, rest, more);
    } else {
      HeaderTextLonger(headers[1..], rest, more);
      Associate(CRLF, HeaderText(headers[1..], rest), more);
      Associate(headers[0], CRLF + HeaderText(headers[1..], rest), more);
    }
  }

  /** A part up to the boundary that opens the next one. */
  function BeforeNext(part: FormPart): Text {
    HeaderText(part.headers, part.body + CRLF)
  }

  lemma DelimiterOpens(f: Format, rest: Text)
    ensures f.Delimiter() + (CRLF + rest) == CRLF + (f.Opening() + rest)
  {
  }

  /** The delimiter between two parts holds the boundary that opens the second. */
  lemma NextOpens(f: Format, part: FormPart, rest: Text)
    ensures PartText(f, part, CRLF + rest) == BeforeNext(part) + (f.Opening() + rest)
  {
    DelimiterOpens(f, rest);
    Associate(part.body, CRLF, f.Opening() + rest);
    HeaderTextLonger(part.headers, part.body + CRLF, f.Opening() + rest);
  }

  /** The opening boundary occurs nowhere in the parts but where a part is opened. */
  ghost predicate CleanParts(f: Format, parts: seq<FormPart>, end: Text) {
    forall i :: 0 <= i < |parts| ==> CleanPart(f, parts[i], i == |parts| - 1, end)
  }

  ghost predicate CleanPart(f: Format, part: FormPart, isLast: bool, end: Text) {
    var o := f.Opening();
    if isLast then var t := (o + PartText(f, part, end))[1..]; Find(t, o) == |t|
    else Ends((o + BeforeNext(part))[1..], o)
  }

  /** In t the given parts are still to come. */
  ghost predicate ToCome(f: Format, t: Text, before: Text, parts: seq<FormPart>, end: Text) {
    if parts == [] then before == t && Find(t, f.Opening()) == |t|
    else Ends(before, f.Opening()) && t == before + Form(f, parts, end)
  }

  lemma EndsLater(s: Text, pat: Text, k: nat)
    requires pat != [] && k <= |s| && Ends(s, pat)
    ensures Ends(s[k..], pat)
  {
    FindIsFirst(s + pat, pat);
    FindSkips(s + pat, pat, k);
    assert (s + pat)[k..] == s[k..] + pat;
  }

  lemma NoneLater(t: Text, pat: Text, k: nat)
    requires pat != [] && k <= |t| && Find(t, pat) == |t|
    ensures Find(t[k..], pat) == |t[k..]|
  {
    StillNone(t, pat, k);
  }

  lemma CleanTail(f: Format, parts: seq<FormPart>, end: Text)
    requires parts != [] && CleanParts(f, parts, end)
    ensures CleanParts(f, parts[1..], end) && CleanPart(f, parts[0], |parts| == 1, end)
  {
    forall i | 0 <= i < |parts[1..]| ensures CleanPart(f, parts[1..][i], i == |parts[1..]| - 1, end) {
      assert CleanPart(f, parts[i + 1], i + 1 == |parts| - 1, end);
    }
    assert CleanPart(f, parts[0], 0 == |parts| - 1, end);
  }

  /** Without its first byte a form is one without its first part. */
  lemma FirstPartLost(f: Format, parts: seq<FormPart>, end: Text) returns (before: Text)
    requires parts != [] && CleanParts(f, parts, end)
    ensures ToCome(f, Form(f, parts, end)[1..], before, parts[1..], end)
  {
    CleanTail(f, parts, end);
    var o := f.Opening();
    if |parts| == 1 {
      before := Form(f, parts, end)[1..];
    } else {
      var rest := PartsText(f, parts[1..], end);
      NextOpens(f, parts[0], rest);
      before := (o + BeforeNext(parts[0]))[1..];
      Associate(o, BeforeNext(parts[0]), o + rest);
      assert ((o + BeforeNext(parts[0])) + (o + rest))[1..] == before + (o + rest);
    }
  }

  /** After any number of bytes some of the parts are still to come; all of them only if the first boundary is. */
  lemma {:induction false} PartsLeft(f: Format, t: Text, before: Text, parts: seq<FormPart>, end: Text, k: nat) returns (j: nat, before1: Text)
    requires CleanParts(f, parts, end) && ToCome(f, t, before, parts, end) && k <= |t|
    ensures j <= |parts| && CleanParts(f, parts[j..], end) && ToCome(f, t[k..], before1, parts[j..], end)
    ensures j == 0 <==> parts == [] || k <= |before|
    decreases |parts|
  {
    if parts == [] {
      j, before1 := 0, t[k..];
      NoneLater(t, f.Opening(), k);
    } else if k <= |before| {
      j, before1 := 0, before[k..];
      EndsLater(before, f.Opening(), k);
      DropBoth(before, Form(f, parts, end), k);
    } else {
      CleanTail(f, parts, end);
      var rest := Form(f, parts, end)[1..];
      var next := FirstPartLost(f, parts, end);
      var i;
      DropBoth(before, Form(f, parts, end), k);
      i, before1 := PartsLeft(f, rest, next, parts[1..], end, k - |before| - 1);
      j := i + 1;
      assert parts[1..][i..] == parts[j..];
    }
  }

  lemma DropBoth(before: Text, form: Text, k: nat)
    requires k <= |before + form|
    ensures k <= |before| ==> (before + form)[k..] == before[k..] + form
    ensures k > |before| ==> (before + form)[k..] == form[1..][k - |before| - 1..]
  {
  }

  lemma NothingFound(f: Format, x: Text)
    requires Find(x, f.Opening()) == |x|
    ensures Run(f, START.(content := x)) == (START, true)
  {
    assert x[|x|..] == [];
  }

  /** The call that holds the opening boundary. */
  lemma OpeningFound(f: Format, before: Text, parts: seq<FormPart>, end: Text, x: Text, y: Text) returns (rest: Text)
    requires parts != [] && Ends(before, f.Opening()) && x + y == before + Form(f, parts, end) && Find(x, f.Opening()) < |x|
    ensures rest + y == PartsText(f, parts, end)
    ensures Run(f, START.(content := x)) == Run(f, Machine(1, rest, [], false))
  {
    FirstAt(before, f.Opening(), PartsText(f, parts, end), x, y);
    rest := RunOpens(f, x, |before|);
  }

  lemma FirstAt(before: Text, pat: Text, rest: Text, x: Text, y: Text)
    requires pat != [] && Ends(before, pat) && x + y == before + (pat + rest) && Find(x, pat) < |x|
    ensures Find(x, pat) == |before| && |before| + |pat| <= |x| && x[|before| + |pat|..] + y == rest
  {
    EndsWithin(before, pat, rest);
    LongerFinds(x, y, pat);
  }

  lemma RunOpens(f: Format, x: Text, k: nat) returns (rest: Text)
    requires k == Find(x, f.Opening()) < |x|
    ensures k + |f.Opening()| <= |x| && rest == x[k + |f.Opening()|..]
    ensures Run(f, START.(content := x)) == Run(f, Machine(1, rest, [], false))
  {
    InitialAt(f, START.(content := x), k);
    rest := x[k + |f.Opening()|..];
    RunGoes(f, START.(content := x), Machine(1, rest, [], false));
  }

  lemma OpenedInPieces(f: Format, parts: seq<FormPart>, end: Text, chunks: seq<Text>, rest: Text)
    requires chunks != [] && parts != [] && ShortParts(f, parts) && Closing(end)
    requires rest + Concat(chunks[1..]) == PartsText(f, parts, end)
    requires Run(f, START.(content := chunks[0])) == Run(f, Machine(1, rest, [], false))
    ensures var r := FeedAll(Actual(f), START, chunks);
            r.1 && r.0.valid && Bodies(r.0.events) == BodiesOf(parts)
  {
    var found := [rest] + chunks[1..];
    ConcatFirst(rest, chunks[1..]);
    PartsInPieces(f, parts, end, found);
    FeedNext(f, START, chunks);
    FeedNext(f, Machine(1, [], [], false), found);
    assert [] + chunks[0] == chunks[0] && [] + rest == rest;
  }

  /** The first call that brings anything. */
  function FirstPiece(chunks: seq<Text>): Text {
    if chunks == [] then [] else if chunks[0] != [] then chunks[0] else FirstPiece(chunks[1..])
  }

  lemma OpeningInFirst(f: Format, rest: Text, x: Text, y: Text)
    requires x + y == f.Opening() + rest && x != []
    ensures Find(x, f.Opening()) < |x| <==> |x| >= |f.Opening()|
  {
    var o := f.Opening();
    if |x| >= |o| {
      assert (x + y)[..|o|] == x[..|o|] && (o + rest)[..|o|] == o;
    } else {
      FindIsFirst(x, o);
    }
  }

  lemma ShortTail(f: Format, parts: seq<FormPart>, j: nat)
    requires j <= |parts| && ShortParts(f, parts)
    ensures ShortParts(f, parts[j..])
  {
  }

  /** What any way of cutting a stream with parts makes of it: the parts from some one on. */
  lemma {:induction false} StreamInPieces(f: Format, before: Text, parts: seq<FormPart>, end: Text, chunks: seq<Text>) returns (j: nat)
    requires ShortParts(f, parts) && CleanParts(f, parts, end) && Closing(end) && ToCome(f, Concat(chunks), before, parts, end)
    ensures var r := FeedAll(Actual(f), START, chunks);
            && j <= |parts| && r.1
            && (if j == |parts| then r.0 == START else r.0.valid && Bodies(r.0.events) == BodiesOf(parts[j..]))
    ensures before == [] && parts != [] ==> (j == 0 <==> |FirstPiece(chunks)| >= |f.Opening()|)
    decreases |chunks|
  {
    if chunks == [] {
      j := 0;
    } else {
      var x, y := chunks[0], Concat(chunks[1..]);
      if x == [] {
        assert x + y == y;
        LostCall(f, chunks);
        j := StreamInPieces(f, before, parts, end, chunks[1..]);
      } else if Find(x, f.Opening()) < |x| {
        LongerFinds(x, y, f.Opening());
        assert parts != [];
        var rest := OpeningFound(f, before, parts, end, x, y);
        OpenedInPieces(f, parts, end, chunks, rest);
        j := 0;
        assert parts[0..] == parts;
      } else {
        j := OpeningLost(f, before, parts, end, chunks);
      }
      if before == [] && parts != [] && x != [] {
        assert [] + Form(f, parts, end) == Form(f, parts, end);
        OpeningInFirst(f, PartsText(f, parts, end), x, y);
      }
    }
  }

  lemma LostCall(f: Format, chunks: seq<Text>)
    requires chunks != [] && Find(chunks[0], f.Opening()) == |chunks[0]|
    ensures FeedAll(Actual(f), START, chunks) == FeedAll(Actual(f), START, chunks[1..])
  {
    FeedNext(f, START, chunks);
    assert [] + chunks[0] == chunks[0];
    NothingFound(f, chunks[0]);
  }

  lemma {:induction false} OpeningLost(f: Format, before: Text, parts: seq<FormPart>, end: Text, chunks: seq<Text>) returns (j: nat)
    requires ShortParts(f, parts) && CleanParts(f, parts, end) && Closing(end) && ToCome(f, Concat(chunks), before, parts, end)
    requires chunks != [] && chunks[0] != [] && Find(chunks[0], f.Opening()) == |chunks[0]|
    ensures var r := FeedAll(Actual(f), START, chunks);
            && j <= |parts| && r.1
            && (if j == |parts| then r.0 == START else r.0.valid && Bodies(r.0.events) == BodiesOf(parts[j..]))
    ensures before == [] && parts != [] ==> j > 0
    decreases |chunks|, 0
  {
    var i, before1 := PartsLeft(f, Concat(chunks), before, parts, end, |chunks[0]|);
    assert Concat(chunks)[|chunks[0]|..] == Concat(chunks[1..]);
    ShortTail(f, parts, i);
    LostCall(f, chunks);
    var k := StreamInPieces(f, before1, parts[i..], end, chunks[1..]);
    j := i + k;
    assert parts[i..][k..] == parts[j..];
  }

  /** A form is reported with all its parts, however it arrives, exactly if the first call that brings anything brings the
      whole opening boundary; otherwise parts are missing at its beginning, or all of them are and it is not valid. */
  lemma FormInPieces(f: Format, parts: seq<FormPart>, end: Text, chunks: seq<Text>) returns (j: nat)
    requires parts != [] && ShortParts(f, parts) && CleanParts(f, parts, end) && Closing(end) && Concat(chunks) == Form(f, parts, end)
    ensures var r := FeedAll(Actual(f), START, chunks);
            && j <= |parts| && r.1
            && (if j == |parts| then r.0 == START else r.0.valid && Bodies(r.0.events) == BodiesOf(parts[j..]))
    ensures var r := FeedAll(Actual(f), START, chunks);
            r.0.valid && Bodies(r.0.events) == BodiesOf(parts) <==> |FirstPiece(chunks)| >= |f.Opening()|
  {
    var o := f.Opening();
    assert Ends([], o) by { assert [] + o == o && o[..|o|] == o; }
    assert [] + Form(f, parts, end) == Form(f, parts, end);
    j := StreamInPieces(f, [], parts, end, chunks);
    assert parts[0..] == parts;
  }
}
