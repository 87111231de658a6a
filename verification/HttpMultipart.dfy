/** The multipart parser: its buffer, its state machine, and what it makes of a body however it arrives. */
module MultipartParsing {
  import opened HttpText
  import opened Sequences

  const DASH: Text := "--"

  // ---- Searching -----------------------------------------------------------------------------

  /** Where pat first occurs in s, or |s|. */
  function Find(s: Text, pat: Text): (r: nat)
    requires pat != []
    ensures r <= |s|
  {
    if |s| < |pat| then |s| else if s[..|pat|] == pat then 0 else 1 + Find(s[1..], pat)
  }

  predicate OccursAt(s: Text, pat: Text, k: nat) {
    k + |pat| <= |s| && s[k..k + |pat|] == pat
  }

  /** Find is the first occurrence. */
  lemma {:induction false} FindIsFirst(s: Text, pat: Text)
    requires pat != []
    ensures forall k :: 0 <= k < Find(s, pat) ==> !OccursAt(s, pat, k)
    ensures Find(s, pat) < |s| ==> OccursAt(s, pat, Find(s, pat))
    ensures Find(s, pat) == |s| ==> forall k :: 0 <= k ==> !OccursAt(s, pat, k)
  {
    if |s| >= |pat| && s[..|pat|] != pat {
      FindIsFirst(s[1..], pat);
      forall k: nat ensures OccursAt(s, pat, k) <==> k > 0 && OccursAt(s[1..], pat, k - 1) {
        if k > 0 && k + |pat| <= |s| { assert s[1..][k - 1..k - 1 + |pat|] == s[k..k + |pat|]; }
        if k == 0 { assert s[0..|pat|] == s[..|pat|]; }
      }
    }
  }

  /** Bytes at which nothing starts can be searched separately. */
  lemma {:induction false} FindSkips(s: Text, pat: Text, n: nat)
    requires pat != [] && n <= |s| && forall k :: 0 <= k < n ==> !OccursAt(s, pat, k)
    ensures Find(s, pat) == n + Find(s[n..], pat)
  {
    if n == 0 {
      assert s[0..] == s;
    } else {
      assert !OccursAt(s, pat, 0);
      if |s| >= |pat| {
        assert s[0..|pat|] == s[..|pat|];
        forall k | 0 <= k < n - 1 ensures !OccursAt(s[1..], pat, k) {
          assert !OccursAt(s, pat, k + 1);
          if k + |pat| <= |s[1..]| { assert s[1..][k..k + |pat|] == s[k + 1..k + 1 + |pat|]; }
        }
        FindSkips(s[1..], pat, n - 1);
        assert s[1..][n - 1..] == s[n..];
      }
    }
  }

  // ---- The machine ------------------------------------------------------------------------------

  /** What the caller is told. */
  datatype Event = Part | Content(data: Text)

  /** The boundary, and which header lines are accepted. */
  datatype Format = Format(boundary: Text, headerOk: Text -> bool)
  {
    function Opening(): (r: Text)
      ensures r != []
    {
      DASH + boundary + CRLF
    }

    function Delimiter(): (r: Text)
      ensures |r| >= 4
    {
      CRLF + DASH + boundary
    }
  }

  datatype Machine = Machine(state: nat, content: Text, events: seq<Event>, valid: bool)

  /** A turn of the loop either goes on or returns. */
  datatype Turn = Go(next: Machine) | Return(last: Machine, ok: bool)

  function StartsWith(s: Text, pat: Text): bool {
    |s| >= |pat| && s[..|pat|] == pat
  }

  /** State 0: the first boundary. */
  function InitialTurn(f: Format, m: Machine): Turn {
    var pos := Find(m.content, f.Opening());
    var rest := m.content[pos..];
    if |f.Opening()| > |rest| then Return(m.(content := rest), true)
    else if !StartsWith(rest, f.Opening()) then Return(m.(content := rest), false)
    else Go(m.(content := rest[|f.Opening()|..], state := 1))
  }

  /** The header lines of state 2: Return on a line that is not accepted, and when a line is incomplete. */
  function HeaderLines(f: Format, m: Machine): Turn
    decreases |m.content|
  {
    var pos := Find(m.content, CRLF);
    if pos >= |m.content| then Return(m, true)
    else if pos == 0 then
      FindIsFirst(m.content, CRLF);
      Go(m.(content := m.content[2..], events := m.events + [Part], state := 3))
    else if !f.headerOk(m.content[..pos]) then Return(m.(valid := false), false)
    else
      FindIsFirst(m.content, CRLF);
      HeaderLines(f, m.(content := m.content[pos + 2..]))
  }

  /** The header line that ends at pos: the empty one ends the headers. */
  function HeaderLine(f: Format, m: Machine, pos: nat): Turn
    requires pos + 2 <= |m.content|
  {
    if pos == 0 then Go(Machine(3, m.content[2..], m.events + [Part], m.valid))
    else if !f.headerOk(m.content[..pos]) then Return(Machine(m.state, m.content, m.events, false), false)
    else Go(Machine(m.state, m.content[pos + 2..], m.events, m.valid))
  }

  lemma LinesGoOn(f: Format, m: Machine, pos: nat)
    requires m.state == 2 && pos == Find(m.content, CRLF) < |m.content|
    ensures pos + 2 <= |m.content|
    ensures var turn := HeaderLine(f, m, pos);
            HeaderLines(f, m) == if turn.Go? && turn.next.state == 2 then HeaderLines(f, turn.next) else turn
  {
    FindIsFirst(m.content, CRLF);
  }

  function HeadersTurn(f: Format, m: Machine): Turn {
    if Find(m.content, CRLF) > HEADER_MAX_LENGTH then Return(m, false) else HeaderLines(f, m)
  }

  function Emit(m: Machine, len: nat): Machine
    requires len <= |m.content|
  {
    m.(events := m.events + [Content(m.content[..len])], content := m.content[len..])
  }

  /** State 3: everything before the delimiter is content; without one, all but a delimiter's length. */
  function BodyTurn(f: Format, m: Machine): Turn {
    var d := f.Delimiter();
    if |d| > |m.content| then Return(m, true)
    else
      var pos := Find(m.content, d);
      if pos < |m.content| then
        FindIsFirst(m.content, d);
        var n := Emit(m, pos);
        Go(n.(content := n.content[|d|..], state := 4))
      else
        var len := |m.content| - |d|;
        Return(if len > 0 then Emit(m, len) else m, true)
  }

  lemma BodyFound(f: Format, m: Machine, pos: nat)
    requires |f.Delimiter()| <= |m.content| && pos == Find(m.content, f.Delimiter()) < |m.content|
    ensures var after := pos + |f.Delimiter()|;
            && after <= |m.content|
            && BodyTurn(f, m) == Go(Machine(4, m.content[after..], m.events + [Content(m.content[..pos])], m.valid))
  {
    FindIsFirst(m.content, f.Delimiter());
    assert m.content[pos..][|f.Delimiter()|..] == m.content[pos + |f.Delimiter()|..];
  }

  lemma BodyPending(f: Format, m: Machine, len: nat)
    requires len == |m.content| - |f.Delimiter()| && Find(m.content, f.Delimiter()) >= |m.content|
    ensures BodyTurn(f, m) == Return(if len > 0 then Machine(m.state, m.content[len..], m.events + [Content(m.content[..len])], m.valid) else m, true)
  {
  }

  /** State 4: after a delimiter. */
  function BoundaryTurn(m: Machine): Turn {
    if |CRLF| > |m.content| then Return(m, true)
    else if StartsWith(m.content, CRLF) then Go(m.(content := m.content[2..], state := 1))
    else if |DASH| > |m.content| then Return(m, true)
    else if StartsWith(m.content, DASH) then Go(m.(content := [], valid := true))
    else Return(m, true)
  }

  function Step(f: Format, m: Machine): Turn
    requires m.content != []
  {
    match m.state
    case 0 => InitialTurn(f, m)
    case 1 => Go(m.(state := 2))
    case 2 => HeadersTurn(f, m)
    case 3 => BodyTurn(f, m)
    case _ => BoundaryTurn(m)
  }

  function Pending(m: Machine): nat {
    if m.state == 1 then 1 else 0
  }

  /** Every turn that goes on consumes something, or only leaves the state between a boundary and its headers. */
  lemma StepDecreases(f: Format, m: Machine)
    requires m.content != [] && Step(f, m).Go?
    ensures var n := Step(f, m).next;
            |n.content| < |m.content| || (|n.content| == |m.content| && Pending(n) < Pending(m))
  {
    match m.state
    case 0 =>
    case 1 =>
    case 2 => HeadersConsume(f, m);
    case 3 => FindIsFirst(m.content, f.Delimiter());
    case _ =>
  }

  lemma {:induction false} HeadersConsume(f: Format, m: Machine)
    ensures HeaderLines(f, m).Go? ==> |HeaderLines(f, m).next.content| < |m.content|
    decreases |m.content|
  {
    var pos := Find(m.content, CRLF);
    if 0 < pos < |m.content| && f.headerOk(m.content[..pos]) {
      FindIsFirst(m.content, CRLF);
      HeadersConsume(f, m.(content := m.content[pos + 2..]));
    }
  }

  /** The loop of parse. */
  function Run(f: Format, m: Machine): (r: (Machine, bool))
    decreases |m.content|, Pending(m)
  {
    if m.content == [] then (m, true)
    else
      match Step(f, m)
      case Return(last, ok) => (last, ok)
      case Go(next) =>
        StepDecreases(f, m);
        Run(f, next)
  }

  /** parse */
  function Feed(f: Format, m: Machine, data: Text): (Machine, bool) {
    Run(f, m.(content := m.content + data))
  }

  /** A parser, by what a call does and what the loop does. */
  datatype Parser = Parser(feed: (Machine, Text) -> (Machine, bool), run: Machine -> (Machine, bool))

  function Actual(f: Format): Parser {
    Parser((m: Machine, data: Text) => Feed(f, m, data), (m: Machine) => Run(f, m))
  }

  /** Several calls of parse, until one fails. */
  function FeedAll(p: Parser, m: Machine, chunks: seq<Text>): (Machine, bool)
    decreases |chunks|
  {
    if chunks == [] then (m, true)
    else
      var r := p.feed(m, chunks[0]);
      if !r.1 then r else FeedAll(p, r.0, chunks[1..])
  }

  // ---- The body, however it arrives ----------------------------------------------------------------

  /** All content reported. */
  function Joined(events: seq<Event>): Text {
    if events == [] then []
    else Joined(events[..|events| - 1]) + (match events[|events| - 1] case Part => [] case Content(data) => data)
  }

  /** What the parser keeps back of t while it waits. */
  function Kept(f: Format, t: Text): nat {
    if |t| < |f.Delimiter()| then |t| else |f.Delimiter()|
  }

  ghost predicate NoDelimiter(f: Format, t: Text) {
    Find(t, f.Delimiter()) == |t|
  }

  /** The parser waits in the body: it has reported all it could. */
  ghost predicate Waiting(f: Format, m: Machine) {
    m.state == 3 && NoDelimiter(f, m.content) && |m.content| <= |f.Delimiter()|
  }

  lemma EmitJoins(m: Machine, len: nat)
    requires len <= |m.content|
    ensures Joined(Emit(m, len).events) == Joined(m.events) + m.content[..len]
  {
    assert Emit(m, len).events[..|m.events|] == m.events;
  }

  /** n is m after waiting on with c in the buffer. */
  ghost predicate Waited(f: Format, m: Machine, c: Text, n: Machine) {
    var len := |c| - Kept(f, c);
    Waiting(f, n) && n.content == c[len..] && n.valid == m.valid && Joined(n.events) == Joined(m.events) + c[..len]
  }

  /** A chunk without a delimiter in what is now there. */
  ghost predicate WaitsLaw(f: Format, p: Parser, m: Machine, x: Text) {
    m.state == 3 && NoDelimiter(f, m.content + x) ==>
      var r := p.feed(m, x); r.1 && Waited(f, m, m.content + x, r.0)
  }

  /** n is m in the turn after a delimiter at i of c. */
  ghost predicate Left(f: Format, m: Machine, c: Text, i: nat, n: Machine) {
    && i + |f.Delimiter()| <= |c|
    && n.state == 4 && n.content == c[i + |f.Delimiter()|..] && n.valid == m.valid
    && Joined(n.events) == Joined(m.events) + c[..i]
  }

  /** A chunk that completes a delimiter. */
  ghost predicate LeavesLaw(f: Format, p: Parser, m: Machine, x: Text) {
    m.state == 3 && !NoDelimiter(f, m.content + x) ==>
      exists n :: Left(f, m, m.content + x, Find(m.content + x, f.Delimiter()), n) && p.feed(m, x) == p.run(n)
  }

  ghost predicate Lawful(f: Format, p: Parser) {
    forall m, x :: WaitsLaw(f, p, m, x) && LeavesLaw(f, p, m, x)
  }

  lemma FeedWaits(f: Format, m: Machine, x: Text)
    requires m.state == 3 && NoDelimiter(f, m.content + x)
    ensures Feed(f, m, x).1 && Waited(f, m, m.content + x, Feed(f, m, x).0)
  {
    var c := m.content + x;
    var n := RunStays(f, m.(content := c));
    StayedWaits(f, m, c, n);
  }

  lemma StayedWaits(f: Format, m: Machine, c: Text, n: Machine)
    requires m.state == 3 && NoDelimiter(f, c)
    requires n == if |c| > |f.Delimiter()| then Emit(m.(content := c), |c| - |f.Delimiter()|) else m.(content := c)
    ensures Waited(f, m, c, n)
  {
    if |c| > |f.Delimiter()| {
      ReportedAll(f, m, c, |c| - |f.Delimiter()|);
    } else {
      NothingToReport(f, m, c);
    }
  }

  lemma RunStays(f: Format, m: Machine) returns (n: Machine)
    requires m.state == 3 && NoDelimiter(f, m.content)
    ensures Run(f, m) == (n, true)
    ensures n == if |m.content| > |f.Delimiter()| then Emit(m, |m.content| - |f.Delimiter()|) else m
  {
    n := Run(f, m).0;
  }

  lemma ReportedAll(f: Format, m: Machine, c: Text, len: nat)
    requires m.state == 3 && NoDelimiter(f, c) && len == |c| - |f.Delimiter()|
    ensures Waited(f, m, c, Emit(m.(content := c), len))
  {
    EmitJoins(m.(content := c), len);
    StillNone(c, f.Delimiter(), len);
  }

  lemma NothingToReport(f: Format, m: Machine, c: Text)
    requires m.state == 3 && |c| <= |f.Delimiter()| && NoDelimiter(f, c)
    ensures Waited(f, m, c, m.(content := c))
  {
    assert c[0..] == c && c[..0] == [];
  }

  lemma StillNone(c: Text, d: Text, n: nat)
    requires d != [] && Find(c, d) == |c| && n <= |c|
    ensures Find(c[n..], d) == |c[n..]|
  {
    FindIsFirst(c, d);
    FindSkips(c, d, n);
  }

  lemma FeedLeaves(f: Format, m: Machine, x: Text) returns (n: Machine)
    requires m.state == 3 && !NoDelimiter(f, m.content + x)
    ensures Left(f, m, m.content + x, Find(m.content + x, f.Delimiter()), n) && Feed(f, m, x) == Run(f, n)
  {
    var c, d := m.content + x, f.Delimiter();
    var i := Find(c, d);
    FindIsFirst(c, d);
    EmitJoins(m.(content := c), i);
    assert c[i..][|d|..] == c[i + |d|..];
    n := Machine(4, c[i + |d|..], m.events + [Content(c[..i])], m.valid);
  }

  lemma ActualIsLawful(f: Format)
    ensures Lawful(f, Actual(f))
  {
    forall m: Machine, x: Text ensures WaitsLaw(f, Actual(f), m, x) && LeavesLaw(f, Actual(f), m, x) {
      if m.state == 3 {
        if NoDelimiter(f, m.content + x) {
          FeedWaits(f, m, x);
        } else {
          var n := FeedLeaves(f, m, x);
        }
      }
    }
  }

  /** The delimiter is found at the same place in the whole stream. */
  lemma DelimiterInWhole(f: Format, c: Text, rest: Text, len: nat)
    requires NoDelimiter(f, c) && len == |c| - Kept(f, c)
    ensures Find(c + rest, f.Delimiter()) == len + Find(c[len..] + rest, f.Delimiter())
  {
    var d := f.Delimiter();
    FindIsFirst(c, d);
    forall k | 0 <= k < len ensures !OccursAt(c + rest, d, k) {
      assert !OccursAt(c, d, k);
      assert (c + rest)[k..k + |d|] == c[k..k + |d|];
    }
    FindSkips(c + rest, d, len);
    assert (c + rest)[len..] == c[len..] + rest;
  }

  /** The call in which the delimiter is complete, and the machine that this call goes on with. */
  datatype Exit = Exit(call: nat, machine: Machine)

  /** While no delimiter has arrived, everything but the last bytes kept back is reported. */
  lemma {:induction false} BodyWaits(f: Format, p: Parser, m: Machine, chunks: seq<Text>)
    requires Lawful(f, p) && m.state == 3 && (chunks == [] ==> Waiting(f, m))
    requires NoDelimiter(f, m.content + Concat(chunks))
    ensures FeedAll(p, m, chunks).1 && Waited(f, m, m.content + Concat(chunks), FeedAll(p, m, chunks).0)
    decreases |chunks|
  {
    if chunks == [] {
      WaitedNothing(f, m);
    } else {
      var x, rest := chunks[0], Concat(chunks[1..]);
      var c := m.content + x;
      assert m.content + Concat(chunks) == c + rest;
      PrefixHasNone(c, rest, f.Delimiter());
      assert WaitsLaw(f, p, m, x);
      var n := p.feed(m, x).0;
      var skip := |c| - Kept(f, c);
      WaitsOn(f, c, rest, skip, n.content);
      BodyWaits(f, p, n, chunks[1..]);
      WaitedTwice(f, m, c, n, rest, FeedAll(p, n, chunks[1..]).0);
    }
  }

  lemma WaitedNothing(f: Format, m: Machine)
    requires Waiting(f, m)
    ensures Waited(f, m, m.content + [], m)
  {
    assert m.content + [] == m.content;
    assert m.content[0..] == m.content && m.content[..0] == [];
  }

  lemma WaitedTwice(f: Format, m: Machine, c: Text, n: Machine, rest: Text, last: Machine)
    requires Waited(f, m, c, n) && Waited(f, n, n.content + rest, last)
    ensures Waited(f, m, c + rest, last)
  {
    WaitsJoin(f, c, rest, |c| - Kept(f, c), Joined(m.events));
  }

  lemma WaitsOn(f: Format, c: Text, rest: Text, skip: nat, content: Text)
    requires NoDelimiter(f, c) && NoDelimiter(f, c + rest) && skip == |c| - Kept(f, c) && content == c[skip..]
    ensures NoDelimiter(f, content + rest)
    ensures rest == [] ==> content + rest == content
  {
    DelimiterInWhole(f, c, rest, skip);
  }

  /** What is reported before and after a call adds up. */
  lemma WaitsJoin(f: Format, c: Text, rest: Text, skip: nat, before: Text)
    requires skip == |c| - Kept(f, c)
    ensures var len := |c[skip..] + rest| - Kept(f, c[skip..] + rest);
            var all := |c + rest| - Kept(f, c + rest);
            all == skip + len && (c[skip..] + rest)[len..] == (c + rest)[all..]
            && before + c[..skip] + (c[skip..] + rest)[..len] == before + (c + rest)[..all]
  {
    var len := |c[skip..] + rest| - Kept(f, c[skip..] + rest);
    Reassemble(c, rest, skip, len);
    Associate(before, c[..skip], (c[skip..] + rest)[..len]);
  }

  lemma PrefixHasNone(c: Text, rest: Text, d: Text)
    requires d != [] && Find(c + rest, d) == |c + rest|
    ensures Find(c, d) == |c|
  {
    FindIsFirst(c + rest, d);
    FindIsFirst(c, d);
    if Find(c, d) < |c| {
      var k := Find(c, d);
      assert (c + rest)[k..k + |d|] == c[k..k + |d|];
      assert OccursAt(c + rest, d, k);
    }
  }

  lemma Reassemble(c: Text, rest: Text, skip: nat, len: nat)
    requires skip <= |c| && len <= |c[skip..] + rest|
    ensures c[..skip] + (c[skip..] + rest)[..len] == (c + rest)[..skip + len]
    ensures (c[skip..] + rest)[len..] == (c + rest)[skip + len..]
  {
    assert (c + rest)[..skip + len] == c[..skip] + (c[skip..] + rest)[..len];
  }

  /** The exit happens after e.call chunks, right behind the first delimiter of t. */
  ghost predicate RightExit(f: Format, m: Machine, chunks: seq<Text>, e: Exit, t: Text) {
    && 0 < e.call <= |chunks|
    && Left(f, m, m.content + Concat(chunks[..e.call]), Find(t, f.Delimiter()), e.machine)
  }

  /** As soon as a delimiter is complete, exactly the bytes before the first one have been reported, and
      the parser goes on right after it, in whatever pieces the stream arrived. */
  lemma {:induction false} BodyLeaves(f: Format, p: Parser, m: Machine, chunks: seq<Text>) returns (e: Exit)
    requires Lawful(f, p) && m.state == 3 && (chunks == [] ==> Waiting(f, m))
    requires !NoDelimiter(f, m.content + Concat(chunks))
    ensures RightExit(f, m, chunks, e, m.content + Concat(chunks))
    ensures FeedAll(p, m, chunks) == Resumed(p, e, chunks)
    decreases |chunks|
  {
    assert m.content + [] == m.content;
    var x, rest := chunks[0], Concat(chunks[1..]);
    var c := m.content + x;
    assert m.content + Concat(chunks) == c + rest;
    if NoDelimiter(f, c) {
      assert WaitsLaw(f, p, m, x);
      var n := p.feed(m, x).0;
      LeavesOn(f, c, rest, |c| - Kept(f, c), n.content);
      var inner := BodyLeaves(f, p, n, chunks[1..]);
      e := Exit(inner.call + 1, inner.machine);
      LeavesJoin(f, m, n, chunks, inner, c, rest);
      ResumedLater(p, inner, e, chunks);
    } else {
      e := LeavesNow(f, p, m, chunks);
    }
  }

  lemma LeavesOn(f: Format, c: Text, rest: Text, skip: nat, content: Text)
    requires NoDelimiter(f, c) && !NoDelimiter(f, c + rest) && skip == |c| - Kept(f, c) && content == c[skip..]
    ensures !NoDelimiter(f, content + rest)
    ensures rest == [] ==> content + rest == content
  {
    DelimiterInWhole(f, c, rest, skip);
  }

  lemma ResumedLater(p: Parser, inner: Exit, e: Exit, chunks: seq<Text>)
    requires chunks != [] && inner.call <= |chunks| - 1 && e == Exit(inner.call + 1, inner.machine)
    ensures Resumed(p, e, chunks) == Resumed(p, inner, chunks[1..])
  {
    assert chunks[1..][inner.call..] == chunks[e.call..];
  }

  /** The delimiter is complete with the first chunk. */
  lemma LeavesNow(f: Format, p: Parser, m: Machine, chunks: seq<Text>) returns (e: Exit)
    requires Lawful(f, p) && m.state == 3 && chunks != [] && !NoDelimiter(f, m.content + chunks[0])
    ensures RightExit(f, m, chunks, e, m.content + Concat(chunks))
    ensures FeedAll(p, m, chunks) == Resumed(p, e, chunks)
  {
    var c, rest := m.content + chunks[0], Concat(chunks[1..]);
    assert LeavesLaw(f, p, m, chunks[0]);
    var n :| Left(f, m, c, Find(c, f.Delimiter()), n) && p.feed(m, chunks[0]) == p.run(n);
    FirstStays(c, rest, f.Delimiter());
    e := Exit(1, n);
    assert m.content + Concat(chunks) == c + rest;
    assert chunks[..1] == [chunks[0]] + [];
    ConcatFirst(chunks[0], []);
    assert m.content + Concat(chunks[..1]) == c;
  }

  /** An exit during later calls, seen from before the first one. */
  lemma LeavesJoin(f: Format, m: Machine, n: Machine, chunks: seq<Text>, inner: Exit, c: Text, rest: Text)
    requires chunks != [] && c == m.content + chunks[0] && rest == Concat(chunks[1..])
    requires NoDelimiter(f, c) && Waited(f, m, c, n)
    requires RightExit(f, n, chunks[1..], inner, n.content + rest)
    ensures RightExit(f, m, chunks, Exit(inner.call + 1, inner.machine), c + rest)
  {
    LeftInWhole(f, m, n, c, rest, Concat(chunks[1..][..inner.call]), inner.machine);
    SeenLater(m.content, chunks, inner.call);
  }

  lemma LeftInWhole(f: Format, m: Machine, n: Machine, c: Text, rest: Text, seen: Text, last: Machine)
    requires NoDelimiter(f, c) && Waited(f, m, c, n)
    requires Left(f, n, n.content + seen, Find(n.content + rest, f.Delimiter()), last)
    ensures Left(f, m, c + seen, Find(c + rest, f.Delimiter()), last)
  {
    DelimiterInWhole(f, c, rest, |c| - Kept(f, c));
    LeftLater(f, m, n, c, seen, Find(n.content + rest, f.Delimiter()), last);
  }

  lemma SeenLater(start: Text, chunks: seq<Text>, k: nat)
    requires chunks != [] && k <= |chunks| - 1
    ensures start + Concat(chunks[..k + 1]) == start + chunks[0] + Concat(chunks[1..][..k])
  {
    assert chunks[..k + 1] == [chunks[0]] + chunks[1..][..k];
    ConcatFirst(chunks[0], chunks[1..][..k]);
    Associate(start, chunks[0], Concat(chunks[1..][..k]));
  }

  lemma LeftLater(f: Format, m: Machine, n: Machine, c: Text, seen: Text, i: nat, last: Machine)
    requires Waited(f, m, c, n) && Left(f, n, n.content + seen, i, last)
    ensures Left(f, m, c + seen, |c| - Kept(f, c) + i, last)
  {
    var skip := |c| - Kept(f, c);
    Reassemble(c, seen, skip, i);
    Reassemble(c, seen, skip, i + |f.Delimiter()|);
    Associate(Joined(m.events), c[..skip], (c[skip..] + seen)[..i]);
  }

  /** The rest of the calls, from the turn after the delimiter on. */
  function Resumed(p: Parser, e: Exit, chunks: seq<Text>): (Machine, bool)
    requires e.call <= |chunks|
  {
    var r := p.run(e.machine);
    if !r.1 then r else FeedAll(p, r.0, chunks[e.call..])
  }

  lemma ConcatFirst(x: Text, chunks: seq<Text>)
    ensures Concat([x] + chunks) == x + Concat(chunks)
  {
    assert ([x] + chunks)[1..] == chunks;
  }

  lemma FirstStays(c: Text, rest: Text, d: Text)
    requires d != [] && Find(c, d) < |c|
    ensures Find(c + rest, d) == Find(c, d)
  {
    FindIsFirst(c, d);
    FindIsFirst(c + rest, d);
    var i, j := Find(c, d), Find(c + rest, d);
    assert (c + rest)[i..i + |d|] == c[i..i + |d|];
    assert OccursAt(c + rest, d, i);
    if j < i {
      assert (c + rest)[j..j + |d|] == c[j..j + |d|];
      assert OccursAt(c, d, j);
    }
  }

  /** However a body is cut: without a delimiter all but the last bytes is reported; with one, exactly the
      bytes before the first are, and parsing resumes right after it.  Actual(f) is parse() itself: FeedAll(Actual(f), m,
      chunks) is what the parser in state m reports, holds and returns when parse() is called with the chunks in turn. */
  lemma BodyIsChunkIndependent(f: Format, m: Machine, chunks: seq<Text>) returns (e: Exit)
    requires m.state == 3 && (chunks == [] ==> Waiting(f, m))
    ensures var t, r := m.content + Concat(chunks), FeedAll(Actual(f), m, chunks);
            if NoDelimiter(f, t) then r.1 && Waited(f, m, t, r.0)
            else RightExit(f, m, chunks, e, t) && r == Resumed(Actual(f), e, chunks)
  {
    ActualIsLawful(f);
    if NoDelimiter(f, m.content + Concat(chunks)) {
      BodyWaits(f, Actual(f), m, chunks);
      e := Exit(0, m);
    } else {
      e := BodyLeaves(f, Actual(f), m, chunks);
    }
  }

  /** Two ways of cutting the same body report the same content before they leave it. */
  lemma SameBodySameContent(f: Format, m: Machine, a: seq<Text>, b: seq<Text>) returns (ea: Exit, eb: Exit)
    requires Waiting(f, m) && Concat(a) == Concat(b) && !NoDelimiter(f, m.content + Concat(a))
    ensures 0 < ea.call <= |a| && 0 < eb.call <= |b|
    ensures FeedAll(Actual(f), m, a) == Resumed(Actual(f), ea, a) && FeedAll(Actual(f), m, b) == Resumed(Actual(f), eb, b)
    ensures ea.machine.state == eb.machine.state == 4 && Joined(ea.machine.events) == Joined(eb.machine.events)
  {
    var t := m.content + Concat(a);
    ea := BodyIsChunkIndependent(f, m, a);
    eb := BodyIsChunkIndependent(f, m, b);
    PrefixOfWhole(m.content, a, ea.call, Find(t, f.Delimiter()));
    PrefixOfWhole(m.content, b, eb.call, Find(t, f.Delimiter()));
  }

  lemma {:induction false} ConcatSplit(chunks: seq<Text>, k: nat)
    requires k <= |chunks|
    ensures Concat(chunks) == Concat(chunks[..k]) + Concat(chunks[k..])
  {
    if k == 0 {
      assert chunks[0..] == chunks;
    } else {
      ConcatSplit(chunks[1..], k - 1);
      assert chunks[..k][1..] == chunks[1..][..k - 1] && chunks[1..][k - 1..] == chunks[k..];
    }
  }

  lemma PrefixOfWhole(start: Text, chunks: seq<Text>, k: nat, i: nat)
    requires k <= |chunks| && i <= |start + Concat(chunks[..k])|
    ensures i <= |start + Concat(chunks)| && (start + Concat(chunks[..k]))[..i] == (start + Concat(chunks))[..i]
  {
    ConcatSplit(chunks, k);
    assert start + Concat(chunks) == start + Concat(chunks[..k]) + Concat(chunks[k..]);
  }

  // ---- The parser object ----------------------------------------------------------------------------

  class MultipartFormDataParser {
    const format: Format
    var state: nat
    var isValid: bool
    var events: seq<Event>
    var buf: Text
    var spos: nat
    var epos: nat

    ghost predicate Valid()
      reads this
    {
      spos <= epos <= |buf|
    }

    /** The bytes between the two positions. */
    function Bytes(): Text
      requires Valid()
      reads this
    {
      buf[spos..epos]
    }

    ghost function Model(): Machine
      requires Valid()
      reads this
    {
      Machine(state, Bytes(), events, isValid)
    }

    constructor (format: Format)
      ensures Valid() && this.format == format && Model() == Machine(0, [], [], false)
    {
      this.format := format;
      state, isValid, events := 0, false, [];
      buf, spos, epos := [], 0, 0;
    }

    /** Moves the n pending bytes to the front, byte by byte. */
    method MoveToFront(n: nat)
      requires spos > 0 && spos + n <= |buf|
      modifies `buf
      ensures |buf| == old(|buf|) && buf[..n] == old(buf[spos..spos + n])
    {
      var i := 0;
      while i < n
        invariant 0 <= i <= n && |buf| == old(|buf|)
        invariant forall k :: 0 <= k < i ==> buf[k] == old(buf[spos + k])
        invariant forall k :: i <= k < |buf| ==> buf[k] == old(buf[k])
      {
        buf := buf[i := buf[spos + i]];
        i := i + 1;
      }
    }

    /** Copies data behind the first at bytes. */
    method CopyTo(at: nat, data: Text)
      requires at + |data| <= |buf|
      modifies `buf
      ensures |buf| == old(|buf|) && buf[..at + |data|] == old(buf[..at]) + data
    {
      var i := 0;
      while i < |data|
        invariant 0 <= i <= |data| && |buf| == old(|buf|)
        invariant forall k :: 0 <= k < at ==> buf[k] == old(buf[k])
        invariant forall k :: 0 <= k < i ==> buf[at + k] == data[k]
      {
        buf := buf[at + i := data[i]];
        i := i + 1;
      }
    }

    /** buf_append: moves what is pending to the front, grows the buffer if needed, and copies. */
    method BufAppend(data: Text)
      requires Valid()
      modifies `buf, `spos, `epos
      ensures Valid() && Bytes() == old(Bytes()) + data
    {
      var remaining := epos - spos;
      if remaining > 0 && spos > 0 {
        MoveToFront(remaining);
      }
      assert buf[..remaining] == old(Bytes());
      spos := 0;
      epos := remaining;
      if remaining + |data| > |buf| {
        buf := buf + seq(remaining + |data| - |buf|, i => '\0');
      }
      assert buf[..remaining] == old(Bytes());
      CopyTo(epos, data);
      epos := epos + |data|;
    }

    method BufErase(size: nat)
      requires Valid() && size <= epos - spos
      modifies `spos
      ensures Valid() && Bytes() == old(Bytes())[size..]
    {
      spos := spos + size;
    }

    /** Compares byte by byte. */
    method BufStartWithAt(pos: nat, s: Text) returns (r: bool)
      requires Valid() && spos <= pos <= epos
      ensures r <==> StartsWith(buf[pos..epos], s)
    {
      if epos - pos < |s| {
        return false;
      }
      var i := 0;
      while i < |s|
        invariant 0 <= i <= |s| && buf[pos..pos + i] == s[..i]
      {
        if buf[pos + i] != s[i] {
          assert buf[pos..epos][..|s|][i] != s[i];
          return false;
        }
        assert buf[pos..pos + i + 1] == buf[pos..pos + i] + [s[i]];
        assert s[..i + 1] == s[..i] + [s[i]];
        i := i + 1;
      }
      assert buf[pos..epos][..|s|] == buf[pos..pos + i] == s[..i] == s;
      return true;
    }

    /** The search has moved on from pos to pos + 1. */
    lemma Skip(pos: nat, s: Text)
      requires Valid() && spos <= pos < epos && s != [] && !StartsWith(buf[pos..epos], s)
      ensures Find(buf[pos..epos], s) == 1 + Find(buf[pos + 1..epos], s)
    {
      NotHere(buf[pos..epos], s);
      assert buf[pos..epos][1..] == buf[pos + 1..epos];
    }

    /** The next position of the first character, or the end. */
    method FindFirst(off: nat, s: Text) returns (pos: nat)
      requires Valid() && spos <= off <= epos && s != []
      ensures off <= pos <= epos && Find(buf[off..epos], s) == pos - off + Find(buf[pos..epos], s)
    {
      pos := off;
      while pos < epos && buf[pos] != s[0]
        invariant off <= pos <= epos
        invariant Find(buf[off..epos], s) == pos - off + Find(buf[pos..epos], s)
      {
        Skip(pos, s);
        pos := pos + 1;
      }
    }

    /** buf_find: candidates for the first character, then the rest. */
    method BufFind(s: Text) returns (r: nat)
      requires Valid() && s != []
      ensures r == Find(Bytes(), s)
    {
      var off := spos;
      while off < epos
        invariant spos <= off <= epos
        invariant Find(Bytes(), s) == off - spos + Find(buf[off..epos], s)
        decreases epos - off
      {
        var pos := FindFirst(off, s);
        if pos == epos {
          return epos - spos;
        }
        if |s| > epos - pos {
          return epos - spos;
        }
        var here := BufStartWithAt(pos, s);
        if here {
          return pos - spos;
        }
        Skip(pos, s);
        off := pos + 1;
      }
      return epos - spos;
    }

    /** parse */
    method Parse(data: Text) returns (ok: bool)
      requires Valid()
      modifies this
      ensures Valid() && (Model(), ok) == Feed(format, old(Model()), data)
    {
      BufAppend(data);
      ghost var start := Model();
      while spos < epos
        invariant Valid() && Run(format, Model()) == Run(format, start)
        decreases epos - spos, Pending(Model())
      {
        ghost var before := Model();
        StepDecreasesIf(format, before);
        var go;
        match state {
          case 0 => go, ok := InitialBoundary();
          case 1 => state, go := 2, true;
          case 2 => go, ok := Headers();
          case 3 => go, ok := Body();
          case _ => go, ok := Boundary();
        }
        if !go {
          return ok;
        }
      }
      return true;
    }

    method InitialBoundary() returns (go: bool, ok: bool)
      requires Valid() && state == 0
      modifies this
      ensures Valid() && InitialTurn(format, old(Model())) == if go then Go(Model()) else Return(Model(), ok)
    {
      var pos := BufFind(format.Opening());
      BufErase(pos);
      if |format.Opening()| > epos - spos {
        return false, true;
      }
      var starts := BufStartWithAt(spos, format.Opening());
      if !starts {
        return false, false;
      }
      BufErase(|format.Opening()|);
      state := 1;
      return true, true;
    }

    method Headers() returns (go: bool, ok: bool)
      requires Valid() && state == 2
      modifies this
      ensures Valid() && HeadersTurn(format, old(Model())) == if go then Go(Model()) else Return(Model(), ok)
    {
      var pos := BufFind(CRLF);
      if pos > HEADER_MAX_LENGTH {
        return false, false;
      }
      ghost var start := Model();
      while pos < epos - spos
        invariant Valid() && state == 2 && pos == Find(Bytes(), CRLF)
        invariant HeaderLines(format, Model()) == HeaderLines(format, start)
        decreases epos - spos
      {
        LinesGoOn(format, Model(), pos);
        go, ok := Header(pos);
        if !go || state == 3 {
          return go, ok;
        }
        pos := BufFind(CRLF);
      }
      return false, true;
    }

    method Header(pos: nat) returns (go: bool, ok: bool)
      requires Valid() && state == 2 && pos + 2 <= epos - spos
      modifies this
      ensures Valid() && HeaderLine(format, old(Model()), pos) == if go then Go(Model()) else Return(Model(), ok)
      ensures go ==> ok && state in {2, 3} && epos - spos < old(epos - spos)
    {
      if pos == 0 {
        events := events + [Part];
        BufErase(2);
        state := 3;
        return true, true;
      }
      if !format.headerOk(Bytes()[..pos]) {
        isValid := false;
        return false, false;
      }
      BufErase(pos + 2);
      return true, true;
    }

    method Body() returns (go: bool, ok: bool)
      requires Valid() && state == 3
      modifies this
      ensures Valid() && BodyTurn(format, old(Model())) == if go then Go(Model()) else Return(Model(), ok)
    {
      var d := format.Delimiter();
      if |d| > epos - spos {
        return false, true;
      }
      var pos := BufFind(d);
      if pos < epos - spos {
        BodyFound(format, Model(), pos);
        events := events + [Content(Bytes()[..pos])];
        BufErase(pos + |d|);
        state := 4;
        return true, true;
      } else {
        var len := epos - spos - |d|;
        BodyPending(format, Model(), len);
        if len > 0 {
          events := events + [Content(Bytes()[..len])];
          BufErase(len);
        }
        return false, true;
      }
    }

    method Boundary() returns (go: bool, ok: bool)
      requires Valid() && state >= 4
      modifies this
      ensures Valid() && BoundaryTurn(old(Model())) == if go then Go(Model()) else Return(Model(), ok)
    {
      if |CRLF| > epos - spos {
        return false, true;
      }
      var starts := BufStartWithAt(spos, CRLF);
      if starts {
        BufErase(2);
        state := 1;
        return true, true;
      }
      if |DASH| > epos - spos {
        return false, true;
      }
      starts := BufStartWithAt(spos, DASH);
      if starts {
        BufErase(2);
        isValid := true;
        BufErase(epos - spos);
        return true, true;
      }
      return false, true;
    }
  }

  lemma NotHere(s: Text, pat: Text)
    requires pat != [] && s != [] && !StartsWith(s, pat)
    ensures Find(s, pat) == 1 + Find(s[1..], pat)
  {
    FindSkips(s, pat, 1);
  }

  lemma StepDecreasesIf(f: Format, m: Machine)
    requires m.content != []
    ensures Step(f, m).Go? ==>
              var n := Step(f, m).next;
              |n.content| < |m.content| || (|n.content| == |m.content| && Pending(n) < Pending(m))
  {
    if Step(f, m).Go? { StepDecreases(f, m); }
  }
}
