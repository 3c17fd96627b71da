/**
 When a form that comes in pieces is read as it was written: the parser throws away each piece that does not hold
 a whole opening delimiter, and what it reads from there on are spans of the serialized text.
 */
module MultipartExact {
  import opened Basics
  import opened Multipart
  import opened MultipartHeaders
  import opened MultipartTheorem
  import opened MultipartLayout
  import opened MultipartNames

  // ---------- spans ----------

  lemma {:induction false} TextsAppend(s: string, spans: seq<Span>, more: seq<Span>)
    requires forall k :: 0 <= k < |spans| ==> spans[k].b <= spans[k].e <= |s|
    requires forall k :: 0 <= k < |more| ==> more[k].b <= more[k].e <= |s|
    ensures forall k :: 0 <= k < |spans + more| ==> (spans + more)[k].b <= (spans + more)[k].e <= |s|
    ensures Texts(s, spans + more) == Texts(s, spans) + Texts(s, more)
    decreases |spans|
  {
    if spans == [] {
      assert spans + more == more;
    } else {
      assert (spans + more)[1..] == spans[1..] + more;
      TextsAppend(s, spans[1..], more);
    }
  }

  function Stretched(spans: seq<Span>, e: nat): seq<Span>
    requires spans != []
  {
    spans[..|spans| - 1] + [Span(spans[|spans| - 1].b, e)]
  }

  lemma TextsStretched(s: string, spans: seq<Span>, e: nat)
    requires spans != [] && forall k :: 0 <= k < |spans| ==> spans[k].b <= spans[k].e <= |s|
    requires spans[|spans| - 1].e <= e <= |s|
    ensures forall k :: 0 <= k < |spans| ==> Stretched(spans, e)[k].b <= Stretched(spans, e)[k].e <= |s|
    ensures Texts(s, Stretched(spans, e)) == Deliver(Texts(s, spans), s[spans[|spans| - 1].e..e])
  {
    var n := |spans| - 1;
    var last, new1 := spans[n], Span(spans[n].b, e);
    assert spans == spans[..n] + [last];
    TextsAppend(s, spans[..n], [last]);
    TextsAppend(s, spans[..n], [new1]);
    assert Texts(s, [last]) == [s[last.b..last.e]] && Texts(s, [new1]) == [s[last.b..e]];
    assert s[last.b..e] == s[last.b..last.e] + s[last.e..e];
  }

  lemma SpannedStretched(s: string, d: string, spans: seq<Span>, at: nat, e: nat)
    requires spans != [] && Spanned(s, d, spans, at, true) && at <= e <= |s|
    ensures (forall q :: at <= q < e ==> !OccursAt(s, d, q)) && |s| - e >= |d| ==> Spanned(s, d, Stretched(spans, e), e, true)
    ensures OccursAt(s, d, e) ==> Spanned(s, d, Stretched(spans, e), e + |d|, false)
  {
    var next := Stretched(spans, e);
    var n := |spans| - 1;
    hide OccursAt;
    forall k | 0 <= k < |next|
      ensures Opened(s, next[k])
    {
      assert Opened(s, spans[k]);
    }
    forall k | 0 <= k < n
      ensures Closed(s, d, next[k], next[k + 1].b)
    {
      assert Closed(s, d, spans[k], spans[k + 1].b);
    }
    assert Unclosed(s, d, spans[n], at);
    if OccursAt(s, d, e) {
      assert e + |d| <= |s| by {
        OccursWithin(s, d, e);
      }
    }
  }

  lemma OccursWithin(s: string, d: string, e: nat)
    requires OccursAt(s, d, e)
    ensures e + |d| <= |s|
  {
  }

  lemma SpannedOpened(s: string, d: string, spans: seq<Span>, at: nat, b: nat)
    requires Spanned(s, d, spans, at, false) && at <= b <= |s| && Opened(s, Span(b, b))
    ensures Spanned(s, d, spans + [Span(b, b)], b, true)
  {
    var next := spans + [Span(b, b)];
    hide OccursAt;
    forall k | 0 <= k < |next|
      ensures Opened(s, next[k])
    {
      assert k < |spans| ==> Opened(s, spans[k]);
    }
    forall k | 0 <= k < |next| - 1
      ensures Closed(s, d, next[k], next[k + 1].b)
    {
      assert k < |spans| - 1 ==> Closed(s, d, spans[k], spans[k + 1].b);
    }
  }

  // ---------- a parser and what it has read ----------

  function At(s: string, p: Parser, unread: string): int {
    |s| - |p.buffer| - |unread|
  }

  /**
   The parser has found an opening delimiter that ends at `low`. What is in the buffer and what is unread end the
   text `s`, and the parts are the texts of the spans.
   */
  ghost predicate Traced(s: string, p: Parser, unread: string, low: nat, spans: seq<Span>) {
    var at := At(s, p, unread);
    && !p.state.Initial? && 2 <= low <= at && s[at..] == p.buffer + unread
    && Spanned(s, Delimiter(p.boundary), spans, at, p.state.Body?)
    && p.parts == Texts(s, spans)
    && (spans != [] ==> low + 2 <= spans[0].b)
    && (p.state.Body? ==> spans != [])
    && (p.state.NewEntry? || p.state.Headers? ==> s[at - 2] == '\r' && s[at - 1] == '\n')
  }

  lemma TracedAt(s: string, p: Parser, unread: string, low: nat, spans: seq<Span>, at: nat)
    requires !p.state.Initial? && 2 <= low <= at <= |s| && s[at..] == p.buffer + unread
    requires Spanned(s, Delimiter(p.boundary), spans, at, p.state.Body?) && p.parts == Texts(s, spans)
    requires spans != [] ==> low + 2 <= spans[0].b
    requires p.state.Body? ==> spans != []
    requires p.state.NewEntry? || p.state.Headers? ==> s[at - 2] == '\r' && s[at - 1] == '\n'
    ensures at == At(s, p, unread) && Traced(s, p, unread, low, spans)
  {
    hide Spanned, Texts;
    assert |s[at..]| == |s| - at;
  }

  predicate Settled(p: Parser) {
    p.state.Body? ==> |p.buffer| <= |Delimiter(p.boundary)|
  }

  // What is in the buffer, in the whole text.
  lemma InText(s: string, at: nat, buffer: string, unread: string, k: nat)
    requires at <= |s| && s[at..] == buffer + unread && k <= |buffer|
    ensures |s| == at + |buffer| + |unread|
    ensures buffer[..k] == s[at..at + k] && s[at + k..] == buffer[k..] + unread
  {
    assert (buffer + unread)[..k] == buffer[..k] && (buffer + unread)[k..] == buffer[k..] + unread;
    assert s[at..][..k] == s[at..at + k] && s[at..][k..] == s[at + k..];
  }

  lemma OccursIs(s: string, t: string, i: nat)
    requires i + |t| <= |s|
    ensures OccursAt(s, t, i) <==> s[i..i + |t|] == t
  {
    if OccursAt(s, t, i) {
      assert forall k :: 0 <= k < |t| ==> s[i..i + |t|][k] == t[k];
    } else {
      var k :| 0 <= k < |t| && s[i + k] != t[k];
      assert s[i..i + |t|][k] != t[k];
    }
  }

  lemma OccursInText(s: string, at: nat, buffer: string, unread: string, t: string, i: nat)
    requires at <= |s| && s[at..] == buffer + unread && i + |t| <= |buffer|
    ensures OccursAt(s, t, at + i) <==> OccursAt(buffer, t, i)
  {
    OccursIs(s, t, at + i);
    OccursIs(buffer, t, i);
    Within(s, at, i, i + |t|);
    assert (buffer + unread)[i..i + |t|] == buffer[i..i + |t|];
  }

  // ---------- the rounds ----------

  lemma BodyTraced(s: string, p: Parser, unread: string, low: nat, spans: seq<Span>) returns (next: seq<Span>)
    requires Traced(s, p, unread, low, spans) && p.state.Body?
    ensures var r := BodyRound(p);
            Traced(s, r.parser, unread, low, next) && r.parser.boundary == p.boundary && (r.Return? ==> Settled(r.parser))
  {
    var d, at := Delimiter(p.boundary), At(s, p, unread);
    next := spans;
    if |d| <= |p.buffer| {
      FindIs(p.buffer, d, 0);
      var pos := Find(p.buffer, d);
      if pos < |p.buffer| {
        next := BodyClosed(s, p, unread, low, spans);
      } else if |p.buffer| > |d| {
        next := BodyStretched(s, p, unread, low, spans);
      }
    }
  }

  lemma BodyClosed(s: string, p: Parser, unread: string, low: nat, spans: seq<Span>) returns (next: seq<Span>)
    requires Traced(s, p, unread, low, spans) && p.state.Body?
    requires Find(p.buffer, Delimiter(p.boundary)) < |p.buffer| && |Delimiter(p.boundary)| <= |p.buffer|
    ensures var r := BodyRound(p);
            r.Again? && Traced(s, r.parser, unread, low, next) && r.parser.boundary == p.boundary
  {
    hide BodyRound, Find, OccursAt, Delimiter, Texts, Deliver, Closed;
    var d, at := Delimiter(p.boundary), At(s, p, unread);
    var pos := Find(p.buffer, d);
    DelimiterFound(p);
    var r := BodyRound(p);
    next := Stretched(spans, at + pos);
    assert Unclosed(s, d, spans[|spans| - 1], at) && next[0].b == spans[0].b && next != [];
    assert low + 2 <= spans[0].b && 2 <= low <= at && p.parts == Texts(s, spans) && s[at..] == p.buffer + unread;
    assert Spanned(s, d, spans, at, true);
    hide Traced, Stretched, Unclosed, Spanned;
    OccursInText(s, at, p.buffer, unread, d, pos);
    InText(s, at, p.buffer, unread, pos);
    InText(s, at, p.buffer, unread, pos + |d|);
    TextsStretched(s, spans, at + pos);
    SpannedStretched(s, d, spans, at, at + pos);
    hide At;
    TracedAt(s, r.parser, unread, low, next, at + pos + |d|);
  }

  lemma DelimiterFound(p: Parser)
    requires Find(p.buffer, Delimiter(p.boundary)) < |p.buffer| && |Delimiter(p.boundary)| <= |p.buffer|
    ensures var d, pos := Delimiter(p.boundary), Find(p.buffer, Delimiter(p.boundary));
            && pos + |d| <= |p.buffer| && OccursAt(p.buffer, d, pos)
            && BodyRound(p) == Again(Erase(p, pos + |d|).(state := Boundary, parts := Deliver(p.parts, p.buffer[..pos])))
  {
    FindIs(p.buffer, Delimiter(p.boundary), 0);
    hide Delimiter;
  }

  lemma BodyStretched(s: string, p: Parser, unread: string, low: nat, spans: seq<Span>) returns (next: seq<Span>)
    requires Traced(s, p, unread, low, spans) && p.state.Body?
    requires Find(p.buffer, Delimiter(p.boundary)) >= |p.buffer| > |Delimiter(p.boundary)|
    ensures var r := BodyRound(p);
            Traced(s, r.parser, unread, low, next) && r.parser.boundary == p.boundary && Settled(r.parser)
  {
    hide Find, OccursAt, Delimiter, Texts, Deliver, Closed;
    var d, at := Delimiter(p.boundary), At(s, p, unread);
    var len := |p.buffer| - |d|;
    var r := BodyRound(p);
    assert r == Return(Erase(p, len).(parts := Deliver(p.parts, p.buffer[..len])), true);
    hide BodyRound;
    next := Stretched(spans, at + len);
    assert Unclosed(s, d, spans[|spans| - 1], at) && next[0].b == spans[0].b && next != [];
    assert low + 2 <= spans[0].b && 2 <= low <= at && p.parts == Texts(s, spans) && s[at..] == p.buffer + unread;
    assert Spanned(s, d, spans, at, true);
    hide Traced, Stretched, Unclosed, Spanned;
    NoneInText(s, at, p.buffer, unread, d);
    InText(s, at, p.buffer, unread, len);
    TextsStretched(s, spans, at + len);
    SpannedStretched(s, d, spans, at, at + len);
    hide At;
    TracedAt(s, r.parser, unread, low, next, at + len);
  }

  lemma NoneInText(s: string, at: nat, buffer: string, unread: string, d: string)
    requires at <= |s| && s[at..] == buffer + unread && Find(buffer, d) >= |buffer| >= |d|
    ensures forall q :: at <= q < at + |buffer| - |d| ==> !OccursAt(s, d, q)
  {
    FindIs(buffer, d, 0);
    forall q | at <= q < at + |buffer| - |d|
      ensures !OccursAt(s, d, q)
    {
      OccursInText(s, at, buffer, unread, d, q - at);
    }
  }

  lemma BoundaryTraced(s: string, p: Parser, unread: string, low: nat, spans: seq<Span>)
    requires Traced(s, p, unread, low, spans) && p.state.Boundary?
    ensures var r := BoundaryRound(p);
            Traced(s, r.parser, unread, low, spans) && r.parser.boundary == p.boundary && Settled(r.parser)
  {
    var at := At(s, p, unread);
    InText(s, at, p.buffer, unread, |p.buffer|);
    assert p.buffer[|p.buffer|..] == "";
    if |p.buffer| >= 2 {
      InText(s, at, p.buffer, unread, 2);
      assert p.buffer[..2][0] == s[at] && p.buffer[..2][1] == s[at + 1];
    }
    hide Delimiter, OccursAt, Unclosed, Opened, Texts;
  }

  // An empty line behind the end of a line opens a part.
  lemma PartOpens(s: string, p: Parser, unread: string, low: nat, spans: seq<Span>) returns (next: seq<Span>)
    requires Traced(s, p, unread, low, spans) && p.state.Headers?
    requires |p.buffer| >= 2 && p.buffer[..2] == CRLF
    ensures Traced(s, PartOpened(p), unread, low, next)
  {
    hide Texts, Closed, Delimiter;
    var at := At(s, p, unread);
    InText(s, at, p.buffer, unread, 2);
    assert p.buffer[..2][0] == s[at] && p.buffer[..2][1] == s[at + 1];
    assert CRLF[0] == '\r' && CRLF[1] == '\n';
    var span := Span(at + 2, at + 2);
    next := spans + [span];
    assert Opened(s, span) && next[0].b == if spans == [] then at + 2 else spans[0].b;
    assert Spanned(s, Delimiter(p.boundary), spans, at, false) && p.parts == Texts(s, spans);
    assert 2 <= low <= at && (spans != [] ==> low + 2 <= spans[0].b);
    hide Traced, OccursAt, At;
    SpannedOpened(s, Delimiter(p.boundary), spans, at, at + 2);
    OneText(s, spans, span);
    hide Spanned;
    TracedAt(s, PartOpened(p), unread, low, next, at + 2);
  }

  lemma OneText(s: string, spans: seq<Span>, span: Span)
    requires forall k :: 0 <= k < |spans| ==> spans[k].b <= spans[k].e <= |s|
    requires span.b == span.e <= |s|
    ensures forall k :: 0 <= k < |spans + [span]| ==> (spans + [span])[k].b <= (spans + [span])[k].e <= |s|
    ensures Texts(s, spans + [span]) == Texts(s, spans) + [""]
  {
    TextsAppend(s, spans, [span]);
    assert s[span.b..span.e] == "" && [span][1..] == [];
  }

  // A line is read.
  lemma LineTraced(s: string, p: Parser, unread: string, low: nat, spans: seq<Span>, pos: nat)
    requires Traced(s, p, unread, low, spans) && p.state.Headers?
    requires pos + 2 <= |p.buffer| && OccursAt(p.buffer, CRLF, pos)
    ensures Traced(s, LineTaken(p, pos), unread, low, spans)
  {
    var at := At(s, p, unread);
    InText(s, at, p.buffer, unread, pos + 2);
    assert p.buffer[pos + 0] == CRLF[0] && p.buffer[pos + 1] == CRLF[1];
    assert p.buffer[..pos + 2][pos] == s[at + pos] && p.buffer[..pos + 2][pos + 1] == s[at + pos + 1];
    hide Delimiter, OccursAt, Unclosed, Opened, Texts;
  }

  lemma {:induction false} LinesTraced(accepts: HeaderParser, s: string, p: Parser, unread: string, low: nat,
                                       spans: seq<Span>) returns (next: seq<Span>)
    requires Traced(s, p, unread, low, spans) && p.state.Headers?
    ensures var r := HeaderLines(accepts, p);
            && r.parser.boundary == p.boundary
            && (r.Again? || r.ok ==> Traced(s, r.parser, unread, low, next) && (r.Return? ==> Settled(r.parser)))
    decreases |p.buffer|
  {
    FindIs(p.buffer, CRLF, 0);
    HeaderLinesUnfold(accepts, p);
    HeaderLinesConsume(accepts, p);
    var pos := Find(p.buffer, CRLF);
    next := spans;
    hide Traced, HeaderLines, Find;
    if pos < |p.buffer| {
      if pos == 0 {
        assert p.buffer[..2] == CRLF by {
          assert p.buffer[0 + 0] == CRLF[0] && p.buffer[0 + 1] == CRLF[1];
        }
        next := PartOpens(s, p, unread, low, spans);
      } else if accepts(p.buffer[..pos]) {
        LineTraced(s, p, unread, low, spans, pos);
        next := LinesTraced(accepts, s, LineTaken(p, pos), unread, low, spans);
      }
    }
  }

  lemma RoundTraced(accepts: HeaderParser, s: string, p: Parser, unread: string, low: nat, spans: seq<Span>)
    returns (next: seq<Span>)
    requires Traced(s, p, unread, low, spans)
    ensures var r := OneRound(accepts, p);
            && r.parser.boundary == p.boundary
            && (r.Again? || r.ok ==> Traced(s, r.parser, unread, low, next) && (r.Return? ==> Settled(r.parser)))
  {
    next := spans;
    hide BodyRound, BoundaryRound, HeaderLines, Find, Spanned, Texts;
    match p.state
    case Initial =>
    case NewEntry =>
    case Headers => next := LinesTraced(accepts, s, p, unread, low, spans);
    case Body => next := BodyTraced(s, p, unread, low, spans);
    case Boundary => BoundaryTraced(s, p, unread, low, spans);
  }

  lemma {:induction false} DriveTraced(accepts: HeaderParser, s: string, p: Parser, unread: string, low: nat,
                                       spans: seq<Span>) returns (next: seq<Span>)
    requires Traced(s, p, unread, low, spans)
    ensures var r := Drive(accepts, p);
            r.Return? && r.parser.boundary == p.boundary
            && (r.ok ==> Traced(s, r.parser, unread, low, next) && Settled(r.parser))
    decreases |p.buffer|, if p.state.NewEntry? then 1 else 0
  {
    next := spans;
    if p.buffer != "" {
      hide OneRound, Traced, Settled;
      var r := OneRound(accepts, p);
      next := RoundTraced(accepts, s, p, unread, low, spans);
      if r.Again? {
        RoundShrinks(accepts, p);
        next := DriveTraced(accepts, s, r.parser, unread, low, next);
      }
    }
  }

  lemma {:induction false} FeedAllTraced(accepts: HeaderParser, s: string, p: Parser, pieces: seq<string>, low: nat,
                                         spans: seq<Span>) returns (next: seq<Span>)
    requires Traced(s, p, Concat(pieces), low, spans) && Settled(p)
    ensures var r := FeedAll(accepts, p, pieces);
            r.Return? && r.parser.boundary == p.boundary
            && (r.ok ==> Traced(s, r.parser, "", low, next) && Settled(r.parser))
    decreases |pieces|
  {
    next := spans;
    if pieces != [] {
      var q := p.(buffer := p.buffer + pieces[0]);
      var unread := Concat(pieces[1..]);
      assert p.buffer + (pieces[0] + unread) == q.buffer + unread;
      assert Traced(s, q, unread, low, spans) by {
        hide Spanned, Texts;
      }
      next := DriveTraced(accepts, s, q, unread, low, spans);
      hide Drive, Traced, Settled;
      var r := Drive(accepts, q);
      if r.ok {
        next := FeedAllTraced(accepts, s, r.parser, pieces[1..], low, next);
      }
    }
  }

  // ---------- the first opening delimiter ----------

  /**
   Where in the whole text the parser finds an opening delimiter: the first occurrence inside one piece. Pieces
   without one are thrown away.
   */
  function SyncAt(pieces: seq<string>, boundary: string): Option<nat>
    decreases |pieces|
  {
    if pieces == [] then None
    else
      var k := Find(pieces[0], DashBoundaryCrlf(boundary));
      if k < |pieces[0]| then Some(k)
      else
        var later := SyncAt(pieces[1..], boundary);
        if later.None? then None else Some(|pieces[0]| + later.value)
  }

  // The parse goes on with this parser and these pieces.
  function Onward(accepts: HeaderParser, p: Parser, pieces: seq<string>): Round {
    var r := Drive(accepts, p);
    if r.Return? && r.ok then FeedAll(accepts, r.parser, pieces) else r
  }

  // A piece that holds no whole opening delimiter is lost.
  lemma PieceWithout(accepts: HeaderParser, boundary: string, piece: string)
    requires Find(piece, DashBoundaryCrlf(boundary)) >= |piece|
    ensures Feed(accepts, Fresh(boundary), piece) == Return(Fresh(boundary), true)
  {
    FindIs(piece, DashBoundaryCrlf(boundary), 0);
    assert "" + piece == piece && piece[|piece|..] == "";
  }

  lemma DashNotEmpty(boundary: string)
    ensures |DashBoundaryCrlf(boundary)| > 0
  {
  }

  lemma PieceWith(accepts: HeaderParser, boundary: string, piece: string)
    requires Find(piece, DashBoundaryCrlf(boundary)) < |piece|
    ensures var dash, k := DashBoundaryCrlf(boundary), Find(piece, DashBoundaryCrlf(boundary));
            && OccursAt(piece, dash, k) && k + |dash| <= |piece|
            && Feed(accepts, Fresh(boundary), piece)
               == Drive(accepts, Parser(boundary, NewEntry, piece[k + |dash|..], false, [], NO_FILE, []))
  {
    hide OneRound, HeaderLines, DashBoundaryCrlf, FindFrom;
    var dash, k := DashBoundaryCrlf(boundary), Find(piece, DashBoundaryCrlf(boundary));
    var p := Fresh(boundary).(buffer := piece);
    DashNotEmpty(boundary);
    assert "" + piece == piece;
    FindIs(piece, dash, 0);
    assert piece[k..][|dash|..] == piece[k + |dash|..];
    FirstRound(accepts, p);
  }

  lemma FirstRound(accepts: HeaderParser, p: Parser)
    requires p.state.Initial?
    ensures OneRound(accepts, p) == InitialRound(p)
  {
    hide InitialRound, HeaderLines;
  }

  // The parser behind the opening delimiter, and the pieces that are left for it.
  ghost predicate Behind(s: string, boundary: string, v: nat, q: Parser, rest: seq<string>) {
    var dash := DashBoundaryCrlf(boundary);
    && OccursAt(s, dash, v) && v + |dash| <= |s|
    && q == Parser(boundary, NewEntry, q.buffer, false, [], NO_FILE, []) && q.buffer + Concat(rest) == s[v + |dash|..]
  }

  lemma BehindMore(piece: string, more: string, boundary: string, v: nat, q: Parser, rest: seq<string>)
    requires Behind(more, boundary, v, q, rest)
    ensures Behind(piece + more, boundary, |piece| + v, q, rest)
  {
    var s, dash := piece + more, DashBoundaryCrlf(boundary);
    assert s[|piece|..] == more == more + "";
    OccursInText(s, |piece|, more, "", dash, v);
    assert s[|piece| + v + |dash|..] == more[v + |dash|..];
    hide OccursAt, DashBoundaryCrlf, Concat;
  }

  lemma BehindFirst(piece: string, pieces: seq<string>, boundary: string, v: nat)
    requires OccursAt(piece, DashBoundaryCrlf(boundary), v) && v + |DashBoundaryCrlf(boundary)| <= |piece|
    ensures Behind(piece + Concat(pieces), boundary, v,
                   Parser(boundary, NewEntry, piece[v + |DashBoundaryCrlf(boundary)|..], false, [], NO_FILE, []), pieces)
  {
    OccursInFront(piece, Concat(pieces), DashBoundaryCrlf(boundary), v);
    hide OccursAt, DashBoundaryCrlf, Concat;
  }

  // The parse from the opening delimiter on.
  lemma SyncedFirst(accepts: HeaderParser, boundary: string, pieces: seq<string>) returns (q: Parser)
    requires pieces != [] && Find(pieces[0], DashBoundaryCrlf(boundary)) < |pieces[0]|
    ensures Behind(pieces[0] + Concat(pieces[1..]), boundary, Find(pieces[0], DashBoundaryCrlf(boundary)), q, pieces[1..])
    ensures Feed(accepts, Fresh(boundary), pieces[0]) == Drive(accepts, q)
  {
    var piece, dash := pieces[0], DashBoundaryCrlf(boundary);
    hide *;
    PieceWith(accepts, boundary, piece);
    BehindFirst(piece, pieces[1..], boundary, Find(piece, dash));
    q := Parser(boundary, NewEntry, piece[Find(piece, dash) + |dash|..], false, [], NO_FILE, []);
  }

  lemma FedFirst(accepts: HeaderParser, p: Parser, pieces: seq<string>)
    requires pieces != []
    ensures Concat(pieces) == pieces[0] + Concat(pieces[1..])
    ensures FeedAll(accepts, p, pieces) ==
            var r := Feed(accepts, p, pieces[0]);
            if r.Return? && r.ok then FeedAll(accepts, r.parser, pieces[1..]) else r
  {
    hide Feed;
  }

  // The parse from the opening delimiter on.
  lemma {:induction false} Synced(accepts: HeaderParser, boundary: string, pieces: seq<string>)
    returns (q: Parser, rest: seq<string>)
    requires SyncAt(pieces, boundary).Some?
    ensures Behind(Concat(pieces), boundary, SyncAt(pieces, boundary).value, q, rest)
    ensures FeedAll(accepts, Fresh(boundary), pieces) == Onward(accepts, q, rest)
    decreases |pieces|
  {
    hide Find, Feed, Drive, DashBoundaryCrlf, Behind, Concat, Fresh, FeedAll;
    FedFirst(accepts, Fresh(boundary), pieces);
    if Find(pieces[0], DashBoundaryCrlf(boundary)) < |pieces[0]| {
      rest := pieces[1..];
      q := SyncedFirst(accepts, boundary, pieces);
    } else {
      PieceWithout(accepts, boundary, pieces[0]);
      q, rest := Synced(accepts, boundary, pieces[1..]);
      BehindMore(pieces[0], Concat(pieces[1..]), boundary, SyncAt(pieces[1..], boundary).value, q, rest);
    }
  }

  lemma {:induction false} NotSynced(accepts: HeaderParser, boundary: string, pieces: seq<string>)
    requires SyncAt(pieces, boundary).None?
    ensures FeedAll(accepts, Fresh(boundary), pieces) == Return(Fresh(boundary), true)
    decreases |pieces|
  {
    if pieces != [] {
      PieceWithout(accepts, boundary, pieces[0]);
      NotSynced(accepts, boundary, pieces[1..]);
    }
  }

  // ---------- when the parts are the contents ----------

  // The parse succeeds, and there is one part for each item, with exactly the item's content.
  predicate ReadWhole(r: Round, items: seq<Item>) {
    r.Return? && r.ok && r.parser.valid && r.parser.parts == Contents(items)
  }

  lemma ReadFromPlace(accepts: HeaderParser, q: Parser, place: Place, rest: seq<string>, items: seq<Item>)
    requires Reads(accepts, q, place, Concat(rest)) && Completed(q.parts, place) == Contents(items)
    ensures ReadWhole(Onward(accepts, q, rest), items)
    ensures Onward(accepts, q, rest).parser.files == CompletedFiles(q, place)
  {
    var next := DriveKept(accepts, q, place, Concat(rest));
    hide Drive, Stream, Stands, Completed, CompletedFiles;
    assert rest == [] ==> Concat(rest) == "";
    FeedAllKept(accepts, Drive(accepts, q).parser, next, rest);
  }

  // Where an opening delimiter begins that ends just before the empty line of the first header.
  function EmptyLineBefore(items: seq<Item>): int
    requires items != []
  {
    |HeaderText(Lines(items[0]))| - 2
  }

  // Where the parser stands after such a delimiter, or after the real one.
  function StartPlace(items: seq<Item>, v: nat): Place
    requires items != []
  {
    InHeaders(if v == 0 then Lines(items[0]) else [], items[0].content, items[1..])
  }

  lemma StartStands(accepts: HeaderParser, items: seq<Item>, boundary: string, q: Parser, v: nat)
    requires items != [] && ValidBoundary(boundary) && Plain(accepts, items, boundary)
    requires q == Parser(boundary, NewEntry, q.buffer, false, [], NO_FILE, [])
    ensures Stands(accepts, q, StartPlace(items, v)) && Completed(q.parts, StartPlace(items, v)) == Contents(items)
  {
    assert NoReturn(boundary) && PlainLines(accepts, []);
    NextEntryPlain(accepts, items, boundary, []);
    hide PlainLines, Plain, NoReturn, Lines, Free, Contents;
    assert [] + Contents(items) == Contents(items);
  }

  lemma StartText(accepts: HeaderParser, items: seq<Item>, boundary: string, v: nat)
    requires items != [] && Plain(accepts, items, boundary)
    requires v == 0 || v == EmptyLineBefore(items)
    ensures var s, low := Serialize(items, boundary), v + |DashBoundaryCrlf(boundary)|;
            low <= |s| && Stream(StartPlace(items, v), boundary) == s[low..]
  {
    var dash, h := DashBoundaryCrlf(boundary), HeaderText(Lines(items[0]));
    var more := Rest(items[0].content, items[1..], boundary);
    assert |h| - 2 == EmptyLineBefore(items) && HeaderText([]) == CRLF && PlainItem(accepts, items[0], boundary);
    hide Lines, Rest, Serialize, DashBoundaryCrlf, HeaderText, EmptyLineBefore, HeadLines, PlainItem, Plain;
    assert Stream(StartPlace(items, v), boundary) == (if v == 0 then h else CRLF) + more;
    hide Stream, StartPlace;
    HeaderCloses(accepts, items[0], boundary);
    FromStart(dash, h, more, v);
    OpeningText(items, boundary);
  }

  lemma HeaderCloses(accepts: HeaderParser, item: Item, boundary: string)
    requires PlainItem(accepts, item, boundary)
    ensures var h := HeaderText(Lines(item)); |h| >= 2 && h[|h| - 2] == '\r' && h[|h| - 1] == '\n'
  {
    ItemLines(accepts, item, boundary);
    hide Lines, HeaderText, HeadLines;
    HeaderEnds(Lines(item));
  }

  lemma ReadFromStart(accepts: HeaderParser, items: seq<Item>, boundary: string, q: Parser, rest: seq<string>, v: nat)
    requires items != [] && ValidBoundary(boundary) && Plain(accepts, items, boundary)
    requires v == 0 || v == EmptyLineBefore(items)
    requires Behind(Serialize(items, boundary), boundary, v, q, rest)
    ensures ReadWhole(Onward(accepts, q, rest), items)
    ensures Onward(accepts, q, rest).parser.files == CompletedFiles(q, StartPlace(items, v))
  {
    StartStands(accepts, items, boundary, q, v);
    StartText(accepts, items, boundary, v);
    hide Serialize, Plain, EmptyLineBefore, ValidBoundary, DashBoundaryCrlf, Stream, Stands, Completed, CompletedFiles, Contents, OccursAt;
    ReadFromPlace(accepts, q, StartPlace(items, v), rest, items);
  }

  lemma FromStart(dash: string, h: string, more: string, v: nat)
    requires |h| >= 2 && h[|h| - 2] == '\r' && h[|h| - 1] == '\n' && (v == 0 || v == |h| - 2)
    ensures (dash + (h + more))[v + |dash|..] == (if v == 0 then h else CRLF) + more
  {
    assert h[|h| - 2..] == CRLF;
    assert h == h[..|h| - 2] + h[|h| - 2..];
  }

  lemma SecondReturn(first: string, second: string, q: nat)
    requires NoReturn(second)
    ensures |first| + 2 <= q < |first| + 2 + |second| ==> (first + CRLF + (second + CRLF + CRLF))[q] != '\r'
  {
    assert |first| + 2 <= q < |first| + 2 + |second| ==>
             (first + CRLF + (second + CRLF + CRLF))[q] == second[q - |first| - 2];
  }

  // In an item's header a line that is not the last ends with a quote.
  lemma QuoteBefore(item: Item, q: nat)
    requires HeadLines(Lines(item)) && q + 4 < |HeaderText(Lines(item))| && HeaderText(Lines(item))[q] == '\r'
    ensures q > 0 && HeaderText(Lines(item))[q - 1] == '"'
  {
    var first, second := Disposition(item), TypeLine(item);
    var h := HeaderText(Lines(item));
    TwoLines("", first, second);
    assert HeadLine(Lines(item)[0]) && first[|first| - 1] == '"';
    if item.contentType == "" {
      assert h == first + CRLF + CRLF;
      LineReturn(first, CRLF);
    } else {
      assert HeadLine(Lines(item)[1]);
      assert h == first + CRLF + (second + CRLF + CRLF);
      LineReturn(first, second + CRLF + CRLF);
      SecondReturn(first, second, q);
      hide HeaderText, Lines, Disposition, TypeLine;
    }
  }

  lemma OpeningChar(boundary: string)
    requires ValidBoundary(boundary)
    ensures var dash := DashBoundaryCrlf(boundary);
            && |dash| == |boundary| + 4 && dash[|boundary| + 2] == '\r' && dash[|boundary| + 3] == '\n'
            && dash[|boundary| + 1] != '"'
  {
    var dash := DashBoundaryCrlf(boundary);
    assert |boundary| > 0 ==> dash[|boundary| + 1] == boundary[|boundary| - 1];
  }

  // An opening delimiter that ends in the header of the first item is the real one, or ends just before the empty line.
  lemma OpeningInHeader(s: string, items: seq<Item>, boundary: string, v: nat)
    requires items != [] && ValidBoundary(boundary) && Headed(items) && TailAt(s, items, boundary, |boundary| + 2)
    requires OccursAt(s, DashBoundaryCrlf(boundary), v) && v <= EmptyLineBefore(items)
    ensures v == 0 || v == EmptyLineBefore(items)
  {
    var h, q := HeaderText(Lines(items[0])), v + |boundary| + 2;
    assert |h| == EmptyLineBefore(items) + 2 && HeadLines(Lines(items[0]));
    hide OccursAt, DashBoundaryCrlf, TailAt, ValidBoundary, Headed, HeaderText, Lines, HeadLines, EmptyLineBefore;
    OpeningEnd(s, boundary, v);
    HeaderLetter(s, items, boundary, |boundary| + 2, v - 2);
    HeaderLetter(s, items, boundary, |boundary| + 2, v - 3);
    if 1 < v < |h| - 2 {
      QuoteBeforeIn(items[0], h, v - 2);
    }
  }

  lemma HeaderLetter(s: string, items: seq<Item>, boundary: string, at: nat, k: int)
    requires items != [] && TailAt(s, items, boundary, at)
    ensures var h := HeaderText(Lines(items[0]));
            at + 2 + |h| <= |s| && s[at + 1] == '\n' && (0 <= k < |h| ==> s[at + 2 + k] == h[k])
  {
    var h := HeaderText(Lines(items[0]));
    TailStep(s, items, boundary, at);
    assert Begins(items, at) == at + 2 + |h|;
    hide HeaderText, Lines, Begins, Ends, TailAt, Delimiter;
    assert 0 <= k < |h| ==> s[at + 2 + k] == s[at + 2..at + 2 + |h|][k];
  }

  lemma OpeningEnd(s: string, boundary: string, v: nat)
    requires OccursAt(s, DashBoundaryCrlf(boundary), v) && ValidBoundary(boundary)
    ensures var q := v + |boundary| + 2;
            q + 2 <= |s| && s[q] == '\r' && s[q + 1] == '\n' && s[q - 1] != '"'
  {
    OpeningChar(boundary);
    var dash := DashBoundaryCrlf(boundary);
    hide DashBoundaryCrlf, ValidBoundary;
    assert s[v + (|boundary| + 2)] == dash[|boundary| + 2] && s[v + (|boundary| + 1)] == dash[|boundary| + 1];
    assert s[v + (|boundary| + 3)] == dash[|boundary| + 3];
  }

  lemma QuoteBeforeIn(item: Item, h: string, q: nat)
    requires h == HeaderText(Lines(item)) && HeadLines(Lines(item)) && q + 4 < |h|
    ensures h[q] == '\r' ==> q > 0 && h[q - 1] == '"'
  {
    if h[q] == '\r' {
      QuoteBefore(item, q);
    }
  }

  // The parts of a parse that succeeds are spans of the text behind the opening delimiter.
  lemma PartsAreSpans(accepts: HeaderParser, s: string, boundary: string, v: nat, q: Parser, rest: seq<string>)
    returns (spans: seq<Span>, at: nat, unfinished: bool)
    requires Behind(s, boundary, v, q, rest)
    ensures var r := Onward(accepts, q, rest);
            r.Return? && r.ok ==>
              && Spanned(s, Delimiter(boundary), spans, at, unfinished)
              && Finished(s, Delimiter(boundary), at, unfinished)
              && r.parser.parts == Texts(s, spans)
              && (spans != [] ==> v + |DashBoundaryCrlf(boundary)| + 2 <= spans[0].b)
  {
    var dash := DashBoundaryCrlf(boundary);
    var low := v + |dash|;
    OpeningReturn(s, boundary, v);
    hide OccursAt;
    assert Texts(s, []) == [];
    TracedAt(s, q, Concat(rest), low, [], low);
    hide Behind, DashBoundaryCrlf;
    spans := DriveTraced(accepts, s, q, Concat(rest), low, []);
    var r := Drive(accepts, q);
    at, unfinished := 0, false;
    hide Drive;
    if r.ok {
      spans := FeedAllTraced(accepts, s, r.parser, rest, low, spans);
      var last := Onward(accepts, q, rest);
      if last.ok {
        at, unfinished := At(s, last.parser, ""), last.parser.state.Body?;
        hide Spanned, Texts;
      }
    }
  }

  lemma OpeningReturn(s: string, boundary: string, v: nat)
    requires OccursAt(s, DashBoundaryCrlf(boundary), v)
    ensures var low := v + |DashBoundaryCrlf(boundary)|;
            4 <= low <= |s| && s[low - 2] == '\r' && s[low - 1] == '\n'
  {
    var dash := DashBoundaryCrlf(boundary);
    assert |dash| == |boundary| + 4 && dash[|boundary| + 2] == '\r' && dash[|boundary| + 3] == '\n';
    assert s[v + (|boundary| + 2)] == '\r' && s[v + (|boundary| + 3)] == '\n';
  }

  lemma {:induction false} SameCount(s: string, spans: seq<Span>, items: seq<Item>)
    requires forall k :: 0 <= k < |spans| ==> spans[k].b <= spans[k].e <= |s|
    requires Texts(s, spans) == Contents(items)
    ensures |spans| == |items|
    decreases |spans|
  {
    if spans != [] && items != [] {
      assert Texts(s, spans)[1..] == Texts(s, spans[1..]) && Contents(items)[1..] == Contents(items[1..]);
      SameCount(s, spans[1..], items[1..]);
    }
  }

  // Parts that are the contents begin where the first content begins.
  lemma BeginsThere(s: string, items: seq<Item>, boundary: string, spans: seq<Span>, at: nat, unfinished: bool, low: nat)
    requires items != [] && ValidBoundary(boundary) && Headed(items) && TailAt(s, items, boundary, |boundary| + 2)
    requires Spanned(s, Delimiter(boundary), spans, at, unfinished) && Finished(s, Delimiter(boundary), at, unfinished)
    requires Texts(s, spans) == Contents(items)
    requires |boundary| + 4 <= low && (spans != [] ==> low + 2 <= spans[0].b)
    ensures low + 2 <= Begins(items, |boundary| + 2)
  {
    SameCount(s, spans, items);
    assert NoReturn(boundary);
    if spans[0].b > Begins(items, |boundary| + 2) {
      NeverCatchesUp(s, items, boundary, |boundary| + 2, spans, at, unfinished);
    }
  }

  lemma ReadFromNowhereElse(accepts: HeaderParser, items: seq<Item>, boundary: string, q: Parser, rest: seq<string>, v: nat)
    requires items != [] && ValidBoundary(boundary) && Plain(accepts, items, boundary)
    requires Behind(Serialize(items, boundary), boundary, v, q, rest)
    requires ReadWhole(Onward(accepts, q, rest), items)
    ensures v == 0 || v == EmptyLineBefore(items)
  {
    var s := Serialize(items, boundary);
    SerializeIsTail(items, boundary);
    assert s[|boundary| + 2..] == Tail(items, boundary) by {
      assert |DASH + boundary| == |boundary| + 2;
    }
    forall i | 0 <= i < |items|
      ensures HeadLines(Lines(items[i]))
    {
      assert PlainItem(accepts, items[i], boundary);
      ItemLines(accepts, items[i], boundary);
    }
    hide Serialize, Plain, Tail, HeadLines, Lines, Onward;
    var spans, at, unfinished := PartsAreSpans(accepts, s, boundary, v, q, rest);
    assert |DashBoundaryCrlf(boundary)| == |boundary| + 4;
    BeginsThere(s, items, boundary, spans, at, unfinished, v + |boundary| + 4);
    OpeningInHeader(s, items, boundary, v);
  }

  /**
   A serialized form in any pieces is read whole if and only if the first opening delimiter inside a piece is the
   one at the very begin, or one that the last header line of the first item forms with its end.
   */
  lemma PartsExactly(accepts: HeaderParser, items: seq<Item>, boundary: string, pieces: seq<string>)
    requires items != [] && ValidBoundary(boundary) && Plain(accepts, items, boundary)
    requires Concat(pieces) == Serialize(items, boundary)
    ensures ReadWhole(FeedAll(accepts, Fresh(boundary), pieces), items) <==>
            var sync := SyncAt(pieces, boundary);
            sync.Some? && (sync.value == 0 || sync.value == EmptyLineBefore(items))
  {
    hide *;
    if SyncAt(pieces, boundary).None? {
      NotSynced(accepts, boundary, pieces);
      NotRead(items, boundary);
    } else {
      var v := SyncAt(pieces, boundary).value;
      var q, rest := Synced(accepts, boundary, pieces);
      if v == 0 || v == EmptyLineBefore(items) {
        ReadFromStart(accepts, items, boundary, q, rest, v);
      } else if ReadWhole(Onward(accepts, q, rest), items) {
        ReadFromNowhereElse(accepts, items, boundary, q, rest, v);
      }
    }
  }

  lemma NotRead(items: seq<Item>, boundary: string)
    ensures !ReadWhole(Return(Fresh(boundary), true), items)
  {
  }

  // ---------- in terms of the first piece ----------

  // The first piece that is not empty.
  function FirstPiece(pieces: seq<string>): string {
    if pieces == [] then "" else if pieces[0] != "" then pieces[0] else FirstPiece(pieces[1..])
  }

  predicate EndsWith(s: string, t: string) {
    |t| <= |s| && s[|s| - |t|..] == t
  }

  // The real opening delimiter is found if and only if the first piece holds it.
  lemma {:induction false} FoundAtOnce(pieces: seq<string>, boundary: string)
    requires |DashBoundaryCrlf(boundary)| <= |Concat(pieces)|
    requires Concat(pieces)[..|DashBoundaryCrlf(boundary)|] == DashBoundaryCrlf(boundary)
    ensures SyncAt(pieces, boundary) == Some(0) <==> |FirstPiece(pieces)| >= |DashBoundaryCrlf(boundary)|
    decreases |pieces|
  {
    var dash := DashBoundaryCrlf(boundary);
    assert |dash| > 0;
    if pieces != [] {
      var piece, more := pieces[0], Concat(pieces[1..]);
      hide DashBoundaryCrlf;
      FindIs(piece, dash, 0);
      if piece == "" {
        assert "" + more == more;
        FoundAtOnce(pieces[1..], boundary);
      } else if |piece| >= |dash| {
        OccursIs(piece, dash, 0);
        assert piece[0..0 + |dash|] == (piece + more)[..|dash|];
      }
    }
  }

  // The end of an item's header.
  lemma HeaderTail(item: Item)
    ensures var h, n := HeaderText(Lines(item)), |item.contentType|;
            && |h| >= n + 5 && h[|h| - 5 - n] == (if n == 0 then '"' else ' ')
            && h[|h| - 4 - n..|h| - 4] == item.contentType
  {
    var first, second, h := Disposition(item), TypeLine(item), HeaderText(Lines(item));
    TwoLines("", first, second);
    assert first[|first| - 1] == '"';
    var n := |item.contentType|;
    if n == 0 {
      assert h == first + CRLF + CRLF;
    } else {
      assert h == first + CRLF + (second + CRLF + CRLF);
      assert |second| == n + 14 && second[13] == ' ' && second[14..] == item.contentType;
      hide Disposition, TypeLine, HeaderText, Lines;
      assert h[|h| - 4 - n..|h| - 4] == second[14..];
    }
  }

  lemma OpeningLetters(boundary: string, c: char)
    requires ValidBoundary(boundary) && (c == '"' || c == ' ')
    ensures var dash := DashBoundaryCrlf(boundary);
            && |dash| == |DASH + boundary| + 2 && dash[..|DASH + boundary|] == DASH + boundary
            && c !in DASH + boundary
  {
    assert c !in DASH && c !in boundary;
  }

  // Another opening delimiter before the first content needs a content type that ends like one.
  lemma FalseOpening(s: string, items: seq<Item>, boundary: string)
    requires items != [] && ValidBoundary(boundary) && TailAt(s, items, boundary, |boundary| + 2)
    requires EmptyLineBefore(items) >= 0 && OccursAt(s, DashBoundaryCrlf(boundary), EmptyLineBefore(items))
    ensures EndsWith(items[0].contentType, DASH + boundary)
  {
    hide Lines, HeaderText, TailAt, OccursAt, DashBoundaryCrlf, ValidBoundary, EndsWith;
    var h, kind, v := HeaderText(Lines(items[0])), items[0].contentType, EmptyLineBefore(items);
    assert v == |h| - 2;
    HeaderSlice(s, items, boundary, |boundary| + 2);
    HeaderTail(items[0]);
    var c, t := h[|h| - 5 - |kind|], DASH + boundary;
    assert |t| == |boundary| + 2;
    OpeningLetters(boundary, c);
    SuffixIs(s, h, DashBoundaryCrlf(boundary), kind, t, c, v);
  }

  lemma HeaderSlice(s: string, items: seq<Item>, boundary: string, at: nat)
    requires items != [] && TailAt(s, items, boundary, at)
    ensures OccursAt(s, HeaderText(Lines(items[0])), at + 2)
  {
    TailStep(s, items, boundary, at);
    OccursIs(s, HeaderText(Lines(items[0])), at + 2);
  }

  lemma SuffixIs(s: string, h: string, dash: string, kind: string, t: string, c: char, v: nat)
    requires |h| == v + 2 && |dash| == |t| + 2 && dash[..|t|] == t
    requires OccursAt(s, h, |t| + 2) && OccursAt(s, dash, v)
    requires |h| >= |kind| + 5 && h[|h| - 4 - |kind|..|h| - 4] == kind
    requires h[|h| - 5 - |kind|] == c && c !in t
    ensures EndsWith(kind, t)
  {
    var n, m := |kind|, |t|;
    OccursWithin(s, h, m + 2);
    OccursWithin(s, dash, v);
    OccursIs(s, h, m + 2);
    OccursIs(s, dash, v);
    hide OccursAt;
    Sliced(s, m + 2, m + 2 + |h|, |h| - 5 - n);
    Sliced(s, v, v + |dash|, m - 1 - n);
    if n >= m {
      Nested(s, v, v + |dash|, 0, m);
      Nested(s, m + 2, m + 2 + |h|, |h| - 4 - m, |h| - 4);
      Nested(h, |h| - 4 - n, |h| - 4, n - m, n);
    }
  }

  lemma Nested(s: string, i: nat, j: nat, a: nat, b: nat)
    requires i <= j <= |s| && a <= b <= j - i
    ensures s[i..j][a..b] == s[i + a..i + b]
  {
    forall k | 0 <= k < b - a
      ensures s[i..j][a..b][k] == s[i + a..i + b][k]
    {
      assert s[i..j][a + k] == s[i + a + k];
    }
  }

  lemma Sliced(s: string, i: nat, j: nat, k: int)
    requires i <= j <= |s|
    ensures 0 <= k < j - i ==> s[i..j][k] == s[i + k]
  {
  }

  // A first piece that holds the whole opening delimiter is enough.
  lemma AnyPieces(accepts: HeaderParser, items: seq<Item>, boundary: string, pieces: seq<string>)
    requires items != [] && ValidBoundary(boundary) && Plain(accepts, items, boundary)
    requires Concat(pieces) == Serialize(items, boundary)
    requires |FirstPiece(pieces)| >= |DashBoundaryCrlf(boundary)|
    ensures ReadWhole(FeedAll(accepts, Fresh(boundary), pieces), items)
  {
    PartsExactly(accepts, items, boundary, pieces);
    BeginsWithOpening(items, boundary);
    FoundAtOnce(pieces, boundary);
    hide *;
  }

  lemma BeginsWithOpening(items: seq<Item>, boundary: string)
    requires items != []
    ensures var s, dash := Serialize(items, boundary), DashBoundaryCrlf(boundary);
            |dash| <= |s| && s[..|dash|] == dash
  {
    OpeningText(items, boundary);
    hide HeaderText, Lines, Rest, DashBoundaryCrlf, Serialize;
  }

  /**
   Unless the content type of the first item ends like a delimiter, a serialized form is read whole if and only if
   the first piece that is not empty holds the whole opening delimiter.
   */
  lemma WholeOpeningNeeded(accepts: HeaderParser, items: seq<Item>, boundary: string, pieces: seq<string>)
    requires items != [] && ValidBoundary(boundary) && Plain(accepts, items, boundary)
    requires Concat(pieces) == Serialize(items, boundary)
    requires !EndsWith(items[0].contentType, DASH + boundary)
    ensures ReadWhole(FeedAll(accepts, Fresh(boundary), pieces), items) <==>
            |FirstPiece(pieces)| >= |DashBoundaryCrlf(boundary)|
  {
    PartsExactly(accepts, items, boundary, pieces);
    BeginsWithOpening(items, boundary);
    FoundAtOnce(pieces, boundary);
    var s, sync := Serialize(items, boundary), SyncAt(pieces, boundary);
    if sync.Some? && sync.value == EmptyLineBefore(items) {
      var q, rest := Synced(accepts, boundary, pieces);
      SerializeIsTail(items, boundary);
      hide FeedAll, Fresh, Plain, ReadWhole, SyncAt, FirstPiece, Serialize;
      assert s[|boundary| + 2..] == Tail(items, boundary) by {
        assert |DASH + boundary| == |boundary| + 2;
      }
      FalseOpening(s, items, boundary);
    }
  }

  // With a content type that ends like a delimiter, a form is read whole though its first piece is one character.
  lemma FoundInTheHeader(item: Item, pieces: seq<string>)
    requires item == Item("a", "x", "", "--B")
    requires pieces == ["-", Serialize([item], "B")[1..]]
    ensures Concat(pieces) == Serialize([item], "B") && ReadWhole(FeedAll(line => true, Fresh("B"), pieces), [item])
  {
    var accepts: HeaderParser, items, s := line => true, [item], Serialize([item], "B");
    var first, dash, more := Disposition(item), DashBoundaryCrlf("B"), CRLF + Rest("x", [], "B");
    TypedText(item, s, first, more);
    TypedItem(accepts, item);
    hide Disposition, Serialize, Rest, PlainItem;
    assert Plain(accepts, items, "B");
    assert s[1..] == "-B\r\n" + first + "\r\nContent-Type: --B\r\n" + more;
    FindInType(first, dash, s[1..], more);
    FindIs("-", dash, 0);
    hide DashBoundaryCrlf, Plain, EmptyLineBefore, ReadWhole;
    assert pieces[1..] == [s[1..]] && "-" + s[1..] == s;
    assert SyncAt([s[1..]], "B") == Some(|first| + 20);
    assert SyncAt(pieces, "B") == Some(|first| + 21);
    ConcatTwo("-", s[1..]);
    PartsExactly(accepts, items, "B", pieces);
  }

  lemma TypedText(item: Item, s: string, first: string, more: string)
    requires item == Item("a", "x", "", "--B") && first == Disposition(item)
    requires s == Serialize([item], "B") && more == CRLF + Rest("x", [], "B")
    ensures s == "-" + ("-B\r\n" + first + "\r\nContent-Type: --B\r\n" + more)
    ensures EmptyLineBefore([item]) == |first| + 21
    ensures forall i :: 0 <= i < |first| ==> first[i] != 'B'
  {
    var h, line := HeaderText(Lines(item)), "Content-Type: --B";
    TypedLines(item, first, line);
    hide Disposition, Serialize, Rest, TypeLine, Lines, HeaderText;
    assert [item][1..] == [];
    OpeningText([item], "B");
    assert DashBoundaryCrlf("B") == "-" + "-B\r\n" && "\r\nContent-Type: --B\r\n" == CRLF + line + CRLF;
    hide DashBoundaryCrlf;
    Regrouped("-", "-B\r\n", first, line, CRLF, Rest("x", [], "B"));
  }

  lemma TypedLines(item: Item, first: string, line: string)
    requires item == Item("a", "x", "", "--B") && first == Disposition(item) && line == "Content-Type: --B"
    ensures HeaderText(Lines(item)) == first + CRLF + (line + CRLF + CRLF)
    ensures forall i :: 0 <= i < |first| ==> first[i] != 'B'
  {
    assert first == "Content-Disposition: form-data; name=\"a\"";
    TwoLines("", first, TypeLine(item));
    assert TypeLine(item) == line;
  }

  lemma Regrouped(a: string, e: string, f: string, l: string, c: string, r: string)
    ensures (a + e) + ((f + c + (l + c + c)) + r) == a + (e + f + (c + l + c) + (c + r))
  {
    Associates(a, e, (f + c + (l + c + c)) + r);
    assert (f + c + (l + c + c)) + r == f + (c + l + c) + (c + r);
    Associates(e, f, (c + l + c) + (c + r));
    assert f + ((c + l + c) + (c + r)) == f + (c + l + c) + (c + r);
    assert e + f + ((c + l + c) + (c + r)) == e + f + (c + l + c) + (c + r);
  }

  lemma FindInType(line: string, dash: string, text: string, more: string)
    requires dash == "--B\r\n" && text == "-B\r\n" + line + "\r\nContent-Type: --B\r\n" + more
    requires forall i :: 0 <= i < |line| ==> line[i] != 'B'
    ensures Find(text, dash) == |line| + 20
  {
    var at := |line| + 20;
    FindIs(text, dash, 0);
    assert text[at..at + 5] == dash;
    OccursIs(text, dash, at);
    assert forall i :: 2 <= i < at + 2 ==> text[i] != 'B';
    forall i | 0 <= i < at
      ensures !OccursAt(text, dash, i)
    {
      OccursReads(text, dash, i);
    }
  }

  lemma TypedItem(accepts: HeaderParser, item: Item)
    requires forall line :: accepts(line)
    requires item == Item("a", "x", "", "--B")
    ensures PlainItem(accepts, item, "B")
  {
    assert Disposition(item) == "Content-Disposition: form-data; name=\"a\"";
    assert TypeLine(item) == "Content-Type: --B";
    assert PlainLine(accepts, Disposition(item)) && PlainLine(accepts, TypeLine(item));
    assert |Delimiter("B")| == 5;
  }

  // ---------- names and contents ----------

  // All is read: the contents, and of each part what its header says.
  predicate ReadAsWritten(r: Round, items: seq<Item>) {
    ReadWhole(r, items) && r.parser.files == Infos(items)
  }

  lemma FilesFromTheBegin(items: seq<Item>, boundary: string, q: Parser)
    requires items != [] && q == Parser(boundary, NewEntry, q.buffer, false, [], NO_FILE, [])
    ensures CompletedFiles(q, StartPlace(items, 0)) == Infos(items)
  {
    NextInfo([], items);
    hide TakeLines, Lines, Infos;
    assert [] + Infos(items) == Infos(items);
  }

  // From the empty line on, nothing is read of the first header.
  lemma FilesFromTheEmptyLine(items: seq<Item>, boundary: string, q: Parser, v: nat)
    requires items != [] && q == Parser(boundary, NewEntry, q.buffer, false, [], NO_FILE, []) && v != 0
    ensures CompletedFiles(q, StartPlace(items, v)) == [NO_FILE] + Infos(items[1..])
  {
    assert TakeLines(NO_FILE, []) == NO_FILE;
    hide Infos;
  }

  lemma TypeIsRead(item: Item, boundary: string)
    requires EndsWith(item.contentType, DASH + boundary) && ValidBoundary(boundary)
    ensures TakeLines(NO_FILE, Lines(item)) != NO_FILE
  {
    LinesTaken(item);
    var kind := item.contentType;
    var last := (DASH + boundary)[|boundary| + 1];
    assert !IsBlank(last) by {
      assert |boundary| > 0 ==> last == boundary[|boundary| - 1];
    }
    assert kind[|kind| - (|boundary| + 2)..][|boundary| + 1] == kind[|kind| - 1];
    TrimKeepsLast(kind);
    hide Trim, TakeLines, Lines, Disposition, TakeLine;
  }

  lemma {:induction false} TrimKeepsLast(s: string)
    requires s != "" && !IsBlank(s[|s| - 1])
    ensures TrimLeft(s) != "" && Trim(s) == TrimLeft(s)
    decreases |s|
  {
    if IsBlank(s[0]) {
      assert s[1..][|s[1..]| - 1] == s[|s| - 1];
      TrimKeepsLast(s[1..]);
    }
  }

  /**
   A serialized form in any pieces is accepted with each item's content, and with what its header says, if and
   only if the first piece that is not empty holds the whole opening delimiter.
   */
  lemma FormExactly(accepts: HeaderParser, items: seq<Item>, boundary: string, pieces: seq<string>)
    requires items != [] && ValidBoundary(boundary) && Plain(accepts, items, boundary)
    requires Concat(pieces) == Serialize(items, boundary)
    ensures ReadAsWritten(FeedAll(accepts, Fresh(boundary), pieces), items) <==>
            |FirstPiece(pieces)| >= |DashBoundaryCrlf(boundary)|
  {
    PartsExactly(accepts, items, boundary, pieces);
    BeginsWithOpening(items, boundary);
    FoundAtOnce(pieces, boundary);
    var sync := SyncAt(pieces, boundary);
    if sync.Some? && (sync.value == 0 || sync.value == EmptyLineBefore(items)) {
      var v := sync.value;
      var q, rest := Synced(accepts, boundary, pieces);
      hide FeedAll, Fresh, Plain, SyncAt, FirstPiece, Serialize, ValidBoundary, DashBoundaryCrlf, Onward, Infos;
      ReadFromStart(accepts, items, boundary, q, rest, v);
      if v == 0 {
        FilesFromTheBegin(items, boundary, q);
      } else {
        FilesFromTheEmptyLine(items, boundary, q, v);
        FirstInfo(accepts, items, boundary, pieces, q, rest, v);
      }
    }
  }

  lemma FirstInfo(accepts: HeaderParser, items: seq<Item>, boundary: string, pieces: seq<string>, q: Parser,
                  rest: seq<string>, v: nat)
    requires items != [] && ValidBoundary(boundary) && v == EmptyLineBefore(items) && v != 0
    requires Behind(Serialize(items, boundary), boundary, v, q, rest)
    ensures [NO_FILE] + Infos(items[1..]) != Infos(items)
  {
    var s := Serialize(items, boundary);
    SerializeIsTail(items, boundary);
    assert s[|boundary| + 2..] == Tail(items, boundary) by {
      assert |DASH + boundary| == |boundary| + 2;
    }
    hide Serialize;
    FalseOpening(s, items, boundary);
    TypeIsRead(items[0], boundary);
    assert Infos(items)[0] == TakeLines(NO_FILE, Lines(items[0]));
    assert ([NO_FILE] + Infos(items[1..]))[0] == NO_FILE;
  }

  // What was written, when the names and types can be written at all.
  function AllWritten(items: seq<Item>): seq<FileInfo> {
    if items == [] then [] else [Written(items[0])] + AllWritten(items[1..])
  }

  lemma {:induction false} InfosAreWritten(items: seq<Item>)
    ensures Infos(items) == AllWritten(items) <==>
            forall i :: 0 <= i < |items| ==>
              Clean(items[i].name) && Clean(items[i].filename) && Tidy(items[i].contentType)
    decreases |items|
  {
    hide Clean, Tidy, TakeLines, Lines;
    if items != [] {
      InfoIsRead(items[0]);
      InfosAreWritten(items[1..]);
      assert Infos(items)[0] == TakeLines(NO_FILE, Lines(items[0])) && Infos(items)[1..] == Infos(items[1..]);
      assert AllWritten(items)[0] == Written(items[0]) && AllWritten(items)[1..] == AllWritten(items[1..]);
      assert forall i :: 0 < i < |items| ==> items[i] == items[1..][i - 1];
      assert forall i :: 0 <= i < |items[1..]| ==> items[1..][i] == items[i + 1];
    }
  }

  /**
   Name, file name, content type and content of every item come through if and only if the first piece that is not
   empty holds the whole opening delimiter and the names and types can be written: no separator or line end in a
   name, no blank at an end of a type.
   */
  lemma EverythingComesThrough(accepts: HeaderParser, items: seq<Item>, boundary: string, pieces: seq<string>)
    requires items != [] && ValidBoundary(boundary) && Plain(accepts, items, boundary)
    requires Concat(pieces) == Serialize(items, boundary)
    requires |FirstPiece(pieces)| >= |DashBoundaryCrlf(boundary)|
    ensures var r := FeedAll(accepts, Fresh(boundary), pieces);
            && ReadWhole(r, items)
            && (r.parser.files == AllWritten(items) <==>
                  forall i :: 0 <= i < |items| ==>
                    Clean(items[i].name) && Clean(items[i].filename) && Tidy(items[i].contentType))
  {
    FormExactly(accepts, items, boundary, pieces);
    InfosAreWritten(items);
    hide *;
  }

  // ---------- a form that goes on without its first parts ----------

  lemma {:induction false} SerializeSplits(items: seq<Item>, boundary: string, k: nat)
    requires k <= |items|
    ensures Serialize(items, boundary) == ItemsText(items[..k], boundary) + Serialize(items[k..], boundary)
    decreases k
  {
    if k == 0 {
      assert items[0..] == items && "" + Serialize(items, boundary) == Serialize(items, boundary);
    } else {
      var first, rest := items[..k], Serialize(items[k..], boundary);
      assert items[1..][..k - 1] == first[1..] && items[1..][k - 1..] == items[k..] && first[0] == items[0];
      var front := ItemBegin(items[0], boundary) + items[0].content + CRLF;
      assert ItemsText(first, boundary) == front + ItemsText(first[1..], boundary);
      SerializeMore(items, boundary);
      hide ItemBegin, Serialize, ItemsText;
      SerializeSplits(items[1..], boundary, k - 1);
      Associates(front, ItemsText(first[1..], boundary), rest);
    }
  }

  lemma Associates(a: string, b: string, c: string)
    ensures a + (b + c) == (a + b) + c
  {
  }

  lemma {:induction false} LostPieces(accepts: HeaderParser, boundary: string, lost: seq<string>, kept: seq<string>)
    requires SyncAt(lost, boundary).None?
    ensures FeedAll(accepts, Fresh(boundary), lost + kept) == FeedAll(accepts, Fresh(boundary), kept)
    ensures Concat(lost + kept) == Concat(lost) + Concat(kept)
    decreases |lost|
  {
    if lost == [] {
      assert lost + kept == kept && "" + Concat(kept) == Concat(kept);
    } else {
      var piece, more := lost[0], lost[1..];
      assert (lost + kept)[1..] == more + kept && (lost + kept)[0] == piece;
      assert Find(piece, DashBoundaryCrlf(boundary)) >= |piece| && SyncAt(more, boundary).None?;
      hide SyncAt, Feed, Find, DashBoundaryCrlf, Fresh;
      PieceWithout(accepts, boundary, piece);
      LostPieces(accepts, boundary, more, kept);
      Associates(piece, Concat(more), Concat(kept));
    }
  }

  /**
   When no piece of the first `k` items holds a whole opening delimiter and the next piece begins with the next
   item, the form is accepted without those items.
   */
  lemma FirstPartsMissing(accepts: HeaderParser, items: seq<Item>, boundary: string, k: nat, lost: seq<string>,
                          kept: seq<string>)
    requires k < |items| && ValidBoundary(boundary) && Plain(accepts, items, boundary)
    requires Concat(lost) == ItemsText(items[..k], boundary) && SyncAt(lost, boundary).None?
    requires Concat(kept) == Serialize(items[k..], boundary)
    requires |FirstPiece(kept)| >= |DashBoundaryCrlf(boundary)|
    ensures Concat(lost + kept) == Serialize(items, boundary)
    ensures ReadWhole(FeedAll(accepts, Fresh(boundary), lost + kept), items[k..])
  {
    SerializeSplits(items, boundary, k);
    LostPieces(accepts, boundary, lost, kept);
    forall i | 0 <= i < |items[k..]|
      ensures PlainItem(accepts, items[k..][i], boundary)
    {
      assert PlainItem(accepts, items[k + i], boundary);
    }
    AnyPieces(accepts, items[k..], boundary, kept);
  }

  // Two items, the first piece one character: the form is accepted, and only the second item is there.
  lemma OneOfTwoParts(first: Item, second: Item, pieces: seq<string>)
    requires first == Item("a", "x", "", "") && second == Item("b", "y", "", "")
    requires pieces == ["-", ItemsText([first], "B")[1..], Serialize([second], "B")]
    ensures Concat(pieces) == Serialize([first, second], "B")
    ensures var r := FeedAll(line => true, Fresh("B"), pieces);
            r.Return? && r.ok && r.parser.valid && r.parser.parts == ["y"]
  {
    var items, text := [first, second], ItemsText([first], "B");
    var lost, kept := ["-", text[1..]], [Serialize([second], "B")];
    var accepts: HeaderParser := line => true;
    FirstItemText(first, text);
    assert text[1..] == "-B\r\n" + Disposition(first) + "\r\n\r\nx\r\n";
    hide Disposition;
    assert pieces == lost + kept && items[..1] == [first] && items[1..] == [second];
    ConcatTwo("-", text[1..]);
    ConcatOne(Serialize([second], "B"));
    SmallItem(accepts, first, "a", "x");
    SmallItem(accepts, second, "b", "y");
    assert Plain(accepts, items, "B");
    NoOpeningIn("-", Disposition(first), text[1..]);
    BeginsWithOpening([second], "B");
    assert FirstPiece(kept) == Serialize([second], "B") by {
      assert |DashBoundaryCrlf("B")| == 5;
    }
    hide ItemsText, Serialize, Plain, SyncAt;
    FirstPartsMissing(accepts, items, "B", 1, lost, kept);
    assert Contents([second]) == ["y"];
  }

  lemma ConcatTwo(a: string, b: string)
    ensures Concat([a, b]) == a + b
  {
    assert [a, b][1..] == [b] && [b][1..] == [];
    assert Concat([b]) == b + "";
  }

  lemma ConcatOne(a: string)
    ensures Concat([a]) == a
  {
    assert [a][1..] == [];
  }

  lemma FirstItemText(first: Item, text: string)
    requires first == Item("a", "x", "", "") && text == ItemsText([first], "B")
    ensures text == "-" + ("-B\r\n" + Disposition(first) + "\r\n\r\nx\r\n")
    ensures forall i :: 0 <= i < |Disposition(first)| ==> Disposition(first)[i] != 'B'
  {
    var line := Disposition(first);
    assert line == "Content-Disposition: form-data; name=\"a\"";
    assert [first][1..] == [];
    assert ItemsText([], "B") == "";
    hide Disposition;
    assert ItemBegin(first, "B") == DASH + "B" + CRLF + line + CRLF + "" + CRLF;
    assert text == DASH + "B" + CRLF + line + CRLF + "" + CRLF + "x" + CRLF + "";
  }

  lemma SmallItem(accepts: HeaderParser, item: Item, name: string, content: string)
    requires forall line :: accepts(line)
    requires |name| == 1 && |content| == 1 && name[0] != '\r' && item == Item(name, content, "", "")
    ensures PlainItem(accepts, item, "B")
  {
    var line := Disposition(item);
    assert line == "Content-Disposition: form-data; name=\"" + name + "\"";
    assert NoReturn("Content-Disposition: form-data; name=\"");
    assert PlainLine(accepts, line);
    assert |Delimiter("B")| == 5;
  }

  lemma NoOpeningIn(one: string, line: string, text: string)
    requires one == "-" && text == "-B\r\n" + line + "\r\n\r\nx\r\n"
    requires forall i :: 0 <= i < |line| ==> line[i] != 'B'
    ensures SyncAt([one, text], "B").None?
  {
    var dash := DashBoundaryCrlf("B");
    assert dash == "--B\r\n";
    FindIs(one, dash, 0);
    FindIs(text, dash, 0);
    assert forall i :: 2 <= i < |text| ==> text[i] != 'B';
    forall i | 0 <= i < |text|
      ensures !OccursAt(text, dash, i)
    {
      OccursReads(text, dash, i);
    }
    assert [one, text][1..] == [text] && [text][1..] == [];
    assert SyncAt([], "B") == None && SyncAt([text], "B") == None;
  }
}
