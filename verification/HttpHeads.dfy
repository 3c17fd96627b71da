/**
 Whole requests from a fresh parser: the request line, any header lines, and what the message is then taken to be.
 */
module HttpHeads {
  import opened Basics
  import opened HttpSyntax
  import opened HttpParser
  import opened HttpSplit
  import opened HttpLengths
  import opened HttpFields
  import opened HttpWrapper
  import C = HttpChunked
  import M = HttpMethods
  import T = HttpSplitTheorem
  import U = HttpUrl

  // ---------------------------------------------------------------- header lines

  datatype Line = Line(name: seq<Byte>, value: seq<Byte>)

  predicate GoodLine(l: Line) {
    && IsFieldName(l.name)
    && if IsName(l.name, LENGTH_NAME) then l.value != [] && Digits(10, l.value) && ReadDigits(10, l.value).Some?
       else IsFieldValue(l.value)
  }

  predicate GoodLines(lines: seq<Line>) { forall i :: 0 <= i < |lines| ==> GoodLine(lines[i]) }

  function LinesText(lines: seq<Line>): seq<Byte> {
    if lines == [] then [] else LineText(lines[0].name, lines[0].value) + LinesText(lines[1..])
  }

  function LineAtoms(l: Line): seq<Atom> { Tag(Field, l.name) + Tag(Value, l.value) }

  function LinesAtoms(lines: seq<Line>): seq<Atom> {
    if lines == [] then [] else LineAtoms(lines[0]) + LinesAtoms(lines[1..])
  }

  /** What the lines say, one after the other. */
  function FlagsOf(l: Line, f: Flags): Flags {
    if IsName(l.name, LENGTH_NAME) then f else LineFlags(l.name, l.value, f)
  }

  function LinesFlags(lines: seq<Line>, f: Flags): Flags
    decreases |lines|
  {
    if lines == [] then f else LinesFlags(lines[1..], FlagsOf(lines[0], f))
  }

  function LengthOf(l: Line, n: nat): nat
    requires GoodLine(l)
  {
    if IsName(l.name, LENGTH_NAME) then ReadDigits(10, l.value).value else n
  }

  function LinesLength(lines: seq<Line>, n: nat): nat
    requires GoodLines(lines)
    decreases |lines|
  {
    if lines == [] then n else LinesLength(lines[1..], LengthOf(lines[0], n))
  }

  /** The parser p, with what the header lines have told it, at the end of a line. */
  predicate Told(p: Parser, q: Parser, flags: Flags, length: nat, n: nat) {
    && (q.state.HeaderFieldStart? || q.state.HeaderValueLws?)
    && q == Placed(p.(flags := flags, contentLength := length), q.state, q.headerMatch, q.index, n)
    && q.index <= 20 && n <= MAX_HEADER_SIZE && length <= ULLONG_MAX
  }

  lemma ToldIsValid(p: Parser, q: Parser, flags: Flags, length: nat, n: nat)
    requires Valid(p) && Told(p, q, flags, length, n)
    ensures Valid(q) && Valid(q.(state := HeaderFieldStart)) && q.nread == n && q.flags == flags && q.contentLength == length
  {
  }

  lemma OneLine(p: Parser, l: Line) returns (q: Parser)
    requires Valid(p) && p.state.HeaderFieldStart? && GoodLine(l)
    requires p.nread + |LineText(l.name, l.value)| <= MAX_HEADER_SIZE
    ensures Told(p, q, FlagsOf(l, p.flags), LengthOf(l, p.contentLength), p.nread + |LineText(l.name, l.value)|)
    ensures q.state.HeaderValueLws? && C.Reaches(p, LineText(l.name, l.value), q, LineAtoms(l))
  {
    hide C.Reaches, IsFieldName, IsFieldValue, IsName, LineFlags, ReadDigits, Digits, LineText, StateOk;
    LengthInBounds(p);
    var n := p.nread + |LineText(l.name, l.value)|;
    if IsName(l.name, LENGTH_NAME) {
      var i := LengthLineIsRead(p, l.name, l.value);
      DigitsExact(10, l.value);
      q := Placed(p.(contentLength := ReadDigits(10, l.value).value), HeaderValueLws, ContentLength, i, n);
      IndexOk(p, l, q);
    } else {
      var h, i := LineIsRead(p, l.name, l.value);
      q := Placed(p.(flags := LineFlags(l.name, l.value, p.flags)), HeaderValueLws, h, i, n);
      IndexOk(p, l, q);
    }
  }

  lemma IndexOk(p: Parser, l: Line, q: Parser)
    requires C.Reaches(p, LineText(l.name, l.value), q, LineAtoms(l))
    ensures q.index <= 20
  {
    hide Step, StateOk, LineText;
  }

  lemma TextBegins(lines: seq<Line>)
    requires lines != [] && GoodLines(lines)
    ensures LinesText(lines) != [] && LinesText(lines)[0] != SP && LinesText(lines)[0] != HT
  {
    assert GoodLine(lines[0]);
    hide IsFieldValue, IsName, Digits, ReadDigits;
    var ch := lines[0].name[0];
    assert LinesText(lines)[0] == ch;
    NotBlank(ch);
  }

  lemma NotBlank(ch: Byte)
    requires Token(ch) != 0
    ensures ch != SP && ch != HT
  {
  }

  lemma LinesSplit(lines: seq<Line>, f: Flags, n: nat)
    requires lines != [] && GoodLines(lines)
    ensures GoodLine(lines[0]) && GoodLines(lines[1..])
    ensures LinesText(lines) == LineText(lines[0].name, lines[0].value) + LinesText(lines[1..])
    ensures LinesAtoms(lines) == LineAtoms(lines[0]) + LinesAtoms(lines[1..])
    ensures LinesFlags(lines, f) == LinesFlags(lines[1..], FlagsOf(lines[0], f))
    ensures LinesLength(lines, n) == LinesLength(lines[1..], LengthOf(lines[0], n))
  {
    hide GoodLine, LineText, LineAtoms, FlagsOf, LengthOf;
  }

  /** Any header lines: the parser takes them all, and holds what they say. */
  lemma {:induction false} LinesAreRead(p: Parser, lines: seq<Line>) returns (q: Parser)
    requires Valid(p) && p.state.HeaderFieldStart? && GoodLines(lines) && p.nread + |LinesText(lines)| <= MAX_HEADER_SIZE
    ensures Told(p, q, LinesFlags(lines, p.flags), LinesLength(lines, p.contentLength), p.nread + |LinesText(lines)|)
    ensures C.Reaches(p, LinesText(lines), q, LinesAtoms(lines))
    decreases |lines|, 0
  {
    hide C.Reaches, GoodLines, GoodLine, LinesText, LinesAtoms, LinesFlags, LinesLength, LineText, LineAtoms, FlagsOf,
      LengthOf, Valid, Told, Placed;
    if lines == [] {
      q := p;
      NothingToRead(p);
    } else {
      LinesSplit(lines, p.flags, p.contentLength);
      var l, more := lines[0], lines[1..];
      var r := OneLine(p, l);
      var f, n, at := FlagsOf(l, p.flags), LengthOf(l, p.contentLength), p.nread + |LineText(l.name, l.value)|;
      ToldIsValid(p, r, f, n, at);
      q := MoreLines(p, l, more, r);
    }
  }

  lemma MoreLines(p: Parser, l: Line, more: seq<Line>, r: Parser) returns (q: Parser)
    requires Valid(p) && GoodLine(l) && GoodLines(more)
    requires Told(p, r, FlagsOf(l, p.flags), LengthOf(l, p.contentLength), p.nread + |LineText(l.name, l.value)|)
    requires r.state.HeaderValueLws? && C.Reaches(p, LineText(l.name, l.value), r, LineAtoms(l))
    requires p.nread + |LineText(l.name, l.value)| + |LinesText(more)| <= MAX_HEADER_SIZE
    ensures Told(p, q, LinesFlags(more, FlagsOf(l, p.flags)), LinesLength(more, LengthOf(l, p.contentLength)),
                 p.nread + |LineText(l.name, l.value)| + |LinesText(more)|)
    ensures C.Reaches(p, LineText(l.name, l.value) + LinesText(more), q, LineAtoms(l) + LinesAtoms(more))
    decreases |more|, 1
  {
    hide C.Reaches, GoodLines, GoodLine, LinesText, LinesAtoms, LinesFlags, LinesLength, LineText, LineAtoms, FlagsOf,
      LengthOf, Valid, Told, Placed;
    var f, n, at := FlagsOf(l, p.flags), LengthOf(l, p.contentLength), p.nread + |LineText(l.name, l.value)|;
    var text, atoms := LineText(l.name, l.value), LineAtoms(l);
    ToldIsValid(p, r, f, n, at);
    if more == [] {
      q := r;
      NoLines();
      NoLinesSay(f, n);
      assert text + [] == text && atoms + [] == atoms;
    } else {
      var s := r.(state := HeaderFieldStart);
      q := LinesAreRead(s, more);
      ToldOn(p, r, f, n, at, q, LinesFlags(more, f), LinesLength(more, n), at + |LinesText(more)|);
      TextBegins(more);
      NextLine(r, LinesText(more), q, LinesAtoms(more));
      C.Compose(p, text, r, atoms, LinesText(more), q, LinesAtoms(more));
    }
  }

  lemma ToldOn(p: Parser, r: Parser, f: Flags, n: nat, at: nat, q: Parser, g: Flags, m: nat, end: nat)
    requires Told(p, r, f, n, at) && Told(r.(state := HeaderFieldStart), q, g, m, end)
    ensures Told(p, q, g, m, end)
  {
  }

  lemma NothingToRead(p: Parser)
    requires Valid(p) && p.state.HeaderFieldStart?
    ensures Told(p, p, LinesFlags([], p.flags), LinesLength([], p.contentLength), p.nread + |LinesText([])|)
    ensures C.Reaches(p, LinesText([]), p, LinesAtoms([]))
  {
    hide Step, StateOk;
  }

  lemma NoLines()
    ensures LinesText([]) == [] && LinesAtoms([]) == []
  {
  }

  lemma NoLinesSay(f: Flags, n: nat)
    ensures GoodLines([]) && LinesFlags([], f) == f && LinesLength([], n) == n
  {
  }

  // ---------------------------------------------------------------- the request line

  function Version(minor: nat): seq<Byte>
    requires minor <= 9
  {
    [72, 84, 84, 80, 47, 49, 46, 48 + minor, CR, LF]
  }

  function VersionAt(p: Parser, minor: nat, k: nat): Parser
    requires k <= 10
  {
    var s := [ReqHttpStart, ReqHttpH, ReqHttpHT, ReqHttpHTT, ReqHttpHTTP, ReqFirstHttpMajor, ReqHttpMajor,
              ReqFirstHttpMinor, ReqHttpMinor, ReqLineAlmostDone, HeaderFieldStart][k];
    p.(state := s, nread := p.nread + k, httpMajor := if k < 6 then p.httpMajor else 1,
    httpMinor := if k < 8 then p.httpMinor else minor)
  }

  lemma VersionOk(p: Parser, minor: nat, k: nat)
    requires Valid(p) && p.state.ReqHttpStart? && minor <= 9 && k < 10 && p.nread + k < MAX_HEADER_SIZE
    ensures var q := VersionAt(p, minor, k);
            Valid(q) && MidByte(Count(q)) && Count(q) == q.(nread := p.nread + k + 1)
  {
  }

  lemma WordStep(p: Parser, minor: nat, k: nat)
    requires Valid(p) && p.state.ReqHttpStart? && minor <= 9 && k < 5 && p.nread + k < MAX_HEADER_SIZE
    ensures C.Reaches(VersionAt(p, minor, k), [Version(minor)[k]], VersionAt(p, minor, k + 1), [])
  {
    VersionOk(p, minor, k);
    var q, ch := VersionAt(p, minor, k), Version(minor)[k];
    hide Run, StateOk;
    C.OneByte(q, ch);
    assert Switch(Count(q), ch) == PassHttpWord(Count(q), ch);
    hide Switch;
  }

  lemma MajorStep(p: Parser, minor: nat, k: nat)
    requires Valid(p) && p.state.ReqHttpStart? && minor <= 9 && 5 <= k < 7 && p.nread + k < MAX_HEADER_SIZE
    ensures C.Reaches(VersionAt(p, minor, k), [Version(minor)[k]], VersionAt(p, minor, k + 1), [])
  {
    VersionOk(p, minor, k);
    var q, ch := VersionAt(p, minor, k), Version(minor)[k];
    hide Run, StateOk;
    C.OneByte(q, ch);
    assert Switch(Count(q), ch) == PassMajor(Count(q), ch);
    hide Switch;
  }

  lemma MinorStep(p: Parser, minor: nat, k: nat)
    requires Valid(p) && p.state.ReqHttpStart? && minor <= 9 && 7 <= k < 10 && p.nread + k < MAX_HEADER_SIZE
    ensures C.Reaches(VersionAt(p, minor, k), [Version(minor)[k]], VersionAt(p, minor, k + 1), [])
  {
    VersionOk(p, minor, k);
    var q, ch := VersionAt(p, minor, k), Version(minor)[k];
    hide Run, StateOk;
    C.OneByte(q, ch);
    assert Switch(Count(q), ch) == PassMinor(Count(q), ch);
    hide Switch;
  }

  lemma {:induction false} VersionRun(p: Parser, minor: nat, k: nat)
    requires Valid(p) && p.state.ReqHttpStart? && minor <= 9 && k <= 10 && p.nread + 10 <= MAX_HEADER_SIZE
    ensures C.Reaches(VersionAt(p, minor, k), Version(minor)[k..], VersionAt(p, minor, 10), [])
    decreases 10 - k
  {
    hide C.Reaches, VersionAt, Version, Valid;
    if k == 10 {
      VersionEnds(p, minor);
    } else {
      if k < 5 { WordStep(p, minor, k); } else if k < 7 { MajorStep(p, minor, k); } else { MinorStep(p, minor, k); }
      VersionLength(minor);
      VersionRun(p, minor, k + 1);
      var d := Version(minor);
      C.Compose(VersionAt(p, minor, k), [d[k]], VersionAt(p, minor, k + 1), [], d[k + 1..], VersionAt(p, minor, 10), []);
      assert [d[k]] + d[k + 1..] == d[k..];
      var none: seq<Atom> := [];
      assert none + none == none;
    }
  }

  lemma VersionLength(minor: nat)
    requires minor <= 9
    ensures |Version(minor)| == 10
  {
  }

  lemma VersionEnds(p: Parser, minor: nat)
    requires Valid(p) && p.state.ReqHttpStart? && minor <= 9 && p.nread + 10 <= MAX_HEADER_SIZE
    ensures Version(minor)[10..] == [] && C.Reaches(VersionAt(p, minor, 10), [], VersionAt(p, minor, 10), [])
  {
    hide Step;
  }

  function RequestLine(v: Method, target: seq<Byte>, minor: nat): seq<Byte>
    requires M.Word(MethodText(v)) && minor <= 9
  {
    M.Line(MethodText(v)) + (target + [SP]) + Version(minor)
  }

  /** A request that the server can be sent: a method it knows and a target that it accepts. */
  predicate GoodRequest(v: Method, target: seq<Byte>, minor: nat) {
    && v != MSEARCH && minor <= 9
    && 0 < |target| < U.U16 && U.ParseUrl(target, v == CONNECT).Some?
  }

  /** The parser s, once a request line of n bytes has been read. */
  function AfterLine(s: Parser, v: Method, n: nat, minor: nat): Parser {
    s.(state := HeaderFieldStart, index := |MethodText(v)| + 1, nread := s.nread + n, contentLength := ULLONG_MAX,
    httpMajor := 1, httpMinor := minor, verb := v, flags := NO_FLAGS)
  }

  lemma RequestLineIsRead(s: Parser, v: Method, target: seq<Byte>, minor: nat)
    requires Valid(s) && s.state.StartReq? && GoodRequest(v, target, minor)
    ensures M.Word(MethodText(v))
    ensures var line := RequestLine(v, target, minor);
            s.nread + |line| <= MAX_HEADER_SIZE ==>
              C.Reaches(s, line, AfterLine(s, v, |line|, minor), [Note(MessageBegin)] + Tag(Url, target))
  {
    hide C.Reaches, MethodText, Version, VersionAt, StateOk, Run;
    M.TextIsWord(v);
    var n, line := |MethodText(v)| + 1, RequestLine(v, target, minor);
    VersionLength(minor);
    assert |line| == n + |target| + 11;
    if s.nread + |line| <= MAX_HEADER_SIZE {
      var p := M.WithMethod(s, v);
      var q := p.(state := ReqHttpStart, nread := p.nread + |target| + 1);
      MethodReaches(s, v);
      IndexFits(v);
      TargetReaches(p, target);
      C.Compose(s, M.Line(MethodText(v)), p, [Note(MessageBegin)], target + [SP], q, Tag(Url, target));
      LineOk(s, q);
      VersionRun(q, minor, 0);
      VersionWhole(q, minor);
      Behind(s, M.Line(MethodText(v)) + (target + [SP]), q, [Note(MessageBegin)] + Tag(Url, target),
             Version(minor), VersionAt(q, minor, 10));
      AfterVersion(v, q, minor);
    }
  }

  lemma IndexFits(v: Method)
    ensures |MethodText(v)| <= 11
  {
  }

  lemma MethodReaches(s: Parser, v: Method)
    requires Valid(s) && s.state.StartReq? && v != MSEARCH && s.nread + |MethodText(v)| < MAX_HEADER_SIZE
    ensures M.Word(MethodText(v)) && C.Reaches(s, M.Line(MethodText(v)), M.WithMethod(s, v), [Note(MessageBegin)])
  {
    hide MethodText, Step, StateOk, Run;
    M.MethodIsRead(s, v);
  }

  lemma TargetReaches(p: Parser, target: seq<Byte>)
    requires p.errno == OK && p.state.ReqSpacesBeforeUrl? && p.index <= 20 && p.contentLength <= ULLONG_MAX
    requires p.httpMajor <= 999 && p.httpMinor <= 999
    requires 0 < |target| < U.U16 && U.ParseUrl(target, p.verb == CONNECT).Some? && p.nread + |target| + 1 <= MAX_HEADER_SIZE
    ensures C.Reaches(p, target + [SP], p.(state := ReqHttpStart, nread := p.nread + |target| + 1), Tag(Url, target))
  {
    hide Step, Run, U.ParseUrl;
    U.WholeTarget(p, target);
  }

  lemma LineOk(s: Parser, q: Parser)
    requires Valid(s) && q.state.ReqHttpStart? && q.errno == OK && q.index <= 20 && q.contentLength <= ULLONG_MAX
    requires q.httpMajor == s.httpMajor && q.httpMinor == s.httpMinor && q.nread <= MAX_HEADER_SIZE
    ensures Valid(q)
  {
  }

  lemma VersionWhole(q: Parser, minor: nat)
    requires minor <= 9 && q.state.ReqHttpStart?
    ensures VersionAt(q, minor, 0) == q && Version(minor)[0..] == Version(minor)
  {
  }

  lemma AfterVersion(v: Method, q: Parser, minor: nat)
    requires minor <= 9 && q.state.ReqHttpStart?
    ensures VersionAt(q, minor, 10) == q.(state := HeaderFieldStart, nread := q.nread + 10, httpMajor := 1, httpMinor := minor)
  {
  }

  // ---------------------------------------------------------------- the end of the head

  /** Whether the connection is to be kept, from the version and the Connection lines. */
  predicate Keeps(minor: nat, f: Flags) { if minor > 0 then !f.close else f.keepAlive }

  function AtRest(minor: nat, f: Flags): State { if Keeps(minor, f) then StartReq else Dead }

  predicate NoLength(n: nat) { n == 0 || n == ULLONG_MAX }

  /** Where the parser goes on after the empty line. */
  function AfterHead(minor: nat, f: Flags, length: nat): State {
    if f.chunked then ChunkSizeStart else if NoLength(length) then AtRest(minor, f) else BodyIdentity
  }

  function HeadNotes(f: Flags, n: nat, length: nat): seq<Atom> {
    [Note(HeadersComplete(n, length))] + if !f.chunked && NoLength(length) then [Note(MessageComplete)] else []
  }

  /** A request for another protocol on the connection. */
  predicate Tunnel(v: Method, f: Flags) { v == CONNECT || f.upgrade }

  /** A parser at the end of a header line. */
  predicate Heading(q: Parser, minor: nat) {
    && Valid(q) && (q.state.HeaderFieldStart? || q.state.HeaderValueLws?)
    && q.httpMajor == 1 && q.httpMinor == minor && !q.flags.trailing
  }

  lemma HeadCr(q: Parser)
    requires Valid(q) && q.state.HeaderFieldStart? && q.nread < MAX_HEADER_SIZE
    ensures C.Reaches(q, [CR], q.(state := HeadersAlmostDone, nread := q.nread + 1), [])
  {
    StartOk(q);
    hide Run, StateOk;
    C.OneByte(q, CR);
    assert Switch(Count(q), CR) == PassFieldStart(Count(q), CR);
    hide Switch;
  }

  lemma AlmostOk(q: Parser, n: nat)
    requires Valid(q) && n < MAX_HEADER_SIZE
    ensures var r := q.(state := HeadersAlmostDone, nread := n);
            Valid(r) && MidByte(Count(r)) && Count(r) == r.(nread := n + 1)
  {
  }

  lemma HeadLf(q: Parser, minor: nat, n: nat)
    requires Heading(q, minor) && n < MAX_HEADER_SIZE && !Tunnel(q.verb, q.flags)
    ensures C.Reaches(q.(state := HeadersAlmostDone, nread := n), [LF],
                      q.(state := AfterHead(minor, q.flags, q.contentLength), nread := 0, upgrade := false),
                      HeadNotes(q.flags, n + 1, q.contentLength))
  {
    AlmostOk(q, n);
    var r := q.(state := HeadersAlmostDone, nread := n);
    var done := Count(r).(state := HeadersDone, upgrade := false);
    DoneOk(q, n);
    hide Run, StateOk, AfterHead, HeadNotes;
    C.OneByte(r, LF);
    assert Switch(Count(r), LF) == PassHeadersAlmostDone(Count(r), LF);
    assert Switch(done, LF) == PassHeadersDone(done, LF);
    hide Switch;
    LastPass(q, minor, n, done);
    var e := StepPasses(done, LF);
    assert Step(r, LF) == Effect(e.parser, [Note(HeadersComplete(n + 1, q.contentLength))] + e.atoms, e.status);
  }

  lemma DoneOk(q: Parser, n: nat)
    requires Valid(q) && n < MAX_HEADER_SIZE
    ensures MidByte(q.(state := HeadersDone, nread := n + 1, upgrade := false))
  {
  }

  lemma LastPass(q: Parser, minor: nat, n: nat, done: Parser)
    requires Heading(q, minor) && n < MAX_HEADER_SIZE && MidByte(done) && !Tunnel(q.verb, q.flags)
    requires done == q.(state := HeadersDone, nread := n + 1, upgrade := false)
    requires Switch(done, LF) == PassHeadersDone(done, LF)
    ensures var e := StepPasses(done, LF);
            && e.status.Running?
            && e.parser == q.(state := AfterHead(minor, q.flags, q.contentLength), nread := 0, upgrade := false)
            && [Note(HeadersComplete(n + 1, q.contentLength))] + e.atoms == HeadNotes(q.flags, n + 1, q.contentLength)
  {
    hide Switch, StateOk;
    var r := PassHeadersDone(done, LF);
    assert r.control.Break?;
    assert Collected(r.parser.state, LF) == [];
    assert Noted(r.notice) + [] == Noted(r.notice);
  }

  /** The empty line that ends the head. */
  lemma HeadEnds(q: Parser, minor: nat)
    requires Heading(q, minor) && q.nread + 2 <= MAX_HEADER_SIZE && !Tunnel(q.verb, q.flags)
    ensures C.Reaches(q, C.CRLF, q.(state := AfterHead(minor, q.flags, q.contentLength), nread := 0, upgrade := false),
                      HeadNotes(q.flags, q.nread + 2, q.contentLength))
  {
    hide C.Reaches, Heading, Valid, AfterHead, HeadNotes;
    HeadingStarts(q, minor);
    var s, n := q.(state := HeaderFieldStart), q.nread + 1;
    HeadCr(s);
    HeadLf(q, minor, n);
    var r, end, notes := q.(state := HeadersAlmostDone, nread := n),
                         q.(state := AfterHead(minor, q.flags, q.contentLength), nread := 0, upgrade := false),
                         HeadNotes(q.flags, n + 1, q.contentLength);
    assert s.(state := HeadersAlmostDone, nread := n) == r;
    TwoNoted(s, r, end, notes);
    if q.state.HeaderValueLws? {
      NextLine(q, C.CRLF, end, notes);
    } else {
      assert s == q;
    }
  }

  lemma TwoNoted(p: Parser, q: Parser, r: Parser, notes: seq<Atom>)
    requires C.Reaches(p, [CR], q, []) && C.Reaches(q, [LF], r, notes)
    ensures C.Reaches(p, C.CRLF, r, notes)
  {
    hide C.Reaches;
    C.Compose(p, [CR], q, [], [LF], r, notes);
    assert [CR] + [LF] == C.CRLF && [] + notes == notes;
  }

  lemma HeadingStarts(q: Parser, minor: nat)
    requires Heading(q, minor)
    ensures Valid(q) && Valid(q.(state := HeaderFieldStart)) && (q.state.HeaderFieldStart? || q.state.HeaderValueLws?)
  {
  }

  // ---------------------------------------------------------------- whole heads

  function Head(v: Method, target: seq<Byte>, minor: nat, lines: seq<Line>): seq<Byte>
    requires M.Word(MethodText(v)) && minor <= 9
  {
    RequestLine(v, target, minor) + LinesText(lines) + C.CRLF
  }

  /** The request and its lines, short enough for the parser. */
  predicate AnyHead(v: Method, target: seq<Byte>, minor: nat, lines: seq<Line>) {
    && GoodRequest(v, target, minor) && GoodLines(lines) && M.Word(MethodText(v))
    && |Head(v, target, minor, lines)| <= MAX_HEADER_SIZE
  }

  /** The head of an ordinary request. */
  predicate GoodHead(v: Method, target: seq<Byte>, minor: nat, lines: seq<Line>) {
    AnyHead(v, target, minor, lines) && !Tunnel(v, LinesFlags(lines, NO_FLAGS))
  }

  function HeadAtoms(target: seq<Byte>, lines: seq<Line>, n: nat): seq<Atom>
    requires GoodLines(lines)
  {
    [Note(MessageBegin)] + Tag(Url, target) + LinesAtoms(lines)
    + HeadNotes(LinesFlags(lines, NO_FLAGS), n, LinesLength(lines, ULLONG_MAX))
  }

  lemma {:induction false} NeverTrailing(lines: seq<Line>, f: Flags)
    ensures LinesFlags(lines, f).trailing == f.trailing
    decreases |lines|
  {
    if lines != [] {
      NeverTrailing(lines[1..], FlagsOf(lines[0], f));
      hide IsName, Says;
    }
  }

  lemma ToldIsHeading(p: Parser, q: Parser, f: Flags, length: nat, n: nat, minor: nat)
    requires Valid(p) && Told(p, q, f, length, n) && Heading(p, minor) && !f.trailing
    ensures Heading(q, minor) && q.nread == n && q.flags == f && q.contentLength == length
    ensures q.verb == p.verb && q.httpMajor == 1 && q.httpMinor == minor && q.errno == OK
  {
    ToldIsValid(p, q, f, length, n);
    hide Valid;
  }

  lemma AfterLineOk(s: Parser, v: Method, n: nat, minor: nat)
    requires Valid(s) && minor <= 9 && s.nread + n <= MAX_HEADER_SIZE
    ensures Heading(AfterLine(s, v, n, minor), minor) && AfterLine(s, v, n, minor).state.HeaderFieldStart?
    ensures Valid(AfterLine(s, v, n, minor))
  {
    VerbLengthIsTextLength(v);
    assert VerbLength(v) <= 11;
    hide MethodText, VerbLength;
  }

  /** The request line and the header lines, from any parser that waits for a request. */
  lemma LinesOfHead(s: Parser, v: Method, target: seq<Byte>, minor: nat, lines: seq<Line>) returns (r: Parser)
    requires Valid(s) && s.state.StartReq? && AnyHead(v, target, minor, lines)
    requires s.nread + |Head(v, target, minor, lines)| <= MAX_HEADER_SIZE
    ensures Heading(r, minor) && r.flags == LinesFlags(lines, NO_FLAGS) && r.contentLength == LinesLength(lines, ULLONG_MAX)
    ensures r.nread + 2 == s.nread + |Head(v, target, minor, lines)| && r.verb == v && r.errno == OK
    ensures C.Reaches(s, RequestLine(v, target, minor) + LinesText(lines), r,
                      [Note(MessageBegin)] + Tag(Url, target) + LinesAtoms(lines))
  {
    hide C.Reaches, GoodLines, LinesText, LinesAtoms, LinesFlags, LinesLength, RequestLine, Told, Valid, Heading, MethodText,
      U.ParseUrl;
    var line, text := RequestLine(v, target, minor), LinesText(lines);
    assert |Head(v, target, minor, lines)| == |line| + |text| + 2;
    RequestLineIsRead(s, v, target, minor);
    var p := AfterLine(s, v, |line|, minor);
    AfterLineOk(s, v, |line|, minor);
    assert p.flags == NO_FLAGS && p.contentLength == ULLONG_MAX && p.nread == s.nread + |line| && p.verb == v;
    r := LinesAreRead(p, lines);
    NeverTrailing(lines, NO_FLAGS);
    var f, length, n := LinesFlags(lines, NO_FLAGS), LinesLength(lines, ULLONG_MAX), s.nread + |line| + |text|;
    ToldIsHeading(p, r, f, length, n, minor);
    C.Compose(s, line, p, [Note(MessageBegin)] + Tag(Url, target), text, r, LinesAtoms(lines));
  }

  /**
   Any head of an ordinary request, from any parser that waits for one, whatever came before: it takes all of the
   head and stands where the lines say: at a chunk size, at a counted body, or at the end of the message, where it
   waits for the next request or for the connection to close.
   */
  lemma HeadIsRead(s: Parser, v: Method, target: seq<Byte>, minor: nat, lines: seq<Line>) returns (q: Parser)
    requires Valid(s) && s.state.StartReq? && GoodHead(v, target, minor, lines)
    requires s.nread + |Head(v, target, minor, lines)| <= MAX_HEADER_SIZE
    ensures var f, length := LinesFlags(lines, NO_FLAGS), LinesLength(lines, ULLONG_MAX);
            && q.state == AfterHead(minor, f, length) && q.flags == f && q.contentLength == length && q.nread == 0
            && q.verb == v && q.httpMajor == 1 && q.httpMinor == minor && !q.upgrade && q.errno == OK
    ensures var head := Head(v, target, minor, lines);
            C.Reaches(s, head, q, HeadAtoms(target, lines, s.nread + |head|))
  {
    hide C.Reaches, GoodLines, LinesText, LinesAtoms, LinesFlags, LinesLength, RequestLine, AfterHead, HeadNotes, Valid,
      AnyHead, MethodText;
    SmallMinor(v, target, minor, lines);
    var r := LinesOfHead(s, v, target, minor, lines);
    HeadEnds(r, minor);
    q := r.(state := AfterHead(minor, r.flags, r.contentLength), nread := 0, upgrade := false);
    C.Compose(s, RequestLine(v, target, minor) + LinesText(lines), r,
              [Note(MessageBegin)] + Tag(Url, target) + LinesAtoms(lines), C.CRLF, q,
              HeadNotes(r.flags, r.nread + 2, r.contentLength));
  }

  lemma SmallMinor(v: Method, target: seq<Byte>, minor: nat, lines: seq<Line>)
    requires AnyHead(v, target, minor, lines)
    ensures minor <= 9 && M.Word(MethodText(v)) && GoodLines(lines)
  {
    hide U.ParseUrl, Head;
  }

  // ---------------------------------------------------------------- the end of a tunnel's head

  lemma TunnelLf(q: Parser, minor: nat, n: nat, rest: seq<Byte>)
    requires Heading(q, minor) && n < MAX_HEADER_SIZE && Tunnel(q.verb, q.flags)
    ensures Valid(q.(state := HeadersAlmostDone, nread := n))
    ensures var t := Run(q.(state := HeadersAlmostDone, nread := n), [LF] + rest);
            && t.status.Left? && t.consumed == 1
            && t.parser == q.(state := AtRest(minor, q.flags), nread := 0, upgrade := true)
            && t.atoms == [Note(HeadersComplete(n + 1, q.contentLength)), Note(MessageComplete)]
  {
    AlmostOk(q, n);
    var r := q.(state := HeadersAlmostDone, nread := n);
    var done := Count(r).(state := HeadersDone, upgrade := true);
    TunnelOk(q, n);
    hide StateOk, AtRest;
    assert Switch(Count(r), LF) == PassHeadersAlmostDone(Count(r), LF);
    assert Switch(done, LF) == PassHeadersDone(done, LF);
    hide Switch;
    LastTunnelPass(q, minor, n, done);
    var e := StepPasses(done, LF);
    assert Step(r, LF) == Effect(e.parser, [Note(HeadersComplete(n + 1, q.contentLength))] + e.atoms, e.status);
    hide Step;
    assert ([LF] + rest)[0] == LF;
  }

  lemma TunnelOk(q: Parser, n: nat)
    requires Valid(q) && n < MAX_HEADER_SIZE
    ensures MidByte(q.(state := HeadersDone, nread := n + 1, upgrade := true))
  {
  }

  lemma LastTunnelPass(q: Parser, minor: nat, n: nat, done: Parser)
    requires Heading(q, minor) && n < MAX_HEADER_SIZE && MidByte(done)
    requires done == q.(state := HeadersDone, nread := n + 1, upgrade := true)
    requires Switch(done, LF) == PassHeadersDone(done, LF)
    ensures StepPasses(done, LF) ==
            Effect(q.(state := AtRest(minor, q.flags), nread := 0, upgrade := true), [Note(MessageComplete)], Left)
  {
    hide Switch, StateOk;
    var r := PassHeadersDone(done, LF);
    assert r.control.Leave?;
  }

  /**
   CONNECT, or a request with an Upgrade line: the call ends with the head, the message is complete, upgrade is
   set, and what follows on the connection is left to the caller.
   */
  lemma TunnelLeaves(s: Parser, v: Method, target: seq<Byte>, minor: nat, lines: seq<Line>, rest: seq<Byte>)
    requires Valid(s) && s.state.StartReq? && AnyHead(v, target, minor, lines) && Tunnel(v, LinesFlags(lines, NO_FLAGS))
    requires s.nread + |Head(v, target, minor, lines)| <= MAX_HEADER_SIZE
    ensures var head, length := Head(v, target, minor, lines), LinesLength(lines, ULLONG_MAX);
            var r := Execute(s, head + rest);
            && r.consumed == |head| && r.parser.errno == OK && r.parser.upgrade
            && r.parser.state == AtRest(minor, LinesFlags(lines, NO_FLAGS))
            && Flatten(r.log) == [Note(MessageBegin)] + Tag(Url, target) + LinesAtoms(lines)
                                 + [Note(HeadersComplete(s.nread + |head|, length)), Note(MessageComplete)]
  {
    hide C.Reaches, GoodLines, LinesText, LinesAtoms, LinesFlags, LinesLength, RequestLine, AtRest, Valid, AnyHead, MethodText,
      Execute, Run, Flatten;
    SmallMinor(v, target, minor, lines);
    var r := LinesOfHead(s, v, target, minor, lines);
    var text, begin := RequestLine(v, target, minor) + LinesText(lines),
                       [Note(MessageBegin)] + Tag(Url, target) + LinesAtoms(lines);
    HeadingStarts(r, minor);
    var start, n := r.(state := HeaderFieldStart), r.nread + 1;
    var q := r.(state := HeadersAlmostDone, nread := n);
    HeadCr(start);
    assert start.(state := HeadersAlmostDone, nread := n) == q;
    if r.state.HeaderValueLws? {
      NextLine(r, [CR], q, []);
    } else {
      assert start == r;
    }
    Behind(s, text, r, begin, [CR], q);
    TunnelLf(r, minor, n, rest);
    TunnelWhole(s, text + [CR], q, begin, [LF] + rest);
    assert text + [CR] + ([LF] + rest) == Head(v, target, minor, lines) + rest;
    ExecuteRefinesRun(s, Head(v, target, minor, lines) + rest);
  }

  lemma TunnelWhole(s: Parser, d: seq<Byte>, q: Parser, atoms: seq<Atom>, more: seq<Byte>)
    requires C.Reaches(s, d, q, atoms) && Valid(q)
    ensures var t, u := Run(s, d + more), Run(q, more);
            t.status == u.status && t.consumed == |d| + u.consumed && t.parser == u.parser && t.atoms == atoms + u.atoms
  {
    hide Step, StateOk;
    RunConcat(s, d, more);
  }

  // ---------------------------------------------------------------- what the wrapper sees

  lemma {:induction false} LinesView(lines: seq<Line>, start: nat)
    ensures Octets(LinesAtoms(lines), Url) == [] && Octets(LinesAtoms(lines), Body) == []
    ensures Length(LinesAtoms(lines), start) == start && Note(MessageComplete) !in LinesAtoms(lines)
    decreases |lines|
  {
    if lines != [] {
      var l, more := lines[0], lines[1..];
      var a, b := Tag(Field, l.name), Tag(Value, l.value);
      assert LinesAtoms(lines) == a + b + LinesAtoms(more);
      LinesView(more, start);
      hide LinesAtoms, LineAtoms, Octets, Length;
      Quiet(a, b, LinesAtoms(more), Field, l.name, Value, l.value, start);
    }
  }

  lemma Quiet(a: seq<Atom>, b: seq<Atom>, c: seq<Atom>, k: Kind, name: seq<Byte>, j: Kind, value: seq<Byte>, start: nat)
    requires a == Tag(k, name) && b == Tag(j, value) && k.Field? && j.Value?
    requires Octets(c, Url) == [] && Octets(c, Body) == [] && Length(c, start) == start && Note(MessageComplete) !in c
    ensures Octets(a + b + c, Url) == [] && Octets(a + b + c, Body) == [] && Length(a + b + c, start) == start
    ensures Note(MessageComplete) !in a + b + c
  {
    hide Octets, Length, Tag;
    TagView(k, name, Url, start);
    TagView(k, name, Body, start);
    TagView(j, value, Url, start);
    TagView(j, value, Body, start);
    OctetsConcat(a, b, Url);
    OctetsConcat(a, b, Body);
    OctetsConcat(a + b, c, Url);
    OctetsConcat(a + b, c, Body);
    LengthConcat(a, b, start);
    LengthConcat(a + b, c, start);
    var none: seq<Byte> := [];
    assert none + none == none;
  }

  lemma NotesView(f: Flags, n: nat, length: nat)
    ensures var notes := HeadNotes(f, n, length);
            && Octets(notes, Url) == [] && Octets(notes, Body) == []
            && Length(notes, 0) == (n + length % UINT32) % UINT32
            && (Note(MessageComplete) in notes <==> !f.chunked && NoLength(length))
  {
    var first, last := HeadersComplete(n, length), MessageComplete;
    NoteView(first, 0, Url);
    NoteView(first, 0, Body);
    NoteView(last, Length([Note(first)], 0), Url);
    NoteView(last, Length([Note(first)], 0), Body);
    OctetsConcat([Note(first)], [Note(last)], Url);
    OctetsConcat([Note(first)], [Note(last)], Body);
    LengthConcat([Note(first)], [Note(last)], 0);
    hide Octets, Length;
    assert [Note(first)] + [] == [Note(first)];
    var none: seq<Byte> := [];
    assert none + none == none;
  }

  lemma HeadView(target: seq<Byte>, lines: seq<Line>, n: nat)
    requires GoodLines(lines)
    ensures var f, length := LinesFlags(lines, NO_FLAGS), LinesLength(lines, ULLONG_MAX);
            var atoms := HeadAtoms(target, lines, n);
            && Octets(atoms, Url) == target && Octets(atoms, Body) == []
            && Length(atoms, 0) == (n + length % UINT32) % UINT32
            && (Note(MessageComplete) in atoms <==> !f.chunked && NoLength(length))
  {
    hide Octets, Length, Tag, GoodLines, LinesFlags, LinesLength, LinesAtoms, HeadNotes;
    var f, length := LinesFlags(lines, NO_FLAGS), LinesLength(lines, ULLONG_MAX);
    var begin: seq<Atom> := [Note(MessageBegin)];
    var url, text, notes := Tag(Url, target), LinesAtoms(lines), HeadNotes(f, n, length);
    NoteView(MessageBegin, 0, Url);
    NoteView(MessageBegin, 0, Body);
    TagView(Url, target, Url, 0);
    TagView(Url, target, Body, 0);
    LinesView(lines, 0);
    NotesView(f, n, length);
    Joins(begin, url, text, notes, Url);
    Joins(begin, url, text, notes, Body);
    var none: seq<Byte> := [];
    assert none + none == none && none + target == target && target + none == target;
    NotIn(begin, url, text, notes);
  }

  lemma Joins(a: seq<Atom>, b: seq<Atom>, c: seq<Atom>, d: seq<Atom>, k: Kind)
    ensures Octets(a + b + c + d, k) == Octets(a, k) + Octets(b, k) + Octets(c, k) + Octets(d, k)
    ensures Length(a + b + c + d, 0) == Length(d, Length(c, Length(b, Length(a, 0))))
  {
    hide Octets, Length;
    OctetsConcat(a, b, k);
    OctetsConcat(a + b, c, k);
    OctetsConcat(a + b + c, d, k);
    LengthConcat(a, b, 0);
    LengthConcat(a + b, c, 0);
    LengthConcat(a + b + c, d, 0);
  }

  lemma NotIn(a: seq<Atom>, b: seq<Atom>, c: seq<Atom>, d: seq<Atom>)
    requires Note(MessageComplete) !in a && Note(MessageComplete) !in b && Note(MessageComplete) !in c
    ensures Note(MessageComplete) in a + b + c + d <==> Note(MessageComplete) in d
  {
  }

  // ---------------------------------------------------------------- requests

  lemma ViewOf(buf: seq<Byte>, q: Parser, atoms: seq<Atom>)
    requires C.Reaches(Init(), buf, q, atoms) && buf != []
    ensures Parse(buf) == View(Note(MessageComplete) in atoms, Length(atoms, 0), Octets(atoms, Url), Octets(atoms, Body))
    ensures Execute(Init(), buf).parser == q && Execute(Init(), buf).consumed == |buf|
  {
    InitValid();
    assert Run(Init(), buf).status.Running? && Run(Init(), buf).parser == q && Run(Init(), buf).atoms == atoms;
    hide Step, StateOk, Run, Execute, Parse, Octets, Length, Flatten;
    ParseByRun(buf);
    ExecuteRefinesRun(Init(), buf);
  }

  /**
   A request without a body: complete with its head, the target as its URL; and the parser waits for the next
   request, or for the connection to close, as version and Connection lines say.
   */
  lemma BodilessRequest(v: Method, target: seq<Byte>, minor: nat, lines: seq<Line>)
    requires GoodHead(v, target, minor, lines)
    requires !LinesFlags(lines, NO_FLAGS).chunked && NoLength(LinesLength(lines, ULLONG_MAX))
    ensures var head, f := Head(v, target, minor, lines), LinesFlags(lines, NO_FLAGS);
            && Parse(head).readAll && Parse(head).url == target && Parse(head).body == []
            && Execute(Init(), head).parser.errno == OK
            && Execute(Init(), head).parser.state == if Keeps(minor, f) then StartReq else Dead
  {
    hide C.Reaches, Octets, Length, Execute, Parse, HeadAtoms, LinesFlags, LinesLength, Head, GoodRequest;
    SmallMinor(v, target, minor, lines);
    FreshStarts();
    var q := HeadIsRead(Init(), v, target, minor, lines);
    var head := Head(v, target, minor, lines);
    HeadNotEmpty(v, target, minor, lines);
    HeadView(target, lines, |head|);
    ViewOf(head, q, HeadAtoms(target, lines, |head|));
  }

  lemma FreshStarts()
    ensures Valid(Init()) && Init().state.StartReq? && Init().nread == 0
  {
  }

  lemma HeadNotEmpty(v: Method, target: seq<Byte>, minor: nat, lines: seq<Line>)
    requires M.Word(MethodText(v)) && minor <= 9
    ensures Head(v, target, minor, lines) != []
  {
    hide RequestLine, LinesText;
  }

  lemma ReadyForChunks(q: Parser, buf: seq<Byte>, atoms: seq<Atom>)
    requires C.Reaches(Init(), buf, q, atoms) && q.state.ChunkSizeStart? && !q.flags.trailing
    ensures C.AtChunk(q)
  {
    hide Step, StateOk;
  }

  /**
   A request with a chunked body: after its head, what the client writes for any payloads is read as their
   concatenation, the message is complete with the last byte, and the connection is kept or not as the head says.
   */
  lemma ChunkedRequest(v: Method, target: seq<Byte>, minor: nat, lines: seq<Line>, payloads: seq<seq<Byte>>)
    requires GoodHead(v, target, minor, lines) && LinesFlags(lines, NO_FLAGS).chunked
    requires forall d <- payloads :: 0 < |d| < ULLONG_MAX
    ensures var buf, f := Head(v, target, minor, lines) + C.Chunked(payloads), LinesFlags(lines, NO_FLAGS);
            && Parse(buf).readAll && Parse(buf).url == target && Parse(buf).body == T.Join(payloads)
            && Execute(Init(), buf).parser.errno == OK && Execute(Init(), buf).consumed == |buf|
            && Execute(Init(), buf).parser.state == if Keeps(minor, f) then StartReq else Dead
  {
    hide C.Reaches, Octets, Length, Execute, Parse, HeadAtoms, LinesFlags, LinesLength, Head, GoodRequest, C.Chunked,
      C.AtChunk, Tag;
    SmallMinor(v, target, minor, lines);
    FreshStarts();
    var q := HeadIsRead(Init(), v, target, minor, lines);
    NeverTrailing(lines, NO_FLAGS);
    var head, out, body := Head(v, target, minor, lines), C.Chunked(payloads), T.Join(payloads);
    var atoms := HeadAtoms(target, lines, |head|);
    ReadyForChunks(q, head, atoms);
    C.ChunkedRun(q, payloads);
    var more := Tag(Body, body) + [Note(MessageComplete)];
    C.Compose(Init(), head, q, atoms, out, C.Finished(q), more);
    HeadNotEmpty(v, target, minor, lines);
    HeadView(target, lines, |head|);
    BodyAdds(atoms, body, [Note(MessageComplete)]);
    ViewOf(head + out, C.Finished(q), atoms + more);
    FinishedAt(q, minor);
  }

  lemma BodyAdds(atoms: seq<Atom>, body: seq<Byte>, end: seq<Atom>)
    requires Octets(atoms, Body) == [] && Note(MessageComplete) !in atoms && (end == [] || end == [Note(MessageComplete)])
    ensures var all := atoms + (Tag(Body, body) + end);
            && Octets(all, Url) == Octets(atoms, Url) && Octets(all, Body) == body
            && Length(all, 0) == Length(atoms, 0) && (Note(MessageComplete) in all <==> end != [])
  {
    var start := Length(atoms, 0);
    assert Octets([], Url) == [] && Octets([], Body) == [] && Length([], start) == start;
    hide Octets, Length, Tag;
    TagView(Body, body, Url, start);
    TagView(Body, body, Body, start);
    NoteView(MessageComplete, start, Url);
    NoteView(MessageComplete, start, Body);
    var tail := Tag(Body, body) + end;
    OctetsConcat(Tag(Body, body), end, Url);
    OctetsConcat(Tag(Body, body), end, Body);
    LengthConcat(Tag(Body, body), end, start);
    OctetsConcat(atoms, tail, Url);
    OctetsConcat(atoms, tail, Body);
    LengthConcat(atoms, tail, 0);
    assert [] + (body + []) == body && Octets(atoms, Url) + ([] + []) == Octets(atoms, Url);
  }

  lemma FinishedAt(q: Parser, minor: nat)
    requires q.httpMajor == 1 && q.httpMinor == minor && q.errno == OK
    ensures C.Finished(q).state == AtRest(minor, q.flags) && C.Finished(q).errno == OK
  {
  }

  /**
   A request with a length: after its head, the next bytes up to that number are its body, and it is complete if
   and only if all of them are there.
   */
  lemma CountedRequest(v: Method, target: seq<Byte>, minor: nat, lines: seq<Line>, body: seq<Byte>)
    requires GoodHead(v, target, minor, lines) && !LinesFlags(lines, NO_FLAGS).chunked
    requires 0 < |body| <= LinesLength(lines, ULLONG_MAX) < ULLONG_MAX
    ensures var buf, f := Head(v, target, minor, lines) + body, LinesFlags(lines, NO_FLAGS);
            && (Parse(buf).readAll <==> |body| == LinesLength(lines, ULLONG_MAX))
            && Parse(buf).url == target && Parse(buf).body == body
            && (|body| == LinesLength(lines, ULLONG_MAX) ==>
                  Execute(Init(), buf).parser.state == if Keeps(minor, f) then StartReq else Dead)
  {
    hide C.Reaches, Octets, Length, Execute, Parse, HeadAtoms, LinesFlags, LinesLength, Head, GoodRequest, Tag;
    SmallMinor(v, target, minor, lines);
    FreshStarts();
    var q := HeadIsRead(Init(), v, target, minor, lines);
    var head := Head(v, target, minor, lines);
    var atoms := HeadAtoms(target, lines, |head|);
    var end := if |body| == q.contentLength then [Note(MessageComplete)] else [];
    BodyReaches(q, minor, head, atoms, body);
    C.Compose(Init(), head, q, atoms, body, Bulked(q, |body|), Tag(Body, body) + end);
    HeadNotEmpty(v, target, minor, lines);
    HeadView(target, lines, |head|);
    BodyAdds(atoms, body, end);
    ViewOf(head + body, Bulked(q, |body|), atoms + (Tag(Body, body) + end));
  }

  lemma BodyReaches(q: Parser, minor: nat, head: seq<Byte>, atoms: seq<Atom>, body: seq<Byte>)
    requires C.Reaches(Init(), head, q, atoms) && q.state.BodyIdentity? && 0 < |body| <= q.contentLength
    requires q.httpMajor == 1 && q.httpMinor == minor
    ensures C.Reaches(q, body, Bulked(q, |body|),
                      Tag(Body, body) + if |body| == q.contentLength then [Note(MessageComplete)] else [])
    ensures |body| == q.contentLength ==> Bulked(q, |body|).state == AtRest(minor, q.flags)
  {
    hide Step, StateOk;
    assert Valid(q);
    hide Run;
    BulkRun(q, body);
  }

  // ---------------------------------------------------------------- lines that everyone sends

  /** The same letters, in any case. */
  predicate SameLetters(text: string, word: string) {
    && |text| == |word|
    && forall i :: 0 <= i < |text| ==>
         if 'a' <= word[i] <= 'z' then text[i] == word[i] || text[i] as int + 32 == word[i] as int
         else text[i] == word[i] == '-'
  }

  lemma LettersFit(text: string, word: string)
    requires SameLetters(text, word) && word != ""
    ensures forall i :: 0 <= i < |text| ==> text[i] < 256 as char
    ensures IsName(M.Bytes(text), word) && IsFieldName(M.Bytes(text)) && Says(M.Bytes(text), word)
    ensures IsFieldValue(M.Bytes(text))
  {
    var b := M.Bytes(text);
    forall i | 0 <= i < |text|
      ensures Token(b[i]) == word[i] as int && Lower(b[i]) == word[i] as int && b[i] != CR && b[i] != LF && b[i] != SP && b[i] != HT
    {
      assert b[i] == text[i] as int;
      assert if 'a' <= word[i] <= 'z' then text[i] == word[i] || text[i] as int + 32 == word[i] as int
             else text[i] == word[i] == '-';
      LetterFits(b[i], word[i] as int);
    }
    hide Token, Lower, SameLetters;
    assert Lowered(b)[..|word|] == Lowered(b);
  }

  lemma LetterFits(b: Byte, w: int)
    requires if 'a' as int <= w <= 'z' as int then b == w || b + 32 == w else b == w == '-' as int
    ensures Token(b) == w && Lower(b) == w && w != 0 && b != CR && b != LF && b != SP && b != HT
  {
  }

  /** Lines that set a flag, in any case of letters. */
  lemma FlagLines(name: string, value: string, f: Flags)
    requires (SameLetters(name, ENCODING_NAME) && SameLetters(value, "chunked"))
             || (SameLetters(name, CONNECTION_NAME) && (SameLetters(value, "close") || SameLetters(value, "keep-alive")))
    ensures (forall i :: 0 <= i < |name| ==> name[i] < 256 as char) && (forall i :: 0 <= i < |value| ==> value[i] < 256 as char)
    ensures var l := Line(M.Bytes(name), M.Bytes(value));
            && GoodLine(l)
            && (SameLetters(value, "chunked") ==> FlagsOf(l, f) == f.(chunked := true))
            && (SameLetters(value, "close") ==> FlagsOf(l, f) == f.(close := true))
            && (SameLetters(value, "keep-alive") ==> FlagsOf(l, f) == f.(keepAlive := true))
  {
    hide Says, IsName, IsFieldName, IsFieldValue, SameLetters;
    SameLengths(name, value);
    if SameLetters(value, "chunked") {
      LettersFit(name, ENCODING_NAME);
      LettersFit(value, "chunked");
    } else if SameLetters(value, "close") {
      LettersFit(name, CONNECTION_NAME);
      LettersFit(value, "close");
    } else {
      LettersFit(name, CONNECTION_NAME);
      LettersFit(value, "keep-alive");
    }
    NamesDiffer(M.Bytes(name), M.Bytes(value));
  }

  lemma SameLengths(name: string, value: string)
    ensures SameLetters(name, ENCODING_NAME) ==> |name| == 17
    ensures SameLetters(name, CONNECTION_NAME) ==> |name| == 10
    ensures SameLetters(value, "chunked") ==> |value| == 7
    ensures SameLetters(value, "close") ==> |value| == 5
    ensures SameLetters(value, "keep-alive") ==> |value| == 10
  {
  }

  lemma NamesDiffer(name: seq<Byte>, value: seq<Byte>)
    ensures IsName(name, ENCODING_NAME) ==> |name| == 17
    ensures IsName(name, CONNECTION_NAME) ==> |name| == 10
    ensures IsName(name, LENGTH_NAME) ==> |name| == 14
    ensures IsName(name, PROXY_NAME) ==> |name| == 16
    ensures IsName(name, UPGRADE_NAME) ==> |name| == 7
    ensures Says(value, "close") ==> !Says(value, "keep-alive")
  {
    FirstLetterOf(value);
    hide Begins, Tokens, Says;
  }

  lemma FirstLetterOf(value: seq<Byte>)
    ensures Says(value, "close") ==> !Says(value, "keep-alive")
  {
    if |value| >= 1 {
      FirstLetter(value);
    }
    hide Lower, Lowered, Begins;
  }
}
