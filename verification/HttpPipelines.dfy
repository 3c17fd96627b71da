/**
 Requests one after the other on a connection: with or without bodies, in chunks with trailers, with blank lines in
 between. The parser takes them all, and what it calls back for each is what that request says, whatever came before.
 */
module HttpPipelines {
  import opened Basics
  import opened HttpSyntax
  import opened HttpParser
  import opened HttpSplit
  import opened HttpFields
  import opened HttpHeads
  import C = HttpChunked
  import M = HttpMethods
  import T = HttpSplitTheorem

  // ---------------------------------------------------------------- requests

  datatype Content =
    | Nothing
    | Counted(bytes: seq<Byte>)
    | Pieces(payloads: seq<seq<Byte>>, trailers: seq<Line>)

  /** The line ends before a request are skipped. */
  datatype Request =
    Request(before: seq<Byte>, verb: Method, target: seq<Byte>, minor: nat, lines: seq<Line>, content: Content)

  predicate Blank(d: seq<Byte>) { forall i :: 0 <= i < |d| ==> d[i] == CR || d[i] == LF }

  predicate HeadIsGood(r: Request) { GoodHead(r.verb, r.target, r.minor, r.lines) && Blank(r.before) }

  function HeadText(r: Request): seq<Byte>
    requires HeadIsGood(r)
  {
    Head(r.verb, r.target, r.minor, r.lines)
  }

  function HeadFlags(r: Request): Flags { LinesFlags(r.lines, NO_FLAGS) }

  /** The flags at the end of the message: trailers are read like other header lines. */
  function EndFlags(r: Request): Flags {
    if r.content.Pieces? then LinesFlags(r.content.trailers, HeadFlags(r).(trailing := true)) else HeadFlags(r)
  }

  predicate Kept(r: Request) { Keeps(r.minor, EndFlags(r)) }

  predicate ContentFits(c: Content, chunked: bool, length: nat) {
    match c
    case Nothing => !chunked && NoLength(length)
    case Counted(bytes) => !chunked && !NoLength(length) && |bytes| == length
    case Pieces(payloads, trailers) =>
      chunked && (forall d <- payloads :: 0 < |d| < ULLONG_MAX) && GoodLines(trailers)
      && |LinesText(trailers)| + 2 <= MAX_HEADER_SIZE
  }

  predicate Good(r: Request) {
    HeadIsGood(r) && ContentFits(r.content, HeadFlags(r).chunked, LinesLength(r.lines, ULLONG_MAX))
  }

  function ContentText(c: Content): seq<Byte> {
    match c
    case Nothing => []
    case Counted(bytes) => bytes
    case Pieces(payloads, trailers) => C.Chunks(payloads) + C.LAST_CHUNK + LinesText(trailers) + C.CRLF
  }

  function Text(r: Request): seq<Byte>
    requires HeadIsGood(r)
  {
    r.before + HeadText(r) + ContentText(r.content)
  }

  function ContentAtoms(c: Content): seq<Atom> {
    match c
    case Nothing => []
    case Counted(bytes) => Tag(Body, bytes) + [Note(MessageComplete)]
    case Pieces(payloads, trailers) => Tag(Body, T.Join(payloads)) + LinesAtoms(trailers) + [Note(MessageComplete)]
  }

  /** What a request says, n header bytes having been counted before it. */
  function RequestAtoms(r: Request, n: nat): seq<Atom>
    requires HeadIsGood(r)
  {
    HeadAtoms(r.target, r.lines, n + |r.before| + |HeadText(r)|) + ContentAtoms(r.content)
  }

  /** The header bytes still counted when it is over: those of the trailers are not forgotten. */
  function LeftOver(r: Request): nat {
    if r.content.Pieces? then |LinesText(r.content.trailers)| + 2 else 0
  }

  // ---------------------------------------------------------------- line ends before a request

  lemma SkipOne(s: Parser, ch: Byte)
    requires Valid(s) && s.state.StartReq? && (ch == CR || ch == LF) && s.nread < MAX_HEADER_SIZE
    ensures C.Reaches(s, [ch], s.(nread := s.nread + 1), [])
  {
    M.StartIsMidByte(s);
    hide Run, StateOk;
    C.OneByte(s, ch);
    assert Switch(Count(s), ch) == PassStart(Count(s), ch);
    hide Switch;
  }

  lemma {:induction false} Skip(s: Parser, d: seq<Byte>)
    requires Valid(s) && s.state.StartReq? && Blank(d) && s.nread + |d| <= MAX_HEADER_SIZE
    ensures C.Reaches(s, d, s.(nread := s.nread + |d|), []) && Valid(s.(nread := s.nread + |d|))
    decreases |d|
  {
    hide C.Reaches, StateOk;
    if d == [] {
      C.RunsNowhere(s);
      NothingSkipped(s);
    } else {
      var r := s.(nread := s.nread + 1);
      SkipOne(s, d[0]);
      StillStarts(s, r);
      Skip(r, d[1..]);
      C.Compose(s, [d[0]], r, [], d[1..], s.(nread := s.nread + |d|), []);
      assert [d[0]] + d[1..] == d;
      var none: seq<Atom> := [];
      assert none + none == none;
    }
  }

  lemma NothingSkipped(s: Parser)
    requires Valid(s)
    ensures C.Reaches(s, [], s.(nread := s.nread + 0), [])
  {
    hide Step, StateOk;
  }

  lemma StillStarts(s: Parser, r: Parser)
    requires Valid(s) && s.state.StartReq? && r == s.(nread := r.nread) && r.nread <= MAX_HEADER_SIZE
    ensures Valid(r)
  {
  }

  // ---------------------------------------------------------------- trailers

  lemma TrailerLf(q: Parser, minor: nat, n: nat)
    requires Valid(q) && q.flags.trailing && q.httpMajor == 1 && q.httpMinor == minor && n < MAX_HEADER_SIZE
    ensures C.Reaches(q.(state := HeadersAlmostDone, nread := n), [LF],
                      q.(state := AtRest(minor, q.flags), nread := n + 1), [Note(MessageComplete)])
  {
    AlmostOk(q, n);
    var r := q.(state := HeadersAlmostDone, nread := n);
    hide Run, StateOk;
    C.OneByte(r, LF);
    assert Switch(Count(r), LF) == PassHeadersAlmostDone(Count(r), LF);
    hide Switch;
    var e := StepPasses(Count(r), LF);
    assert Collected(e.parser.state, LF) == [];
    assert [Note(MessageComplete)] + [] == [Note(MessageComplete)];
  }

  lemma TrailersEnd(q: Parser, minor: nat)
    requires Valid(q) && (q.state.HeaderFieldStart? || q.state.HeaderValueLws?) && Valid(q.(state := HeaderFieldStart))
    requires q.flags.trailing && q.httpMajor == 1 && q.httpMinor == minor && q.nread + 2 <= MAX_HEADER_SIZE
    ensures C.Reaches(q, C.CRLF, q.(state := AtRest(minor, q.flags), nread := q.nread + 2), [Note(MessageComplete)])
  {
    hide C.Reaches, Valid, AtRest;
    var s, n := q.(state := HeaderFieldStart), q.nread + 1;
    HeadCr(s);
    TrailerLf(q, minor, n);
    var r, end, notes := q.(state := HeadersAlmostDone, nread := n), q.(state := AtRest(minor, q.flags), nread := n + 1),
                         [Note(MessageComplete)];
    assert s.(state := HeadersAlmostDone, nread := n) == r;
    TwoNoted(s, r, end, notes);
    if q.state.HeaderValueLws? {
      NextLine(q, C.CRLF, end, notes);
    } else {
      assert s == q;
    }
  }

  lemma ReadyForTrailers(p: Parser)
    requires C.AtChunk(p)
    ensures var q := C.AfterLastSize(p);
            && Valid(q) && q.state.HeaderFieldStart? && q.nread == 0 && q.flags == p.flags.(trailing := true)
            && q.httpMajor == p.httpMajor && q.httpMinor == p.httpMinor
  {
  }

  lemma {:induction false} TrailingStays(lines: seq<Line>, f: Flags)
    requires f.trailing
    ensures LinesFlags(lines, f).trailing
  {
    NeverTrailing(lines, f);
  }

  /** Chunks, the last of them, trailers and the empty line. */
  lemma PiecesAreRead(p: Parser, minor: nat, payloads: seq<seq<Byte>>, trailers: seq<Line>) returns (q: Parser)
    requires C.AtChunk(p) && p.httpMajor == 1 && p.httpMinor == minor
    requires ContentFits(Pieces(payloads, trailers), true, 0)
    ensures C.Reaches(p, ContentText(Pieces(payloads, trailers)), q, ContentAtoms(Pieces(payloads, trailers)))
    ensures q.state == AtRest(minor, LinesFlags(trailers, p.flags.(trailing := true)))
    ensures q.nread == |LinesText(trailers)| + 2 && Valid(q)
  {
    hide C.Reaches, C.AtChunk, C.Chunks, C.AfterSize, Tag, GoodLines, LinesText, LinesAtoms, LinesFlags, LinesLength, Told, Valid,
      AtRest;
    var s := C.Idle(p, payloads);
    C.AllChunks(p, payloads);
    C.IdleOk(p, payloads);
    C.LastChunk(s);
    ReadyForTrailers(s);
    var t := C.AfterLastSize(s);
    var r := LinesAreRead(t, trailers);
    var f, n := LinesFlags(trailers, t.flags), |LinesText(trailers)|;
    ToldIsValid(t, r, f, LinesLength(trailers, t.contentLength), n);
    TrailingStays(trailers, t.flags);
    ToldKeeps(t, r, f, LinesLength(trailers, t.contentLength), n);
    TrailersEnd(r, minor);
    q := r.(state := AtRest(minor, f), nread := n + 2);
    var body := Tag(Body, T.Join(payloads));
    Behind(p, C.Chunks(payloads), s, body, C.LAST_CHUNK, t);
    C.Compose(p, C.Chunks(payloads) + C.LAST_CHUNK, t, body, LinesText(trailers), r, LinesAtoms(trailers));
    C.Compose(p, C.Chunks(payloads) + C.LAST_CHUNK + LinesText(trailers), r, body + LinesAtoms(trailers), C.CRLF, q,
              [Note(MessageComplete)]);
    EndIsValid(r, f, minor, q);
  }

  lemma ToldKeeps(p: Parser, q: Parser, f: Flags, length: nat, n: nat)
    requires Told(p, q, f, length, n)
    ensures q.httpMajor == p.httpMajor && q.httpMinor == p.httpMinor && q.flags == f && q.nread == n
    ensures q.state.HeaderFieldStart? || q.state.HeaderValueLws?
  {
  }

  lemma EndIsValid(r: Parser, f: Flags, minor: nat, q: Parser)
    requires Valid(r) && q == r.(state := AtRest(minor, f), nread := q.nread) && q.nread <= MAX_HEADER_SIZE
    ensures Valid(q)
  {
  }

  // ---------------------------------------------------------------- one request

  lemma BytesAreRead(p: Parser, minor: nat, bytes: seq<Byte>)
    requires Valid(p) && p.state.BodyIdentity? && p.httpMajor == 1 && p.httpMinor == minor && |bytes| == p.contentLength
    ensures C.Reaches(p, bytes, Bulked(p, |bytes|), ContentAtoms(Counted(bytes)))
    ensures var q := Bulked(p, |bytes|); q.state == AtRest(minor, p.flags) && Valid(q) && q.nread == p.nread
  {
    hide Step;
    LengthNotZero(p);
    hide Run;
    BulkRun(p, bytes);
  }

  lemma LengthNotZero(p: Parser)
    requires Valid(p) && p.state.BodyIdentity?
    ensures 0 < p.contentLength
  {
  }

  lemma ContentIsRead(p: Parser, r: Request) returns (q: Parser)
    requires GoodLines(r.lines) && Valid(p) && p.flags == HeadFlags(r) && p.contentLength == LinesLength(r.lines, ULLONG_MAX)
    requires p.state == AfterHead(r.minor, HeadFlags(r), LinesLength(r.lines, ULLONG_MAX)) && p.nread == 0
    requires p.httpMajor == 1 && p.httpMinor == r.minor
    requires ContentFits(r.content, HeadFlags(r).chunked, LinesLength(r.lines, ULLONG_MAX))
    ensures C.Reaches(p, ContentText(r.content), q, ContentAtoms(r.content))
    ensures q.state == AtRest(r.minor, EndFlags(r)) && q.nread == LeftOver(r) && Valid(q)
  {
    hide C.Reaches, LinesFlags, LinesLength, Bulked, Valid;
    match r.content
    case Nothing =>
      hide AtRest, Keeps;
      q := p;
      StaysThere(p);
    case Counted(bytes) =>
      BytesAreRead(p, r.minor, bytes);
      q := Bulked(p, |bytes|);
    case Pieces(payloads, trailers) =>
      NeverTrailing(r.lines, NO_FLAGS);
      ReadyForPieces(p);
      q := PiecesAreRead(p, r.minor, payloads, trailers);
  }

  lemma StaysThere(p: Parser)
    requires Valid(p)
    ensures C.Reaches(p, [], p, [])
  {
    hide Step, StateOk;
  }

  lemma ReadyForPieces(p: Parser)
    requires Valid(p) && p.state.ChunkSizeStart? && !p.flags.trailing
    ensures C.AtChunk(p)
  {
  }

  /** One request, from any parser that waits for it, whatever came before. */
  lemma RequestIsRead(s: Parser, r: Request) returns (q: Parser)
    requires Valid(s) && s.state.StartReq? && Good(r) && s.nread + |r.before| + |HeadText(r)| <= MAX_HEADER_SIZE
    ensures C.Reaches(s, Text(r), q, RequestAtoms(r, s.nread))
    ensures q.state == (if Kept(r) then StartReq else Dead) && q.nread == LeftOver(r) && Valid(q)
  {
    hide C.Reaches, GoodHead, Head, HeadAtoms, LinesFlags, LinesLength, ContentText, ContentAtoms, ContentFits, AfterHead,
      EndFlags, LeftOver, Valid;
    GoodHasHead(r);
    Skip(s, r.before);
    var t := s.(nread := s.nread + |r.before|);
    var p := HeadIsRead(t, r.verb, r.target, r.minor, r.lines);
    ReachedIsValid(t, HeadText(r), p, HeadAtoms(r.target, r.lines, t.nread + |HeadText(r)|));
    q := ContentIsRead(p, r);
    var atoms := HeadAtoms(r.target, r.lines, t.nread + |HeadText(r)|);
    C.Compose(s, r.before, t, [], HeadText(r), p, atoms);
    assert [] + atoms == atoms;
    C.Compose(s, r.before + HeadText(r), p, atoms, ContentText(r.content), q, ContentAtoms(r.content));
  }

  lemma GoodHasHead(r: Request)
    requires Good(r)
    ensures HeadIsGood(r) && GoodLines(r.lines)
  {
    hide Head, GoodRequest;
  }

  lemma ReachedIsValid(p: Parser, d: seq<Byte>, q: Parser, atoms: seq<Atom>)
    requires C.Reaches(p, d, q, atoms)
    ensures Valid(p) && Valid(q)
  {
    hide Step, StateOk;
  }

  // ---------------------------------------------------------------- many requests

  /** Each has room in the header limit, and each but the last keeps the connection. */
  predicate GoodStream(requests: seq<Request>, n: nat)
    decreases |requests|
  {
    requests != [] ==>
      var r, more := requests[0], requests[1..];
      && Good(r) && n + |r.before| + |HeadText(r)| <= MAX_HEADER_SIZE
      && (more != [] ==> Kept(r)) && GoodStream(more, LeftOver(r))
  }

  function Stream(requests: seq<Request>, n: nat): seq<Byte>
    requires GoodStream(requests, n)
    decreases |requests|
  {
    if requests == [] then [] else Text(requests[0]) + Stream(requests[1..], LeftOver(requests[0]))
  }

  function StreamAtoms(requests: seq<Request>, n: nat): seq<Atom>
    requires GoodStream(requests, n)
    decreases |requests|
  {
    if requests == [] then []
    else RequestAtoms(requests[0], n) + StreamAtoms(requests[1..], LeftOver(requests[0]))
  }

  predicate LastKept(requests: seq<Request>) { requests == [] || Kept(requests[|requests| - 1]) }

  lemma {:induction false} StreamIsRead(s: Parser, requests: seq<Request>) returns (q: Parser)
    requires Valid(s) && s.state.StartReq? && GoodStream(requests, s.nread)
    ensures C.Reaches(s, Stream(requests, s.nread), q, StreamAtoms(requests, s.nread))
    ensures q.state == if LastKept(requests) then StartReq else Dead
    decreases |requests|
  {
    hide C.Reaches, Good, HeadText, Text, RequestAtoms, LeftOver, Kept, Valid;
    if requests == [] {
      q := s;
      StaysThere(s);
    } else {
      var r, more := requests[0], requests[1..];
      GoodHasHead(r);
      var p := RequestIsRead(s, r);
      if more == [] {
        q := p;
        StaysThere(p);
        C.Compose(s, Text(r), p, RequestAtoms(r, s.nread), [], p, []);
      } else {
        q := StreamIsRead(p, more);
        assert more[|more| - 1] == requests[|requests| - 1];
        C.Compose(s, Text(r), p, RequestAtoms(r, s.nread), Stream(more, p.nread), q, StreamAtoms(more, p.nread));
      }
    }
  }

  /**
   Pipelining: in whatever pieces a stream of requests comes in, the parser takes every byte without an error, its
   callbacks are those of the requests, one after the other, and it waits for another request if and only if the
   last one keeps the connection.
   */
  lemma Pipelined(requests: seq<Request>, pieces: seq<seq<Byte>>)
    requires GoodStream(requests, 0) && T.Nonempty(pieces) && T.Join(pieces) == Stream(requests, 0)
    ensures var r := T.ExecuteAll(Init(), pieces);
            && r.parser.errno == OK && r.consumed == |Stream(requests, 0)|
            && Flatten(r.log) == StreamAtoms(requests, 0)
            && r.parser.state == if LastKept(requests) then StartReq else Dead
  {
    FreshStarts();
    hide GoodStream, Stream, StreamAtoms, LastKept, T.ExecuteAll, T.Nonempty, T.Join, Flatten;
    var q := StreamIsRead(Init(), requests);
    assert Valid(q);
    hide Run, Step, StateOk;
    T.AllSim(Init(), pieces);
  }

  lemma DeadIsMidByte(p: Parser)
    requires Valid(p) && p.state.Dead? && p.nread < MAX_HEADER_SIZE
    ensures MidByte(Count(p)) && Count(p) == p.(nread := p.nread + 1)
  {
  }

  lemma DeadStep(p: Parser, ch: Byte)
    requires Valid(p) && p.state.Dead? && p.nread < MAX_HEADER_SIZE
    ensures Step(p, ch).status.Running? <==> ch == CR || ch == LF
    ensures ch != CR && ch != LF ==> Step(p, ch).status.Failed? && Step(p, ch).parser.errno == CLOSED_CONNECTION
  {
    DeadIsMidByte(p);
    hide StateOk;
    var q := Count(p);
    assert Switch(q, ch) == if ch == CR || ch == LF then Go(q) else Error(q, CLOSED_CONNECTION);
    hide Switch;
  }

  /** A connection that is not kept takes no further request. */
  lemma NothingAfterTheLast(p: Parser, ch: Byte)
    requires Valid(p) && p.state.Dead? && p.nread < MAX_HEADER_SIZE
    ensures Run(p, [ch]).status.Running? <==> ch == CR || ch == LF
    ensures ch != CR && ch != LF ==> Run(p, [ch]).parser.errno == CLOSED_CONNECTION
  {
    hide Step, StateOk;
    DeadStep(p, ch);
  }
}
