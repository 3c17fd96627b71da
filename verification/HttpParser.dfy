/**
 The request parser of application/filehub/http_parser.cc: one pass of its switch,
 the byte loop with its re-executed bytes, and the "marks" that turn byte ranges of the
 caller's buffer into data callbacks.  Callbacks always return 0 and never pause.
 */
module HttpParser {
  import opened Basics
  import opened HttpSyntax

  datatype Kind = Url | Field | Value | Body

  datatype Notice =
    | MessageBegin
    | HeadersComplete(nread: nat, contentLength: nat)
    | MessageComplete

  /** One callback, in the order in which the parser makes them. */
  datatype Event = Data(kind: Kind, bytes: seq<Byte>) | Notify(notice: Notice)

  datatype Control = Break | Reexecute | Fail | Leave

  /** What one pass through the switch does: the new record, then MARK, a data callback, a notification. */
  datatype Pass = Pass(parser: Parser, mark: Option<Kind>, flush: Option<Kind>, notice: Option<Notice>, control: Control)

  function Go(p: Parser): Pass { Pass(p, None, None, None, Break) }

  function GoTo(p: Parser, s: State): Pass { Go(p.(state := s)) }

  function Error(p: Parser, e: Errno): Pass { Pass(p.(errno := e), None, None, None, Fail) }

  function Marking(p: Parser, k: Kind): Pass { Pass(p, Some(k), None, None, Break) }

  function Flushing(p: Parser, k: Kind): Pass { Pass(p, None, Some(k), None, Break) }

  function Notifying(p: Parser, n: Notice): Pass { Pass(p, None, None, Some(n), Break) }

  function Again(p: Parser, s: State): Pass { Pass(p.(state := s), None, None, None, Reexecute) }

  // ---------------------------------------------------------------- what every run keeps

  /** Where a header name can stand while it is matched, and that the index stays inside the word. */
  predicate FieldMatch(h: HeaderMatch, index: nat) {
    match h
    case General | Connection | ContentLength | TransferEncoding | Upgrade => true
    case SeenC => index == 0
    case SeenCO => index == 1
    case SeenCON => index == 2
    case MatchingConnection => 3 <= index <= 8
    case MatchingProxyConnection => index <= 14
    case MatchingContentLength => 3 <= index <= 12
    case MatchingTransferEncoding => index <= 15
    case MatchingUpgrade => index <= 5
    case _ => false
  }

  predicate ValueMatch(h: HeaderMatch, index: nat) {
    match h
    case General | ContentLength | Chunked | KeepAlive | Close => true
    case MatchingChunked => index <= 5
    case MatchingKeepAlive => index <= 8
    case MatchingClose => index <= 3
    case _ => false
  }

  predicate InChunk(s: State) {
    || s.ChunkSizeStart? || s.ChunkSize? || s.ChunkParameters? || s.ChunkSizeAlmostDone?
    || s.ChunkData? || s.ChunkDataAlmostDone? || s.ChunkDataDone?
  }

  /** The length of the method's text. */
  function VerbLength(m: Method): nat {
    match m
    case GET | PUT => 3
    case HEAD | POST | COPY | LOCK | MOVE => 4
    case TRACE | MKCOL | MERGE | PATCH | PURGE => 5
    case DELETE | SEARCH | UNLOCK | REPORT | NOTIFY => 6
    case CONNECT | OPTIONS => 7
    case PROPFIND | CHECKOUT => 8
    case PROPPATCH | SUBSCRIBE => 9
    case MKACTIVITY | MSEARCH => 10
    case UNSUBSCRIBE => 11
  }

  lemma VerbLengthIsTextLength(m: Method)
    ensures VerbLength(m) == |MethodText(m)|
  {}

  /** What each state knows; `counted` is nread at the start of a chunk size line. */
  predicate StateOk(p: Parser, counted: nat) {
    match p.state
    case ReqMethod => 1 <= p.index <= VerbLength(p.verb)
    case HeaderField => FieldMatch(p.headerMatch, p.index)
    case HeaderValue => ValueMatch(p.headerMatch, p.index)
    case ChunkSizeStart => p.flags.chunked && p.nread == counted
    case ChunkSize | ChunkParameters | ChunkSizeAlmostDone => p.flags.chunked && p.contentLength != ULLONG_MAX
    case ChunkData => p.flags.chunked && p.contentLength != 0 && p.contentLength != ULLONG_MAX
    case ChunkDataAlmostDone => p.flags.chunked && p.contentLength == 0
    case ChunkDataDone => p.flags.chunked
    case BodyIdentity => p.contentLength != 0 && p.contentLength != ULLONG_MAX
    case _ => true
  }

  predicate InBounds(p: Parser) {
    && p.errno == OK
    && p.index <= 20
    && p.nread <= MAX_HEADER_SIZE
    && p.contentLength <= ULLONG_MAX
    && p.httpMajor <= 999 && p.httpMinor <= 999
  }

  /** The invariant between two bytes. */
  predicate Valid(p: Parser) { InBounds(p) && StateOk(p, 0) }

  /** The invariant at the head of the switch, after the current byte has been counted. */
  predicate MidByte(p: Parser) { InBounds(p) && StateOk(p, 1) }

  /** Every re-execution of a byte moves to a state of smaller rank. */
  function Rank(s: State): (r: nat)
    ensures r <= 3
  {
    match s
    case HeaderValueLws => 3
    case HeaderFieldStart => 2
    case HeadersAlmostDone | HeaderValue | BodyIdentity => 1
    case _ => 0
  }

  /** The kind of data whose bytes are being collected in a state. */
  function Collecting(s: State): Option<Kind> {
    match s
    case ReqSchema | ReqSchemaSlash | ReqSchemaSlashSlash | ReqServerStart | ReqServer | ReqServerWithAt
       | ReqPath | ReqQueryStringStart | ReqQueryString | ReqFragmentStart | ReqFragment => Some(Url)
    case HeaderField => Some(Field)
    case HeaderValue => Some(Value)
    case ChunkDataAlmostDone => Some(Body)
    case _ => None
  }

  predicate ParsesOn(s: State) { !s.StartReq? && !s.Dead? }

  /** The four ways in which a pass may treat the marks. */
  predicate Disciplined(s: State, r: Pass) {
    var before, after := Collecting(s), Collecting(r.parser.state);
    if r.mark.None? && r.flush.None? then before == after != Some(Body) && (r.notice.Some? ==> before.None?)
    else
      && r.notice.None?
      && if r.mark.None? then before == r.flush && after.None?
         else if r.flush.None? then before.None? && after == r.mark != Some(Body)
         else r.mark == r.flush && before.None? && after.None?
  }

  predicate PassOk(s: State, r: Pass) {
    if r.control.Fail? then
      && r.parser.errno != OK && r.mark.None? && r.flush.None? && r.notice.None?
      && r.parser.nread <= MAX_HEADER_SIZE
    else
      && Disciplined(s, r)
      && (r.control.Reexecute? ==>
            MidByte(r.parser) && r.mark.None? && Rank(r.parser.state) < Rank(s) && !Bulk(r.parser.state))
      && (r.control.Break? ==> Valid(r.parser))
      && (r.control.Leave? ==>
            Valid(r.parser) && r.mark.None? && r.flush.None? && !ParsesOn(r.parser.state) && r.parser.upgrade)
  }

  // ---------------------------------------------------------------- the switch, state by state

  function FirstVerb(ch: Byte): Option<Method> {
    if ch == 'C' as int then Some(CONNECT)
    else if ch == 'D' as int then Some(DELETE)
    else if ch == 'G' as int then Some(GET)
    else if ch == 'H' as int then Some(HEAD)
    else if ch == 'L' as int then Some(LOCK)
    else if ch == 'M' as int then Some(MKCOL)
    else if ch == 'N' as int then Some(NOTIFY)
    else if ch == 'O' as int then Some(OPTIONS)
    else if ch == 'P' as int then Some(POST)
    else if ch == 'R' as int then Some(REPORT)
    else if ch == 'S' as int then Some(SUBSCRIBE)
    else if ch == 'T' as int then Some(TRACE)
    else if ch == 'U' as int then Some(UNLOCK)
    else None
  }

  function PassStart(p: Parser, ch: Byte): (r: Pass)
    requires MidByte(p) && p.state.StartReq?
    ensures PassOk(p.state, r)
  {
    if ch == CR || ch == LF then Go(p)
    else
      var q := p.(flags := NO_FLAGS, contentLength := ULLONG_MAX);
      if !IsAlpha(ch) then Error(q, INVALID_METHOD)
      else match FirstVerb(ch)
        case None => Error(q.(verb := DELETE, index := 1), INVALID_METHOD)
        case Some(m) => Notifying(q.(verb := m, index := 1, state := ReqMethod), MessageBegin)
  }

  /** The method to go on with when the current one does not continue with `ch`. */
  function OtherVerb(m: Method, index: nat, ch: Byte): Option<Method> {
    if m == CONNECT then
      if index == 1 && ch == 'H' as int then Some(CHECKOUT)
      else if index == 2 && ch == 'P' as int then Some(COPY)
      else None
    else if m == MKCOL then
      if index == 1 && ch == 'O' as int then Some(MOVE)
      else if index == 1 && ch == 'E' as int then Some(MERGE)
      else if index == 1 && ch == '-' as int then Some(MSEARCH)
      else if index == 2 && ch == 'A' as int then Some(MKACTIVITY)
      else None
    else if m == SUBSCRIBE then
      if index == 1 && ch == 'E' as int then Some(SEARCH) else None
    else if index == 1 && m == POST then
      if ch == 'R' as int then Some(PROPFIND)
      else if ch == 'U' as int then Some(PUT)
      else if ch == 'A' as int then Some(PATCH)
      else None
    else if index == 2 then
      if m == PUT then if ch == 'R' as int then Some(PURGE) else None
      else if m == UNLOCK then if ch == 'S' as int then Some(UNSUBSCRIBE) else None
      else None
    else if index == 4 && m == PROPFIND && ch == 'P' as int then Some(PROPPATCH)
    else None
  }

  function PassMethod(p: Parser, ch: Byte): (r: Pass)
    requires MidByte(p) && p.state.ReqMethod?
    ensures PassOk(p.state, r)
  {
    var matcher := MethodText(p.verb);
    VerbLengthIsTextLength(p.verb);
    if ch == 0 then Error(p, INVALID_METHOD)
    else if ch == SP && p.index == |matcher| then Go(p.(state := ReqSpacesBeforeUrl, index := p.index + 1))
    else if p.index < |matcher| && ch == matcher[p.index] as int then Go(p.(index := p.index + 1))
    else match OtherVerb(p.verb, p.index, ch)
      case None => Error(p, INVALID_METHOD)
      case Some(m) => Go(p.(verb := m, index := p.index + 1))
  }

  function PassUrlStart(p: Parser, ch: Byte): (r: Pass)
    requires MidByte(p) && p.state.ReqSpacesBeforeUrl?
    ensures PassOk(p.state, r)
  {
    if ch == SP then Go(p)
    else
      var from := if p.verb == CONNECT then ReqServerStart else ReqSpacesBeforeUrl;
      var q := p.(state := ParseUrlChar(from, ch));
      if q.state.Dead? then Error(q, INVALID_URL) else Marking(q, Url)
  }

  function PassUrl(p: Parser, ch: Byte): (r: Pass)
    requires MidByte(p) && IsUrlState(p.state)
    ensures PassOk(p.state, r)
  {
    if ch == SP || ch == CR || ch == LF then
      if !UrlMayEnd(p.state) then Error(p, INVALID_URL)
      else if ch == SP then Flushing(p.(state := ReqHttpStart), Url)
      else
        var next := if ch == CR then ReqLineAlmostDone else HeaderFieldStart;
        Flushing(p.(httpMajor := 0, httpMinor := 9, state := next), Url)
    else
      var q := p.(state := ParseUrlChar(p.state, ch));
      if q.state.Dead? then Error(q, INVALID_URL) else Go(q)
  }

  predicate InHttpWord(s: State) {
    s.ReqHttpStart? || s.ReqHttpH? || s.ReqHttpHT? || s.ReqHttpHTT? || s.ReqHttpHTTP?
  }

  function PassHttpWord(p: Parser, ch: Byte): (r: Pass)
    requires MidByte(p) && InHttpWord(p.state)
    ensures PassOk(p.state, r)
  {
    if p.state.ReqHttpStart? then
      if ch == 'H' as int then GoTo(p, ReqHttpH)
      else if ch == SP then Go(p)
      else Error(p, INVALID_CONSTANT)
    else
      var (want, next) :=
        match p.state
        case ReqHttpH => ('T', ReqHttpHT)
        case ReqHttpHT => ('T', ReqHttpHTT)
        case ReqHttpHTT => ('P', ReqHttpHTTP)
        case ReqHttpHTTP => ('/', ReqFirstHttpMajor);
      if ch != want as int then Error(p, STRICT) else GoTo(p, next)
  }

  predicate InMajor(s: State) { s.ReqFirstHttpMajor? || s.ReqHttpMajor? }

  function PassMajor(p: Parser, ch: Byte): (r: Pass)
    requires MidByte(p) && InMajor(p.state)
    ensures PassOk(p.state, r)
  {
    if p.state.ReqFirstHttpMajor? then
      if !('1' as int <= ch <= '9' as int) then Error(p, INVALID_VERSION)
      else Go(p.(httpMajor := ch - '0' as int, state := ReqHttpMajor))
    else if ch == '.' as int then GoTo(p, ReqFirstHttpMinor)
    else if !IsNum(ch) then Error(p, INVALID_VERSION)
    else
      var q := p.(httpMajor := p.httpMajor * 10 + (ch - '0' as int));
      if q.httpMajor > 999 then Error(q, INVALID_VERSION) else Go(q)
  }

  predicate InMinor(s: State) { s.ReqFirstHttpMinor? || s.ReqHttpMinor? || s.ReqLineAlmostDone? }

  function PassMinor(p: Parser, ch: Byte): (r: Pass)
    requires MidByte(p) && InMinor(p.state)
    ensures PassOk(p.state, r)
  {
    if p.state.ReqFirstHttpMinor? then
      if !IsNum(ch) then Error(p, INVALID_VERSION)
      else Go(p.(httpMinor := ch - '0' as int, state := ReqHttpMinor))
    else if p.state.ReqLineAlmostDone? then
      if ch != LF then Error(p, LF_EXPECTED) else GoTo(p, HeaderFieldStart)
    else if ch == CR then GoTo(p, ReqLineAlmostDone)
    else if ch == LF then GoTo(p, HeaderFieldStart)
    else if !IsNum(ch) then Error(p, INVALID_VERSION)
    else
      var q := p.(httpMinor := p.httpMinor * 10 + (ch - '0' as int));
      if q.httpMinor > 999 then Error(q, INVALID_VERSION) else Go(q)
  }

  function FirstMatch(c: Byte): HeaderMatch {
    if c == 'c' as int then SeenC
    else if c == 'p' as int then MatchingProxyConnection
    else if c == 't' as int then MatchingTransferEncoding
    else if c == 'u' as int then MatchingUpgrade
    else General
  }

  function PassFieldStart(p: Parser, ch: Byte): (r: Pass)
    requires MidByte(p) && p.state.HeaderFieldStart?
    ensures PassOk(p.state, r)
  {
    if ch == CR then GoTo(p, HeadersAlmostDone)
    else if ch == LF then Again(p, HeadersAlmostDone)
    else if Token(ch) == 0 then Error(p, INVALID_HEADER_TOKEN)
    else Marking(p.(index := 0, state := HeaderField, headerMatch := FirstMatch(Token(ch))), Field)
  }

  /** One more character of a known word: still matching, matched, or no longer of interest. */
  function MatchWord(word: string, index: nat, c: Byte, matching: HeaderMatch, matched: HeaderMatch): HeaderMatch {
    if index >= |word| || c != word[index] as int then General
    else if index == |word| - 1 then matched
    else matching
  }

  function NextFieldMatch(h: HeaderMatch, index: nat, ch: Byte): (r: (HeaderMatch, nat))
    requires FieldMatch(h, index) && index <= 20
    ensures FieldMatch(r.0, r.1) && r.1 <= 20
  {
    var c := Token(ch);
    match h
    case General => (General, index)
    case SeenC => (if c == 'o' as int then SeenCO else General, index + 1)
    case SeenCO => (if c == 'n' as int then SeenCON else General, index + 1)
    case SeenCON =>
      (if c == 'n' as int then MatchingConnection
       else if c == 't' as int then MatchingContentLength
       else General, index + 1)
    case MatchingConnection => (MatchWord("connection", index + 1, c, h, Connection), index + 1)
    case MatchingProxyConnection => (MatchWord("proxy-connection", index + 1, c, h, Connection), index + 1)
    case MatchingContentLength => (MatchWord("content-length", index + 1, c, h, ContentLength), index + 1)
    case MatchingTransferEncoding => (MatchWord("transfer-encoding", index + 1, c, h, TransferEncoding), index + 1)
    case MatchingUpgrade => (MatchWord("upgrade", index + 1, c, h, Upgrade), index + 1)
    case Connection | ContentLength | TransferEncoding | Upgrade => (if ch != SP then General else h, index)
  }

  function PassField(p: Parser, ch: Byte): (r: Pass)
    requires MidByte(p) && p.state.HeaderField?
    ensures PassOk(p.state, r)
  {
    if Token(ch) != 0 then
      var (h, i) := NextFieldMatch(p.headerMatch, p.index, ch);
      Go(p.(headerMatch := h, index := i))
    else if ch == ':' as int then Flushing(p.(state := HeaderValueStart), Field)
    else if ch == CR then Flushing(p.(state := HeaderAlmostDone), Field)
    else if ch == LF then Flushing(p.(state := HeaderFieldStart), Field)
    else Error(p, INVALID_HEADER_TOKEN)
  }

  function FirstValueMatch(h: HeaderMatch, c: Byte): (r: HeaderMatch)
    ensures ValueMatch(r, 0)
  {
    match h
    case TransferEncoding => if c == 'c' as int then MatchingChunked else General
    case Connection =>
      if c == 'k' as int then MatchingKeepAlive
      else if c == 'c' as int then MatchingClose
      else General
    case _ => General
  }

  function PassValueStart(p: Parser, ch: Byte): (r: Pass)
    requires MidByte(p) && p.state.HeaderValueStart?
    ensures PassOk(p.state, r)
  {
    if ch == SP || ch == HT then Go(p)
    else
      var q := p.(state := HeaderValue, index := 0);
      if ch == CR then
        Pass(q.(headerMatch := General, state := HeaderAlmostDone), Some(Value), Some(Value), None, Break)
      else if ch == LF then
        Pass(q.(state := HeaderFieldStart), Some(Value), Some(Value), None, Break)
      else if p.headerMatch.ContentLength? then
        if !IsNum(ch) then Error(q, INVALID_CONTENT_LENGTH)
        else Marking(q.(contentLength := ch - '0' as int), Value)
      else
        var f := if p.headerMatch.Upgrade? then p.flags.(upgrade := true) else p.flags;
        Marking(q.(flags := f, headerMatch := FirstValueMatch(p.headerMatch, Lower(ch))), Value)
  }

  /** `t = length * base + digit` in 64 bits, with the source's overflow test. */
  function Accumulate(length: nat, base: nat, digit: nat): Option<nat> {
    var t := (length * base + digit) % ULLONG_MODULUS;
    if t < length || t == ULLONG_MAX then None else Some(t)
  }

  function NextValueMatch(h: HeaderMatch, index: nat, ch: Byte): (r: (HeaderMatch, nat))
    requires ValueMatch(h, index) && index <= 20
    ensures ValueMatch(r.0, r.1) && r.1 <= 20
  {
    var c := Lower(ch);
    match h
    case MatchingChunked => (MatchWord("chunked", index + 1, c, h, Chunked), index + 1)
    case MatchingKeepAlive => (MatchWord("keep-alive", index + 1, c, h, KeepAlive), index + 1)
    case MatchingClose => (MatchWord("close", index + 1, c, h, Close), index + 1)
    case Chunked | KeepAlive | Close => (if ch != SP then General else h, index)
    case General | ContentLength => (General, index)
  }

  function PassValue(p: Parser, ch: Byte): (r: Pass)
    requires MidByte(p) && p.state.HeaderValue?
    ensures PassOk(p.state, r)
  {
    if ch == CR then Flushing(p.(state := HeaderAlmostDone), Value)
    else if ch == LF then Pass(p.(state := HeaderAlmostDone), None, Some(Value), None, Reexecute)
    else
      assert p.headerMatch != Connection && p.headerMatch != TransferEncoding;
      if p.headerMatch.ContentLength? then
        if ch == SP then Go(p)
        else if !IsNum(ch) then Error(p, INVALID_CONTENT_LENGTH)
        else match Accumulate(p.contentLength, 10, ch - '0' as int)
          case None => Error(p, INVALID_CONTENT_LENGTH)
          case Some(t) => Go(p.(contentLength := t))
      else
        var (h, i) := NextValueMatch(p.headerMatch, p.index, ch);
        Go(p.(headerMatch := h, index := i))
  }

  function FlagsAfter(h: HeaderMatch, f: Flags): Flags {
    match h
    case KeepAlive => f.(keepAlive := true)
    case Close => f.(close := true)
    case Chunked => f.(chunked := true)
    case _ => f
  }

  function PassLws(p: Parser, ch: Byte): (r: Pass)
    requires MidByte(p) && p.state.HeaderValueLws?
    ensures PassOk(p.state, r)
  {
    if ch == SP || ch == HT then GoTo(p, HeaderValueStart) else Again(p, HeaderFieldStart)
  }

  function PassHeaderAlmostDone(p: Parser, ch: Byte): (r: Pass)
    requires MidByte(p) && p.state.HeaderAlmostDone?
    ensures PassOk(p.state, r)
  {
    if ch != LF then Error(p, STRICT)
    else
      Go(p.(state := HeaderValueLws, flags := FlagsAfter(p.headerMatch, p.flags)))
  }

  function PassHeadersAlmostDone(p: Parser, ch: Byte): (r: Pass)
    requires MidByte(p) && p.state.HeadersAlmostDone?
    ensures PassOk(p.state, r)
  {
    if ch != LF then Error(p, STRICT)
    else if p.flags.trailing then Notifying(p.(state := NewMessage(p)), MessageComplete)
    else Pass(p.(state := HeadersDone, upgrade := p.flags.upgrade || p.verb == CONNECT),
              None, None, Some(HeadersComplete(p.nread, p.contentLength)), Reexecute)
  }

  function PassHeadersDone(p: Parser, ch: Byte): (r: Pass)
    requires MidByte(p) && p.state.HeadersDone?
    ensures PassOk(p.state, r)
  {
    if ch != LF then Error(p, STRICT)
    else
      var q := p.(nread := 0);
      if p.upgrade then Pass(q.(state := NewMessage(p)), None, None, Some(MessageComplete), Leave)
      else if p.flags.chunked then GoTo(q, ChunkSizeStart)
      else if p.contentLength == 0 || p.contentLength == ULLONG_MAX then
        Notifying(q.(state := NewMessage(p)), MessageComplete)
      else GoTo(q, BodyIdentity)
  }

  function PassMessageDone(p: Parser): (r: Pass)
    requires MidByte(p) && p.state.MessageDone?
    ensures PassOk(p.state, r)
  {
    Notifying(p.(state := NewMessage(p)), MessageComplete)
  }

  function PassChunkSizeStart(p: Parser, ch: Byte): (r: Pass)
    requires MidByte(p) && p.state.ChunkSizeStart?
    ensures PassOk(p.state, r)
  {
    assert p.nread == 1 && p.flags.chunked;
    if Unhex(ch) == -1 then Error(p, INVALID_CHUNK_SIZE)
    else Go(p.(contentLength := Unhex(ch), state := ChunkSize))
  }

  predicate InChunkSize(s: State) { s.ChunkSize? || s.ChunkParameters? }

  function PassChunkSize(p: Parser, ch: Byte): (r: Pass)
    requires MidByte(p) && InChunkSize(p.state)
    ensures PassOk(p.state, r)
  {
    assert p.flags.chunked;
    if ch == CR then GoTo(p, ChunkSizeAlmostDone)
    else if p.state.ChunkParameters? then Go(p)
    else if Unhex(ch) == -1 then
      if ch == ';' as int || ch == SP then GoTo(p, ChunkParameters) else Error(p, INVALID_CHUNK_SIZE)
    else match Accumulate(p.contentLength, 16, Unhex(ch))
      case None => Error(p, INVALID_CONTENT_LENGTH)
      case Some(t) => Go(p.(contentLength := t))
  }

  predicate InChunkEnd(s: State) { s.ChunkSizeAlmostDone? || s.ChunkDataAlmostDone? || s.ChunkDataDone? }

  function PassChunkEnd(p: Parser, ch: Byte): (r: Pass)
    requires MidByte(p) && InChunkEnd(p.state)
    ensures PassOk(p.state, r)
  {
    assert p.flags.chunked;
    if p.state.ChunkDataAlmostDone? then
      assert p.contentLength == 0;
      if ch != CR then Error(p, STRICT) else Flushing(p.(state := ChunkDataDone), Body)
    else if ch != LF then Error(p, STRICT)
    else
      var q := p.(nread := 0);
      if p.state.ChunkDataDone? then GoTo(q, ChunkSizeStart)
      else if p.contentLength == 0 then Go(q.(flags := q.flags.(trailing := true), state := HeaderFieldStart))
      else GoTo(q, ChunkData)
  }

  /** One pass through the switch, for every state that looks at a single byte. */
  function Switch(p: Parser, ch: Byte): (r: Pass)
    requires MidByte(p) && !Bulk(p.state)
    ensures PassOk(p.state, r)
  {
    if IsUrlState(p.state) then PassUrl(p, ch)
    else if InHttpWord(p.state) then PassHttpWord(p, ch)
    else if InMajor(p.state) then PassMajor(p, ch)
    else if InMinor(p.state) then PassMinor(p, ch)
    else if InChunkSize(p.state) then PassChunkSize(p, ch)
    else if InChunkEnd(p.state) then PassChunkEnd(p, ch)
    else match p.state
      case Dead => if ch == CR || ch == LF then Go(p) else Error(p, CLOSED_CONNECTION)
      case StartReq => PassStart(p, ch)
      case ReqMethod => PassMethod(p, ch)
      case ReqSpacesBeforeUrl => PassUrlStart(p, ch)
      case HeaderFieldStart => PassFieldStart(p, ch)
      case HeaderField => PassField(p, ch)
      case HeaderValueStart => PassValueStart(p, ch)
      case HeaderValue => PassValue(p, ch)
      case HeaderValueLws => PassLws(p, ch)
      case HeaderAlmostDone => PassHeaderAlmostDone(p, ch)
      case ChunkSizeStart => PassChunkSizeStart(p, ch)
      case HeadersAlmostDone => PassHeadersAlmostDone(p, ch)
      case HeadersDone => PassHeadersDone(p, ch)
      case MessageDone => PassMessageDone(p)
  }

  // ---------------------------------------------------------------- marks and callbacks

  /** The non-null mark pointers, as offsets into the caller's buffer. */
  type Marks = map<Kind, nat>

  predicate MarksBelow(marks: Marks, i: nat) { forall k <- marks :: marks[k] <= i }

  function SetMark(marks: Marks, mark: Option<Kind>, i: nat): (r: Marks)
    requires MarksBelow(marks, i)
    ensures MarksBelow(r, i)
  {
    if mark.Some? && mark.value !in marks then marks[mark.value := i] else marks
  }

  /** CALLBACK_DATA up to offset `end`: nothing happens when the mark is null. */
  function Deliver(marks: Marks, k: Kind, data: seq<Byte>, end: nat): seq<Event>
    requires end <= |data| && MarksBelow(marks, end)
  {
    if k in marks then [Data(k, data[marks[k]..end])] else []
  }

  function MarksAfter(r: Pass, marks: Marks, i: nat): (left: Marks)
    requires MarksBelow(marks, i)
    ensures MarksBelow(left, i)
  {
    var marked := SetMark(marks, r.mark, i);
    if r.flush.Some? then marked - {r.flush.value} else marked
  }

  /** The callbacks of one pass, in order. */
  function Callbacks(r: Pass, marks: Marks, data: seq<Byte>, i: nat): seq<Event>
    requires i <= |data| && MarksBelow(marks, i)
  {
    (if r.flush.Some? then Deliver(SetMark(marks, r.mark, i), r.flush.value, data, i) else [])
    + (if r.notice.Some? then [Notify(r.notice.value)] else [])
  }

  datatype Status = Running | Failed | Left

  /** The loop variables of http_parser_execute when control leaves the switch. */
  datatype Cursor = Cursor(parser: Parser, at: nat, marks: Marks, log: seq<Event>, status: Status)

  /** More header bytes than the limit are counted only by the error that says so. */
  predicate WithinHeaderLimit(p: Parser) {
    p.nread > MAX_HEADER_SIZE ==> p.errno == HEADER_OVERFLOW
  }

  predicate CursorOk(c: Cursor, i: nat, data: seq<Byte>) {
    && c.at <= |data|
    && (c.status.Running? ==> i < c.at && Valid(c.parser) && MarksBelow(c.marks, c.at))
    && (c.status.Failed? ==> c.parser.errno != OK && WithinHeaderLimit(c.parser))
    && (c.status.Left? ==> Valid(c.parser) && c.parser.upgrade && !ParsesOn(c.parser.state))
  }

  /** From the label reexecute_byte to the next byte (or out of the loop). */
  function Passes(p: Parser, data: seq<Byte>, i: nat, marks: Marks, log: seq<Event>): (c: Cursor)
    requires MidByte(p) && i < |data| && MarksBelow(marks, i)
    ensures CursorOk(c, i, data)
    decreases Rank(p.state)
  {
    if Bulk(p.state) then BulkPass(p, data, i, marks, log)
    else
      var r := Switch(p, data[i]);
      var left := MarksAfter(r, marks, i);
      var log' := log + Callbacks(r, marks, data, i);
      match r.control
      case Break => Cursor(r.parser, i + 1, left, log', Running)
      case Fail => Cursor(r.parser, i, left, log', Failed)
      case Leave => Cursor(r.parser, i + 1, left, log', Left)
      case Reexecute => Passes(r.parser, data, i, left, log')
  }

  /** s_body_identity and s_chunk_data take as many bytes as both the message and the buffer still hold. */
  function BulkPass(p: Parser, data: seq<Byte>, i: nat, marks: Marks, log: seq<Event>): (c: Cursor)
    requires MidByte(p) && Bulk(p.state) && i < |data| && MarksBelow(marks, i)
    ensures CursorOk(c, i, data)
    decreases Rank(p.state), 0
  {
    var toRead := if p.contentLength <= |data| - i then p.contentLength else |data| - i;
    var marked := SetMark(marks, Some(Body), i);
    var last := i + toRead - 1;
    var q := p.(contentLength := p.contentLength - toRead);
    if q.contentLength != 0 then Cursor(q, last + 1, marked, log, Running)
    else if p.state.ChunkData? then Cursor(q.(state := ChunkDataAlmostDone), last + 1, marked, log, Running)
    else
      var r := PassMessageDone(q.(state := MessageDone));
      Cursor(r.parser, last + 1, marked - {Body},
             log + Deliver(marked, Body, data, last + 1) + [Notify(MessageComplete)], Running)
  }

  // ---------------------------------------------------------------- http_parser_execute

  datatype Result = Result(parser: Parser, consumed: nat, log: seq<Event>)

  function Count(p: Parser): Parser {
    if ParsingHeader(p.state) then p.(nread := p.nread + 1) else p
  }

  /** Callbacks for the marks that are left over when the bytes have run out. */
  function Leftover(marks: Marks, data: seq<Byte>): seq<Event>
    requires MarksBelow(marks, |data|)
  {
    Deliver(marks, Field, data, |data|) + Deliver(marks, Value, data, |data|)
    + Deliver(marks, Url, data, |data|) + Deliver(marks, Body, data, |data|)
  }

  function Iterate(p: Parser, data: seq<Byte>, i: nat, marks: Marks): (c: Cursor)
    requires Valid(p) && i < |data| && MarksBelow(marks, i)
    ensures CursorOk(c, i, data)
  {
    var q := Count(p);
    if q.nread > MAX_HEADER_SIZE then Cursor(q.(errno := HEADER_OVERFLOW), i, marks, [], Failed)
    else Passes(q, data, i, marks, [])
  }

  function Loop(p: Parser, data: seq<Byte>, i: nat, marks: Marks): (r: Result)
    requires Valid(p) && i <= |data| && MarksBelow(marks, i)
    ensures r.parser.errno == OK ==> Valid(r.parser)
    ensures WithinHeaderLimit(r.parser)
    ensures r.consumed <= |data|
    decreases |data| - i
  {
    if i == |data| then Result(p, i, Leftover(marks, data))
    else
      var c := Iterate(p, data, i, marks);
      if c.status.Running? then
        var rest := Loop(c.parser, data, c.at, c.marks);
        Result(rest.parser, rest.consumed, c.log + rest.log)
      else Result(c.parser, c.at, c.log)
  }

  /** A call that starts inside a URL, a header name or a header value starts with its mark set. */
  function InitialMarks(s: State): Marks {
    match Collecting(s)
    case Some(Body) => map[]
    case Some(k) => map[k := 0]
    case None => map[]
  }

  function Execute(p: Parser, data: seq<Byte>): (r: Result)
    requires p.errno == OK ==> Valid(p)
    ensures r.parser.errno == OK ==> Valid(r.parser)
    ensures WithinHeaderLimit(p) ==> WithinHeaderLimit(r.parser)
  {
    if p.errno != OK then Result(p, 0, [])
    else if |data| == 0 then
      if p.state.Dead? || p.state.StartReq? then Result(p, 0, [])
      else Result(p.(errno := INVALID_EOF_STATE), 1, [])
    else Loop(p, data, 0, InitialMarks(p.state))
  }

  /** How often the switch runs for one byte; the last byte of a counted body is met again at the end of the message. */
  function Executions(p: Parser, ch: Byte): nat
    requires MidByte(p)
    decreases Rank(p.state)
  {
    if Bulk(p.state) then (if p.state.BodyIdentity? && p.contentLength == 1 then 2 else 1)
    else
      var r := Switch(p, ch);
      if r.control.Reexecute? then 1 + Executions(r.parser, ch) else 1
  }

  /** Each re-execution lowers the rank of the state, and there are four ranks. */
  lemma {:induction false} FourExecutionsAtMost(p: Parser, ch: Byte)
    requires MidByte(p)
    ensures 1 <= Executions(p, ch) <= Rank(p.state) + 1 <= 4
    decreases Rank(p.state)
  {
    hide Switch, MidByte;
    if !Bulk(p.state) {
      var r := Switch(p, ch);
      if r.control.Reexecute? {
        FourExecutionsAtMost(r.parser, ch);
      }
    }
  }
}
