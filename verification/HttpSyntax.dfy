/**
 The vocabulary of the HTTP/1.x request parser (strict mode): bytes and character
 classes, machine states, the parser record, and the URL automaton that the request
 parser and the URL splitter share.
 */
module HttpSyntax {
  import opened Basics

  const CR: Byte := 13
  const LF: Byte := 10
  const SP: Byte := 32
  const HT: Byte := 9
  const FF: Byte := 12

  const MAX_HEADER_SIZE: nat := 80 * 1024
  const ULLONG_MODULUS: nat := 0x1_0000_0000_0000_0000
  const ULLONG_MAX: nat := 0xFFFF_FFFF_FFFF_FFFF

  // ---------------------------------------------------------------- character classes

  /** `c | 0x20` on one byte. */
  function Lower(b: Byte): Byte {
    if (b / 32) % 2 == 0 then b + 32 else b
  }

  predicate IsAlpha(b: Byte) { 'a' as int <= Lower(b) <= 'z' as int }

  predicate IsNum(b: Byte) { '0' as int <= b <= '9' as int }

  predicate IsAlphaNum(b: Byte) { IsAlpha(b) || IsNum(b) }

  predicate IsHex(b: Byte) { IsNum(b) || 'a' as int <= Lower(b) <= 'f' as int }

  predicate IsMark(b: Byte) {
    || b == '-' as int || b == '_' as int || b == '.' as int || b == '!' as int || b == '~' as int
    || b == '*' as int || b == '\'' as int || b == '(' as int || b == ')' as int
  }

  predicate IsUserinfoChar(b: Byte) {
    || IsAlphaNum(b) || IsMark(b)
    || b == '%' as int || b == ';' as int || b == ':' as int || b == '&' as int
    || b == '=' as int || b == '+' as int || b == '$' as int || b == ',' as int
  }

  predicate IsHostChar(b: Byte) { IsAlphaNum(b) || b == '.' as int || b == '-' as int }

  /** The strict bitmap: printable ASCII without space, '#', '?' and DEL. */
  predicate IsUrlChar(b: Byte) { 33 <= b <= 126 && b != '#' as int && b != '?' as int }

  /** The token table: 0 for a byte that no header name may hold, else the byte in lower case. */
  function Token(b: Byte): Byte {
    if 'A' as int <= b <= 'Z' as int then b + 32
    else if 'a' as int <= b <= 'z' as int || IsNum(b) then b
    else if b == '!' as int || ('#' as int <= b <= '\'' as int) || b == '*' as int || b == '+' as int
            || b == '-' as int || b == '.' as int || ('^' as int <= b <= '`' as int)
            || b == '|' as int || b == '~' as int then b
    else 0
  }

  /**
   The table has 256 entries and 128 initialisers, so every byte from 128 up reads as
   digit zero instead of -1.
   */
  function Unhex(b: Byte): (v: int)
    ensures -1 <= v < 16
  {
    if IsNum(b) then b - '0' as int
    else if 'A' as int <= b <= 'F' as int then b - 'A' as int + 10
    else if 'a' as int <= b <= 'f' as int then b - 'a' as int + 10
    else if b >= 128 then 0
    else -1
  }

  // ---------------------------------------------------------------- machine states

  datatype State =
    | Dead
    | StartReq
    | ReqMethod
    | ReqSpacesBeforeUrl
    | ReqSchema | ReqSchemaSlash | ReqSchemaSlashSlash
    | ReqServerStart | ReqServer | ReqServerWithAt
    | ReqPath
    | ReqQueryStringStart | ReqQueryString
    | ReqFragmentStart | ReqFragment
    | ReqHttpStart | ReqHttpH | ReqHttpHT | ReqHttpHTT | ReqHttpHTTP
    | ReqFirstHttpMajor | ReqHttpMajor | ReqFirstHttpMinor | ReqHttpMinor
    | ReqLineAlmostDone
    | HeaderFieldStart | HeaderField
    | HeaderValueStart | HeaderValue | HeaderValueLws
    | HeaderAlmostDone
    | ChunkSizeStart | ChunkSize | ChunkParameters | ChunkSizeAlmostDone
    | HeadersAlmostDone | HeadersDone
    | ChunkData | ChunkDataAlmostDone | ChunkDataDone
    | BodyIdentity
    | MessageDone

  /** States up to and including HeadersDone count towards the header size limit. */
  predicate ParsingHeader(s: State) {
    !(s.ChunkData? || s.ChunkDataAlmostDone? || s.ChunkDataDone? || s.BodyIdentity? || s.MessageDone?)
  }

  /** States in which the source moves through many bytes at once. */
  predicate Bulk(s: State) { s.BodyIdentity? || s.ChunkData? }

  predicate IsUrlState(s: State) {
    || s.ReqSchema? || s.ReqSchemaSlash? || s.ReqSchemaSlashSlash?
    || s.ReqServerStart? || s.ReqServer? || s.ReqServerWithAt?
    || s.ReqPath? || s.ReqQueryStringStart? || s.ReqQueryString?
    || s.ReqFragmentStart? || s.ReqFragment?
  }

  /** The URL states in which a space or a line end may close the request target. */
  predicate UrlMayEnd(s: State) {
    || s.ReqServer? || s.ReqServerWithAt? || s.ReqPath? || s.ReqQueryStringStart?
    || s.ReqQueryString? || s.ReqFragmentStart? || s.ReqFragment?
  }

  datatype HeaderMatch =
    | General
    | SeenC | SeenCO | SeenCON
    | MatchingConnection | MatchingProxyConnection | MatchingContentLength
    | MatchingTransferEncoding | MatchingUpgrade
    | Connection | ContentLength | TransferEncoding | Upgrade
    | MatchingChunked | MatchingKeepAlive | MatchingClose
    | Chunked | KeepAlive | Close

  datatype Method =
    | DELETE | GET | HEAD | POST | PUT | CONNECT | OPTIONS | TRACE | COPY | LOCK
    | MKCOL | MOVE | PROPFIND | PROPPATCH | SEARCH | UNLOCK | REPORT | MKACTIVITY
    | CHECKOUT | MERGE | MSEARCH | NOTIFY | SUBSCRIBE | UNSUBSCRIBE | PATCH | PURGE

  /** The stringised method table; the entry for M-SEARCH is spelled with blanks. */
  function MethodText(m: Method): string {
    match m
    case DELETE => "DELETE"
    case GET => "GET"
    case HEAD => "HEAD"
    case POST => "POST"
    case PUT => "PUT"
    case CONNECT => "CONNECT"
    case OPTIONS => "OPTIONS"
    case TRACE => "TRACE"
    case COPY => "COPY"
    case LOCK => "LOCK"
    case MKCOL => "MKCOL"
    case MOVE => "MOVE"
    case PROPFIND => "PROPFIND"
    case PROPPATCH => "PROPPATCH"
    case SEARCH => "SEARCH"
    case UNLOCK => "UNLOCK"
    case REPORT => "REPORT"
    case MKACTIVITY => "MKACTIVITY"
    case CHECKOUT => "CHECKOUT"
    case MERGE => "MERGE"
    case MSEARCH => "M - SEARCH"
    case NOTIFY => "NOTIFY"
    case SUBSCRIBE => "SUBSCRIBE"
    case UNSUBSCRIBE => "UNSUBSCRIBE"
    case PATCH => "PATCH"
    case PURGE => "PURGE"
  }

  datatype Errno =
    | OK | INVALID_EOF_STATE | HEADER_OVERFLOW | CLOSED_CONNECTION | INVALID_VERSION
    | INVALID_METHOD | INVALID_URL | LF_EXPECTED | INVALID_HEADER_TOKEN
    | INVALID_CONTENT_LENGTH | INVALID_CHUNK_SIZE | INVALID_CONSTANT | STRICT

  datatype Flags = Flags(chunked: bool, keepAlive: bool, close: bool, trailing: bool, upgrade: bool)

  const NO_FLAGS: Flags := Flags(false, false, false, false, false)

  datatype Parser = Parser(
    state: State,
    headerMatch: HeaderMatch,
    index: nat,
    nread: nat,
    contentLength: nat,
    httpMajor: nat,
    httpMinor: nat,
    verb: Method,
    flags: Flags,
    errno: Errno,
    upgrade: bool)

  /** A zeroed record in the start state of a request parser. */
  function Init(): Parser {
    Parser(StartReq, General, 0, 0, 0, 0, 0, DELETE, NO_FLAGS, OK, false)
  }

  /** A request never needs to see the end of the stream, so only version and flags matter. */
  predicate ShouldKeepAlive(p: Parser) {
    if p.httpMajor > 0 && p.httpMinor > 0 then !p.flags.close else p.flags.keepAlive
  }

  function NewMessage(p: Parser): State {
    if ShouldKeepAlive(p) then StartReq else Dead
  }

  // ---------------------------------------------------------------- URL automaton

  function ParseServerChar(ch: Byte): State {
    if ch == '/' as int then ReqPath
    else if ch == '?' as int then ReqQueryStringStart
    else if ch == '@' as int then ReqServerWithAt
    else if IsUserinfoChar(ch) || ch == '[' as int || ch == ']' as int then ReqServer
    else Dead
  }

  function ParseUrlChar(s: State, ch: Byte): (t: State)
    ensures t.Dead? || IsUrlState(t)
  {
    if ch == SP || ch == CR || ch == LF || ch == HT || ch == FF then Dead
    else match s
      case ReqSpacesBeforeUrl =>
        if ch == '/' as int || ch == '*' as int then ReqPath
        else if IsAlpha(ch) then ReqSchema
        else Dead
      case ReqSchema =>
        if IsAlpha(ch) then ReqSchema else if ch == ':' as int then ReqSchemaSlash else Dead
      case ReqSchemaSlash => if ch == '/' as int then ReqSchemaSlashSlash else Dead
      case ReqSchemaSlashSlash => if ch == '/' as int then ReqServerStart else Dead
      case ReqServerWithAt => if ch == '@' as int then Dead else ParseServerChar(ch)
      case ReqServerStart => ParseServerChar(ch)
      case ReqServer => ParseServerChar(ch)
      case ReqPath =>
        if IsUrlChar(ch) then ReqPath
        else if ch == '?' as int then ReqQueryStringStart
        else if ch == '#' as int then ReqFragmentStart
        else Dead
      case ReqQueryStringStart =>
        if IsUrlChar(ch) || ch == '?' as int then ReqQueryString
        else if ch == '#' as int then ReqFragmentStart
        else Dead
      case ReqQueryString =>
        if IsUrlChar(ch) || ch == '?' as int then ReqQueryString
        else if ch == '#' as int then ReqFragmentStart
        else Dead
      case ReqFragmentStart =>
        if IsUrlChar(ch) || ch == '?' as int then ReqFragment
        else if ch == '#' as int then ReqFragmentStart
        else Dead
      case ReqFragment =>
        if IsUrlChar(ch) || ch == '?' as int || ch == '#' as int then ReqFragment else Dead
      case _ => Dead
  }
}
