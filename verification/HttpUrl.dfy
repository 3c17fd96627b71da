/**
 http_parser_parse_url: the automaton of the request parser, run over a whole string, with
 the extents of the URL's fields recorded on the way and the host part split afterwards.
 */
module HttpUrl {
  import opened Basics
  import opened HttpSyntax
  import P = HttpParser
  import S = HttpSplit
  import T = HttpSplitTheorem

  datatype UrlField = Schema | Host | Port | Path | Query | Fragment | Userinfo

  /** Offset and length are 16 bits wide. */
  datatype Extent = Extent(off: nat, len: nat)

  const U16: nat := 0x1_0000

  /** `marked` is field_set; `data` has an entry for every field, marked or not. */
  datatype Url = Url(marked: set<UrlField>, data: map<UrlField, Extent>, port: nat)

  const NOWHERE: Extent := Extent(0, 0)

  const ZEROED: Url :=
    Url({}, map[Schema := NOWHERE, Host := NOWHERE, Port := NOWHERE, Path := NOWHERE, Query := NOWHERE,
                Fragment := NOWHERE, Userinfo := NOWHERE], 0)

  predicate Full(u: Url) { forall f: UrlField :: f in u.data }

  lemma ZeroedIsFull()
    ensures Full(ZEROED) && forall f: UrlField :: ZEROED.data[f] == NOWHERE
  {
    forall f: UrlField
      ensures f in ZEROED.data && ZEROED.data[f] == NOWHERE
    {
      match f
      case Schema => case Host => case Port => case Path => case Query => case Fragment => case Userinfo =>
    }
  }

  /** One more byte of a field that is already being collected. */
  function Grow(u: Url, f: UrlField): (r: Url)
    requires Full(u)
    ensures Full(r)
  {
    u.(data := u.data[f := Extent(u.data[f].off, (u.data[f].len + 1) % U16)])
  }

  /** The first byte of a field. */
  function Open(u: Url, f: UrlField, at: nat): (r: Url)
    requires Full(u)
    ensures Full(r)
  {
    u.(data := u.data[f := Extent(at % U16, 1)], marked := u.marked + {f})
  }

  // ---------------------------------------------------------------- the scan over the whole string

  datatype Scan = Scan(state: State, last: Option<UrlField>, foundAt: bool, url: Url)

  function FieldOf(s: State): Option<UrlField> {
    match s
    case ReqSchema => Some(Schema)
    case ReqServer | ReqServerWithAt => Some(Host)
    case ReqPath => Some(Path)
    case ReqQueryString => Some(Query)
    case ReqFragment => Some(Fragment)
    case _ => None
  }

  function ScanStep(c: Scan, ch: Byte, at: nat): (r: Option<Scan>)
    requires Full(c.url)
    ensures r.Some? ==> Full(r.value.url)
  {
    var s := ParseUrlChar(c.state, ch);
    if s.Dead? then None
    else match FieldOf(s)
      case None => Some(c.(state := s))
      case Some(f) =>
        var found := c.foundAt || s.ReqServerWithAt?;
        if c.last == Some(f) then Some(Scan(s, c.last, found, Grow(c.url, f)))
        else Some(Scan(s, Some(f), found, Open(c.url, f, at)))
  }

  function ScanFrom(c: Scan, buf: seq<Byte>, at: nat): (r: Option<Scan>)
    requires Full(c.url) && at <= |buf|
    ensures r.Some? ==> Full(r.value.url)
    decreases |buf| - at
  {
    if at == |buf| then Some(c)
    else match ScanStep(c, buf[at], at)
      case None => None
      case Some(d) => ScanFrom(d, buf, at + 1)
  }

  function ScanStart(isConnect: bool): (c: Scan)
    ensures Full(c.url)
  {
    ZeroedIsFull();
    Scan(if isConnect then ReqServerStart else ReqSpacesBeforeUrl, None, false, ZEROED)
  }

  // ---------------------------------------------------------------- the host part

  datatype HostState = UserinfoStart | InUserinfo | HostStart | V6Start | InHost | InV6 | V6End | PortStart | InPort

  function ParseHostChar(s: HostState, ch: Byte): Option<HostState> {
    match s
    case UserinfoStart | InUserinfo =>
      if ch == '@' as int then Some(HostStart)
      else if IsUserinfoChar(ch) then Some(InUserinfo)
      else None
    case HostStart =>
      if ch == '[' as int then Some(V6Start) else if IsHostChar(ch) then Some(InHost) else None
    case InHost => if IsHostChar(ch) then Some(InHost) else if ch == ':' as int then Some(PortStart) else None
    case V6End => if ch == ':' as int then Some(PortStart) else None
    case InV6 =>
      if ch == ']' as int then Some(V6End)
      else if IsHex(ch) || ch == ':' as int || ch == '.' as int then Some(InV6)
      else None
    case V6Start => if IsHex(ch) || ch == ':' as int || ch == '.' as int then Some(InV6) else None
    case PortStart | InPort => if IsNum(ch) then Some(InPort) else None
  }

  /** What the byte at `at`, which moves the host automaton from s to t, does to the result. */
  function HostByte(u: Url, s: HostState, t: HostState, at: nat): (r: Url)
    requires Full(u)
    ensures Full(r)
  {
    match t
    case InHost | InV6 =>
      var e := u.data[Host];
      u.(data := u.data[Host := Extent(if s != t then at % U16 else e.off, (e.len + 1) % U16)])
    case InPort => if s != t then Open(u, Port, at) else Grow(u, Port)
    case InUserinfo => if s != t then Open(u, Userinfo, at) else Grow(u, Userinfo)
    case _ => u
  }

  predicate HostMayEnd(s: HostState) { s.InHost? || s.V6End? || s.InPort? }

  function HostFrom(u: Url, s: HostState, buf: seq<Byte>, at: nat, end: nat): (r: Option<Url>)
    requires Full(u) && at <= end <= |buf|
    ensures r.Some? ==> Full(r.value)
    decreases end - at
  {
    if at == end then if HostMayEnd(s) then Some(u) else None
    else match ParseHostChar(s, buf[at])
      case None => None
      case Some(t) => HostFrom(HostByte(u, s, t, at), t, buf, at + 1, end)
  }

  function ParseHost(u: Url, buf: seq<Byte>, foundAt: bool): (r: Option<Url>)
    requires Full(u) && u.data[Host].off + u.data[Host].len <= |buf|
    ensures r.Some? ==> Full(r.value)
  {
    var e := u.data[Host];
    HostFrom(u.(data := u.data[Host := Extent(e.off, 0)]), if foundAt then UserinfoStart else HostStart,
             buf, e.off, e.off + e.len)
  }

  /** The decimal number that strtoul reads off the port digits. */
  function Decimal(digits: seq<Byte>): int {
    if digits == [] then 0 else Decimal(digits[..|digits| - 1]) * 10 + (digits[|digits| - 1] - '0' as int)
  }

  // ---------------------------------------------------------------- where the fields lie

  predicate Within(e: Extent, lo: nat, hi: nat) { 0 < e.len && lo <= e.off && e.off + e.len <= hi }

  predicate Apart(e: Extent, f: Extent) { e.off + e.len <= f.off || f.off + f.len <= e.off }

  /** Every marked field is a nonempty range of the first `n` bytes, and no two of them share a byte. */
  ghost predicate Laid(u: Url, n: nat)
    ensures Laid(u, n) ==> Full(u)
  {
    && Full(u)
    && (forall f: UrlField :: f in u.marked ==> Within(u.data[f], 0, n))
    && (forall f: UrlField, g: UrlField :: f in u.marked && g in u.marked && f != g ==> Apart(u.data[f], u.data[g]))
  }

  lemma LaidLater(u: Url, n: nat, m: nat)
    requires Laid(u, n) && n <= m
    ensures Laid(u, m)
  {}

  lemma LaidOpen(u: Url, f: UrlField, at: nat)
    requires Laid(u, at) && f !in u.marked && at + 1 < U16
    ensures Laid(Open(u, f, at), at + 1)
  {}

  lemma LaidGrow(u: Url, f: UrlField, at: nat)
    requires Laid(u, at) && f in u.marked && u.data[f].off + u.data[f].len == at && at + 1 < U16
    ensures Laid(Grow(u, f), at + 1)
  {}

  /** The fields a URL state may have marked so far; none of them comes twice. */
  predicate MarkedIn(s: State, marked: set<UrlField>) {
    match s
    case ReqSpacesBeforeUrl => marked == {}
    case ReqSchema | ReqSchemaSlash | ReqSchemaSlashSlash => marked == {Schema}
    case ReqServerStart => marked <= {Schema}
    case ReqServer | ReqServerWithAt => marked <= {Schema, Host}
    case ReqPath | ReqQueryStringStart => marked <= {Schema, Host, Path}
    case ReqQueryString | ReqFragmentStart => marked <= {Schema, Host, Path, Query}
    case ReqFragment => marked <= {Schema, Host, Path, Query, Fragment}
    case _ => false
  }

  ghost predicate ScanOk(c: Scan, at: nat) {
    && Laid(c.url, at) && MarkedIn(c.state, c.url.marked)
    && (c.last.Some? ==> c.last.value in c.url.marked)
    && (match FieldOf(c.state)
        case Some(f) => c.last == Some(f) && c.url.data[f].off + c.url.data[f].len == at
        case None => true)
    && (Host !in c.url.marked ==> c.url.data[Host] == NOWHERE)
    && Port !in c.url.marked && Userinfo !in c.url.marked
    && (at > 0 ==> !c.state.ReqSpacesBeforeUrl? && (c.state.ReqServerStart? ==> Schema in c.url.marked))
  }

  /** A field is entered at most once: it is either the one in hand or not marked yet. */
  lemma UrlMoves(s: State, ch: Byte, marked: set<UrlField>)
    requires MarkedIn(s, marked) && !ParseUrlChar(s, ch).Dead?
    ensures ParseUrlChar(s, ch).ReqServerStart? ==> Schema in marked
    ensures var t := ParseUrlChar(s, ch);
            match FieldOf(t)
            case None => MarkedIn(t, marked)
            case Some(f) => MarkedIn(t, marked + {f}) && (FieldOf(s) != Some(f) ==> f !in marked)
  {
    hide IsUserinfoChar, IsUrlChar, IsAlpha;
  }

  lemma ScanStepOk(c: Scan, ch: Byte, at: nat)
    requires ScanOk(c, at) && at + 1 < U16
    ensures var r := ScanStep(c, ch, at); r.Some? ==> ScanOk(r.value, at + 1)
  {
    hide ParseUrlChar, MarkedIn, Laid;
    var r := ScanStep(c, ch, at);
    if r.Some? {
      UrlMoves(c.state, ch, c.url.marked);
      match FieldOf(r.value.state)
      case None => LaidLater(c.url, at, at + 1);
      case Some(f) =>
        if c.last == Some(f) {
          assert c.url.marked + {f} == c.url.marked;
          LaidGrow(c.url, f, at);
        } else {
          LaidOpen(c.url, f, at);
        }
    }
  }

  lemma {:induction false} ScanFromOk(c: Scan, buf: seq<Byte>, at: nat)
    requires at <= |buf| < U16 && ScanOk(c, at)
    ensures var r := ScanFrom(c, buf, at); r.Some? ==> ScanOk(r.value, |buf|)
    decreases |buf| - at
  {
    hide ScanStep;
    if at < |buf| {
      ScanStepOk(c, buf[at], at);
      var d := ScanStep(c, buf[at], at);
      if d.Some? {
        ScanFromOk(d.value, buf, at + 1);
      }
    }
  }

  // ---------------------------------------------------------------- where the host parts lie

  /** The host part has one extent before the split, and everything else keeps clear of it. */
  ghost predicate Outside(u: Url, v: Url) {
    && Full(u) && Full(v)
    && (forall f: UrlField :: f != Host && f != Port && f != Userinfo ==>
          (f in u.marked <==> f in v.marked) && u.data[f] == v.data[f])
    && (Host in u.marked <==> Host in v.marked)
  }

  predicate Digits(e: Extent, buf: seq<Byte>) {
    e.off + e.len <= |buf| && forall k :: e.off <= k < e.off + e.len ==> IsNum(buf[k])
  }

  /** The port and the host proper, as far as they have been seen, follow each other in [lo, at). */
  ghost predicate HostInv(u: Url, s: HostState, buf: seq<Byte>, lo: nat, at: nat)
    ensures HostInv(u, s, buf, lo, at) ==> Full(u)
  {
    && Full(u) && lo <= at <= |buf|
    && (Port in u.marked ==> Digits(u.data[Port], buf))
    && var (user, host, port) := (u.data[Userinfo], u.data[Host], u.data[Port]);
    && (Port in u.marked <==> s.InPort?)
    && match s
       case UserinfoStart => Userinfo !in u.marked && host.len == 0
       case InUserinfo => Userinfo in u.marked && host.len == 0 && Within(user, lo, at) && user.off + user.len == at
       case HostStart | V6Start => host.len == 0 && (Userinfo in u.marked ==> Within(user, lo, at))
       case InHost | InV6 =>
         Within(host, lo, at) && host.off + host.len == at && (Userinfo in u.marked ==> Within(user, lo, host.off))
       case V6End | PortStart => Within(host, lo, at) && (Userinfo in u.marked ==> Within(user, lo, host.off))
       case InPort =>
         && Within(host, lo, port.off) && Within(port, lo, at) && port.off + port.len == at
         && (Userinfo in u.marked ==> Within(user, lo, host.off))
  }

  lemma HostByteOk(u: Url, s: HostState, buf: seq<Byte>, lo: nat, at: nat)
    requires HostInv(u, s, buf, lo, at) && at < |buf| < U16
    ensures var t := ParseHostChar(s, buf[at]);
            t.Some? ==> HostInv(HostByte(u, s, t.value, at), t.value, buf, lo, at + 1)
                        && Outside(u, HostByte(u, s, t.value, at))
  {
    hide IsUserinfoChar, IsHostChar, IsHex, IsNum;
  }

  lemma {:induction false} HostFromOk(u: Url, s: HostState, buf: seq<Byte>, lo: nat, at: nat, end: nat)
    requires at <= end <= |buf| < U16 && HostInv(u, s, buf, lo, at)
    ensures var r := HostFrom(u, s, buf, at, end);
            r.Some? ==> Outside(u, r.value) && exists t :: HostMayEnd(t) && HostInv(r.value, t, buf, lo, end)
    decreases end - at
  {
    hide HostByte, ParseHostChar, HostInv;
    if at < end {
      HostByteOk(u, s, buf, lo, at);
      var t := ParseHostChar(s, buf[at]);
      if t.Some? {
        HostFromOk(HostByte(u, s, t.value, at), t.value, buf, lo, at + 1, end);
      }
    }
  }

  /** A host part that was accepted: the host is not empty, and its parts keep to the old extent. */
  lemma ParseHostOk(u: Url, buf: seq<Byte>, foundAt: bool)
    requires |buf| < U16 && Laid(u, |buf|) && Port !in u.marked && Userinfo !in u.marked
    requires Host !in u.marked ==> u.data[Host] == NOWHERE
    ensures u.data[Host].off + u.data[Host].len <= |buf|
    ensures var r := ParseHost(u, buf, foundAt);
            r.Some? ==> Host in u.marked && Laid(r.value, |buf|) && (Port in r.value.marked ==> Digits(r.value.data[Port], buf))
  {
    hide HostByte, ParseHostChar;
    var e := u.data[Host];
    var v := u.(data := u.data[Host := Extent(e.off, 0)]);
    var s := if foundAt then UserinfoStart else HostStart;
    HostFromOk(v, s, buf, e.off, e.off, e.off + e.len);
    var r := ParseHost(u, buf, foundAt);
    if r.Some? && Host in u.marked {
      var t :| HostMayEnd(t) && HostInv(r.value, t, buf, e.off, e.off + e.len);
      SplitLaid(u, v, r.value, t, buf, |buf|);
    }
  }

  lemma SplitLaid(u: Url, v: Url, w: Url, t: HostState, buf: seq<Byte>, n: nat)
    requires Laid(u, n) && Host in u.marked && Port !in u.marked && Userinfo !in u.marked
    requires var e := u.data[Host];
             && v == u.(data := u.data[Host := Extent(e.off, 0)]) && Outside(v, w)
             && HostMayEnd(t) && HostInv(w, t, buf, e.off, e.off + e.len)
    ensures Laid(w, n)
  {
    var e := u.data[Host];
    forall f: UrlField | f in w.marked
      ensures Within(w.data[f], 0, n)
      ensures f == Host || f == Port || f == Userinfo ==> Within(w.data[f], e.off, e.off + e.len)
    {
    }
  }

  // ---------------------------------------------------------------- http_parser_parse_url

  lemma StartOk(isConnect: bool)
    ensures ScanOk(ScanStart(isConnect), 0)
  {
    ZeroedIsFull();
  }

  /** On a zeroed result; None stands for a nonzero return value. */
  function ParseUrl(buf: seq<Byte>, isConnect: bool): (r: Option<Url>)
    requires |buf| < U16
    ensures r.Some? ==> Laid(r.value, |buf|)
    ensures r.Some? && Port in r.value.marked ==>
              var e := r.value.data[Port];
              Digits(e, buf) && r.value.port == Decimal(buf[e.off..e.off + e.len]) <= 0xffff
  {
    StartOk(isConnect);
    ScanFromOk(ScanStart(isConnect), buf, 0);
    match ScanFrom(ScanStart(isConnect), buf, 0)
    case None => None
    case Some(c) =>
      ParseHostOk(c.url, buf, c.foundAt);
      var split := if Schema in c.url.marked || Host in c.url.marked then ParseHost(c.url, buf, c.foundAt) else Some(c.url);
      match split
      case None => None
      case Some(u) =>
        if isConnect && u.marked != {Host, Port} then None
        else if Port !in u.marked then Some(u)
        else
          var e := u.data[Port];
          var v := Decimal(buf[e.off..e.off + e.len]);
          assert Digits(e, buf);
          if 0 <= v <= 0xffff then Some(u.(port := v)) else None
  }

  method HttpParserParseUrl(buf: seq<Byte>, isConnect: bool) returns (r: Option<Url>)
    requires |buf| < U16
    ensures r == ParseUrl(buf, isConnect)
  {
    hide ParseHost, ScanFrom, HostFrom;
    var scan := ScanUrl(buf, isConnect);
    if scan.None? {
      return None;
    }
    var u := scan.value.url;
    StartOk(isConnect);
    ScanFromOk(ScanStart(isConnect), buf, 0);
    ParseHostOk(u, buf, scan.value.foundAt);
    if Schema in u.marked || Host in u.marked {
      var split := SplitHost(u, buf, scan.value.foundAt);
      if split.None? {
        return None;
      }
      u := split.value;
    }
    if isConnect && u.marked != {Host, Port} {
      return None;
    }
    if Port in u.marked {
      var e := u.data[Port];
      var v := Decimal(buf[e.off..e.off + e.len]);
      if !(0 <= v <= 0xffff) {
        return None;
      }
      u := u.(port := v);
    }
    return Some(u);
  }

  /** The two loops of the source, each against its function. */
  method ScanUrl(buf: seq<Byte>, isConnect: bool) returns (r: Option<Scan>)
    ensures r == ScanFrom(ScanStart(isConnect), buf, 0)
  {
    var s, last, foundAt, u := if isConnect then ReqServerStart else ReqSpacesBeforeUrl, None, false, ZEROED;
    ZeroedIsFull();
    var at := 0;
    while at < |buf|
      invariant at <= |buf| && Full(u)
      invariant ScanFrom(Scan(s, last, foundAt, u), buf, at) == ScanFrom(ScanStart(isConnect), buf, 0)
    {
      s := ParseUrlChar(s, buf[at]);
      if s.Dead? {
        return None;
      }
      foundAt := foundAt || s.ReqServerWithAt?;
      var field := FieldOf(s);
      if field.Some? {
        if field == last {
          u := Grow(u, field.value);
        } else {
          u := Open(u, field.value, at);
          last := field;
        }
      }
      at := at + 1;
    }
    return Some(Scan(s, last, foundAt, u));
  }

  method SplitHost(start: Url, buf: seq<Byte>, foundAt: bool) returns (r: Option<Url>)
    requires Full(start) && start.data[Host].off + start.data[Host].len <= |buf|
    ensures r == ParseHost(start, buf, foundAt)
  {
    hide ParseHostChar;
    var at, end := start.data[Host].off, start.data[Host].off + start.data[Host].len;
    var u := start.(data := start.data[Host := Extent(at, 0)]);
    var s := if foundAt then UserinfoStart else HostStart;
    while at < end
      invariant at <= end <= |buf| && Full(u)
      invariant HostFrom(u, s, buf, at, end) == ParseHost(start, buf, foundAt)
    {
      var t := ParseHostChar(s, buf[at]);
      if t.None? {
        return None;
      }
      u := HostByte(u, s, t.value, at);
      s := t.value;
      at := at + 1;
    }
    return if HostMayEnd(s) then Some(u) else None;
  }

  /** Every field that is marked set lies inside the buffer and shares no byte with another one. */
  lemma FieldsAreDisjoint(buf: seq<Byte>, isConnect: bool, f: UrlField, g: UrlField)
    requires |buf| < U16 && ParseUrl(buf, isConnect).Some?
    requires var u := ParseUrl(buf, isConnect).value; f in u.marked && g in u.marked && f != g
    ensures var d := ParseUrl(buf, isConnect).value.data;
            && f in d && g in d
            && Within(d[f], 0, |buf|) && Within(d[g], 0, |buf|) && Apart(d[f], d[g])
  {
    hide ScanFrom, ParseHost;
  }

  // ---------------------------------------------------------------- agreement with the request parser

  /** A string that parses as a URL leaves the automaton where a request target may end. */
  lemma AcceptedMayEnd(buf: seq<Byte>, isConnect: bool)
    requires 0 < |buf| < U16 && ParseUrl(buf, isConnect).Some?
    ensures ScanFrom(ScanStart(isConnect), buf, 0).Some?
    ensures UrlMayEnd(ScanFrom(ScanStart(isConnect), buf, 0).value.state)
  {
    hide ScanFrom, ParseHost;
    StartOk(isConnect);
    ScanFromOk(ScanStart(isConnect), buf, 0);
    var c := ScanFrom(ScanStart(isConnect), buf, 0).value;
    ParseHostOk(c.url, buf, c.foundAt);
  }

  /** The request parser inside a URL, against the scan. */
  lemma {:induction false} TargetRun(p: Parser, c: Scan, buf: seq<Byte>, at: nat)
    requires P.Valid(p) && IsUrlState(p.state) && c.state == p.state && Full(c.url)
    requires at <= |buf| && p.nread + (|buf| - at) <= MAX_HEADER_SIZE
    requires ScanFrom(c, buf, at).Some?
    ensures var t := S.Run(p, buf[at..]);
            && t.status == P.Running
            && t.parser == p.(state := ScanFrom(c, buf, at).value.state, nread := p.nread + (|buf| - at))
            && t.atoms == S.Tag(P.Url, buf[at..])
    decreases |buf| - at
  {
    hide S.Step, ParseUrlChar;
    if at < |buf| {
      TargetByte(p, buf[at]);
      assert buf[at..][0] == buf[at] && buf[at..][1..] == buf[at + 1..];
      var d := ScanStep(c, buf[at], at).value;
      var q := p.(state := d.state, nread := p.nread + 1);
      TargetRun(q, d, buf, at + 1);
      assert [S.Octet(P.Url, buf[at])] + S.Tag(P.Url, buf[at + 1..]) == S.Tag(P.Url, buf[at..]);
    }
  }

  lemma TargetByte(p: Parser, ch: Byte)
    requires P.Valid(p) && IsUrlState(p.state) && p.nread < MAX_HEADER_SIZE
    requires !ParseUrlChar(p.state, ch).Dead?
    ensures S.Step(p, ch) == S.Effect(p.(state := ParseUrlChar(p.state, ch), nread := p.nread + 1), [S.Octet(P.Url, ch)], P.Running)
    ensures P.Valid(S.Step(p, ch).parser)
  {
    NotBlank(p.state, ch);
    hide ParseUrlChar;
    var q := P.Count(p);
    assert P.Switch(q, ch) == P.PassUrl(q, ch);
    assert [] + [S.Octet(P.Url, ch)] == [S.Octet(P.Url, ch)];
  }

  lemma NotBlank(s: State, ch: Byte)
    requires !ParseUrlChar(s, ch).Dead?
    ensures ch != SP && ch != CR && ch != LF
  {}

  lemma FirstTargetByte(p: Parser, ch: Byte)
    requires P.Valid(p) && p.state.ReqSpacesBeforeUrl? && p.nread < MAX_HEADER_SIZE
    requires !ParseUrlChar(ScanStart(p.verb == CONNECT).state, ch).Dead?
    ensures var s := ParseUrlChar(ScanStart(p.verb == CONNECT).state, ch);
            && S.Step(p, ch) == S.Effect(p.(state := s, nread := p.nread + 1), [S.Octet(P.Url, ch)], P.Running)
            && P.Valid(S.Step(p, ch).parser)
  {
    NotBlank(ScanStart(p.verb == CONNECT).state, ch);
    hide ParseUrlChar;
    var q := P.Count(p);
    assert P.Switch(q, ch) == P.PassUrlStart(q, ch);
    assert [] + [S.Octet(P.Url, ch)] == [S.Octet(P.Url, ch)];
  }

  lemma TargetEnds(p: Parser)
    requires P.Valid(p) && UrlMayEnd(p.state) && p.nread < MAX_HEADER_SIZE
    ensures S.Run(p, [SP]) == S.Trace(p.(state := ReqHttpStart, nread := p.nread + 1), 1, [], P.Running, ReqHttpStart)
  {
    hide S.Run;
    var q := P.Count(p);
    assert P.Switch(q, SP) == P.PassUrl(q, SP);
    var none: seq<S.Atom> := [];
    assert none + none == none;
    S.StepIsRun(p, [SP], 0);
    assert [SP][0..1] == [SP];
  }

  lemma WholeTarget(p: Parser, buf: seq<Byte>)
    requires P.Valid(p) && p.state.ReqSpacesBeforeUrl? && p.nread + |buf| + 1 <= MAX_HEADER_SIZE
    requires 0 < |buf| < U16 && ParseUrl(buf, p.verb == CONNECT).Some?
    ensures var t := S.Run(p, buf + [SP]);
            && t.status == P.Running && t.atoms == S.Tag(P.Url, buf)
            && t.parser == p.(state := ReqHttpStart, nread := p.nread + |buf| + 1)
  {
    hide S.Step, ParseUrl, P.StateOk, ParseUrlChar;
    var c := ScanStart(p.verb == CONNECT);
    AcceptedMayEnd(buf, p.verb == CONNECT);
    FirstTargetByte(p, buf[0]);
    var d := ScanStep(c, buf[0], 0).value;
    var q := p.(state := d.state, nread := p.nread + 1);
    TargetRun(q, d, buf, 1);
    assert [S.Octet(P.Url, buf[0])] + S.Tag(P.Url, buf[1..]) == S.Tag(P.Url, buf);
    var r := S.Run(p, buf).parser;
    TargetEnds(r);
    S.RunConcat(p, buf, [SP]);
    assert S.Tag(P.Url, buf) + [] == S.Tag(P.Url, buf);
  }

  /**
   URL agreement: a nonempty string that http_parser_parse_url accepts is accepted as a
   request target, by a parser that has room for it in its header limit; the parser takes
   every byte and hands the string itself to on_url.
   */
  lemma AcceptedUrlIsTarget(p: Parser, buf: seq<Byte>)
    requires P.Valid(p) && p.state.ReqSpacesBeforeUrl? && p.nread + |buf| + 1 <= MAX_HEADER_SIZE
    requires 0 < |buf| < U16 && ParseUrl(buf, p.verb == CONNECT).Some?
    ensures var r := P.Execute(p, buf + [SP]);
            && r.parser.errno == OK && r.parser.state.ReqHttpStart? && r.consumed == |buf| + 1
            && T.Joined(r.log) == [P.Data(P.Url, buf)]
  {
    hide S.Step, S.Run, ParseUrl, P.StateOk, P.Loop, S.Flatten;
    WholeTarget(p, buf);
    S.ExecuteRefinesRun(p, buf + [SP]);
    var want := [P.Data(P.Url, buf)];
    S.FlattenOne(want[0]);
    T.SameStream(P.Execute(p, buf + [SP]).log, want);
    assert T.Joined(want) == T.Push(want[0], T.Joined([]));
  }
}
