/**
 What the fields of an accepted URL are: each lies where the separators put it, and holds none of those that would
 have ended it.
 */
module HttpUrlLabels {
  import opened Basics
  import opened HttpSyntax
  import opened HttpUrl

  // ---------------------------------------------------------------- ranges of the buffer

  function EndOf(e: Extent): nat { e.off + e.len }

  predicate Free(buf: seq<Byte>, e: Extent, bad: set<Byte>) {
    EndOf(e) <= |buf| && forall k :: e.off <= k < EndOf(e) ==> buf[k] !in bad
  }

  predicate Letters(buf: seq<Byte>, n: nat) { n <= |buf| && forall k :: 0 <= k < n ==> IsAlpha(buf[k]) }

  predicate At(buf: seq<Byte>, i: int, c: char) { 0 <= i < |buf| && buf[i] == c as int }

  const NOT_IN_PATH: set<Byte> := {'?' as int, '#' as int}
  const NOT_IN_QUERY: set<Byte> := {'#' as int}
  const NOT_IN_HOST: set<Byte> := {'/' as int, '?' as int, '#' as int}

  lemma FreeMore(buf: seq<Byte>, e: Extent, bad: set<Byte>)
    requires Free(buf, e, bad) && EndOf(e) < |buf| && buf[EndOf(e)] !in bad
    ensures Free(buf, Extent(e.off, e.len + 1), bad)
  {
  }

  // ---------------------------------------------------------------- what a byte tells

  /** From the state after a byte, the byte and the state before it. */
  lemma ByteTells(s: State, ch: Byte)
    ensures var t := ParseUrlChar(s, ch);
            && (t.ReqSchema? ==> IsAlpha(ch) && (s.ReqSpacesBeforeUrl? || s.ReqSchema?))
            && (t.ReqSchemaSlash? ==> ch == ':' as int && s.ReqSchema?)
            && (t.ReqSchemaSlashSlash? ==> ch == '/' as int && s.ReqSchemaSlash?)
            && (t.ReqServerStart? ==> ch == '/' as int && s.ReqSchemaSlashSlash?)
            && (t.ReqServer? || t.ReqServerWithAt? ==>
                  ch !in NOT_IN_HOST && (s.ReqServerStart? || s.ReqServer? || s.ReqServerWithAt?))
            && (t.ReqPath? ==> ch !in NOT_IN_PATH && (!s.ReqPath? ==>
                  && (ch == '/' as int || ch == '*' as int)
                  && (s.ReqSpacesBeforeUrl? || s.ReqServerStart? || s.ReqServer? || s.ReqServerWithAt?)))
            && (t.ReqQueryStringStart? ==> ch == '?' as int)
            && (t.ReqQueryStringStart? ==> s.ReqServerStart? || s.ReqServer? || s.ReqServerWithAt? || s.ReqPath?)
            && (t.ReqQueryString? ==> ch !in NOT_IN_QUERY && (s.ReqQueryStringStart? || s.ReqQueryString?))
            && (t.ReqFragmentStart? ==> ch == '#' as int)
            && (t.ReqFragment? ==> s.ReqFragmentStart? || s.ReqFragment?)
  {
    ServerChar(ch);
    hide IsAlpha, IsUserinfoChar;
  }

  lemma ServerChar(ch: Byte)
    ensures ParseServerChar(ch).ReqServer? || ParseServerChar(ch).ReqServerWithAt? ==> ch !in NOT_IN_HOST
    ensures ParseServerChar(ch).ReqQueryStringStart? ==> ch == '?' as int
    ensures ParseServerChar(ch).ReqPath? ==> ch == '/' as int
  {
  }

  function Next(c: Scan, f: UrlField, at: nat): Extent
    requires Full(c.url)
  {
    if c.last == Some(f) then Extent(c.url.data[f].off, c.url.data[f].len + 1) else Extent(at, 1)
  }

  /** The fields after a byte: the one of the new state has grown or begun, the others are as they were. */
  lemma FieldsMove(c: Scan, ch: Byte, at: nat)
    requires ScanOk(c, at) && at + 1 < U16 && ScanStep(c, ch, at).Some?
    ensures var d := ScanStep(c, ch, at).value;
            && d.state == ParseUrlChar(c.state, ch)
            && (forall f: UrlField :: FieldOf(d.state) != Some(f) ==>
                  d.url.data[f] == c.url.data[f] && (f in d.url.marked <==> f in c.url.marked))
            && (forall f: UrlField :: FieldOf(d.state) == Some(f) ==>
                  && f in d.url.marked
                  && d.url.data[f] == Next(c, f, at)
                  && (c.last == Some(f) <==> f in c.url.marked))
  {
    hide ParseUrlChar, MarkedIn;
    UrlMoves(c.state, ch, c.url.marked);
    LastInHand(c, ch);
  }

  /** The field of the new state is the one in hand, or new. */
  lemma LastInHand(c: Scan, ch: Byte)
    requires MarkedIn(c.state, c.url.marked) && !ParseUrlChar(c.state, ch).Dead?
    requires match FieldOf(c.state) case Some(f) => c.last == Some(f) case None => true
    requires c.last.Some? ==> c.last.value in c.url.marked
    ensures var f := FieldOf(ParseUrlChar(c.state, ch));
            f.Some? && f.value in c.url.marked ==> c.last == f
  {
    hide IsUserinfoChar, IsUrlChar, IsAlpha;
  }

  // ---------------------------------------------------------------- the scan, field by field

  predicate InServer(s: State) { s.ReqServer? || s.ReqServerWithAt? }

  /** Where a scheme has ended, with its separator. */
  function AfterSchema(u: Url): nat
    requires Full(u)
  {
    if Schema in u.marked then EndOf(u.data[Schema]) + 3 else 0
  }

  predicate SchemaSeen(c: Scan, buf: seq<Byte>, at: nat)
    requires Full(c.url)
  {
    && (Schema in c.url.marked ==>
          && c.url.data[Schema].off == 0 && Letters(buf, EndOf(c.url.data[Schema]))
          && var n := EndOf(c.url.data[Schema]);
          match c.state
          case ReqSpacesBeforeUrl => false
          case ReqSchema => n == at
          case ReqSchemaSlash => n == at - 1 && At(buf, n, ':')
          case ReqSchemaSlashSlash => n == at - 2 && At(buf, n, ':') && At(buf, n + 1, '/')
          case _ => n + 3 <= at && At(buf, n, ':') && At(buf, n + 1, '/') && At(buf, n + 2, '/'))
    && (c.state.ReqSpacesBeforeUrl? ==> at == 0)
    && (c.state.ReqServerStart? ==> at == AfterSchema(c.url))
  }

  predicate HostSeen(c: Scan, buf: seq<Byte>)
    requires Full(c.url)
  {
    Host in c.url.marked ==> c.url.data[Host].off == AfterSchema(c.url) && Free(buf, c.url.data[Host], NOT_IN_HOST)
  }

  /** Where the server part has ended. */
  function AfterHost(u: Url): nat
    requires Full(u)
  {
    if Host in u.marked then EndOf(u.data[Host]) else AfterSchema(u)
  }

  predicate PathSeen(c: Scan, buf: seq<Byte>)
    requires Full(c.url)
  {
    Path in c.url.marked ==>
      && c.url.data[Path].off == AfterHost(c.url) && Free(buf, c.url.data[Path], NOT_IN_PATH)
      && (At(buf, c.url.data[Path].off, '/') || At(buf, c.url.data[Path].off, '*'))
  }

  function AfterPath(u: Url): nat
    requires Full(u)
  {
    if Path in u.marked then EndOf(u.data[Path]) else AfterHost(u)
  }

  predicate QuerySeen(c: Scan, buf: seq<Byte>, at: nat)
    requires Full(c.url)
  {
    && (Query in c.url.marked ==>
          && c.url.data[Query].off == AfterPath(c.url) + 1 && At(buf, AfterPath(c.url), '?')
          && Free(buf, c.url.data[Query], NOT_IN_QUERY))
    && (c.state.ReqQueryStringStart? ==> at == AfterPath(c.url) + 1 && At(buf, AfterPath(c.url), '?'))
  }

  predicate FragmentSeen(c: Scan, buf: seq<Byte>, at: nat)
    requires Full(c.url)
  {
    && (Fragment in c.url.marked ==> c.state.ReqFragment? && At(buf, c.url.data[Fragment].off - 1, '#'))
    && (c.state.ReqFragmentStart? ==> At(buf, at - 1, '#'))
  }

  lemma SchemaStep(c: Scan, buf: seq<Byte>, at: nat)
    requires at < |buf| < U16 && ScanOk(c, at) && SchemaSeen(c, buf, at) && ScanStep(c, buf[at], at).Some?
    ensures SchemaSeen(ScanStep(c, buf[at], at).value, buf, at + 1)
    ensures !ScanStep(c, buf[at], at).value.state.ReqSchema? ==> AfterSchema(ScanStep(c, buf[at], at).value.url) == AfterSchema(c.url)
  {
    FieldsMove(c, buf[at], at);
    ByteTells(c.state, buf[at]);
    hide ScanStep, ParseUrlChar, Laid, IsAlpha;
  }

  lemma HostStep(c: Scan, buf: seq<Byte>, at: nat)
    requires at < |buf| < U16 && ScanOk(c, at) && SchemaSeen(c, buf, at) && HostSeen(c, buf) && ScanStep(c, buf[at], at).Some?
    ensures HostSeen(ScanStep(c, buf[at], at).value, buf)
  {
    SchemaStep(c, buf, at);
    FieldsMove(c, buf[at], at);
    ByteTells(c.state, buf[at]);
    var d := ScanStep(c, buf[at], at).value;
    hide ScanStep, ParseUrlChar, Laid, Letters, SchemaSeen;
    if InServer(d.state) {
      HostBegins(c, buf, at);
      if c.last == Some(Host) {
        FreeMore(buf, c.url.data[Host], NOT_IN_HOST);
      }
    } else if d.state.ReqSchema? {
      NoHostYet(c, d, buf, at);
    }
  }

  lemma HostBegins(c: Scan, buf: seq<Byte>, at: nat)
    requires ScanOk(c, at) && SchemaSeen(c, buf, at) && (c.state.ReqServerStart? || InServer(c.state))
    ensures c.state.ReqServerStart? ==> at == AfterSchema(c.url)
    ensures Host in c.url.marked && InServer(c.state) ==> EndOf(c.url.data[Host]) == at
    ensures Host in c.url.marked <==> InServer(c.state)
  {
    hide Laid, Letters;
  }

  lemma NoHostYet(c: Scan, d: Scan, buf: seq<Byte>, at: nat)
    requires ScanOk(c, at) && d.state.ReqSchema? && (c.state.ReqSpacesBeforeUrl? || c.state.ReqSchema?)
    requires Full(d.url) && (Host in d.url.marked <==> Host in c.url.marked)
    ensures Host !in d.url.marked
  {
    hide Laid;
  }

  /** Where the path, the query and the fragment would begin is settled once the server part is over. */
  predicate PastServer(s: State) { !s.ReqSpacesBeforeUrl? && !s.ReqSchema? && !s.ReqSchemaSlash? && !s.ReqSchemaSlashSlash?
                                   && !s.ReqServerStart? && !InServer(s) }

  /** The bytes taken so far end with the server part while it is being read. */
  lemma AtServerEnd(c: Scan, buf: seq<Byte>, at: nat)
    requires ScanOk(c, at) && SchemaSeen(c, buf, at) && HostSeen(c, buf)
    ensures c.state.ReqSpacesBeforeUrl? || c.state.ReqServerStart? || InServer(c.state) ==>
              at == AfterHost(c.url) && Path !in c.url.marked && Query !in c.url.marked
  {
    hide Laid, Letters, Free;
  }

  lemma PathStep(c: Scan, buf: seq<Byte>, at: nat)
    requires at < |buf| < U16 && ScanOk(c, at) && SchemaSeen(c, buf, at) && HostSeen(c, buf) && PathSeen(c, buf)
    requires ScanStep(c, buf[at], at).Some?
    ensures PathSeen(ScanStep(c, buf[at], at).value, buf)
  {
    SchemaStep(c, buf, at);
    FieldsMove(c, buf[at], at);
    ByteTells(c.state, buf[at]);
    AtServerEnd(c, buf, at);
    PathInHand(c, at);
    var d := ScanStep(c, buf[at], at).value;
    hide ScanStep, ParseUrlChar, ScanOk, SchemaSeen, HostSeen;
    if d.state.ReqPath? && c.last == Some(Path) {
      FreeMore(buf, c.url.data[Path], NOT_IN_PATH);
    }
  }

  lemma PathInHand(c: Scan, at: nat)
    requires ScanOk(c, at)
    ensures c.state.ReqPath? ==> Path in c.url.marked && EndOf(c.url.data[Path]) == at && c.last == Some(Path)
    ensures Path in c.url.marked ==> PastServer(c.state)
    ensures Query in c.url.marked ==> PastServer(c.state) && !c.state.ReqPath? && !c.state.ReqQueryStringStart?
    ensures c.state.ReqQueryString? ==> Query in c.url.marked && EndOf(c.url.data[Query]) == at && c.last == Some(Query)
    ensures Fragment in c.url.marked ==> c.state.ReqFragment?
    ensures c.state.ReqFragment? ==> Fragment in c.url.marked && EndOf(c.url.data[Fragment]) == at && c.last == Some(Fragment)
    ensures Host in c.url.marked ==> !c.state.ReqSpacesBeforeUrl? && !c.state.ReqServerStart? && !c.state.ReqSchema?
    ensures InServer(c.state) ==> Host in c.url.marked
  {
    hide Laid;
  }

  lemma QueryStep(c: Scan, buf: seq<Byte>, at: nat)
    requires at < |buf| < U16 && ScanOk(c, at) && SchemaSeen(c, buf, at) && HostSeen(c, buf) && QuerySeen(c, buf, at)
    requires ScanStep(c, buf[at], at).Some?
    ensures QuerySeen(ScanStep(c, buf[at], at).value, buf, at + 1)
  {
    SchemaStep(c, buf, at);
    FieldsMove(c, buf[at], at);
    ByteTells(c.state, buf[at]);
    AtServerEnd(c, buf, at);
    PathInHand(c, at);
    var d := ScanStep(c, buf[at], at).value;
    hide ScanStep, ParseUrlChar, ScanOk, SchemaSeen, HostSeen, AfterSchema;
    if d.state.ReqQueryString? && c.last == Some(Query) {
      FreeMore(buf, c.url.data[Query], NOT_IN_QUERY);
    }
  }

  lemma FragmentStep(c: Scan, buf: seq<Byte>, at: nat)
    requires at < |buf| < U16 && ScanOk(c, at) && FragmentSeen(c, buf, at) && ScanStep(c, buf[at], at).Some?
    ensures FragmentSeen(ScanStep(c, buf[at], at).value, buf, at + 1)
  {
    FieldsMove(c, buf[at], at);
    ByteTells(c.state, buf[at]);
    PathInHand(c, at);
    OnlyFragment(c.state, buf[at]);
    hide ScanStep, ParseUrlChar, ScanOk;
  }

  lemma OnlyFragment(s: State, ch: Byte)
    ensures s.ReqFragment? && !ParseUrlChar(s, ch).Dead? ==> ParseUrlChar(s, ch).ReqFragment?
  {
    hide IsUrlChar;
  }

  ghost predicate AllSeen(c: Scan, buf: seq<Byte>, at: nat) {
    && ScanOk(c, at) && SchemaSeen(c, buf, at) && HostSeen(c, buf) && PathSeen(c, buf) && QuerySeen(c, buf, at)
    && FragmentSeen(c, buf, at)
  }

  lemma {:induction false} ScanSees(c: Scan, buf: seq<Byte>, at: nat)
    requires at <= |buf| < U16 && AllSeen(c, buf, at)
    ensures ScanFrom(c, buf, at).Some? ==> AllSeen(ScanFrom(c, buf, at).value, buf, |buf|)
    decreases |buf| - at
  {
    assert Full(c.url);
    hide ScanStep, ScanOk, SchemaSeen, HostSeen, PathSeen, QuerySeen, FragmentSeen;
    if at < |buf| && ScanStep(c, buf[at], at).Some? {
      SchemaStep(c, buf, at);
      HostStep(c, buf, at);
      PathStep(c, buf, at);
      QueryStep(c, buf, at);
      FragmentStep(c, buf, at);
      ScanStepOk(c, buf[at], at);
      ScanSees(ScanStep(c, buf[at], at).value, buf, at + 1);
    }
  }

  lemma SeenAtTheStart(buf: seq<Byte>, isConnect: bool)
    ensures AllSeen(ScanStart(isConnect), buf, 0)
  {
    StartOk(isConnect);
  }

  // ---------------------------------------------------------------- the server part

  /** The host proper: in brackets, or from the begin of the server part, or behind an at sign. */
  predicate HostLabel(u: Url, buf: seq<Byte>, lo: nat)
    requires Full(u)
  {
    var e := u.data[Host];
    || (At(buf, e.off - 1, '[') && At(buf, EndOf(e), ']'))
    || e.off == lo || At(buf, e.off - 1, '@')
  }

  predicate UserLabel(u: Url, buf: seq<Byte>)
    requires Full(u)
  {
    Userinfo in u.marked ==> At(buf, EndOf(u.data[Userinfo]), '@')
  }

  predicate PortLabel(u: Url, buf: seq<Byte>)
    requires Full(u)
  {
    Port in u.marked ==> At(buf, u.data[Port].off - 1, ':')
  }

  ghost predicate ServerSeen(u: Url, s: HostState, buf: seq<Byte>, lo: nat, at: nat)
    requires Full(u)
  {
    && PortLabel(u, buf)
    && (s.UserinfoStart? || s.InUserinfo? || UserLabel(u, buf))
    && match s
       case UserinfoStart => true
       case InUserinfo => true
       case HostStart => at == lo || At(buf, at - 1, '@')
       case V6Start => At(buf, at - 1, '[')
       case InHost => u.data[Host].off == lo || At(buf, u.data[Host].off - 1, '@')
       case InV6 => At(buf, u.data[Host].off - 1, '[')
       case V6End => HostLabel(u, buf, lo)
       case PortStart => HostLabel(u, buf, lo) && At(buf, at - 1, ':')
       case InPort => HostLabel(u, buf, lo)
  }

  /** From the host automaton's state after a byte, the byte and the state before it. */
  lemma HostByteTells(s: HostState, ch: Byte)
    ensures var t := ParseHostChar(s, ch);
            t.Some? ==>
              && (t.value.InUserinfo? ==> s.UserinfoStart? || s.InUserinfo?)
              && (t.value.HostStart? ==> ch == '@' as int && (s.UserinfoStart? || s.InUserinfo?))
              && (t.value.V6Start? ==> ch == '[' as int && s.HostStart?)
              && (t.value.InHost? ==> s.HostStart? || s.InHost?)
              && (t.value.InV6? ==> s.V6Start? || s.InV6?)
              && (t.value.V6End? ==> ch == ']' as int && s.InV6?)
              && (t.value.PortStart? ==> ch == ':' as int && (s.InHost? || s.V6End?))
              && (t.value.InPort? ==> s.PortStart? || s.InPort?)
              && !t.value.UserinfoStart?
  {
    hide IsUserinfoChar, IsHostChar, IsHex, IsNum;
  }

  lemma ServerStep(u: Url, s: HostState, buf: seq<Byte>, lo: nat, at: nat)
    requires HostInv(u, s, buf, lo, at) && ServerSeen(u, s, buf, lo, at) && at < |buf| < U16
    ensures var t := ParseHostChar(s, buf[at]);
            t.Some? ==> ServerSeen(HostByte(u, s, t.value, at), t.value, buf, lo, at + 1)
  {
    HostByteTells(s, buf[at]);
    hide ParseHostChar, Digits;
  }

  lemma {:induction false} ServerFrom(u: Url, s: HostState, buf: seq<Byte>, lo: nat, at: nat, end: nat)
    requires at <= end <= |buf| < U16 && HostInv(u, s, buf, lo, at) && ServerSeen(u, s, buf, lo, at)
    ensures var r := HostFrom(u, s, buf, at, end);
            r.Some? ==> PortLabel(r.value, buf) && UserLabel(r.value, buf) && HostLabel(r.value, buf, lo)
    decreases end - at
  {
    hide HostByte, ParseHostChar, HostInv;
    if at < end {
      HostByteOk(u, s, buf, lo, at);
      ServerStep(u, s, buf, lo, at);
      var t := ParseHostChar(s, buf[at]);
      if t.Some? {
        hide ServerSeen;
        ServerFrom(HostByte(u, s, t.value, at), t.value, buf, lo, at + 1, end);
      }
    }
  }

  // ---------------------------------------------------------------- no byte is forgotten

  const SEPARATORS: set<Byte> :=
    {':' as int, '/' as int, '?' as int, '#' as int, '@' as int, '[' as int, ']' as int}

  predicate In(e: Extent, k: nat) { e.off <= k < EndOf(e) }

  ghost predicate Held(u: Url, k: nat)
    requires Full(u)
  {
    exists f: UrlField :: f in u.marked && In(u.data[f], k)
  }

  /** Each byte of the range lies in a field, or separates fields. */
  ghost predicate Covered(u: Url, buf: seq<Byte>, lo: nat, hi: nat)
    requires Full(u) && hi <= |buf|
  {
    forall k: nat :: lo <= k < hi ==> Held(u, k) || buf[k] in SEPARATORS
  }

  lemma ByteSeparates(s: State, ch: Byte)
    ensures !ParseUrlChar(s, ch).Dead? && FieldOf(ParseUrlChar(s, ch)).None? ==> ch in SEPARATORS
  {
    ServerChar(ch);
    hide IsAlpha, IsUserinfoChar, IsUrlChar;
  }

  lemma CoverGrows(u: Url, v: Url, buf: seq<Byte>, lo: nat, at: nat)
    requires Full(u) && Full(v) && lo <= at < |buf| && Covered(u, buf, lo, at)
    requires forall f: UrlField, k: nat :: f in u.marked && In(u.data[f], k) ==> f in v.marked && In(v.data[f], k)
    requires Held(v, at) || buf[at] in SEPARATORS
    ensures Covered(v, buf, lo, at + 1)
  {
    forall k: nat | lo <= k < at && Held(u, k)
      ensures Held(v, k)
    {
      var f: UrlField :| f in u.marked && In(u.data[f], k);
      assert f in v.marked && In(v.data[f], k);
    }
  }

  lemma CoverStep(c: Scan, buf: seq<Byte>, at: nat)
    requires at < |buf| < U16 && ScanOk(c, at) && Covered(c.url, buf, 0, at) && ScanStep(c, buf[at], at).Some?
    ensures Covered(ScanStep(c, buf[at], at).value.url, buf, 0, at + 1)
  {
    FieldsMove(c, buf[at], at);
    ByteSeparates(c.state, buf[at]);
    var d := ScanStep(c, buf[at], at).value;
    InHandEnds(c, buf[at], at);
    NotDead(c, buf[at], at);
    hide ScanStep, ParseUrlChar, ScanOk, Covered;
    if FieldOf(d.state).Some? {
      var f := FieldOf(d.state).value;
      assert f in d.url.marked && In(d.url.data[f], at);
    }
    CoverGrows(c.url, d.url, buf, 0, at);
  }

  lemma NotDead(c: Scan, ch: Byte, at: nat)
    requires Full(c.url) && ScanStep(c, ch, at).Some?
    ensures !ParseUrlChar(c.state, ch).Dead?
  {
    hide ParseUrlChar;
  }

  lemma InHandEnds(c: Scan, ch: Byte, at: nat)
    requires ScanOk(c, at) && !ParseUrlChar(c.state, ch).Dead?
    ensures var f := FieldOf(ParseUrlChar(c.state, ch));
            f.Some? && c.last == f ==> EndOf(c.url.data[f.value]) == at
  {
    UrlMoves(c.state, ch, c.url.marked);
    hide ParseUrlChar, Laid, MarkedIn;
  }

  lemma {:induction false} ScanCovers(c: Scan, buf: seq<Byte>, at: nat)
    requires at <= |buf| < U16 && ScanOk(c, at) && Covered(c.url, buf, 0, at)
    ensures ScanFrom(c, buf, at).Some? ==> Covered(ScanFrom(c, buf, at).value.url, buf, 0, |buf|)
    decreases |buf| - at
  {
    assert Full(c.url);
    hide ScanStep, ScanOk, Covered;
    if at < |buf| && ScanStep(c, buf[at], at).Some? {
      CoverStep(c, buf, at);
      ScanStepOk(c, buf[at], at);
      ScanCovers(ScanStep(c, buf[at], at).value, buf, at + 1);
    }
  }

  lemma HostByteSeparates(s: HostState, ch: Byte)
    ensures var t := ParseHostChar(s, ch);
            t.Some? ==> ch in SEPARATORS || t.value.InUserinfo? || t.value.InHost? || t.value.InV6? || t.value.InPort?
  {
    hide IsUserinfoChar, IsHostChar, IsHex, IsNum;
  }

  lemma HostCoverStep(u: Url, s: HostState, t: HostState, buf: seq<Byte>, lo: nat, at: nat)
    requires HostInv(u, s, buf, lo, at) && Host in u.marked && at < |buf| < U16 && ParseHostChar(s, buf[at]) == Some(t)
    requires Covered(u, buf, lo, at)
    ensures Host in HostByte(u, s, t, at).marked && Covered(HostByte(u, s, t, at), buf, lo, at + 1)
  {
    HostByteTells(s, buf[at]);
    HostByteSeparates(s, buf[at]);
    var v := HostByte(u, s, t, at);
    hide ParseHostChar, Digits, Covered;
    if t.InUserinfo? || t.InHost? || t.InV6? || t.InPort? {
      var f := if t.InUserinfo? then Userinfo else if t.InPort? then Port else Host;
      assert f in v.marked && In(v.data[f], at);
    }
    CoverGrows(u, v, buf, lo, at);
  }

  lemma {:induction false} HostCovers(u: Url, s: HostState, buf: seq<Byte>, lo: nat, at: nat, end: nat)
    requires at <= end <= |buf| < U16 && HostInv(u, s, buf, lo, at) && Host in u.marked && Covered(u, buf, lo, at)
    ensures var r := HostFrom(u, s, buf, at, end); r.Some? ==> Covered(r.value, buf, lo, end)
    decreases end - at
  {
    hide HostByte, ParseHostChar, HostInv, Covered;
    if at < end {
      HostByteOk(u, s, buf, lo, at);
      var t := ParseHostChar(s, buf[at]);
      if t.Some? {
        HostCoverStep(u, s, t.value, buf, lo, at);
        HostCovers(HostByte(u, s, t.value, at), t.value, buf, lo, at + 1, end);
      }
    }
  }

  // ---------------------------------------------------------------- the labels of an accepted URL

  /** The fields of a URL that was accepted, as the separators of its text say. */
  ghost predicate Labelled(u: Url, buf: seq<Byte>)
    requires Full(u)
  {
    // a scheme is letters at the begin, and "://" follows it
    && (Schema in u.marked ==>
          var e := u.data[Schema];
          e.off == 0 && Letters(buf, e.len) && At(buf, e.len, ':') && At(buf, e.len + 1, '/') && At(buf, e.len + 2, '/'))
    // a user is followed by an at sign, a port preceded by a colon
    && UserLabel(u, buf) && PortLabel(u, buf)
    // a host stands at the begin of the server part, behind an at sign or in brackets
    && (Host in u.marked ==> HostLabel(u, buf, AfterSchema(u)))
    // a path begins with a slash or a star and holds no separator
    && (Path in u.marked ==>
          var e := u.data[Path]; Free(buf, e, NOT_IN_PATH) && (At(buf, e.off, '/') || At(buf, e.off, '*')))
    // a query is preceded by a question mark and holds no number sign; a fragment is preceded by one and ends the text
    && (Query in u.marked ==>
          var e := u.data[Query]; Free(buf, e, NOT_IN_QUERY) && At(buf, e.off - 1, '?'))
    && (Fragment in u.marked ==> var e := u.data[Fragment]; At(buf, e.off - 1, '#') && EndOf(e) == |buf|)
    // a path ends the text, or is followed by a separator; so is a query
    && (Path in u.marked && Query in u.marked ==> u.data[Query].off == EndOf(u.data[Path]) + 1)
    // there is a scheme exactly when the text begins with a letter and the server part is not all there is
    && (Schema in u.marked ==> Host in u.marked)
  }

  lemma ScannedIsLabelled(c: Scan, buf: seq<Byte>)
    requires AllSeen(c, buf, |buf|) && UrlMayEnd(c.state)
    ensures var u := c.url;
            && (Schema in u.marked ==>
                  var e := u.data[Schema];
                  e.off == 0 && Letters(buf, e.len) && At(buf, e.len, ':') && At(buf, e.len + 1, '/') && At(buf, e.len + 2, '/'))
            && (Host in u.marked ==> u.data[Host].off == AfterSchema(u))
            && (Path in u.marked ==>
                  var e := u.data[Path]; Free(buf, e, NOT_IN_PATH) && (At(buf, e.off, '/') || At(buf, e.off, '*')))
            && (Query in u.marked ==>
                  var e := u.data[Query]; Free(buf, e, NOT_IN_QUERY) && At(buf, e.off - 1, '?'))
            && (Fragment in u.marked ==> var e := u.data[Fragment]; At(buf, e.off - 1, '#') && EndOf(e) == |buf|)
            && (Path in u.marked && Query in u.marked ==> u.data[Query].off == EndOf(u.data[Path]) + 1)
  {
    PathInHand(c, |buf|);
    hide Laid;
  }

  /**
   Whatever is accepted as a URL, its fields are what the separators of the text make them.
   */
  lemma FieldsAreLabelled(buf: seq<Byte>, isConnect: bool)
    requires 0 < |buf| < U16 && ParseUrl(buf, isConnect).Some?
    ensures Labelled(ParseUrl(buf, isConnect).value, buf)
  {
    hide AllSeen, Laid, Free, Letters, HostLabel, UserLabel, PortLabel, ParseUrl, ParseHost;
    var c, w := ParsedParts(buf, isConnect);
    ScannedIsLabelled(c, buf);
    SplitIsLabelled(c, buf);
    var u := ParseUrl(buf, isConnect).value;
    SameLabels(w, u, buf);
    if Schema !in c.url.marked && Host !in c.url.marked {
      NoServer(c.url, buf);
    }
  }

  lemma SameLabels(w: Url, u: Url, buf: seq<Byte>)
    requires Full(w) && Full(u) && u.data == w.data && u.marked == w.marked
    ensures UserLabel(w, buf) == UserLabel(u, buf) && PortLabel(w, buf) == PortLabel(u, buf)
    ensures AfterSchema(u) == AfterSchema(w) && HostLabel(w, buf, AfterSchema(w)) == HostLabel(u, buf, AfterSchema(u))
  {
  }

  lemma NoServer(u: Url, buf: seq<Byte>)
    requires Full(u) && Userinfo !in u.marked && Port !in u.marked
    ensures UserLabel(u, buf) && PortLabel(u, buf)
  {
  }

  /** The scan behind an accepted URL, and its fields after the server part has been split. */
  lemma ParsedParts(buf: seq<Byte>, isConnect: bool) returns (c: Scan, w: Url)
    requires 0 < |buf| < U16 && ParseUrl(buf, isConnect).Some?
    ensures ScanFrom(ScanStart(isConnect), buf, 0) == Some(c)
    ensures AllSeen(c, buf, |buf|) && UrlMayEnd(c.state) && Full(w) && Full(c.url)
    ensures c.url.data[Host].off + c.url.data[Host].len <= |buf| && Userinfo !in c.url.marked && Port !in c.url.marked
    ensures if Schema in c.url.marked || Host in c.url.marked then
              ParseHost(c.url, buf, c.foundAt) == Some(w) && Host in c.url.marked
            else w == c.url
    ensures var u := ParseUrl(buf, isConnect).value; u.data == w.data && u.marked == w.marked && Full(u)
  {
    SeenAtTheStart(buf, isConnect);
    ScanSees(ScanStart(isConnect), buf, 0);
    AcceptedMayEnd(buf, isConnect);
    c := ScanFrom(ScanStart(isConnect), buf, 0).value;
    ScanIsOk(c, buf);
    hide ScanFrom, ScanStart, ParseHost, AllSeen, ScanOk, Laid;
    ParseHostOk(c.url, buf, c.foundAt);
    w := if Schema in c.url.marked || Host in c.url.marked then ParseHost(c.url, buf, c.foundAt).value else c.url;
  }

  lemma ScanIsOk(c: Scan, buf: seq<Byte>)
    requires AllSeen(c, buf, |buf|)
    ensures Laid(c.url, |buf|) && Userinfo !in c.url.marked && Port !in c.url.marked && Full(c.url)
    ensures Host !in c.url.marked ==> c.url.data[Host] == NOWHERE
  {
    hide Laid;
  }

  lemma SplitIsLabelled(c: Scan, buf: seq<Byte>)
    requires AllSeen(c, buf, |buf|) && |buf| < U16
    ensures c.url.data[Host].off + c.url.data[Host].len <= |buf|
    ensures var r := ParseHost(c.url, buf, c.foundAt);
            r.Some? ==>
              && Outside(c.url, r.value) && PortLabel(r.value, buf) && UserLabel(r.value, buf)
              && (Host in c.url.marked ==> HostLabel(r.value, buf, c.url.data[Host].off))
  {
    hide HostFrom, AllSeen, Laid, HostLabel;
    ScanIsOk(c, buf);
    ParseHostOk(c.url, buf, c.foundAt);
    var e := c.url.data[Host];
    var v := c.url.(data := c.url.data[Host := Extent(e.off, 0)]);
    var s := if c.foundAt then UserinfoStart else HostStart;
    SplitStarts(c.url, v, s, buf);
    hide HostInv, ServerSeen, PortLabel, UserLabel, Outside;
    HostFromOk(v, s, buf, e.off, e.off, e.off + e.len);
    ServerFrom(v, s, buf, e.off, e.off, e.off + e.len);
    if ParseHost(c.url, buf, c.foundAt).Some? {
      OutsideBoth(c.url, v, ParseHost(c.url, buf, c.foundAt).value);
    }
  }

  lemma SplitStarts(u: Url, v: Url, s: HostState, buf: seq<Byte>)
    requires Full(u) && v == u.(data := u.data[Host := Extent(u.data[Host].off, 0)])
    requires (s.UserinfoStart? || s.HostStart?) && Userinfo !in u.marked && Port !in u.marked && u.data[Host].off <= |buf|
    ensures HostInv(v, s, buf, u.data[Host].off, u.data[Host].off)
    ensures ServerSeen(v, s, buf, u.data[Host].off, u.data[Host].off) && Outside(u, v)
  {
  }

  lemma OutsideBoth(u: Url, v: Url, w: Url)
    requires Outside(u, v) && Outside(v, w)
    ensures Outside(u, w)
  {
  }

  lemma SplitCovers(c: Scan, buf: seq<Byte>)
    requires AllSeen(c, buf, |buf|) && |buf| < U16 && Host in c.url.marked
    ensures c.url.data[Host].off + c.url.data[Host].len <= |buf|
    ensures var r := ParseHost(c.url, buf, c.foundAt);
            r.Some? ==> Outside(c.url, r.value)
                        && Covered(r.value, buf, c.url.data[Host].off, EndOf(c.url.data[Host]))
  {
    hide HostFrom, AllSeen, Laid;
    ScanIsOk(c, buf);
    ParseHostOk(c.url, buf, c.foundAt);
    SplitIsLabelled(c, buf);
    var e := c.url.data[Host];
    var v := c.url.(data := c.url.data[Host := Extent(e.off, 0)]);
    var s := if c.foundAt then UserinfoStart else HostStart;
    SplitStarts(c.url, v, s, buf);
    hide HostInv, ServerSeen, Outside;
    HostCovers(v, s, buf, e.off, e.off, e.off + e.len);
  }

  lemma CoversTogether(u: Url, w: Url, buf: seq<Byte>)
    requires Outside(u, w) && Port !in u.marked && Userinfo !in u.marked && Covered(u, buf, 0, |buf|)
    requires EndOf(u.data[Host]) <= |buf|
    requires Covered(w, buf, u.data[Host].off, EndOf(u.data[Host]))
    ensures Covered(w, buf, 0, |buf|)
  {
    forall k: nat | 0 <= k < |buf|
      ensures Held(w, k) || buf[k] in SEPARATORS
    {
      if Held(u, k) {
        var f: UrlField :| f in u.marked && In(u.data[f], k);
        if f != Host {
          assert f in w.marked && In(w.data[f], k);
        }
      }
    }
  }

  lemma ScannedIsCovered(buf: seq<Byte>, isConnect: bool)
    requires |buf| < U16 && ScanFrom(ScanStart(isConnect), buf, 0).Some?
    ensures Covered(ScanFrom(ScanStart(isConnect), buf, 0).value.url, buf, 0, |buf|)
  {
    hide ScanFrom;
    StartOk(isConnect);
    ScanCovers(ScanStart(isConnect), buf, 0);
  }

  /** Of an accepted URL no byte is forgotten: each is in a field or separates fields. */
  lemma NothingForgotten(buf: seq<Byte>, isConnect: bool)
    requires 0 < |buf| < U16 && ParseUrl(buf, isConnect).Some?
    ensures Covered(ParseUrl(buf, isConnect).value, buf, 0, |buf|)
  {
    hide AllSeen, Laid, ParseUrl, ParseHost, Covered, Outside;
    var c, w := ParsedParts(buf, isConnect);
    ScannedIsCovered(buf, isConnect);
    var u := ParseUrl(buf, isConnect).value;
    if Schema in c.url.marked || Host in c.url.marked {
      SplitCovers(c, buf);
      CoversTogether(c.url, w, buf);
    }
    SameCover(w, u, buf);
  }

  lemma SameCover(w: Url, u: Url, buf: seq<Byte>)
    requires Full(w) && Full(u) && u.data == w.data && u.marked == w.marked && Covered(w, buf, 0, |buf|)
    ensures Covered(u, buf, 0, |buf|)
  {
    forall k: nat | 0 <= k < |buf|
      ensures Held(u, k) || buf[k] in SEPARATORS
    {
      if Held(w, k) {
        var f: UrlField :| f in w.marked && In(w.data[f], k);
        assert f in u.marked && In(u.data[f], k);
      }
    }
  }
}
