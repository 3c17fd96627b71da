/**
 One header line: what the parser makes of any field name and any value, against the words it knows.
 */
module HttpFields {
  import opened Basics
  import opened HttpSyntax
  import opened HttpParser
  import opened HttpSplit
  import opened HttpLengths
  import C = HttpChunked

  // ---------------------------------------------------------------- words

  /** The text begins a word; letters of names are compared by their tokens, of values in lower case. */
  predicate Begins(t: seq<Byte>, word: string) {
    |t| <= |word| && forall i :: 0 <= i < |t| ==> t[i] == word[i] as int
  }

  function Tokens(name: seq<Byte>): (r: seq<Byte>)
    ensures |r| == |name| && forall i :: 0 <= i < |name| ==> r[i] == Token(name[i])
  {
    seq(|name|, i requires 0 <= i < |name| => Token(name[i]))
  }

  predicate IsName(name: seq<Byte>, word: string) { |name| == |word| && Begins(Tokens(name), word) }

  function Lowered(value: seq<Byte>): (r: seq<Byte>)
    ensures |r| == |value| && forall i :: 0 <= i < |value| ==> r[i] == Lower(value[i])
  {
    seq(|value|, i requires 0 <= i < |value| => Lower(value[i]))
  }

  /** The value is a word, in any case, with blanks behind it. */
  predicate Says(value: seq<Byte>, word: string) {
    && |word| <= |value| && Begins(Lowered(value)[..|word|], word)
    && forall i :: |word| <= i < |value| ==> value[i] == SP
  }

  lemma BeginsMore(t: seq<Byte>, c: Byte, word: string)
    ensures Begins(t + [c], word) <==> Begins(t, word) && |t| < |word| && c == word[|t|] as int
  {
    if Begins(t + [c], word) {
      assert forall i :: 0 <= i < |t| ==> t[i] == (t + [c])[i];
      assert (t + [c])[|t|] == c;
    }
  }

  lemma BeginsOne(c: Byte, word: string)
    requires |word| >= 1
    ensures Begins([c], word) <==> c == word[0] as int
  {
    BeginsMore([], c, word);
    assert [] + [c] == [c];
  }

  const CONNECTION_NAME: string := "connection"
  const PROXY_NAME: string := "proxy-connection"
  const LENGTH_NAME: string := "content-length"
  const ENCODING_NAME: string := "transfer-encoding"
  const UPGRADE_NAME: string := "upgrade"

  // ---------------------------------------------------------------- the name

  function Stage(t: seq<Byte>, word: string, matching: HeaderMatch, matched: HeaderMatch): HeaderMatch {
    if |t| == |word| then matched else matching
  }

  /** How far a name has been recognised, from its tokens. */
  function NameSeen(t: seq<Byte>): HeaderMatch {
    if Begins(t, CONNECTION_NAME) || Begins(t, LENGTH_NAME) then
      if |t| == 1 then SeenC
      else if |t| == 2 then SeenCO
      else if |t| == 3 then SeenCON
      else if Begins(t, CONNECTION_NAME) then Stage(t, CONNECTION_NAME, MatchingConnection, Connection)
      else Stage(t, LENGTH_NAME, MatchingContentLength, ContentLength)
    else if Begins(t, PROXY_NAME) then Stage(t, PROXY_NAME, MatchingProxyConnection, Connection)
    else if Begins(t, ENCODING_NAME) then Stage(t, ENCODING_NAME, MatchingTransferEncoding, TransferEncoding)
    else if Begins(t, UPGRADE_NAME) then Stage(t, UPGRADE_NAME, MatchingUpgrade, Upgrade)
    else General
  }

  lemma OneName(t: seq<Byte>)
    requires |t| >= 1
    ensures Begins(t, CONNECTION_NAME) || Begins(t, LENGTH_NAME) ==> t[0] == 'c' as int
    ensures Begins(t, PROXY_NAME) ==> t[0] == 'p' as int
    ensures Begins(t, ENCODING_NAME) ==> t[0] == 't' as int
    ensures Begins(t, UPGRADE_NAME) ==> t[0] == 'u' as int
    ensures |t| >= 4 ==> !(Begins(t, CONNECTION_NAME) && Begins(t, LENGTH_NAME))
    ensures |t| <= 3 ==> (Begins(t, CONNECTION_NAME) <==> Begins(t, LENGTH_NAME))
  {
    assert CONNECTION_NAME[0] == LENGTH_NAME[0] == 'c' && CONNECTION_NAME[1] == LENGTH_NAME[1];
    assert CONNECTION_NAME[2] == LENGTH_NAME[2] && CONNECTION_NAME[3] != LENGTH_NAME[3];
  }

  lemma FirstSeen(ch: Byte)
    ensures NameSeen([Token(ch)]) == FirstMatch(Token(ch))
  {
    var t := [Token(ch)];
    hide Token;
    BeginsOne(Token(ch), CONNECTION_NAME);
    BeginsOne(Token(ch), LENGTH_NAME);
    BeginsOne(Token(ch), PROXY_NAME);
    BeginsOne(Token(ch), ENCODING_NAME);
    BeginsOne(Token(ch), UPGRADE_NAME);
    hide Begins;
  }

  /** The index goes with the name while the name is of interest. */
  predicate Tracks(h: HeaderMatch, index: nat, t: seq<Byte>) {
    h == NameSeen(t) && FieldMatch(h, index) && index <= 20 && (h != General && !Whole(h) ==> index == |t| - 1)
  }

  predicate Whole(h: HeaderMatch) { h.Connection? || h.ContentLength? || h.TransferEncoding? || h.Upgrade? }

  /** One more token, against each of the words. */
  ghost predicate OneMore(t: seq<Byte>, u: seq<Byte>, c: Byte) {
    && |u| == |t| + 1
    && (Begins(u, CONNECTION_NAME) <==> Begins(t, CONNECTION_NAME) && |t| < 10 && c == CONNECTION_NAME[|t|] as int)
    && (Begins(u, LENGTH_NAME) <==> Begins(t, LENGTH_NAME) && |t| < 14 && c == LENGTH_NAME[|t|] as int)
    && (Begins(u, PROXY_NAME) <==> Begins(t, PROXY_NAME) && |t| < 16 && c == PROXY_NAME[|t|] as int)
    && (Begins(u, ENCODING_NAME) <==> Begins(t, ENCODING_NAME) && |t| < 17 && c == ENCODING_NAME[|t|] as int)
    && (Begins(u, UPGRADE_NAME) <==> Begins(t, UPGRADE_NAME) && |t| < 7 && c == UPGRADE_NAME[|t|] as int)
  }

  lemma IsOneMore(t: seq<Byte>, c: Byte)
    ensures OneMore(t, t + [c], c)
  {
    BeginsMore(t, c, CONNECTION_NAME);
    BeginsMore(t, c, LENGTH_NAME);
    BeginsMore(t, c, PROXY_NAME);
    BeginsMore(t, c, ENCODING_NAME);
    BeginsMore(t, c, UPGRADE_NAME);
    hide Begins;
  }

  /** At most one of the words is begun. */
  ghost predicate Distinct(t: seq<Byte>) {
    var conn, length := Begins(t, CONNECTION_NAME), Begins(t, LENGTH_NAME);
    var proxy, encoding, upgrade := Begins(t, PROXY_NAME), Begins(t, ENCODING_NAME), Begins(t, UPGRADE_NAME);
    && !((conn || length) && (proxy || encoding || upgrade)) && !(proxy && (encoding || upgrade)) && !(encoding && upgrade)
    && (|t| >= 4 ==> !(conn && length)) && (|t| <= 3 ==> (conn <==> length))
  }

  lemma IsDistinct(t: seq<Byte>)
    requires |t| >= 1
    ensures Distinct(t)
  {
    OneName(t);
    hide Begins;
  }

  lemma NextOfNone(t: seq<Byte>, u: seq<Byte>, c: Byte)
    requires |t| >= 1 && OneMore(t, u, c) && NameSeen(t) == General
    ensures NameSeen(u) == General
  {
    hide Begins;
  }

  lemma NextOfC(t: seq<Byte>, u: seq<Byte>, c: Byte)
    requires |t| >= 1 && OneMore(t, u, c) && Distinct(t) && Distinct(u) && Begins(t, CONNECTION_NAME) && |t| <= 3
    ensures NameSeen(t) == if |t| == 1 then SeenC else if |t| == 2 then SeenCO else SeenCON
    ensures NameSeen(u) ==
            if |t| == 1 then (if c == 'o' as int then SeenCO else General)
            else if |t| == 2 then (if c == 'n' as int then SeenCON else General)
            else if c == 'n' as int then MatchingConnection
            else if c == 't' as int then MatchingContentLength
            else General
  {
    assert CONNECTION_NAME[1] == 'o' && CONNECTION_NAME[2] == 'n' && CONNECTION_NAME[3] == 'n' && LENGTH_NAME[3] == 't';
    hide Begins;
  }

  lemma NextOfConnection(t: seq<Byte>, u: seq<Byte>, c: Byte)
    requires |t| >= 4 && OneMore(t, u, c) && Distinct(t) && Distinct(u) && Begins(t, CONNECTION_NAME)
    ensures NameSeen(t) == Stage(t, CONNECTION_NAME, MatchingConnection, Connection)
    ensures NameSeen(u) == MatchWord(CONNECTION_NAME, |t|, c, MatchingConnection, Connection)
  {
    hide Begins;
  }

  lemma NextOfLength(t: seq<Byte>, u: seq<Byte>, c: Byte)
    requires |t| >= 4 && OneMore(t, u, c) && Distinct(t) && Distinct(u) && Begins(t, LENGTH_NAME)
    ensures NameSeen(t) == Stage(t, LENGTH_NAME, MatchingContentLength, ContentLength)
    ensures NameSeen(u) == MatchWord(LENGTH_NAME, |t|, c, MatchingContentLength, ContentLength)
  {
    hide Begins;
  }

  lemma NextOfProxy(t: seq<Byte>, u: seq<Byte>, c: Byte)
    requires |t| >= 1 && OneMore(t, u, c) && Distinct(t) && Distinct(u) && Begins(t, PROXY_NAME)
    ensures NameSeen(t) == Stage(t, PROXY_NAME, MatchingProxyConnection, Connection)
    ensures NameSeen(u) == MatchWord(PROXY_NAME, |t|, c, MatchingProxyConnection, Connection)
  {
    hide Begins;
  }

  lemma NextOfEncoding(t: seq<Byte>, u: seq<Byte>, c: Byte)
    requires |t| >= 1 && OneMore(t, u, c) && Distinct(t) && Distinct(u) && Begins(t, ENCODING_NAME)
    ensures NameSeen(t) == Stage(t, ENCODING_NAME, MatchingTransferEncoding, TransferEncoding)
    ensures NameSeen(u) == MatchWord(ENCODING_NAME, |t|, c, MatchingTransferEncoding, TransferEncoding)
  {
    hide Begins;
  }

  lemma NextOfUpgrade(t: seq<Byte>, u: seq<Byte>, c: Byte)
    requires |t| >= 1 && OneMore(t, u, c) && Distinct(t) && Distinct(u) && Begins(t, UPGRADE_NAME)
    ensures NameSeen(t) == Stage(t, UPGRADE_NAME, MatchingUpgrade, Upgrade)
    ensures NameSeen(u) == MatchWord(UPGRADE_NAME, |t|, c, MatchingUpgrade, Upgrade)
  {
    hide Begins;
  }

  lemma BegunWithin(t: seq<Byte>)
    ensures Begins(t, CONNECTION_NAME) ==> |t| <= 10
    ensures Begins(t, LENGTH_NAME) ==> |t| <= 14
    ensures Begins(t, PROXY_NAME) ==> |t| <= 16
    ensures Begins(t, ENCODING_NAME) ==> |t| <= 17
    ensures Begins(t, UPGRADE_NAME) ==> |t| <= 7
  {
  }

  lemma NothingBegun(t: seq<Byte>)
    requires |t| >= 1 && !Begins(t, CONNECTION_NAME) && !Begins(t, LENGTH_NAME) && !Begins(t, PROXY_NAME)
    requires !Begins(t, ENCODING_NAME) && !Begins(t, UPGRADE_NAME)
    ensures NameSeen(t) == General
  {
    hide Begins;
  }

  lemma NotASpace(ch: Byte)
    requires Token(ch) != 0
    ensures ch != SP
  {
  }

  lemma NextSeen(h: HeaderMatch, index: nat, t: seq<Byte>, ch: Byte)
    requires |t| >= 1 && Tracks(h, index, t) && Token(ch) != 0
    ensures var (g, i) := NextFieldMatch(h, index, ch); Tracks(g, i, t + [Token(ch)])
  {
    hide Begins, OneMore, NameSeen, Token;
    var c, u := Token(ch), t + [Token(ch)];
    NotASpace(ch);
    IsOneMore(t, c);
    IsDistinct(t);
    IsDistinct(u);
    BegunWithin(t);
    if Begins(t, CONNECTION_NAME) && |t| <= 3 {
      NextOfC(t, u, c);
    } else if Begins(t, CONNECTION_NAME) {
      NextOfConnection(t, u, c);
    } else if Begins(t, LENGTH_NAME) {
      NextOfLength(t, u, c);
    } else if Begins(t, PROXY_NAME) {
      NextOfProxy(t, u, c);
    } else if Begins(t, ENCODING_NAME) {
      NextOfEncoding(t, u, c);
    } else if Begins(t, UPGRADE_NAME) {
      NextOfUpgrade(t, u, c);
    } else {
      NothingBegun(t);
      NextOfNone(t, u, c);
    }
  }

  /** A name is taken for a known one exactly when it is that name. */
  lemma SeenExactly(name: seq<Byte>)
    requires |name| >= 1
    ensures var h := NameSeen(Tokens(name));
            && (h.Connection? <==> IsName(name, CONNECTION_NAME) || IsName(name, PROXY_NAME))
            && (h.ContentLength? <==> IsName(name, LENGTH_NAME))
            && (h.TransferEncoding? <==> IsName(name, ENCODING_NAME))
            && (h.Upgrade? <==> IsName(name, UPGRADE_NAME))
  {
    OneName(Tokens(name));
    hide Begins, Tokens;
  }

  // ---------------------------------------------------------------- the value

  /** How far a value has been recognised. */
  function WordSeen(v: seq<Byte>, word: string, matching: HeaderMatch, matched: HeaderMatch): HeaderMatch {
    if Says(v, word) then matched else if |v| < |word| && Begins(Lowered(v), word) then matching else General
  }

  function ValueSeen(name: HeaderMatch, v: seq<Byte>): HeaderMatch
    requires |v| >= 1
  {
    match name
    case TransferEncoding => WordSeen(v, "chunked", MatchingChunked, HeaderMatch.Chunked)
    case Connection =>
      if Lower(v[0]) == 'k' as int then WordSeen(v, "keep-alive", MatchingKeepAlive, KeepAlive)
      else WordSeen(v, "close", MatchingClose, Close)
    case _ => General
  }

  predicate ValueTracks(name: HeaderMatch, h: HeaderMatch, index: nat, v: seq<Byte>)
    requires |v| >= 1
  {
    && h == ValueSeen(name, v) && ValueMatch(h, index) && index <= 20
    && (h.MatchingChunked? || h.MatchingKeepAlive? || h.MatchingClose? ==> index == |v| - 1)
  }

  lemma LoweredMore(v: seq<Byte>, ch: Byte)
    ensures Lowered(v + [ch]) == Lowered(v) + [Lower(ch)]
  {
    hide Lower;
  }

  /** One more byte of a value, for one word. */
  lemma SaysMore(v: seq<Byte>, ch: Byte, word: string)
    requires |word| >= 1
    ensures Says(v + [ch], word) <==>
            (Says(v, word) && ch == SP)
            || (|v| == |word| - 1 && Begins(Lowered(v), word) && Lower(ch) == word[|v|] as int)
    ensures |v| + 1 < |word| ==>
              (Begins(Lowered(v + [ch]), word) <==> Begins(Lowered(v), word) && Lower(ch) == word[|v|] as int)
  {
    var u := v + [ch];
    LoweredMore(v, ch);
    BeginsMore(Lowered(v), Lower(ch), word);
    hide Lower;
    if |v| >= |word| {
      assert Lowered(u)[..|word|] == Lowered(v)[..|word|];
      assert u[|v|] == ch && forall i :: 0 <= i < |v| ==> u[i] == v[i];
    } else if |v| == |word| - 1 {
      assert Lowered(u)[..|word|] == Lowered(u);
    }
  }

  lemma SaysLong(v: seq<Byte>, word: string)
    requires Says(v, word)
    ensures |v| >= |word|
  {
  }

  lemma FirstValueSeen(name: HeaderMatch, ch: Byte)
    ensures ValueTracks(name, FirstValueMatch(name, Lower(ch)), 0, [ch])
  {
    var v := [ch];
    assert Lowered(v) == [Lower(ch)];
    BeginsOne(Lower(ch), "chunked");
    BeginsOne(Lower(ch), "keep-alive");
    BeginsOne(Lower(ch), "close");
    hide Lower, Begins, Lowered;
  }

  lemma NextWordSeen(v: seq<Byte>, ch: Byte, word: string, matching: HeaderMatch, matched: HeaderMatch)
    requires 1 <= |v| && |word| >= 2 && matching != General && matched != General && matching != matched
    ensures var h := WordSeen(v, word, matching, matched);
            WordSeen(v + [ch], word, matching, matched) ==
            if h == matching then MatchWord(word, |v|, Lower(ch), matching, matched)
            else if h == matched then (if ch == SP then matched else General)
            else General
  {
    hide Says, Begins, Lowered, Lower;
    SaysMore(v, ch, word);
    if Says(v, word) {
      SaysLong(v, word);
    }
  }

  lemma NextValueSeen(name: HeaderMatch, h: HeaderMatch, index: nat, v: seq<Byte>, ch: Byte)
    requires |v| >= 1 && ValueTracks(name, h, index, v) && !h.ContentLength?
    ensures var (g, i) := NextValueMatch(h, index, ch); ValueTracks(name, g, i, v + [ch])
  {
    assert (v + [ch])[0] == v[0];
    NextWordSeen(v, ch, "chunked", MatchingChunked, HeaderMatch.Chunked);
    NextWordSeen(v, ch, "keep-alive", MatchingKeepAlive, KeepAlive);
    NextWordSeen(v, ch, "close", MatchingClose, Close);
    hide Lower, WordSeen;
  }

  /** What a line does to the flags. */
  function LineFlags(name: seq<Byte>, value: seq<Byte>, f: Flags): Flags {
    if value == [] then f
    else if IsName(name, ENCODING_NAME) && Says(value, "chunked") then f.(chunked := true)
    else if (IsName(name, CONNECTION_NAME) || IsName(name, PROXY_NAME)) && Says(value, "keep-alive") then f.(keepAlive := true)
    else if (IsName(name, CONNECTION_NAME) || IsName(name, PROXY_NAME)) && Says(value, "close") then f.(close := true)
    else if IsName(name, UPGRADE_NAME) then f.(upgrade := true)
    else f
  }

  lemma FirstLetter(value: seq<Byte>)
    requires |value| >= 1
    ensures Says(value, "keep-alive") ==> Lower(value[0]) == 'k' as int
    ensures Says(value, "close") ==> Lower(value[0]) == 'c' as int
  {
    assert |value| >= 10 ==> Lowered(value)[..10][0] == Lower(value[0]);
    assert |value| >= 5 ==> Lowered(value)[..5][0] == Lower(value[0]);
    hide Lower;
  }

  lemma FlagsAreSeen(name: seq<Byte>, value: seq<Byte>, f: Flags)
    requires |name| >= 1 && |value| >= 1
    ensures var h := NameSeen(Tokens(name));
            FlagsAfter(ValueSeen(h, value), if h.Upgrade? then f.(upgrade := true) else f) == LineFlags(name, value, f)
  {
    SeenExactly(name);
    FirstLetter(value);
    hide Says, IsName, NameSeen, Tokens, Lower, Begins, Lowered;
  }

  // ---------------------------------------------------------------- a line, byte by byte

  predicate IsFieldName(name: seq<Byte>) { name != [] && forall i :: 0 <= i < |name| ==> Token(name[i]) != 0 }

  /** Nothing in the value ends a line, and its first byte is not blank. */
  predicate IsFieldValue(value: seq<Byte>) {
    && (forall i :: 0 <= i < |value| ==> value[i] != CR && value[i] != LF)
    && (value != [] ==> value[0] != SP && value[0] != HT)
  }

  function Placed(p: Parser, s: State, h: HeaderMatch, index: nat, n: nat): Parser {
    p.(state := s, headerMatch := h, index := index, nread := n)
  }

  /** Two bytes that say nothing. */
  lemma Two(p: Parser, a: Byte, q: Parser, b: Byte, r: Parser)
    requires C.Reaches(p, [a], q, []) && C.Reaches(q, [b], r, [])
    ensures C.Reaches(p, [a, b], r, [])
  {
    hide C.Reaches;
    C.Compose(p, [a], q, [], [b], r, []);
    assert [a] + [b] == [a, b];
    var none: seq<Atom> := [];
    assert none + none == none;
  }

  /** One more octet in front. */
  lemma Longer(p: Parser, q: Parser, r: Parser, k: Kind, d: seq<Byte>, i: nat)
    requires i < |d| && C.Reaches(p, [d[i]], q, [Octet(k, d[i])]) && C.Reaches(q, d[i + 1..], r, Tag(k, d[i + 1..]))
    ensures C.Reaches(p, d[i..], r, Tag(k, d[i..]))
  {
    hide C.Reaches;
    C.Compose(p, [d[i]], q, [Octet(k, d[i])], d[i + 1..], r, Tag(k, d[i + 1..]));
    assert [d[i]] + d[i + 1..] == d[i..];
    assert [Octet(k, d[i])] + Tag(k, d[i + 1..]) == Tag(k, d[i..]);
  }

  /** One more byte behind that says nothing. */
  lemma Behind(p: Parser, d: seq<Byte>, q: Parser, atoms: seq<Atom>, more: seq<Byte>, r: Parser)
    requires C.Reaches(p, d, q, atoms) && C.Reaches(q, more, r, [])
    ensures C.Reaches(p, d + more, r, atoms)
  {
    hide C.Reaches;
    C.Compose(p, d, q, atoms, more, r, []);
    assert atoms + [] == atoms;
  }

  lemma FieldStarts(p: Parser, ch: Byte)
    requires Valid(p) && p.state.HeaderFieldStart? && p.nread < MAX_HEADER_SIZE && Token(ch) != 0
    ensures C.Reaches(p, [ch], Placed(p, HeaderField, FirstMatch(Token(ch)), 0, p.nread + 1), [Octet(Field, ch)])
  {
    hide Run, StateOk, Token;
    C.OneByte(p, ch);
    var q := Count(p);
    assert MidByte(q) && ch != CR && ch != LF by {
      TokensAreNoEnds(ch);
      StartOk(p);
    }
    assert Switch(q, ch) == PassFieldStart(q, ch);
    hide Switch;
    assert [] + [Octet(Field, ch)] == [Octet(Field, ch)];
  }

  lemma TokensAreNoEnds(ch: Byte)
    requires Token(ch) != 0
    ensures ch != CR && ch != LF && ch != ':' as int && ch != SP
  {
  }

  lemma StartOk(p: Parser)
    requires Valid(p) && p.state.HeaderFieldStart? && p.nread < MAX_HEADER_SIZE
    ensures MidByte(Count(p)) && Count(p) == p.(nread := p.nread + 1)
  {
  }

  lemma InFieldOk(p: Parser, h: HeaderMatch, index: nat, n: nat)
    requires Valid(p) && FieldMatch(h, index) && index <= 20 && n < MAX_HEADER_SIZE
    ensures var q := Placed(p, HeaderField, h, index, n);
            Valid(q) && MidByte(Count(q)) && Count(q) == q.(nread := n + 1)
  {
  }

  lemma FieldGoesOn(p: Parser, h: HeaderMatch, index: nat, n: nat, ch: Byte)
    requires Valid(p) && FieldMatch(h, index) && index <= 20 && n < MAX_HEADER_SIZE && Token(ch) != 0
    ensures var (g, i) := NextFieldMatch(h, index, ch);
            C.Reaches(Placed(p, HeaderField, h, index, n), [ch], Placed(p, HeaderField, g, i, n + 1), [Octet(Field, ch)])
  {
    InFieldOk(p, h, index, n);
    var q := Placed(p, HeaderField, h, index, n);
    hide Run, StateOk, Token, NextFieldMatch, FieldMatch;
    C.OneByte(q, ch);
    assert Switch(Count(q), ch) == PassField(Count(q), ch);
    hide Switch;
    assert [] + [Octet(Field, ch)] == [Octet(Field, ch)];
  }

  lemma Nowhere(p: Parser, k: Kind)
    requires Valid(p)
    ensures C.Reaches(p, [], p, Tag(k, []))
  {
    hide Step, StateOk;
    assert Tag(k, []) == [];
  }

  lemma TracksOk(h: HeaderMatch, index: nat, t: seq<Byte>)
    requires Tracks(h, index, t)
    ensures FieldMatch(h, index) && index <= 20 && h == NameSeen(t)
  {
  }

  lemma TokensMore(name: seq<Byte>, k: nat)
    requires k < |name|
    ensures Tokens(name[..k]) + [Token(name[k])] == Tokens(name[..k + 1])
  {
    hide Token;
  }

  lemma {:induction false} NameRun(p: Parser, name: seq<Byte>, k: nat, h: HeaderMatch, index: nat)
    returns (g: HeaderMatch, i: nat)
    requires Valid(p) && IsFieldName(name) && 1 <= k <= |name| && p.nread + |name| <= MAX_HEADER_SIZE
    requires Tracks(h, index, Tokens(name[..k]))
    ensures Tracks(g, i, Tokens(name))
    ensures C.Reaches(Placed(p, HeaderField, h, index, p.nread + k), name[k..],
                      Placed(p, HeaderField, g, i, p.nread + |name|), Tag(Field, name[k..]))
    decreases |name| - k
  {
    hide C.Reaches, Placed, Valid, FieldMatch, Tracks, Token, NextFieldMatch, Tokens;
    var n := p.nread + k;
    TracksOk(h, index, Tokens(name[..k]));
    if k == |name| {
      g, i := h, index;
      assert name[..k] == name && name[k..] == [];
      InValid(p, h, index, n);
      Nowhere(Placed(p, HeaderField, h, index, n), Field);
    } else {
      var ch := name[k];
      var (a, j) := NextFieldMatch(h, index, ch);
      NextSeen(h, index, Tokens(name[..k]), ch);
      TokensMore(name, k);
      FieldGoesOn(p, h, index, n, ch);
      g, i := NameRun(p, name, k + 1, a, j);
      Longer(Placed(p, HeaderField, h, index, n), Placed(p, HeaderField, a, j, n + 1),
             Placed(p, HeaderField, g, i, p.nread + |name|), Field, name, k);
    }
  }

  lemma InValid(p: Parser, h: HeaderMatch, index: nat, n: nat)
    requires Valid(p) && FieldMatch(h, index) && index <= 20 && n <= MAX_HEADER_SIZE
    ensures Valid(Placed(p, HeaderField, h, index, n))
  {
  }

  /** The name and the colon. */
  lemma NameIsRead(p: Parser, name: seq<Byte>) returns (i: nat)
    requires Valid(p) && p.state.HeaderFieldStart? && IsFieldName(name) && p.nread + |name| + 1 <= MAX_HEADER_SIZE
    ensures C.Reaches(p, name + [':' as int],
                      Placed(p, HeaderValueStart, NameSeen(Tokens(name)), i, p.nread + |name| + 1), Tag(Field, name))
    ensures i <= 20
  {
    hide C.Reaches, Placed, Valid, FieldMatch, Tracks, Token, FirstMatch, Tokens, NameSeen;
    var ch, n := name[0], p.nread + |name|;
    FieldStarts(p, ch);
    FirstTracks(name);
    var h, j := NameRun(p, name, 1, FirstMatch(Token(ch)), 0);
    i := j;
    TracksOk(h, i, Tokens(name));
    var q := Placed(p, HeaderField, h, i, n);
    Longer(p, Placed(p, HeaderField, FirstMatch(Token(ch)), 0, p.nread + 1), q, Field, name, 0);
    assert name[0..] == name;
    Colon(p, h, i, n);
    Behind(p, name, q, Tag(Field, name), [':' as int], Placed(p, HeaderValueStart, h, i, n + 1));
  }

  lemma FirstTracks(name: seq<Byte>)
    requires IsFieldName(name)
    ensures Tracks(FirstMatch(Token(name[0])), 0, Tokens(name[..1]))
  {
    FirstSeen(name[0]);
    assert Tokens(name[..1]) == [Token(name[0])];
    hide Token, NameSeen, Tokens;
  }

  lemma Colon(p: Parser, h: HeaderMatch, index: nat, n: nat)
    requires Valid(p) && FieldMatch(h, index) && index <= 20 && n < MAX_HEADER_SIZE
    ensures C.Reaches(Placed(p, HeaderField, h, index, n), [':' as int], Placed(p, HeaderValueStart, h, index, n + 1), [])
  {
    InFieldOk(p, h, index, n);
    var q, ch := Placed(p, HeaderField, h, index, n), ':' as int;
    assert Token(ch) == 0;
    hide Run, StateOk, Token, NextFieldMatch, FieldMatch;
    C.OneByte(q, ch);
    assert Switch(Count(q), ch) == PassField(Count(q), ch);
    hide Switch;
  }

  // ---------------------------------------------------------------- the value of a line

  lemma AtValueOk(p: Parser, s: State, h: HeaderMatch, index: nat, n: nat)
    requires Valid(p) && index <= 20 && n < MAX_HEADER_SIZE
    requires s.HeaderValueStart? || s.HeaderAlmostDone? || s.HeaderValueLws? || (s.HeaderValue? && ValueMatch(h, index))
    ensures var q := Placed(p, s, h, index, n);
            Valid(q) && MidByte(Count(q)) && Count(q) == q.(nread := n + 1)
  {
  }

  lemma Blank(p: Parser, h: HeaderMatch, index: nat, n: nat)
    requires Valid(p) && index <= 20 && n < MAX_HEADER_SIZE
    ensures C.Reaches(Placed(p, HeaderValueStart, h, index, n), [SP], Placed(p, HeaderValueStart, h, index, n + 1), [])
  {
    AtValueOk(p, HeaderValueStart, h, index, n);
    var q := Placed(p, HeaderValueStart, h, index, n);
    hide Run, StateOk;
    C.OneByte(q, SP);
    assert Switch(Count(q), SP) == PassValueStart(Count(q), SP);
    hide Switch;
  }

  lemma ValueStarts(p: Parser, h: HeaderMatch, index: nat, n: nat, ch: Byte)
    requires Valid(p) && index <= 20 && n < MAX_HEADER_SIZE && !h.ContentLength?
    requires ch != SP && ch != HT && ch != CR && ch != LF
    ensures var f := if h.Upgrade? then p.flags.(upgrade := true) else p.flags;
            C.Reaches(Placed(p, HeaderValueStart, h, index, n), [ch],
                      Placed(p.(flags := f), HeaderValue, FirstValueMatch(h, Lower(ch)), 0, n + 1), [Octet(Value, ch)])
  {
    AtValueOk(p, HeaderValueStart, h, index, n);
    var q := Placed(p, HeaderValueStart, h, index, n);
    hide Run, StateOk, Lower, FirstValueMatch;
    C.OneByte(q, ch);
    assert Switch(Count(q), ch) == PassValueStart(Count(q), ch);
    hide Switch;
    assert [] + [Octet(Value, ch)] == [Octet(Value, ch)];
  }

  lemma ValueGoesOn(p: Parser, h: HeaderMatch, index: nat, n: nat, ch: Byte)
    requires Valid(p) && ValueMatch(h, index) && index <= 20 && n < MAX_HEADER_SIZE && !h.ContentLength?
    requires ch != CR && ch != LF
    ensures var (g, i) := NextValueMatch(h, index, ch);
            C.Reaches(Placed(p, HeaderValue, h, index, n), [ch], Placed(p, HeaderValue, g, i, n + 1), [Octet(Value, ch)])
  {
    AtValueOk(p, HeaderValue, h, index, n);
    var q := Placed(p, HeaderValue, h, index, n);
    hide Run, StateOk, NextValueMatch, ValueMatch;
    C.OneByte(q, ch);
    assert Switch(Count(q), ch) == PassValue(Count(q), ch);
    hide Switch;
    assert [] + [Octet(Value, ch)] == [Octet(Value, ch)];
  }

  lemma SeenIsNoLength(name: HeaderMatch, v: seq<Byte>)
    requires |v| >= 1
    ensures !ValueSeen(name, v).ContentLength?
  {
    hide Says, Begins, Lowered, Lower;
  }

  lemma ValueTracksOk(name: HeaderMatch, h: HeaderMatch, index: nat, v: seq<Byte>)
    requires |v| >= 1 && ValueTracks(name, h, index, v)
    ensures ValueMatch(h, index) && index <= 20 && h == ValueSeen(name, v)
  {
    hide ValueSeen;
  }

  lemma {:induction false} ValueRun(p: Parser, name: HeaderMatch, v: seq<Byte>, k: nat, h: HeaderMatch, index: nat, n: nat)
    returns (g: HeaderMatch, i: nat)
    requires Valid(p) && IsFieldValue(v) && 1 <= k <= |v| && n + |v| - k <= MAX_HEADER_SIZE
    requires ValueTracks(name, h, index, v[..k])
    ensures ValueTracks(name, g, i, v)
    ensures C.Reaches(Placed(p, HeaderValue, h, index, n), v[k..],
                      Placed(p, HeaderValue, g, i, n + |v| - k), Tag(Value, v[k..]))
    decreases |v| - k
  {
    hide C.Reaches, Placed, Valid, ValueMatch, ValueTracks, NextValueMatch, ValueSeen;
    ValueTracksOk(name, h, index, v[..k]);
    if k == |v| {
      g, i := h, index;
      assert v[..k] == v && v[k..] == [];
      ValueValid(p, h, index, n);
      Nowhere(Placed(p, HeaderValue, h, index, n), Value);
    } else {
      var ch := v[k];
      SeenIsNoLength(name, v[..k]);
      var (a, j) := NextValueMatch(h, index, ch);
      NextValueSeen(name, h, index, v[..k], ch);
      assert v[..k] + [ch] == v[..k + 1];
      ValueGoesOn(p, h, index, n, ch);
      g, i := ValueRun(p, name, v, k + 1, a, j, n + 1);
      Longer(Placed(p, HeaderValue, h, index, n), Placed(p, HeaderValue, a, j, n + 1),
             Placed(p, HeaderValue, g, i, n + |v| - k), Value, v, k);
    }
  }

  lemma ValueValid(p: Parser, h: HeaderMatch, index: nat, n: nat)
    requires Valid(p) && ValueMatch(h, index) && index <= 20 && n <= MAX_HEADER_SIZE
    ensures Valid(Placed(p, HeaderValue, h, index, n))
  {
  }

  /** The line end after a value: the flags are set. */
  lemma LineEnds(p: Parser, h: HeaderMatch, index: nat, n: nat)
    requires Valid(p) && ValueMatch(h, index) && index <= 20 && n + 2 <= MAX_HEADER_SIZE
    ensures C.Reaches(Placed(p, HeaderValue, h, index, n), C.CRLF,
                      Placed(p.(flags := FlagsAfter(h, p.flags)), HeaderValueLws, h, index, n + 2), [])
  {
    hide C.Reaches, Placed, Valid, ValueMatch, FlagsAfter;
    ValueCr(p, h, index, n);
    AlmostLf(p, h, index, n + 1);
    Two(Placed(p, HeaderValue, h, index, n), CR, Placed(p, HeaderAlmostDone, h, index, n + 1), LF,
        Placed(p.(flags := FlagsAfter(h, p.flags)), HeaderValueLws, h, index, n + 2));
    assert [CR, LF] == C.CRLF;
  }

  /** A line without a value. */
  lemma EmptyLineEnds(p: Parser, h: HeaderMatch, index: nat, n: nat)
    requires Valid(p) && index <= 20 && n + 2 <= MAX_HEADER_SIZE
    ensures C.Reaches(Placed(p, HeaderValueStart, h, index, n), C.CRLF, Placed(p, HeaderValueLws, General, 0, n + 2), [])
  {
    hide C.Reaches, Placed, Valid;
    EmptyCr(p, h, index, n);
    AlmostLf(p, General, 0, n + 1);
    assert FlagsAfter(General, p.flags) == p.flags && p.(flags := p.flags) == p;
    Two(Placed(p, HeaderValueStart, h, index, n), CR, Placed(p, HeaderAlmostDone, General, 0, n + 1), LF,
        Placed(p, HeaderValueLws, General, 0, n + 2));
    assert [CR, LF] == C.CRLF;
  }

  lemma EmptyCr(p: Parser, h: HeaderMatch, index: nat, n: nat)
    requires Valid(p) && index <= 20 && n < MAX_HEADER_SIZE
    ensures C.Reaches(Placed(p, HeaderValueStart, h, index, n), [CR], Placed(p, HeaderAlmostDone, General, 0, n + 1), [])
  {
    AtValueOk(p, HeaderValueStart, h, index, n);
    var q := Placed(p, HeaderValueStart, h, index, n);
    hide Run, StateOk;
    C.OneByte(q, CR);
    assert Switch(Count(q), CR) == PassValueStart(Count(q), CR);
    hide Switch;
  }

  lemma AlmostLf(p: Parser, h: HeaderMatch, index: nat, n: nat)
    requires Valid(p) && index <= 20 && n < MAX_HEADER_SIZE
    ensures C.Reaches(Placed(p, HeaderAlmostDone, h, index, n), [LF],
                      Placed(p.(flags := FlagsAfter(h, p.flags)), HeaderValueLws, h, index, n + 1), [])
  {
    AtValueOk(p, HeaderAlmostDone, h, index, n);
    var q := Placed(p, HeaderAlmostDone, h, index, n);
    hide Run, StateOk, FlagsAfter;
    C.OneByte(q, LF);
    assert Switch(Count(q), LF) == PassHeaderAlmostDone(Count(q), LF);
    hide Switch;
  }

  lemma ValueCr(p: Parser, h: HeaderMatch, index: nat, n: nat)
    requires Valid(p) && ValueMatch(h, index) && index <= 20 && n < MAX_HEADER_SIZE
    ensures C.Reaches(Placed(p, HeaderValue, h, index, n), [CR], Placed(p, HeaderAlmostDone, h, index, n + 1), [])
  {
    AtValueOk(p, HeaderValue, h, index, n);
    var q := Placed(p, HeaderValue, h, index, n);
    hide Run, StateOk, ValueMatch;
    C.OneByte(q, CR);
    assert Switch(Count(q), CR) == PassValue(Count(q), CR);
    hide Switch;
  }

  // ---------------------------------------------------------------- a whole line

  function LineText(name: seq<Byte>, value: seq<Byte>): seq<Byte> {
    name + [':' as int] + [SP] + value + C.CRLF
  }

  /** A name, a colon and a blank. */
  lemma FrontRun(p: Parser, name: seq<Byte>) returns (i: nat)
    requires Valid(p) && p.state.HeaderFieldStart? && IsFieldName(name) && p.nread + |name| + 2 <= MAX_HEADER_SIZE
    ensures C.Reaches(p, name + [':' as int] + [SP],
                      Placed(p, HeaderValueStart, NameSeen(Tokens(name)), i, p.nread + |name| + 2), Tag(Field, name))
    ensures i <= 20
  {
    hide C.Reaches, Placed, Valid, NameSeen, Tokens;
    i := NameIsRead(p, name);
    var h, n := NameSeen(Tokens(name)), p.nread + |name| + 1;
    Blank(p, h, i, n);
    Behind(p, name + [':' as int], Placed(p, HeaderValueStart, h, i, n), Tag(Field, name), [SP],
           Placed(p, HeaderValueStart, h, i, n + 1));
  }

  lemma Rebased(p: Parser, f: Flags, length: nat)
    requires Valid(p) && p.state.HeaderFieldStart? && length <= ULLONG_MAX
    ensures Valid(p.(flags := f, contentLength := length))
  {
  }

  /** The value of a line and its end. */
  lemma ValueEnds(p: Parser, name: HeaderMatch, index: nat, n: nat, v: seq<Byte>) returns (h: HeaderMatch, i: nat)
    requires Valid(p) && p.state.HeaderFieldStart? && index <= 20 && !name.ContentLength?
    requires IsFieldValue(v) && v != [] && n + |v| + 2 <= MAX_HEADER_SIZE
    ensures var f := if name.Upgrade? then p.flags.(upgrade := true) else p.flags;
            C.Reaches(Placed(p, HeaderValueStart, name, index, n), v + C.CRLF,
                      Placed(p.(flags := FlagsAfter(ValueSeen(name, v), f)), HeaderValueLws, h, i, n + |v| + 2), Tag(Value, v))
  {
    hide C.Reaches, Placed, Valid, ValueMatch, ValueTracks, ValueSeen, FirstValueMatch, FlagsAfter, Lower;
    var f := if name.Upgrade? then p.flags.(upgrade := true) else p.flags;
    var q, ch := p.(flags := f), v[0];
    LengthInBounds(p);
    Rebased(p, f, p.contentLength);
    assert p.(flags := f, contentLength := p.contentLength) == q;
    ValueStarts(p, name, index, n, ch);
    FirstValueSeen(name, ch);
    assert v[..1] == [ch];
    var a := FirstValueMatch(name, Lower(ch));
    h, i := ValueRun(q, name, v, 1, a, 0, n + 1);
    ValueTracksOk(name, h, i, v);
    Longer(Placed(p, HeaderValueStart, name, index, n), Placed(q, HeaderValue, a, 0, n + 1),
           Placed(q, HeaderValue, h, i, n + |v|), Value, v, 0);
    assert v[0..] == v;
    LineEnds(q, h, i, n + |v|);
    Behind(Placed(p, HeaderValueStart, name, index, n), v, Placed(q, HeaderValue, h, i, n + |v|), Tag(Value, v), C.CRLF,
           Placed(q.(flags := FlagsAfter(h, q.flags)), HeaderValueLws, h, i, n + |v| + 2));
  }

  lemma LengthInBounds(p: Parser)
    requires Valid(p)
    ensures p.contentLength <= ULLONG_MAX
  {
  }

  /**
   One header line, with any name but Content-Length and any value: the parser takes all of it, delivers name and
   value, and has changed the flags exactly as the line says.
   */
  lemma LineIsRead(p: Parser, name: seq<Byte>, value: seq<Byte>) returns (h: HeaderMatch, i: nat)
    requires Valid(p) && p.state.HeaderFieldStart? && IsFieldName(name) && IsFieldValue(value)
    requires !IsName(name, LENGTH_NAME) && p.nread + |LineText(name, value)| <= MAX_HEADER_SIZE
    ensures C.Reaches(p, LineText(name, value),
                      Placed(p.(flags := LineFlags(name, value, p.flags)), HeaderValueLws, h, i,
                             p.nread + |LineText(name, value)|),
                      Tag(Field, name) + Tag(Value, value))
  {
    hide C.Reaches, Placed, Valid, NameSeen, Tokens, FlagsAfter, ValueSeen, Says, IsName, IsFieldName, IsFieldValue;
    assert |LineText(name, value)| == |name| + |value| + 4;
    assert name != [] by {
      NameNotEmpty(name);
    }
    var j := FrontRun(p, name);
    SeenExactly(name);
    var m, n := NameSeen(Tokens(name)), p.nread + |name| + 2;
    var front, q := name + [':' as int] + [SP], Placed(p, HeaderValueStart, m, j, n);
    if value == [] {
      h, i := General, 0;
      EmptyLineEnds(p, m, j, n);
      assert p.(flags := p.flags) == p;
      assert Tag(Value, value) == [] && value + C.CRLF == C.CRLF;
    } else {
      h, i := ValueEnds(p, m, j, n, value);
      FlagsAreSeen(name, value, p.flags);
    }
    C.Compose(p, front, q, Tag(Field, name), value + C.CRLF,
              Placed(p.(flags := LineFlags(name, value, p.flags)), HeaderValueLws, h, i, n + |value| + 2), Tag(Value, value));
    assert front + (value + C.CRLF) == LineText(name, value);
  }

  lemma NameNotEmpty(name: seq<Byte>)
    requires IsFieldName(name)
    ensures name != []
  {
  }

  // ---------------------------------------------------------------- the line of a length

  lemma LengthStarts(p: Parser, index: nat, n: nat, ch: Byte)
    requires Valid(p) && index <= 20 && n < MAX_HEADER_SIZE && IsNum(ch)
    ensures C.Reaches(Placed(p, HeaderValueStart, ContentLength, index, n), [ch],
                      Placed(p.(contentLength := ch - '0' as int), HeaderValue, ContentLength, 0, n + 1), [Octet(Value, ch)])
  {
    AtValueOk(p, HeaderValueStart, ContentLength, index, n);
    var q := Placed(p, HeaderValueStart, ContentLength, index, n);
    hide Run, StateOk;
    C.OneByte(q, ch);
    assert Switch(Count(q), ch) == PassValueStart(Count(q), ch);
    hide Switch;
    assert [] + [Octet(Value, ch)] == [Octet(Value, ch)];
  }

  lemma LengthGoesOn(p: Parser, n: nat, ch: Byte)
    requires Valid(p) && n < MAX_HEADER_SIZE && IsNum(ch)
    requires Accumulate(p.contentLength, 10, ch - '0' as int).Some?
    ensures C.Reaches(Placed(p, HeaderValue, ContentLength, 0, n), [ch],
                      Placed(p.(contentLength := Accumulate(p.contentLength, 10, ch - '0' as int).value), HeaderValue,
                             ContentLength, 0, n + 1), [Octet(Value, ch)])
  {
    AtValueOk(p, HeaderValue, ContentLength, 0, n);
    var q := Placed(p, HeaderValue, ContentLength, 0, n);
    hide Run, StateOk, Accumulate;
    C.OneByte(q, ch);
    assert Switch(Count(q), ch) == PassValue(Count(q), ch);
    hide Switch;
    assert [] + [Octet(Value, ch)] == [Octet(Value, ch)];
  }

  lemma MoreRead(front: seq<Byte>, ch: Byte, more: seq<Byte>)
    requires Digits(10, front + [ch] + more) && ReadDigits(10, front + [ch] + more).Some?
    ensures Digits(10, front) && Digits(10, front + [ch]) && IsNum(ch)
    ensures ReadDigits(10, front).Some? && ReadDigits(10, front + [ch]).Some?
    ensures ReadDigits(10, front + [ch]) == Accumulate(ReadDigits(10, front).value, 10, ch - '0' as int)
    ensures ReadDigits(10, front + [ch]).value < ULLONG_MAX
  {
    var all := front + [ch] + more;
    hide IsNum;
    assert forall k :: 0 <= k < |front + [ch]| ==> (front + [ch])[k] == all[k];
    assert forall k :: 0 <= k < |front| ==> front[k] == all[k];
    assert DigitByte(10, all[|front|]) && all[|front|] == ch;
    if ReadDigits(10, front + [ch]).None? {
      NoneStays(10, front + [ch], more);
    }
    assert (front + [ch])[..|front|] == front;
    DigitsExact(10, front + [ch]);
    hide ValueOf, Accumulate;
  }

  lemma {:induction false} DigitsRun(p: Parser, d: seq<Byte>, k: nat, n: nat)
    requires Valid(p) && p.state.HeaderFieldStart? && Digits(10, d) && ReadDigits(10, d).Some?
    requires 1 <= k <= |d| && n + |d| - k <= MAX_HEADER_SIZE
    requires Digits(10, d[..k]) && ReadDigits(10, d[..k]) == Some(p.contentLength)
    ensures ReadDigits(10, d).value <= ULLONG_MAX
    ensures C.Reaches(Placed(p, HeaderValue, ContentLength, 0, n), d[k..],
                      Placed(p.(contentLength := ReadDigits(10, d).value), HeaderValue, ContentLength, 0, n + |d| - k),
                      Tag(Value, d[k..]))
    decreases |d| - k
  {
    hide C.Reaches, Placed, Valid, ReadDigits, Accumulate, Digits, IsNum;
    if k == |d| {
      assert d[..k] == d && d[k..] == [];
      LengthInBounds(p);
      ValueValid(p, ContentLength, 0, n);
      Nowhere(Placed(p, HeaderValue, ContentLength, 0, n), Value);
      assert p.(contentLength := ReadDigits(10, d).value) == p;
    } else {
      var ch := d[k];
      assert d[..k] + [ch] == d[..k + 1] && d[..k + 1] + d[k + 1..] == d;
      MoreRead(d[..k], ch, d[k + 1..]);
      LengthGoesOn(p, n, ch);
      var t := ReadDigits(10, d[..k + 1]).value;
      var q := p.(contentLength := t);
      Rebased(p, p.flags, t);
      assert p.(flags := p.flags, contentLength := t) == q;
      DigitsRun(q, d, k + 1, n + 1);
      assert q.(contentLength := ReadDigits(10, d).value) == p.(contentLength := ReadDigits(10, d).value);
      Longer(Placed(p, HeaderValue, ContentLength, 0, n), Placed(q, HeaderValue, ContentLength, 0, n + 1),
             Placed(p.(contentLength := ReadDigits(10, d).value), HeaderValue, ContentLength, 0, n + |d| - k), Value, d, k);
    }
  }

  lemma FirstDigitRead(d: seq<Byte>)
    requires d != [] && Digits(10, d)
    ensures IsNum(d[0]) && Digits(10, d[..1]) && ReadDigits(10, d[..1]) == Some(d[0] - '0' as int)
  {
    assert DigitByte(10, d[0]);
    assert d[..1] == [d[0]];
    OneDigit(10, d[0]);
  }

  /** The line of a length that the accumulator can hold. */
  lemma LengthLineIsRead(p: Parser, name: seq<Byte>, d: seq<Byte>) returns (i: nat)
    requires Valid(p) && p.state.HeaderFieldStart? && IsFieldName(name) && IsName(name, LENGTH_NAME)
    requires d != [] && Digits(10, d) && ReadDigits(10, d).Some?
    requires p.nread + |LineText(name, d)| <= MAX_HEADER_SIZE
    ensures C.Reaches(p, LineText(name, d),
                      Placed(p.(contentLength := ReadDigits(10, d).value), HeaderValueLws, ContentLength, i,
                             p.nread + |LineText(name, d)|),
                      Tag(Field, name) + Tag(Value, d))
  {
    hide C.Reaches, Placed, Valid, NameSeen, Tokens, IsName, IsFieldName, ReadDigits, Digits, IsNum, FlagsAfter;
    assert |LineText(name, d)| == |name| + |d| + 4;
    NameNotEmpty(name);
    var j := FrontRun(p, name);
    SeenExactly(name);
    i := 0;
    var n, t := p.nread + |name| + 2, ReadDigits(10, d).value;
    var front, q := name + [':' as int] + [SP], Placed(p, HeaderValueStart, ContentLength, j, n);
    FirstDigitRead(d);
    LengthStarts(p, j, n, d[0]);
    var p1, pt := p.(contentLength := d[0] - '0' as int), p.(contentLength := t);
    SmallDigit(d[0]);
    Rebased(p, p.flags, d[0] - '0' as int);
    assert p.(flags := p.flags, contentLength := d[0] - '0' as int) == p1;
    DigitsRun(p1, d, 1, n + 1);
    assert p1.(contentLength := t) == pt;
    var mid := Placed(pt, HeaderValue, ContentLength, 0, n + |d|);
    Longer(q, Placed(p1, HeaderValue, ContentLength, 0, n + 1), mid, Value, d, 0);
    assert d[0..] == d;
    Rebased(p, p.flags, t);
    assert p.(flags := p.flags, contentLength := t) == pt;
    LineEnds(pt, ContentLength, 0, n + |d|);
    LengthSetsNoFlag(pt);
    var end := Placed(pt, HeaderValueLws, ContentLength, 0, n + |d| + 2);
    Behind(q, d, mid, Tag(Value, d), C.CRLF, end);
    C.Compose(p, front, q, Tag(Field, name), d + C.CRLF, end, Tag(Value, d));
    assert front + (d + C.CRLF) == LineText(name, d);
  }

  lemma SmallDigit(ch: Byte)
    requires IsNum(ch)
    ensures 0 <= ch - '0' as int <= ULLONG_MAX
  {
  }

  lemma LengthSetsNoFlag(p: Parser)
    ensures p.(flags := FlagsAfter(ContentLength, p.flags)) == p
  {
  }

  // ---------------------------------------------------------------- the next line

  /** A line end is followed by a new line when the next byte is not blank. */
  lemma NextLine(p: Parser, d: seq<Byte>, q: Parser, atoms: seq<Atom>)
    requires Valid(p) && p.state.HeaderValueLws? && d != [] && d[0] != SP && d[0] != HT
    requires C.Reaches(p.(state := HeaderFieldStart), d, q, atoms)
    ensures C.Reaches(p, d, q, atoms)
  {
    LwsStep(p, d[0]);
    hide Step, StateOk;
  }

  lemma LwsStep(p: Parser, ch: Byte)
    requires Valid(p) && p.state.HeaderValueLws? && ch != SP && ch != HT
    ensures Valid(p.(state := HeaderFieldStart))
    ensures Step(p, ch).status.Running? || Step(p.(state := HeaderFieldStart), ch).status.Running? ==>
              Step(p, ch) == Step(p.(state := HeaderFieldStart), ch)
  {
    hide StateOk, PassFieldStart;
    LwsOk(p);
    var q := Count(p);
    if q.nread <= MAX_HEADER_SIZE {
      LwsAgain(q, ch);
    }
  }

  lemma LwsOk(p: Parser)
    requires Valid(p) && p.state.HeaderValueLws?
    ensures Valid(p.(state := HeaderFieldStart))
    ensures var q := Count(p);
            q.nread <= MAX_HEADER_SIZE ==>
              && MidByte(q) && MidByte(q.(state := HeaderFieldStart)) && q.state.HeaderValueLws?
              && Count(p.(state := HeaderFieldStart)) == q.(state := HeaderFieldStart)
  {
  }

  lemma LwsAgain(q: Parser, ch: Byte)
    requires MidByte(q) && MidByte(q.(state := HeaderFieldStart)) && q.state.HeaderValueLws? && ch != SP && ch != HT
    ensures StepPasses(q, ch) == StepPasses(q.(state := HeaderFieldStart), ch)
  {
    hide StateOk;
    assert Switch(q, ch) == PassLws(q, ch) == Again(q, HeaderFieldStart);
    hide Switch;
    var e := StepPasses(q.(state := HeaderFieldStart), ch);
    assert [] + e.atoms == e.atoms;
  }
}
