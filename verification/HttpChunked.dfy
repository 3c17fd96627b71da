/**
 Chunked transfer coding from one end to the other: the client's chunk writer
 (client/upload/httplib.h) against the server's request parser.
 */
module HttpChunked {
  import opened Basics
  import opened HttpSyntax
  import opened HttpParser
  import opened HttpSplit
  import T = HttpSplitTheorem

  // ---------------------------------------------------------------- the client

  function HexDigit(v: nat): Byte
    requires v < 16
  {
    if v < 10 then '0' as int + v else 'a' as int + (v - 10)
  }

  function Hex(n: nat): (s: seq<Byte>)
    ensures s != []
  {
    if n < 16 then [HexDigit(n)] else Hex(n / 16) + [HexDigit(n % 16)]
  }

  const CRLF: seq<Byte> := [CR, LF]
  const LAST_CHUNK: seq<Byte> := [48, CR, LF]

  function Chunk(payload: seq<Byte>): seq<Byte> { Hex(|payload|) + CRLF + payload + CRLF }

  function Chunks(payloads: seq<seq<Byte>>): seq<Byte> {
    if payloads == [] then [] else Chunk(payloads[0]) + Chunks(payloads[1..])
  }

  /** Everything the writer sends for a list of payloads, without compression and trailer. */
  function Chunked(payloads: seq<seq<Byte>>): seq<Byte> { Chunks(payloads) + LAST_CHUNK + CRLF }

  /** The digits that are still to be put in front. */
  function Unwritten(rest: nat): seq<Byte> { if rest == 0 then [] else Hex(rest) }

  method FromIToHex(n: nat) returns (ret: seq<Byte>)
    ensures ret == Hex(n)
  {
    var rest: nat := n / 16;
    ret := [HexDigit(n % 16)];
    while rest > 0
      invariant Unwritten(rest) + ret == Hex(n)
    {
      var d := [HexDigit(rest % 16)];
      assert Unwritten(rest) == Unwritten(rest / 16) + d;
      assert Unwritten(rest / 16) + (d + ret) == (Unwritten(rest / 16) + d) + ret;
      ret := d + ret;
      rest := rest / 16;
    }
  }

  /** What a content provider does with the sink it is given. */
  datatype SinkCall = Write(payload: seq<Byte>) | Done

  function Emitted(c: SinkCall): seq<Byte> {
    match c
    case Write(d) => if d == [] then [] else Chunk(d)
    case Done => LAST_CHUNK + CRLF
  }

  function EmittedBy(calls: seq<SinkCall>): seq<Byte> {
    if calls == [] then [] else Emitted(calls[0]) + EmittedBy(calls[1..])
  }

  /** Whether the writer asks its provider again after these calls. */
  predicate AsksAgain(calls: seq<SinkCall>, before: bool) {
    if calls == [] then before
    else match calls[|calls| - 1]
      case Write(d) => d != []
      case Done => false
  }

  /** The output of the whole loop, one list of sink calls for each time the provider is asked. */
  function Produced(script: seq<seq<SinkCall>>, available: bool): seq<Byte> {
    if script == [] || !available then []
    else EmittedBy(script[0]) + Produced(script[1..], AsksAgain(script[0], available))
  }

  /** The sink, its `data_available` flag and the bytes on the stream, which never fails to write. */
  class ChunkWriter {
    var dataAvailable: bool
    var stream: seq<Byte>

    constructor ()
      ensures dataAvailable && stream == []
    {
      dataAvailable, stream := true, [];
    }

    method SinkWrite(payload: seq<Byte>)
      modifies this
      ensures stream == old(stream) + Emitted(Write(payload)) && dataAvailable == (payload != [])
    {
      dataAvailable := |payload| > 0;
      if payload != [] {
        var size := FromIToHex(|payload|);
        stream := stream + (size + CRLF + payload + CRLF);
      }
    }

    method SinkDone()
      modifies this
      ensures stream == old(stream) + Emitted(Done) && !dataAvailable
    {
      dataAvailable := false;
      stream := stream + LAST_CHUNK;
      stream := stream + CRLF;
    }

    method Provide(calls: seq<SinkCall>)
      modifies this
      ensures stream == old(stream) + EmittedBy(calls) && dataAvailable == AsksAgain(calls, old(dataAvailable))
    {
      hide Emitted;
      var i := 0;
      while i < |calls|
        invariant i <= |calls|
        invariant stream + EmittedBy(calls[i..]) == old(stream) + EmittedBy(calls)
        invariant dataAvailable == AsksAgain(calls[..i], old(dataAvailable))
      {
        assert calls[i..][0] == calls[i] && calls[i..][1..] == calls[i + 1..];
        assert stream + (Emitted(calls[i]) + EmittedBy(calls[i + 1..]))
            == (stream + Emitted(calls[i])) + EmittedBy(calls[i + 1..]);
        match calls[i] {
          case Write(d) => SinkWrite(d);
          case Done => SinkDone();
        }
        i := i + 1;
        assert calls[..i][|calls[..i]| - 1] == calls[i - 1];
      }
      assert calls[..i] == calls;
    }

    /** The loop of write_content_chunked; the script ends where the server shuts down. */
    method WriteContentChunked(script: seq<seq<SinkCall>>)
      requires dataAvailable && stream == []
      modifies this
      ensures stream == Produced(script, true)
    {
      var i := 0;
      hide EmittedBy, AsksAgain;
      while dataAvailable && i < |script|
        invariant i <= |script|
        invariant stream + Produced(script[i..], dataAvailable) == Produced(script, true)
        decreases |script| - i
      {
        assert script[i..][0] == script[i] && script[i..][1..] == script[i + 1..];
        ghost var before, rest := stream, script[i + 1..];
        Provide(script[i]);
        i := i + 1;
        assert before + (EmittedBy(script[i - 1]) + Produced(rest, dataAvailable)) == stream + Produced(rest, dataAvailable);
      }
    }
  }

  // ---------------------------------------------------------------- payloads, however they are grouped

  function Writes(payloads: seq<seq<Byte>>): seq<SinkCall> {
    if payloads == [] then [Done] else [Write(payloads[0])] + Writes(payloads[1..])
  }

  function AllCalls(script: seq<seq<SinkCall>>): seq<SinkCall> {
    if script == [] then [] else script[0] + AllCalls(script[1..])
  }

  /** Nonempty writes, so that the writer keeps asking, and then done(). */
  predicate WritesThenDone(calls: seq<SinkCall>) {
    && calls != [] && calls[|calls| - 1].Done?
    && forall k :: 0 <= k < |calls| - 1 ==> calls[k].Write? && calls[k].payload != []
  }

  lemma {:induction false} EmittedConcat(a: seq<SinkCall>, b: seq<SinkCall>)
    ensures EmittedBy(a + b) == EmittedBy(a) + EmittedBy(b)
  {
    if a == [] {
      assert a + b == b;
    } else {
      assert (a + b)[0] == a[0] && (a + b)[1..] == a[1..] + b;
      EmittedConcat(a[1..], b);
    }
  }

  lemma WriteInFront(first: seq<Byte>, rest: seq<SinkCall>)
    requires first != [] && WritesThenDone(rest)
    ensures WritesThenDone([Write(first)] + rest)
    ensures EmittedBy([Write(first)] + rest) == Chunk(first) + EmittedBy(rest)
  {
    assert ([Write(first)] + rest)[1..] == rest;
    hide Chunk;
  }

  lemma ChunksAssociate(first: seq<Byte>, more: seq<seq<Byte>>)
    ensures Chunked([first] + more) == Chunk(first) + Chunked(more)
  {
    assert ([first] + more)[1..] == more;
    assert Chunks([first] + more) == Chunk(first) + Chunks(more);
    hide Chunk, Chunks;
    assert (Chunk(first) + Chunks(more)) + LAST_CHUNK + CRLF == Chunk(first) + (Chunks(more) + LAST_CHUNK + CRLF);
  }

  lemma {:induction false} WritesShape(payloads: seq<seq<Byte>>)
    requires forall d <- payloads :: d != []
    ensures WritesThenDone(Writes(payloads)) && EmittedBy(Writes(payloads)) == Chunked(payloads)
    decreases |payloads|
  {
    var w := Writes(payloads);
    if payloads == [] {
      assert EmittedBy([Done]) == Emitted(Done) + EmittedBy([]);
    } else {
      var first, more := payloads[0], payloads[1..];
      assert first in payloads && forall d <- more :: d in payloads;
      WritesShape(more);
      assert w == [Write(first)] + Writes(more) && payloads == [first] + more;
      hide Chunk, Writes, Chunked, WritesThenDone, EmittedBy;
      WriteInFront(first, Writes(more));
      ChunksAssociate(first, more);
    }
  }

  lemma {:induction false} ProducedAll(script: seq<seq<SinkCall>>)
    requires (forall calls <- script :: calls != []) && WritesThenDone(AllCalls(script))
    ensures Produced(script, true) == EmittedBy(AllCalls(script))
    decreases |script|
  {
    hide EmittedBy;
    var calls, more := script[0], script[1..];
    var all, rest := AllCalls(script), AllCalls(more);
    EmittedConcat(calls, rest);
    assert calls in script && all == calls + rest;
    if more == [] {
      assert EmittedBy(rest) == [] by { EmittedNone(); }
    } else {
      assert more[0] in script && forall c <- more :: c in script;
      assert |rest| > 0 by { assert rest == more[0] + AllCalls(more[1..]); }
      assert all[|calls| - 1] == calls[|calls| - 1];
      assert rest == all[|calls|..];
      ProducedAll(more);
    }
  }

  lemma EmittedNone()
    ensures EmittedBy([]) == []
  {}

  /** However a provider groups its writes and its done(), the stream is the same. */
  lemma WriterOutput(script: seq<seq<SinkCall>>, payloads: seq<seq<Byte>>)
    requires (forall d <- payloads :: d != []) && (forall calls <- script :: calls != [])
    requires AllCalls(script) == Writes(payloads)
    ensures Produced(script, true) == Chunked(payloads)
  {
    WritesShape(payloads);
    assert script != [];
    ProducedAll(script);
  }

  // ---------------------------------------------------------------- the server, one piece at a time

  ghost predicate Reaches(p: Parser, d: seq<Byte>, q: Parser, atoms: seq<Atom>) {
    Valid(p) && var t := Run(p, d); t.status.Running? && t.parser == q && t.atoms == atoms
  }

  lemma Compose(p: Parser, a: seq<Byte>, q: Parser, s: seq<Atom>, b: seq<Byte>, r: Parser, t: seq<Atom>)
    requires Reaches(p, a, q, s) && Reaches(q, b, r, t)
    ensures Reaches(p, a + b, r, s + t)
  {
    hide Step, StateOk;
    RunConcat(p, a, b);
  }

  lemma OneByte(p: Parser, ch: Byte)
    requires Valid(p)
    ensures var e := Step(p, ch); e.status.Running? ==> Reaches(p, [ch], e.parser, e.atoms)
  {
    hide Step, StateOk, Run;
    StepIsRun(p, [ch], 0);
    assert [ch][0..1] == [ch];
  }

  predicate AtChunk(p: Parser) { Valid(p) && p.state.ChunkSizeStart? && !p.flags.trailing }

  lemma HexDecodes(v: nat)
    requires v < 16
    ensures Unhex(HexDigit(v)) == v && HexDigit(v) != CR
  {}

  function Sized(p: Parser, n: nat, digits: nat): Parser {
    p.(state := ChunkSize, contentLength := n, nread := digits)
  }

  lemma FirstDigit(p: Parser, v: nat)
    requires AtChunk(p) && v < 16
    ensures Reaches(p, [HexDigit(v)], Sized(p, v, 1), [])
  {
    HexDecodes(v);
    OneByte(p, HexDigit(v));
    assert Switch(Count(p), HexDigit(v)) == Go(Sized(p, v, 1));
  }

  lemma NextDigit(p: Parser, m: nat, digits: nat, v: nat)
    requires AtChunk(p) && v < 16 && m * 16 + v < ULLONG_MAX && digits < MAX_HEADER_SIZE
    ensures Reaches(Sized(p, m, digits), [HexDigit(v)], Sized(p, m * 16 + v, digits + 1), [])
  {
    HexDecodes(v);
    var q := Sized(p, m, digits);
    OneByte(q, HexDigit(v));
    assert Accumulate(m, 16, v) == Some(m * 16 + v);
    assert Switch(Count(q), HexDigit(v)) == Go(Sized(p, m * 16 + v, digits + 1));
  }

  lemma {:induction false} SizeLine(p: Parser, n: nat)
    requires AtChunk(p) && n < ULLONG_MAX && |Hex(n)| <= MAX_HEADER_SIZE
    ensures Reaches(p, Hex(n), Sized(p, n, |Hex(n)|), [])
  {
    if n < 16 {
      FirstDigit(p, n);
    } else {
      SizeLine(p, n / 16);
      NextDigit(p, n / 16, |Hex(n / 16)|, n % 16);
      Compose(p, Hex(n / 16), Sized(p, n / 16, |Hex(n / 16)|), [], [HexDigit(n % 16)], Sized(p, n, |Hex(n)|), []);
    }
  }

  function Pow16(k: nat): nat { if k == 0 then 1 else 16 * Pow16(k - 1) }

  lemma {:induction false} HexIsShort(n: nat, k: nat)
    requires 1 <= k && n < Pow16(k)
    ensures |Hex(n)| <= k
  {
    if n >= 16 {
      assert k >= 2;
      HexIsShort(n / 16, k - 1);
    }
  }

  lemma SizeFits(n: nat)
    requires n <= ULLONG_MAX
    ensures |Hex(n)| <= 16
  {
    assert Pow16(16) == ULLONG_MODULUS by {
      assert Pow16(4) == 0x1_0000;
      assert Pow16(8) == 0x1_0000_0000;
      assert Pow16(12) == 0x1_0000_0000_0000;
    }
    HexIsShort(n, 16);
  }

  /** CR LF after the size: data follows, or the trailer when the size is zero. */
  function AfterSize(p: Parser, n: nat): Parser {
    if n == 0 then
      p.(state := HeaderFieldStart, contentLength := 0, nread := 0, flags := p.flags.(trailing := true))
    else p.(state := ChunkData, contentLength := n, nread := 0)
  }

  function SizeClosing(p: Parser, n: nat, digits: nat): Parser {
    p.(state := ChunkSizeAlmostDone, contentLength := n, nread := digits)
  }

  lemma SizeCr(p: Parser, n: nat, digits: nat)
    requires AtChunk(p) && n < ULLONG_MAX && digits < MAX_HEADER_SIZE
    ensures Reaches(Sized(p, n, digits), [CR], SizeClosing(p, n, digits + 1), [])
  {
    hide Run, VerbLength, FieldMatch, ValueMatch, Rank, Token, ParseUrlChar;
    var q := Sized(p, n, digits);
    OneByte(q, CR);
    assert Switch(Count(q), CR) == GoTo(Count(q), ChunkSizeAlmostDone);
  }

  lemma SizeLf(p: Parser, n: nat, digits: nat)
    requires AtChunk(p) && n < ULLONG_MAX && digits < MAX_HEADER_SIZE
    ensures Reaches(SizeClosing(p, n, digits), [LF], AfterSize(p, n), [])
  {
    hide Run;
    var q := SizeClosing(p, n, digits);
    OneByte(q, LF);
    assert Switch(Count(q), LF) == Go(AfterSize(p, n));
  }

  lemma SizeEnds(p: Parser, n: nat, digits: nat)
    requires AtChunk(p) && n < ULLONG_MAX && digits + 2 <= MAX_HEADER_SIZE
    ensures Reaches(Sized(p, n, digits), CRLF, AfterSize(p, n), [])
  {
    hide Run, Step, StateOk;
    SizeCr(p, n, digits);
    SizeLf(p, n, digits + 1);
    Compose(Sized(p, n, digits), [CR], SizeClosing(p, n, digits + 1), [], [LF], AfterSize(p, n), []);
    assert [CR] + [LF] == CRLF;
  }

  /** The line end after the data of a chunk. */
  lemma DataEnds(p: Parser)
    requires AtChunk(p)
    ensures Reaches(p.(state := ChunkDataAlmostDone, contentLength := 0), CRLF, p.(contentLength := 0), [])
  {
    hide Run;
    var q := p.(state := ChunkDataAlmostDone, contentLength := 0);
    var r := q.(state := ChunkDataDone);
    OneByte(q, CR);
    assert Switch(q, CR) == Flushing(r, Body);
    OneByte(r, LF);
    assert Switch(r, LF) == Go(p.(contentLength := 0));
    Compose(q, [CR], r, [], [LF], p.(contentLength := 0), []);
    assert [CR] + [LF] == CRLF;
  }

  lemma OneChunk(p: Parser, d: seq<Byte>)
    requires AtChunk(p) && 0 < |d| < ULLONG_MAX
    ensures Reaches(p, Chunk(d), p.(contentLength := 0), Tag(Body, d))
  {
    hide Run, Step, StateOk;
    var n := |d|;
    SizeFits(n);
    var k := |Hex(n)|;
    SizeLine(p, n);
    SizeEnds(p, n, k);
    Compose(p, Hex(n), Sized(p, n, k), [], CRLF, AfterSize(p, n), []);
    var q := p.(state := ChunkDataAlmostDone, contentLength := 0);
    DataArrives(p, d);
    Compose(p, Hex(n) + CRLF, AfterSize(p, n), [], d, q, Tag(Body, d));
    DataEnds(p);
    Compose(p, Hex(n) + CRLF + d, q, [] + Tag(Body, d), CRLF, p.(contentLength := 0), []);
    assert [] + Tag(Body, d) + [] == Tag(Body, d);
  }

  lemma DataArrives(p: Parser, d: seq<Byte>)
    requires AtChunk(p) && 0 < |d| < ULLONG_MAX
    ensures Reaches(AfterSize(p, |d|), d, p.(state := ChunkDataAlmostDone, contentLength := 0), Tag(Body, d))
  {
    hide Run;
    BulkRun(AfterSize(p, |d|), d);
    assert Tag(Body, d) + [] == Tag(Body, d);
  }

  /** The parser after a number of chunks: it waits for the next size. */
  function Idle(p: Parser, payloads: seq<seq<Byte>>): Parser {
    if payloads == [] then p else p.(contentLength := 0)
  }

  lemma IdleOk(p: Parser, payloads: seq<seq<Byte>>)
    requires AtChunk(p)
    ensures AtChunk(Idle(p, payloads))
  {}

  /** Any number of chunks: exactly their payloads arrive. */
  lemma {:induction false} AllChunks(p: Parser, payloads: seq<seq<Byte>>)
    requires AtChunk(p) && forall d <- payloads :: 0 < |d| < ULLONG_MAX
    ensures Reaches(p, Chunks(payloads), Idle(p, payloads), Tag(Body, T.Join(payloads)))
    decreases |payloads|
  {
    hide Step, StateOk, AtChunk, Reaches;
    if payloads == [] {
      NoChunks(p);
    } else {
      var d, more := payloads[0], payloads[1..];
      assert d in payloads && forall e <- more :: e in payloads;
      var q := Idle(p, payloads);
      IdleOk(p, payloads);
      OneChunk(p, d);
      AllChunks(q, more);
      Compose(p, Chunk(d), q, Tag(Body, d), Chunks(more), Idle(q, more), Tag(Body, T.Join(more)));
      assert Tag(Body, d) + Tag(Body, T.Join(more)) == Tag(Body, d + T.Join(more));
    }
  }

  lemma NoChunks(p: Parser)
    requires AtChunk(p)
    ensures Reaches(p, Chunks([]), p, Tag(Body, T.Join([])))
  {
    hide Step, StateOk;
    RunsNowhere(p);
  }

  lemma RunsNowhere(p: Parser)
    requires Valid(p)
    ensures Run(p, []) == Trace(p, 0, [], Running, p.state)
  {}

  function AfterLastSize(p: Parser): Parser { AfterSize(p, 0) }

  lemma LastChunk(p: Parser)
    requires AtChunk(p)
    ensures Reaches(p, LAST_CHUNK, AfterLastSize(p), [])
  {
    hide Run, Step;
    FirstDigit(p, 0);
    SizeEnds(p, 0, 1);
    Compose(p, [HexDigit(0)], Sized(p, 0, 1), [], CRLF, AfterLastSize(p), []);
    assert [HexDigit(0)] + CRLF == LAST_CHUNK;
  }

  /** The empty trailer: CR is silent, LF completes the message. */
  function Finished(p: Parser): Parser {
    AfterLastSize(p).(state := NewMessage(p), nread := 2)
  }

  function Closing(p: Parser): Parser {
    AfterLastSize(p).(state := HeadersAlmostDone, nread := 1)
  }

  lemma TrailerCr(p: Parser)
    requires AtChunk(p)
    ensures Reaches(AfterLastSize(p), [CR], Closing(p), [])
  {
    hide Run;
    OneByte(AfterLastSize(p), CR);
    assert Switch(Count(AfterLastSize(p)), CR) == GoTo(Count(AfterLastSize(p)), HeadersAlmostDone);
  }

  lemma TrailerLf(p: Parser)
    requires AtChunk(p)
    ensures Reaches(Closing(p), [LF], Finished(p), [Note(MessageComplete)])
  {
    hide Run;
    OneByte(Closing(p), LF);
    assert Switch(Count(Closing(p)), LF) == Notifying(Finished(p), MessageComplete);
    assert [Note(MessageComplete)] + [] == [Note(MessageComplete)];
  }

  /**
   The round trip for the machine without marks: the payloads arrive, in order and whole, and
   the message is complete with the last byte and not before.
   */
  lemma ChunkedRun(p: Parser, payloads: seq<seq<Byte>>)
    requires AtChunk(p) && forall d <- payloads :: 0 < |d| < ULLONG_MAX
    ensures var out, body := Chunked(payloads), Tag(Body, T.Join(payloads));
            && Reaches(p, out[..|out| - 1], Closing(p), body)
            && Reaches(p, out, Finished(p), body + [Note(MessageComplete)])
  {
    hide Run, Step, StateOk, Switch, Reaches, AtChunk;
    var out, body := Chunked(payloads), Tag(Body, T.Join(payloads));
    var q := Idle(p, payloads);
    AllChunks(p, payloads);
    IdleOk(p, payloads);
    LastChunk(q);
    Compose(p, Chunks(payloads), q, body, LAST_CHUNK, AfterLastSize(q), []);
    assert body + [] == body;
    var most := Chunks(payloads) + LAST_CHUNK;
    TrailerCr(q);
    Compose(p, most, AfterLastSize(q), body, [CR], Closing(q), []);
    TrailerLf(q);
    Compose(p, most + [CR], Closing(q), body, [LF], Finished(q), [Note(MessageComplete)]);
    assert out[..|out| - 1] == most + [CR];
    assert out == most + [CR] + [LF];
  }

  /**
   Chunked round trip: what the client writes for a list of nonempty payloads, fed to a
   parser that waits for a chunk size, in any nonempty pieces, delivers one body, which is
   the concatenation of the payloads, and completes the message with the last byte.
   */
  lemma ChunkedRoundTrip(p: Parser, payloads: seq<seq<Byte>>, pieces: seq<seq<Byte>>)
    requires AtChunk(p) && forall d <- payloads :: 0 < |d| < ULLONG_MAX
    requires T.Nonempty(pieces) && T.Join(pieces) == Chunked(payloads)
    ensures var r := T.ExecuteAll(p, pieces);
            && r.parser == Finished(p) && r.consumed == |Chunked(payloads)|
            && T.Joined(r.log) == (if T.Join(payloads) == [] then [] else [Data(Body, T.Join(payloads))]) + [Notify(MessageComplete)]
  {
    hide Run, Step, StateOk, Switch, Execute, Flatten;
    var body := T.Join(payloads);
    var r := T.ExecuteAll(p, pieces);
    ChunkedRun(p, payloads);
    T.AllSim(p, pieces);
    var want := (if body == [] then [] else [Data(Body, body)]) + [Notify(MessageComplete)];
    WantedStream(body);
    T.SameStream(r.log, want);
    assert r.consumed == |Chunked(payloads)| by { ConsumedAll(p, Chunked(payloads)); }
  }

  lemma ConsumedAll(p: Parser, d: seq<Byte>)
    requires Valid(p) && Run(p, d).status.Running?
    ensures Run(p, d).consumed == |d|
  {}

  lemma WantedStream(body: seq<Byte>)
    ensures var want := (if body == [] then [] else [Data(Body, body)]) + [Notify(MessageComplete)];
            Flatten(want) == Tag(Body, body) + [Note(MessageComplete)] && T.Joined(want) == want
  {
    var n := Notify(MessageComplete);
    FlattenOne(n);
    if body == [] {
      assert [] + [n] == [n];
      assert Tag(Body, body) + [Note(MessageComplete)] == [Note(MessageComplete)];
      assert T.Joined([n]) == T.Push(n, T.Joined([]));
    } else {
      var d := Data(Body, body);
      FlattenConcat([d], [n]);
      FlattenOne(d);
      var want := [d] + [n];
      assert want[0] == d && want[1..] == [n];
      assert T.Joined([n]) == T.Push(n, T.Joined([])) == [n];
    }
  }
}
