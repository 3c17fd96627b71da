/**
 A request with a Content-Length, on the server that parses its whole input again: the body
 is exactly the bytes after the header block, and the recorded length is where it ends.
 */
module HttpCountedBody {
  import opened Basics
  import opened HttpSyntax
  import opened HttpParser
  import opened HttpSplit
  import opened HttpWrapper

  // ---------------------------------------------------------------- phases of one request

  predicate RequestLine(s: State) {
    s.StartReq? || s.ReqMethod? || s.ReqSpacesBeforeUrl? || IsUrlState(s) || InHttpWord(s) || InMajor(s) || InMinor(s)
  }

  predicate HeaderLine(s: State) {
    || s.HeaderFieldStart? || s.HeaderField? || s.HeaderValueStart? || s.HeaderValue?
    || s.HeaderValueLws? || s.HeaderAlmostDone? || s.HeadersAlmostDone?
  }

  /** From the start of a request up to the line end that closes its header block. */
  predicate InHead(p: Parser) { (RequestLine(p.state) || HeaderLine(p.state)) && !p.flags.trailing }

  /** From the first chunk size up to the end of the trailer. */
  predicate InChunkedBody(p: Parser) { InChunk(p.state) || (HeaderLine(p.state) && p.flags.trailing) }

  lemma RequestLineSwitch(p: Parser, ch: Byte)
    requires MidByte(p) && RequestLine(p.state) && !p.flags.trailing
    ensures var r := Switch(p, ch);
            r.control.Fail? || (InHead(r.parser) && r.control.Break? && r.parser.nread == p.nread
                                && (r.notice.None? || r.notice == Some(MessageBegin)))
  {
    hide OtherVerb;
  }

  /** A pass over a header or trailer line, other than the line end that closes the block. */
  lemma HeaderLineSwitch(p: Parser, ch: Byte)
    requires MidByte(p) && HeaderLine(p.state) && !p.state.HeadersAlmostDone?
    ensures var r := Switch(p, ch);
            r.control.Fail? || (HeaderLine(r.parser.state) && !r.control.Leave? && r.parser.nread == p.nread
                                && r.parser.flags.trailing == p.flags.trailing && r.notice.None?)
  {
    hide Accumulate, NextFieldMatch, NextValueMatch, FirstValueMatch, Token, Lower;
  }

  lemma ChunkSwitch(p: Parser, ch: Byte)
    requires MidByte(p) && InChunk(p.state) && !p.state.ChunkData?
    ensures var r := Switch(p, ch);
            r.control.Fail? || (r.control.Break? && InChunkedBody(r.parser))
  {
    hide Accumulate, Unhex;
  }

  /** Nothing but the request line and headers has been reported. */
  predicate Quiet(atoms: seq<Atom>) {
    forall a <- atoms :: if a.Octet? then a.kind != Body else a.notice.MessageBegin?
  }

  /** One byte in the header block: still inside, or closed with the number of bytes counted. */
  predicate HeadByte(nread: nat, e: Effect) {
    || (e.status.Running? && InHead(e.parser) && e.parser.nread == nread && Quiet(e.atoms))
    || (&& e.atoms != [] && e.atoms[0] == Note(HeadersComplete(nread, e.parser.contentLength))
        && (Note(MessageComplete) in e.atoms
            || (e.status.Running? && |e.atoms| == 1 && (e.parser.state.BodyIdentity? || InChunkedBody(e.parser)))))
  }

  lemma ClosingPass(p: Parser, ch: Byte)
    requires MidByte(p) && p.state.HeadersAlmostDone?
    ensures var e := StepPasses(p, ch);
            e.status.Failed? || if p.flags.trailing then Note(MessageComplete) in e.atoms else HeadByte(p.nread, e)
  {
    var r := Switch(p, ch);
    assert r == PassHeadersAlmostDone(p, ch);
    if r.control.Reexecute? {
      var s := Switch(r.parser, ch);
      assert s == PassHeadersDone(r.parser, ch);
      var e := StepPasses(r.parser, ch);
      assert e == if s.control.Fail? then Effect(s.parser, [], Failed) else e;
      if !s.control.Fail? {
        assert e.parser == s.parser && e.atoms == Noted(s.notice);
      }
    }
  }

  lemma {:induction false} HeadPasses(p: Parser, ch: Byte)
    requires MidByte(p) && InHead(p)
    ensures var e := StepPasses(p, ch); e.status.Failed? || HeadByte(p.nread, e)
    decreases Rank(p.state)
  {
    hide Switch;
    if p.state.HeadersAlmostDone? {
      ClosingPass(p, ch);
    } else {
      if RequestLine(p.state) { RequestLineSwitch(p, ch); } else { HeaderLineSwitch(p, ch); }
      var r := Switch(p, ch);
      if r.control.Reexecute? {
        HeadPasses(r.parser, ch);
        var e := StepPasses(r.parser, ch);
        assert Noted(r.notice) + e.atoms == e.atoms;
      }
    }
  }

  lemma {:induction false} ChunkedPasses(p: Parser, ch: Byte)
    requires MidByte(p) && InChunkedBody(p) && !p.state.ChunkData?
    ensures var e := StepPasses(p, ch);
            e.status.Failed? || Note(MessageComplete) in e.atoms || (e.status.Running? && InChunkedBody(e.parser))
    decreases Rank(p.state)
  {
    hide Switch;
    if p.state.HeadersAlmostDone? {
      ClosingPass(p, ch);
    } else {
      if InChunk(p.state) { ChunkSwitch(p, ch); } else { HeaderLineSwitch(p, ch); }
      var r := Switch(p, ch);
      if r.control.Reexecute? {
        ChunkedPasses(r.parser, ch);
      }
    }
  }

  lemma HeadStep(p: Parser, ch: Byte)
    requires Valid(p) && InHead(p)
    ensures var e := Step(p, ch); e.status.Failed? || HeadByte(p.nread + 1, e)
  {
    hide Switch, StepPasses;
    if Count(p).nread <= MAX_HEADER_SIZE {
      HeadPasses(Count(p), ch);
    }
  }

  lemma ChunkedStep(p: Parser, ch: Byte)
    requires Valid(p) && InChunkedBody(p)
    ensures var e := Step(p, ch);
            e.status.Failed? || Note(MessageComplete) in e.atoms || (e.status.Running? && InChunkedBody(e.parser))
  {
    hide Switch, StepPasses;
    if Count(p).nread <= MAX_HEADER_SIZE && !p.state.ChunkData? {
      ChunkedPasses(Count(p), ch);
    }
  }

  lemma {:induction false} ChunkedRun(p: Parser, d: seq<Byte>)
    requires Valid(p) && InChunkedBody(p)
    ensures Note(MessageComplete) !in Run(p, d).atoms && Run(p, d).status.Running? ==> InChunkedBody(Run(p, d).parser)
    decreases |d|
  {
    hide Step, StateOk;
    if d != [] && Note(MessageComplete) !in Run(p, d).atoms && Run(p, d).status.Running? {
      ChunkedStep(p, d[0]);
      ChunkedRun(Step(p, d[0]).parser, d[1..]);
    }
  }

  /** The header block of a request with a counted body, as a stream: quiet, then one HeadersComplete. */
  predicate HeadStream(atoms: seq<Atom>, nread: nat, length: nat) {
    && atoms != [] && Quiet(atoms[..|atoms| - 1])
    && atoms[|atoms| - 1] == Note(HeadersComplete(nread, length))
  }

  predicate NoBody(atoms: seq<Atom>) { forall a <- atoms :: a.Octet? ==> a.kind != Body }

  /** The run stands at the start of a counted body. */
  predicate AtItsBody(t: Trace) {
    t.status.Running? && t.parser.state.BodyIdentity? && Note(MessageComplete) !in t.atoms && NoBody(t.atoms)
  }

  lemma {:induction false} HeadRun(p: Parser, d: seq<Byte>)
    requires Valid(p) && InHead(p)
    ensures AtItsBody(Run(p, d)) ==> HeadStream(Run(p, d).atoms, p.nread + |d|, Run(p, d).parser.contentLength)
    decreases |d|
  {
    hide Step, StateOk;
    var t := Run(p, d);
    if d == [] || !AtItsBody(t) { return; }
    var e, more := Step(p, d[0]), d[1..];
    HeadStep(p, d[0]);
    var u := Run(e.parser, more);
    assert t.atoms == e.atoms + u.atoms;
    if InHead(e.parser) && Quiet(e.atoms) {
      HeadRun(e.parser, more);
      assert t.atoms[..|t.atoms| - 1] == e.atoms + u.atoms[..|u.atoms| - 1];
    } else if InChunkedBody(e.parser) {
      ChunkedRun(e.parser, more);
    } else if more == [] {
      assert t.atoms == e.atoms;
    } else {
      BodyShows(e.parser, more);
    }
  }

  lemma BodyShows(p: Parser, d: seq<Byte>)
    requires Valid(p) && p.state.BodyIdentity? && d != []
    ensures Octet(Body, d[0]) in Run(p, d).atoms
  {
    hide Switch, StepPasses;
    var e := Step(p, d[0]);
    assert e.status.Running? && e.atoms[0] == Octet(Body, d[0]);
  }

  // ---------------------------------------------------------------- the parsed request

  lemma {:induction false} QuietView(atoms: seq<Atom>, start: nat)
    requires Quiet(atoms)
    ensures Octets(atoms, Body) == [] && Length(atoms, start) == start && Note(MessageComplete) !in atoms
  {
    if atoms != [] {
      assert forall a <- atoms[1..] :: a in atoms;
      assert atoms[0] in atoms;
      QuietView(atoms[1..], start);
    }
  }

  lemma HeadStreamView(atoms: seq<Atom>, nread: nat, length: nat)
    requires HeadStream(atoms, nread, length)
    ensures Octets(atoms, Body) == [] && Length(atoms, 0) == (nread + length % UINT32) % UINT32
    ensures Note(MessageComplete) !in atoms
  {
    var quiet, n := atoms[..|atoms| - 1], HeadersComplete(nread, length);
    assert atoms == quiet + [Note(n)];
    QuietView(quiet, 0);
    NoteView(n, 0, Body);
    OctetsConcat(quiet, [Note(n)], Body);
    LengthConcat(quiet, [Note(n)], 0);
  }

  /** Exactly the header block of a request with a counted body. */
  predicate HeadOnly(head: seq<Byte>) {
    var r := Execute(Init(), head);
    && r.parser.errno == OK && r.parser.state.BodyIdentity? && r.consumed == |head|
    && !Parse(head).readAll && Parse(head).body == []
  }

  /**
   Let h bytes hold exactly the header block of the first request, announcing n > 0 body
   bytes.  Then a longer buffer shows the body bytes it holds, the request is complete iff
   all n are there, and the recorded length is h + n in 32 bits.
   */
  lemma CountedBody(buf: seq<Byte>, h: nat)
    requires h <= |buf|
    requires HeadOnly(buf[..h])
    ensures var p := Execute(Init(), buf[..h]).parser;
            var n := p.contentLength;
            && (|buf| < h + n ==> var v := Parse(buf); !v.readAll && v.body == buf[h..] && v.totalLength == (h + n) % UINT32)
            && (|buf| == h + n || (|buf| > h + n && !ShouldKeepAlive(p)) ==>
                  var v := Parse(buf); v.readAll && v.body == buf[h..h + n] && v.totalLength == (h + n) % UINT32)
  {
    hide Step, Loop, StateOk, Switch, Execute, Run, OnEvents;
    InitValid();
    var head := buf[..h];
    var p := Execute(Init(), head).parser;
    var n := p.contentLength;
    HeadOfRequest(head);
    var t := Run(Init(), head);
    if |buf| < h + n {
      BodyArrives(head, buf[h..]);
      assert buf == head + buf[h..];
    } else {
      BodyArrives(head, buf[h..h + n]);
      var done := head + buf[h..h + n];
      assert buf[..h + n] == done;
      if |buf| > h + n && !ShouldKeepAlive(p) {
        assert buf == done + buf[h + n..];
        CompletedIsFinal(done, buf[h + n..]);
      } else if |buf| == h + n {
        assert buf == done;
      }
    }
  }

  lemma {:induction false} NoBodyOctets(atoms: seq<Atom>)
    requires Octets(atoms, Body) == []
    ensures NoBody(atoms)
  {
    if atoms != [] {
      NoBodyOctets(atoms[1..]);
      assert forall a <- atoms :: a == atoms[0] || a in atoms[1..];
    }
  }

  lemma HeadOfRequest(head: seq<Byte>)
    ensures HeadOnly(head) ==>
              var t := Run(Init(), head);
              && t.status.Running? && t.parser == Execute(Init(), head).parser && head != []
              && HeadStream(t.atoms, |head|, t.parser.contentLength)
  {
    hide Step, Loop, StateOk, Switch, Run, OnEvents, Octets, Length, Flatten, Lags, HeadStream, NoBody, Parse;
    InitValid();
    if head == [] || !HeadOnly(head) { return; }
    ExecuteRefinesRun(Init(), head);
    ParseByRun(head);
    NoBodyOctets(Run(Init(), head).atoms);
    LeftLeavesNoBody(Init(), head);
    HeadRun(Init(), head);
  }

  /** A run that was left for another protocol does not stand in a body. */
  lemma {:induction false} LeftLeavesNoBody(p: Parser, d: seq<Byte>)
    requires Valid(p)
    ensures Run(p, d).status.Left? ==> !Run(p, d).parser.state.BodyIdentity?
    decreases |d|
  {
    hide Step, StateOk;
    if d != [] {
      LeaveStep(p, d[0]);
      if Step(p, d[0]).status.Running? {
        LeftLeavesNoBody(Step(p, d[0]).parser, d[1..]);
      }
    }
  }

  lemma LeaveStep(p: Parser, ch: Byte)
    requires Valid(p)
    ensures Step(p, ch).status.Left? ==> !Step(p, ch).parser.state.BodyIdentity?
  {
    hide Switch, StepPasses;
    if !Bulk(p.state) && Count(p).nread <= MAX_HEADER_SIZE {
      LeavePasses(Count(p), ch);
    }
  }

  lemma {:induction false} LeavePasses(p: Parser, ch: Byte)
    requires MidByte(p) && !Bulk(p.state)
    ensures StepPasses(p, ch).status.Left? ==> !StepPasses(p, ch).parser.state.BodyIdentity?
    decreases Rank(p.state)
  {
    hide Switch;
    var r := Switch(p, ch);
    if r.control.Reexecute? {
      LeavePasses(r.parser, ch);
    }
  }

  /** The view after the header block and the first m bytes of the body. */
  lemma BodyArrives(head: seq<Byte>, body: seq<Byte>)
    requires HeadOnly(head) && |body| <= Execute(Init(), head).parser.contentLength
    ensures var p := Execute(Init(), head).parser;
            var v := Parse(head + body);
            && v.readAll == (|body| == p.contentLength) && v.body == body
            && v.totalLength == (|head| + p.contentLength) % UINT32
            && (|body| == p.contentLength && !ShouldKeepAlive(p) ==>
                  var q := Execute(Init(), head + body).parser; q.errno == OK && q.state.Dead?)
  {
    hide Step, Loop, StateOk, Switch, Run, OnEvents, Execute, Parse, Octets, Length, Flatten, Lags, HeadStream;
    InitValid();
    HeadOfRequest(head);
    var t := Run(Init(), head);
    var p := t.parser;
    BodyIdentityOk(p);
    RunConcat(Init(), head, body);
    if body == [] { RunNothing(p); } else { BulkRun(p, body); }
    assert Tag(Body, []) + BulkEnd(p, 0) == [];
    ExecuteRefinesRun(Init(), head + body);
    ParseByRun(head + body);
    HeadStreamView(t.atoms, |head|, p.contentLength);
    BodyView(t.atoms, p, body);
  }

  lemma BodyIdentityOk(p: Parser)
    requires Valid(p) && p.state.BodyIdentity?
    ensures 0 < p.contentLength && Bulk(p.state)
  {}

  lemma RunNothing(p: Parser)
    requires Valid(p)
    ensures Run(p, []) == Trace(p, 0, [], Running, p.state)
  {}

  lemma BodyView(head: seq<Atom>, p: Parser, body: seq<Byte>)
    requires Octets(head, Body) == [] && Note(MessageComplete) !in head && p.state.BodyIdentity?
    ensures var all := head + (Tag(Body, body) + BulkEnd(p, |body|));
            && Octets(all, Body) == body
            && Length(all, 0) == Length(head, 0)
            && (Note(MessageComplete) in all <==> |body| == p.contentLength)
  {
    var octets, end := Tag(Body, body), BulkEnd(p, |body|);
    TagView(Body, body, Body, Length(head, 0));
    NoteView(MessageComplete, Length(head, 0), Body);
    OctetsConcat(octets, end, Body);
    OctetsConcat(head, octets + end, Body);
    LengthConcat(octets, end, Length(head, 0));
    LengthConcat(head, octets + end, 0);
    assert Octets([], Body) == [] && Length([], Length(head, 0)) == Length(head, 0);
    assert [] + (body + []) == body;
  }

  // ---------------------------------------------------------------- more bytes after the request

  /** What has been delivered up to a notification stays delivered, whatever comes after it. */
  lemma DeliveredStays(done: seq<Byte>, more: seq<Byte>)
    requires done != []
    requires var t := Run(Init(), done); t.status.Running? && t.atoms != [] && t.atoms[|t.atoms| - 1].Note?
    ensures Run(Init(), done).atoms <= Flatten(Execute(Init(), done + more).log)
  {
    hide Step, Execute, Run, Flatten;
    InitValid();
    var a, buf := Run(Init(), done).atoms, done + more;
    RunConcat(Init(), done, more);
    ExecuteRefinesRun(Init(), buf);
    var full, f := Run(Init(), buf).atoms, Flatten(Execute(Init(), buf).log);
    assert a <= full;
    if |f| < |a| {
      NoteIsNotWithheld(f, a, full);
    }
  }

  lemma NoteIsNotWithheld(f: seq<Atom>, a: seq<Atom>, full: seq<Atom>)
    requires f <= full && a <= full && |f| < |a| && a[|a| - 1].Note?
    ensures !(forall x <- full[|f|..] :: x.Octet?)
  {
    var lost := full[|f|..];
    var x := lost[|a| - 1 - |f|];
    assert x == a[|a| - 1] && x in lost;
  }

  /**
   Let h bytes hold exactly the header block of the first request, announcing n > 0 body bytes.  Whatever
   follows the n bytes, also further requests on a connection that is kept alive, the request is complete and
   its body comes first.
   */
  lemma BodyComesFirst(buf: seq<Byte>, h: nat)
    requires h <= |buf| && HeadOnly(buf[..h])
    ensures var n := Execute(Init(), buf[..h]).parser.contentLength;
            |buf| >= h + n ==> var v := Parse(buf); v.readAll && buf[h..h + n] <= v.body
  {
    hide Step, Loop, StateOk, Switch, Execute, Run, OnEvents, Parse, Flatten, Octets, Length, HeadOnly;
    InitValid();
    var head := buf[..h];
    var n := Execute(Init(), head).parser.contentLength;
    if |buf| >= h + n {
      var done, more := head + buf[h..h + n], buf[h + n..];
      assert buf == done + more;
      CompleteAtoms(head, buf[h..h + n]);
      DeliveredStays(done, more);
      BodyArrives(head, buf[h..h + n]);
      ReadAllIsStable(done, more);
      ViewOfPrefix(done, more);
    }
  }

  lemma CompleteAtoms(head: seq<Byte>, body: seq<Byte>)
    requires HeadOnly(head) && |body| == Execute(Init(), head).parser.contentLength
    ensures var t := Run(Init(), head + body);
            head != [] && t.status.Running? && t.atoms != [] && t.atoms[|t.atoms| - 1].Note?
  {
    hide Step, Loop, StateOk, Switch, Run, OnEvents, Execute, Parse, Octets, Length, Flatten, Lags, HeadStream;
    InitValid();
    HeadOfRequest(head);
    var p := Run(Init(), head).parser;
    BodyIdentityOk(p);
    RunConcat(Init(), head, body);
    BulkRun(p, body);
  }

  lemma ViewOfPrefix(done: seq<Byte>, more: seq<Byte>)
    requires Valid(Init()) && !Run(Init(), done).status.Failed?
    requires Run(Init(), done).atoms <= Flatten(Execute(Init(), done + more).log)
    ensures Parse(done).body <= Parse(done + more).body
  {
    hide Step, Loop, StateOk, Execute, Run, Flatten, OnEvents, Octets, Length;
    var a, f := Run(Init(), done).atoms, Flatten(Execute(Init(), done + more).log);
    ParseByRun(done);
    OnEventsSeen(CLEARED, Execute(Init(), done + more).log);
    assert f == a + f[|a|..];
    OctetsConcat(a, f[|a|..], Body);
    assert [] + Octets(f, Body) == Octets(f, Body);
  }
}
