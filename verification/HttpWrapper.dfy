/**
 CHttpParserWrapper: the server parses its whole unconsumed input again on every read.
 What makes that sound: a completed request stays completed as the buffer grows, and
 nothing that was read off it changes.
 */
module HttpWrapper {
  import opened Basics
  import opened HttpSyntax
  import opened HttpParser
  import opened HttpSplit
  import M = HttpMachine

  const UINT32: nat := 0x1_0000_0000

  /** The fields of the wrapper that the request handlers use. */
  datatype View = View(readAll: bool, totalLength: nat, url: seq<Byte>, body: seq<Byte>)

  const CLEARED: View := View(false, 0, [], [])

  /** OnUrl, OnHeadersComplete, OnBody and OnMessageComplete; the header callbacks do not touch these fields. */
  function OnEvent(v: View, e: Event): View {
    match e
    case Data(Url, bytes) => v.(url := v.url + bytes)
    case Data(Body, bytes) => v.(body := v.body + bytes)
    case Data(_, _) => v
    case Notify(HeadersComplete(nread, length)) => v.(totalLength := (nread + length % UINT32) % UINT32)
    case Notify(MessageComplete) => v.(readAll := true)
    case Notify(MessageBegin) => v
  }

  function OnEvents(v: View, log: seq<Event>): View
    decreases |log|
  {
    if log == [] then v else OnEvents(OnEvent(v, log[0]), log[1..])
  }

  lemma {:induction false} OnEventsStep(v: View, log: seq<Event>, e: Event)
    ensures OnEvents(v, log + [e]) == OnEvent(OnEvents(v, log), e)
    decreases |log|
  {
    if log == [] {
      assert OnEvents(v, [e]) == OnEvents(OnEvent(v, e), []);
    } else {
      assert (log + [e])[0] == log[0] && (log + [e])[1..] == log[1..] + [e];
      OnEventsStep(OnEvent(v, log[0]), log[1..], e);
    }
  }

  /** ParseHttpContent as a function of the buffer. */
  function Parse(buf: seq<Byte>): View {
    OnEvents(CLEARED, Execute(Init(), buf).log)
  }

  class Wrapper {
    var readAll: bool
    var totalLength: nat
    var url: seq<Byte>
    var body: seq<Byte>

    ghost function Fields(): View
      reads this
    {
      View(readAll, totalLength, url, body)
    }

    /** Reset every field, parse the whole buffer, and let the callbacks fill the fields again. */
    method ParseHttpContent(buf: seq<Byte>)
      modifies this
      ensures Fields() == Parse(buf)
    {
      hide Execute;
      var parser := new M.RequestParser();
      readAll, totalLength, url, body := false, 0, [], [];
      var _ := parser.Execute(buf);
      var log := parser.callbacks;
      assert log == Execute(Init(), buf).log;
      var i := 0;
      while i < |log|
        invariant i <= |log| && Fields() == OnEvents(CLEARED, log[..i])
      {
        OnEventsStep(CLEARED, log[..i], log[i]);
        assert log[..i + 1] == log[..i] + [log[i]];
        match log[i] {
          case Data(Url, bytes) => url := url + bytes;
          case Data(Body, bytes) => body := body + bytes;
          case Data(_, _) =>
          case Notify(HeadersComplete(nread, length)) => totalLength := (nread + length % UINT32) % UINT32;
          case Notify(MessageComplete) => readAll := true;
          case Notify(MessageBegin) =>
        }
        i := i + 1;
      }
      assert log[..i] == log;
    }
  }

  // ---------------------------------------------------------------- the view of a stream of octets

  function Octets(atoms: seq<Atom>, k: Kind): seq<Byte> {
    if atoms == [] then []
    else (if atoms[0].Octet? && atoms[0].kind == k then [atoms[0].byte] else []) + Octets(atoms[1..], k)
  }

  function Length(atoms: seq<Atom>, start: nat): nat {
    if atoms == [] then start
    else match atoms[0]
      case Note(HeadersComplete(nread, length)) => Length(atoms[1..], (nread + length % UINT32) % UINT32)
      case _ => Length(atoms[1..], start)
  }

  function Seen(v: View, atoms: seq<Atom>): View {
    View(v.readAll || Note(MessageComplete) in atoms, Length(atoms, v.totalLength),
         v.url + Octets(atoms, Url), v.body + Octets(atoms, Body))
  }

  lemma {:induction false} OctetsConcat(a: seq<Atom>, b: seq<Atom>, k: Kind)
    ensures Octets(a + b, k) == Octets(a, k) + Octets(b, k)
  {
    if a == [] {
      assert a + b == b;
    } else {
      assert (a + b)[0] == a[0] && (a + b)[1..] == a[1..] + b;
      OctetsConcat(a[1..], b, k);
    }
  }

  lemma {:induction false} LengthConcat(a: seq<Atom>, b: seq<Atom>, start: nat)
    ensures Length(a + b, start) == Length(b, Length(a, start))
  {
    if a == [] {
      assert a + b == b;
    } else {
      assert (a + b)[0] == a[0] && (a + b)[1..] == a[1..] + b;
      match a[0]
      case Note(HeadersComplete(nread, length)) => LengthConcat(a[1..], b, (nread + length % UINT32) % UINT32);
      case _ => LengthConcat(a[1..], b, start);
    }
  }

  lemma {:induction false} TagView(k: Kind, bytes: seq<Byte>, l: Kind, start: nat)
    ensures Octets(Tag(k, bytes), l) == if k == l then bytes else []
    ensures Length(Tag(k, bytes), start) == start
    ensures Note(MessageComplete) !in Tag(k, bytes)
  {
    if bytes != [] {
      assert Tag(k, bytes)[1..] == Tag(k, bytes[1..]);
      TagView(k, bytes[1..], l, start);
    }
  }

  lemma SeenConcat(v: View, a: seq<Atom>, b: seq<Atom>)
    ensures Seen(Seen(v, a), b) == Seen(v, a + b)
  {
    OctetsConcat(a, b, Url);
    OctetsConcat(a, b, Body);
    LengthConcat(a, b, v.totalLength);
  }

  lemma NoteView(n: Notice, start: nat, k: Kind)
    ensures Octets([Note(n)], k) == []
    ensures Length([Note(n)], start) == if n.HeadersComplete? then (n.nread + n.contentLength % UINT32) % UINT32 else start
    ensures Note(MessageComplete) in [Note(n)] <==> n.MessageComplete?
  {
    assert [Note(n)][1..] == [];
    match n
    case HeadersComplete(nread, length) => assert Length([], (nread + length % UINT32) % UINT32) == (nread + length % UINT32) % UINT32;
    case _ => assert Length([], start) == start;
  }

  lemma SeenOne(v: View, e: Event)
    ensures OnEvent(v, e) == Seen(v, Atoms(e))
  {
    assert v.url + [] == v.url && v.body + [] == v.body;
    match e
    case Data(k, bytes) =>
      TagView(k, bytes, Url, v.totalLength);
      TagView(k, bytes, Body, v.totalLength);
    case Notify(n) =>
      NoteView(n, v.totalLength, Url);
      NoteView(n, v.totalLength, Body);
  }

  lemma {:induction false} OnEventsSeen(v: View, log: seq<Event>)
    ensures OnEvents(v, log) == Seen(v, Flatten(log))
    decreases |log|
  {
    if log == [] {
      assert v.url + [] == v.url && v.body + [] == v.body;
    } else {
      SeenOne(v, log[0]);
      OnEventsSeen(OnEvent(v, log[0]), log[1..]);
      SeenConcat(v, Atoms(log[0]), Flatten(log[1..]));
    }
  }

  // ---------------------------------------------------------------- a completed request stays completed

  lemma InitValid()
    ensures Valid(Init())
  {}

  /** Withheld octets hide no notification. */
  lemma ReadAllByRun(buf: seq<Byte>)
    ensures Parse(buf).readAll <==> Note(MessageComplete) in Run(Init(), buf).atoms
  {
    hide Step, Loop, StateOk;
    InitValid();
    var r, t := Execute(Init(), buf), Run(Init(), buf);
    OnEventsSeen(CLEARED, r.log);
    if buf != [] {
      ExecuteRefinesRun(Init(), buf);
      if t.status.Failed? {
        var n := |Flatten(r.log)|;
        assert t.atoms == Flatten(r.log) + t.atoms[n..];
        assert forall a <- t.atoms[n..] :: a.Octet?;
      }
    }
  }

  /** Without an error the view is that of the machine without marks. */
  lemma ParseByRun(buf: seq<Byte>)
    requires Valid(Init())
    ensures var t, v := Run(Init(), buf), Parse(buf);
            !t.status.Failed? ==>
            && v.readAll == (Note(MessageComplete) in t.atoms) && v.totalLength == Length(t.atoms, 0)
            && v.url == Octets(t.atoms, Url) && v.body == Octets(t.atoms, Body)
  {
    hide Step, Loop, StateOk, OnEvents, Lags, Octets, Length;
    var r, t := Execute(Init(), buf), Run(Init(), buf);
    OnEventsSeen(CLEARED, r.log);
    assert forall s: seq<Byte> {:trigger [] + s} :: [] + s == s;
    if buf != [] {
      ExecuteRefinesRun(Init(), buf);
    } else {
      assert r.log == [] && t.atoms == [];
    }
  }

  /** IsReadAll never goes back to false as the unconsumed buffer grows. */
  lemma ReadAllIsStable(buf: seq<Byte>, more: seq<Byte>)
    requires Parse(buf).readAll
    ensures Parse(buf + more).readAll
  {
    hide Step, Execute, StateOk, OnEvents;
    InitValid();
    ReadAllByRun(buf);
    ReadAllByRun(buf + more);
    RunConcat(Init(), buf, more);
  }

  /** A parser that waits for the connection to close reports nothing more. */
  lemma {:induction false} DeadIsSilent(p: Parser, more: seq<Byte>)
    requires Valid(p) && p.state.Dead?
    ensures var t := Run(p, more);
            t.atoms == [] && !t.status.Left? && t.last.Dead? && (t.status.Running? ==> t.parser.state.Dead?)
    decreases |more|
  {
    if more != [] {
      DeadStep(p, more[0]);
      var e := Step(p, more[0]);
      if e.status.Running? {
        hide Step;
        DeadIsSilent(e.parser, more[1..]);
      }
    }
  }

  lemma DeadStep(p: Parser, ch: Byte)
    requires Valid(p) && p.state.Dead?
    ensures var e := Step(p, ch);
            e.atoms == [] && !e.status.Left? && (e.status.Running? ==> e.parser.state.Dead?)
  {
  }

  /**
   Once a request without keep-alive is complete (the parser waits for the connection to
   close), parsing any longer buffer gives the same url, body, length and read-all flag.
   */
  lemma CompletedIsFinal(buf: seq<Byte>, more: seq<Byte>)
    requires var p := Execute(Init(), buf).parser; p.errno == OK && p.state.Dead?
    ensures Parse(buf + more) == Parse(buf)
  {
    hide Step, Loop, StateOk, Switch;
    InitValid();
    var t := Run(Init(), buf);
    ExecuteRefinesRun(Init(), buf);
    ExecuteRefinesRun(Init(), buf + more);
    RunConcat(Init(), buf, more);
    OnEventsSeen(CLEARED, Execute(Init(), buf).log);
    OnEventsSeen(CLEARED, Execute(Init(), buf + more).log);
    if t.status.Running? {
      DeadIsSilent(t.parser, more);
      assert t.atoms + [] == t.atoms;
      var u := Run(Init(), buf + more);
      assert u.atoms == t.atoms;
      if u.status.Failed? {
        var flat := Flatten(Execute(Init(), buf + more).log);
        assert u.atoms == flat + u.atoms[|flat|..];
        assert flat + [] == flat;
      }
    }
  }
}
