/**
 The split theorem: feeding a request in pieces ends where feeding it whole ends, with the
 same callback stream once adjacent data callbacks are joined and empty ones dropped.
 */
module HttpSplitTheorem {
  import opened Basics
  import opened HttpSyntax
  import opened HttpParser
  import opened HttpSplit

  // ---------------------------------------------------------------- joined streams

  /** Put an event in front of a joined stream. */
  function Push(e: Event, rest: seq<Event>): seq<Event> {
    if e.Data? && e.bytes == [] then rest
    else if e.Data? && rest != [] && rest[0].Data? && rest[0].kind == e.kind then
      [Data(e.kind, e.bytes + rest[0].bytes)] + rest[1..]
    else [e] + rest
  }

  /** Join adjacent data callbacks of one kind and drop the empty ones. */
  function Joined(log: seq<Event>): seq<Event> {
    if log == [] then [] else Push(log[0], Joined(log[1..]))
  }

  function AsEvent(a: Atom): Event {
    match a
    case Octet(k, b) => Data(k, [b])
    case Note(n) => Notify(n)
  }

  function Rejoined(atoms: seq<Atom>): seq<Event> {
    if atoms == [] then [] else Push(AsEvent(atoms[0]), Rejoined(atoms[1..]))
  }

  lemma PushTwice(k: Kind, b: Byte, bytes: seq<Byte>, rest: seq<Event>)
    ensures Push(Data(k, [b]), Push(Data(k, bytes), rest)) == Push(Data(k, [b] + bytes), rest)
  {
    if bytes == [] {
      assert [b] + bytes == [b];
    } else if rest != [] && rest[0].Data? && rest[0].kind == k {
      assert [b] + (bytes + rest[0].bytes) == ([b] + bytes) + rest[0].bytes;
    }
  }

  lemma {:induction false} RejoinedTag(k: Kind, bytes: seq<Byte>, atoms: seq<Atom>)
    ensures Rejoined(Tag(k, bytes) + atoms) == Push(Data(k, bytes), Rejoined(atoms))
  {
    var all := Tag(k, bytes) + atoms;
    if bytes == [] {
      assert all == atoms;
    } else {
      assert all[0] == Octet(k, bytes[0]);
      assert all[1..] == Tag(k, bytes[1..]) + atoms;
      RejoinedTag(k, bytes[1..], atoms);
      PushTwice(k, bytes[0], bytes[1..], Rejoined(atoms));
      assert [bytes[0]] + bytes[1..] == bytes;
    }
  }

  lemma {:induction false} JoinedIsRejoined(log: seq<Event>)
    ensures Joined(log) == Rejoined(Flatten(log))
  {
    if log != [] {
      JoinedIsRejoined(log[1..]);
      match log[0]
      case Data(k, bytes) => RejoinedTag(k, bytes, Flatten(log[1..]));
      case Notify(n) =>
        assert Flatten(log)[0] == Note(n) && Flatten(log)[1..] == Flatten(log[1..]);
    }
  }

  lemma FlattenPush(e: Event, rest: seq<Event>)
    ensures Flatten(Push(e, rest)) == Atoms(e) + Flatten(rest)
  {
    if e.Data? && e.bytes == [] {
      assert Atoms(e) == [];
    } else if e.Data? && rest != [] && rest[0].Data? && rest[0].kind == e.kind {
      var joined := Data(e.kind, e.bytes + rest[0].bytes);
      assert Atoms(joined) == Atoms(e) + Atoms(rest[0]);
      assert ([joined] + rest[1..])[1..] == rest[1..];
    } else {
      assert ([e] + rest)[1..] == rest;
    }
  }

  lemma {:induction false} FlattenJoined(log: seq<Event>)
    ensures Flatten(Joined(log)) == Flatten(log)
  {
    if log != [] {
      FlattenJoined(log[1..]);
      FlattenPush(log[0], Joined(log[1..]));
    }
  }

  /** Two callback streams carry the same octets and notifications iff they are equal once joined. */
  lemma SameStream(a: seq<Event>, b: seq<Event>)
    ensures Flatten(a) == Flatten(b) <==> Joined(a) == Joined(b)
  {
    JoinedIsRejoined(a);
    JoinedIsRejoined(b);
    FlattenJoined(a);
    FlattenJoined(b);
  }

  // ---------------------------------------------------------------- pieces

  function Join(pieces: seq<seq<Byte>>): seq<Byte> {
    if pieces == [] then [] else pieces[0] + Join(pieces[1..])
  }

  /** The parser is called once for each piece, as data arrives. */
  function ExecuteAll(p: Parser, pieces: seq<seq<Byte>>): (r: Result)
    requires p.errno == OK ==> Valid(p)
    decreases |pieces|
  {
    if pieces == [] then Result(p, 0, [])
    else
      var r := Execute(p, pieces[0]);
      var rest := ExecuteAll(r.parser, pieces[1..]);
      Result(rest.parser, r.consumed + rest.consumed, r.log + rest.log)
  }

  predicate Nonempty(pieces: seq<seq<Byte>>) { forall d <- pieces :: d != [] }

  lemma {:induction false} FailedStays(p: Parser, pieces: seq<seq<Byte>>)
    requires p.errno != OK
    ensures ExecuteAll(p, pieces) == Result(p, 0, [])
    decreases |pieces|
  {
    if pieces != [] {
      FailedStays(p, pieces[1..]);
      assert Execute(p, pieces[0]) == Result(p, 0, []);
    }
  }

  lemma JoinNonempty(pieces: seq<seq<Byte>>)
    requires Nonempty(pieces)
    ensures Join(pieces) == [] ==> pieces == []
  {
    if pieces != [] {
      assert pieces[0] in pieces;
    }
  }

  predicate AllRefines(r: Result, t: Trace) {
    && r.parser == t.parser && r.consumed == t.consumed
    && (!t.status.Failed? ==> Flatten(r.log) == t.atoms)
    && (t.status.Failed? ==> Lags(Flatten(r.log), t.atoms, t.last))
  }

  /** A run that leaves for another protocol leaves nothing over. */
  predicate TakesAll(t: Trace, data: seq<Byte>) { t.status.Left? ==> t.consumed == |data| }

  /** Any cut of a buffer against the machine without marks. */
  lemma {:induction false} AllSim(p: Parser, pieces: seq<seq<Byte>>)
    requires Valid(p) && Nonempty(pieces)
    ensures TakesAll(Run(p, Join(pieces)), Join(pieces)) ==> AllRefines(ExecuteAll(p, pieces), Run(p, Join(pieces)))
    decreases |pieces|
  {
    hide Execute, Step, StateOk;
    if pieces != [] && TakesAll(Run(p, Join(pieces)), Join(pieces)) {
      var d, more := pieces[0], pieces[1..];
      var r, t := Execute(p, d), Run(p, d);
      assert d in pieces && forall e <- more :: e in pieces;
      ExecuteRefinesRun(p, d);
      RunConcat(p, d, Join(more));
      if t.status.Running? {
        AllSim(t.parser, more);
        var rest, u := ExecuteAll(t.parser, more), Run(t.parser, Join(more));
        FlattenConcat(r.log, rest.log);
        if u.status.Failed? {
          LagsShift(t.atoms, Flatten(rest.log), u.atoms, u.last);
        }
      } else if t.status.Failed? {
        FailedStays(r.parser, more);
        assert r.log + [] == r.log;
      } else {
        assert Join(more) == [];
        JoinNonempty(more);
        assert r.log + [] == r.log;
      }
    }
  }

  /**
   Split invariance: when one call takes every byte and ends without an error, every cut into
   nonempty pieces ends in the same record, takes as many bytes, and makes the same callbacks.
   */
  lemma SplitInvariance(p: Parser, pieces: seq<seq<Byte>>)
    requires Valid(p) && Nonempty(pieces)
    requires var whole := Execute(p, Join(pieces));
             whole.parser.errno == OK && whole.consumed == |Join(pieces)|
    ensures var whole, parts := Execute(p, Join(pieces)), ExecuteAll(p, pieces);
            parts.parser == whole.parser && parts.consumed == whole.consumed
            && Joined(parts.log) == Joined(whole.log)
  {
    hide Step, StateOk, Loop;
    if pieces != [] {
      assert pieces[0] in pieces;
      var whole, parts := Execute(p, Join(pieces)), ExecuteAll(p, pieces);
      ExecuteRefinesRun(p, Join(pieces));
      AllSim(p, pieces);
      SameStream(parts.log, whole.log);
    }
  }

  /** Without an error and with `upgrade` clear, a call has taken every byte. */
  lemma CleanCallTakesAll(p: Parser, data: seq<Byte>)
    requires Valid(p) && data != []
    requires var r := Execute(p, data); r.parser.errno == OK && !r.parser.upgrade
    ensures Execute(p, data).consumed == |data|
  {
    hide Step, StateOk, Loop;
    ExecuteRefinesRun(p, data);
  }

  /**
   On an error both ways agree on the record and on the byte at fault, and either stream is
   the true one short of octets of the kind that was being collected when the error came.
   */
  lemma SplitOnError(p: Parser, pieces: seq<seq<Byte>>)
    requires Valid(p) && Nonempty(pieces) && Join(pieces) != []
    requires Execute(p, Join(pieces)).parser.errno != OK
    ensures var whole, parts := Execute(p, Join(pieces)), ExecuteAll(p, pieces);
            var t := Run(p, Join(pieces));
            && parts.parser == whole.parser && parts.consumed == whole.consumed
            && Lags(Flatten(whole.log), t.atoms, t.last) && Lags(Flatten(parts.log), t.atoms, t.last)
  {
    hide Step, StateOk, Loop;
    ExecuteRefinesRun(p, Join(pieces));
    AllSim(p, pieces);
  }
}
