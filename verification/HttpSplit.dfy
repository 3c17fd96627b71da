/**
 Split invariance of the request parser.  The parser moves through a buffer with marks and
 delivers ranges; here a machine without marks takes one byte at a time and emits single
 octets.  The first refines the second, and the second does not see where a buffer ends.
 */
module HttpSplit {
  import opened Basics
  import opened HttpSyntax
  import opened HttpParser

  /** The finest view of a callback stream: single octets of a kind, and notifications. */
  datatype Atom = Octet(kind: Kind, byte: Byte) | Note(notice: Notice)

  function Tag(k: Kind, bytes: seq<Byte>): (r: seq<Atom>)
    ensures |r| == |bytes|
    ensures forall i :: 0 <= i < |bytes| ==> r[i] == Octet(k, bytes[i])
  {
    seq(|bytes|, i requires 0 <= i < |bytes| => Octet(k, bytes[i]))
  }

  function Atoms(e: Event): seq<Atom> {
    match e
    case Data(k, bytes) => Tag(k, bytes)
    case Notify(n) => [Note(n)]
  }

  function Flatten(log: seq<Event>): seq<Atom> {
    if log == [] then [] else Atoms(log[0]) + Flatten(log[1..])
  }

  lemma {:induction false} FlattenConcat(a: seq<Event>, b: seq<Event>)
    ensures Flatten(a + b) == Flatten(a) + Flatten(b)
  {
    if a == [] {
      assert a + b == b;
    } else {
      assert (a + b)[0] == a[0] && (a + b)[1..] == a[1..] + b;
      FlattenConcat(a[1..], b);
    }
  }

  lemma FlattenOne(e: Event)
    ensures Flatten([e]) == Atoms(e)
  {
    assert Flatten([e]) == Atoms(e) + Flatten([]);
  }

  // ---------------------------------------------------------------- one byte at a time

  datatype Effect = Effect(parser: Parser, atoms: seq<Atom>, status: Status)

  predicate EffectOk(e: Effect) {
    match e.status
    case Running | Left => Valid(e.parser)
    case Failed => e.parser.errno != OK
  }

  function Collected(s: State, ch: Byte): seq<Atom> {
    match Collecting(s)
    case Some(Body) => []
    case Some(k) => [Octet(k, ch)]
    case None => []
  }

  function Noted(notice: Option<Notice>): seq<Atom> {
    if notice.Some? then [Note(notice.value)] else []
  }

  function StepPasses(p: Parser, ch: Byte): (e: Effect)
    requires MidByte(p) && !Bulk(p.state)
    ensures EffectOk(e)
    decreases Rank(p.state)
  {
    var r := Switch(p, ch);
    match r.control
    case Break => Effect(r.parser, Noted(r.notice) + Collected(r.parser.state, ch), Running)
    case Fail => Effect(r.parser, [], Failed)
    case Leave => Effect(r.parser, Noted(r.notice), Left)
    case Reexecute =>
      var e := StepPasses(r.parser, ch);
      Effect(e.parser, Noted(r.notice) + e.atoms, e.status)
  }

  /** One byte of a counted body. */
  function StepBulk(p: Parser, ch: Byte): (e: Effect)
    requires MidByte(p) && Bulk(p.state)
    ensures EffectOk(e) && e.status.Running?
  {
    var q := p.(contentLength := p.contentLength - 1);
    if q.contentLength != 0 then Effect(q, [Octet(Body, ch)], Running)
    else if p.state.ChunkData? then Effect(q.(state := ChunkDataAlmostDone), [Octet(Body, ch)], Running)
    else Effect(q.(state := NewMessage(q)), [Octet(Body, ch), Note(MessageComplete)], Running)
  }

  function Step(p: Parser, ch: Byte): (e: Effect)
    requires Valid(p)
    ensures EffectOk(e)
  {
    var q := Count(p);
    if q.nread > MAX_HEADER_SIZE then Effect(q.(errno := HEADER_OVERFLOW), [], Failed)
    else if Bulk(p.state) then StepBulk(q, ch)
    else StepPasses(q, ch)
  }

  /** `last` is the state in which the last byte was met: the byte at fault of a failed run. */
  datatype Trace = Trace(parser: Parser, consumed: nat, atoms: seq<Atom>, status: Status, last: State)

  function Run(p: Parser, data: seq<Byte>): (t: Trace)
    requires Valid(p)
    ensures t.status.Running? ==> Valid(t.parser) && t.consumed == |data|
    ensures t.status.Failed? ==> t.parser.errno != OK
    ensures t.status.Left? ==> Valid(t.parser)
    ensures t.consumed <= |data|
    decreases |data|
  {
    if data == [] then Trace(p, 0, [], Running, p.state)
    else
      var e := Step(p, data[0]);
      match e.status
      case Running =>
        var rest := Run(e.parser, data[1..]);
        Trace(rest.parser, 1 + rest.consumed, e.atoms + rest.atoms, rest.status, rest.last)
      case Failed => Trace(e.parser, 0, e.atoms, Failed, p.state)
      case Left => Trace(e.parser, 1, e.atoms, Left, e.parser.state)
  }

  /** Go on with a second buffer after a first one. */
  function Then(t: Trace, u: Trace): Trace {
    Trace(u.parser, t.consumed + u.consumed, t.atoms + u.atoms, u.status, u.last)
  }

  lemma {:induction false} RunConcat(p: Parser, a: seq<Byte>, b: seq<Byte>)
    requires Valid(p)
    ensures var t := Run(p, a);
            Run(p, a + b) == if t.status.Running? then Then(t, Run(t.parser, b)) else t
    decreases |a|
  {
    hide Step;
    if a == [] {
      assert a + b == b;
      var u := Run(p, b);
      assert [] + u.atoms == u.atoms;
    } else {
      var e := Step(p, a[0]);
      assert (a + b)[0] == a[0] && (a + b)[1..] == a[1..] + b;
      if e.status.Running? {
        RunConcat(e.parser, a[1..], b);
        var t := Run(e.parser, a[1..]);
        if t.status.Running? {
          var u := Run(t.parser, b);
          assert e.atoms + (t.atoms + u.atoms) == (e.atoms + t.atoms) + u.atoms;
        }
      }
    }
  }

  // ---------------------------------------------------------------- marks against octets

  /** The octets between a mark and the current byte, not yet delivered. */
  function Pending(marks: Marks, data: seq<Byte>, i: nat): seq<Atom>
    requires i <= |data| && MarksBelow(marks, i)
  {
    if Url in marks then Tag(Url, data[marks[Url]..i])
    else if Field in marks then Tag(Field, data[marks[Field]..i])
    else if Value in marks then Tag(Value, data[marks[Value]..i])
    else if Body in marks then Tag(Body, data[marks[Body]..i])
    else []
  }

  predicate Only(marks: Marks, k: Option<Kind>) {
    match k
    case None => marks == map[]
    case Some(k) => marks.Keys == {k}
  }

  /** Which mark is set in which state; `more` says that a byte is left in the buffer. */
  predicate MarksMatch(s: State, marks: Marks, more: bool) {
    if Bulk(s) then marks == map[] || (!more && marks.Keys == {Body})
    else Only(marks, Collecting(s)) || (s.ChunkDataAlmostDone? && marks == map[])
  }

  lemma OnlyPending(marks: Marks, k: Kind, data: seq<Byte>, i: nat)
    requires i <= |data| && MarksBelow(marks, i) && marks.Keys == {k}
    ensures Pending(marks, data, i) == Tag(k, data[marks[k]..i])
  {
    assert forall l <- marks.Keys :: l == k;
  }

  lemma TagExtend(k: Kind, data: seq<Byte>, m: nat, i: nat)
    requires m <= i < |data|
    ensures Tag(k, data[m..i + 1]) == Tag(k, data[m..i]) + [Octet(k, data[i])]
  {
  }

  lemma LeftoverIsPending(marks: Marks, data: seq<Byte>, s: State)
    requires MarksBelow(marks, |data|) && MarksMatch(s, marks, false)
    ensures Flatten(Leftover(marks, data)) == Pending(marks, data, |data|)
    ensures |marks| <= 1
  {
    if marks == map[] {
      assert Leftover(marks, data) == [];
    } else {
      var k :| marks.Keys == {k};
      assert forall l <- marks.Keys :: l == k;
      assert |marks.Keys| == 1;
      OnlyPending(marks, k, data, |data|);
      assert Leftover(marks, data) == [Data(k, data[marks[k]..|data|])];
      FlattenOne(Data(k, data[marks[k]..|data|]));
    }
  }

  /** One pass: what it delivers and what it leaves pending is what was pending, then its notification. */
  lemma PassSim(s: State, r: Pass, data: seq<Byte>, i: nat, marks: Marks)
    requires i < |data| && MarksBelow(marks, i) && !Bulk(s) && MarksMatch(s, marks, true) && Disciplined(s, r)
    ensures var left := MarksAfter(r, marks, i);
            && MarksMatch(r.parser.state, left, true)
            && Flatten(Callbacks(r, marks, data, i)) + Pending(left, data, i)
               == Pending(marks, data, i) + Noted(r.notice)
  {
    var left := MarksAfter(r, marks, i);
    var log := Callbacks(r, marks, data, i);
    match (r.mark, r.flush)
    case (None, None) =>
      if r.notice.Some? {
        assert log == [Notify(r.notice.value)];
        FlattenOne(Notify(r.notice.value));
      } else {
        assert log == [];
      }
    case (Some(k), None) =>
      assert log == [];
      assert left.Keys == {k} && left[k] == i;
      OnlyPending(left, k, data, i);
      assert data[i..i] == [];
    case (None, Some(k)) =>
      assert left == map[];
      if k in marks {
        OnlyPending(marks, k, data, i);
        assert log == [Data(k, data[marks[k]..i])];
        FlattenOne(log[0]);
      } else {
        assert log == [];
      }
    case (Some(k), Some(_)) =>
      assert left == map[];
      assert SetMark(marks, r.mark, i)[k] == i;
      assert log == [Data(k, data[i..i])];
      FlattenOne(log[0]);
  }

  /** Consuming the byte adds its octet to what is pending. */
  lemma ConsumeSim(s: State, data: seq<Byte>, i: nat, marks: Marks)
    requires i < |data| && MarksBelow(marks, i) && MarksMatch(s, marks, true) && Collecting(s) != Some(Body)
    ensures Pending(marks, data, i + 1) == Pending(marks, data, i) + Collected(s, data[i])
  {
    match Collecting(s)
    case None => assert marks == map[];
    case Some(k) =>
      OnlyPending(marks, k, data, i);
      OnlyPending(marks, k, data, i + 1);
      TagExtend(k, data, marks[k], i);
  }

  lemma Regroup(log: seq<Atom>, mid: seq<Atom>, left: seq<Atom>, before: seq<Atom>, noted: seq<Atom>, rest: seq<Atom>)
    requires mid + left == before + noted
    ensures (log + mid) + (left + rest) == (log + before) + (noted + rest)
    ensures (log + mid) + left + rest == (log + before) + (noted + rest)
  {
    assert (log + mid) + (left + rest) == log + (mid + left) + rest;
    assert (log + before) + (noted + rest) == log + (before + noted) + rest;
  }

  /** The last pass over a byte. */
  lemma BreakSim(s: State, r: Pass, data: seq<Byte>, i: nat, marks: Marks, log: seq<Event>)
    requires i < |data| && MarksBelow(marks, i) && !Bulk(s) && MarksMatch(s, marks, true) && Disciplined(s, r)
    ensures Flatten(log + Callbacks(r, marks, data, i)) + Pending(MarksAfter(r, marks, i), data, i + 1)
            == Flatten(log) + Pending(marks, data, i) + (Noted(r.notice) + Collected(r.parser.state, data[i]))
  {
    var left := MarksAfter(r, marks, i);
    var mid := Callbacks(r, marks, data, i);
    PassSim(s, r, data, i, marks);
    ConsumeSim(r.parser.state, data, i, left);
    FlattenConcat(log, mid);
    Regroup(Flatten(log), Flatten(mid), Pending(left, data, i), Pending(marks, data, i), Noted(r.notice),
            Collected(r.parser.state, data[i]));
  }

  /** A pass that is followed by another over the same byte, or that leaves the loop. */
  lemma ChainSim(s: State, r: Pass, data: seq<Byte>, i: nat, marks: Marks, log: seq<Event>, rest: seq<Atom>)
    requires i < |data| && MarksBelow(marks, i) && !Bulk(s) && MarksMatch(s, marks, true) && Disciplined(s, r)
    ensures Flatten(log + Callbacks(r, marks, data, i)) + Pending(MarksAfter(r, marks, i), data, i) + rest
            == Flatten(log) + Pending(marks, data, i) + (Noted(r.notice) + rest)
  {
    var left := MarksAfter(r, marks, i);
    var mid := Callbacks(r, marks, data, i);
    PassSim(s, r, data, i, marks);
    FlattenConcat(log, mid);
    Regroup(Flatten(log), Flatten(mid), Pending(left, data, i), Pending(marks, data, i), Noted(r.notice), rest);
  }

  /** A whole byte outside the bodies, re-executions included. */
  lemma {:induction false} PassesSim(p: Parser, data: seq<Byte>, i: nat, marks: Marks, log: seq<Event>)
    requires MidByte(p) && !Bulk(p.state) && i < |data| && MarksBelow(marks, i) && MarksMatch(p.state, marks, true)
    ensures var c, e := Passes(p, data, i, marks, log), StepPasses(p, data[i]);
            && c.parser == e.parser && c.status == e.status
            && c.at == (if c.status.Failed? then i else i + 1)
            && MarksBelow(c.marks, c.at)
            && (!c.status.Failed? ==> MarksMatch(c.parser.state, c.marks, true))
            && (c.status.Failed? ==> c.marks.Keys <= marks.Keys)
            && Flatten(c.log) + Pending(c.marks, data, c.at) == Flatten(log) + Pending(marks, data, i) + e.atoms
    decreases Rank(p.state)
  {
    hide Switch;
    var ch := data[i];
    var r := Switch(p, ch);
    var left := MarksAfter(r, marks, i);
    var mid := Callbacks(r, marks, data, i);
    match r.control
    case Fail =>
      assert mid == [] && left == marks;
      assert log + [] == log;
    case Break =>
      PassSim(p.state, r, data, i, marks);
      BreakSim(p.state, r, data, i, marks, log);
    case Leave =>
      PassSim(p.state, r, data, i, marks);
      ChainSim(p.state, r, data, i, marks, log, []);
      assert left == map[] && Pending(left, data, i) == Pending(left, data, i + 1) == [];
      assert Noted(r.notice) + [] == Noted(r.notice);
      assert Flatten(log + mid) + [] + [] == Flatten(log + mid) + [];
    case Reexecute =>
      PassSim(p.state, r, data, i, marks);
      PassesSim(r.parser, data, i, left, log + mid);
      ChainSim(p.state, r, data, i, marks, log, StepPasses(r.parser, ch).atoms);
  }

  // ---------------------------------------------------------------- counted bodies

  /** Taking n bytes of a counted body at once. */
  function Bulked(p: Parser, n: nat): Parser
    requires Bulk(p.state) && n <= p.contentLength
  {
    var q := p.(contentLength := p.contentLength - n);
    if n < p.contentLength then q
    else q.(state := if p.state.ChunkData? then ChunkDataAlmostDone else NewMessage(p))
  }

  function BulkEnd(p: Parser, n: nat): seq<Atom> {
    if n == p.contentLength && p.state.BodyIdentity? then [Note(MessageComplete)] else []
  }

  lemma {:induction false} BulkRun(p: Parser, bytes: seq<Byte>)
    requires Valid(p) && Bulk(p.state) && 0 < |bytes| <= p.contentLength
    ensures Run(p, bytes) == Trace(Bulked(p, |bytes|), |bytes|, Tag(Body, bytes) + BulkEnd(p, |bytes|), Running, Bulked(p, |bytes|).state)
    decreases |bytes|
  {
    hide Switch;
    var e := Step(p, bytes[0]);
    assert e == StepBulk(p, bytes[0]);
    var rest := bytes[1..];
    if rest == [] {
      assert Run(e.parser, rest) == Trace(e.parser, 0, [], Running, e.parser.state);
      assert e.atoms + [] == Tag(Body, bytes) + BulkEnd(p, 1);
    } else {
      BulkRun(e.parser, rest);
      assert Tag(Body, bytes) == [Octet(Body, bytes[0])] + Tag(Body, rest);
      var t := Tag(Body, rest) + BulkEnd(e.parser, |rest|);
      assert [Octet(Body, bytes[0])] + t == Tag(Body, bytes) + BulkEnd(p, |bytes|);
    }
  }

  lemma BulkPending(data: seq<Byte>, i: nat, end: nat)
    requires i <= end <= |data|
    ensures Flatten([]) + Pending(map[Body := i], data, end) == Tag(Body, data[i..end])
  {
    OnlyPending(map[Body := i], Body, data, end);
    assert [] + Tag(Body, data[i..end]) == Tag(Body, data[i..end]);
  }

  lemma BulkDelivered(data: seq<Byte>, i: nat, end: nat)
    requires i <= end <= |data|
    ensures Flatten([] + Deliver(map[Body := i], Body, data, end) + [Notify(MessageComplete)]) + Pending(map[], data, end)
            == Tag(Body, data[i..end]) + [Note(MessageComplete)]
  {
    var d, m := Data(Body, data[i..end]), Notify(MessageComplete);
    assert [] + [d] + [m] == [d] + [m];
    FlattenConcat([d], [m]);
    FlattenOne(d);
    FlattenOne(m);
    assert Flatten([d] + [m]) + [] == Tag(Body, data[i..end]) + [Note(MessageComplete)];
  }

  lemma BulkCursor(p: Parser, data: seq<Byte>, i: nat)
    requires Valid(p) && Bulk(p.state) && i < |data|
    ensures var c := BulkPass(p, data, i, map[], []);
            var n := c.at - i;
            && c.status.Running? && 0 < n <= p.contentLength && c.at <= |data|
            && c.parser == Bulked(p, n)
            && MarksMatch(c.parser.state, c.marks, c.at < |data|)
            && if BulkEnd(p, n) == [] then c.log == [] && c.marks == map[Body := i]
               else c.marks == map[] && c.log == [] + Deliver(map[Body := i], Body, data, c.at) + [Notify(MessageComplete)]
  {
    hide Switch, Run, Step, VerbLength, FieldMatch, ValueMatch, Rank;
    assert SetMark(map[], Some(Body), i) == map[Body := i];
    assert map[Body := i] - {Body} == map[];
    assert map[Body := i].Keys == {Body};
  }

  lemma BulkSim(p: Parser, data: seq<Byte>, i: nat)
    requires Valid(p) && Bulk(p.state) && i < |data|
    ensures var c := BulkPass(p, data, i, map[], []);
            && c.status.Running? && i < c.at <= |data|
            && MarksMatch(c.parser.state, c.marks, c.at < |data|)
            && Run(p, data[i..c.at])
               == Trace(c.parser, c.at - i, Flatten(c.log) + Pending(c.marks, data, c.at), Running, c.parser.state)
  {
    hide Run, Step, Switch, BulkPass, Pending, Flatten, Deliver, MarksMatch, Bulked;
    var c := BulkPass(p, data, i, map[], []);
    BulkCursor(p, data, i);
    BulkRun(p, data[i..c.at]);
    if BulkEnd(p, c.at - i) == [] {
      BulkPending(data, i, c.at);
      assert Tag(Body, data[i..c.at]) + [] == Tag(Body, data[i..c.at]);
    } else {
      BulkDelivered(data, i, c.at);
    }
  }

  // ---------------------------------------------------------------- the loop

  predicate AllOf(lost: seq<Atom>, k: Kind) {
    forall a <- lost :: a.Octet? && a.kind == k
  }

  /** Octets that were being collected in state s, and nothing else. */
  predicate Uncollected(lost: seq<Atom>, s: State) {
    match Collecting(s)
    case None => lost == []
    case Some(k) => AllOf(lost, k)
  }

  /** What a failing call withholds: octets, at the end of the stream, of the kind it was collecting. */
  predicate Lags(delivered: seq<Atom>, full: seq<Atom>, last: State) {
    delivered <= full && Uncollected(full[|delivered|..], last)
  }

  lemma PendingIsUncollected(marks: Marks, data: seq<Byte>, i: nat, s: State, before: Marks)
    requires i <= |data| && MarksBelow(marks, i)
    requires marks.Keys <= before.Keys && MarksMatch(s, before, true)
    ensures Uncollected(Pending(marks, data, i), s)
  {
    if Bulk(s) || before == map[] {
      assert marks == map[];
    } else {
      match Collecting(s)
      case None =>
      case Some(k) =>
        assert forall l <- marks.Keys :: l in before.Keys && l == k;
    }
  }

  predicate RanTo(p: Parser, data: seq<Byte>, i: nat, marks: Marks, c: Cursor)
    requires Valid(p) && i < |data| && MarksBelow(marks, i) && CursorOk(c, i, data) && c.status.Running?
  {
    var t := Run(p, data[i..c.at]);
    && MarksMatch(c.parser.state, c.marks, c.at < |data|)
    && t.status.Running? && t.parser == c.parser
    && Flatten(c.log) + Pending(c.marks, data, c.at) == Pending(marks, data, i) + t.atoms
  }

  predicate StoppedAt(p: Parser, data: seq<Byte>, i: nat, marks: Marks, c: Cursor)
    requires Valid(p) && i < |data| && MarksBelow(marks, i) && CursorOk(c, i, data)
  {
    var e := Step(p, data[i]);
    && MarksBelow(c.marks, c.at)
    && e.status == c.status && e.parser == c.parser
    && c.at == (if c.status.Left? then i + 1 else i)
    && (c.status.Left? ==> Pending(c.marks, data, c.at) == [])
    && (c.status.Failed? ==> c.marks.Keys <= marks.Keys)
    && Flatten(c.log) + Pending(c.marks, data, c.at) == Pending(marks, data, i) + e.atoms
  }

  lemma BytewiseSim(p: Parser, data: seq<Byte>, i: nat, marks: Marks)
    requires Valid(p) && i < |data| && MarksBelow(marks, i) && MarksMatch(p.state, marks, true)
    requires !Bulk(p.state) && Count(p).nread <= MAX_HEADER_SIZE
    ensures var c := Iterate(p, data, i, marks);
            if c.status.Running? then RanTo(p, data, i, marks, c) else StoppedAt(p, data, i, marks, c)
  {
    hide Switch, Run, StepPasses, Passes, BulkPass, StepBulk, Flatten, VerbLength, FieldMatch, ValueMatch, Rank;
    PassesSim(Count(p), data, i, marks, []);
    FlattenNone();
    assert [] + Pending(marks, data, i) == Pending(marks, data, i);
    StepIsRun(p, data, i);
  }

  lemma IterateSim(p: Parser, data: seq<Byte>, i: nat, marks: Marks)
    requires Valid(p) && i < |data| && MarksBelow(marks, i) && MarksMatch(p.state, marks, true)
    ensures var c := Iterate(p, data, i, marks);
            if c.status.Running? then RanTo(p, data, i, marks, c) else StoppedAt(p, data, i, marks, c)
  {
    hide Switch, Run, StepPasses, Passes, BulkPass, StepBulk, Flatten, VerbLength, FieldMatch, ValueMatch, Rank;
    var q := Count(p);
    if q.nread > MAX_HEADER_SIZE {
      FlattenNone();
      assert [] + Pending(marks, data, i) == Pending(marks, data, i) + [];
    } else if Bulk(p.state) {
      PassesBulk(q, data, i);
      BulkSim(p, data, i);
      var c := Iterate(p, data, i, marks);
      assert Pending(marks, data, i) == [];
      assert [] + Run(p, data[i..c.at]).atoms == Run(p, data[i..c.at]).atoms;
    } else {
      BytewiseSim(p, data, i, marks);
    }
  }

  lemma FlattenNone()
    ensures Flatten([]) == []
  {}

  lemma PassesBulk(p: Parser, data: seq<Byte>, i: nat)
    requires MidByte(p) && Bulk(p.state) && i < |data|
    ensures Passes(p, data, i, map[], []) == BulkPass(p, data, i, map[], [])
  {
    hide Switch, BulkPass;
  }

  lemma StepIsRun(p: Parser, data: seq<Byte>, i: nat)
    requires Valid(p) && i < |data|
    ensures Step(p, data[i]).status.Running? ==>
              Run(p, data[i..i + 1]) == Trace(Step(p, data[i]).parser, 1, Step(p, data[i]).atoms, Running, Step(p, data[i]).parser.state)
  {
    hide Switch;
    var e := Step(p, data[i]);
    var d := data[i..i + 1];
    assert d[0] == data[i] && d[1..] == [];
    assert e.atoms + [] == e.atoms;
  }

  predicate LoopRefines(r: Result, before: seq<Atom>, i: nat, t: Trace) {
    && r.parser == t.parser && r.consumed == i + t.consumed
    && (t.status.Left? ==> t.parser.upgrade)
    && (!t.status.Failed? ==> Flatten(r.log) == before + t.atoms)
    && (t.status.Failed? ==> Lags(Flatten(r.log), before + t.atoms, t.last))
  }

  /** A further iteration in front of a loop that is already understood. */
  lemma LoopThen(c: Cursor, rest: Result, before: seq<Atom>, mid: seq<Atom>, i: nat, t: Trace, u: Trace)
    requires LoopRefines(rest, mid, c.at, u) && i <= c.at && t.consumed == c.at - i
    requires Flatten(c.log) + mid == before + t.atoms
    ensures LoopRefines(Result(rest.parser, rest.consumed, c.log + rest.log), before, i, Then(t, u))
  {
    FlattenConcat(c.log, rest.log);
    assert Flatten(c.log) + (mid + u.atoms) == (Flatten(c.log) + mid) + u.atoms;
    assert before + (t.atoms + u.atoms) == (before + t.atoms) + u.atoms;
    if u.status.Failed? {
      LagsShift(Flatten(c.log), Flatten(rest.log), mid + u.atoms, u.last);
    }
  }

  lemma LoopStop(c: Cursor, before: seq<Atom>, left: seq<Atom>, i: nat, t: Trace)
    requires !t.status.Running? && t.status == c.status && t.parser == c.parser && c.at == i + t.consumed
    requires c.status.Left? ==> left == [] && c.parser.upgrade
    requires (c.status.Failed? ==> Uncollected(left, t.last)) && Flatten(c.log) + left == before + t.atoms
    ensures LoopRefines(Result(c.parser, c.at, c.log), before, i, t)
  {
    if c.status.Failed? {
      assert (before + t.atoms)[|Flatten(c.log)|..] == left;
    } else {
      assert Flatten(c.log) + [] == Flatten(c.log);
    }
  }

  lemma {:induction false} LoopSim(p: Parser, data: seq<Byte>, i: nat, marks: Marks)
    requires Valid(p) && i <= |data| && MarksBelow(marks, i) && MarksMatch(p.state, marks, i < |data|)
    ensures LoopRefines(Loop(p, data, i, marks), Pending(marks, data, i), i, Run(p, data[i..]))
    decreases |data| - i
  {
    hide Iterate, Step, Pending, MarksMatch, Flatten, StateOk, Lags;
    if i == |data| {
      LeftoverIsPending(marks, data, p.state);
      assert Pending(marks, data, i) + [] == Pending(marks, data, i);
    } else {
      var c := Iterate(p, data, i, marks);
      IterateSim(p, data, i, marks);
      if c.status.Running? {
        LoopSim(c.parser, data, c.at, c.marks);
        assert data[i..] == data[i..c.at] + data[c.at..];
        RunConcat(p, data[i..c.at], data[c.at..]);
        LoopThen(c, Loop(c.parser, data, c.at, c.marks), Pending(marks, data, i), Pending(c.marks, data, c.at), i,
                 Run(p, data[i..c.at]), Run(c.parser, data[c.at..]));
      } else {
        assert data[i..][0] == data[i];
        if c.status.Failed? {
          PendingIsUncollected(c.marks, data, c.at, p.state, marks);
        }
        LoopStop(c, Pending(marks, data, i), Pending(c.marks, data, c.at), i, Run(p, data[i..]));
      }
    }
  }

  lemma LagsShift(a: seq<Atom>, delivered: seq<Atom>, full: seq<Atom>, last: State)
    requires Lags(delivered, full, last)
    ensures Lags(a + delivered, a + full, last)
  {
    assert (a + full)[|a + delivered|..] == full[|delivered|..];
  }

  /** One call of the parser against the machine without marks, on every nonempty buffer. */
  lemma ExecuteRefinesRun(p: Parser, data: seq<Byte>)
    requires Valid(p) && data != []
    ensures var r, t := Execute(p, data), Run(p, data);
            && r.parser == t.parser && r.consumed == t.consumed
            && (t.status.Left? ==> t.parser.upgrade)
            && (!t.status.Failed? ==> Flatten(r.log) == t.atoms)
            && (t.status.Failed? ==> Lags(Flatten(r.log), t.atoms, t.last))
  {
    hide Switch, Passes, Step, Run;
    var marks := InitialMarks(p.state);
    assert data[0..] == data;
    LoopSim(p, data, 0, marks);
    assert Pending(marks, data, 0) == [];
    assert [] + Run(p, data).atoms == Run(p, data).atoms;
  }
}
