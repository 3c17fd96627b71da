/**
 Split invariance on runs that end in an error: the call that fails withholds what its marks hold, so
 whole and cuts agree exactly when nothing was being collected when the error came.
 */
module HttpSplitErrors {
  import opened Basics
  import opened HttpSyntax
  import opened HttpParser
  import opened HttpSplit
  import opened HttpSplitTheorem

  predicate NoOctets(atoms: seq<Atom>) { forall a <- atoms :: a.Note? }

  lemma {:induction false} FailingPassesAreQuiet(p: Parser, ch: Byte)
    requires MidByte(p) && !Bulk(p.state) && StepPasses(p, ch).status.Failed?
    ensures NoOctets(StepPasses(p, ch).atoms)
    decreases Rank(p.state)
  {
    hide Switch;
    var r := Switch(p, ch);
    if r.control.Reexecute? {
      FailingPassesAreQuiet(r.parser, ch);
    }
  }

  lemma FailingStepIsQuiet(p: Parser, ch: Byte)
    requires Valid(p) && Step(p, ch).status.Failed?
    ensures NoOctets(Step(p, ch).atoms) && !Bulk(p.state)
  {
    hide Switch, StepPasses;
    if Count(p).nread <= MAX_HEADER_SIZE && !Bulk(p.state) {
      FailingPassesAreQuiet(Count(p), ch);
    }
  }

  /** Where data is being collected, a byte that fails does so in its first pass. */
  lemma CollectingFailsAtOnce(p: Parser, ch: Byte)
    requires MidByte(p) && !Bulk(p.state) && Collecting(p.state).Some? && StepPasses(p, ch).status.Failed?
    ensures Switch(p, ch).control.Fail?
  {
    hide StateOk;
  }

  lemma PassesMarks(p: Parser, data: seq<Byte>, i: nat, marks: Marks, log: seq<Event>)
    requires MidByte(p) && i < |data| && MarksBelow(marks, i)
    ensures MarksBelow(Passes(p, data, i, marks, log).marks, i)
    ensures var c := Passes(p, data, i, marks, log);
            c.status.Running? && c.parser.state.ChunkDataAlmostDone? ==> Body in c.marks
    decreases Rank(p.state)
  {
    hide Switch;
    if !Bulk(p.state) {
      var r := Switch(p, data[i]);
      if r.control.Reexecute? {
        PassesMarks(r.parser, data, i, MarksAfter(r, marks, i), log + Callbacks(r, marks, data, i));
      }
    }
  }

  /** Once a byte has been taken, what is being collected has a mark below the cursor. */
  ghost predicate Armed(s: State, marks: Marks, i: nat) {
    i > 0 && !Bulk(s) && Collecting(s).Some? ==> marks.Keys == {Collecting(s).value} && forall k <- marks :: marks[k] < i
  }

  lemma IterateArms(p: Parser, data: seq<Byte>, i: nat, marks: Marks)
    requires Valid(p) && i < |data| && MarksBelow(marks, i) && MarksMatch(p.state, marks, true)
    ensures var c := Iterate(p, data, i, marks); c.status.Running? ==> Armed(c.parser.state, c.marks, c.at)
  {
    hide Switch, Passes, Run, Step, Flatten, Pending;
    IterateSim(p, data, i, marks);
    if Count(p).nread <= MAX_HEADER_SIZE {
      assert MidByte(Count(p));
      PassesMarks(Count(p), data, i, marks, []);
    }
  }

  /** The call that fails while something is being collected withholds at least one octet. */
  lemma StopWithholds(p: Parser, data: seq<Byte>, i: nat, marks: Marks)
    requires Valid(p) && i < |data| && MarksBelow(marks, i) && MarksMatch(p.state, marks, true)
    requires Step(p, data[i]).status.Failed? && Collecting(p.state).Some? && i > 0 && Armed(p.state, marks, i)
    ensures |Flatten(Iterate(p, data, i, marks).log)| < |Pending(marks, data, i)| + |Step(p, data[i]).atoms|
  {
    FailingStepIsQuiet(p, data[i]);
    IterateSim(p, data, i, marks);
    StopKeepsMarks(p, data, i, marks);
    var c := Iterate(p, data, i, marks);
    hide Iterate, Step, Flatten;
    OnlyPending(marks, Collecting(p.state).value, data, i);
    hide Pending;
    assert |Flatten(c.log) + Pending(c.marks, data, i)| == |Pending(marks, data, i) + Step(p, data[i]).atoms|;
  }

  lemma StopKeepsMarks(p: Parser, data: seq<Byte>, i: nat, marks: Marks)
    requires Valid(p) && i < |data| && MarksBelow(marks, i)
    requires Step(p, data[i]).status.Failed? && Collecting(p.state).Some? && !Bulk(p.state)
    ensures Iterate(p, data, i, marks).marks == marks
  {
    var q := Count(p);
    if q.nread <= MAX_HEADER_SIZE {
      CollectingFailsAtOnce(q, data[i]);
      hide Switch, StepPasses;
    }
  }

  lemma {:induction false} LoopWithholds(p: Parser, data: seq<Byte>, i: nat, marks: Marks)
    requires Valid(p) && i <= |data| && MarksBelow(marks, i) && MarksMatch(p.state, marks, i < |data|)
    requires Armed(p.state, marks, i)
    ensures var t := Run(p, data[i..]);
            t.status.Failed? && Collecting(t.last).Some? && i + t.consumed > 0 ==>
              |Flatten(Loop(p, data, i, marks).log)| < |Pending(marks, data, i)| + |t.atoms|
    decreases |data| - i
  {
    hide Iterate, Step, Pending, MarksMatch, Flatten, StateOk, Armed, Run;
    if i < |data| {
      var c := Iterate(p, data, i, marks);
      IterateSim(p, data, i, marks);
      RunFirst(p, data, i);
      if c.status.Running? {
        IterateArms(p, data, i, marks);
        LoopWithholds(c.parser, data, c.at, c.marks);
        assert data[i..] == data[i..c.at] + data[c.at..];
        RunConcat(p, data[i..c.at], data[c.at..]);
        var rest := Loop(c.parser, data, c.at, c.marks);
        FlattenConcat(c.log, rest.log);
        var t := Run(p, data[i..c.at]);
        assert |Flatten(c.log) + Pending(c.marks, data, c.at)| == |Pending(marks, data, i) + t.atoms|;
      } else if c.status.Failed? && Collecting(p.state).Some? && i > 0 {
        StopWithholds(p, data, i, marks);
      }
    } else {
      RunOfNothing(p, data);
    }
  }

  lemma RunFirst(p: Parser, data: seq<Byte>, i: nat)
    requires Valid(p) && i < |data|
    ensures var e, t := Step(p, data[i]), Run(p, data[i..]);
            && (e.status.Failed? ==> t == Trace(e.parser, 0, e.atoms, Failed, p.state))
            && (e.status.Left? ==> t.status.Left?)
  {
    hide Step;
    assert data[i..][0] == data[i];
  }

  lemma RunOfNothing(p: Parser, data: seq<Byte>)
    requires Valid(p)
    ensures Run(p, data[|data|..]).status.Running?
  {
    assert data[|data|..] == [];
  }

  /** A failed run up to its failing byte, which its last state meets first. */
  lemma {:induction false} UpToTheError(p: Parser, data: seq<Byte>)
    requires Valid(p) && Run(p, data).status.Failed?
    ensures var t := Run(p, data);
            && t.consumed < |data|
            && Run(p, data[..t.consumed]).status.Running? && Run(p, data[..t.consumed]).parser.state == t.last
            && Step(Run(p, data[..t.consumed]).parser, data[t.consumed]).status.Failed?
    decreases |data|
  {
    hide Step;
    var t, e := Run(p, data), Step(p, data[0]);
    if e.status.Running? {
      UpToTheError(e.parser, data[1..]);
      var front := data[..t.consumed];
      assert front[0] == data[0] && front[1..] == data[1..][..t.consumed - 1];
      assert data[t.consumed] == data[1..][t.consumed - 1];
    } else {
      assert data[..0] == [];
    }
  }

  lemma LagsNothing(delivered: seq<Atom>, full: seq<Atom>, last: State)
    requires Lags(delivered, full, last) && (NoOctets(full) || Collecting(last).None?)
    ensures delivered == full
  {
    var lost := full[|delivered|..];
    assert forall a <- lost :: a in full;
    if Collecting(last).Some? {
      OctetSeen(lost, Collecting(last).value);
    }
  }

  lemma OctetSeen(lost: seq<Atom>, k: Kind)
    requires AllOf(lost, k)
    ensures lost != [] ==> !NoOctets(lost)
  {
    if lost != [] {
      assert lost[0] in lost;
    }
  }

  lemma FailsAtOnce(p: Parser, data: seq<Byte>)
    requires Valid(p) && Run(p, data).status.Failed? && Run(p, data).consumed == 0
    ensures NoOctets(Run(p, data).atoms)
  {
    UpToTheError(p, data);
    assert data[..0] == [];
    FailingStepIsQuiet(p, data[0]);
    hide Step;
  }

  /** A call that fails while something is being collected, after its first byte, withholds octets. */
  lemma CallWithholds(p: Parser, data: seq<Byte>)
    requires Valid(p) && data != []
    requires var t := Run(p, data); t.status.Failed? && Collecting(t.last).Some? && t.consumed > 0
    ensures |Flatten(Execute(p, data).log)| < |Run(p, data).atoms|
  {
    hide Switch, Passes, Step, Run, Loop, Flatten;
    var marks := InitialMarks(p.state);
    assert data[0..] == data;
    LoopWithholds(p, data, 0, marks);
    assert Pending(marks, data, 0) == [];
  }

  /** The cut at the byte at fault delivers everything. */
  lemma CutAtTheError(p: Parser, data: seq<Byte>)
    requires Valid(p) && Run(p, data).status.Failed? && Run(p, data).consumed > 0
    ensures var c := Run(p, data).consumed;
            c < |data| && Flatten(ExecuteAll(p, [data[..c], data[c..]]).log) == Run(p, data).atoms
  {
    UpToTheError(p, data);
    var c := Run(p, data).consumed;
    var front, back := data[..c], data[c..];
    assert front + back == data;
    var t := Run(p, front);
    RunConcat(p, front, back);
    ExecuteRefinesRun(p, front);
    ExecuteRefinesRun(t.parser, back);
    FailsAtOnce(t.parser, back);
    var r, u := Execute(p, front), Execute(t.parser, back);
    hide Execute, Step, Run, Lags;
    LagsNothing(Flatten(u.log), Run(t.parser, back).atoms, Run(t.parser, back).last);
    FlattenConcat(r.log, u.log);
    TwoPieces(p, front, back);
  }

  lemma TwoPieces(p: Parser, front: seq<Byte>, back: seq<Byte>)
    requires Valid(p) && Execute(p, front).parser.errno == OK
    ensures ExecuteAll(p, [front, back]).log == Execute(p, front).log + Execute(Execute(p, front).parser, back).log
  {
    hide Execute;
    assert [front, back][1..] == [back] && [back][1..] == [];
    var last := Execute(Execute(p, front).parser, back);
    assert last.log + [] == last.log;
    assert ExecuteAll(Execute(p, front).parser, [back]).log == last.log;
  }

  /** All cuts of some data into nonempty pieces make the callbacks that the whole makes. */
  ghost predicate CutsAgree(p: Parser, data: seq<Byte>)
    requires Valid(p)
  {
    forall pieces: seq<seq<Byte>> :: Nonempty(pieces) && Join(pieces) == data ==>
      Joined(ExecuteAll(p, pieces).log) == Joined(Execute(p, data).log)
  }

  /**
   On a run that ends in an error, all cuts agree with the whole if and only if no data was being collected
   when the error came, or it came with the first byte.
   */
  lemma CutsAgreeExactly(p: Parser, data: seq<Byte>)
    requires Valid(p) && data != [] && Run(p, data).status.Failed?
    ensures CutsAgree(p, data) <==> Collecting(Run(p, data).last).None? || Run(p, data).consumed == 0
  {
    var t := Run(p, data);
    if Collecting(t.last).None? || t.consumed == 0 {
      forall pieces: seq<seq<Byte>> | Nonempty(pieces) && Join(pieces) == data
        ensures Joined(ExecuteAll(p, pieces).log) == Joined(Execute(p, data).log)
      {
        LosslessCut(p, pieces);
      }
    } else {
      CutAtTheError(p, data);
      CallWithholds(p, data);
      LossyCut(p, data, t.consumed);
    }
  }

  /** What was being collected can be read off by parsing the bytes in front of the one at fault. */
  lemma LastIsReadable(p: Parser, data: seq<Byte>)
    requires Valid(p) && data != [] && Run(p, data).status.Failed?
    ensures var r := Execute(p, data);
            && r.consumed == Run(p, data).consumed
            && (r.consumed > 0 ==> Execute(p, data[..r.consumed]).parser.state == Run(p, data).last)
  {
    UpToTheError(p, data);
    ExecuteRefinesRun(p, data);
    var c := Run(p, data).consumed;
    if c > 0 {
      ExecuteRefinesRun(p, data[..c]);
    }
  }

  lemma LosslessCut(p: Parser, pieces: seq<seq<Byte>>)
    requires Valid(p) && Nonempty(pieces) && Join(pieces) != [] && Run(p, Join(pieces)).status.Failed?
    requires Collecting(Run(p, Join(pieces)).last).None? || Run(p, Join(pieces)).consumed == 0
    ensures Joined(ExecuteAll(p, pieces).log) == Joined(Execute(p, Join(pieces)).log)
  {
    var data := Join(pieces);
    var t := Run(p, data);
    if t.consumed == 0 {
      FailsAtOnce(p, data);
    }
    ExecuteRefinesRun(p, data);
    AllSim(p, pieces);
    var whole, parts := Execute(p, data), ExecuteAll(p, pieces);
    hide Execute, ExecuteAll, Run, Lags, NoOctets;
    LagsNothing(Flatten(whole.log), t.atoms, t.last);
    LagsNothing(Flatten(parts.log), t.atoms, t.last);
    SameStream(parts.log, whole.log);
  }

  lemma JoinTwo(front: seq<Byte>, back: seq<Byte>)
    ensures Join([front, back]) == front + back
  {
    assert [front, back][1..] == [back] && [back][1..] == [];
    assert Join([back]) == back + [];
  }

  lemma LossyCut(p: Parser, data: seq<Byte>, c: nat)
    requires Valid(p) && 0 < c < |data|
    requires |Flatten(Execute(p, data).log)| < |Flatten(ExecuteAll(p, [data[..c], data[c..]]).log)|
    ensures !CutsAgree(p, data)
  {
    hide Execute, ExecuteAll, Flatten, Joined;
    var pieces := [data[..c], data[c..]];
    JoinTwo(data[..c], data[c..]);
    assert data[..c] + data[c..] == data;
    assert Nonempty(pieces);
    SameStream(ExecuteAll(p, pieces).log, Execute(p, data).log);
  }

  // ---------------------------------------------------------------- a request line

  /** GET /a and then a byte that no URL may hold. */
  function BadLine(): seq<Byte> { [71, 69, 84, 32, 47, 97, 1] }

  /** The parser after k bytes of it. */
  function BadLineAt(k: nat): Parser {
    var p := Init().(verb := GET, contentLength := ULLONG_MAX, nread := k);
    if k == 0 then Init()
    else if k <= 3 then p.(state := ReqMethod, index := k)
    else if k == 4 then p.(state := ReqSpacesBeforeUrl, index := 4)
    else p.(state := ReqPath, index := 4)
  }

  lemma BadLineStart()
    ensures Valid(BadLineAt(0))
    ensures Step(BadLineAt(0), 71).status.Running? && Step(BadLineAt(0), 71).parser == BadLineAt(1)
  {
    var q := Count(BadLineAt(0));
    assert MidByte(q);
    hide StateOk;
    assert Switch(q, 71) == PassStart(q, 71);
    hide Switch;
  }

  lemma BadLineMethod(k: nat)
    requires 1 <= k <= 3
    ensures Valid(BadLineAt(k))
    ensures Step(BadLineAt(k), BadLine()[k]).status.Running? && Step(BadLineAt(k), BadLine()[k]).parser == BadLineAt(k + 1)
  {
    var p, ch := BadLineAt(k), BadLine()[k];
    var q := Count(p);
    assert MidByte(q);
    hide StateOk;
    assert Switch(q, ch) == PassMethod(q, ch);
    hide Switch;
  }

  lemma BadLineUrl(k: nat)
    requires 4 <= k < 7
    ensures Valid(BadLineAt(k))
    ensures var e := Step(BadLineAt(k), BadLine()[k]);
            if k < 6 then e.status.Running? && e.parser == BadLineAt(k + 1) else e.status.Failed?
  {
    var p, ch := BadLineAt(k), BadLine()[k];
    var q := Count(p);
    assert ParseUrlChar(ReqSpacesBeforeUrl, 47) == ReqPath && ParseUrlChar(ReqPath, 97) == ReqPath;
    assert ParseUrlChar(ReqPath, 1) == Dead;
    assert MidByte(q);
    hide ParseUrlChar, StateOk;
    assert Switch(q, ch) == if k == 4 then PassUrlStart(q, ch) else PassUrl(q, ch);
    hide Switch;
  }

  lemma {:induction false} BadLineRun(k: nat)
    requires k <= 6
    ensures Valid(BadLineAt(k))
    ensures var t := Run(BadLineAt(k), BadLine()[k..]);
            t.status.Failed? && t.consumed == 6 - k && t.last == ReqPath
    decreases 6 - k
  {
    var rest := BadLine()[k..];
    assert rest[0] == BadLine()[k] && rest[1..] == BadLine()[k + 1..];
    if k == 0 {
      BadLineStart();
    } else if k <= 3 {
      BadLineMethod(k);
    } else {
      BadLineUrl(k);
    }
    hide Step, BadLineAt, StateOk;
    if k < 6 {
      BadLineRun(k + 1);
    } else {
      assert BadLineAt(6).state == ReqPath by {
        BadLineEnd();
      }
    }
  }

  lemma BadLineEnd()
    ensures BadLineAt(6).state == ReqPath && BadLineAt(0) == Init()
  {
  }

  /** The request line "GET /a", then a byte 1: taken whole it loses part of the URL that a cut delivers. */
  lemma ErrorLosesBytes()
    ensures Valid(Init()) && Run(Init(), BadLine()).status.Failed? && !CutsAgree(Init(), BadLine())
    ensures |Flatten(Execute(Init(), BadLine()).log)| <
            |Flatten(ExecuteAll(Init(), [BadLine()[..6], BadLine()[6..]]).log)|
  {
    BadLineEnd();
    BadLineRun(0);
    assert BadLine()[0..] == BadLine();
    hide BadLineAt, BadLine, StateOk, Run, Execute, ExecuteAll, CutsAgree, Flatten;
    CutsAgreeExactly(Init(), BadLine());
    CutAtTheError(Init(), BadLine());
    CallWithholds(Init(), BadLine());
  }
}
