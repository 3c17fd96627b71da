/**
 http_parser_execute as the source runs it: a record updated in place, a cursor into the
 caller's buffer, mark pointers, re-executed bytes, and callbacks made on the way.
 */
module HttpMachine {
  import opened Basics
  import opened HttpSyntax
  import P = HttpParser
  import S = HttpSplit

  class RequestParser {
    var parser: Parser
    /** The callbacks made so far, oldest first. */
    var callbacks: seq<P.Event>

    ghost predicate Valid()
      reads this
    {
      parser.errno == OK ==> P.Valid(parser)
    }

    constructor ()
      ensures Valid() && parser == Init() && callbacks == []
    {
      parser := Init();
      callbacks := [];
    }

    /** One buffer.  Returns the number of bytes taken, as the source does. */
    method Execute(data: seq<Byte>) returns (consumed: nat)
      requires Valid()
      modifies this
      ensures Valid()
      ensures var r := P.Execute(old(parser), data);
              parser == r.parser && consumed == r.consumed && callbacks == old(callbacks) + r.log
    {
      if parser.errno != OK {
        return 0;
      }
      if |data| == 0 {
        if parser.state.Dead? || parser.state.StartReq? {
          return 0;
        }
        parser := parser.(errno := INVALID_EOF_STATE);
        return 1;
      }
      consumed := ExecuteLoop(data);
    }

    method ExecuteLoop(data: seq<Byte>) returns (consumed: nat)
      requires P.Valid(parser)
      modifies this
      ensures var r := P.Loop(old(parser), data, 0, P.InitialMarks(old(parser).state));
              parser == r.parser && consumed == r.consumed && callbacks == old(callbacks) + r.log
    {
      hide P.Switch, P.StateOk, P.InBounds, P.Valid, P.Passes, P.BulkPass, P.Iterate, P.Leftover, P.InitialMarks, P.Loop,
           P.CursorOk, S.RanTo, S.StoppedAt, S.Step, S.Run, S.Pending, S.Flatten, S.MarksMatch;
      var marks := P.InitialMarks(parser.state);
      InitialMatch(parser.state, 0 < |data|);
      var at := 0;
      ghost var whole := P.Loop(parser, data, 0, marks);
      ghost var log := [];
      while at < |data|
        invariant at <= |data| && P.Valid(parser) && P.MarksBelow(marks, at)
        invariant S.MarksMatch(parser.state, marks, at < |data|)
        invariant callbacks == old(callbacks) + log
        invariant Continues(whole, log, P.Loop(parser, data, at, marks))
        decreases |data| - at
      {
        ghost var before, c := P.Loop(parser, data, at, marks), P.Iterate(parser, data, at, marks);
        Turn(parser, data, at, marks);
        var status;
        at, marks, status := ExecuteByte(data, at, marks);
        assert callbacks == old(callbacks) + (log + c.log);
        if status != P.Running {
          return at;
        }
        ContinuesAfter(whole, log, before, c.log, P.Loop(parser, data, at, marks));
        log := log + c.log;
      }
      S.LeftoverIsPending(marks, data, parser.state);
      assert |marks| <= 1;
      LoopEnd(parser, data, marks);
      assert callbacks + P.Leftover(marks, data) == old(callbacks) + (log + P.Leftover(marks, data));
      callbacks := callbacks + P.Leftover(marks, data);
      return |data|;
    }

    /** One turn of the byte loop: count the byte, then run the switch until it lets go of it. */
    method ExecuteByte(data: seq<Byte>, i: nat, marks: P.Marks) returns (next: nat, left: P.Marks, status: P.Status)
      requires P.Valid(parser) && i < |data| && P.MarksBelow(marks, i)
      modifies this
      ensures var c := P.Iterate(old(parser), data, i, marks);
              && parser == c.parser && next == c.at && left == c.marks && status == c.status
              && callbacks == old(callbacks) + c.log
    {
      hide P.StateOk, P.Passes;
      if ParsingHeader(parser.state) {
        parser := parser.(nread := parser.nread + 1);
        if parser.nread > MAX_HEADER_SIZE {
          parser := parser.(errno := HEADER_OVERFLOW);
          assert callbacks + [] == callbacks;
          return i, marks, P.Failed;
        }
      }
      CountedIsMid(old(parser));
      next, left, status := RunSwitch(data, i, marks);
    }

    /** From the label reexecute_byte on. */
    method RunSwitch(data: seq<Byte>, i: nat, marks: P.Marks) returns (next: nat, left: P.Marks, status: P.Status)
      requires P.MidByte(parser) && i < |data| && P.MarksBelow(marks, i)
      modifies this
      ensures var c := P.Passes(old(parser), data, i, marks, []);
              && parser == c.parser && next == c.at && left == c.marks && status == c.status
              && callbacks == old(callbacks) + c.log
    {
      hide P.Switch, P.StateOk, P.MarksAfter, P.Callbacks, P.Deliver, P.SetMark;
      left := marks;
      ghost var log := [];
      ghost var goal := P.Passes(parser, data, i, marks, []);
      while !Bulk(parser.state)
        invariant P.MidByte(parser) && P.MarksBelow(left, i)
        invariant goal == P.Passes(parser, data, i, left, log)
        invariant callbacks == old(callbacks) + log
        decreases P.Rank(parser.state)
      {
        var r := P.Switch(parser, data[i]);
        var made := P.Callbacks(r, left, data, i);
        callbacks := callbacks + made;
        log := log + made;
        left := P.MarksAfter(r, left, i);
        parser := r.parser;
        match r.control
        case Break => return i + 1, left, P.Running;
        case Fail => return i, left, P.Failed;
        case Leave => return i + 1, left, P.Left;
        case Reexecute =>
      }
      BulkLog(parser, data, i, left, log);
      assert forall made: seq<P.Event> {:trigger log + made} :: old(callbacks) + (log + made) == callbacks + made;
      next, left, status := ExecuteBulk(data, i, left);
    }

    /** s_body_identity and s_chunk_data. */
    method ExecuteBulk(data: seq<Byte>, i: nat, marks: P.Marks) returns (next: nat, left: P.Marks, status: P.Status)
      requires P.MidByte(parser) && Bulk(parser.state) && i < |data| && P.MarksBelow(marks, i)
      modifies this
      ensures var c := P.BulkPass(old(parser), data, i, marks, []);
              && parser == c.parser && next == c.at && left == c.marks && status == c.status
              && callbacks == old(callbacks) + c.log
    {
      hide P.StateOk, P.Deliver, P.SetMark, P.Rank, P.Collecting;
      assert callbacks + [] == callbacks;
      var toRead := if parser.contentLength <= |data| - i then parser.contentLength else |data| - i;
      left := P.SetMark(marks, Some(P.Body), i);
      parser := parser.(contentLength := parser.contentLength - toRead);
      next := i + toRead;
      status := P.Running;
      if parser.contentLength == 0 {
        if parser.state.ChunkData? {
          parser := parser.(state := ChunkDataAlmostDone);
        } else {
          var made := P.Deliver(left, P.Body, data, next);
          assert [] + made == made;
          callbacks := callbacks + (made + [P.Notify(P.MessageComplete)]);
          left := left - {P.Body};
          parser := parser.(state := NewMessage(parser));
        }
      }
    }
  }

  /** What the rest of a loop adds to the callbacks made so far. */
  ghost predicate Continues(whole: P.Result, log: seq<P.Event>, rest: P.Result) {
    whole == P.Result(rest.parser, rest.consumed, log + rest.log)
  }

  lemma ContinuesAfter(whole: P.Result, log: seq<P.Event>, before: P.Result, made: seq<P.Event>, rest: P.Result)
    requires Continues(whole, log, before) && Continues(before, made, rest)
    ensures Continues(whole, log + made, rest)
  {
    assert log + (made + rest.log) == (log + made) + rest.log;
  }

  /** One turn of the loop: what holds at the head of the next one, and what it contributes. */
  lemma Turn(p: Parser, data: seq<Byte>, at: nat, marks: P.Marks)
    requires P.Valid(p) && at < |data| && P.MarksBelow(marks, at) && S.MarksMatch(p.state, marks, true)
    ensures var c := P.Iterate(p, data, at, marks);
            if c.status.Running? then
              && at < c.at <= |data| && P.Valid(c.parser) && P.MarksBelow(c.marks, c.at)
              && S.MarksMatch(c.parser.state, c.marks, c.at < |data|)
              && Continues(P.Loop(p, data, at, marks), c.log, P.Loop(c.parser, data, c.at, c.marks))
            else P.Loop(p, data, at, marks) == P.Result(c.parser, c.at, c.log)
  {
    hide P.Switch, P.StateOk, P.Passes, P.BulkPass, P.Iterate, P.Leftover, S.Step, S.Run, S.Pending, S.Flatten, S.MarksMatch;
    S.IterateSim(p, data, at, marks);
  }

  lemma LoopEnd(p: Parser, data: seq<Byte>, marks: P.Marks)
    requires P.Valid(p) && P.MarksBelow(marks, |data|)
    ensures P.Loop(p, data, |data|, marks) == P.Result(p, |data|, P.Leftover(marks, data))
  {
    hide P.Iterate, P.Leftover, P.StateOk;
  }

  lemma InitialMatch(s: State, more: bool)
    ensures S.MarksMatch(s, P.InitialMarks(s), more)
    ensures P.MarksBelow(P.InitialMarks(s), 0)
  {}

  lemma CountedIsMid(p: Parser)
    requires P.Valid(p) && P.Count(p).nread <= MAX_HEADER_SIZE
    ensures P.MidByte(P.Count(p))
  {}

  lemma BulkLog(p: Parser, data: seq<Byte>, i: nat, marks: P.Marks, log: seq<P.Event>)
    requires P.MidByte(p) && Bulk(p.state) && i < |data| && P.MarksBelow(marks, i)
    ensures var c, d := P.BulkPass(p, data, i, marks, []), P.BulkPass(p, data, i, marks, log);
            d == c.(log := log + c.log)
  {
    hide P.StateOk;
    var c := P.BulkPass(p, data, i, marks, []);
    assert log + [] == log;
    var marked := P.SetMark(marks, Some(P.Body), i);
    var made := P.Deliver(marked, P.Body, data, c.at);
    assert [] + made == made;
    assert log + made + [P.Notify(P.MessageComplete)] == log + (made + [P.Notify(P.MessageComplete)]);
  }
}
