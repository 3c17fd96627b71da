// The asynchronous log as an object, against the steps of the model.
module AsyncLogClass {
  import opened Basics
  import opened AsyncLogs

  // The log as the object that appenders and the back end change.
  class AsyncLogging {
    var currentBuffer: string
    var nextBuffer: Option<string>
    var buffers: seq<string>
    var newBuffer1: Option<string>
    var newBuffer2: Option<string>
    var buffersToWrite: seq<string>
    var output: string
    ghost var stage: Stage
    ghost var pieces: seq<Piece>

    ghost function State(): Log
      reads this
    {
      Log(currentBuffer, nextBuffer, buffers, newBuffer1, newBuffer2, buffersToWrite, stage, output, pieces)
    }

    constructor ()
      ensures State() == Fresh()
    {
      currentBuffer, nextBuffer, buffers := "", Some(""), [];
      newBuffer1, newBuffer2, buffersToWrite, output := Some(""), Some(""), [], "";
      stage, pieces := Waiting, [];
    }

    method Append(line: string)
      requires Inv(State())
      modifies this`currentBuffer, this`nextBuffer, this`buffers
      ensures State() == Next(old(State()), AppendLine(line))
    {
      if LARGE - |currentBuffer| > |line| {
        currentBuffer := currentBuffer + line;
      } else {
        buffers := buffers + [currentBuffer];
        if nextBuffer.Some? {
          currentBuffer := nextBuffer.value;
          nextBuffer := None;
        } else {
          currentBuffer := "";
        }
        currentBuffer := Put(currentBuffer, line);
      }
    }

    method AppendAll(lines: seq<string>, ghost g: Log, ghost before: seq<Step>) returns (ghost steps: seq<Step>)
      requires Inv(State()) && Inv(g) && Runs(g, before) && After(g, before) == State()
      modifies this`currentBuffer, this`nextBuffer, this`buffers
      ensures Inv(State()) && Runs(g, steps) && After(g, steps) == State()
    {
      steps := before;
      hide Inv, Runs, After, Enabled, AsyncLogs.Append;
      var k := 0;
      while k < |lines|
        invariant k <= |lines|
        invariant Inv(State()) && Runs(g, steps) && After(g, steps) == State()
      {
        AppendEnabled(State(), lines[k]);
        AfterOneMore(g, steps, AppendLine(lines[k]));
        NextKeeps(State(), AppendLine(lines[k]));
        steps := steps + [AppendLine(lines[k])];
        Append(lines[k]);
        k := k + 1;
      }
    }

    method Collect()
      requires Inv(State()) && stage.Waiting?
      modifies this
      ensures State() == Next(old(State()), CollectThem) && stage.Collected?
    {
      buffers := buffers + [currentBuffer];
      currentBuffer := newBuffer1.value;
      newBuffer1 := None;
      buffersToWrite, buffers := buffers, buffersToWrite;
      if nextBuffer.None? {
        nextBuffer, newBuffer2 := newBuffer2, None;
      }
      stage := Collected;
    }

    method DropIfBehind(notice: string)
      requires Inv(State()) && stage.Collected?
      modifies this
      ensures State() == Next(old(State()), TrimThem(notice)) && stage.Writing? && stage.at == 0
    {
      assert buffersToWrite != [];
      if |buffersToWrite| > 25 {
        output := output + notice;
        pieces := pieces + [Notice(notice)];
        stage := Writing(0, Some(Flat(buffersToWrite[2..])));
        buffersToWrite := buffersToWrite[..2];
      } else {
        stage := Writing(0, None);
      }
    }

    method TakeBack()
      requires Inv(State()) && stage.Writing? && stage.at == |buffersToWrite|
      modifies this
      ensures State() == Next(old(State()), ReclaimTwo) && stage.Waiting?
    {
      if |buffersToWrite| > 2 {
        buffersToWrite := buffersToWrite[..2];
      }
      if newBuffer1.None? {
        assert buffersToWrite != [];
        buffersToWrite := buffersToWrite[..|buffersToWrite| - 1];
        newBuffer1 := Some("");
      }
      if newBuffer2.None? {
        assert buffersToWrite != [];
        buffersToWrite := buffersToWrite[..|buffersToWrite| - 1];
        newBuffer2 := Some("");
      }
      buffersToWrite := [];
      pieces := if stage.lost.Some? then pieces + [Dropped(stage.lost.value)] else pieces;
      stage := Waiting;
    }

    method WriteBuffer(k: nat)
      requires Inv(State()) && stage.Writing? && stage.at == k < |buffersToWrite|
      modifies this`output, this`pieces, this`stage
      ensures State() == Next(old(State()), WriteOne) && stage.Writing? && stage.at == k + 1
    {
      output := output + buffersToWrite[k];
      pieces := pieces + [Written(buffersToWrite[k])];
      stage := stage.(at := k + 1);
    }

    // during[k + 1] is appended by others after the k-th buffer is written.
    method WriteAll(during: seq<seq<string>>, ghost g: Log, ghost before: seq<Step>) returns (ghost steps: seq<Step>)
      requires Inv(State()) && stage.Writing? && stage.at == 0
      requires Inv(g) && Runs(g, before) && After(g, before) == State()
      modifies this
      ensures Inv(State()) && Runs(g, steps) && After(g, steps) == State()
      ensures stage.Writing? && stage.at == |buffersToWrite|
    {
      hide Inv, Runs, After, Next;
      steps := before;
      var k := 0;
      WritesWithin(State());
      while k < |buffersToWrite|
        invariant k <= |buffersToWrite| && stage.Writing? && stage.at == k
        invariant Inv(State()) && Runs(g, steps) && After(g, steps) == State()
        decreases |buffersToWrite| - k
      {
        AfterOneMore(g, steps, WriteOne);
        NextKeeps(State(), WriteOne);
        WriteBuffer(k);
        steps := steps + [WriteOne];
        steps := AppendAll(if k + 1 < |during| then during[k + 1] else [], g, steps);
        k := k + 1;
      }
    }

    // One round of the back end; during[0] is appended by others before it looks at what it has collected.
    method Round(notice: string, during: seq<seq<string>>) returns (ghost steps: seq<Step>)
      requires Inv(State()) && stage.Waiting?
      modifies this
      ensures Inv(State()) && stage.Waiting?
      ensures Runs(old(State()), steps) && After(old(State()), steps) == State()
    {
      ghost var g := State();
      Start(g);
      hide Inv, Runs, After, Next;
      AfterOneMore(g, [], CollectThem);
      NextKeeps(g, CollectThem);
      Collect();
      steps := [] + [CollectThem];
      steps := AppendAll(if 0 < |during| then during[0] else [], g, steps);
      AfterOneMore(g, steps, TrimThem(notice));
      NextKeeps(State(), TrimThem(notice));
      DropIfBehind(notice);
      steps := steps + [TrimThem(notice)];
      steps := WriteAll(during, g, steps);
      AfterOneMore(g, steps, ReclaimTwo);
      NextKeeps(State(), ReclaimTwo);
      TakeBack();
      steps := steps + [ReclaimTwo];
    }
  }

  lemma WritesWithin(g: Log)
    requires Inv(g) && g.stage.Writing?
    ensures g.stage.at <= |g.buffersToWrite|
  {
  }

  lemma Start(g: Log)
    requires Inv(g)
    ensures Runs(g, []) && After(g, []) == g
  {
  }

  lemma AppendEnabled(g: Log, line: string)
    ensures Enabled(g, AppendLine(line))
  {
  }
}
