/**
 The sending side of a TCP connection, in its loop's thread.

 `accepted` is the history of the bytes handed to send while connected and not refused by the socket;
 `wire` is what the socket has taken.  A write may take any part of what it is given, or fail.
 */
module TcpConnections {

  import opened Basics

  datatype State = Connecting | Connected | Disconnecting | Disconnected

  // The outcome of write(2): bytes taken, an error that passes, or EPIPE or ECONNRESET.
  datatype Outcome = Took(n: nat) | Failed | Broken

  datatype Connection = Connection(
    state: State,
    writing: bool,
    output: seq<Byte>,
    highWaterMark: nat,
    closing: bool,
    // the socket
    wire: seq<Byte>,
    shut: bool,
    // history
    accepted: seq<Byte>,
    refused: seq<seq<Byte>>,
    completions: nat,
    highs: nat)

  datatype Step =
    | Establish
    | Send(message: seq<Byte>, outcome: Outcome)
    | Shutdown
    | ForceClose
    | ForceCloseInLoop
    | HandleWrite(outcome: Outcome)
    | HandleClose
    | Destroy

  predicate Possible(outcome: Outcome, given: seq<Byte>) {
    outcome.Took? ==> outcome.n <= |given|
  }

  predicate Enabled(c: Connection, s: Step) {
    match s
    case Establish => c.state.Connecting?
    case Send(message, outcome) => Possible(outcome, message)
    case Shutdown => true
    case ForceClose => true
    case ForceCloseInLoop => c.closing
    case HandleWrite(outcome) => Possible(outcome, c.output)
    case HandleClose => c.state.Connected? || c.state.Disconnecting?
    case Destroy => c.state.Connected? || c.state.Disconnected?
  }

  // What is left of a message goes to the output buffer.
  function Enqueue(c: Connection, rest: seq<Byte>): Connection {
    if rest == [] then c
    else
      c.(output := c.output + rest,
      writing := true,
      highs := if |c.output| + |rest| >= c.highWaterMark && |c.output| < c.highWaterMark then c.highs + 1
      else c.highs)
  }

  function SendInLoop(c: Connection, message: seq<Byte>, outcome: Outcome): Connection
    requires Possible(outcome, message)
  {
    if c.state.Disconnected? then c
    else if c.writing || c.output != [] then Enqueue(c.(accepted := c.accepted + message), message)
    else
      match outcome
      case Took(n) =>
        Enqueue(c.(accepted := c.accepted + message, wire := c.wire + message[..n],
        completions := if n == |message| then c.completions + 1 else c.completions), message[n..])
      case Failed => Enqueue(c.(accepted := c.accepted + message), message)
      case Broken => c.(refused := c.refused + [message])
  }

  function ShutdownInLoop(c: Connection): Connection {
    if c.writing then c else c.(shut := true)
  }

  function HandleWritten(c: Connection, outcome: Outcome): Connection
    requires Possible(outcome, c.output)
  {
    if !c.writing || !outcome.Took? || outcome.n == 0 then c
    else
      var d := c.(wire := c.wire + c.output[..outcome.n], output := c.output[outcome.n..]);
      if d.output != [] then d
      else
        var e := d.(writing := false, completions := d.completions + 1);
        if e.state.Disconnecting? then ShutdownInLoop(e) else e
  }

  function Close(c: Connection): Connection {
    c.(state := Disconnected, writing := false)
  }

  function Next(c: Connection, s: Step): Connection
    requires Enabled(c, s)
  {
    match s
    case Establish => c.(state := Connected)
    case Send(message, outcome) => if c.state.Connected? then SendInLoop(c, message, outcome) else c
    case Shutdown => if c.state.Connected? then ShutdownInLoop(c.(state := Disconnecting)) else c
    case ForceClose =>
      if c.state.Connected? || c.state.Disconnecting? then c.(state := Disconnecting, closing := true) else c
    case ForceCloseInLoop =>
      var d := c.(closing := false);
      if d.state.Connected? || d.state.Disconnecting? then Close(d) else d
    case HandleWrite(outcome) => HandleWritten(c, outcome)
    case HandleClose => Close(c)
    case Destroy => Close(c)
  }

  function Fresh(highWaterMark: nat): Connection {
    Connection(Connecting, false, [], highWaterMark, false, [], false, [], [], 0, 0)
  }

  ghost predicate Inv(c: Connection) {
    && c.wire + c.output == c.accepted
    && (c.state.Disconnected? ==> !c.writing)
    && (!c.state.Disconnected? ==> (c.writing <==> c.output != []))
    && (c.state.Connecting? ==> !c.closing)
    && (c.shut ==> c.output == [] && (c.state.Disconnecting? || c.state.Disconnected?))
    // the end of the sending side is not forgotten
    && (c.state.Disconnecting? ==> c.shut || c.writing || c.closing)
  }

  lemma NextKeeps(c: Connection, s: Step)
    requires Inv(c) && Enabled(c, s)
    ensures Inv(Next(c, s))
  {
    match s
    case Send(message, Took(n)) =>
      assert message == message[..n] + message[n..];
      assert (c.wire + message[..n]) + (c.output + message[n..]) == c.wire + c.output + message || c.output != [];
      assert c.wire + (c.output + message) == c.wire + c.output + message;
    case Send(message, Failed) => assert c.wire + (c.output + message) == c.wire + c.output + message;
    case Send(message, Broken) => assert c.wire + (c.output + message) == c.wire + c.output + message;
    case HandleWrite(Took(n)) =>
      assert (c.wire + c.output[..n]) + c.output[n..] == c.wire + c.output;
    case _ =>
  }

  ghost predicate Runs(c: Connection, steps: seq<Step>)
    decreases |steps|
  {
    steps == [] || (Enabled(c, steps[0]) && Runs(Next(c, steps[0]), steps[1..]))
  }

  function After(c: Connection, steps: seq<Step>): Connection
    requires Runs(c, steps)
    decreases |steps|
  {
    if steps == [] then c else After(Next(c, steps[0]), steps[1..])
  }

  lemma {:induction false} InvAfter(c: Connection, steps: seq<Step>)
    requires Inv(c) && Runs(c, steps)
    ensures Inv(After(c, steps))
    decreases |steps|
  {
    if steps != [] {
      NextKeeps(c, steps[0]);
      InvAfter(Next(c, steps[0]), steps[1..]);
    }
  }

  // All messages given to send while the connection was in its connected state.
  function Sent(c: Connection, steps: seq<Step>): seq<Byte>
    requires Runs(c, steps)
    decreases |steps|
  {
    if steps == [] then []
    else
      (if steps[0].Send? && c.state.Connected? then steps[0].message else []) + Sent(Next(c, steps[0]), steps[1..])
  }

  predicate NoneRefused(c: Connection) {
    forall i :: 0 <= i < |c.refused| ==> c.refused[i] == []
  }

  function Total(messages: seq<seq<Byte>>): nat {
    if messages == [] then 0 else Total(messages[..|messages| - 1]) + |messages[|messages| - 1]|
  }

  lemma {:induction false} NothingInTotal(messages: seq<seq<Byte>>)
    ensures Total(messages) == 0 <==> forall i :: 0 <= i < |messages| ==> messages[i] == []
  {
    if messages != [] {
      NothingInTotal(messages[..|messages| - 1]);
    }
  }

  lemma TotalOfMore(messages: seq<seq<Byte>>, message: seq<Byte>)
    ensures Total(messages + [message]) == Total(messages) + |message|
  {
    assert (messages + [message])[..|messages|] == messages;
  }

  lemma Associates(a: seq<Byte>, b: seq<Byte>, d: seq<Byte>)
    ensures (a + b) + d == a + (b + d)
  {
  }

  // A step takes over its message or has it refused.
  lemma SendOrRefuse(c: Connection, s: Step)
    requires Enabled(c, s)
    ensures var message := if s.Send? && c.state.Connected? then s.message else [];
            var v := Next(c, s);
            || (v.accepted == c.accepted + message && v.refused == c.refused)
            || (v.accepted == c.accepted && v.refused == c.refused + [message])
  {
  }

  lemma {:induction false} SentIsAcceptedOrRefused(c: Connection, steps: seq<Step>)
    requires Runs(c, steps)
    ensures |After(c, steps).accepted| + Total(After(c, steps).refused) ==
            |c.accepted| + Total(c.refused) + |Sent(c, steps)|
    ensures Total(c.refused) <= Total(After(c, steps).refused)
    ensures Total(After(c, steps).refused) == Total(c.refused) ==>
              After(c, steps).accepted == c.accepted + Sent(c, steps)
    decreases |steps|
  {
    if steps != [] {
      var v := Next(c, steps[0]);
      var message := if steps[0].Send? && c.state.Connected? then steps[0].message else [];
      SendOrRefuse(c, steps[0]);
      TotalOfMore(c.refused, message);
      hide Next, Enabled, Total;
      SentIsAcceptedOrRefused(v, steps[1..]);
      Associates(c.accepted, message, Sent(v, steps[1..]));
    }
  }

  /**
   The bytes on the wire followed by those in the output buffer are the messages sent while connected, in
   order, if and only if the socket broke under no message that was not empty.
   */
  lemma OutputFifo(highWaterMark: nat, steps: seq<Step>)
    requires Runs(Fresh(highWaterMark), steps)
    ensures var c := After(Fresh(highWaterMark), steps);
            c.wire + c.output == Sent(Fresh(highWaterMark), steps)
            <==> NoneRefused(c)
  {
    var c := After(Fresh(highWaterMark), steps);
    InvAfter(Fresh(highWaterMark), steps);
    SentIsAcceptedOrRefused(Fresh(highWaterMark), steps);
    NothingInTotal(c.refused);
  }

  // The channel waits for the socket exactly while there is something to write.
  lemma WritingIffOutput(highWaterMark: nat, steps: seq<Step>)
    requires Runs(Fresh(highWaterMark), steps)
    requires !After(Fresh(highWaterMark), steps).state.Disconnected?
    ensures var c := After(Fresh(highWaterMark), steps);
            c.writing <==> c.output != []
  {
    InvAfter(Fresh(highWaterMark), steps);
  }

  lemma {:induction false} SilentAfterShutdown(c: Connection, steps: seq<Step>)
    requires Inv(c) && c.shut && Runs(c, steps)
    ensures After(c, steps).wire == c.wire && After(c, steps).accepted == c.accepted && After(c, steps).shut
    decreases |steps|
  {
    if steps != [] {
      NextKeeps(c, steps[0]);
      SilentAfterShutdown(Next(c, steps[0]), steps[1..]);
    }
  }

  /**
   The sending side is shut down only when every accepted byte is on the wire, and nothing is written
   after that.
   */
  lemma DrainedShutdown(highWaterMark: nat, steps: seq<Step>, later: seq<Step>)
    requires Runs(Fresh(highWaterMark), steps) && After(Fresh(highWaterMark), steps).shut
    requires Runs(After(Fresh(highWaterMark), steps), later)
    ensures var c := After(Fresh(highWaterMark), steps);
            c.wire == c.accepted && c.output == [] && After(c, later).wire == c.wire
  {
    InvAfter(Fresh(highWaterMark), steps);
    SilentAfterShutdown(After(Fresh(highWaterMark), steps), later);
  }

  // A connection that was told to end, is not forced, and has drained its output, has been shut down.
  lemma ShutdownIsNotForgotten(highWaterMark: nat, steps: seq<Step>)
    requires Runs(Fresh(highWaterMark), steps)
    requires var c := After(Fresh(highWaterMark), steps);
             c.state.Disconnecting? && !c.closing && c.output == []
    ensures After(Fresh(highWaterMark), steps).shut
  {
    InvAfter(Fresh(highWaterMark), steps);
  }

  // ---------- where a run leads ----------

  // What takes a connection down, and what tells it to end.
  predicate Closes(s: Step) {
    s.HandleClose? || s.Destroy? || s.ForceCloseInLoop?
  }

  predicate Ends(s: Step) {
    s.Shutdown? || s.ForceClose?
  }

  predicate AnyStep(steps: seq<Step>, which: Step -> bool) {
    exists i :: 0 <= i < |steps| && which(steps[i])
  }

  lemma AnyStepSplits(steps: seq<Step>, which: Step -> bool)
    requires steps != []
    ensures AnyStep(steps, which) <==> which(steps[0]) || AnyStep(steps[1..], which)
  {
    if i :| 0 <= i < |steps| && which(steps[i]) {
      assert i == 0 || which(steps[1..][i - 1]);
    }
    if i :| 0 <= i < |steps[1..]| && which(steps[1..][i]) {
      assert which(steps[i + 1]);
    }
  }

  // A connection that is down stays so, and nothing moves.
  lemma {:induction false} DownStaysDown(c: Connection, steps: seq<Step>)
    requires c.state.Disconnected? && !c.writing && Runs(c, steps)
    ensures var v := After(c, steps);
            && v.state.Disconnected? && !v.writing && v.wire == c.wire && v.output == c.output
            && v.accepted == c.accepted && v.refused == c.refused && v.shut == c.shut
            && v.completions == c.completions && v.highs == c.highs
    decreases |steps|
  {
    if steps != [] {
      DownStaysDown(Next(c, steps[0]), steps[1..]);
    }
  }

  /**
   Once the peer has closed, or the connection was destroyed or closed by force, the connection is down and no
   longer writes, and however the run goes on nothing is accepted, written, shut down or reported any more.
   */
  lemma ClosedIsSilent(highWaterMark: nat, steps: seq<Step>, closing: Step, later: seq<Step>)
    requires Runs(Fresh(highWaterMark), steps) && Closes(closing) && Enabled(After(Fresh(highWaterMark), steps), closing)
    requires Runs(Next(After(Fresh(highWaterMark), steps), closing), later)
    ensures var c := After(Fresh(highWaterMark), steps);
            var v := After(Next(c, closing), later);
            && v.state.Disconnected? && !v.writing && v.wire == c.wire && v.output == c.output
            && v.accepted == c.accepted && v.refused == c.refused && v.shut == c.shut
            && v.completions == c.completions && v.highs == c.highs
  {
    InvAfter(Fresh(highWaterMark), steps);
    DownStaysDown(Next(After(Fresh(highWaterMark), steps), closing), later);
  }

  lemma {:induction false} StateFrom(c: Connection, steps: seq<Step>)
    requires Inv(c) && (c.state.Connected? || c.state.Disconnecting?) && Runs(c, steps)
    ensures After(c, steps).state ==
            if AnyStep(steps, Closes) then Disconnected
            else if c.state.Disconnecting? || AnyStep(steps, Ends) then Disconnecting
            else Connected
    decreases |steps|
  {
    if steps != [] {
      var v := Next(c, steps[0]);
      AnyStepSplits(steps, Closes);
      AnyStepSplits(steps, Ends);
      NextKeeps(c, steps[0]);
      if Closes(steps[0]) {
        DownStaysDown(v, steps[1..]);
      } else {
        StateFrom(v, steps[1..]);
      }
    }
  }

  lemma {:induction false} StillConnecting(c: Connection, steps: seq<Step>)
    requires c.state.Connecting? && !c.closing && Runs(c, steps) && !AnyStep(steps, (s: Step) => s.Establish?)
    ensures After(c, steps).state.Connecting?
    decreases |steps|
  {
    if steps != [] {
      AnyStepSplits(steps, (s: Step) => s.Establish?);
      StillConnecting(Next(c, steps[0]), steps[1..]);
    }
  }

  /**
   The state in every run: connecting until established; then down if and only if something took it down, and
   otherwise ending if and only if something told it to end.
   */
  lemma StateOfARun(highWaterMark: nat, before: seq<Step>, later: seq<Step>)
    requires Runs(Fresh(highWaterMark), before) && !AnyStep(before, (s: Step) => s.Establish?)
    requires Enabled(After(Fresh(highWaterMark), before), Establish)
    requires Runs(Next(After(Fresh(highWaterMark), before), Establish), later)
    ensures var c := After(Fresh(highWaterMark), before);
            && c.state.Connecting?
            && After(Next(c, Establish), later).state ==
               if AnyStep(later, Closes) then Disconnected else if AnyStep(later, Ends) then Disconnecting else Connected
  {
    var c := After(Fresh(highWaterMark), before);
    StillConnecting(Fresh(highWaterMark), before);
    InvAfter(Fresh(highWaterMark), before);
    NextKeeps(c, Establish);
    StateFrom(Next(c, Establish), later);
  }

  // ---------- the output buffer is written out ----------

  // Write events, each of which takes some bytes; together, all that is buffered.
  ghost predicate WritesOut(steps: seq<Step>, n: nat)
    decreases |steps|
  {
    if steps == [] then n == 0
    else
      && steps[0].HandleWrite? && steps[0].outcome.Took? && 0 < steps[0].outcome.n <= n
      && WritesOut(steps[1..], n - steps[0].outcome.n)
  }

  /**
   Write events that take all that is buffered put exactly that on the wire, in order; then the connection waits
   for the socket no longer, has reported it once, and is shut down if it was told to end.
   */
  lemma {:induction false} WrittenOut(c: Connection, steps: seq<Step>)
    requires Inv(c) && !c.state.Disconnected? && c.output != [] && WritesOut(steps, |c.output|)
    ensures Runs(c, steps)
    ensures var v := After(c, steps);
            && v.wire == c.wire + c.output && v.output == [] && !v.writing && v.state == c.state
            && v.completions == c.completions + 1 && (c.state.Disconnecting? ==> v.shut)
    decreases |steps|
  {
    var v := Next(c, steps[0]);
    NextKeeps(c, steps[0]);
    var n := steps[0].outcome.n;
    assert c.wire + c.output[..n] + c.output[n..] == c.wire + c.output;
    if v.output == [] {
      assert steps[1..] == [];
    } else {
      WrittenOut(v, steps[1..]);
    }
  }

  // The two callbacks are queued exactly at their moments.
  lemma CallbacksAtTheirMoments(c: Connection, s: Step)
    requires Inv(c) && Enabled(c, s)
    ensures var v := Next(c, s);
            && (v.highs == c.highs + 1 <==> |c.output| < c.highWaterMark <= |v.output|)
            && (v.completions > c.completions ==> v.wire == v.accepted)
            && (s.HandleWrite? ==> (v.completions == c.completions + 1 <==> c.writing && v.output == []))
            // a message is reported at once if and only if the socket takes all of it
            && (s.Send? ==> (v.completions == c.completions + 1 <==>
                               c.state.Connected? && c.output == [] && s.outcome == Took(|s.message|)))
            && (v.completions == c.completions || v.completions == c.completions + 1)
            && (!s.HandleWrite? && !s.Send? ==> v.completions == c.completions)
  {
    NextKeeps(c, s);
  }
}
