// The connection as an object, against the steps of the model.
module TcpConnectionClass {
  import opened Basics
  import opened TcpConnections

  class TcpConnection {
    var state: State
    var writing: bool
    var outputBuffer: seq<Byte>
    const highWaterMark: nat
    var closeQueued: bool
    var wire: seq<Byte>
    var writeShut: bool
    ghost var accepted: seq<Byte>
    ghost var refused: seq<seq<Byte>>
    var completionsQueued: nat
    var highsQueued: nat

    ghost function Value(): Connection
      reads this
    {
      Connection(state, writing, outputBuffer, highWaterMark, closeQueued, wire, writeShut, accepted, refused,
                 completionsQueued, highsQueued)
    }

    constructor (mark: nat)
      ensures Value() == Fresh(mark)
    {
      state, writing, outputBuffer, highWaterMark, closeQueued := Connecting, false, [], mark, false;
      wire, writeShut, accepted, refused, completionsQueued, highsQueued := [], false, [], [], 0, 0;
    }

    method Send(message: seq<Byte>, outcome: Outcome)
      requires Possible(outcome, message)
      modifies this
      ensures Value() == Next(old(Value()), Step.Send(message, outcome))
    {
      if state == Connected {
        SendInLoop(message, outcome);
      }
    }

    method SendInLoop(message: seq<Byte>, outcome: Outcome)
      requires Possible(outcome, message)
      modifies this
      ensures Value() == TcpConnections.SendInLoop(old(Value()), message, outcome)
    {
      assert message[0..] == message;
      if state == Disconnected {
        return;
      }
      var nwrote, remaining, faultError := 0, |message|, false;
      if !writing && |outputBuffer| == 0 {
        match outcome {
          case Took(n) =>
            nwrote, remaining := n, |message| - n;
            wire := wire + message[..n];
            if remaining == 0 {
              completionsQueued := completionsQueued + 1;
            }
          case Failed =>
          case Broken =>
            faultError := true;
        }
      }
      assert remaining <= |message|;
      if !faultError && remaining > 0 {
        var oldLen := |outputBuffer|;
        if oldLen + remaining >= highWaterMark && oldLen < highWaterMark {
          highsQueued := highsQueued + 1;
        }
        outputBuffer := outputBuffer + message[nwrote..];
        if !writing {
          writing := true;
        }
      }
      accepted := if faultError then accepted else accepted + message;
      refused := if faultError then refused + [message] else refused;
    }

    method ShutdownInLoop()
      modifies this`writeShut
      ensures Value() == TcpConnections.ShutdownInLoop(old(Value()))
    {
      if !writing {
        writeShut := true;
      }
    }

    method Shutdown()
      modifies this
      ensures Value() == Next(old(Value()), Step.Shutdown)
    {
      if state == Connected {
        state := Disconnecting;
        ShutdownInLoop();
      }
    }

    method HandleWrite(outcome: Outcome)
      requires Possible(outcome, outputBuffer)
      modifies this
      ensures Value() == Next(old(Value()), Step.HandleWrite(outcome))
    {
      if writing {
        if outcome.Took? && outcome.n > 0 {
          wire := wire + outputBuffer[..outcome.n];
          outputBuffer := outputBuffer[outcome.n..];
          if |outputBuffer| == 0 {
            writing := false;
            completionsQueued := completionsQueued + 1;
            if state == Disconnecting {
              ShutdownInLoop();
            }
          }
        }
      }
    }

    method HandleClose()
      requires state == Connected || state == Disconnecting
      modifies this
      ensures Value() == Next(old(Value()), Step.HandleClose)
    {
      state := Disconnected;
      writing := false;
    }
  }
}
