/**
 The event loop and the functors that are queued in it.

 A functor is known by its place in the order of queueing.  A thread that is not the loop's pushes a
 functor, or asks the loop to quit, and then writes to the eventfd; other steps may come in between.
 The loop's own thread pushes from handlers, from functors, or while it is outside its loop; it writes to
 the eventfd only when it pushes from a functor.
 Poll may return at any time, with an event or on its timeout, but it waits only while the eventfd's
 counter is zero.

 A wakeup is known by its place in the order in which pushes and quits promised one.  It is on its way
 until its thread writes to the eventfd, and written until the loop reads the eventfd.
 */
module EventLoops {
  import opened Basics

  datatype Stage = Outside | Checking | Polling | Handling | Draining(at: nat)

  datatype Loop = Loop(
    stage: Stage,
    pending: seq<nat>,
    functors: seq<nat>,
    calling: bool,
    quit: bool,
    counter: nat,
    // wakeups on their way: by other threads, and by the loop's own between a push and its write
    waking: set<nat>,
    selfWaking: Option<nat>,
    // history
    written: set<nat>,
    promises: seq<Option<nat>>,
    early: set<nat>,
    queued: seq<nat>,
    ran: seq<nat>)

  datatype Step =
    | Push
    | Quit
    | Wakeup(promise: nat)
    // by the loop's thread, from a handler or a functor
    | PushInLoop
    | WakeupInLoop
    | QuitInLoop
    // by the loop's thread, outside the loop
    | PushEarly
    | QuitEarly
    // the loop itself
    | Start
    | Check
    | PollReturns
    | HandleRead
    | Swap
    | RunFunctor
    | EndPending

  predicate InCallback(l: Loop) {
    (l.stage.Handling? || l.stage.Draining?) && l.selfWaking.None?
  }

  predicate Enabled(l: Loop, s: Step) {
    match s
    case Push => true
    case Quit => true
    case Wakeup(n) => n in l.waking
    case PushInLoop => InCallback(l)
    case WakeupInLoop => l.selfWaking.Some?
    case QuitInLoop => InCallback(l)
    case PushEarly => l.stage.Outside?
    case QuitEarly => l.stage.Outside?
    case Start => l.stage.Outside?
    case Check => l.stage.Checking?
    case PollReturns => l.stage.Polling?
    case HandleRead => l.stage.Handling? && l.selfWaking.None?
    case Swap => l.stage.Handling? && l.selfWaking.None?
    case RunFunctor => l.stage.Draining? && l.selfWaking.None? && l.stage.at < |l.functors|
    case EndPending => l.stage.Draining? && l.selfWaking.None? && l.stage.at >= |l.functors|
  }

  function Queue(l: Loop): Loop {
    l.(pending := l.pending + [|l.queued|], queued := l.queued + [|l.queued|])
  }

  // A wakeup is promised, for the functor just queued or for a quit.
  function Promise(l: Loop, functor: Option<nat>): Loop {
    l.(promises := l.promises + [functor])
  }

  function Next(l: Loop, s: Step): Loop
    requires Enabled(l, s)
  {
    match s
    case Push => Promise(Queue(l), Some(|l.queued|)).(waking := l.waking + {|l.promises|})
    case Quit => Promise(l, None).(quit := true, waking := l.waking + {|l.promises|})
    case Wakeup(n) => l.(counter := l.counter + 1, waking := l.waking - {n}, written := l.written + {n})
    // queueInLoop writes to the eventfd only while functors are being called
    case PushInLoop =>
      if l.calling then Promise(Queue(l), Some(|l.queued|)).(selfWaking := Some(|l.promises|)) else Queue(l)
    case WakeupInLoop =>
      l.(counter := l.counter + 1, selfWaking := None, written := l.written + {l.selfWaking.value})
    case QuitInLoop => l.(quit := true)
    case PushEarly => Queue(l).(early := l.early + {|l.queued|})
    case QuitEarly => l.(quit := true)
    case Start => l.(stage := Checking, quit := false)
    case Check => l.(stage := if l.quit then Outside else Polling)
    case PollReturns => l.(stage := Handling)
    case HandleRead => l.(counter := 0, written := {})
    case Swap => l.(stage := Draining(0), calling := true, functors := l.pending, pending := [])
    case RunFunctor => l.(stage := Draining(l.stage.at + 1), ran := l.ran + [l.functors[l.stage.at]])
    case EndPending => l.(stage := Checking, calling := false, functors := [])
  }

  function Fresh(): Loop {
    Loop(Outside, [], [], false, false, 0, {}, None, {}, [], {}, [], [])
  }

  // The wakeups that were promised and that the loop has not consumed.
  function Unconsumed(l: Loop): set<nat> {
    l.waking + l.written + if l.selfWaking.Some? then {l.selfWaking.value} else {}
  }

  // The eventfd is readable, or a thread is on its way to make it so.
  predicate Awake(l: Loop) {
    l.counter > 0 || l.waking != {} || l.selfWaking.Some?
  }

  // The functors taken out of the queue that have not run.
  function Left(l: Loop): seq<nat> {
    if l.stage.Draining? && l.stage.at <= |l.functors| then l.functors[l.stage.at..] else []
  }

  // A functor's own wakeup has not been consumed.
  predicate Announced(l: Loop, functor: nat) {
    exists n :: n in Unconsumed(l) && n < |l.promises| && l.promises[n] == Some(functor)
  }

  // Wakeups on their way, of the loop's own thread, and written are different ones.
  ghost predicate Told(l: Loop) {
    && (forall n :: n in l.waking ==> n < |l.promises| && n !in l.written)
    && (forall n :: n in l.written ==> n < |l.promises|)
    && (l.selfWaking.Some? ==>
          l.selfWaking.value < |l.promises| && l.selfWaking.value !in l.waking && l.selfWaking.value !in l.written)
  }

  ghost predicate Wakeups(l: Loop) {
    l.counter == |l.written| && Told(l)
  }

  // The loop's own thread waits for nothing when it pushes.
  ghost predicate OneAtATime(l: Loop) {
    (l.calling <==> l.stage.Draining?) && (l.selfWaking.Some? ==> l.stage.Draining?)
  }

  ghost predicate Inv(l: Loop) {
    && OneAtATime(l)
    && (l.stage.Draining? ==> l.stage.at <= |l.functors|)
    && Wakeups(l)
    && (!l.stage.Handling? ==> forall f :: f in l.pending ==> f in l.early || Announced(l, f))
    && (l.stage.Polling? && l.quit ==> Unconsumed(l) != {})
    && (forall i :: 0 <= i < |l.queued| ==> l.queued[i] == i)
    && l.ran + Left(l) + l.pending == l.queued
  }

  lemma NextKeepsWakeups(l: Loop, s: Step)
    requires Wakeups(l) && Enabled(l, s) && OneAtATime(l)
    ensures Wakeups(Next(l, s))
  {
    NextKeepsTold(l, s);
    hide Told;
    if s.Wakeup? {
      WrittenOneMore(l, s.promise);
    } else if s.WakeupInLoop? {
      WrittenOneMore(l, l.selfWaking.value);
    }
  }

  lemma WrittenOneMore(l: Loop, n: nat)
    requires Told(l) && (n in l.waking || l.selfWaking == Some(n))
    ensures |l.written + {n}| == |l.written| + 1
  {
  }

  lemma NextKeepsTold(l: Loop, s: Step)
    requires Told(l) && Enabled(l, s) && OneAtATime(l)
    ensures Told(Next(l, s))
  {
  }

  lemma UnconsumedGrows(l: Loop, s: Step)
    requires Enabled(l, s) && OneAtATime(l)
    ensures l.promises <= Next(l, s).promises
    ensures !s.HandleRead? ==> Unconsumed(l) <= Unconsumed(Next(l, s))
  {
    forall n | n in Unconsumed(l) && !s.HandleRead?
      ensures n in Unconsumed(Next(l, s))
    {
      assert n in l.waking || n in l.written || l.selfWaking == Some(n);
    }
  }

  lemma NewlyAnnounced(l: Loop, s: Step)
    requires Enabled(l, s)
    ensures s.Push? || (s.PushInLoop? && l.calling) ==> Announced(Next(l, s), |l.queued|)
    ensures s.Quit? ==> Unconsumed(Next(l, s)) != {}
  {
    var v, n := Next(l, s), |l.promises|;
    if s.Push? || s.Quit? {
      assert n in v.waking;
      assert n in Unconsumed(v);
    } else if s.PushInLoop? && l.calling {
      assert v.selfWaking == Some(n);
      assert n in Unconsumed(v);
    }
  }

  lemma NextKeepsQueue(l: Loop, s: Step)
    requires Inv(l) && Enabled(l, s)
    ensures Next(l, s).ran + Left(Next(l, s)) + Next(l, s).pending == Next(l, s).queued
  {
    hide Wakeups, Announced, Unconsumed;
    var v := Next(l, s);
    if s.Push? || s.PushInLoop? || s.PushEarly? {
      assert l.ran + Left(l) + (l.pending + [|l.queued|]) == (l.ran + Left(l) + l.pending) + [|l.queued|];
    } else if s.Swap? {
      assert l.ran + l.pending + [] == l.ran + [] + l.pending;
    } else if s.RunFunctor? {
      assert Left(l) == [l.functors[l.stage.at]] + Left(v);
      assert l.ran + ([l.functors[l.stage.at]] + Left(v)) + l.pending ==
             (l.ran + [l.functors[l.stage.at]]) + Left(v) + l.pending;
    }
  }

  lemma StillAnnounced(l: Loop, v: Loop, f: nat)
    requires Announced(l, f) && Unconsumed(l) <= Unconsumed(v) && l.promises <= v.promises
    ensures Announced(v, f)
  {
    var n :| n in Unconsumed(l) && n < |l.promises| && l.promises[n] == Some(f);
    assert v.promises[n] == Some(f);
  }

  lemma NextKeepsAnnounced(l: Loop, s: Step)
    requires Inv(l) && Enabled(l, s) && !Next(l, s).stage.Handling?
    ensures forall f :: f in Next(l, s).pending ==> f in Next(l, s).early || Announced(Next(l, s), f)
  {
    var v := Next(l, s);
    UnconsumedGrows(l, s);
    NewlyAnnounced(l, s);
    hide Wakeups, Left, Unconsumed;
    forall f | f in v.pending
      ensures f in v.early || Announced(v, f)
    {
      if f in l.pending && f !in l.early {
        StillAnnounced(l, v, f);
      }
    }
  }

  lemma NextKeeps(l: Loop, s: Step)
    requires Inv(l) && Enabled(l, s)
    ensures Inv(Next(l, s))
  {
    hide Wakeups, Announced, Left, Unconsumed;
    NextKeepsWakeups(l, s);
    NextKeepsQueue(l, s);
    UnconsumedGrows(l, s);
    NewlyAnnounced(l, s);
    if !Next(l, s).stage.Handling? {
      NextKeepsAnnounced(l, s);
    }
  }

  ghost predicate Runs(l: Loop, steps: seq<Step>)
    decreases |steps|
  {
    steps == [] || (Enabled(l, steps[0]) && Runs(Next(l, steps[0]), steps[1..]))
  }

  function After(l: Loop, steps: seq<Step>): Loop
    requires Runs(l, steps)
    decreases |steps|
  {
    if steps == [] then l else After(Next(l, steps[0]), steps[1..])
  }

  lemma {:induction false} InvAfter(l: Loop, steps: seq<Step>)
    requires Inv(l) && Runs(l, steps)
    ensures Inv(After(l, steps))
    decreases |steps|
  {
    if steps != [] {
      NextKeeps(l, steps[0]);
      InvAfter(Next(l, steps[0]), steps[1..]);
    }
  }

  lemma AwakeIffUnconsumed(l: Loop)
    requires Wakeups(l)
    ensures Awake(l) <==> Unconsumed(l) != {}
  {
    if l.counter > 0 {
      var n :| n in l.written;
      assert n in Unconsumed(l);
    }
    if n :| n in l.waking {
      assert n in Unconsumed(l);
    }
    if l.selfWaking.Some? {
      assert l.selfWaking.value in Unconsumed(l);
    }
    if n :| n in Unconsumed(l) {
      assert n in l.written ==> l.counter > 0;
    }
  }

  /**
   In every run: when the loop is about to wait and a functor is queued, the eventfd is readable, or a thread
   is on its way to make it so, if and only if some wakeup that a push or a quit promised has not been
   consumed.  A queued functor is always such a one's, unless it was pushed by the loop's own thread outside
   the loop.
   */
  lemma AwakeExactly(steps: seq<Step>)
    requires Runs(Fresh(), steps) && After(Fresh(), steps).stage.Polling? && After(Fresh(), steps).pending != []
    ensures var l := After(Fresh(), steps);
            && (l.counter > 0 || l.waking != {} <==> exists n :: n in Unconsumed(l))
            && (forall f :: f in l.pending && f !in l.early ==> Announced(l, f))
  {
    InvAfter(Fresh(), steps);
    AwakeIffUnconsumed(After(Fresh(), steps));
  }

  /**
   So a queued functor is slept on exactly when every queued functor was pushed by the loop's own thread
   outside the loop, and every wakeup that was ever promised has been consumed.
   */
  lemma SleepsExactly(steps: seq<Step>)
    requires Runs(Fresh(), steps) && After(Fresh(), steps).stage.Polling? && After(Fresh(), steps).pending != []
    ensures var l := After(Fresh(), steps);
            !(l.counter > 0 || l.waking != {}) <==> (forall f :: f in l.pending ==> f in l.early) && Unconsumed(l) == {}
  {
    AwakeExactly(steps);
    var l := After(Fresh(), steps);
    hide Runs, After;
    forall f | f in l.pending
      ensures Unconsumed(l) == {} ==> f in l.early
    {
      assert f !in l.early ==> Announced(l, f);
    }
  }

  // The loop's own thread pushes nothing outside its loop.
  predicate NothingEarly(steps: seq<Step>) {
    forall i :: 0 <= i < |steps| ==> !steps[i].PushEarly?
  }

  lemma {:induction false} EarlyAfter(l: Loop, steps: seq<Step>)
    requires Runs(l, steps) && NothingEarly(steps)
    ensures After(l, steps).early == l.early
    decreases |steps|
  {
    if steps != [] {
      EarlyAfter(Next(l, steps[0]), steps[1..]);
    }
  }

  /**
   No wakeup is lost: if the loop's own thread pushes only from handlers and functors, then whenever the loop
   is about to wait and a functor is queued, or it was told to quit, the eventfd is readable or a thread is on
   its way to make it so.
   */
  lemma NoLostWakeup(steps: seq<Step>)
    requires Runs(Fresh(), steps) && After(Fresh(), steps).stage.Polling?
    requires After(Fresh(), steps).quit || (NothingEarly(steps) && After(Fresh(), steps).pending != [])
    ensures After(Fresh(), steps).counter > 0 || After(Fresh(), steps).waking != {}
  {
    InvAfter(Fresh(), steps);
    AwakeIffUnconsumed(After(Fresh(), steps));
    if !After(Fresh(), steps).quit {
      AwakeExactly(steps);
      EarlyAfter(Fresh(), steps);
      var l := After(Fresh(), steps);
      hide Runs, After;
      assert l.pending[0] in l.pending && Announced(l, l.pending[0]);
    }
  }

  // ---------- what promises and consumes a wakeup, and what ends the loop ----------

  /**
   A wakeup is promised by a push or a quit of another thread and by a push while functors are being called, and by
   nothing else; it is consumed by the read that comes after its write, and by nothing else.
   */
  lemma PromisedAndConsumed(l: Loop, s: Step)
    requires Inv(l) && Enabled(l, s)
    ensures var v := Next(l, s);
            && (v.promises != l.promises <==> Promises(l, s))
            && Unconsumed(v) ==
               if s.HandleRead? then Unconsumed(l) - l.written
               else if Promises(l, s) then Unconsumed(l) + {|l.promises|}
               else Unconsumed(l)
  {
    hide Announced, Left, Next;
    PromiseIsNew(l, s);
    if s.HandleRead? {
      Consumed(l);
    } else if Promises(l, s) {
      PromiseWaits(l, s);
    } else {
      StaysUnconsumed(l, s);
    }
  }

  predicate Promises(l: Loop, s: Step) {
    s.Push? || s.Quit? || (s.PushInLoop? && l.calling)
  }

  lemma PromiseIsNew(l: Loop, s: Step)
    requires Enabled(l, s)
    ensures Next(l, s).promises != l.promises <==> Promises(l, s)
  {
    assert Promises(l, s) ==> |Next(l, s).promises| == |l.promises| + 1;
  }

  lemma Consumed(l: Loop)
    requires Told(l) && Enabled(l, HandleRead)
    ensures Unconsumed(Next(l, HandleRead)) == Unconsumed(l) - l.written
  {
  }

  lemma PromiseWaits(l: Loop, s: Step)
    requires Enabled(l, s) && Promises(l, s) && OneAtATime(l)
    ensures Unconsumed(Next(l, s)) == Unconsumed(l) + {|l.promises|}
  {
    var n := |l.promises|;
    if s.PushInLoop? {
      assert l.selfWaking.None?;
      assert l.waking + l.written + {n} == (l.waking + l.written + {}) + {n};
    } else {
      var own := if l.selfWaking.Some? then {l.selfWaking.value} else {};
      assert (l.waking + {n}) + l.written + own == (l.waking + l.written + own) + {n};
    }
  }

  lemma StaysUnconsumed(l: Loop, s: Step)
    requires Enabled(l, s) && !Promises(l, s) && !s.HandleRead?
    ensures Unconsumed(Next(l, s)) == Unconsumed(l)
  {
    var own := if l.selfWaking.Some? then {l.selfWaking.value} else {};
    if s.Wakeup? {
      assert (l.waking - {s.promise}) + (l.written + {s.promise}) + own == l.waking + l.written + own;
    } else if s.WakeupInLoop? {
      assert l.waking + (l.written + own) + {} == l.waking + l.written + own;
    }
  }

  // Told to quit since it was last started.
  ghost predicate ToldToQuit(steps: seq<Step>) {
    exists i :: 0 <= i < |steps| && (steps[i].Quit? || steps[i].QuitInLoop? || steps[i].QuitEarly?)
                && forall j :: i < j < |steps| ==> !steps[j].Start?
  }

  lemma {:induction false} QuitFrom(l: Loop, steps: seq<Step>)
    requires Runs(l, steps)
    ensures After(l, steps).quit <==> ToldToQuit(steps) || (l.quit && forall j :: 0 <= j < |steps| ==> !steps[j].Start?)
    decreases |steps|
  {
    if steps != [] {
      var s, more := steps[0], steps[1..];
      QuitFrom(Next(l, s), more);
      assert (forall j :: 0 <= j < |steps| ==> !steps[j].Start?) <==> !s.Start? && (forall j :: 0 <= j < |more| ==> !more[j].Start?) by {
        assert forall j :: 0 < j < |steps| ==> steps[j] == more[j - 1];
        assert forall j :: 0 <= j < |more| ==> more[j] == steps[j + 1];
      }
      ToldSplits(steps);
      hide ToldToQuit;
    }
  }

  lemma ToldSplits(steps: seq<Step>)
    requires steps != []
    ensures ToldToQuit(steps) <==>
            ToldToQuit(steps[1..])
            || ((steps[0].Quit? || steps[0].QuitInLoop? || steps[0].QuitEarly?)
                && forall j :: 0 <= j < |steps[1..]| ==> !steps[1..][j].Start?)
  {
    var more := steps[1..];
    assert forall j :: 0 <= j < |more| ==> more[j] == steps[j + 1];
    if ToldToQuit(steps) {
      var i :| 0 <= i < |steps| && (steps[i].Quit? || steps[i].QuitInLoop? || steps[i].QuitEarly?)
               && forall j :: i < j < |steps| ==> !steps[j].Start?;
      if i > 0 {
        assert more[i - 1] == steps[i];
      }
    }
    if ToldToQuit(more) {
      var i :| 0 <= i < |more| && (more[i].Quit? || more[i].QuitInLoop? || more[i].QuitEarly?)
               && forall j :: i < j < |more| ==> !more[j].Start?;
      assert steps[i + 1] == more[i];
      assert forall j :: i + 1 < j < |steps| ==> steps[j] == more[j - 1];
    }
  }

  /**
   The loop ends exactly when it was told to: in every run, when it looks, it leaves if and only if it was told to
   quit since it was last started.
   */
  lemma LeavesExactly(steps: seq<Step>)
    requires Runs(Fresh(), steps) && Enabled(After(Fresh(), steps), Check)
    ensures Next(After(Fresh(), steps), Check).stage.Outside? <==> ToldToQuit(steps)
    ensures Next(After(Fresh(), steps), Check).stage.Outside? || Next(After(Fresh(), steps), Check).stage.Polling?
  {
    QuitFrom(Fresh(), steps);
  }

  // Every functor runs at most once, and in the order of queueing.
  lemma ExactlyOnceInOrder(steps: seq<Step>)
    requires Runs(Fresh(), steps)
    ensures var l := After(Fresh(), steps);
            |l.ran| <= |l.queued| && forall i :: 0 <= i < |l.ran| ==> l.ran[i] == i
  {
    InvAfter(Fresh(), steps);
    var l := After(Fresh(), steps);
    assert forall i :: 0 <= i < |l.ran| ==> (l.ran + Left(l) + l.pending)[i] == l.ran[i];
  }

  // Steps in which the loop does not complete the calling of its functors.
  predicate WithinRound(steps: seq<Step>) {
    forall i :: 0 <= i < |steps| ==> !steps[i].EndPending?
  }

  /**
   A round of the loop runs all that was queued when it swapped: once it is back at its test, everything
   queued before the swap has run.
   */
  lemma RoundRunsAll(l: Loop, steps: seq<Step>)
    requires Inv(l) && Enabled(l, Swap) && Runs(Next(l, Swap), steps) && WithinRound(steps)
    requires Enabled(After(Next(l, Swap), steps), EndPending)
    ensures |After(Next(l, Swap), steps).ran| == |l.queued|
  {
    var v := Next(l, Swap);
    NextKeeps(l, Swap);
    assert v.ran + v.functors + [] == l.queued;
    StillDraining(v, steps, v.ran + v.functors);
  }

  lemma {:induction false} StillDraining(l: Loop, steps: seq<Step>, all: seq<nat>)
    requires Inv(l) && Runs(l, steps) && WithinRound(steps) && l.stage.Draining? && l.ran + Left(l) == all
    ensures After(l, steps).stage.Draining? && After(l, steps).ran + Left(After(l, steps)) == all
    decreases |steps|
  {
    if steps != [] {
      NextKeeps(l, steps[0]);
      var v := Next(l, steps[0]);
      if steps[0].RunFunctor? {
        assert Left(l) == [l.functors[l.stage.at]] + Left(v);
      }
      StillDraining(v, steps[1..], all);
    }
  }

  // A run in which the loop's own thread queues a functor before it loops: the loop sleeps on it.
  lemma QueuedBeforeTheLoop()
    ensures Runs(Fresh(), [PushEarly, Start, Check])
    ensures var l := After(Fresh(), [PushEarly, Start, Check]);
            l.stage.Polling? && l.pending == [0] && l.counter == 0 && l.waking == {} && Unconsumed(l) == {}
  {
    ThreeSteps(Fresh(), PushEarly, Start, Check);
  }

  // A quit that comes before the loop starts is forgotten.
  lemma QuitBeforeTheLoop()
    ensures Runs(Fresh(), [QuitEarly, Start, Check])
    ensures After(Fresh(), [QuitEarly, Start, Check]).stage.Polling? && !After(Fresh(), [QuitEarly, Start, Check]).quit
  {
    ThreeSteps(Fresh(), QuitEarly, Start, Check);
  }

  lemma ThreeSteps(l: Loop, a: Step, b: Step, c: Step)
    requires Enabled(l, a) && Enabled(Next(l, a), b) && Enabled(Next(Next(l, a), b), c)
    ensures Runs(l, [a, b, c]) && After(l, [a, b, c]) == Next(Next(Next(l, a), b), c)
  {
    hide Next, Enabled;
    assert [a, b, c][1..] == [b, c] && [b, c][1..] == [c] && [c][1..] == [];
    assert Runs(Next(Next(l, a), b), [c]) && After(Next(Next(l, a), b), [c]) == Next(Next(Next(l, a), b), c);
  }
}
