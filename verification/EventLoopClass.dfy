// The event loop as an object, against the steps of the model.
module EventLoopClass {
  import opened Basics
  import opened EventLoops

  class EventLoop {
    var pendingFunctors: seq<nat>
    var callingPendingFunctors: bool
    var quit: bool
    var wakeups: nat
    var ran: seq<nat>
    ghost var stage: Stage
    ghost var functors: seq<nat>
    ghost var waking: set<nat>
    ghost var selfWaking: Option<nat>
    ghost var written: set<nat>
    ghost var promises: seq<Option<nat>>
    ghost var early: set<nat>
    var queued: seq<nat>

    ghost function State(): Loop
      reads this
    {
      Loop(stage, pendingFunctors, functors, callingPendingFunctors, quit, wakeups, waking, selfWaking, written, promises,
           early, queued, ran)
    }

    constructor ()
      ensures State() == Fresh()
    {
      pendingFunctors, callingPendingFunctors, quit := [], false, false;
      wakeups, ran, queued := 0, [], [];
      stage, functors, waking, selfWaking := Outside, [], {}, None;
      written, promises, early := {}, [], {};
    }

    // Called by the loop's own thread, from a handler or a functor, or outside its loop.
    method QueueInLoop() returns (ghost steps: seq<Step>)
      requires Inv(State()) && (InCallback(State()) || stage.Outside?)
      modifies this`pendingFunctors, this`queued, this`wakeups, this`written, this`promises, this`early
      ensures Runs(old(State()), steps) && After(old(State()), steps) == State() && WithinRound(steps)
      ensures wakeups == old(wakeups) + if callingPendingFunctors then 1 else 0
    {
      hide Inv, Runs, After, Next, Enabled;
      ghost var l := State();
      QueueingIsARun(l);
      steps := QueueSteps(l);
      early := if stage.Outside? then early + {|queued|} else early;
      promises := if callingPendingFunctors then promises + [Some(|queued|)] else promises;
      written := if callingPendingFunctors then written + {|l.promises|} else written;
      pendingFunctors := pendingFunctors + [|queued|];
      queued := queued + [|queued|];
      if callingPendingFunctors {
        wakeups := wakeups + 1;
      }
    }

    // Called by another thread: the push and the wakeup are two steps.
    method QueueFromOutside() returns (ghost steps: seq<Step>)
      requires Inv(State())
      modifies this`pendingFunctors, this`queued, this`wakeups, this`written, this`promises
      ensures Runs(old(State()), steps) && After(old(State()), steps) == State()
      ensures pendingFunctors == old(pendingFunctors) + [|old(queued)|] && wakeups == old(wakeups) + 1
    {
      ghost var l, n := State(), |promises|;
      NewPromise(l);
      hide Inv, Runs, After;
      Two(l, Push, Wakeup(n));
      assert (waking + {n}) - {n} == waking;
      promises, written := promises + [Some(|queued|)], written + {n};
      pendingFunctors := pendingFunctors + [|queued|];
      queued := queued + [|queued|];
      wakeups := wakeups + 1;
      steps := [Push, Wakeup(n)];
    }

    // What a functor does: it queues `more` functors.
    method Functor(more: nat, ghost v: Loop, ghost before: seq<Step>) returns (ghost steps: seq<Step>)
      requires Inv(State()) && InCallback(State()) && stage.Draining?
      requires Runs(v, before) && After(v, before) == State() && WithinRound(before)
      modifies this`pendingFunctors, this`queued, this`wakeups, this`written, this`promises, this`early
      ensures Inv(State()) && InCallback(State())
      ensures Runs(v, steps) && After(v, steps) == State() && WithinRound(steps)
    {
      hide Inv, Runs, After;
      steps := before;
      var n := 0;
      while n < more
        invariant Inv(State()) && InCallback(State())
        invariant Runs(v, steps) && After(v, steps) == State() && WithinRound(steps)
        decreases more - n
      {
        ghost var l := State();
        ghost var two := QueueInLoop();
        InvAfter(l, two);
        Joined(v, steps, two);
        steps := steps + two;
        n := n + 1;
      }
    }

    // Runs the functors that were taken out of the queue.
    method RunTaken(taken: seq<nat>, calls: seq<nat>, ghost v: Loop) returns (ghost steps: seq<Step>)
      requires Inv(State()) && v == State() && stage == Draining(0) && functors == taken && selfWaking.None?
      modifies this`stage, this`ran, this`pendingFunctors, this`queued, this`wakeups, this`written, this`promises, this`early
      ensures Inv(State()) && Runs(v, steps) && After(v, steps) == State() && WithinRound(steps)
      ensures stage == Draining(|taken|) && selfWaking.None?
    {
      hide Inv, Runs, After, Left;
      Nothing(v);
      steps := [];
      var k := 0;
      while k < |taken|
        invariant k <= |taken| && stage == Draining(k) && functors == taken && selfWaking.None?
        invariant Inv(State()) && Runs(v, steps) && After(v, steps) == State() && WithinRound(steps)
        decreases |taken| - k
      {
        OneMore(v, steps, RunFunctor);
        NextKeeps(State(), RunFunctor);
        steps := steps + [RunFunctor];
        ran := ran + [taken[k]];
        stage := Draining(k + 1);
        steps := Functor(if k < |calls| then calls[k] else 0, v, steps);
        k := k + 1;
      }
    }

    // calls[k] is how many functors the k-th functor queues.
    method DoPendingFunctors(calls: seq<nat>) returns (ghost steps: seq<Step>)
      requires Inv(State()) && Enabled(State(), Swap)
      modifies this
      ensures Runs(old(State()), steps) && After(old(State()), steps) == State()
      ensures stage.Checking? && !callingPendingFunctors
      ensures |ran| == |old(queued)|
    {
      hide Inv, Runs, After, Left;
      ghost var l := State();
      callingPendingFunctors := true;
      var taken := pendingFunctors;
      pendingFunctors := [];
      stage, functors := Draining(0), taken;
      ghost var v := State();
      NextKeeps(l, Swap);
      steps := RunTaken(taken, calls, v);
      RoundRunsAll(l, steps);
      OneMore(v, steps, EndPending);
      FirstOf(l, Swap, steps + [EndPending]);
      steps := [Swap] + (steps + [EndPending]);
      callingPendingFunctors := false;
      stage, functors := Checking, [];
    }
  }

  // What queueInLoop amounts to in the loop's own thread.
  function QueueSteps(l: Loop): seq<Step> {
    if l.stage.Outside? then [PushEarly] else if l.calling then [PushInLoop, WakeupInLoop] else [PushInLoop]
  }

  lemma QueueingIsARun(l: Loop)
    requires Inv(l) && (InCallback(l) || l.stage.Outside?)
    ensures Runs(l, QueueSteps(l)) && WithinRound(QueueSteps(l)) && (l.stage.Outside? ==> !l.calling)
    ensures After(l, QueueSteps(l)) ==
            Queue(l).(early := if l.stage.Outside? then l.early + {|l.queued|} else l.early,
            counter := if l.calling then l.counter + 1 else l.counter,
            promises := if l.calling then l.promises + [Some(|l.queued|)] else l.promises,
            written := if l.calling then l.written + {|l.promises|} else l.written)
  {
    if l.stage.Outside? {
      One(l, PushEarly);
    } else if l.calling {
      Two(l, PushInLoop, WakeupInLoop);
    } else {
      One(l, PushInLoop);
    }
    hide Runs, After;
  }

  lemma NewPromise(l: Loop)
    requires Inv(l)
    ensures |l.promises| !in l.waking && |l.promises| !in l.written
  {
  }

  lemma Nothing(l: Loop)
    ensures Runs(l, []) && After(l, []) == l
  {
  }

  lemma One(l: Loop, s: Step)
    requires Enabled(l, s)
    ensures Runs(l, [s]) && After(l, [s]) == Next(l, s)
  {
    assert [s][1..] == [];
  }

  lemma Two(l: Loop, s: Step, t: Step)
    requires Enabled(l, s) && Enabled(Next(l, s), t)
    ensures Runs(l, [s, t]) && After(l, [s, t]) == Next(Next(l, s), t)
  {
    assert [s, t][1..] == [t];
    One(Next(l, s), t);
  }

  lemma FirstOf(l: Loop, s: Step, rest: seq<Step>)
    requires Enabled(l, s) && Runs(Next(l, s), rest)
    ensures Runs(l, [s] + rest) && After(l, [s] + rest) == After(Next(l, s), rest)
  {
    assert ([s] + rest)[1..] == rest;
  }

  lemma {:induction false} Joined(l: Loop, a: seq<Step>, b: seq<Step>)
    requires Runs(l, a) && Runs(After(l, a), b)
    ensures Runs(l, a + b) && After(l, a + b) == After(After(l, a), b)
    decreases |a|
  {
    if a == [] {
      assert a + b == b;
    } else {
      assert (a + b)[1..] == a[1..] + b;
      Joined(Next(l, a[0]), a[1..], b);
    }
  }

  lemma OneMore(l: Loop, a: seq<Step>, s: Step)
    requires Runs(l, a) && Enabled(After(l, a), s)
    ensures Runs(l, a + [s]) && After(l, a + [s]) == Next(After(l, a), s)
  {
    One(After(l, a), s);
    Joined(l, a, [s]);
  }
}
