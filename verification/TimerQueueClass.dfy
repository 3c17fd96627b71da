// The timer queue as the object that changes in place, against the functions of the model.
module TimerQueueClass {
  import opened Basics
  import opened TimerQueues

  // What a callback may ask of the queue; an address that is taken is not handed out again.
  datatype Action = Adding(timer: Address, when: Time, repeat: bool, period: nat) | Canceling(id: ActiveTimer)

  class TimerQueue {
    var heap: map<Address, Timer>
    var created: nat
    var posted: set<Address>
    var timers: seq<Entry>
    var activeTimers: set<ActiveTimer>
    var callingExpiredTimers: bool
    var cancelingTimers: set<ActiveTimer>
    var alarm: Option<Time>
    var clock: Time
    ghost var now: Time
    ghost var batch: seq<Address>
    ghost var at: nat

    ghost function State(): Queue
      reads this
    {
      Queue(heap, created, posted, timers, activeTimers, callingExpiredTimers, cancelingTimers, alarm, clock,
            now, batch, at)
    }

    constructor (start: Time)
      requires start > 0
      ensures State() == Empty(start)
    {
      heap, created, posted, timers, activeTimers := map[], 0, {}, [], {};
      callingExpiredTimers, cancelingTimers, alarm, clock := false, {}, None, start;
      now, batch, at := start, [], 0;
    }

    method ResetTimerfd(expiration: Time)
      modifies this`alarm
      ensures State() == Arm(old(State()), expiration)
    {
      var microseconds := expiration - clock;
      if microseconds < 100 {
        microseconds := 100;
      }
      alarm := Some(clock + microseconds);
    }

    method Insert(a: Address) returns (earliestChanged: bool)
      requires a in heap
      requires Entry(heap[a].expiration, a) !in timers && Id(State(), a) !in activeTimers
      modifies this`timers, this`activeTimers
      ensures earliestChanged == Earliest(old(State()), old(heap[a]).expiration)
      ensures State() == TimerQueues.Insert(old(State()), a)
    {
      earliestChanged := false;
      var when := heap[a].expiration;
      if timers == [] || when < timers[0].when {
        earliestChanged := true;
      }
      timers := InsertEntry(timers, Entry(when, a));
      activeTimers := activeTimers + {ActiveTimer(a, heap[a].sequence)};
    }

    method AddTimerInLoop(a: Address)
      requires Inv(State()) && a in posted
      modifies this
      ensures State() == Next(old(State()), Step.Add(a))
    {
      AddKeeps(State(), a);
      posted := posted - {a};
      var earliestChanged := Insert(a);
      if earliestChanged {
        ResetTimerfd(heap[a].expiration);
      }
    }

    method AddTimer(a: Address, when: Time, repeat: bool, period: nat)
      requires Inv(State()) && a !in heap
      modifies this
      ensures State() == Next(Next(old(State()), New(a, when, repeat, period)), Step.Add(a))
    {
      heap := heap[a := Timer(when, repeat, period, created + 1)];
      created := created + 1;
      posted := posted + {a};
      assert State() == Next(old(State()), New(a, when, repeat, period));
      AddTimerInLoop(a);
    }

    method CancelInLoop(id: ActiveTimer)
      requires Inv(State())
      modifies this
      ensures State() == Next(old(State()), Cancel(id))
    {
      SameSize(State());
      assert |timers| == |activeTimers|;
      if id in activeTimers {
        timers := EraseEntry(timers, Entry(heap[id.timer].expiration, id.timer));
        heap := heap - {id.timer};
        activeTimers := activeTimers - {id};
      } else if callingExpiredTimers {
        cancelingTimers := cancelingTimers + {id};
      }
    }

    // timers_.lower_bound(sentry)
    method LowerBound(readAt: Time) returns (end: nat)
      ensures end == DueCount(timers, readAt)
    {
      end := 0;
      while end < |timers| && timers[end].when <= readAt
        invariant end <= |timers|
        invariant end + DueCount(timers[end..], readAt) == DueCount(timers, readAt)
      {
        assert timers[end..][1..] == timers[end + 1..];
        end := end + 1;
      }
    }

    method EraseActive(expired: seq<Address>)
      requires forall a :: a in expired ==> a in heap
      modifies this`activeTimers
      ensures activeTimers == old(activeTimers) - Identities(old(State()), expired)
    {
      var k := 0;
      while k < |expired|
        invariant k <= |expired|
        invariant activeTimers == old(activeTimers) - Identities(old(State()), expired[..k])
      {
        assert expired[k] in expired;
        assert expired[..k + 1] == expired[..k] + [expired[k]];
        OneMoreIdentity(old(State()), expired[..k], expired[k]);
        activeTimers := activeTimers - {ActiveTimer(expired[k], heap[expired[k]].sequence)};
        k := k + 1;
      }
      assert expired[..k] == expired;
    }

    method GetExpired(readAt: Time) returns (expired: seq<Address>)
      requires Core(State()) && batch == [] && readAt == clock
      modifies this
      ensures State() == Expire(old(State())) && expired == batch
    {
      hide Core;
      ghost var q := State();
      CoreHasThem(q);
      var end := LowerBound(readAt);
      expired := Addresses(timers[..end]);
      batch, at, now := expired, 0, clock;
      timers := timers[end..];
      forall a | a in expired
        ensures a in heap
      {
        var i :| 0 <= i < end && q.timers[i].timer == a;
        assert q.timers[i] in q.timers;
      }
      EraseActive(expired);
    }

    // One round of the loop in reset.
    method SettleOne(a: Address, readAt: Time)
      requires Core(State()) && Low(State()) && batch != [] && a == batch[0] && readAt == now
      modifies this
      ensures Core(State()) && Low(State()) && State() == Settled(old(State()))
    {
      ghost var q := State();
      SettleKeeps(q);
      hide Core, Low;
      batch := batch[1..];
      var timer := ActiveTimer(a, heap[a].sequence);
      if heap[a].repeat && timer !in cancelingTimers {
        heap := heap[a := heap[a].(expiration := readAt + heap[a].period)];
        var _ := Insert(a);
      } else {
        heap := heap - {a};
      }
    }

    method Reset(expired: seq<Address>, readAt: Time)
      requires Core(State()) && Low(State()) && expired == batch && readAt == now && !callingExpiredTimers && at == 0
      modifies this
      ensures State() == Finish(old(State()))
    {
      ghost var q := State();
      hide Core, Low, Settle;
      var k := 0;
      while k < |expired|
        invariant k <= |expired|
        invariant Core(State()) && Low(State()) && batch == expired[k..] && now == readAt
        invariant SettleAll(State()) == SettleAll(q)
        decreases |expired| - k
      {
        SettleKeeps(State());
        SettleOne(expired[k], readAt);
        k := k + 1;
      }
      var nextExpire := 0;
      if timers != [] {
        nextExpire := timers[0].when;
      }
      if nextExpire > 0 {
        ResetTimerfd(nextExpire);
      }
    }

    // A callback changes the queue while the batch runs.
    method Callback(actions: seq<Action>, ghost before: Queue, ghost steps: seq<Step>) returns (ghost more: seq<Step>)
      requires Inv(before) && Runs(before, steps) && After(before, steps) == State()
      modifies this
      ensures Runs(before, more) && After(before, more) == State()
      ensures batch == old(batch) && at == old(at) && callingExpiredTimers == old(callingExpiredTimers)
      ensures now == old(now)
    {
      more := steps;
      hide Inv, Runs, After, Create, AddInLoop, TimerQueues.CancelInLoop, Begin, Finish;
      var k := 0;
      while k < |actions|
        invariant k <= |actions|
        invariant Runs(before, more) && After(before, more) == State()
        invariant batch == old(batch) && at == old(at) && callingExpiredTimers == old(callingExpiredTimers)
        invariant now == old(now)
        decreases |actions| - k
      {
        match actions[k] {
        case Adding(a, when, repeat, period) =>
          if a !in heap {
            AfterOneMore(before, more, New(a, when, repeat, period));
            more := more + [New(a, when, repeat, period)];
            AddedIsPosted(State(), a, when, repeat, period);
            CallbackKeeps(State(), New(a, when, repeat, period));
            CallbackKeeps(Next(State(), New(a, when, repeat, period)), Step.Add(a));
            AfterOneMore(before, more, Step.Add(a));
            more := more + [Step.Add(a)];
            AddTimer(a, when, repeat, period);
          }
        case Canceling(id) =>
          AfterOneMore(before, more, Cancel(id));
          CallbackKeeps(State(), Cancel(id));
          more := more + [Cancel(id)];
          CancelInLoop(id);
        }
        k := k + 1;
      }
    }

    // script[k] is what the callback of the k-th expired timer does.
    method HandleRead(script: seq<seq<Action>>) returns (ghost steps: seq<Step>)
      requires Inv(State()) && !callingExpiredTimers
      modifies this
      ensures Runs(old(State()), steps) && After(old(State()), steps) == State()
      ensures Inv(State()) && !callingExpiredTimers
    {
      ghost var q := State();
      hide Inv, Core, Runs, After, Begin, Finish;
      AfterNothing(q);
      EnterFrom(q);
      if alarm.Some? && alarm.value <= clock {
        alarm := None;
      }
      var readAt := clock;
      var expired := GetExpired(readAt);
      callingExpiredTimers := true;
      cancelingTimers := {};
      AfterOneMore(q, [], Enter);
      steps := [] + [Enter];
      assert State() == Next(q, Enter);
      var k := 0;
      while k < |expired|
        invariant k <= |expired|
        invariant Runs(q, steps) && After(q, steps) == State()
        invariant batch == expired && at == k && callingExpiredTimers && now == readAt
      {
        AfterOneMore(q, steps, Run);
        steps := steps + [Run];
        at := at + 1;
        steps := Callback(if k < |script| then script[k] else [], q, steps);
        k := k + 1;
      }
      AfterOneMore(q, steps, Leave);
      LeaveFrom(State());
      steps := steps + [Leave];
      callingExpiredTimers := false;
      at := 0;
      Reset(expired, readAt);
    }
  }

  lemma AfterNothing(q: Queue)
    requires Inv(q)
    ensures Runs(q, []) && After(q, []) == q
  {
  }

  lemma EnterFrom(q: Queue)
    requires Inv(q) && !q.calling
    ensures var r := q.(alarm := if q.alarm.Some? && q.alarm.value <= q.clock then None else q.alarm);
            Core(r) && r.batch == [] && Next(q, Enter) == Expire(r).(calling := true, canceling := {})
  {
    Rearmed(q, q.(alarm := if q.alarm.Some? && q.alarm.value <= q.clock then None else q.alarm));
  }

  lemma LeaveFrom(q: Queue)
    requires Inv(q) && q.calling
    ensures var r := q.(calling := false, at := 0);
            Core(r) && Low(r) && Finish(q) == Finish(r) && !Finish(q).calling
  {
    Rearmed(q, q.(calling := false, at := 0));
    FinishKeeps(q);
  }

  lemma AddedIsPosted(q: Queue, a: Address, when: Time, repeat: bool, period: nat)
    requires Inv(q) && a !in q.heap
    ensures Enabled(Next(q, New(a, when, repeat, period)), Step.Add(a))
  {
  }

  lemma CallbackKeeps(q: Queue, s: Step)
    requires Inv(q) && Enabled(q, s) && (s.New? || s.Add? || s.Cancel?)
    ensures Next(q, s).batch == q.batch && Next(q, s).at == q.at && Next(q, s).calling == q.calling
    ensures Next(q, s).clock == q.clock && Next(q, s).now == q.now
  {
    hide Core, Armed;
  }

  lemma OneMoreIdentity(q: Queue, batch: seq<Address>, a: Address)
    requires a in q.heap && forall b :: b in batch ==> b in q.heap
    ensures Identities(q, batch + [a]) == Identities(q, batch) + {Id(q, a)}
  {
  }

  lemma CoreHasThem(q: Queue)
    requires Core(q)
    ensures forall e :: e in q.timers ==> e.timer in q.heap
  {
  }

  ghost function Settled(q: Queue): Queue
    requires Core(q) && Low(q) && q.batch != []
  {
    SettleKeeps(q);
    Settle(q)
  }
}
