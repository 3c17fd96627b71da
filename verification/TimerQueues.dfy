/**
 The timer queue of an event loop: timers indexed twice, by expiration and by identity, and freed by hand.

 `heap` holds the timers that are allocated; reading or freeing one requires that it is there, so that
 the well-formedness of these definitions under `Inv` says that nothing is used after it is freed or
 freed twice.  A callback of an expired timer may add and cancel timers: between `Begin` and `Finish`,
 which are the two ends of handleRead, any steps may come.
 */
module TimerQueues {
  import opened Basics

  // microseconds
  type Time = int

  type Address = nat

  // `repeat` is kept apart from the period, which is the interval cut to microseconds.
  datatype Timer = Timer(expiration: Time, repeat: bool, period: nat, sequence: nat)

  datatype Entry = Entry(when: Time, timer: Address)

  datatype ActiveTimer = ActiveTimer(timer: Address, sequence: nat)

  datatype Queue = Queue(
    heap: map<Address, Timer>,
    created: nat,
    posted: set<Address>,
    timers: seq<Entry>,
    active: set<ActiveTimer>,
    calling: bool,
    canceling: set<ActiveTimer>,
    alarm: Option<Time>,
    clock: Time,
    now: Time,
    batch: seq<Address>,
    at: nat)

  const CLAMP: Time := 100

  // ---------- the ordered index ----------

  predicate Before(d: Entry, e: Entry) {
    d.when < e.when || (d.when == e.when && d.timer < e.timer)
  }

  predicate Sorted(ts: seq<Entry>) {
    forall i, j :: 0 <= i < j < |ts| ==> Before(ts[i], ts[j])
  }

  function InsertEntry(ts: seq<Entry>, e: Entry): seq<Entry> {
    if ts == [] then [e]
    else if Before(e, ts[0]) then [e] + ts
    else [ts[0]] + InsertEntry(ts[1..], e)
  }

  function EraseEntry(ts: seq<Entry>, e: Entry): seq<Entry> {
    if ts == [] then [] else if ts[0] == e then ts[1..] else [ts[0]] + EraseEntry(ts[1..], e)
  }

  lemma {:induction false} InsertKeepsSorted(ts: seq<Entry>, e: Entry)
    requires Sorted(ts) && e !in ts
    ensures Sorted(InsertEntry(ts, e)) && |InsertEntry(ts, e)| == |ts| + 1
    ensures forall d :: d in InsertEntry(ts, e) <==> d in ts || d == e
    ensures InsertEntry(ts, e)[0] == if ts == [] || Before(e, ts[0]) then e else ts[0]
  {
    if ts != [] && !Before(e, ts[0]) {
      InsertKeepsSorted(ts[1..], e);
      assert forall d :: d in ts <==> d == ts[0] || d in ts[1..];
    }
  }

  lemma {:induction false} EraseKeepsSorted(ts: seq<Entry>, e: Entry)
    requires Sorted(ts) && e in ts
    ensures Sorted(EraseEntry(ts, e)) && |EraseEntry(ts, e)| == |ts| - 1
    ensures forall d :: d in EraseEntry(ts, e) <==> d in ts && d != e
    ensures EraseEntry(ts, e) != [] ==> ts[0] == EraseEntry(ts, e)[0] || Before(ts[0], EraseEntry(ts, e)[0])
  {
    assert forall d :: d in ts <==> d == ts[0] || d in ts[1..];
    if ts[0] != e {
      EraseKeepsSorted(ts[1..], e);
    }
  }

  // The number of entries due by `now`; the sentry of the search sorts after every timer of that time.
  function DueCount(ts: seq<Entry>, now: Time): (k: nat)
    ensures k <= |ts|
    ensures forall i :: 0 <= i < k ==> ts[i].when <= now
    ensures k < |ts| ==> ts[k].when > now
  {
    if ts == [] || ts[0].when > now then 0 else 1 + DueCount(ts[1..], now)
  }

  // ---------- the operations ----------

  function Id(q: Queue, a: Address): ActiveTimer
    requires a in q.heap
  {
    ActiveTimer(a, q.heap[a].sequence)
  }

  function Arm(q: Queue, when: Time): Queue {
    q.(alarm := Some(q.clock + if when - q.clock < CLAMP then CLAMP else when - q.clock))
  }

  predicate Earliest(q: Queue, when: Time) {
    q.timers == [] || when < q.timers[0].when
  }

  function Insert(q: Queue, a: Address): Queue
    requires a in q.heap
    requires Entry(q.heap[a].expiration, a) !in q.timers && Id(q, a) !in q.active
  {
    q.(timers := InsertEntry(q.timers, Entry(q.heap[a].expiration, a)), active := q.active + {Id(q, a)})
  }

  // addTimer, up to posting addTimerInLoop; `a` is the address the allocator chose.
  function Create(q: Queue, a: Address, when: Time, repeat: bool, period: nat): Queue
    requires a !in q.heap
  {
    q.(heap := q.heap[a := Timer(when, repeat, period, q.created + 1)],
    created := q.created + 1,
    posted := q.posted + {a})
  }

  function AddInLoop(q: Queue, a: Address): Queue
    requires a in q.heap
    requires Entry(q.heap[a].expiration, a) !in q.timers && Id(q, a) !in q.active
  {
    var added := Insert(q, a).(posted := q.posted - {a});
    if Earliest(q, q.heap[a].expiration) then Arm(added, q.heap[a].expiration) else added
  }

  function CancelInLoop(q: Queue, id: ActiveTimer): Queue
    requires id in q.active ==> id.timer in q.heap && Entry(q.heap[id.timer].expiration, id.timer) in q.timers
  {
    if id in q.active then
      q.(timers := EraseEntry(q.timers, Entry(q.heap[id.timer].expiration, id.timer)),
      heap := q.heap - {id.timer},
      active := q.active - {id})
    else if q.calling then q.(canceling := q.canceling + {id})
    else q
  }

  function Addresses(ts: seq<Entry>): (r: seq<Address>)
    ensures |r| == |ts| && forall i :: 0 <= i < |ts| ==> r[i] == ts[i].timer
  {
    seq(|ts|, i requires 0 <= i < |ts| => ts[i].timer)
  }

  function Identities(q: Queue, batch: seq<Address>): set<ActiveTimer>
    requires forall a :: a in batch ==> a in q.heap
  {
    set a | a in batch :: Id(q, a)
  }

  // getExpired
  function Expire(q: Queue): Queue
    requires forall e :: e in q.timers ==> e.timer in q.heap
  {
    var k := DueCount(q.timers, q.clock);
    var batch := Addresses(q.timers[..k]);
    assert forall a :: a in batch ==> a in q.heap;
    q.(timers := q.timers[k..], batch := batch, at := 0, now := q.clock, active := q.active - Identities(q, batch))
  }

  // handleRead up to its first callback.  Reading the descriptor takes the alarm if it has gone off.
  function Begin(q: Queue): Queue
    requires forall e :: e in q.timers ==> e.timer in q.heap
  {
    var r := q.(alarm := if q.alarm.Some? && q.alarm.value <= q.clock then None else q.alarm);
    Expire(r).(calling := true, canceling := {})
  }

  // One timer of the batch in reset: it is entered again or freed.
  function Settle(q: Queue): Queue
    requires q.batch != [] && q.batch[0] in q.heap
    requires Id(q, q.batch[0]) !in q.active
    requires forall t: Time :: Entry(t, q.batch[0]) !in q.timers
  {
    var a := q.batch[0];
    var t := q.heap[a];
    var rest := q.(batch := q.batch[1..]);
    if t.repeat && Id(q, a) !in q.canceling then
      Insert(rest.(heap := q.heap[a := t.(expiration := q.now + t.period)]), a)
    else rest.(heap := q.heap - {a})
  }

  // ---------- what every step keeps ----------

  /**
   Every timer has one owner: the functor that will add it, the batch, or the two indexes.
   A timer waits when the indexes own it.
   */
  predicate Waiting(q: Queue, a: Address) {
    a in q.heap && a !in q.posted && a !in q.batch
  }

  // Both indexes are images of the timers that wait.
  ghost predicate Indexed(q: Queue) {
    && Sorted(q.timers)
    && (forall e :: e in q.timers <==> Waiting(q, e.timer) && e.when == q.heap[e.timer].expiration)
    && (forall id :: id in q.active <==> Waiting(q, id.timer) && id.sequence == q.heap[id.timer].sequence)
  }

  ghost predicate Owned(q: Queue) {
    && (forall a :: a in q.posted ==> a in q.heap && a !in q.batch)
    && (forall a :: a in q.batch ==> a in q.heap && q.heap[a].expiration <= q.now)
    && (forall i, j :: 0 <= i < j < |q.batch| ==> q.batch[i] != q.batch[j])
  }

  ghost predicate Numbered(q: Queue) {
    && (forall a :: a in q.heap ==> q.heap[a].sequence <= q.created)
    && (forall a, b :: a in q.heap && b in q.heap && q.heap[a].sequence == q.heap[b].sequence ==> a == b)
  }

  // The alarm is set no later than the later of a given time and the clamp from now.
  predicate ArmedBy(q: Queue, when: Time) {
    q.alarm.Some? && (q.alarm.value <= when || q.alarm.value <= q.clock + CLAMP)
  }

  ghost predicate Core(q: Queue) {
    Indexed(q) && Owned(q) && Numbered(q) && 0 < q.now <= q.clock
  }

  /**
   At rest a queue that is not empty is armed for its first entry.  While callbacks run this holds of
   an entry that is not positive, for which reset does not arm.
   */
  ghost predicate Armed(q: Queue) {
    q.timers != [] && (!q.calling || q.timers[0].when <= 0) ==> ArmedBy(q, q.timers[0].when)
  }

  ghost predicate Inv(q: Queue) {
    && Core(q) && Armed(q)
    && q.at <= |q.batch|
    && (!q.calling ==> q.batch == [])
  }

  // A timer that does not wait is in neither index.
  lemma NotIndexed(q: Queue, a: Address)
    requires Indexed(q) && a in q.heap && !Waiting(q, a)
    ensures Id(q, a) !in q.active
    ensures forall t: Time :: Entry(t, a) !in q.timers
  {
  }

  lemma CreateKeeps(q: Queue, a: Address, when: Time, repeat: bool, period: nat)
    requires Inv(q) && a !in q.heap
    ensures Inv(Create(q, a, when, repeat, period))
  {
    var v := Create(q, a, when, repeat, period);
    assert forall b :: Waiting(v, b) <==> Waiting(q, b);
    assert forall b :: b in q.heap ==> v.heap[b] == q.heap[b];
    hide Sorted;
  }

  // Entering a timer that has just come to wait.
  lemma InsertKeeps(q: Queue, v: Queue, a: Address)
    requires Indexed(q) && a in q.heap && !Waiting(q, a) && a in v.heap
    requires forall b :: Waiting(v, b) <==> Waiting(q, b) || b == a
    requires forall b :: Waiting(q, b) ==> b in v.heap && v.heap[b] == q.heap[b]
    requires v.timers == q.timers && v.active == q.active
    ensures Id(v, a) !in v.active && Entry(v.heap[a].expiration, a) !in v.timers
    ensures Insert(v, a) == v.(timers := Insert(v, a).timers, active := Insert(v, a).active)
    ensures Indexed(Insert(v, a))
    ensures Insert(v, a).timers != []
    ensures Insert(v, a).timers[0].when ==
            if Earliest(v, v.heap[a].expiration) then v.heap[a].expiration else v.timers[0].when
  {
    InsertKeepsSorted(v.timers, Entry(v.heap[a].expiration, a));
    var u := Insert(v, a);
    assert forall b :: Waiting(u, b) <==> Waiting(v, b);
    hide Sorted, InsertEntry;
  }

  lemma Rearmed(q: Queue, v: Queue)
    requires Indexed(q) && v.timers == q.timers && v.heap == q.heap && v.active == q.active
    requires v.posted == q.posted && v.batch == q.batch
    ensures Indexed(v)
  {
    assert forall b :: Waiting(v, b) <==> Waiting(q, b);
  }

  lemma AddKeeps(q: Queue, a: Address)
    requires Inv(q) && a in q.posted
    ensures a in q.heap && Entry(q.heap[a].expiration, a) !in q.timers && Id(q, a) !in q.active
    ensures Inv(AddInLoop(q, a))
  {
    var v := q.(posted := q.posted - {a});
    InsertKeeps(q, v, a);
    assert Insert(q, a).(posted := v.posted) == Insert(v, a);
    Rearmed(Insert(v, a), AddInLoop(q, a));
    hide Indexed, Insert, Waiting;
  }

  lemma CancelKeeps(q: Queue, id: ActiveTimer)
    requires Inv(q)
    ensures Inv(CancelInLoop(q, id))
  {
    var v := CancelInLoop(q, id);
    if id in q.active {
      EraseKeepsSorted(q.timers, Entry(q.heap[id.timer].expiration, id.timer));
      assert forall b :: Waiting(v, b) <==> Waiting(q, b) && b != id.timer;
    } else {
      assert forall b :: Waiting(v, b) <==> Waiting(q, b);
    }
  }

  lemma SplitAt(ts: seq<Entry>, k: nat)
    requires k <= |ts| && Sorted(ts)
    ensures forall e :: e in ts <==> e in ts[..k] || e in ts[k..]
    ensures Sorted(ts[k..])
  {
    assert ts == ts[..k] + ts[k..];
  }

  // The due entries are those in front.
  lemma DueInFront(ts: seq<Entry>, now: Time)
    requires Sorted(ts)
    ensures forall e :: e in ts[..DueCount(ts, now)] <==> e in ts && e.when <= now
    ensures forall e :: e in ts[DueCount(ts, now)..] <==> e in ts && e.when > now
    ensures Sorted(ts[DueCount(ts, now)..])
  {
    var k := DueCount(ts, now);
    SplitAt(ts, k);
    forall i | k <= i < |ts|
      ensures ts[i].when > now
    {
      assert k == i || Before(ts[k], ts[i]);
    }
  }

  lemma BatchOfEntries(ts: seq<Entry>)
    requires Sorted(ts)
    requires forall d, e :: d in ts && e in ts && d.timer == e.timer ==> d == e
    ensures forall a :: a in Addresses(ts) <==> exists e :: e in ts && e.timer == a
    ensures forall i, j :: 0 <= i < j < |ts| ==> Addresses(ts)[i] != Addresses(ts)[j]
  {
    forall a
      ensures a in Addresses(ts) <==> exists e :: e in ts && e.timer == a
    {
      if a in Addresses(ts) {
        var i :| 0 <= i < |ts| && Addresses(ts)[i] == a;
        assert ts[i] in ts;
      }
      if e :| e in ts && e.timer == a {
        var i :| 0 <= i < |ts| && ts[i] == e;
        assert Addresses(ts)[i] == a;
      }
    }
    forall i, j | 0 <= i < j < |ts|
      ensures Addresses(ts)[i] != Addresses(ts)[j]
    {
      assert Before(ts[i], ts[j]) && ts[i] in ts && ts[j] in ts;
    }
  }

  // The batch holds exactly the timers that wait and are due.
  lemma ExpireTakesTheDue(q: Queue)
    requires Indexed(q) && q.batch == []
    ensures forall a :: a in Expire(q).batch <==> Waiting(q, a) && q.heap[a].expiration <= q.clock
    ensures forall i, j :: 0 <= i < j < |Expire(q).batch| ==> Expire(q).batch[i] != Expire(q).batch[j]
  {
    var k := DueCount(q.timers, q.clock);
    var due := q.timers[..k];
    DueInFront(q.timers, q.clock);
    assert Sorted(due);
    BatchOfEntries(due);
    hide DueCount, Sorted, Addresses, Identities;
    forall a
      ensures a in Addresses(due) <==> Waiting(q, a) && q.heap[a].expiration <= q.clock
    {
      if Waiting(q, a) && q.heap[a].expiration <= q.clock {
        assert Entry(q.heap[a].expiration, a) in due;
      }
    }
  }

  lemma ExpireKeeps(q: Queue)
    requires Core(q) && q.batch == []
    ensures Core(Expire(q))
    ensures forall e :: e in Expire(q).timers ==> e.when > q.clock
  {
    var v := Expire(q);
    ExpireTakesTheDue(q);
    DueInFront(q.timers, q.clock);
    assert forall b :: Waiting(v, b) <==> Waiting(q, b) && q.heap[b].expiration > q.clock;
    hide DueCount, Sorted, Addresses;
  }

  lemma BeginKeeps(q: Queue)
    requires Inv(q) && !q.calling
    ensures Inv(Begin(q))
  {
    hide Indexed, Numbered, Waiting, Owned;
    CoreIsIndexed(q);
    var r := q.(alarm := if q.alarm.Some? && q.alarm.value <= q.clock then None else q.alarm);
    SameButAlarm(q, r);
    ExpireKeeps(r);
    SameButAlarm(Expire(r), Begin(q));
    var v := Begin(q);
    assert v.timers != [] ==> v.timers[0] in v.timers;
  }

  lemma CoreIsIndexed(q: Queue)
    requires Core(q)
    ensures forall e :: e in q.timers ==> e.timer in q.heap
  {
    hide Owned, Numbered;
  }

  // What Core says does not concern the alarm and the batch's marks.
  lemma SameButAlarm(q: Queue, v: Queue)
    requires Core(q) && v == q.(alarm := v.alarm, calling := v.calling, canceling := v.canceling)
    ensures Core(v)
  {
    Rearmed(q, v);
    hide Indexed, Waiting;
  }

  // An entry that is not positive has been armed for.
  ghost predicate Low(q: Queue) {
    q.timers != [] && q.timers[0].when <= 0 ==> ArmedBy(q, q.timers[0].when)
  }

  lemma FreeKeeps(q: Queue)
    requires Core(q) && q.batch != []
    ensures Core(q.(batch := q.batch[1..], heap := q.heap - {q.batch[0]}))
  {
    var v := q.(batch := q.batch[1..], heap := q.heap - {q.batch[0]});
    assert forall b :: b in q.batch <==> b == q.batch[0] || b in v.batch;
    assert forall b :: Waiting(v, b) <==> Waiting(q, b);
  }

  lemma ReenterKeeps(q: Queue, t: Time)
    requires Core(q) && q.batch != []
    ensures var a := q.batch[0];
            var v := q.(batch := q.batch[1..], heap := q.heap[a := q.heap[a].(expiration := t)]);
            && Entry(t, a) !in v.timers && Id(v, a) !in v.active && Core(Insert(v, a)) && Insert(v, a).timers != []
            && Insert(v, a).timers[0].when == if Earliest(v, t) then t else v.timers[0].when
  {
    var a := q.batch[0];
    var v := q.(batch := q.batch[1..], heap := q.heap[a := q.heap[a].(expiration := t)]);
    assert forall b :: b in q.batch <==> b == a || b in v.batch;
    InsertKeeps(q, v, a);
    hide Indexed, Insert, Waiting;
  }

  lemma SettleKeeps(q: Queue)
    requires Core(q) && q.batch != [] && Low(q)
    ensures q.batch[0] in q.heap && Id(q, q.batch[0]) !in q.active
    ensures forall t: Time :: Entry(t, q.batch[0]) !in q.timers
    ensures Core(Settle(q)) && Low(Settle(q))
    ensures Settle(q).batch == q.batch[1..] && Settle(q).calling == q.calling && Settle(q).clock == q.clock
    ensures Settle(q).now == q.now && Settle(q).at == q.at
  {
    var a := q.batch[0];
    NotIndexed(q, a);
    FreeKeeps(q);
    ReenterKeeps(q, q.now + q.heap[a].period);
    var t := q.heap[a];
    assert Id(q, a) == ActiveTimer(a, t.sequence);
    hide Indexed, Numbered, Waiting, InsertEntry, Id;
  }

  function SettleAll(q: Queue): Queue
    requires Core(q) && Low(q)
    decreases |q.batch|
  {
    if q.batch == [] then q
    else
      SettleKeeps(q);
      SettleAll(Settle(q))
  }

  // reset
  function Finish(q: Queue): Queue
    requires Core(q) && Low(q)
  {
    var s := SettleAll(q.(calling := false, at := 0));
    if s.timers != [] && s.timers[0].when > 0 then Arm(s, s.timers[0].when) else s
  }

  lemma {:induction false} SettleAllKeeps(q: Queue)
    requires Core(q) && Low(q)
    ensures Core(SettleAll(q)) && Low(SettleAll(q)) && SettleAll(q).batch == []
    ensures SettleAll(q).calling == q.calling && SettleAll(q).at == q.at && SettleAll(q).clock == q.clock
    ensures SettleAll(q).created == q.created
    decreases |q.batch|
  {
    if q.batch != [] {
      SettleKeeps(q);
      SettleAllKeeps(Settle(q));
    }
  }

  lemma ArmedAtRest(s: Queue)
    requires Core(s) && Low(s) && s.batch == [] && s.at == 0
    ensures Inv(if s.timers != [] && s.timers[0].when > 0 then Arm(s, s.timers[0].when) else s)
  {
    if s.timers != [] {
      Rearmed(s, Arm(s, s.timers[0].when));
    }
    hide Indexed, Numbered;
  }

  lemma FinishKeeps(q: Queue)
    requires Inv(q) && q.calling
    ensures Low(q) && Inv(Finish(q)) && !Finish(q).calling
  {
    var r := q.(calling := false, at := 0);
    Rearmed(q, r);
    assert Core(r) && Low(r);
    SettleAllKeeps(r);
    ArmedAtRest(SettleAll(r));
    hide Core, Low, Inv, SettleAll;
  }

  // ---------- what becomes of a batch ----------

  // A timer of the batch that is not cancelled and repeats.
  predicate Restarts(q: Queue, a: Address)
    requires a in q.heap
  {
    q.heap[a].repeat && Id(q, a) !in q.canceling
  }

  // From q on, the timers of the batch have been restarted or freed, and the others left alone.
  ghost predicate BatchSettled(q: Queue, v: Queue)
    requires forall a :: a in q.batch ==> a in q.heap
  {
    && (forall a :: a in q.batch ==> (a in v.heap <==> Restarts(q, a)))
    && (forall a :: a in q.batch && a in v.heap ==>
          v.heap[a] == q.heap[a].(expiration := q.now + q.heap[a].period) && Waiting(v, a))
    && (forall a :: a !in q.batch ==> (a in v.heap <==> a in q.heap) && (a in q.heap ==> v.heap[a] == q.heap[a]))
  }

  lemma SettleIsSettled(q: Queue)
    requires Core(q) && q.batch != [] && Low(q)
    ensures Id(q, q.batch[0]) !in q.active && forall t: Time :: Entry(t, q.batch[0]) !in q.timers
    ensures var a, v := q.batch[0], Settle(q);
            && (a in v.heap <==> Restarts(q, a))
            && (a in v.heap ==> v.heap[a] == q.heap[a].(expiration := q.now + q.heap[a].period) && Waiting(v, a))
            && (forall b :: b != a ==> (b in v.heap <==> b in q.heap) && (b in q.heap ==> v.heap[b] == q.heap[b]))
            && v.canceling == q.canceling && v.posted == q.posted
  {
    SettleKeeps(q);
    hide Indexed, Numbered, InsertEntry;
  }

  lemma {:induction false} SettledAll(q: Queue)
    requires Core(q) && Low(q)
    ensures BatchSettled(q, SettleAll(q)) && SettleAll(q).posted == q.posted
    decreases |q.batch|
  {
    if q.batch != [] {
      var v := Settle(q);
      SettleKeeps(q);
      SettleIsSettled(q);
      SettledAll(v);
      SettleAllKeeps(v);
      assert forall a :: a in q.batch <==> a == q.batch[0] || a in v.batch;
      assert forall a :: a in v.batch ==> (Restarts(v, a) <==> Restarts(q, a));
      hide Core, Low, Settle, Id;
      SettledOn(q, v, SettleAll(v));
    }
  }

  lemma SettledOn(q: Queue, v: Queue, u: Queue)
    requires q.batch != [] && v.batch == q.batch[1..] && q.batch[0] !in v.batch && u.batch == [] && v.now == q.now
    requires forall a :: a in q.batch ==> a in q.heap
    requires forall a :: a in v.batch ==> a in v.heap && (Restarts(v, a) <==> Restarts(q, a))
    requires var a := q.batch[0];
             && (a in v.heap <==> Restarts(q, a))
             && (a in v.heap ==> v.heap[a] == q.heap[a].(expiration := q.now + q.heap[a].period) && a !in v.posted)
             && (forall b :: b != a ==> (b in v.heap <==> b in q.heap) && (b in q.heap ==> v.heap[b] == q.heap[b]))
    requires BatchSettled(v, u) && u.posted == v.posted == q.posted
    ensures BatchSettled(q, u)
  {
    assert forall a :: a in q.batch <==> a == q.batch[0] || a in v.batch;
    hide Restarts;
  }

  /**
   After a batch each of its timers is freed, or, if it repeats and was not cancelled, waits for one period from
   the time at which the batch was taken; all other timers are as they were.
   */
  lemma BatchIsSettled(q: Queue)
    requires Inv(q) && q.calling
    ensures Low(q) && BatchSettled(q, Finish(q))
  {
    var r := q.(calling := false, at := 0);
    Rearmed(q, r);
    SettledAll(r);
    FinishKeeps(q);
    var u, v := SettleAll(r), Finish(q);
    assert v.heap == u.heap && v.posted == u.posted && v.batch == u.batch;
    hide Core, Low, Inv, SettleAll, Finish, BatchSettled;
    SameSettled(q, r, u, v);
  }

  lemma SameSettled(q: Queue, r: Queue, u: Queue, v: Queue)
    requires forall a :: a in q.batch ==> a in q.heap
    requires r.batch == q.batch && r.heap == q.heap && r.canceling == q.canceling && r.now == q.now
    requires v.heap == u.heap && v.posted == u.posted && v.batch == u.batch && BatchSettled(r, u)
    ensures BatchSettled(q, v)
  {
    assert forall a :: a in q.batch ==> (Restarts(r, a) <==> Restarts(q, a));
    assert forall a :: Waiting(v, a) <==> Waiting(u, a);
    hide Restarts, Waiting;
  }

  // ---------- runs ----------

  datatype Step =
    | New(timer: Address, when: Time, repeat: bool, period: nat)
    | Add(timer: Address)
    | Cancel(id: ActiveTimer)
    | Tick(elapsed: nat)
    | Enter
    | Run
    | Leave

  predicate Enabled(q: Queue, s: Step) {
    match s
    case New(a, _, _, _) => a !in q.heap
    case Add(a) => a in q.posted
    case Cancel(id) => true
    case Tick(d) => true
    case Enter => !q.calling
    case Run => q.calling && q.at < |q.batch|
    case Leave => q.calling && q.at == |q.batch|
  }

  function Next(q: Queue, s: Step): (v: Queue)
    requires Inv(q) && Enabled(q, s)
    ensures Inv(v)
  {
    match s
    case New(a, when, repeat, period) => CreateKeeps(q, a, when, repeat, period); Create(q, a, when, repeat, period)
    case Add(a) => AddKeeps(q, a); AddInLoop(q, a)
    case Cancel(id) => CancelKeeps(q, id); CancelInLoop(q, id)
    case Tick(d) => Rearmed(q, q.(clock := q.clock + d)); q.(clock := q.clock + d)
    case Enter => BeginKeeps(q); Begin(q)
    case Run => Rearmed(q, q.(at := q.at + 1)); q.(at := q.at + 1)
    case Leave => FinishKeeps(q); Finish(q)
  }

  // The steps can be taken one after the other.
  ghost predicate Runs(q: Queue, steps: seq<Step>)
    requires Inv(q)
    decreases |steps|
  {
    steps == [] || (Enabled(q, steps[0]) && Runs(Next(q, steps[0]), steps[1..]))
  }

  function After(q: Queue, steps: seq<Step>): (v: Queue)
    requires Inv(q) && Runs(q, steps)
    ensures Inv(v)
    decreases |steps|
  {
    if steps == [] then q else After(Next(q, steps[0]), steps[1..])
  }

  // The timer whose callback a step runs; reading it needs the timer to be allocated.
  function Called(q: Queue, s: Step): Option<Timer>
    requires Inv(q) && Enabled(q, s)
  {
    if s.Run? then Some(q.heap[q.batch[q.at]]) else None
  }

  // How often the callback with a sequence number runs.
  function Calls(q: Queue, steps: seq<Step>, sequence: nat): nat
    requires Inv(q) && Runs(q, steps)
    decreases |steps|
  {
    if steps == [] then 0
    else
      var t := Called(q, steps[0]);
      (if t.Some? && t.value.sequence == sequence then 1 else 0) + Calls(Next(q, steps[0]), steps[1..], sequence)
  }

  // A callback runs only when its timer is due.
  lemma CalledWhenDue(q: Queue, s: Step)
    requires Inv(q) && Enabled(q, s) && Called(q, s).Some?
    ensures Called(q, s).value.expiration <= q.clock
  {
  }

  // No record with this number expires before a time.
  ghost predicate NotBefore(q: Queue, n: nat, when: Time) {
    n <= q.created && forall a :: a in q.heap && q.heap[a].sequence == n ==> q.heap[a].expiration >= when
  }

  lemma NotBeforeStep(q: Queue, s: Step, n: nat, when: Time)
    requires Inv(q) && Enabled(q, s) && NotBefore(q, n, when)
    ensures NotBefore(Next(q, s), n, when)
  {
    if s.Leave? {
      BatchIsSettled(q);
      FinishKeeps(q);
      SettledAfter(q);
      hide Finish, Restarts;
    }
    hide Core, Armed, InsertEntry, EraseEntry;
  }

  lemma SettledAfter(q: Queue)
    requires Inv(q) && q.calling
    ensures Low(q) && Finish(q).created == q.created
  {
    FinishKeeps(q);
    Rearmed(q, q.(calling := false, at := 0));
    SettleAllKeeps(q.(calling := false, at := 0));
    hide SettleAll, Core;
  }

  lemma {:induction false} NotBeforeAfter(q: Queue, steps: seq<Step>, n: nat, when: Time)
    requires Inv(q) && Runs(q, steps) && NotBefore(q, n, when)
    ensures NotBefore(After(q, steps), n, when)
    decreases |steps|
  {
    if steps != [] {
      NotBeforeStep(q, steps[0], n, when);
      hide Inv, Next, NotBefore;
      NotBeforeAfter(Next(q, steps[0]), steps[1..], n, when);
    }
  }

  /**
   A timer is called no earlier than the time it was added for, in whatever run; and one that repeats, no earlier
   than that again after each restart.
   */
  lemma CalledNotBeforeItsTime(q: Queue, a: Address, when: Time, repeat: bool, period: nat, steps: seq<Step>, s: Step)
    requires Inv(q) && Enabled(q, New(a, when, repeat, period)) && Runs(Next(q, New(a, when, repeat, period)), steps)
    requires Enabled(After(Next(q, New(a, when, repeat, period)), steps), s)
    requires var t := Called(After(Next(q, New(a, when, repeat, period)), steps), s);
             t.Some? && t.value.sequence == q.created + 1
    ensures when <= After(Next(q, New(a, when, repeat, period)), steps).clock
  {
    var v := Next(q, New(a, when, repeat, period));
    assert NotBefore(v, q.created + 1, when) by {
      hide Indexed, Owned, Armed;
    }
    NotBeforeAfter(v, steps, q.created + 1, when);
    CalledWhenDue(After(v, steps), s);
    hide Inv, After, Next;
  }

  // ---------- what a step leaves alone ----------

  lemma FinishArms(q: Queue)
    requires Inv(q) && q.calling
    ensures Low(q)
    ensures var v := Finish(q);
            if v.timers != [] && v.timers[0].when > 0 then
              v.alarm == Some(if v.timers[0].when - v.clock < CLAMP then v.clock + CLAMP else v.timers[0].when)
            else v.alarm == q.alarm
  {
    var r := q.(calling := false, at := 0);
    FinishKeeps(q);
    Rearmed(q, r);
    SettleAllAlarm(r);
    SettleAllKeeps(r);
    hide Core, SettleAll;
  }

  lemma {:induction false} SettleAllAlarm(q: Queue)
    requires Core(q) && Low(q)
    ensures SettleAll(q).alarm == q.alarm
    decreases |q.batch|
  {
    if q.batch != [] {
      SettleKeeps(q);
      assert Settle(q).alarm == q.alarm by {
        hide Core, Low, InsertEntry;
      }
      SettleAllAlarm(Settle(q));
    }
  }

  /**
   Whenever a step sets the alarm, it is set for the first timer in the index, or for 100 microseconds from now if
   that is later.
   */
  lemma AlarmIsExact(q: Queue, s: Step)
    requires Inv(q) && Enabled(q, s) && Next(q, s).alarm != q.alarm && Next(q, s).alarm.Some?
    ensures var v := Next(q, s);
            && v.timers != []
            && v.alarm.value == if v.timers[0].when < v.clock + CLAMP then v.clock + CLAMP else v.timers[0].when
  {
    match s
    case Add(a) =>
      AddKeeps(q, a);
      AddedFirst(q, a);
      hide Inv, Insert;
    case Leave =>
      FinishArms(q);
      hide Inv, Finish;
    case _ =>
  }

  lemma AddedFirst(q: Queue, a: Address)
    requires Inv(q) && a in q.posted
    ensures a in q.heap && Entry(q.heap[a].expiration, a) !in q.timers && Id(q, a) !in q.active
    ensures Earliest(q, q.heap[a].expiration) ==>
              AddInLoop(q, a).timers != [] && AddInLoop(q, a).timers[0].when == q.heap[a].expiration
  {
    AddKeeps(q, a);
    InsertKeepsSorted(q.timers, Entry(q.heap[a].expiration, a));
    hide Owned, Numbered, Armed, InsertEntry, Waiting;
  }

  /**
   A timer is freed only by cancelling it while it waits, or with its batch when it does not restart; and nothing of
   a timer changes but the expiration of one that restarts.
   */
  lemma NothingElseIsFreed(q: Queue, s: Step, a: Address)
    requires Inv(q) && Enabled(q, s) && a in q.heap
    ensures a !in Next(q, s).heap <==>
            (s == Cancel(Id(q, a)) && Waiting(q, a)) || (s.Leave? && a in q.batch && !Restarts(q, a))
    ensures a in Next(q, s).heap ==>
              Next(q, s).heap[a] == if s.Leave? && a in q.batch then q.heap[a].(expiration := q.now + q.heap[a].period)
                                    else q.heap[a]
  {
    match s
    case Leave =>
      BatchIsSettled(q);
      hide Inv, Finish, Restarts, Waiting;
    case Cancel(id) =>
      hide Armed, Owned, Numbered, EraseEntry, Sorted;
    case _ =>
      hide Core, Armed, InsertEntry, Identities, DueCount;
  }

  // ---------- what no longer runs ----------

  // The timer is gone, or only waits in the batch to be freed.
  ghost predicate Doomed(q: Queue, n: nat, from: nat) {
    && n <= q.created
    && (forall a :: a in q.heap && q.heap[a].sequence == n ==>
          && a in q.batch
          && (forall i :: from <= i < |q.batch| ==> q.batch[i] != a)
          && (!q.heap[a].repeat || ActiveTimer(a, n) in q.canceling))
  }

  lemma SettleKeepsDoomed(q: Queue, n: nat)
    requires Core(q) && q.batch != [] && Low(q) && Doomed(q, n, |q.batch|)
    ensures q.batch[0] in q.heap && Id(q, q.batch[0]) !in q.active
    ensures forall t: Time :: Entry(t, q.batch[0]) !in q.timers
    ensures Core(Settle(q)) && Low(Settle(q)) && Doomed(Settle(q), n, |q.batch| - 1)
  {
    SettleKeeps(q);
    assert forall a :: a in q.batch <==> a == q.batch[0] || a in q.batch[1..];
    hide Core, Low, InsertEntry;
  }

  lemma {:induction false} SettleAllFrees(q: Queue, n: nat)
    requires Core(q) && Low(q) && Doomed(q, n, |q.batch|)
    ensures Doomed(SettleAll(q), n, 0)
    decreases |q.batch|
  {
    if q.batch != [] {
      SettleKeepsDoomed(q, n);
      SettleAllFrees(Settle(q), n);
    } else {
      assert forall a :: a in q.heap && q.heap[a].sequence == n ==> a in q.batch;
    }
  }

  lemma FinishFrees(q: Queue, n: nat)
    requires Inv(q) && q.calling && Doomed(q, n, |q.batch|)
    ensures Low(q) && Doomed(Finish(q), n, 0)
  {
    var r := q.(calling := false, at := 0);
    Rearmed(q, r);
    SettleAllFrees(r, n);
    hide Core, SettleAll;
  }

  lemma DoomedStep(q: Queue, s: Step, n: nat)
    requires Inv(q) && Enabled(q, s)
    ensures Doomed(q, n, |q.batch|) ==> Doomed(Next(q, s), n, |Next(q, s).batch|)
    ensures Doomed(q, n, q.at) ==> Doomed(Next(q, s), n, Next(q, s).at)
  {
    hide Core, Armed, InsertEntry, EraseEntry;
    if s.Leave? {
      if Doomed(q, n, |q.batch|) {
        FinishFrees(q, n);
      }
      hide Finish;
    }
  }

  // A doomed timer is not called any more.
  lemma {:induction false} NotCalledAgain(q: Queue, steps: seq<Step>, n: nat)
    requires Inv(q) && Runs(q, steps) && Doomed(q, n, q.at)
    ensures Calls(q, steps, n) == 0
    decreases |steps|
  {
    if steps != [] {
      DoomedStep(q, steps[0], n);
      hide Inv, Next, Doomed;
      NotCalledAgain(Next(q, steps[0]), steps[1..], n);
    }
  }

  // ---------- main results ----------

  function Empty(clock: Time): (q: Queue)
    requires clock > 0
    ensures Inv(q)
  {
    Queue(map[], 0, {}, [], {}, false, {}, None, clock, clock, [], 0)
  }

  // The invariant holds in every run; what it says of the two indexes and of the alarm at rest.
  lemma EveryRun(clock: Time, steps: seq<Step>)
    requires clock > 0 && Runs(Empty(clock), steps)
    ensures var q := After(Empty(clock), steps);
            && |q.timers| == |q.active|
            && (forall a, n :: ActiveTimer(a, n) in q.active <==>
                  a in q.heap && q.heap[a].sequence == n && Entry(q.heap[a].expiration, a) in q.timers)
            && (forall a :: a in q.heap <==>
                  a in q.posted || a in q.batch || (exists n :: ActiveTimer(a, n) in q.active))
            && (!q.calling && q.timers != [] ==>
                  && q.alarm.Some?
                  && forall e :: e in q.timers ==> q.alarm.value <= e.when || q.alarm.value <= q.clock + CLAMP)
  {
    var q := After(Empty(clock), steps);
    hide After, Runs, Empty;
    SameSize(q);
    forall e | e in q.timers
      ensures q.timers[0].when <= e.when
    {
      var i :| 0 <= i < |q.timers| && q.timers[i] == e;
      assert i == 0 || Before(q.timers[0], e);
    }
    forall a
      ensures a in q.heap <==> a in q.posted || a in q.batch || (exists n :: ActiveTimer(a, n) in q.active)
    {
      if Waiting(q, a) {
        assert ActiveTimer(a, q.heap[a].sequence) in q.active;
      }
    }
  }

  function IdOf(q: Queue, e: Entry): ActiveTimer {
    ActiveTimer(e.timer, if e.timer in q.heap then q.heap[e.timer].sequence else 0)
  }

  lemma {:induction false} ImageSize(q: Queue, ts: seq<Entry>)
    requires forall i, j :: 0 <= i < j < |ts| ==> ts[i].timer != ts[j].timer
    ensures |set e | e in ts :: IdOf(q, e)| == |ts|
  {
    var image := set e | e in ts :: IdOf(q, e);
    if ts == [] {
      assert image == {};
    } else {
      ImageSize(q, ts[1..]);
      var rest := set e | e in ts[1..] :: IdOf(q, e);
      assert forall e :: e in ts <==> e == ts[0] || e in ts[1..];
      assert image == rest + {IdOf(q, ts[0])};
    }
  }

  // The two indexes have one size, as the operations assert.
  lemma SameSize(q: Queue)
    requires Indexed(q)
    ensures |q.timers| == |q.active|
  {
    forall i, j | 0 <= i < j < |q.timers|
      ensures q.timers[i].timer != q.timers[j].timer
    {
      assert Before(q.timers[i], q.timers[j]) && q.timers[i] in q.timers && q.timers[j] in q.timers;
    }
    ImageSize(q, q.timers);
    assert q.active == set e | e in q.timers :: IdOf(q, e) by {
      forall id
        ensures id in q.active <==> exists e :: e in q.timers && IdOf(q, e) == id
      {
        if id in q.active {
          var e := Entry(q.heap[id.timer].expiration, id.timer);
          assert e in q.timers && IdOf(q, e) == id;
        }
      }
    }
  }

  /**
   Cancelling a timer whose adding has been processed: once the batch that was running is over, its
   callback does not run in any continuation.
   */
  lemma CancelledNeverRunsLater(q: Queue, id: ActiveTimer, before: seq<Step>, later: seq<Step>)
    requires Inv(q) && id.sequence <= q.created
    requires forall a :: a in q.heap && q.heap[a].sequence == id.sequence ==> a == id.timer && a !in q.posted
    requires Runs(Next(q, Cancel(id)), before)
    requires !After(Next(q, Cancel(id)), before).calling
    requires Runs(After(Next(q, Cancel(id)), before), later)
    ensures Calls(After(Next(q, Cancel(id)), before), later, id.sequence) == 0
  {
    var v := Next(q, Cancel(id));
    assert Doomed(v, id.sequence, |v.batch|);
    hide Next;
    DoomedAfter(v, before, id.sequence);
    var u := After(v, before);
    assert Doomed(u, id.sequence, u.at);
    NotCalledAgain(u, later, id.sequence);
  }

  lemma {:induction false} DoomedAfter(q: Queue, steps: seq<Step>, n: nat)
    requires Inv(q) && Runs(q, steps) && Doomed(q, n, |q.batch|)
    ensures Doomed(After(q, steps), n, |After(q, steps).batch|)
    decreases |steps|
  {
    if steps != [] {
      DoomedStep(q, steps[0], n);
      hide Inv, Next, Doomed;
      DoomedAfter(Next(q, steps[0]), steps[1..], n);
    }
  }

  ghost predicate OneShot(q: Queue, n: nat) {
    n <= q.created && forall a :: a in q.heap && q.heap[a].sequence == n ==> !q.heap[a].repeat
  }

  lemma {:induction false} SettleAllKeepsOneShot(q: Queue, n: nat)
    requires Core(q) && Low(q) && OneShot(q, n)
    ensures OneShot(SettleAll(q), n)
    decreases |q.batch|
  {
    if q.batch != [] {
      SettleKeeps(q);
      assert OneShot(Settle(q), n) by {
        hide Core, InsertEntry;
      }
      SettleAllKeepsOneShot(Settle(q), n);
    }
  }

  lemma RunDooms(q: Queue, n: nat)
    requires Inv(q) && Enabled(q, Run) && OneShot(q, n) && Called(q, Run).value.sequence == n
    ensures Doomed(Next(q, Run), n, q.at + 1)
  {
    hide Indexed, Armed;
  }

  lemma FinishKeepsOneShot(q: Queue, n: nat)
    requires Inv(q) && q.calling && OneShot(q, n)
    ensures OneShot(Finish(q), n)
  {
    hide SettleAll, Waiting;
    var r := q.(calling := false, at := 0);
    FinishKeeps(q);
    Rearmed(q, r);
    SettleAllKeepsOneShot(r, n);
  }

  lemma OneShotStep(q: Queue, s: Step, n: nat)
    requires Inv(q) && Enabled(q, s) && OneShot(q, n)
    ensures OneShot(Next(q, s), n)
  {
    hide Finish, InsertEntry, EraseEntry, Waiting;
    if s.Leave? {
      FinishKeepsOneShot(q, n);
    }
  }

  // A timer that does not repeat runs at most once.
  lemma {:induction false} OneShotRunsOnce(q: Queue, steps: seq<Step>, n: nat)
    requires Inv(q) && Runs(q, steps) && OneShot(q, n)
    ensures Calls(q, steps, n) <= 1
    decreases |steps|
  {
    if steps != [] {
      OneShotStep(q, steps[0], n);
      var t := Called(q, steps[0]);
      if t.Some? && t.value.sequence == n {
        RunDooms(q, n);
      }
      hide Inv, Next, Doomed, OneShot, Called;
      if t.Some? && t.value.sequence == n {
        NotCalledAgain(Next(q, steps[0]), steps[1..], n);
      } else {
        OneShotRunsOnce(Next(q, steps[0]), steps[1..], n);
      }
    }
  }

  lemma {:induction false} AfterOneMore(q: Queue, steps: seq<Step>, s: Step)
    requires Inv(q) && Runs(q, steps) && Enabled(After(q, steps), s)
    ensures Runs(q, steps + [s]) && After(q, steps + [s]) == Next(After(q, steps), s)
    decreases |steps|
  {
    if steps == [] {
      assert [s][1..] == [];
      assert steps + [s] == [s];
    } else {
      assert (steps + [s])[1..] == steps[1..] + [s];
      hide Inv, Next, Enabled;
      AfterOneMore(Next(q, steps[0]), steps[1..], s);
    }
  }
}
