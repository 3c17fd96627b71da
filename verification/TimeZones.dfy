/**
 Time zones (muduo/base/TimeZone.cc): a table of transitions, the offset in force at an
 instant, and the way back from local time, where an hour may be skipped or come twice.
 */
module TimeZones {
  import opened Calendar

  datatype LocalTime = LocalTime(utcOffset: int, isDst: bool, desigIdx: int)

  datatype Transition = Transition(utctime: int, localtime: int, localtimeIdx: nat)

  datatype Zone = Zone(transitions: seq<Transition>, localtimes: seq<LocalTime>)

  // ---------------------------------------------------------------- the table

  /** What addTransition keeps: the index is good and the local time is the shifted instant. */
  ghost predicate Built(z: Zone) { z.localtimes != [] && Consistent(z) }

  ghost predicate Consistent(z: Zone) {
    forall i :: 0 <= i < |z.transitions| ==>
         && z.transitions[i].localtimeIdx < |z.localtimes|
         && z.transitions[i].localtime == z.transitions[i].utctime + z.localtimes[z.transitions[i].localtimeIdx].utcOffset
  }

  function Offset(z: Zone, i: int): int
    requires Built(z) && -1 <= i < |z.transitions|
  {
    if i == -1 then z.localtimes[0].utcOffset else z.localtimes[z.transitions[i].localtimeIdx].utcOffset
  }

  /** Local time at which transition i starts, and at which the period before it ends. */
  function Start(z: Zone, i: nat): int
    requires Built(z) && i < |z.transitions|
  {
    z.transitions[i].localtime
  }

  function End(z: Zone, i: nat): int
    requires Built(z) && i < |z.transitions|
  {
    z.transitions[i].utctime + Offset(z, i - 1)
  }

  function Min(a: int, b: int): int { if a <= b then a else b }

  function Max(a: int, b: int): int { if a <= b then b else a }

  /** Instants increase, and what one transition does to local time is over before the next one acts. */
  ghost predicate WellSeparated(z: Zone) {
    && Built(z)
    && (forall i :: 0 < i < |z.transitions| ==> z.transitions[i - 1].utctime < z.transitions[i].utctime)
    && (forall i :: 0 < i < |z.transitions| ==> Max(Start(z, i - 1), End(z, i - 1)) <= Min(Start(z, i), End(z, i)))
  }

  // ---------------------------------------------------------------- the two searches

  /** std::upper_bound by instant: the first transition after t. */
  function UpperUtc(ts: seq<Transition>, t: int, i: nat): (r: nat)
    requires i <= |ts|
    ensures i <= r <= |ts|
    ensures forall k :: i <= k < r ==> ts[k].utctime <= t
    ensures r < |ts| ==> t < ts[r].utctime
    decreases |ts| - i
  {
    if i == |ts| || t < ts[i].utctime then i else UpperUtc(ts, t, i + 1)
  }

  /** std::upper_bound by local time. */
  function UpperLocal(ts: seq<Transition>, l: int, i: nat): (r: nat)
    requires i <= |ts|
    ensures i <= r <= |ts|
    ensures forall k :: i <= k < r ==> ts[k].localtime <= l
    ensures r < |ts| ==> l < ts[r].localtime
    decreases |ts| - i
  {
    if i == |ts| || l < ts[i].localtime then i else UpperLocal(ts, l, i + 1)
  }

  lemma UpperUtcAtMost(ts: seq<Transition>, t: int, k: nat)
    requires k < |ts| && t < ts[k].utctime
    ensures UpperUtc(ts, t, 0) <= k
  {}

  lemma UpperLocalAtMost(ts: seq<Transition>, l: int, k: nat)
    requires k < |ts| && l < ts[k].localtime
    ensures UpperLocal(ts, l, 0) <= k
  {}

  function FindByUtc(z: Zone, t: int): LocalTime
    requires Built(z)
  {
    var ts := z.transitions;
    if ts == [] || t < ts[0].utctime then z.localtimes[0]
    else z.localtimes[ts[UpperUtc(ts, t, 0) - 1].localtimeIdx]
  }

  function FindByLocal(z: Zone, l: int, postTransition: bool): LocalTime
    requires Built(z)
  {
    var ts := z.transitions;
    if ts == [] || l < ts[0].localtime then z.localtimes[0]
    else
      var at := UpperLocal(ts, l, 0);
      if at == |ts| then z.localtimes[ts[|ts| - 1].localtimeIdx]
      else
        var here, prior := z.localtimes[ts[at].localtimeIdx], z.localtimes[ts[at - 1].localtimeIdx];
        var priorSecond := ts[at].utctime - 1 + prior.utcOffset;
        if priorSecond < l then
          if postTransition then here else prior
        else
          var back := at - 1;
          var (prior', priorSecond') :=
            if back != 0 then
              (z.localtimes[ts[back - 1].localtimeIdx], ts[back].utctime - 1 + z.localtimes[ts[back - 1].localtimeIdx].utcOffset)
            else (prior, priorSecond);
          if l <= priorSecond' then
            if postTransition then z.localtimes[ts[back].localtimeIdx] else prior'
          else z.localtimes[ts[back].localtimeIdx]
  }

  /** The vectors of TimeZone::Data, filled while a zone file is read. */
  class Data {
    var transitions: seq<Transition>
    var localtimes: seq<LocalTime>

    ghost function Value(): Zone
      reads this
    {
      Zone(transitions, localtimes)
    }

    constructor Empty()
      ensures Consistent(Value()) && transitions == [] && localtimes == []
    {
      transitions, localtimes := [], [];
    }

    constructor Fixed(eastOfUtc: int)
      ensures Built(Value()) && transitions == [] && localtimes == [LocalTime(eastOfUtc, false, 0)]
    {
      transitions, localtimes := [], [LocalTime(eastOfUtc, false, 0)];
    }

    method AddLocalTime(utcOffset: int, isDst: bool, desigIdx: int)
      modifies this
      ensures transitions == old(transitions)
      ensures localtimes == old(localtimes) + [LocalTime(utcOffset, isDst, desigIdx)]
      ensures old(Consistent(Value())) ==> Built(Value())
    {
      localtimes := localtimes + [LocalTime(utcOffset, isDst, desigIdx)];
    }

    /** False stands for the exception that localtimes.at() throws. */
    method AddTransition(utcTime: int, localtimeIdx: nat) returns (ok: bool)
      modifies this
      ensures ok == (localtimeIdx < |old(localtimes)|) && localtimes == old(localtimes)
      ensures transitions == if !ok then old(transitions) else
                old(transitions) + [Transition(utcTime, utcTime + localtimes[localtimeIdx].utcOffset, localtimeIdx)]
      ensures old(Consistent(Value())) ==> Consistent(Value()) && (ok ==> Built(Value()))
    {
      ok := localtimeIdx < |localtimes|;
      if ok {
        var lt := localtimes[localtimeIdx];
        transitions := transitions + [Transition(utcTime, utcTime + lt.utcOffset, localtimeIdx)];
      }
    }

    method FindLocalTimeOfUtc(utcTime: int) returns (local: LocalTime)
      requires Built(Value())
      ensures local == FindByUtc(Value(), utcTime)
    {
      if transitions == [] || utcTime < transitions[0].utctime {
        return localtimes[0];
      }
      var at := UpperUtc(transitions, utcTime, 0);
      if at != |transitions| {
        at := at - 1;
        return localtimes[transitions[at].localtimeIdx];
      }
      return localtimes[transitions[|transitions| - 1].localtimeIdx];
    }

    method FindLocalTimeOfLocal(lt: DateTime, postTransition: bool) returns (local: LocalTime)
      requires Built(Value())
      ensures local == FindByLocal(Value(), FromUtcTime(lt), postTransition)
    {
      hide FromUtcTime;
      var localtime := FromUtcTime(lt);
      if transitions == [] || localtime < transitions[0].localtime {
        return localtimes[0];
      }
      var at := UpperLocal(transitions, localtime, 0);
      assert at != 0;
      if at == |transitions| {
        return localtimes[transitions[at - 1].localtimeIdx];
      }
      var prior := transitions[at - 1];
      var priorSecond := transitions[at].utctime - 1 + localtimes[prior.localtimeIdx].utcOffset;
      if priorSecond < localtime {
        return if postTransition then localtimes[transitions[at].localtimeIdx] else localtimes[prior.localtimeIdx];
      }
      at := at - 1;
      if at != 0 {
        prior := transitions[at - 1];
        priorSecond := transitions[at].utctime - 1 + localtimes[prior.localtimeIdx].utcOffset;
      }
      if localtime <= priorSecond {
        return if postTransition then localtimes[transitions[at].localtimeIdx] else localtimes[prior.localtimeIdx];
      }
      return localtimes[transitions[at].localtimeIdx];
    }
  }

  // ---------------------------------------------------------------- instants and local times

  /** The local time of an instant. */
  function LocalOf(z: Zone, t: int): int
    requires Built(z)
  {
    t + FindByUtc(z, t).utcOffset
  }

  function UtcOf(z: Zone, l: int, postTransition: bool): int
    requires Built(z)
  {
    l - FindByLocal(z, l, postTransition).utcOffset
  }

  /** Instant t lies in the period that transition i (or -1: nothing yet) began. */
  predicate InPeriod(z: Zone, t: int, i: int) {
    && -1 <= i < |z.transitions|
    && (i >= 0 ==> z.transitions[i].utctime <= t)
    && (i + 1 < |z.transitions| ==> t < z.transitions[i + 1].utctime)
  }

  lemma {:induction false} UtcIncreases(z: Zone, i: nat, j: nat)
    requires WellSeparated(z) && i < j < |z.transitions|
    ensures z.transitions[i].utctime < z.transitions[j].utctime
    decreases j - i
  {
    if i + 1 < j {
      UtcIncreases(z, i, j - 1);
    }
  }

  /** Adjacent separation carries over any distance. */
  lemma {:induction false} FarApart(z: Zone, i: nat, j: nat)
    requires WellSeparated(z) && i < j < |z.transitions|
    ensures Max(Start(z, i), End(z, i)) <= Min(Start(z, j), End(z, j))
    decreases j - i
  {
    if i + 1 < j {
      FarApart(z, i, j - 1);
    }
  }

  /** In the period of a transition its own local time is in force, before the first one the first of the table. */
  lemma PeriodOffset(z: Zone, t: int, i: int)
    requires WellSeparated(z) && InPeriod(z, t, i)
    ensures FindByUtc(z, t) == if i == -1 then z.localtimes[0] else z.localtimes[z.transitions[i].localtimeIdx]
    ensures FindByUtc(z, t).utcOffset == Offset(z, i)
  {
    var ts := z.transitions;
    if i >= 0 {
      if i > 0 { UtcIncreases(z, 0, i); }
      var at := UpperUtc(ts, t, 0);
      if i + 1 < |ts| { UpperUtcAtMost(ts, t, i + 1); }
      if at < i {
        UtcIncreases(z, at, i);
      }
    }
  }

  lemma PeriodOf(z: Zone, t: int) returns (i: int)
    requires WellSeparated(z)
    ensures InPeriod(z, t, i)
  {
    i := UpperUtc(z.transitions, t, 0) - 1;
  }

  /** An instant of period i with local time l exists iff l lies between that period's local bounds. */
  lemma PeriodHolds(z: Zone, l: int, i: int)
    requires WellSeparated(z) && -1 <= i < |z.transitions|
    ensures InPeriod(z, l - Offset(z, i), i) <==>
              (i >= 0 ==> Start(z, i) <= l) && (i + 1 < |z.transitions| ==> l < End(z, i + 1))
  {}

  /** The search by local time stops at the only place that separation leaves. */
  lemma LocalSearch(z: Zone, l: int, at: nat)
    requires WellSeparated(z) && 0 < at <= |z.transitions|
    requires Start(z, at - 1) <= l && (at < |z.transitions| ==> l < Start(z, at))
    ensures UpperLocal(z.transitions, l, 0) == at && z.transitions[0].localtime <= l
  {
    var r := UpperLocal(z.transitions, l, 0);
    if at > 1 { FarApart(z, 0, at - 1); }
    if at < |z.transitions| { UpperLocalAtMost(z.transitions, l, at); }
    if r < at - 1 {
      FarApart(z, r, at - 1);
    }
  }

  // ---------------------------------------------------------------- unique, repeated and skipped local times

  ghost predicate Unique(z: Zone, l: int)
    requires Built(z)
  {
    forall t, u :: LocalOf(z, t) == l && LocalOf(z, u) == l ==> t == u
  }

  lemma Witness(z: Zone, l: int, i: int)
    requires WellSeparated(z) && -1 <= i < |z.transitions|
    requires (i >= 0 ==> Start(z, i) <= l) && (i + 1 < |z.transitions| ==> l < End(z, i + 1))
    ensures LocalOf(z, l - Offset(z, i)) == l && InPeriod(z, l - Offset(z, i), i)
  {
    PeriodHolds(z, l, i);
    PeriodOffset(z, l - Offset(z, i), i);
  }

  /** A local time inside an overlap is the local time of an instant on either side of it. */
  lemma OverlapIsTwofold(z: Zone, l: int, i: nat)
    requires WellSeparated(z) && i < |z.transitions| && Start(z, i) <= l < End(z, i)
    ensures var (t, u) := (l - Offset(z, i - 1), l - Offset(z, i));
            t < u && LocalOf(z, t) == l && LocalOf(z, u) == l
  {
    hide LocalOf;
    if i > 0 { FarApart(z, i - 1, i); }
    Witness(z, l, i - 1);
    if i + 1 < |z.transitions| { FarApart(z, i, i + 1); }
    Witness(z, l, i);
  }

  /** The round trip: an instant whose local time is unique comes back, whichever side is asked for. */
  lemma UniqueRoundTrip(z: Zone, t: int, postTransition: bool)
    requires WellSeparated(z) && Unique(z, LocalOf(z, t))
    ensures UtcOf(z, LocalOf(z, t), postTransition) == t
  {
    var l, n := LocalOf(z, t), |z.transitions|;
    var i := PeriodOf(z, t);
    PeriodOffset(z, t, i);
    PeriodHolds(z, l, i);
    if i + 1 < n && Start(z, i + 1) <= l {
      OverlapIsTwofold(z, l, i + 1);
      assert false;
    }
    if i >= 0 {
      if i + 1 < n { LocalSearch(z, l, i + 1); } else { LocalSearch(z, l, n); }
      if l < End(z, i) {
        OverlapIsTwofold(z, l, i);
        assert false;
      }
    }
  }

  /**
   A local time that comes twice, at an interior transition: the earlier instant without
   postTransition, the later one with it, and there is no third.
   */
  lemma RepeatedInterior(z: Zone, l: int, i: nat)
    requires WellSeparated(z) && 0 < i < |z.transitions| - 1 && Start(z, i) <= l < End(z, i)
    ensures var (t, u) := (UtcOf(z, l, false), UtcOf(z, l, true));
            && t < u && LocalOf(z, t) == l && LocalOf(z, u) == l
            && forall v :: LocalOf(z, v) == l ==> v == t || v == u
  {
    OverlapIsTwofold(z, l, i);
    FarApart(z, i, i + 1);
    LocalSearch(z, l, i + 1);
    var (t, u) := (UtcOf(z, l, false), UtcOf(z, l, true));
    assert t == l - Offset(z, i - 1) && u == l - Offset(z, i);
    forall v | LocalOf(z, v) == l
      ensures v == t || v == u
    {
      OnlyTwo(z, l, i, v);
    }
  }

  lemma OnlyTwo(z: Zone, l: int, i: nat, v: int)
    requires WellSeparated(z) && i < |z.transitions| && Start(z, i) <= l < End(z, i) && LocalOf(z, v) == l
    ensures v == l - Offset(z, i - 1) || v == l - Offset(z, i)
  {
    var j := PeriodOf(z, v);
    PeriodOffset(z, v, j);
    PeriodHolds(z, l, j);
    if j > i {
      FarApart(z, i, j);
    } else if j + 1 < i {
      FarApart(z, j + 1, i);
    }
  }

  /** At the first and at the last transition both sides of a repeated local time give the later instant. */
  lemma RepeatedAtTheEnds(z: Zone, l: int, i: nat, postTransition: bool)
    requires WellSeparated(z) && (i == 0 || i == |z.transitions| - 1) && i < |z.transitions|
    requires Start(z, i) <= l < End(z, i)
    ensures UtcOf(z, l, postTransition) == l - Offset(z, i) && l - Offset(z, i - 1) < l - Offset(z, i)
  {
    OverlapIsTwofold(z, l, i);
    if i + 1 < |z.transitions| { FarApart(z, i, i + 1); }
    LocalSearch(z, l, i + 1);
  }

  /** So asking for the earlier instant gets it exactly at the interior transitions. */
  lemma EarlierIffInterior(z: Zone, l: int, i: nat)
    requires WellSeparated(z) && i < |z.transitions| && Start(z, i) <= l < End(z, i)
    ensures UtcOf(z, l, false) == l - Offset(z, i - 1) <==> 0 < i < |z.transitions| - 1
  {
    if 0 < i < |z.transitions| - 1 {
      RepeatedInterior(z, l, i);
      OverlapIsTwofold(z, l, i);
    } else {
      RepeatedAtTheEnds(z, l, i, false);
    }
  }

  /** A local time that the clock jumps over: nobody's, and read with the offset before or after the jump. */
  lemma SkippedLocalTime(z: Zone, l: int, i: nat, postTransition: bool)
    requires WellSeparated(z) && 0 < i < |z.transitions| && End(z, i) <= l < Start(z, i)
    ensures forall t :: LocalOf(z, t) != l
    ensures UtcOf(z, l, postTransition) == l - Offset(z, if postTransition then i else i - 1)
  {
    forall t
      ensures LocalOf(z, t) != l
    {
      NobodysTime(z, l, i, t);
    }
    FarApart(z, i - 1, i);
    LocalSearch(z, l, i);
  }

  lemma NobodysTime(z: Zone, l: int, i: nat, t: int)
    requires WellSeparated(z) && i < |z.transitions| && End(z, i) <= l < Start(z, i)
    ensures LocalOf(z, t) != l
  {
    var j := PeriodOf(z, t);
    PeriodOffset(z, t, j);
    PeriodHolds(z, LocalOf(z, t), j);
    if LocalOf(z, t) == l {
      if j > i {
        FarApart(z, i, j);
      } else if j + 1 < i {
        FarApart(z, j + 1, i);
      }
    }
  }

  /** Before the first transition has taken effect the offset before it is used either way. */
  lemma SkippedAtTheFirst(z: Zone, l: int, postTransition: bool)
    requires WellSeparated(z) && z.transitions != [] && End(z, 0) <= l < Start(z, 0)
    ensures (forall t :: LocalOf(z, t) != l) && UtcOf(z, l, postTransition) == l - Offset(z, -1)
  {
    forall t
      ensures LocalOf(z, t) != l
    {
      NobodysTime(z, l, 0, t);
    }
  }

  // ---------------------------------------------------------------- civil time

  function ToLocalTime(z: Zone, seconds: int): DateTime
    requires Built(z)
  {
    BreakTime(seconds + FindByUtc(z, seconds).utcOffset)
  }

  function FromLocalTime(z: Zone, dt: DateTime, postTransition: bool): int
    requires Built(z)
  {
    FromUtcTime(dt) - FindByLocal(z, FromUtcTime(dt), postTransition).utcOffset
  }

  /** fromLocalTime(toLocalTime(t)) = t for every instant whose local time is unique. */
  lemma LocalTimeRoundTrip(z: Zone, t: int, postTransition: bool)
    requires WellSeparated(z) && MIN_TIME <= LocalOf(z, t) && Unique(z, LocalOf(z, t))
    ensures FromLocalTime(z, ToLocalTime(z, t), postTransition) == t
  {
    hide FindByUtc, FindByLocal, BreakTime, FromUtcTime;
    TimeRoundTrip(LocalOf(z, t));
    UniqueRoundTrip(z, t, postTransition);
  }

  /** The other way: a civil time that some instant shows is shown by the instant it is mapped to. */
  lemma CivilTimeIsShown(z: Zone, dt: DateTime, t: int, postTransition: bool)
    requires WellSeparated(z) && ValidTime(dt) && ToLocalTime(z, t) == dt && MIN_TIME <= LocalOf(z, t)
    ensures ToLocalTime(z, FromLocalTime(z, dt, postTransition)) == dt
  {
    hide FindByUtc, FindByLocal, BreakTime, FromUtcTime;
    TimeRoundTrip(LocalOf(z, t));
    ShownAgain(z, t, postTransition);
  }

  lemma ShownAgain(z: Zone, t: int, postTransition: bool)
    requires WellSeparated(z)
    ensures LocalOf(z, UtcOf(z, LocalOf(z, t), postTransition)) == LocalOf(z, t)
  {
    var l, n := LocalOf(z, t), |z.transitions|;
    var i := PeriodOf(z, t);
    PeriodOffset(z, t, i);
    PeriodHolds(z, l, i);
    if i + 1 < n && Start(z, i + 1) <= l {
      OverlapMaps(z, l, i + 1, postTransition);
    } else if i >= 0 && l < End(z, i) {
      OverlapMaps(z, l, i, postTransition);
    } else if i >= 0 {
      LocalSearch(z, l, i + 1);
    }
  }

  lemma OverlapMaps(z: Zone, l: int, i: nat, postTransition: bool)
    requires WellSeparated(z) && i < |z.transitions| && Start(z, i) <= l < End(z, i)
    ensures LocalOf(z, UtcOf(z, l, postTransition)) == l
  {
    if 0 < i < |z.transitions| - 1 {
      RepeatedInterior(z, l, i);
    } else {
      RepeatedAtTheEnds(z, l, i, postTransition);
      OverlapIsTwofold(z, l, i);
    }
  }
}
