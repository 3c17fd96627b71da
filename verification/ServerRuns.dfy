/**
 Runs from the empty server that break what orderly runs keep.

 A handler among others that have ended does what it does alone: its steps are those of the only task,
 with the numbers of the tasks moved up.
 */
module ServerRuns {
  import opened Basics
  import opened ReferenceCounts
  import opened ReferenceSafety
  import opened StorageLedger
  import F = FileServer

  function Lift(w: World, ended: seq<Task>): World {
    w.(tasks := ended + w.tasks, holder := if w.holder.Some? then Some(w.holder.value + |ended|) else None)
  }

  function ShiftEvent(e: Event, n: nat): Event {
    if e.Advanced? then Advanced(e.task + n, e.ok) else e
  }

  function Shift(run: seq<Event>, n: nat): seq<Event> {
    if run == [] then [] else [ShiftEvent(run[0], n)] + Shift(run[1..], n)
  }

  lemma LiftGo(w: World, ended: seq<Task>, i: nat, at: Stage)
    requires i < |w.tasks|
    ensures Go(Lift(w, ended), |ended| + i, at) == Lift(Go(w, i, at), ended)
  {
    assert (ended + w.tasks)[|ended| + i := Task(w.tasks[i].row, at)] == ended + w.tasks[i := Task(w.tasks[i].row, at)];
  }

  lemma LiftDelete(w: World, ended: seq<Task>, i: nat, ok: bool)
    requires i < |w.tasks| && OfDelete(w.tasks[i].at)
    ensures DeleteStep(Lift(w, ended), |ended| + i, ok) == Lift(DeleteStep(w, i, ok), ended)
  {
    LiftGo(w, ended, i, DeleteStep(w, i, ok).tasks[i].at);
    hide Go;
  }

  lemma LiftSave(w: World, ended: seq<Task>, i: nat, ok: bool)
    requires i < |w.tasks| && OfSave(w.tasks[i].at)
    ensures SaveStep(Lift(w, ended), |ended| + i, ok) == Lift(SaveStep(w, i, ok), ended)
  {
    LiftGo(w, ended, i, SaveStep(w, i, ok).tasks[i].at);
    hide Go;
  }

  lemma LiftMd5(w: World, ended: seq<Task>, i: nat, ok: bool)
    requires i < |w.tasks| && OfMd5(w.tasks[i].at)
    ensures Md5Step(Lift(w, ended), |ended| + i, ok) == Lift(Md5Step(w, i, ok), ended)
  {
    LiftGo(w, ended, i, Md5Step(w, i, ok).tasks[i].at);
    hide Go;
  }

  lemma LiftFiling(w: World, ended: seq<Task>, i: nat, ok: bool)
    requires i < |w.tasks| && Filing(w.tasks[i].at)
    ensures UploadStep(Lift(w, ended), |ended| + i, ok) == Lift(UploadStep(w, i, ok), ended)
  {
    LiftGo(w, ended, i, UploadStep(w, i, ok).tasks[i].at);
    hide Go;
  }

  lemma LiftClosing(w: World, ended: seq<Task>, i: nat, ok: bool)
    requires i < |w.tasks| && !Filing(w.tasks[i].at)
    requires !OfDelete(w.tasks[i].at) && !OfSave(w.tasks[i].at) && !OfMd5(w.tasks[i].at)
    ensures UploadStep(Lift(w, ended), |ended| + i, ok) == Lift(UploadStep(w, i, ok), ended)
  {
    LiftGo(w, ended, i, UploadStep(w, i, ok).tasks[i].at);
    hide Go;
  }

  lemma LiftEvent(w: World, ended: seq<Task>, e: Event)
    requires e.Advanced? ==> e.task < |w.tasks|
    ensures Apply(Lift(w, ended), ShiftEvent(e, |ended|)) == Lift(Apply(w, e), ended)
  {
    hide DeleteStep, SaveStep, Md5Step, UploadStep;
    match e
    case Arrive(request, row) =>
      var t := Task(row, First(request));
      assert (ended + w.tasks) + [t] == ended + (w.tasks + [t]);
    case Advanced(i, ok) =>
      assert (ended + w.tasks)[i + |ended|] == w.tasks[i];
      if OfDelete(w.tasks[i].at) {
        LiftDelete(w, ended, i, ok);
      } else if OfSave(w.tasks[i].at) {
        LiftSave(w, ended, i, ok);
      } else if OfMd5(w.tasks[i].at) {
        LiftMd5(w, ended, i, ok);
      } else if Filing(w.tasks[i].at) {
        LiftFiling(w, ended, i, ok);
      } else {
        LiftClosing(w, ended, i, ok);
      }
  }

  // The tasks of a run are there when they take their steps.
  ghost predicate Manned(w: World, run: seq<Event>)
    decreases |run|
  {
    run == [] || ((run[0].Advanced? ==> run[0].task < |w.tasks|) && Manned(Apply(w, run[0]), run[1..]))
  }

  lemma {:induction false} LiftRun(w: World, ended: seq<Task>, run: seq<Event>)
    requires Manned(w, run)
    ensures After(Lift(w, ended), Shift(run, |ended|)) == Lift(After(w, run), ended)
    decreases |run|
  {
    if run != [] {
      LiftEvent(w, ended, run[0]);
      hide Apply, Lift;
      LiftRun(Apply(w, run[0]), ended, run[1..]);
      assert Shift(run, |ended|)[1..] == Shift(run[1..], |ended|);
    }
  }

  lemma {:induction false} AfterBoth(w: World, a: seq<Event>, b: seq<Event>)
    ensures After(w, a + b) == After(After(w, a), b)
    decreases |a|
  {
    hide Apply;
    if a == [] {
      assert a + b == b;
    } else {
      assert (a + b)[1..] == a[1..] + b;
      AfterBoth(Apply(w, a[0]), a[1..], b);
    }
  }

  // ---------- one request after the other ----------

  // A request of which every statement succeeds, among n that have ended.
  function Serve(n: nat, request: Request, row: Row, ok: seq<bool>): seq<Event> {
    [Arrive(request, row)] + Shift(F.Outcomes(ok, 0), n)
  }

  // Only tasks below n take steps.
  predicate AllBelow(run: seq<Event>, n: nat) {
    forall k :: 0 <= k < |run| ==> run[k].Advanced? && run[k].task < n
  }

  lemma TasksStay(w: World, i: nat, ok: bool)
    requires i < |w.tasks|
    ensures |Apply(w, Advanced(i, ok)).tasks| == |w.tasks|
  {
    hide Increment;
  }

  lemma {:induction false} AllThere(w: World, run: seq<Event>)
    requires AllBelow(run, |w.tasks|)
    ensures Manned(w, run)
    decreases |run|
  {
    if run != [] {
      TasksStay(w, run[0].task, run[0].ok);
      hide Apply;
      AllThere(Apply(w, run[0]), run[1..]);
    }
  }

  lemma {:induction false} OutcomesOfTheFirst(ok: seq<bool>, k: nat)
    ensures AllBelow(F.Outcomes(ok, k), 1)
    decreases |ok| - k
  {
    if k < |ok| {
      OutcomesOfTheFirst(ok, k + 1);
    }
  }

  lemma ServeIsServed(w: World, request: Request, row: Row, ok: seq<bool>)
    requires w.holder == None
    ensures After(w, Serve(|w.tasks|, request, row, ok)) ==
            Lift(F.Alone(w.(tasks := [Task(row, First(request))]), ok, 0), w.tasks)
  {
    var one := w.(tasks := [Task(row, First(request))]);
    var run := F.Outcomes(ok, 0);
    assert Apply(w, Arrive(request, row)) == Lift(one, w.tasks);
    OutcomesOfTheFirst(ok, 0);
    AllThere(one, run);
    hide Apply;
    LiftRun(one, w.tasks, run);
    F.AloneIsARun(one, ok, 0);
    assert Serve(|w.tasks|, request, row, ok)[1..] == Shift(run, |w.tasks|);
    hide Lift, Shift;
  }

  // ---------- two deletes of one row ----------

  // A row is uploaded, another user saves the file, and then two deletes of the first row overlap.
  function TwoDeletesRun(row: Row, other: Row): seq<Event> {
    Serve(0, UploadFile, row, F.Yes(7)) + Serve(1, SaveFile, other, F.Yes(7))
    + [Arrive(DeleteFile, row), Arrive(DeleteFile, row)] + Shift(F.TwoDeletes(row), 2)
  }

  lemma Uploaded(row: Row)
    ensures After(Initial(), Serve(0, UploadFile, row, F.Yes(7))) ==
            World(map[row.md5 := Record(1, 0)], {row}, {0}, 1, None, [Task(row, Done(0))])
  {
    ServeIsServed(Initial(), UploadFile, row, F.Yes(7));
    F.UploadServed(Initial(), row);
    hide After, Serve;
  }

  lemma SavedAfter(w: World, other: Row)
    requires w.holder == None && other !in w.rows && other.md5 in w.files
    ensures After(w, Serve(|w.tasks|, SaveFile, other, F.Yes(7))) ==
            w.(files := Increment(w.files, other.md5), rows := w.rows + {other}, tasks := w.tasks + [Task(other, Done(0))])
  {
    ServeIsServed(w, SaveFile, other, F.Yes(7));
    F.SaveServed(w, other);
    hide After, Serve, Increment;
  }

  lemma AfterTwo(w: World, a: Event, b: Event)
    ensures After(w, [a, b]) == Apply(Apply(w, a), b)
  {
    hide Apply, After;
    F.AfterFirst(w, [a, b]);
    F.AfterFirst(Apply(w, a), [b]);
    assert [a, b][1..] == [b] && [b][1..] == [];
    F.AfterNothing(Apply(Apply(w, a), b), []);
  }

  lemma Arrives(w: World, request: Request, row: Row)
    ensures Apply(w, Arrive(request, row)) == w.(tasks := w.tasks + [Task(row, First(request))])
  {
  }

  lemma LiftIdle(w: World, ended: seq<Task>)
    requires w.holder == None
    ensures Lift(w, ended) == w.(tasks := ended + w.tasks)
  {
  }

  lemma TwoArrive(w: World, row: Row)
    requires w.holder == None
    ensures After(w, [Arrive(DeleteFile, row), Arrive(DeleteFile, row)]) ==
            Lift(w.(tasks := [Task(row, FindRow), Task(row, FindRow)]), w.tasks)
  {
    hide After, Apply, Lift;
    var e, t := Arrive(DeleteFile, row), Task(row, FindRow);
    AfterTwo(w, e, e);
    Arrives(w, DeleteFile, row);
    Arrives(Apply(w, e), DeleteFile, row);
    LiftIdle(w.(tasks := [t, t]), w.tasks);
    assert w.tasks + [t] + [t] == w.tasks + [t, t];
  }

  // Two users have the file.
  function TwoUsers(row: Row, other: Row): World {
    World(map[row.md5 := Record(2, 0)], {row, other}, {0}, 1, None, [Task(row, Done(0)), Task(other, Done(0))])
  }

  lemma TwoUsersAfter(row: Row, other: Row)
    requires row != other && row.md5 == other.md5
    ensures After(Initial(), Serve(0, UploadFile, row, F.Yes(7)) + Serve(1, SaveFile, other, F.Yes(7))) == TwoUsers(row, other)
  {
    var a, b := Serve(0, UploadFile, row, F.Yes(7)), Serve(1, SaveFile, other, F.Yes(7));
    Uploaded(row);
    SavedAfter(After(Initial(), a), other);
    AfterBoth(Initial(), a, b);
    hide After, Serve;
  }

  lemma TwoDeletesShifted(w: World, row: Row, other: Row)
    requires w.holder == None && row != other && row.md5 == other.md5 && |w.tasks| == 2
    requires row in w.rows && other in w.rows && row.md5 in w.files && w.files[row.md5].count == 2
    ensures var two := w.(tasks := [Task(row, FindRow), Task(row, FindRow)]);
            var v := After(Lift(two, w.tasks), Shift(F.TwoDeletes(row), 2));
            other in v.rows && other.md5 !in v.files
  {
    var two := w.(tasks := [Task(row, FindRow), Task(row, FindRow)]);
    var d := F.TwoDeletes(row);
    assert AllBelow(d, 2);
    hide After, Lift, F.TwoDeletes, Shift;
    F.TwoDeletesLoseTheRecord(w, row, other);
    AllThere(two, d);
    LiftRun(two, w.tasks, d);
    LiftTables(After(two, d), w.tasks);
  }

  // The other user's row is left without a record, in a run from the empty server.
  lemma TwoDeletesFromTheStart(row: Row, other: Row)
    requires row != other && row.md5 == other.md5
    ensures var v := After(Initial(), TwoDeletesRun(row, other)); other in v.rows && other.md5 !in v.files
  {
    hide After, Serve, Lift, F.TwoDeletes, Shift;
    var a, b := Serve(0, UploadFile, row, F.Yes(7)), Serve(1, SaveFile, other, F.Yes(7));
    var c, d := [Arrive(DeleteFile, row), Arrive(DeleteFile, row)], Shift(F.TwoDeletes(row), 2);
    TwoUsersAfter(row, other);
    var w := TwoUsers(row, other);
    TwoArrive(w, row);
    TwoDeletesShifted(w, row, other);
    AfterBoth(Initial(), a + b, c);
    AfterBoth(Initial(), a + b + c, d);
  }

  lemma LiftTables(w: World, ended: seq<Task>)
    ensures Lift(w, ended).rows == w.rows && Lift(w, ended).files == w.files && Lift(w, ended).stored == w.stored
  {
  }

  // ---------- a record without its file ----------

  // No delete looks up its row, and no insertion of a record fails.
  predicate Calm(w: World, e: Event) {
    e.Advanced? && e.task < |w.tasks| ==>
      !w.tasks[e.task].at.FindRow? && (w.tasks[e.task].at.InsertRecord? ==> e.ok)
  }

  ghost predicate CalmRun(w: World, run: seq<Event>)
    decreases |run|
  {
    run == [] || (Calm(w, run[0]) && CalmRun(Apply(w, run[0]), run[1..]))
  }

  lemma {:induction false} CalmIsOrderly(w: World, run: seq<Event>)
    requires CalmRun(w, run)
    ensures OrderlyRun(w, run)
    decreases |run|
  {
    if run != [] {
      assert Orderly(w, run[0]);
      hide Apply, Calm, Orderly;
      CalmIsOrderly(Apply(w, run[0]), run[1..]);
    }
  }

  lemma {:induction false} CalmBoth(w: World, a: seq<Event>, b: seq<Event>)
    requires CalmRun(w, a) && CalmRun(After(w, a), b)
    ensures CalmRun(w, a + b)
    decreases |a|
  {
    hide Apply, Calm;
    if a == [] {
      assert a + b == b;
    } else {
      assert (a + b)[1..] == a[1..] + b;
      CalmBoth(Apply(w, a[0]), a[1..], b);
    }
  }

  lemma {:induction false} CalmLifted(w: World, ended: seq<Task>, run: seq<Event>)
    requires Manned(w, run) && CalmRun(w, run)
    ensures CalmRun(Lift(w, ended), Shift(run, |ended|))
    decreases |run|
  {
    if run != [] {
      LiftEvent(w, ended, run[0]);
      assert Calm(Lift(w, ended), ShiftEvent(run[0], |ended|));
      hide Apply, Lift, Calm;
      CalmLifted(Apply(w, run[0]), ended, run[1..]);
      assert Shift(run, |ended|)[1..] == Shift(run[1..], |ended|);
    }
  }

  lemma CalmServe(w: World, request: Request, row: Row, ok: seq<bool>)
    requires w.holder == None && CalmRun(w.(tasks := [Task(row, First(request))]), F.Outcomes(ok, 0))
    ensures CalmRun(w, Serve(|w.tasks|, request, row, ok))
  {
    var one := w.(tasks := [Task(row, First(request))]);
    var run := F.Outcomes(ok, 0);
    assert Apply(w, Arrive(request, row)) == Lift(one, w.tasks);
    OutcomesOfTheFirst(ok, 0);
    AllThere(one, run);
    CalmLifted(one, w.tasks, run);
    hide Apply, Lift, Shift;
    assert Serve(|w.tasks|, request, row, ok)[1..] == Shift(run, |w.tasks|);
  }

  lemma SaveStaysASave(w: World, ok: bool)
    requires |w.tasks| == 1 && (OfSave(w.tasks[0].at) || w.tasks[0].at.Done?)
    ensures var v := Apply(w, Advanced(0, ok));
            |v.tasks| == 1 && (OfSave(v.tasks[0].at) || v.tasks[0].at.Done?)
  {
  }

  lemma {:induction false} SavesAreCalm(w: World, ok: seq<bool>, k: nat)
    requires |w.tasks| == 1 && (OfSave(w.tasks[0].at) || w.tasks[0].at.Done?)
    ensures CalmRun(w, F.Outcomes(ok, k))
    decreases |ok| - k
  {
    if k < |ok| {
      SaveStaysASave(w, ok[k]);
      hide Apply;
      SavesAreCalm(Apply(w, Advanced(0, ok[k])), ok, k + 1);
      assert F.Outcomes(ok, k)[1..] == F.Outcomes(ok, k + 1);
    }
  }

  // The outcomes of an upload whose row cannot be written.
  function NoRow(): seq<bool> { [true, true, true, true, false, true, true] }

  lemma {:induction false} NoRowIsCalm(row: Row, k: nat)
    requires k <= 7
    ensures CalmRun(F.FailedRowAt(row, k), F.Outcomes(NoRow(), k))
    decreases 7 - k
  {
    if k < 7 {
      F.FailedRowStep(row, k);
      NoRowIsCalm(row, k + 1);
      assert F.Outcomes(NoRow(), k)[1..] == F.Outcomes(NoRow(), k + 1);
      assert Calm(F.FailedRowAt(row, k), Advanced(0, NoRow()[k]));
      hide Apply, Calm, F.FailedRowAt;
    }
  }

  // After it another user saves the file.
  function LostFileRun(row: Row, other: Row): seq<Event> {
    Serve(0, UploadFile, row, NoRow()) + Serve(1, SaveFile, other, F.Yes(7))
  }

  lemma NoRowAfter(row: Row)
    ensures After(Initial(), Serve(0, UploadFile, row, NoRow())) ==
            World(map[row.md5 := Record(1, 0)], {}, {}, 1, None, [Task(row, Done(-1))])
    ensures CalmRun(Initial(), Serve(0, UploadFile, row, NoRow()))
  {
    hide After, Serve, CalmRun, F.Alone, Apply, F.Outcomes;
    ServeIsServed(Initial(), UploadFile, row, NoRow());
    F.FailedRowEnds(row);
    NoRowIsCalm(row, 0);
    CalmServe(Initial(), UploadFile, row, NoRow());
  }

  // In an orderly run the saved row leads to a record whose file is gone: one that was lost.
  lemma LostFileFromTheStart(row: Row, other: Row)
    requires row.md5 == other.md5
    ensures OrderlyRun(Initial(), LostFileRun(row, other))
    ensures var w := After(Initial(), LostFileRun(row, other));
            && AtRest(w) && other in w.rows && other.md5 in w.files
            && w.files[other.md5].file !in w.stored && w.files[other.md5].file in Lost(LostFileRun(row, other))
            && !RowsLeadToFiles(w)
  {
    var a, b := Serve(0, UploadFile, row, NoRow()), Serve(1, SaveFile, other, F.Yes(7));
    NoRowAfter(row);
    var w1 := World(map[row.md5 := Record(1, 0)], {}, {}, 1, None, [Task(row, Done(-1))]);
    hide After, Serve, Lost, CalmRun, OrderlyRun;
    SavedAfter(w1, other);
    AfterBoth(Initial(), a, b);
    FileLedger(a + b, other.md5);
    SavesAreCalm(w1.(tasks := [Task(other, CheckSave)]), F.Yes(7), 0);
    CalmServe(w1, SaveFile, other, F.Yes(7));
    CalmBoth(Initial(), a, b);
    CalmIsOrderly(Initial(), a + b);
  }
}
