// What the reference-count protocol keeps safe, and the runs in which it does not.
module ReferenceSafety {
  import opened Basics
  import opened ReferenceCounts

  /**
   The difference between the count of an MD5 and its references is exactly what leaked, in every run:
   so the count covers the references if and only if the leaks do not sum up below zero.
   */
  lemma CoveredExactly(run: seq<Event>, md5: string)
    ensures Count(After(Initial(), run), md5) >= References(After(Initial(), run), md5)
            <==> Leaked(Initial(), run, md5) >= 0
  {
    Conservation(Initial(), run, md5);
    assert RowsOf({}, md5) == {};
  }

  ghost predicate AtRest(w: World) {
    forall i :: 0 <= i < |w.tasks| ==> w.tasks[i].at.Done?
  }

  lemma {:induction false} NothingOwedAtRest(tasks: seq<Task>, md5: string)
    requires forall i :: 0 <= i < |tasks| ==> tasks[i].at.Done?
    ensures Owed(tasks, md5) == 0
  {
    if tasks != [] {
      NothingOwedAtRest(tasks[1..], md5);
    }
  }

  // When no handler is in flight, the count is the number of rows if and only if nothing leaked.
  lemma ExactAtRest(run: seq<Event>, md5: string)
    requires AtRest(After(Initial(), run))
    ensures Count(After(Initial(), run), md5) == |RowsOf(After(Initial(), run).rows, md5)|
            <==> Leaked(Initial(), run, md5) == 0
  {
    Conservation(Initial(), run, md5);
    NothingOwedAtRest(After(Initial(), run).tasks, md5);
    assert RowsOf({}, md5) == {};
  }

  // ---------- orderly runs ----------

  /**
   The two things the protocol relies on.  No delete looks up a row that another delete is about to
   remove.  An insertion into `file_info` fails only because the MD5 is there.
   */
  ghost predicate Orderly(w: World, e: Event) {
    e.Advanced? && e.task < |w.tasks| ==>
      var t := w.tasks[e.task];
      && (t.at.FindRow? && e.ok ==>
            forall j :: 0 <= j < |w.tasks| && w.tasks[j].at.DropRow? ==> w.tasks[j].row != t.row)
      && (t.at.InsertRecord? && !e.ok ==> t.row.md5 in w.files)
  }

  ghost predicate OrderlyRun(w: World, run: seq<Event>)
    decreases |run|
  {
    run == [] || (Orderly(w, run[0]) && OrderlyRun(Apply(w, run[0]), run[1..]))
  }

  ghost predicate Sure(w: World, t: Task) {
    (t.at.DropRow? ==> t.row in w.rows) && (t.at.AddForUpload? ==> t.row.md5 in w.files)
  }

  ghost predicate InOrder(w: World) {
    && Locked(w)
    && (forall i :: 0 <= i < |w.tasks| ==> Sure(w, w.tasks[i]))
    && (forall i, j :: 0 <= i < j < |w.tasks| && w.tasks[i].at.DropRow? && w.tasks[j].at.DropRow? ==>
          w.tasks[i].row != w.tasks[j].row)
  }

  ghost predicate KeepsTheRows(w: World, i: nat, v: World)
    requires i < |w.tasks| && i < |v.tasks|
  {
    && (forall r :: r in w.rows && r !in v.rows ==> w.tasks[i].at.DropRow? && r == w.tasks[i].row)
    && Sure(v, v.tasks[i])
    && (v.tasks[i].at.DropRow? ==> w.tasks[i].at.FindRow? || v.tasks[i] == w.tasks[i])
    && (w.tasks[i].at.DropRow? ==> !v.tasks[i].at.DropRow?)
  }

  lemma AdvanceKeepsTheRows(w: World, i: nat, ok: bool)
    requires i < |w.tasks| && InOrder(w) && Orderly(w, Advanced(i, ok))
    ensures i < |Advance(w, i, ok).tasks|
    ensures KeepsTheRows(w, i, Advance(w, i, ok))
    ensures w.tasks[i].at.FindRow? && Advance(w, i, ok).tasks[i].at.DropRow? ==> ok
  {
    assert Sure(w, w.tasks[i]);
    hide Locked;
  }

  lemma InOrderStep(w: World, e: Event)
    requires InOrder(w) && Orderly(w, e)
    ensures InOrder(Apply(w, e))
  {
    LockedStep(w, e);
    if e.Advanced? && e.task < |w.tasks| {
      var i := e.task;
      AdvanceKeepsTheLock(w, i, e.ok);
      AdvanceKeepsTheRows(w, i, e.ok);
      var v := Advance(w, i, e.ok);
      hide Advance;
      forall j | 0 <= j < |w.tasks|
        ensures Sure(v, v.tasks[j])
      {
        assert Sure(w, w.tasks[j]);
        assert Critical(w.tasks[j].at) <==> w.holder == Some(j);
        assert j != i ==> v.tasks[j] == w.tasks[j];
      }
    } else if e.Arrive? {
      var v := Apply(w, e);
      forall j | 0 <= j < |v.tasks|
        ensures Sure(v, v.tasks[j])
      {
        assert j < |w.tasks| ==> v.tasks[j] == w.tasks[j] && Sure(w, w.tasks[j]);
      }
    }
  }

  lemma NothingLost(w: World, e: Event, md5: string)
    requires InOrder(w) && Orderly(w, e)
    ensures Leak(w, e, md5) >= 0
  {
    if e.Advanced? && e.task < |w.tasks| {
      assert Sure(w, w.tasks[e.task]);
    }
    hide Locked;
  }

  lemma {:induction false} OrderlyAfter(w: World, run: seq<Event>, md5: string)
    requires InOrder(w) && OrderlyRun(w, run)
    ensures InOrder(After(w, run)) && Leaked(w, run, md5) >= 0
    decreases |run|
  {
    if run != [] {
      InOrderStep(w, run[0]);
      NothingLost(w, run[0], md5);
      OrderlyAfter(Apply(w, run[0]), run[1..], md5);
    }
  }

  // In every orderly run, whatever else fails or times out, no reference is uncounted.
  lemma CountCoversReferences(run: seq<Event>, md5: string)
    requires OrderlyRun(Initial(), run)
    ensures Count(After(Initial(), run), md5) >= References(After(Initial(), run), md5)
  {
    OrderlyAfter(Initial(), run, md5);
    CoveredExactly(run, md5);
  }

  lemma {:induction false} AfterOneMore(w: World, run: seq<Event>, e: Event)
    ensures After(w, run + [e]) == Apply(After(w, run), e)
    ensures OrderlyRun(w, run + [e]) <==> OrderlyRun(w, run) && Orderly(After(w, run), e)
    decreases |run|
  {
    if run == [] {
      assert [e][1..] == [];
      assert run + [e] == [e];
    } else {
      assert (run + [e])[1..] == run[1..] + [e];
      AfterOneMore(Apply(w, run[0]), run[1..], e);
    }
  }

  // A record is removed only when no row and no handler in flight refers to it.
  lemma RemovedOnlyWhenUnreferenced(run: seq<Event>, e: Event, md5: string)
    requires OrderlyRun(Initial(), run + [e])
    requires md5 in After(Initial(), run).files && md5 !in Apply(After(Initial(), run), e).files
    ensures forall r :: r in Apply(After(Initial(), run), e).rows ==> r.md5 != md5
    ensures Owed(Apply(After(Initial(), run), e).tasks, md5) == 0
  {
    AfterOneMore(Initial(), run, e);
    CountCoversReferences(run + [e], md5);
    var w := Apply(After(Initial(), run), e);
    assert forall r :: r in w.rows && r.md5 == md5 ==> r in RowsOf(w.rows, md5);
  }

  // Every row has a record behind it.
  lemma EveryRowHasARecord(run: seq<Event>, row: Row)
    requires OrderlyRun(Initial(), run) && row in After(Initial(), run).rows
    ensures row.md5 in After(Initial(), run).files
  {
    CountCoversReferences(run, row.md5);
    assert row in RowsOf(After(Initial(), run).rows, row.md5);
  }

  // ---------- the stored files ----------

  // A step that does not remove a new record's file behind its back.
  ghost predicate Tidy(w: World, e: Event) {
    e.Advanced? && e.task < |w.tasks| && w.tasks[e.task].at.InsertUploaded? && !w.tasks[e.task].at.known ==>
      e.ok
  }

  ghost predicate TidyRun(w: World, run: seq<Event>)
    decreases |run|
  {
    run == [] || (Tidy(w, run[0]) && TidyRun(Apply(w, run[0]), run[1..]))
  }

  // The stored file a handler alone refers to: not yet in a record, or taken out of one.
  function Held(at: Stage): Option<FileId> {
    match at
    case QueryUrl(f) => Some(f)
    case LockUpload(f) => Some(f)
    case InsertRecord(f) => Some(f)
    case AddForUpload(f) => Some(f)
    case InsertUploaded(f, known) => if known then Some(f) else None
    case UnlockUpload(f, known, ret) => if known || ret < 0 then Some(f) else None
    case CleanUp(f, _) => Some(f)
    case UnlockDelete(last, ret) => if ret == 0 then last else None
    case RemoveFile(f) => Some(f)
    case _ => None
  }

  ghost predicate Filed(w: World, m: string)
    requires m in w.files
  {
    w.files[m].file in w.stored
  }

  ghost predicate Apart(w: World, t: Task) {
    Held(t.at).Some? ==>
      Held(t.at).value in w.stored && (forall m :: m in w.files ==> w.files[m].file != Held(t.at).value)
  }

  ghost predicate Stored(w: World) {
    && (forall f :: f in w.stored ==> f < w.minted)
    && (forall m :: m in w.files ==> Filed(w, m))
    && (forall m, n :: m in w.files && n in w.files && w.files[m].file == w.files[n].file ==> m == n)
    && (forall i :: 0 <= i < |w.tasks| ==> Apart(w, w.tasks[i]))
    && (forall i, j :: 0 <= i < j < |w.tasks| && Held(w.tasks[i].at).Some? ==>
          Held(w.tasks[i].at) != Held(w.tasks[j].at))
  }

  predicate OfStorage(at: Stage) {
    at.QueryUrl? || at.CleanUp? || at.RemoveFile?
  }

  // The storage obeys: it tells the URL of a new file, and removes a file when told to.
  ghost predicate Swept(w: World, e: Event) {
    e.Advanced? && e.task < |w.tasks| && OfStorage(w.tasks[e.task].at) ==> e.ok
  }

  ghost predicate SweptRun(w: World, run: seq<Event>)
    decreases |run|
  {
    run == [] || (Swept(w, run[0]) && SweptRun(Apply(w, run[0]), run[1..]))
  }

  // How the owner of a stored file changes in one step of task i.
  ghost predicate KeepsTheStore(w: World, i: nat, ok: bool, v: World)
    requires i < |w.tasks| && i < |v.tasks|
  {
    var before, after := Held(w.tasks[i].at), Held(v.tasks[i].at);
    && v.minted >= w.minted
    && (forall m :: m in v.files ==>
          || (m in w.files && v.files[m].file == w.files[m].file)
          || (m !in w.files && before == Some(v.files[m].file) && after == None && m == w.tasks[i].row.md5))
    && (forall m :: m in w.files && m !in v.files ==> after == Some(w.files[m].file) && before == None)
    && (after == None
        || after == before
        || (before == None && after == Some(w.minted) && v.minted == w.minted + 1 && w.minted in v.stored)
        || (before == None && exists m :: m in w.files && m !in v.files && after == Some(w.files[m].file)))
    && (forall f :: f in v.stored && f !in w.stored ==> after == Some(f))
    && (forall f :: f in w.stored && f !in v.stored ==> before == Some(f) && after == None && v.files == w.files)
    && (before.Some? && after == None && Swept(w, Advanced(i, ok)) ==>
          || before.value !in v.stored
          || (w.tasks[i].row.md5 in v.files && v.files[w.tasks[i].row.md5].file == before.value))
  }

  lemma DeleteKeepsTheStore(w: World, i: nat, ok: bool)
    requires i < |w.tasks| && OfDelete(w.tasks[i].at) && Knows(w.files, w.tasks[i])
    ensures i < |DeleteStep(w, i, ok).tasks|
    ensures KeepsTheStore(w, i, ok, DeleteStep(w, i, ok))
  {
    if w.tasks[i].at.ChangeCount? && w.tasks[i].at.found.count == 1 && ok {
      assert w.tasks[i].row.md5 in w.files && w.tasks[i].row.md5 !in DeleteStep(w, i, ok).files;
    }
  }

  lemma SaveKeepsTheStore(w: World, i: nat, ok: bool)
    requires i < |w.tasks| && OfSave(w.tasks[i].at)
    ensures i < |SaveStep(w, i, ok).tasks|
    ensures KeepsTheStore(w, i, ok, SaveStep(w, i, ok))
  {
  }

  lemma Md5KeepsTheStore(w: World, i: nat, ok: bool)
    requires i < |w.tasks| && OfMd5(w.tasks[i].at)
    ensures i < |Md5Step(w, i, ok).tasks|
    ensures KeepsTheStore(w, i, ok, Md5Step(w, i, ok))
  {
  }

  predicate Filing(at: Stage) {
    at.StoreFile? || at.QueryUrl? || at.LockUpload? || at.InsertRecord? || at.AddForUpload?
  }

  lemma FilingKeepsTheStore(w: World, i: nat, ok: bool)
    requires i < |w.tasks| && Filing(w.tasks[i].at)
    requires forall f :: f in w.stored ==> f < w.minted
    ensures i < |UploadStep(w, i, ok).tasks|
    ensures KeepsTheStore(w, i, ok, UploadStep(w, i, ok))
  {
  }

  lemma ClosingKeepsTheStore(w: World, i: nat, ok: bool)
    requires i < |w.tasks|
    requires !Filing(w.tasks[i].at) && !OfDelete(w.tasks[i].at) && !OfSave(w.tasks[i].at) && !OfMd5(w.tasks[i].at)
    requires Tidy(w, Advanced(i, ok)) && Knows(w.files, w.tasks[i])
    requires w.tasks[i].at.InsertUploaded? && !w.tasks[i].at.known ==> w.tasks[i].row !in w.rows
    ensures i < |UploadStep(w, i, ok).tasks|
    ensures KeepsTheStore(w, i, ok, UploadStep(w, i, ok))
  {
  }

  lemma {:induction false} OwedAtLeast(tasks: seq<Task>, i: nat, md5: string)
    requires i < |tasks|
    ensures Owed(tasks, md5) >= Owes(tasks[i], md5)
  {
    if i > 0 {
      OwedAtLeast(tasks[1..], i - 1, md5);
    }
  }

  // An upload that has just written a new record finds no row of that MD5.
  lemma NewRecordHasNoRow(w: World, i: nat)
    requires InOrder(w) && i < |w.tasks| && w.tasks[i].at.InsertUploaded? && !w.tasks[i].at.known
    requires Count(w, w.tasks[i].row.md5) >= References(w, w.tasks[i].row.md5)
    ensures w.tasks[i].row !in w.rows
  {
    var md5 := w.tasks[i].row.md5;
    assert Knows(w.files, w.tasks[i]);
    OwedAtLeast(w.tasks, i, md5);
    var row := w.tasks[i].row;
    assert row in RowsOf(w.rows, md5) <==> row in w.rows;
  }

  lemma AdvanceKeepsTheStore(w: World, i: nat, ok: bool)
    requires i < |w.tasks| && InOrder(w) && Tidy(w, Advanced(i, ok))
    requires Count(w, w.tasks[i].row.md5) >= References(w, w.tasks[i].row.md5)
    requires forall f :: f in w.stored ==> f < w.minted
    ensures i < |Advance(w, i, ok).tasks|
    ensures KeepsTheStore(w, i, ok, Advance(w, i, ok))
  {
    AdvanceKeepsTheLock(w, i, ok);
    assert Knows(w.files, w.tasks[i]);
    if w.tasks[i].at.InsertUploaded? && !w.tasks[i].at.known {
      NewRecordHasNoRow(w, i);
    }
    hide KeepsTheStore, KeepsTheLock, DeleteStep, SaveStep, Md5Step, UploadStep, Locked, InOrder, Knows;
    if OfDelete(w.tasks[i].at) {
      DeleteKeepsTheStore(w, i, ok);
    } else if OfSave(w.tasks[i].at) {
      SaveKeepsTheStore(w, i, ok);
    } else if OfMd5(w.tasks[i].at) {
      Md5KeepsTheStore(w, i, ok);
    } else if Filing(w.tasks[i].at) {
      FilingKeepsTheStore(w, i, ok);
    } else {
      ClosingKeepsTheStore(w, i, ok);
    }
  }

  lemma StoredStep(w: World, e: Event)
    requires InOrder(w) && Orderly(w, e) && Tidy(w, e) && Stored(w)
    requires forall m :: Count(w, m) >= References(w, m)
    ensures Stored(Apply(w, e))
  {
    if e.Advanced? && e.task < |w.tasks| {
      var i, v := e.task, Advance(w, e.task, e.ok);
      AdvanceKeepsTheLock(w, i, e.ok);
      AdvanceKeepsTheStore(w, i, e.ok);
      hide Advance, Locked, InOrder, Orderly, Tidy, Swept, Knows, Critical, Count, References, Held;
      StoredNow(w, i, e.ok, v);
    } else if e.Arrive? {
      var v := Apply(w, e);
      forall j | 0 <= j < |v.tasks|
        ensures Apart(v, v.tasks[j])
      {
        assert j < |w.tasks| ==> v.tasks[j] == w.tasks[j] && Apart(w, w.tasks[j]);
      }
      assert forall m :: m in v.files ==> Filed(w, m) && Filed(v, m);
    }
  }

  lemma StoredNow(w: World, i: nat, ok: bool, v: World)
    requires i < |w.tasks| && |v.tasks| == |w.tasks| && v.tasks == w.tasks[i := v.tasks[i]]
    requires KeepsTheStore(w, i, ok, v) && Stored(w)
    ensures Stored(v)
  {
    hide Held, Swept;
    assert Apart(w, w.tasks[i]);
    forall m | m in v.files
      ensures Filed(v, m)
    {
      assert m in w.files ==> Filed(w, m);
    }
    forall j | 0 <= j < |w.tasks|
      ensures Apart(v, v.tasks[j])
    {
      assert Apart(w, w.tasks[j]);
    }
  }

  // A stored file belongs to a record or to the one handler that will file it or remove it.
  ghost predicate Owned(w: World, f: FileId) {
    || (exists m :: m in w.files && w.files[m].file == f)
    || (exists i :: 0 <= i < |w.tasks| && Held(w.tasks[i].at) == Some(f))
  }

  ghost predicate NoGarbage(w: World) {
    forall f :: f in w.stored ==> Owned(w, f)
  }

  lemma NoGarbageStep(w: World, e: Event)
    requires InOrder(w) && Tidy(w, e) && Swept(w, e) && Stored(w) && NoGarbage(w)
    requires forall m :: Count(w, m) >= References(w, m)
    ensures NoGarbage(Apply(w, e))
  {
    if e.Advanced? && e.task < |w.tasks| {
      var i, v := e.task, Advance(w, e.task, e.ok);
      AdvanceKeepsTheLock(w, i, e.ok);
      AdvanceKeepsTheStore(w, i, e.ok);
      hide Advance, Locked, InOrder, Orderly, Tidy, Swept, Knows, Critical, Count, References, Held, Stored, Filed, Apart;
      NoGarbageNow(w, i, e.ok, v);
    } else if e.Arrive? {
      var v := Apply(w, e);
      forall f | f in v.stored
        ensures Owned(v, f)
      {
        assert Owned(w, f);
        assert forall j :: 0 <= j < |w.tasks| ==> v.tasks[j] == w.tasks[j];
      }
    }
  }

  lemma NoGarbageNow(w: World, i: nat, ok: bool, v: World)
    requires i < |w.tasks| && |v.tasks| == |w.tasks| && v.tasks == w.tasks[i := v.tasks[i]]
    requires KeepsTheStore(w, i, ok, v) && Swept(w, Advanced(i, ok)) && NoGarbage(w)
    ensures NoGarbage(v)
  {
    hide Held, Swept;
    forall f | f in v.stored
      ensures Owned(v, f)
    {
      if f in w.stored {
        assert Owned(w, f);
        if m :| m in w.files && w.files[m].file == f {
          assert m in v.files ==> v.files[m].file == f;
        } else {
          var j :| 0 <= j < |w.tasks| && Held(w.tasks[j].at) == Some(f);
          assert j != i ==> v.tasks[j] == w.tasks[j];
        }
      }
    }
  }

  lemma {:induction false} StoredAfter(w: World, run: seq<Event>)
    requires InOrder(w) && OrderlyRun(w, run) && TidyRun(w, run) && Stored(w)
    requires forall m :: Count(w, m) >= References(w, m)
    ensures Stored(After(w, run)) && InOrder(After(w, run))
    ensures SweptRun(w, run) && NoGarbage(w) ==> NoGarbage(After(w, run))
    decreases |run|
  {
    if run != [] {
      var v := Apply(w, run[0]);
      InOrderStep(w, run[0]);
      StoredStep(w, run[0]);
      forall m
        ensures Count(v, m) >= References(v, m)
      {
        BalanceStep(w, run[0], m);
        NothingLost(w, run[0], m);
      }
      if Swept(w, run[0]) && NoGarbage(w) {
        NoGarbageStep(w, run[0]);
      }
      hide Apply, InOrder, Stored, Swept, NoGarbage, Orderly, Tidy, Count, References;
      StoredAfter(v, run[1..]);
    }
  }

  lemma NothingAtFirst(m: string)
    ensures Count(Initial(), m) == 0 && References(Initial(), m) == 0
  {
    assert RowsOf({}, m) == {};
  }

  /**
   In every orderly run in which the row of a new record can be written, every row leads to a file that is
   still stored.
   */
  lemma EveryRowHasItsFile(run: seq<Event>, row: Row)
    requires OrderlyRun(Initial(), run) && TidyRun(Initial(), run)
    requires row in After(Initial(), run).rows
    ensures row.md5 in After(Initial(), run).files
    ensures After(Initial(), run).files[row.md5].file in After(Initial(), run).stored
  {
    EveryRowHasARecord(run, row);
    forall m
      ensures Count(Initial(), m) >= References(Initial(), m)
    {
      NothingAtFirst(m);
    }
    StoredAfter(Initial(), run);
    assert Filed(After(Initial(), run), row.md5);
  }

  function FilesOf(files: map<string, Record>): set<FileId> {
    set m | m in files :: files[m].file
  }

  // If the storage also obeys, then at rest it holds the files of the records and nothing else.
  lemma StorageIsExactAtRest(run: seq<Event>)
    requires OrderlyRun(Initial(), run) && TidyRun(Initial(), run) && SweptRun(Initial(), run)
    requires AtRest(After(Initial(), run))
    ensures After(Initial(), run).stored == FilesOf(After(Initial(), run).files)
  {
    forall m
      ensures Count(Initial(), m) >= References(Initial(), m)
    {
      NothingAtFirst(m);
    }
    StoredAfter(Initial(), run);
    var w := After(Initial(), run);
    hide After, OrderlyRun, TidyRun, SweptRun;
    forall f
      ensures f in w.stored <==> f in FilesOf(w.files)
    {
      if f in w.stored {
        assert Owned(w, f);
      }
      if f in FilesOf(w.files) {
        var m :| m in w.files && w.files[m].file == f;
        assert Filed(w, m);
      }
    }
  }
}
