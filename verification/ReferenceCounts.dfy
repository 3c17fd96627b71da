/**
 The reference-count protocol of the file server.

 A file is stored once per MD5 value.  `file_info` keeps one record per MD5, with a reference count;
 `user_file_list` keeps one row per user, MD5 and name.  Four handlers change the two tables: upload,
 save, delete and the instant-upload query.  They run concurrently, one SQL statement at a time.  The
 count is changed under an in-process lock; the rows are partly changed outside it.

 `Advance` is one statement of one handler.  Its Boolean says how the statement, the wait for the lock
 or the storage command came out.
 */
module ReferenceCounts {
  import opened Basics

  type FileId = nat

  datatype Row = Row(user: string, md5: string, name: string)

  datatype Record = Record(count: int, file: FileId)

  // Where a handler stands: the statement it executes next, with its local variables.
  datatype Stage =
    // handleDeleteFile
    | FindRow
    | DropRow
    | LockToDrop
    | ReadCount
    | ChangeCount(found: Record)
    | UnlockDelete(last: Option<FileId>, ret: int)
    | RemoveFile(file: FileId)
      // handleSaveFile
    | CheckSave
    | LockToSave
    | AddForSave
    | UnlockSave(counted: bool)
    | InsertSaved
      // ApiUpload and storeFileinfo
    | StoreFile
    | QueryUrl(file: FileId)
    | LockUpload(file: FileId)
    | InsertRecord(file: FileId)
    | AddForUpload(file: FileId)
    | InsertUploaded(file: FileId, known: bool)
    | UnlockUpload(file: FileId, known: bool, ret: int)
    | CleanUp(file: FileId, ret: int)
      // handleDealMd5
    | CheckMd5
    | LockMd5
    | AddForMd5
    | UnlockMd5
    | Done(ret: int)

  datatype Task = Task(row: Row, at: Stage)

  datatype World = World(
    files: map<string, Record>,
    rows: set<Row>,
    stored: set<FileId>,
    minted: nat,
    holder: Option<nat>,
    tasks: seq<Task>)

  datatype Request = DeleteFile | SaveFile | UploadFile | QueryMd5

  datatype Event = Arrive(request: Request, row: Row) | Advanced(task: nat, ok: bool)

  function First(request: Request): Stage {
    match request
    case DeleteFile => FindRow
    case SaveFile => CheckSave
    case UploadFile => StoreFile
    case QueryMd5 => CheckMd5
  }

  function Increment(files: map<string, Record>, md5: string): map<string, Record> {
    if md5 in files then files[md5 := Record(files[md5].count + 1, files[md5].file)] else files
  }

  function Go(w: World, i: nat, at: Stage): World
    requires i < |w.tasks|
  {
    w.(tasks := w.tasks[i := Task(w.tasks[i].row, at)])
  }

  // The lock is taken when it is free and the wait has not run out.
  function Acquire(w: World, i: nat, ok: bool, inside: Stage, late: Stage): World
    requires i < |w.tasks|
  {
    if ok && w.holder == None then Go(w, i, inside).(holder := Some(i)) else Go(w, i, late)
  }

  function Release(w: World, i: nat, next: Stage): World
    requires i < |w.tasks|
  {
    Go(w, i, next).(holder := None)
  }

  function DeleteStep(w: World, i: nat, ok: bool): World
    requires i < |w.tasks|
  {
    var row, at := w.tasks[i].row, w.tasks[i].at;
    match at
    case FindRow => Go(w, i, if ok && row in w.rows then DropRow else Done(1))
    case DropRow =>
      if ok then Go(w, i, LockToDrop).(rows := w.rows - {row}) else Go(w, i, Done(1))
    // a handler that waits too long for the lock goes on with count 0 and reports success
    case LockToDrop => Acquire(w, i, ok, ReadCount, Done(0))
    case ReadCount =>
      Go(w, i, if ok && row.md5 in w.files then ChangeCount(w.files[row.md5]) else UnlockDelete(None, 1))
    case ChangeCount(found) =>
      if found.count > 1 then
        if ok && row.md5 in w.files then
          Go(w, i, UnlockDelete(None, 0)).(
            files := w.files[row.md5 := Record(w.files[row.md5].count - 1, w.files[row.md5].file)])
        else Go(w, i, UnlockDelete(None, -1))
      else if found.count == 1 then
        if ok then Go(w, i, UnlockDelete(Some(found.file), 0)).(files := w.files - {row.md5})
        else Go(w, i, UnlockDelete(None, -1))
      else Go(w, i, UnlockDelete(None, 0))
    case UnlockDelete(last, ret) =>
      Release(w, i, if ret != 0 then Done(1) else if last.Some? then RemoveFile(last.value) else Done(0))
    case RemoveFile(file) =>
      if ok then Go(w, i, Done(0)).(stored := w.stored - {file}) else Go(w, i, Done(1))
    case _ => w
  }

  function SaveStep(w: World, i: nat, ok: bool): World
    requires i < |w.tasks|
  {
    var row, at := w.tasks[i].row, w.tasks[i].at;
    match at
    // a failed query counts as "no such row"
    case CheckSave => Go(w, i, if ok && row in w.rows then Done(5) else LockToSave)
    case LockToSave => Acquire(w, i, ok, AddForSave, Done(1))
    // an update of no row is a failure here
    case AddForSave =>
      if ok && row.md5 in w.files then Go(w, i, UnlockSave(true)).(files := Increment(w.files, row.md5))
      else Go(w, i, UnlockSave(false))
    case UnlockSave(counted) => Release(w, i, if counted then InsertSaved else Done(1))
    // user, md5 and name together are a unique key
    case InsertSaved =>
      if ok && row !in w.rows then Go(w, i, Done(0)).(rows := w.rows + {row}) else Go(w, i, Done(1))
    case _ => w
  }

  function UploadStep(w: World, i: nat, ok: bool): World
    requires i < |w.tasks|
  {
    var row, at := w.tasks[i].row, w.tasks[i].at;
    match at
    case StoreFile =>
      if ok then Go(w, i, QueryUrl(w.minted)).(stored := w.stored + {w.minted}, minted := w.minted + 1)
      else Go(w, i, Done(-1))
    // without its URL the upload fails and leaves the stored file behind
    case QueryUrl(file) => Go(w, i, if ok then LockUpload(file) else Done(-1))
    case LockUpload(file) => Acquire(w, i, ok, InsertRecord(file), CleanUp(file, -1))
    case InsertRecord(file) =>
      if ok && row.md5 !in w.files then
        Go(w, i, InsertUploaded(file, false)).(files := w.files[row.md5 := Record(1, file)])
      else Go(w, i, AddForUpload(file))
    // an update of no row is a success here
    case AddForUpload(file) =>
      if ok then Go(w, i, InsertUploaded(file, true)).(files := Increment(w.files, row.md5))
      else Go(w, i, UnlockUpload(file, false, -1))
    case InsertUploaded(file, known) =>
      if ok && row !in w.rows then Go(w, i, UnlockUpload(file, known, 0)).(rows := w.rows + {row})
      else Go(w, i, UnlockUpload(file, known, -1))
    case UnlockUpload(file, known, ret) =>
      Release(w, i, if ret < 0 || known then CleanUp(file, ret) else Done(ret))
    case CleanUp(file, ret) =>
      if ok then Go(w, i, Done(ret)).(stored := w.stored - {file}) else Go(w, i, Done(ret))
    case _ => w
  }

  function Md5Step(w: World, i: nat, ok: bool): World
    requires i < |w.tasks|
  {
    var row, at := w.tasks[i].row, w.tasks[i].at;
    match at
    case CheckMd5 => Go(w, i, if ok && row in w.rows then Done(5) else LockMd5)
    case LockMd5 => Acquire(w, i, ok, AddForMd5, Done(1))
    // the branch after a successful increment leaves through the failure exit too
    case AddForMd5 =>
      if ok then Go(w, i, UnlockMd5).(files := Increment(w.files, row.md5)) else Go(w, i, UnlockMd5)
    case UnlockMd5 => Release(w, i, Done(1))
    case _ => w
  }

  predicate OfDelete(at: Stage) {
    at.FindRow? || at.DropRow? || at.LockToDrop? || at.ReadCount? || at.ChangeCount? || at.UnlockDelete? ||
    at.RemoveFile?
  }

  predicate OfSave(at: Stage) {
    at.CheckSave? || at.LockToSave? || at.AddForSave? || at.UnlockSave? || at.InsertSaved?
  }

  predicate OfMd5(at: Stage) {
    at.CheckMd5? || at.LockMd5? || at.AddForMd5? || at.UnlockMd5?
  }

  function Advance(w: World, i: nat, ok: bool): World
    requires i < |w.tasks|
  {
    var at := w.tasks[i].at;
    if OfDelete(at) then DeleteStep(w, i, ok)
    else if OfSave(at) then SaveStep(w, i, ok)
    else if OfMd5(at) then Md5Step(w, i, ok)
    else UploadStep(w, i, ok)
  }

  function Apply(w: World, e: Event): World {
    match e
    case Arrive(request, row) => w.(tasks := w.tasks + [Task(row, First(request))])
    case Advanced(i, ok) => if i < |w.tasks| then Advance(w, i, ok) else w
  }

  function Initial(): World {
    World(map[], {}, {}, 0, None, [])
  }

  function After(w: World, run: seq<Event>): World
    decreases |run|
  {
    if run == [] then w else After(Apply(w, run[0]), run[1..])
  }

  // ---------- what the count should cover ----------

  function CountIn(files: map<string, Record>, md5: string): int {
    if md5 in files then files[md5].count else 0
  }

  function Count(w: World, md5: string): int {
    CountIn(w.files, md5)
  }

  function RowsOf(rows: set<Row>, md5: string): set<Row> {
    set r | r in rows && r.md5 == md5
  }

  // A handler owes a reference between changing the count and changing the rows, in either order.
  predicate Owing(at: Stage) {
    at.LockToDrop? || at.ReadCount? || at.ChangeCount? || at.InsertSaved? || at.InsertUploaded? ||
    (at.UnlockSave? && at.counted)
  }

  function Owes(t: Task, md5: string): nat {
    if t.row.md5 == md5 && Owing(t.at) then 1 else 0
  }

  function Owed(tasks: seq<Task>, md5: string): nat {
    if tasks == [] then 0 else Owes(tasks[0], md5) + Owed(tasks[1..], md5)
  }

  function References(w: World, md5: string): nat {
    |RowsOf(w.rows, md5)| + Owed(w.tasks, md5)
  }

  /**
   How much a step adds to the difference between the count and the references.  Positive: a count that
   is raised, or not lowered, and no row changes with it.  Negative: a delete of a row that another
   delete has removed already, and an upload that goes on although there is no record to count in.
   */
  function Leak(w: World, e: Event, md5: string): int {
    if e.Arrive? || e.task >= |w.tasks| || w.tasks[e.task].row.md5 != md5 then 0
    else
      var t := w.tasks[e.task];
      match t.at
      case DropRow => if e.ok && t.row !in w.rows then -1 else 0
      case LockToDrop => if e.ok && w.holder == None then 0 else 1
      case ReadCount => if e.ok && md5 in w.files then 0 else 1
      case ChangeCount(_) => if e.ok then 0 else 1
      case InsertSaved => if e.ok && t.row !in w.rows then 0 else 1
      case InsertUploaded(_, _) => if e.ok && t.row !in w.rows then 0 else 1
      case AddForUpload(_) => if e.ok && md5 !in w.files then -1 else 0
      case AddForMd5 => if e.ok && md5 in w.files then 1 else 0
      case _ => 0
  }

  function Leaked(w: World, run: seq<Event>, md5: string): int
    decreases |run|
  {
    if run == [] then 0 else Leak(w, run[0], md5) + Leaked(Apply(w, run[0]), run[1..], md5)
  }

  // ---------- the lock ----------

  predicate Critical(at: Stage) {
    at.ReadCount? || at.ChangeCount? || at.UnlockDelete? || at.AddForSave? || at.UnlockSave? ||
    at.InsertRecord? || at.AddForUpload? || at.InsertUploaded? || at.UnlockUpload? ||
    at.AddForMd5? || at.UnlockMd5?
  }

  // What a handler inside the lock knows of the record it works on.
  predicate Knows(files: map<string, Record>, t: Task) {
    && (t.at.ChangeCount? ==> t.row.md5 in files && files[t.row.md5] == t.at.found)
    && (t.at.InsertUploaded? && !t.at.known ==>
          t.row.md5 in files && files[t.row.md5] == Record(1, t.at.file))
  }

  ghost predicate Locked(w: World) {
    && (forall i :: 0 <= i < |w.tasks| ==> (Critical(w.tasks[i].at) <==> w.holder == Some(i)))
    && (forall i :: 0 <= i < |w.tasks| ==> Knows(w.files, w.tasks[i]))
    && (forall m :: m in w.files ==> w.files[m].count >= 1)
    && (w.holder.Some? ==> w.holder.value < |w.tasks|)
  }

  // What one step of task i does to the lock and to the records.
  ghost predicate KeepsTheLock(w: World, i: nat, v: World)
    requires i < |w.tasks|
  {
    && |v.tasks| == |w.tasks|
    && v.tasks == w.tasks[i := v.tasks[i]]
    && v.tasks[i].row == w.tasks[i].row
    && (v.files != w.files ==> w.holder == Some(i))
    && (Critical(v.tasks[i].at) <==> v.holder == Some(i))
    && (v.holder == w.holder || (v.holder == Some(i) && w.holder == None) || (v.holder == None && w.holder == Some(i)))
    && Knows(v.files, v.tasks[i])
    && (forall m :: m in v.files ==> v.files[m].count >= 1)
  }

  lemma DeleteKeepsTheLock(w: World, i: nat, ok: bool)
    requires i < |w.tasks| && Locked(w) && OfDelete(w.tasks[i].at)
    ensures KeepsTheLock(w, i, DeleteStep(w, i, ok))
  {
    assert Knows(w.files, w.tasks[i]);
  }

  lemma SaveKeepsTheLock(w: World, i: nat, ok: bool)
    requires i < |w.tasks| && Locked(w) && OfSave(w.tasks[i].at)
    ensures KeepsTheLock(w, i, SaveStep(w, i, ok))
  {
  }

  lemma Md5KeepsTheLock(w: World, i: nat, ok: bool)
    requires i < |w.tasks| && Locked(w) && OfMd5(w.tasks[i].at)
    ensures KeepsTheLock(w, i, Md5Step(w, i, ok))
  {
  }

  lemma UploadKeepsTheLock(w: World, i: nat, ok: bool)
    requires i < |w.tasks| && Locked(w)
    requires !OfDelete(w.tasks[i].at) && !OfSave(w.tasks[i].at) && !OfMd5(w.tasks[i].at)
    ensures KeepsTheLock(w, i, UploadStep(w, i, ok))
  {
    assert Knows(w.files, w.tasks[i]);
  }

  // Only the holder of the lock changes the records.
  lemma AdvanceKeepsTheLock(w: World, i: nat, ok: bool)
    requires i < |w.tasks| && Locked(w)
    ensures KeepsTheLock(w, i, Advance(w, i, ok))
  {
    hide KeepsTheLock, DeleteStep, SaveStep, Md5Step, UploadStep, Locked;
    if OfDelete(w.tasks[i].at) {
      DeleteKeepsTheLock(w, i, ok);
    } else if OfSave(w.tasks[i].at) {
      SaveKeepsTheLock(w, i, ok);
    } else if OfMd5(w.tasks[i].at) {
      Md5KeepsTheLock(w, i, ok);
    } else {
      UploadKeepsTheLock(w, i, ok);
    }
  }

  lemma LockedStep(w: World, e: Event)
    requires Locked(w)
    ensures Locked(Apply(w, e))
  {
    match e
    case Arrive(request, row) =>
      var v := Apply(w, e);
      forall j | 0 <= j < |v.tasks|
        ensures (Critical(v.tasks[j].at) <==> v.holder == Some(j)) && Knows(v.files, v.tasks[j])
      {
        assert j < |w.tasks| ==> v.tasks[j] == w.tasks[j];
      }
    case Advanced(i, ok) =>
      if i < |w.tasks| {
        AdvanceKeepsTheLock(w, i, ok);
        var v := Advance(w, i, ok);
        hide Advance;
        forall j | 0 <= j < |w.tasks|
          ensures (Critical(v.tasks[j].at) <==> v.holder == Some(j)) && Knows(v.files, v.tasks[j])
        {
          assert Critical(w.tasks[j].at) <==> w.holder == Some(j);
          assert Knows(w.files, w.tasks[j]);
          assert j != i ==> v.tasks[j] == w.tasks[j];
        }
      }
  }

  lemma {:induction false} LockedAfter(w: World, run: seq<Event>)
    requires Locked(w)
    ensures Locked(After(w, run))
    decreases |run|
  {
    if run != [] {
      LockedStep(w, run[0]);
      LockedAfter(Apply(w, run[0]), run[1..]);
    }
  }

  // At most one handler is between taking and releasing the lock.
  lemma MutualExclusion(run: seq<Event>, i: nat, j: nat)
    requires i < |After(Initial(), run).tasks| && j < |After(Initial(), run).tasks|
    requires Critical(After(Initial(), run).tasks[i].at) && Critical(After(Initial(), run).tasks[j].at)
    ensures i == j
  {
    LockedAfter(Initial(), run);
  }

  // ---------- conservation ----------

  lemma {:induction false} OwedAfterChange(tasks: seq<Task>, i: nat, t: Task, md5: string)
    requires i < |tasks|
    ensures Owed(tasks[i := t], md5) == Owed(tasks, md5) - Owes(tasks[i], md5) + Owes(t, md5)
  {
    if i == 0 {
      assert tasks[0 := t][1..] == tasks[1..];
    } else {
      assert tasks[i := t][1..] == tasks[1..][i - 1 := t];
      OwedAfterChange(tasks[1..], i - 1, t, md5);
    }
  }

  lemma {:induction false} OwedAfterArrival(tasks: seq<Task>, t: Task, md5: string)
    ensures Owed(tasks + [t], md5) == Owed(tasks, md5) + Owes(t, md5)
  {
    if tasks == [] {
      assert [t][1..] == [];
      assert tasks + [t] == [t];
    } else {
      assert (tasks + [t])[1..] == tasks[1..] + [t];
      OwedAfterArrival(tasks[1..], t, md5);
    }
  }

  lemma RowInserted(rows: set<Row>, row: Row, md5: string)
    requires row !in rows
    ensures |RowsOf(rows + {row}, md5)| == |RowsOf(rows, md5)| + (if row.md5 == md5 then 1 else 0)
  {
    assert RowsOf(rows + {row}, md5) == RowsOf(rows, md5) + if row.md5 == md5 then {row} else {};
  }

  lemma RowDropped(rows: set<Row>, row: Row, md5: string)
    ensures |RowsOf(rows - {row}, md5)| ==
            |RowsOf(rows, md5)| - (if row in rows && row.md5 == md5 then 1 else 0)
  {
    assert RowsOf(rows - {row}, md5) == RowsOf(rows, md5) - {row};
  }

  predicate Ledger(w: World, i: nat, ok: bool, v: World, md5: string)
    requires i < |w.tasks| && i < |v.tasks|
  {
    CountIn(v.files, md5) - CountIn(w.files, md5) ==
    |RowsOf(v.rows, md5)| - |RowsOf(w.rows, md5)|
    + Owes(v.tasks[i], md5) - Owes(w.tasks[i], md5) + Leak(w, Advanced(i, ok), md5)
  }

  lemma DeleteLedger(w: World, i: nat, ok: bool, md5: string)
    requires i < |w.tasks| && Knows(w.files, w.tasks[i])
    requires forall m :: m in w.files ==> w.files[m].count >= 1
    ensures OfDelete(w.tasks[i].at) ==> Ledger(w, i, ok, DeleteStep(w, i, ok), md5)
  {
    RowDropped(w.rows, w.tasks[i].row, md5);
    hide RowsOf;
  }

  lemma SaveLedger(w: World, i: nat, ok: bool, md5: string)
    requires i < |w.tasks|
    ensures OfSave(w.tasks[i].at) ==> Ledger(w, i, ok, SaveStep(w, i, ok), md5)
  {
    if w.tasks[i].row !in w.rows {
      RowInserted(w.rows, w.tasks[i].row, md5);
    }
    hide RowsOf;
  }

  lemma Md5Ledger(w: World, i: nat, ok: bool, md5: string)
    requires i < |w.tasks|
    ensures OfMd5(w.tasks[i].at) ==> Ledger(w, i, ok, Md5Step(w, i, ok), md5)
  {
    hide RowsOf;
  }

  lemma UploadLedger(w: World, i: nat, ok: bool, md5: string)
    requires i < |w.tasks|
    requires !OfDelete(w.tasks[i].at) && !OfSave(w.tasks[i].at) && !OfMd5(w.tasks[i].at)
    ensures Ledger(w, i, ok, UploadStep(w, i, ok), md5)
  {
    if w.tasks[i].row !in w.rows {
      RowInserted(w.rows, w.tasks[i].row, md5);
    }
    hide RowsOf;
  }

  lemma AdvanceLedger(w: World, i: nat, ok: bool, md5: string)
    requires i < |w.tasks| && Locked(w)
    ensures |Advance(w, i, ok).tasks| == |w.tasks|
    ensures Advance(w, i, ok).tasks == w.tasks[i := Advance(w, i, ok).tasks[i]]
    ensures Ledger(w, i, ok, Advance(w, i, ok), md5)
  {
    AdvanceKeepsTheLock(w, i, ok);
    hide Ledger, DeleteStep, SaveStep, Md5Step, UploadStep;
    DeleteLedger(w, i, ok, md5);
    SaveLedger(w, i, ok, md5);
    Md5Ledger(w, i, ok, md5);
    if !OfDelete(w.tasks[i].at) && !OfSave(w.tasks[i].at) && !OfMd5(w.tasks[i].at) {
      UploadLedger(w, i, ok, md5);
    }
  }

  lemma BalanceStep(w: World, e: Event, md5: string)
    requires Locked(w)
    ensures Count(Apply(w, e), md5) - References(Apply(w, e), md5) ==
            Count(w, md5) - References(w, md5) + Leak(w, e, md5)
  {
    match e
    case Arrive(request, row) =>
      OwedAfterArrival(w.tasks, Task(row, First(request)), md5);
    case Advanced(i, ok) =>
      if i < |w.tasks| {
        AdvanceLedger(w, i, ok, md5);
        OwedAfterChange(w.tasks, i, Advance(w, i, ok).tasks[i], md5);
      }
  }

  /**
   Conservation: in every run, and with every outcome of every statement, the count of an MD5 is the
   number of its rows, plus the references owed by handlers in flight, plus what has leaked.
   */
  lemma {:induction false} Conservation(w: World, run: seq<Event>, md5: string)
    requires Locked(w)
    ensures Count(After(w, run), md5) - References(After(w, run), md5) ==
            Count(w, md5) - References(w, md5) + Leaked(w, run, md5)
    decreases |run|
  {
    if run != [] {
      BalanceStep(w, run[0], md5);
      LockedStep(w, run[0]);
      Conservation(Apply(w, run[0]), run[1..], md5);
    }
  }
}
