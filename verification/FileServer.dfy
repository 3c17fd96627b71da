// The handlers that change the reference counts, as they run when nothing else does.
module FileServer {
  import opened Basics
  import opened ReferenceCounts
  import opened ReferenceSafety

  // Task 0 executes its statements one after the other; ok[k] is the outcome of the k-th.
  function Alone(w: World, ok: seq<bool>, k: nat): World
    decreases |ok| - k
  {
    if k >= |ok| then w else Alone(Apply(w, Advanced(0, ok[k])), ok, k + 1)
  }

  lemma {:induction false} DoneStays(w: World, ok: seq<bool>, k: nat)
    requires |w.tasks| == 1 && w.tasks[0].at.Done?
    ensures Alone(w, ok, k) == w
    decreases |ok| - k
  {
    if k < |ok| {
      DoneStays(w, ok, k + 1);
    }
  }

  lemma Proceed(w: World, ok: seq<bool>, k: nat)
    requires k < |ok|
    ensures Alone(w, ok, k) == Alone(Apply(w, Advanced(0, ok[k])), ok, k + 1)
  {
  }

  // One handler alone, statement by statement.
  lemma Md5Moves(w: World, row: Row, at: Stage, ok: bool)
    requires w.tasks == [Task(row, at)] && OfMd5(at)
    ensures Apply(w, Advanced(0, ok)) ==
            match at
            case CheckMd5 => w.(tasks := [Task(row, if ok && row in w.rows then Done(5) else LockMd5)])
            case LockMd5 =>
              if ok && w.holder == None then w.(holder := Some(0), tasks := [Task(row, AddForMd5)])
              else w.(tasks := [Task(row, Done(1))])
            case AddForMd5 =>
              w.(files := if ok then Increment(w.files, row.md5) else w.files, tasks := [Task(row, UnlockMd5)])
            case UnlockMd5 => w.(holder := None, tasks := [Task(row, Done(1))])
  {
  }

  lemma SaveMoves(w: World, row: Row, at: Stage, ok: bool)
    requires w.tasks == [Task(row, at)] && OfSave(at)
    ensures Apply(w, Advanced(0, ok)) ==
            match at
            case CheckSave => w.(tasks := [Task(row, if ok && row in w.rows then Done(5) else LockToSave)])
            case LockToSave =>
              if ok && w.holder == None then w.(holder := Some(0), tasks := [Task(row, AddForSave)])
              else w.(tasks := [Task(row, Done(1))])
            case AddForSave =>
              var counted := ok && row.md5 in w.files;
              w.(files := if counted then Increment(w.files, row.md5) else w.files,
              tasks := [Task(row, UnlockSave(counted))])
            case UnlockSave(counted) =>
              w.(holder := None, tasks := [Task(row, if counted then InsertSaved else Done(1))])
            case InsertSaved =>
              if ok && row !in w.rows then w.(rows := w.rows + {row}, tasks := [Task(row, Done(0))])
              else w.(tasks := [Task(row, Done(1))])
  {
  }

  lemma DeleteMoves(w: World, row: Row, at: Stage, ok: bool)
    requires w.tasks == [Task(row, at)] && OfDelete(at)
    ensures Apply(w, Advanced(0, ok)) ==
            match at
            case FindRow => w.(tasks := [Task(row, if ok && row in w.rows then DropRow else Done(1))])
            case DropRow =>
              if ok then w.(rows := w.rows - {row}, tasks := [Task(row, LockToDrop)])
              else w.(tasks := [Task(row, Done(1))])
            case LockToDrop =>
              if ok && w.holder == None then w.(holder := Some(0), tasks := [Task(row, ReadCount)])
              else w.(tasks := [Task(row, Done(0))])
            case ReadCount =>
              var found := ok && row.md5 in w.files;
              w.(tasks := [Task(row, if found then ChangeCount(w.files[row.md5]) else UnlockDelete(None, 1))])
            case ChangeCount(found) =>
              if found.count > 1 && ok && row.md5 in w.files then
                w.(files := w.files[row.md5 := Record(w.files[row.md5].count - 1, w.files[row.md5].file)],
                tasks := [Task(row, UnlockDelete(None, 0))])
              else if found.count == 1 && ok then
                w.(files := w.files - {row.md5}, tasks := [Task(row, UnlockDelete(Some(found.file), 0))])
              else w.(tasks := [Task(row, UnlockDelete(None, if found.count < 1 then 0 else -1))])
            case UnlockDelete(last, ret) =>
              w.(holder := None,
              tasks := [Task(row, if ret != 0 then Done(1) else if last.Some? then RemoveFile(last.value) else Done(0))])
            case RemoveFile(file) =>
              w.(stored := if ok then w.stored - {file} else w.stored, tasks := [Task(row, Done(if ok then 0 else 1))])
  {
  }

  predicate OfUpload(at: Stage) {
    at.StoreFile? || at.QueryUrl? || at.LockUpload? || at.InsertRecord? || at.AddForUpload? || at.InsertUploaded? ||
    at.UnlockUpload? || at.CleanUp?
  }

  lemma UploadMoves(w: World, row: Row, at: Stage, ok: bool)
    requires w.tasks == [Task(row, at)] && OfUpload(at)
    ensures Apply(w, Advanced(0, ok)) ==
            match at
            case StoreFile =>
              if ok then
                w.(stored := w.stored + {w.minted}, minted := w.minted + 1, tasks := [Task(row, QueryUrl(w.minted))])
              else w.(tasks := [Task(row, Done(-1))])
            case QueryUrl(file) => w.(tasks := [Task(row, if ok then LockUpload(file) else Done(-1))])
            case LockUpload(file) =>
              if ok && w.holder == None then w.(holder := Some(0), tasks := [Task(row, InsertRecord(file))])
              else w.(tasks := [Task(row, CleanUp(file, -1))])
            case InsertRecord(file) =>
              if ok && row.md5 !in w.files then
                w.(files := w.files[row.md5 := Record(1, file)], tasks := [Task(row, InsertUploaded(file, false))])
              else w.(tasks := [Task(row, AddForUpload(file))])
            case AddForUpload(file) =>
              w.(files := if ok then Increment(w.files, row.md5) else w.files,
              tasks := [Task(row, if ok then InsertUploaded(file, true) else UnlockUpload(file, false, -1))])
            case InsertUploaded(file, known) =>
              var added := ok && row !in w.rows;
              w.(rows := if added then w.rows + {row} else w.rows,
              tasks := [Task(row, UnlockUpload(file, known, if added then 0 else -1))])
            case UnlockUpload(file, known, ret) =>
              w.(holder := None, tasks := [Task(row, if ret < 0 || known then CleanUp(file, ret) else Done(ret))])
            case CleanUp(file, ret) =>
              w.(stored := if ok then w.stored - {file} else w.stored, tasks := [Task(row, Done(ret))])
  {
  }

  function Yes(n: nat): seq<bool> {
    seq(n, _ => true)
  }

  // One request served with nothing else going on and every statement succeeding.
  function Served(w: World, request: Request, row: Row): World {
    Alone(w.(tasks := [Task(row, First(request))]), Yes(7), 0)
  }

  predicate SameTables(v: World, w: World) {
    v.files == w.files && v.rows == w.rows && v.stored == w.stored && v.holder == w.holder
  }

  lemma SaveServed(w: World, row: Row)
    requires w.holder == None && row !in w.rows && row.md5 in w.files
    ensures Served(w, SaveFile, row) ==
            w.(files := Increment(w.files, row.md5), rows := w.rows + {row}, tasks := [Task(row, Done(0))])
  {
    hide Apply, Alone, Increment;
    var v := w.(tasks := [Task(row, CheckSave)]);
    for k := 0 to 5
      invariant 0 <= k <= 5
      invariant Served(w, SaveFile, row) == Alone(v, Yes(7), k)
      invariant v == [
        w.(tasks := [Task(row, CheckSave)]),
        w.(tasks := [Task(row, LockToSave)]),
        w.(tasks := [Task(row, AddForSave)], holder := Some(0)),
        w.(tasks := [Task(row, UnlockSave(true))], holder := Some(0), files := Increment(w.files, row.md5)),
        w.(tasks := [Task(row, InsertSaved)], files := Increment(w.files, row.md5)),
        w.(tasks := [Task(row, Done(0))], files := Increment(w.files, row.md5), rows := w.rows + {row})][k]
    {
      SaveMoves(v, row, v.tasks[0].at, true);
      Proceed(v, Yes(7), k);
      v := Apply(v, Advanced(0, true));
    }
    DoneStays(v, Yes(7), 5);
  }

  function Lowered(files: map<string, Record>, md5: string): map<string, Record> {
    if md5 !in files then files
    else if files[md5].count == 1 then files - {md5}
    else files[md5 := Record(files[md5].count - 1, files[md5].file)]
  }

  lemma DeleteServed(w: World, row: Row)
    requires w.holder == None && row in w.rows && row.md5 in w.files && w.files[row.md5].count >= 1
    ensures Served(w, DeleteFile, row) ==
            w.(files := Lowered(w.files, row.md5),
            rows := w.rows - {row},
            stored := if w.files[row.md5].count == 1 then w.stored - {w.files[row.md5].file} else w.stored,
            tasks := [Task(row, Done(0))])
  {
    hide Apply, Alone;
    var rec := w.files[row.md5];
    var last := if rec.count == 1 then Some(rec.file) else None;
    var v := w.(tasks := [Task(row, FindRow)]);
    for k := 0 to 6
      invariant 0 <= k <= 6
      invariant Served(w, DeleteFile, row) == Alone(v, Yes(7), k)
      invariant v == [
        w.(tasks := [Task(row, FindRow)]),
        w.(tasks := [Task(row, DropRow)]),
        w.(tasks := [Task(row, LockToDrop)], rows := w.rows - {row}),
        w.(tasks := [Task(row, ReadCount)], rows := w.rows - {row}, holder := Some(0)),
        w.(tasks := [Task(row, ChangeCount(rec))], rows := w.rows - {row}, holder := Some(0)),
        w.(tasks := [Task(row, UnlockDelete(last, 0))], rows := w.rows - {row}, holder := Some(0),
        files := Lowered(w.files, row.md5)),
        w.(tasks := [Task(row, if last.Some? then RemoveFile(rec.file) else Done(0))], rows := w.rows - {row},
        files := Lowered(w.files, row.md5))][k]
    {
      DeleteMoves(v, row, v.tasks[0].at, true);
      Proceed(v, Yes(7), k);
      v := Apply(v, Advanced(0, true));
    }
    if last.Some? {
      DeleteMoves(v, row, RemoveFile(rec.file), true);
      Proceed(v, Yes(7), 6);
      v := Apply(v, Advanced(0, true));
      DoneStays(v, Yes(7), 7);
    } else {
      DoneStays(v, Yes(7), 6);
    }
  }

  lemma UploadServed(w: World, row: Row)
    requires w.holder == None && row !in w.rows && row.md5 !in w.files
    ensures Served(w, UploadFile, row) ==
            w.(files := w.files[row.md5 := Record(1, w.minted)], rows := w.rows + {row},
            stored := w.stored + {w.minted}, minted := w.minted + 1, tasks := [Task(row, Done(0))])
  {
    hide Apply, Alone;
    var v := w.(tasks := [Task(row, StoreFile)]);
    ghost var f := w.minted;
    var u := w.(stored := w.stored + {f}, minted := f + 1);
    for k := 0 to 6
      invariant 0 <= k <= 6
      invariant Served(w, UploadFile, row) == Alone(v, Yes(7), k)
      invariant v == [
        w.(tasks := [Task(row, StoreFile)]),
        u.(tasks := [Task(row, QueryUrl(f))]),
        u.(tasks := [Task(row, LockUpload(f))]),
        u.(tasks := [Task(row, InsertRecord(f))], holder := Some(0)),
        u.(tasks := [Task(row, InsertUploaded(f, false))], holder := Some(0), files := w.files[row.md5 := Record(1, f)]),
        u.(tasks := [Task(row, UnlockUpload(f, false, 0))], holder := Some(0), files := w.files[row.md5 := Record(1, f)],
        rows := w.rows + {row}),
        u.(tasks := [Task(row, Done(0))], files := w.files[row.md5 := Record(1, f)], rows := w.rows + {row})][k]
    {
      UploadMoves(v, row, v.tasks[0].at, true);
      Proceed(v, Yes(7), k);
      v := Apply(v, Advanced(0, true));
    }
    DoneStays(v, Yes(7), 6);
  }

  lemma LoweredIncremented(files: map<string, Record>, md5: string)
    requires md5 in files && files[md5].count >= 1
    ensures Lowered(Increment(files, md5), md5) == files
    ensures md5 in Increment(files, md5) && Increment(files, md5)[md5].count >= 2
  {
  }

  // A delete takes back a save: tables, storage and lock are as before.
  lemma DeleteUndoesSave(w: World, row: Row)
    requires w.holder == None && row !in w.rows && row.md5 in w.files && w.files[row.md5].count >= 1
    ensures SameTables(Served(Served(w, SaveFile, row), DeleteFile, row), w)
    ensures Served(Served(w, SaveFile, row), DeleteFile, row).tasks == [Task(row, Done(0))]
  {
    SaveServed(w, row);
    var v := Served(w, SaveFile, row);
    hide Served;
    DeleteServed(v, row);
    LoweredIncremented(w.files, row.md5);
    hide Lowered, Increment;
    assert v.rows - {row} == w.rows;
  }

  // A delete takes back the upload of a new file, in the storage too.
  lemma DeleteUndoesUpload(w: World, row: Row)
    requires w.holder == None && row !in w.rows && row.md5 !in w.files && w.minted !in w.stored
    ensures SameTables(Served(Served(w, UploadFile, row), DeleteFile, row), w)
    ensures Served(Served(w, UploadFile, row), DeleteFile, row).tasks == [Task(row, Done(0))]
  {
    UploadServed(w, row);
    var v := Served(w, UploadFile, row);
    hide Served;
    DeleteServed(v, row);
    assert Lowered(v.files, row.md5) == w.files;
    assert v.rows - {row} == w.rows;
    assert v.stored - {w.minted} == w.stored;
  }

  // ---------- runs that break what orderly runs keep ----------

  function Outcomes(ok: seq<bool>, k: nat): seq<Event>
    decreases |ok| - k
  {
    if k >= |ok| then [] else [Advanced(0, ok[k])] + Outcomes(ok, k + 1)
  }

  lemma {:induction false} AloneIsARun(w: World, ok: seq<bool>, k: nat)
    ensures Alone(w, ok, k) == After(w, Outcomes(ok, k))
    decreases |ok| - k
  {
    if k < |ok| {
      AloneIsARun(Apply(w, Advanced(0, ok[k])), ok, k + 1);
      assert Outcomes(ok, k)[1..] == Outcomes(ok, k + 1);
    }
  }

  // The state before the k-th step of an upload to an empty server whose insertion of the record fails.
  function FailedInsertAt(row: Row, k: nat): World {
    var w := Initial();
    var u := w.(stored := {0}, minted := 1);
    if k == 0 then w.(tasks := [Task(row, StoreFile)])
    else if k == 1 then u.(tasks := [Task(row, QueryUrl(0))])
    else if k == 2 then u.(tasks := [Task(row, LockUpload(0))])
    else if k == 3 then u.(tasks := [Task(row, InsertRecord(0))], holder := Some(0))
    else if k == 4 then u.(tasks := [Task(row, AddForUpload(0))], holder := Some(0))
    else if k == 5 then u.(tasks := [Task(row, InsertUploaded(0, true))], holder := Some(0))
    else u.(tasks := [Task(row, UnlockUpload(0, true, 0))], holder := Some(0), rows := {row})
  }

  lemma FailedInsertStep(row: Row, k: nat)
    requires k < 6
    ensures Apply(FailedInsertAt(row, k), Advanced(0, k != 3)) == FailedInsertAt(row, k + 1)
  {
    hide Apply;
    var v := FailedInsertAt(row, k);
    UploadMoves(v, row, v.tasks[0].at, k != 3);
  }

  // An insertion that fails although the MD5 is new: the upload goes on and leaves a row without a record.
  lemma FailedInsertLosesTheRecord(row: Row)
    ensures var w := After(Apply(Initial(), Arrive(UploadFile, row)), Outcomes([true, true, true, false, true, true], 0));
            row in w.rows && row.md5 !in w.files
  {
    var ok := [true, true, true, false, true, true];
    var start := Apply(Initial(), Arrive(UploadFile, row));
    AloneIsARun(start, ok, 0);
    assert start == FailedInsertAt(row, 0);
    for k := 0 to 6
      invariant Alone(start, ok, 0) == Alone(FailedInsertAt(row, k), ok, k)
    {
      hide Apply, Alone, FailedInsertAt;
      FailedInsertStep(row, k);
      Proceed(FailedInsertAt(row, k), ok, k);
    }
    Finished(FailedInsertAt(row, 6), ok, 6);
    hide Apply, Alone, After, Outcomes;
  }

  lemma Finished(w: World, ok: seq<bool>, k: nat)
    requires k >= |ok|
    ensures Alone(w, ok, k) == w
  {
  }

  // The state before the k-th step of an upload to an empty server whose row cannot be written.
  function FailedRowAt(row: Row, k: nat): World {
    var w := Initial();
    var u := w.(stored := {0}, minted := 1);
    var r := u.(files := map[row.md5 := Record(1, 0)]);
    if k == 0 then w.(tasks := [Task(row, StoreFile)])
    else if k == 1 then u.(tasks := [Task(row, QueryUrl(0))])
    else if k == 2 then u.(tasks := [Task(row, LockUpload(0))])
    else if k == 3 then u.(tasks := [Task(row, InsertRecord(0))], holder := Some(0))
    else if k == 4 then r.(tasks := [Task(row, InsertUploaded(0, false))], holder := Some(0))
    else if k == 5 then r.(tasks := [Task(row, UnlockUpload(0, false, -1))], holder := Some(0))
    else if k == 6 then r.(tasks := [Task(row, CleanUp(0, -1))])
    else r.(tasks := [Task(row, Done(-1))], stored := {})
  }

  lemma FailedRowStep(row: Row, k: nat)
    requires k < 7
    ensures Apply(FailedRowAt(row, k), Advanced(0, k != 4)) == FailedRowAt(row, k + 1)
  {
    hide Apply;
    var v := FailedRowAt(row, k);
    UploadMoves(v, row, v.tasks[0].at, k != 4);
  }

  // A row that cannot be written for a new record: the record stays and its file goes.
  lemma FailedRowEnds(row: Row)
    ensures Alone(Initial().(tasks := [Task(row, StoreFile)]), [true, true, true, true, false, true, true], 0) ==
            FailedRowAt(row, 7)
  {
    var ok := [true, true, true, true, false, true, true];
    assert Initial().(tasks := [Task(row, StoreFile)]) == FailedRowAt(row, 0);
    for k := 0 to 7
      invariant Alone(FailedRowAt(row, 0), ok, 0) == Alone(FailedRowAt(row, k), ok, k)
    {
      hide Apply, Alone, FailedRowAt;
      FailedRowStep(row, k);
      Proceed(FailedRowAt(row, k), ok, k);
    }
    Finished(FailedRowAt(row, 7), ok, 7);
    hide Apply, Alone;
  }

  function Two(w: World, row: Row, s: Stage, t: Stage): World {
    w.(tasks := [Task(row, s), Task(row, t)])
  }

  lemma DeleteMovesTwo(w: World, row: Row, s: Stage, t: Stage, i: nat)
    requires w.tasks == [Task(row, s), Task(row, t)] && i < 2 && OfDelete(w.tasks[i].at)
    ensures Apply(w, Advanced(i, true)) == DeleteStep(w, i, true)
    ensures DeleteStep(w, i, true).tasks ==
            if i == 0 then [Task(row, DeleteStep(w, i, true).tasks[0].at), Task(row, t)]
            else [Task(row, s), Task(row, DeleteStep(w, i, true).tasks[1].at)]
  {
  }

  function TwoDeletes(row: Row): seq<Event> {
    [Advanced(0, true), Advanced(1, true), Advanced(0, true), Advanced(1, true),
     Advanced(0, true), Advanced(0, true), Advanced(0, true), Advanced(0, true),
     Advanced(1, true), Advanced(1, true), Advanced(1, true)]
  }

  // The state before the k-th step of TwoDeletes.
  function TwoAt(w: World, row: Row, k: nat): World
    requires row.md5 in w.files && k <= 11
  {
    var m, f := row.md5, w.files[row.md5].file;
    var g := if k < 3 then w else w.(rows := w.rows - {row});
    var one := w.files[m := Record(1, f)];
    if k == 0 then Two(g, row, FindRow, FindRow)
    else if k == 1 then Two(g, row, DropRow, FindRow)
    else if k == 2 then Two(g, row, DropRow, DropRow)
    else if k == 3 then Two(g, row, LockToDrop, DropRow)
    else if k == 4 then Two(g, row, LockToDrop, LockToDrop)
    else if k == 5 then Two(g, row, ReadCount, LockToDrop).(holder := Some(0))
    else if k == 6 then Two(g, row, ChangeCount(w.files[m]), LockToDrop).(holder := Some(0))
    else if k == 7 then Two(g, row, UnlockDelete(None, 0), LockToDrop).(holder := Some(0), files := one)
    else if k == 8 then Two(g, row, Done(0), LockToDrop).(files := one)
    else if k == 9 then Two(g, row, Done(0), ReadCount).(holder := Some(1), files := one)
    else if k == 10 then Two(g, row, Done(0), ChangeCount(Record(1, f))).(holder := Some(1), files := one)
    else Two(g, row, Done(0), UnlockDelete(Some(f), 0)).(holder := Some(1), files := w.files - {m})
  }

  lemma TwoStep(w: World, row: Row, k: nat)
    requires w.holder == None && row in w.rows && row.md5 in w.files && w.files[row.md5].count == 2
    requires k < 11
    ensures Apply(TwoAt(w, row, k), TwoDeletes(row)[k]) == TwoAt(w, row, k + 1)
  {
    var v := TwoAt(w, row, k);
    DeleteMovesTwo(v, row, v.tasks[0].at, v.tasks[1].at, TwoDeletes(row)[k].task);
    hide Apply;
  }

  lemma TwoAtEnds(w: World, row: Row, other: Row)
    requires row != other && row.md5 == other.md5 && other in w.rows && row.md5 in w.files
    ensures TwoAt(w, row, 0) == w.(tasks := [Task(row, FindRow), Task(row, FindRow)]) && |TwoDeletes(row)| == 11
    ensures other in TwoAt(w, row, 11).rows && other.md5 !in TwoAt(w, row, 11).files
  {
  }

  /**
   Two deletes of one row that both find it: the count of two falls to nothing, the record is removed, and
   the other user's row is left without it.
   */
  lemma TwoDeletesLoseTheRecord(w: World, row: Row, other: Row)
    requires w.holder == None && row != other && row.md5 == other.md5
    requires row in w.rows && other in w.rows && row.md5 in w.files && w.files[row.md5].count == 2
    ensures var v := After(w.(tasks := [Task(row, FindRow), Task(row, FindRow)]), TwoDeletes(row));
            other in v.rows && other.md5 !in v.files
  {
    var run := TwoDeletes(row);
    TwoAtEnds(w, row, other);
    hide Apply, TwoAt, After, TwoDeletes;
    assert run[0..] == run;
    for k := 0 to 11
      invariant After(TwoAt(w, row, 0), run) == After(TwoAt(w, row, k), run[k..])
    {
      TwoStep(w, row, k);
      AfterFirst(TwoAt(w, row, k), run[k..]);
      assert run[k..][1..] == run[k + 1..];
    }
    AfterNothing(TwoAt(w, row, 11), run[11..]);
  }

  lemma AfterFirst(w: World, run: seq<Event>)
    requires run != []
    ensures After(w, run) == After(Apply(w, run[0]), run[1..])
  {
  }

  lemma AfterNothing(w: World, run: seq<Event>)
    requires run == []
    ensures After(w, run) == w
  {
  }

  class FileInfoLock {
    var locked: bool
    var stop: bool

    constructor ()
      ensures !locked && !stop
    {
      locked, stop := false, false;
    }

    // The wait is over when the lock is free or the waiters are told to stop; `freed` says that another
    // handler has given the lock back in time.
    method TryLockFor(freed: bool) returns (taken: bool)
      modifies this
      ensures taken == ((!old(locked) || freed) && !old(stop))
      ensures locked == (old(locked) || taken) && stop == old(stop)
    {
      if locked && !freed && !stop {
        return false;
      }
      if stop {
        return false;
      }
      locked := true;
      return true;
    }

    method Unlock()
      modifies this
      ensures !locked && stop == old(stop)
    {
      locked := false;
    }

    method StopWaiting()
      modifies this
      ensures stop && locked == old(locked)
    {
      stop := true;
    }
  }

  class Server {
    var files: map<string, Record>
    var rows: set<Row>
    var stored: set<FileId>
    var minted: nat
    const lock: FileInfoLock
    // another handler holds the lock
    ghost var busy: bool

    constructor ()
      ensures files == map[] && rows == {} && stored == {} && minted == 0 && fresh(lock) && !lock.locked && !lock.stop && !busy
    {
      busy := false;
      files, rows, stored, minted := map[], {}, {}, 0;
      lock := new FileInfoLock();
    }

    // The server as the protocol sees it, with one handler at work.
    ghost function Snapshot(row: Row, at: Stage): World
      reads this, lock
    {
      World(files, rows, stored, minted, if busy then Some(1) else if lock.locked then Some(0) else None,
            [Task(row, at)])
    }

    // The update or the removal of the record whose count has been read.
    method LowerCount(row: Row, found: Record, ok: bool) returns (last: Option<FileId>, failed: bool)
      requires row.md5 in files && files[row.md5] == found
      modifies this`files
      ensures Snapshot(row, UnlockDelete(last, if failed then -1 else 0)) ==
              Apply(old(Snapshot(row, ChangeCount(found))), Advanced(0, ok))
      ensures last.Some? ==> found.count == 1 && last == Some(found.file) && !failed
      ensures found.count == 1 && !failed ==> last.Some?
    {
      hide Apply;
      DeleteMoves(Snapshot(row, ChangeCount(found)), row, ChangeCount(found), ok);
      last, failed := None, false;
      if found.count > 1 {
        if ok {
          files := files[row.md5 := Record(files[row.md5].count - 1, files[row.md5].file)];
        } else {
          failed := true;
        }
      } else if found.count == 1 {
        if ok {
          files := files - {row.md5};
          last := Some(found.file);
        } else {
          failed := true;
        }
      }
    }

    // What a delete does under the lock, and the release of the lock.
    method ReadAndLower(row: Row, ok: seq<bool>) returns (count: int, file: FileId, failed: bool)
      requires |ok| == 7 && lock.locked && !busy
      modifies this`files, lock
      ensures Alone(old(Snapshot(row, ReadCount)), ok, 3) ==
              Alone(Snapshot(row, if failed then Done(1) else if count == 1 then RemoveFile(file) else Done(0)), ok, 6)
      ensures !lock.locked && lock.stop == old(lock.stop)
    {
      hide Apply, Alone, SaveStep, Md5Step, UploadStep;
      count, file, failed := 0, 0, false;
      ghost var w := Snapshot(row, ReadCount);
      DeleteMoves(w, row, w.tasks[0].at, ok[3]);
      Proceed(w, ok, 3);
      w := Apply(w, Advanced(0, ok[3]));
      if !(ok[3] && row.md5 in files) {
        assert w == Snapshot(row, UnlockDelete(None, 1));
        DeleteMoves(w, row, w.tasks[0].at, ok[4]);
        Proceed(w, ok, 4);
        w := Apply(w, Advanced(0, ok[4]));
        lock.Unlock();
        assert w == Snapshot(row, Done(1));
        DoneStays(w, ok, 5);
        DoneStays(w, ok, 6);
        return 0, 0, true;
      }
      count, file := files[row.md5].count, files[row.md5].file;
      assert w == Snapshot(row, ChangeCount(Record(count, file)));
      Proceed(w, ok, 4);
      w := Apply(w, Advanced(0, ok[4]));
      ghost var last;
      last, failed := LowerCount(row, Record(count, file), ok[4]);
      DeleteMoves(w, row, w.tasks[0].at, ok[5]);
      Proceed(w, ok, 5);
      w := Apply(w, Advanced(0, ok[5]));
      lock.Unlock();
      assert w == Snapshot(row, if failed then Done(1) else if count == 1 then RemoveFile(file) else Done(0));
    }

    // Another handler may hold the lock all the while; the wait for the lock then runs out.
    method HandleDeleteFile(row: Row, ok: seq<bool>) returns (ret: int)
      requires |ok| == 7 && lock.locked == busy && ok[2] == !lock.stop
      modifies this, lock
      ensures Snapshot(row, Done(ret)) == Alone(old(Snapshot(row, FindRow)), ok, 0)
      ensures lock.locked == busy && busy == old(busy) && lock.stop == old(lock.stop)
    {
      hide Apply, Alone, SaveStep, Md5Step, UploadStep;
      ghost var w := Snapshot(row, FindRow);
      DeleteMoves(w, row, w.tasks[0].at, ok[0]);
      Proceed(w, ok, 0);
      w := Apply(w, Advanced(0, ok[0]));
      if !(ok[0] && row in rows) {
        DoneStays(w, ok, 1);
        return 1;
      }
      DeleteMoves(w, row, w.tasks[0].at, ok[1]);
      Proceed(w, ok, 1);
      w := Apply(w, Advanced(0, ok[1]));
      if !ok[1] {
        DoneStays(w, ok, 2);
        return 1;
      }
      rows := rows - {row};
      assert w == Snapshot(row, LockToDrop);
      var count, file := 0, 0;
      DeleteMoves(w, row, w.tasks[0].at, ok[2]);
      Proceed(w, ok, 2);
      w := Apply(w, Advanced(0, ok[2]));
      var isLocked := lock.TryLockFor(false);
      if isLocked {
        assert w == Snapshot(row, ReadCount);
        var failed;
        count, file, failed := ReadAndLower(row, ok);
        if failed {
          DoneStays(Snapshot(row, Done(1)), ok, 6);
          return 1;
        }
        w := Snapshot(row, if count == 1 then RemoveFile(file) else Done(0));
      } else {
        assert w == Snapshot(row, Done(0));
        DoneStays(w, ok, 3);
      }
      if count == 1 {
        DeleteMoves(w, row, w.tasks[0].at, ok[6]);
        Proceed(w, ok, 6);
        w := Apply(w, Advanced(0, ok[6]));
        if ok[6] {
          stored := stored - {file};
          ret := 0;
        } else {
          ret := 1;
        }
        assert w == Snapshot(row, Done(ret));
        DoneStays(w, ok, 7);
        return;
      }
      DoneStays(w, ok, if isLocked then 6 else 3);
      return 0;
    }

    method HandleSaveFile(row: Row, ok: seq<bool>) returns (ret: int)
      requires |ok| == 5 && lock.locked == busy && ok[1] == !lock.stop
      modifies this, lock
      ensures Snapshot(row, Done(ret)) == Alone(old(Snapshot(row, CheckSave)), ok, 0)
      ensures lock.locked == busy && busy == old(busy) && lock.stop == old(lock.stop)
    {
      hide Apply, Alone, DeleteStep, Md5Step, UploadStep;
      ghost var w := Snapshot(row, CheckSave);
      SaveMoves(w, row, w.tasks[0].at, ok[0]);
      Proceed(w, ok, 0);
      w := Apply(w, Advanced(0, ok[0]));
      if ok[0] && row in rows {
        DoneStays(w, ok, 1);
        return 5;
      }
      assert w == Snapshot(row, LockToSave);
      SaveMoves(w, row, w.tasks[0].at, ok[1]);
      Proceed(w, ok, 1);
      w := Apply(w, Advanced(0, ok[1]));
      var isLocked := lock.TryLockFor(false);
      if !isLocked {
        assert w == Snapshot(row, Done(1));
        DoneStays(w, ok, 2);
        return 1;
      }
      assert w == Snapshot(row, AddForSave);
      SaveMoves(w, row, w.tasks[0].at, ok[2]);
      Proceed(w, ok, 2);
      w := Apply(w, Advanced(0, ok[2]));
      if !(ok[2] && row.md5 in files) {
        assert w == Snapshot(row, UnlockSave(false));
        SaveMoves(w, row, w.tasks[0].at, ok[3]);
        Proceed(w, ok, 3);
        w := Apply(w, Advanced(0, ok[3]));
        lock.Unlock();
        assert w == Snapshot(row, Done(1));
        DoneStays(w, ok, 4);
        return 1;
      }
      files := files[row.md5 := Record(files[row.md5].count + 1, files[row.md5].file)];
      assert w == Snapshot(row, UnlockSave(true));
      SaveMoves(w, row, w.tasks[0].at, ok[3]);
      Proceed(w, ok, 3);
      w := Apply(w, Advanced(0, ok[3]));
      lock.Unlock();
      assert w == Snapshot(row, InsertSaved);
      SaveMoves(w, row, w.tasks[0].at, ok[4]);
      Proceed(w, ok, 4);
      w := Apply(w, Advanced(0, ok[4]));
      if !(ok[4] && row !in rows) {
        assert w == Snapshot(row, Done(1));
        DoneStays(w, ok, 5);
        return 1;
      }
      rows := rows + {row};
      assert w == Snapshot(row, Done(0));
      DoneStays(w, ok, 5);
      return 0;
    }

    method HandleDealMd5(row: Row, ok: seq<bool>) returns (ret: int)
      requires |ok| == 4 && lock.locked == busy && ok[1] == !lock.stop
      modifies this, lock
      ensures Snapshot(row, Done(ret)) == Alone(old(Snapshot(row, CheckMd5)), ok, 0)
      ensures lock.locked == busy && busy == old(busy) && lock.stop == old(lock.stop)
    {
      hide Apply, Alone, DeleteStep, SaveStep, UploadStep;
      ghost var w := Snapshot(row, CheckMd5);
      Md5Moves(w, row, w.tasks[0].at, ok[0]);
      Proceed(w, ok, 0);
      w := Apply(w, Advanced(0, ok[0]));
      if ok[0] && row in rows {
        DoneStays(w, ok, 1);
        return 5;
      }
      assert w == Snapshot(row, LockMd5);
      Md5Moves(w, row, w.tasks[0].at, ok[1]);
      Proceed(w, ok, 1);
      w := Apply(w, Advanced(0, ok[1]));
      var isLocked := lock.TryLockFor(false);
      if isLocked {
        assert w == Snapshot(row, AddForMd5);
        Md5Moves(w, row, w.tasks[0].at, ok[2]);
        Proceed(w, ok, 2);
        w := Apply(w, Advanced(0, ok[2]));
        if ok[2] && row.md5 in files {
          files := files[row.md5 := Record(files[row.md5].count + 1, files[row.md5].file)];
        }
        assert w == Snapshot(row, UnlockMd5);
        Md5Moves(w, row, w.tasks[0].at, ok[3]);
        Proceed(w, ok, 3);
        w := Apply(w, Advanced(0, ok[3]));
        lock.Unlock();
        assert w == Snapshot(row, Done(1));
        DoneStays(w, ok, 4);
      } else {
        assert w == Snapshot(row, Done(1));
        DoneStays(w, ok, 2);
      }
      return 1;
    }

    method InsertUserRow(row: Row, file: FileId, known: bool, ok: bool) returns (ret: int)
      modifies this`rows
      ensures Snapshot(row, UnlockUpload(file, known, ret)) ==
              Apply(old(Snapshot(row, InsertUploaded(file, known))), Advanced(0, ok))
      ensures -1 <= ret <= 0
    {
      hide Apply;
      UploadMoves(Snapshot(row, InsertUploaded(file, known)), row, InsertUploaded(file, known), ok);
      if ok && row !in rows {
        rows := rows + {row};
        ret := 0;
      } else {
        ret := -1;
      }
    }

    // storeFileinfo: the lock is held until it returns.  The next outcome to come is ok[k].
    method StoreFileinfo(row: Row, file: FileId, ok: seq<bool>) returns (ret: int, fileExists: bool, k: nat)
      requires |ok| == 8 && lock.locked == busy && ok[2] == !lock.stop
      modifies this`files, this`rows, lock
      ensures lock.locked == busy && busy == old(busy) && lock.stop == old(lock.stop)
      ensures k <= 7 && ret <= 0
      ensures Alone(old(Snapshot(row, LockUpload(file))), ok, 2) ==
              Alone(Snapshot(row, if ret < 0 || fileExists then CleanUp(file, ret) else Done(ret)), ok, k)
    {
      hide Apply, Alone, DeleteStep, SaveStep, Md5Step;
      ghost var w := Snapshot(row, LockUpload(file));
      fileExists := false;
      UploadMoves(w, row, w.tasks[0].at, ok[2]);
      Proceed(w, ok, 2);
      w := Apply(w, Advanced(0, ok[2]));
      var isLocked := lock.TryLockFor(false);
      if !isLocked {
        assert w == Snapshot(row, CleanUp(file, -1));
        return -1, false, 3;
      }
      assert w == Snapshot(row, InsertRecord(file));
      UploadMoves(w, row, w.tasks[0].at, ok[3]);
      Proceed(w, ok, 3);
      w := Apply(w, Advanced(0, ok[3]));
      k := 4;
      if ok[3] && row.md5 !in files {
        files := files[row.md5 := Record(1, file)];
      } else {
        assert w == Snapshot(row, AddForUpload(file));
        UploadMoves(w, row, w.tasks[0].at, ok[4]);
        Proceed(w, ok, 4);
        w := Apply(w, Advanced(0, ok[4]));
        k := 5;
        if !ok[4] {
          assert w == Snapshot(row, UnlockUpload(file, false, -1));
          UploadMoves(w, row, w.tasks[0].at, ok[5]);
          Proceed(w, ok, 5);
          w := Apply(w, Advanced(0, ok[5]));
          lock.Unlock();
          assert w == Snapshot(row, CleanUp(file, -1));
          return -1, false, 6;
        }
        if row.md5 in files {
          files := files[row.md5 := Record(files[row.md5].count + 1, files[row.md5].file)];
        }
        fileExists := true;
      }
      assert w == Snapshot(row, InsertUploaded(file, fileExists));
      Proceed(w, ok, k);
      w := Apply(w, Advanced(0, ok[k]));
      ret := InsertUserRow(row, file, fileExists, ok[k]);
      UploadMoves(w, row, w.tasks[0].at, ok[k + 1]);
      Proceed(w, ok, k + 1);
      w := Apply(w, Advanced(0, ok[k + 1]));
      lock.Unlock();
      k := k + 2;
      assert w == Snapshot(row, if ret < 0 || fileExists then CleanUp(file, ret) else Done(ret));
    }

    method ApiUpload(row: Row, ok: seq<bool>) returns (ret: int)
      requires |ok| == 8 && lock.locked == busy && ok[2] == !lock.stop
      modifies this, lock
      ensures Snapshot(row, Done(ret)) == Alone(old(Snapshot(row, StoreFile)), ok, 0)
      ensures lock.locked == busy && busy == old(busy) && lock.stop == old(lock.stop)
    {
      hide Apply, Alone, DeleteStep, SaveStep, Md5Step;
      ghost var w := Snapshot(row, StoreFile);
      UploadMoves(w, row, w.tasks[0].at, ok[0]);
      Proceed(w, ok, 0);
      w := Apply(w, Advanced(0, ok[0]));
      if !ok[0] {
        DoneStays(w, ok, 1);
        return -1;
      }
      var file := minted;
      stored, minted := stored + {file}, minted + 1;
      assert w == Snapshot(row, QueryUrl(file));
      UploadMoves(w, row, w.tasks[0].at, ok[1]);
      Proceed(w, ok, 1);
      w := Apply(w, Advanced(0, ok[1]));
      if !ok[1] {
        assert w == Snapshot(row, Done(-1));
        DoneStays(w, ok, 2);
        return -1;
      }
      assert w == Snapshot(row, LockUpload(file));
      var fileExists;
      var k;
      ret, fileExists, k := StoreFileinfo(row, file, ok);
      w := Snapshot(row, if ret < 0 || fileExists then CleanUp(file, ret) else Done(ret));
      if ret < 0 || fileExists {
        UploadMoves(w, row, w.tasks[0].at, ok[k]);
        Proceed(w, ok, k);
        w := Apply(w, Advanced(0, ok[k]));
        if ok[k] {
          stored := stored - {file};
        }
        k := k + 1;
      }
      assert w == Snapshot(row, Done(ret));
      DoneStays(w, ok, k);
    }
  }
}
