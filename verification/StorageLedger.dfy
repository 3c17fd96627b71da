/**
 The stored files, in every run: a record's file is missing exactly when the upload that wrote the record
 could not write its row and then removed the file.
 */
module StorageLedger {
  import opened Basics
  import opened ReferenceCounts
  import opened ReferenceSafety

  /**
   The history of the files: those whose upload wrote their record and failed to write its row, and those of
   them that were then removed.
   */
  datatype Fates = Fates(unfiled: set<FileId>, lost: set<FileId>)

  function Fate(w: World, e: Event, f: Fates): Fates {
    if e.Arrive? || e.task >= |w.tasks| then f
    else
      var t := w.tasks[e.task];
      match t.at
      case InsertUploaded(file, known) =>
        if !known && !(e.ok && t.row !in w.rows) then f.(unfiled := f.unfiled + {file}) else f
      case CleanUp(file, _) => if e.ok && file in f.unfiled then f.(lost := f.lost + {file}) else f
      case _ => f
  }

  function FatesAfter(w: World, run: seq<Event>, f: Fates): Fates
    decreases |run|
  {
    if run == [] then f else FatesAfter(Apply(w, run[0]), run[1..], Fate(w, run[0], f))
  }

  const NO_FATES: Fates := Fates({}, {})

  // The stored file that a handler alone refers to; the file of an unfiled record is the record's too.
  function Keeps(at: Stage, unfiled: set<FileId>): Option<FileId> {
    match at
    case UnlockUpload(f, _, _) => if f in unfiled then None else Held(at)
    case CleanUp(f, _) => if f in unfiled then None else Held(at)
    case _ => Held(at)
  }

  // Not yet in a record.
  predicate Uploading(at: Stage) {
    at.QueryUrl? || at.LockUpload? || at.InsertRecord? || at.AddForUpload? || (at.InsertUploaded? && at.known)
  }

  ghost predicate Recorded(w: World, f: Fates, m: string)
    requires m in w.files
  {
    w.files[m].file < w.minted && (w.files[m].file in w.stored <==> w.files[m].file !in f.lost)
  }

  ghost predicate KeptApart(w: World, f: Fates, t: Task) {
    Keeps(t.at, f.unfiled).Some? ==>
      var g := Keeps(t.at, f.unfiled).value;
      && g < w.minted
      && (forall m :: m in w.files ==> w.files[m].file != g)
      && (Uploading(t.at) ==> g in w.stored && g !in f.unfiled)
  }

  ghost predicate Accounted(w: World, f: Fates) {
    && f.lost <= f.unfiled
    && (forall g :: g in f.unfiled ==> g < w.minted)
    && (forall m :: m in w.files ==> Recorded(w, f, m))
    && (forall m, n :: m in w.files && n in w.files && w.files[m].file == w.files[n].file ==> m == n)
    && (forall i :: 0 <= i < |w.tasks| ==> KeptApart(w, f, w.tasks[i]))
    && (forall i, j :: 0 <= i < j < |w.tasks| && Keeps(w.tasks[i].at, f.unfiled).Some? ==>
          Keeps(w.tasks[i].at, f.unfiled) != Keeps(w.tasks[j].at, f.unfiled))
  }

  // What one step of task i does to the files, their records and their fates.
  ghost predicate Moves(w: World, i: nat, v: World, f: Fates, g: Fates)
    requires i < |w.tasks| && i < |v.tasks|
  {
    var a, b := Keeps(w.tasks[i].at, f.unfiled), Keeps(v.tasks[i].at, g.unfiled);
    var md5 := w.tasks[i].row.md5;
    && v.minted >= w.minted
    && (Uploading(v.tasks[i].at) ==> b == Some(w.minted) || (Uploading(w.tasks[i].at) && b == a))
    && (|| (v.files == w.files && b == None && StoresLess(w, v, f, g, a))
        || (SameKeys(w, v) && v.stored == w.stored && v.minted == w.minted && g == f && (b == None || b == a))
        || (v.files == w.files && v.stored == w.stored + {w.minted} && v.minted == w.minted + 1 && g == f
            && b == Some(w.minted))
        || (md5 !in w.files && v.stored == w.stored && v.minted == w.minted && g == f && Uploading(w.tasks[i].at)
            && a.Some? && b == None && v.files == w.files[md5 := Record(1, a.value)])
        || (md5 in w.files && v.files == w.files - {md5} && v.stored == w.stored && v.minted == w.minted && g == f
            && a == None && b == Some(w.files[md5].file))
        || (md5 in w.files && v.files == w.files && v.stored == w.stored && v.minted == w.minted
            && b == None && g == f.(unfiled := f.unfiled + {w.files[md5].file})))
  }

  ghost predicate SameKeys(w: World, v: World) {
    v.files.Keys == w.files.Keys && forall m :: m in w.files ==> v.files[m].file == w.files[m].file
  }

  // A file is removed: one that a handler kept, or one that is unfiled and so is lost.
  ghost predicate StoresLess(w: World, v: World, f: Fates, g: Fates, a: Option<FileId>) {
    && v.minted == w.minted && g.unfiled == f.unfiled
    && exists x :: v.stored == w.stored - {x} && if x in f.unfiled && a != Some(x) then g.lost == f.lost + {x}
                                                 else a == Some(x) && g.lost == f.lost
  }

  lemma DeleteMovesFiles(w: World, i: nat, ok: bool, f: Fates)
    requires i < |w.tasks| && OfDelete(w.tasks[i].at) && Knows(w.files, w.tasks[i])
    ensures i < |DeleteStep(w, i, ok).tasks|
    ensures Moves(w, i, DeleteStep(w, i, ok), f, Fate(w, Advanced(i, ok), f))
  {
  }

  lemma SaveMovesFiles(w: World, i: nat, ok: bool, f: Fates)
    requires i < |w.tasks| && OfSave(w.tasks[i].at)
    ensures i < |SaveStep(w, i, ok).tasks|
    ensures Moves(w, i, SaveStep(w, i, ok), f, Fate(w, Advanced(i, ok), f))
  {
  }

  lemma Md5MovesFiles(w: World, i: nat, ok: bool, f: Fates)
    requires i < |w.tasks| && OfMd5(w.tasks[i].at)
    ensures i < |Md5Step(w, i, ok).tasks|
    ensures Moves(w, i, Md5Step(w, i, ok), f, Fate(w, Advanced(i, ok), f))
  {
  }

  lemma FilingMovesFiles(w: World, i: nat, ok: bool, f: Fates)
    requires i < |w.tasks| && Filing(w.tasks[i].at)
    ensures i < |UploadStep(w, i, ok).tasks|
    ensures Moves(w, i, UploadStep(w, i, ok), f, Fate(w, Advanced(i, ok), f))
  {
  }

  lemma ClosingMovesFiles(w: World, i: nat, ok: bool, f: Fates)
    requires i < |w.tasks| && Knows(w.files, w.tasks[i])
    requires !Filing(w.tasks[i].at) && !OfDelete(w.tasks[i].at) && !OfSave(w.tasks[i].at) && !OfMd5(w.tasks[i].at)
    ensures i < |UploadStep(w, i, ok).tasks|
    ensures Moves(w, i, UploadStep(w, i, ok), f, Fate(w, Advanced(i, ok), f))
  {
  }

  lemma AdvanceMovesFiles(w: World, i: nat, ok: bool, f: Fates)
    requires i < |w.tasks| && Knows(w.files, w.tasks[i])
    ensures i < |Advance(w, i, ok).tasks|
    ensures Moves(w, i, Advance(w, i, ok), f, Fate(w, Advanced(i, ok), f))
  {
    hide Moves, DeleteStep, SaveStep, Md5Step, UploadStep, Knows, Fate;
    if OfDelete(w.tasks[i].at) {
      DeleteMovesFiles(w, i, ok, f);
    } else if OfSave(w.tasks[i].at) {
      SaveMovesFiles(w, i, ok, f);
    } else if OfMd5(w.tasks[i].at) {
      Md5MovesFiles(w, i, ok, f);
    } else if Filing(w.tasks[i].at) {
      FilingMovesFiles(w, i, ok, f);
    } else {
      ClosingMovesFiles(w, i, ok, f);
    }
  }

  lemma AccountedNow(w: World, i: nat, v: World, f: Fates, g: Fates)
    requires i < |w.tasks| && |v.tasks| == |w.tasks| && v.tasks == w.tasks[i := v.tasks[i]]
    requires Moves(w, i, v, f, g) && Accounted(w, f)
    ensures Accounted(v, g)
  {
    hide Held, Uploading;
    assert KeptApart(w, f, w.tasks[i]);
    forall j | 0 <= j < |w.tasks|
      ensures KeptApart(v, g, v.tasks[j])
    {
      assert KeptApart(w, f, w.tasks[j]);
    }
    forall m | m in v.files
      ensures Recorded(v, g, m)
    {
      assert m in w.files ==> Recorded(w, f, m);
    }
  }

  lemma AccountedStep(w: World, e: Event, f: Fates)
    requires Locked(w) && Accounted(w, f)
    ensures Accounted(Apply(w, e), Fate(w, e, f))
  {
    if e.Advanced? && e.task < |w.tasks| {
      assert Knows(w.files, w.tasks[e.task]);
      AdvanceKeepsTheLock(w, e.task, e.ok);
      AdvanceMovesFiles(w, e.task, e.ok, f);
      AccountedNow(w, e.task, Advance(w, e.task, e.ok), f, Fate(w, e, f));
      hide Advance, Fate, Accounted, Moves;
    } else {
      var v := Apply(w, e);
      forall j | 0 <= j < |v.tasks|
        ensures KeptApart(v, f, v.tasks[j])
      {
        assert j < |w.tasks| ==> v.tasks[j] == w.tasks[j] && KeptApart(w, f, w.tasks[j]);
      }
      assert forall m :: m in w.files ==> Recorded(w, f, m);
    }
  }

  lemma {:induction false} AccountedAfter(w: World, run: seq<Event>, f: Fates)
    requires Locked(w) && Accounted(w, f)
    ensures Accounted(After(w, run), FatesAfter(w, run, f))
    decreases |run|
  {
    if run != [] {
      AccountedStep(w, run[0], f);
      LockedStep(w, run[0]);
      hide Accounted, Locked, Apply, Fate;
      AccountedAfter(Apply(w, run[0]), run[1..], Fate(w, run[0], f));
    }
  }

  // The files that were lost in a run.
  function Lost(run: seq<Event>): set<FileId> {
    FatesAfter(Initial(), run, NO_FATES).lost
  }

  /**
   The ledger of the files: in every interleaving and with every outcome, the file of a record is stored if
   and only if it was not lost.
   */
  lemma FileLedger(run: seq<Event>, md5: string)
    requires md5 in After(Initial(), run).files
    ensures After(Initial(), run).files[md5].file in After(Initial(), run).stored
            <==> After(Initial(), run).files[md5].file !in Lost(run)
  {
    AccountedAfter(Initial(), run, NO_FATES);
    assert Recorded(After(Initial(), run), FatesAfter(Initial(), run, NO_FATES), md5);
  }

  // Every row leads to a record, and the record to a stored file.
  ghost predicate RowsLeadToFiles(w: World) {
    forall row :: row in w.rows ==> row.md5 in w.files && w.files[row.md5].file in w.stored
  }

  /**
   In any run, orderly or not: each row leads to a stored file, if and only if each has a record, whose file
   was not lost.
   */
  lemma RowsAndRecords(run: seq<Event>)
    ensures RowsLeadToFiles(After(Initial(), run)) <==>
            && (forall row :: row in After(Initial(), run).rows ==> row.md5 in After(Initial(), run).files)
            && (forall row :: row in After(Initial(), run).rows && row.md5 in After(Initial(), run).files ==>
                  After(Initial(), run).files[row.md5].file !in Lost(run))
  {
    var w := After(Initial(), run);
    forall md5 | md5 in w.files
      ensures w.files[md5].file in w.stored <==> w.files[md5].file !in Lost(run)
    {
      FileLedger(run, md5);
    }
    hide After, Lost;
  }

  // In an orderly run each row leads to a stored file if and only if no row's file was lost.
  lemma RowsLeadToFilesExactly(run: seq<Event>)
    requires OrderlyRun(Initial(), run)
    ensures RowsLeadToFiles(After(Initial(), run)) <==>
            forall row :: row in After(Initial(), run).rows && row.md5 in After(Initial(), run).files ==>
              After(Initial(), run).files[row.md5].file !in Lost(run)
  {
    RowsAndRecords(run);
    var w := After(Initial(), run);
    forall row | row in w.rows
      ensures row.md5 in w.files
    {
      EveryRowHasARecord(run, row);
    }
    hide After, Lost, OrderlyRun;
  }
}
