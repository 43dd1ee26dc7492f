/**
  Whole requests run one at a time: each is the machine's steps for one client, back to back. Says
  exactly which failures leave an object nobody will ever delete.
 */
module DocumentRequests {
  import opened Prelude
  import opened Documents
  import opened DocumentTheorems
  import opened DocumentQuotas

  /** The answer of a storage call; a failed call may still have taken effect. */
  datatype Reply = Done | Failed(anyway: bool)

  datatype Ending = Commits | RollsBack | CommitLost

  /** What goes wrong during one request. */
  datatype Faults = Faults(upload: Reply, ending: Ending, deletion: Reply, queued: bool)

  datatype Request =
    | CreateDocument(size: nat, faults: Faults)
    | ReplaceDocument(doc: nat, size: nat, faults: Faults)
    | DeleteDocument(doc: nat, faults: Faults)
    | StorageJob(path: Path)

  function Uploaded(s: State, f: Faults): State {
    DoUpload(s, 0, f.upload.Done?, f.upload.Failed? && f.upload.anyway)
  }

  function TidiedUp(s: State, f: Faults): State {
    DoSchedule(DoDeleteObject(s, 0, f.deletion.Done?, f.deletion.Failed? && f.deletion.anyway), 0, f.queued)
  }

  /** Only a replacement leaves its compensating handler before the commit. */
  function EndedReplace(s: State, ending: Ending): State {
    match ending
    case Commits => DoCommit(s, 0)
    case RollsBack => DoAbort(s, 0)
    case CommitLost => DoLoseCommit(s, 0)
  }

  function Ended(s: State, ending: Ending): State {
    if ending.Commits? then DoCommit(s, 0) else DoAbort(s, 0)
  }

  function Handle(limits: Limits, s: State, r: Request): State {
    match r
    case CreateDocument(size, f) => TidiedUp(Ended(Uploaded(DoBeginCreate(limits, s, 0, size), f), f.ending), f)
    case ReplaceDocument(doc, size, f) =>
      TidiedUp(EndedReplace(Uploaded(DoLockReplace(limits, DoBeginReplace(s, 0, doc, size), 0), f), f.ending), f)
    case DeleteDocument(doc, f) => TidiedUp(Ended(DoBeginDelete(s, 0, doc), f.ending), f)
    case StorageJob(path) => DoRunJob(s, path)
  }

  /** No request is in flight. */
  predicate AtRest(s: State) { s.ops == map[] && s.lock == None }

  /******* What each request does, told without the steps *******/

  /** Deleting an object, or queueing its deletion when that fails. */
  function CleanedUp(s: State, path: Path, reason: Reason, f: Faults): State {
    if f.deletion == Failed(false) then
      var key := Key(path.doc, reason);
      if !f.queued || key in s.keys then s else s.(keys := s.keys + {key}, jobs := s.jobs + {path})
    else
      var removed := s.(storage := s.storage - {path});
      if f.deletion.Done? || !f.queued || Key(path.doc, reason) in s.keys then removed
      else removed.(keys := s.keys + {Key(path.doc, reason)}, jobs := s.jobs + {path})
  }

  function Kept(s: State, path: Path): State { s.(storage := s.storage + {path}) }

  /** A creation from its upload on. */
  function StoredNew(drawn: State, path: Path, size: nat, f: Faults): State {
    match f.upload
    case Failed(anyway) => if anyway then Kept(drawn, path) else drawn
    case Done =>
      if f.ending.Commits? then Kept(drawn, path).(rows := drawn.rows[path.doc := Row(path, size)])
      else CleanedUp(Kept(drawn, path), path, CreateCompensation, f)
  }

  function Created(limits: Limits, s: State, size: nat, f: Faults): State {
    if !WithinQuota(limits, |s.rows| + 1, Total(s.rows, s.nextDoc) + size) then s
    else
      StoredNew(s.(nextDoc := s.nextDoc + 1, nextSerial := s.nextSerial + 1), Path(s.nextDoc, s.nextSerial), size, f)
  }

  function Replaced(limits: Limits, s: State, doc: nat, size: nat, f: Faults): State {
    if doc !in s.rows then s
    else
      var path := Path(doc, s.nextSerial);
      var drawn := s.(nextSerial := s.nextSerial + 1);
      if !WithinQuota(limits, |s.rows|, Total(s.rows, s.nextDoc) - s.rows[doc].size + size) then drawn
      else
        match f.upload
        case Failed(anyway) => if anyway then Kept(drawn, path) else drawn
        case Done =>
          match f.ending
          case Commits =>
            CleanedUp(Kept(drawn, path).(rows := s.rows[doc := Row(path, size)]), s.rows[doc].path, ReplacedObject, f)
          case RollsBack => CleanedUp(Kept(drawn, path), path, ReplaceCompensation, f)
          case CommitLost => Kept(drawn, path)
  }

  function Deleted(s: State, doc: nat, f: Faults): State {
    if doc !in s.rows || !f.ending.Commits? then s
    else CleanedUp(s.(rows := s.rows - {doc}), s.rows[doc].path, DeletedObject, f)
  }

  lemma TidiedUpIs(s: State, path: Path, reason: Reason, f: Faults)
    requires s.ops == map[0 := CleaningUp(path, reason)] && (s.lock == None || s.lock == Some(0))
    ensures TidiedUp(s, f) == CleanedUp(s.(ops := map[], lock := None), path, reason, f)
  {
    hide Total;
    if f.deletion.Done? {
      FinishedLeavesNobody(s.(storage := s.storage - {path}), CleaningUp(path, reason));
    } else {
      var op := Scheduling(path, reason);
      assert s.ops[0 := op] == map[0 := op];
      var left := s.(storage := if f.deletion.anyway then s.storage - {path} else s.storage, ops := map[0 := op]);
      assert DoDeleteObject(s, 0, false, f.deletion.anyway) == left;
      ScheduledIs(left, path, reason, f.queued);
    }
  }

  lemma ScheduledIs(s: State, path: Path, reason: Reason, queued: bool)
    requires s.ops == map[0 := Scheduling(path, reason)] && (s.lock == None || s.lock == Some(0))
    ensures var key := Key(path.doc, reason);
            DoSchedule(s, 0, queued) ==
            (if !queued || key in s.keys then s else s.(keys := s.keys + {key}, jobs := s.jobs + {path}))
              .(ops := map[], lock := None)
  {
    var key := Key(path.doc, reason);
    FinishedLeavesNobody(s, Scheduling(path, reason));
    FinishedLeavesNobody(s.(keys := s.keys + {key}, jobs := s.jobs + {path}), Scheduling(path, reason));
  }

  lemma TidiedUpAtRest(s: State, f: Faults)
    requires AtRest(s)
    ensures TidiedUp(s, f) == s
  {
  }

  lemma FinishedLeavesNobody(s: State, op: Op)
    requires s.ops == map[0 := op] && (s.lock == None || s.lock == Some(0))
    ensures Finished(s, 0) == s.(ops := map[], lock := None)
  {
    assert s.ops - {0} == map[];
  }

  lemma UploadedIs(s: State, op: Op, f: Faults)
    requires s.ops == map[0 := op] && s.lock == Some(0)
    requires (op.Creating? || op.Replacing?) && !op.uploaded
    ensures Uploaded(s, f) ==
            match f.upload
            case Done => Kept(s, op.path).(ops := map[0 := op.(uploaded := true)])
            case Failed(anyway) => (if anyway then Kept(s, op.path) else s).(ops := map[], lock := None)
  {
    assert s.ops[0 := op.(uploaded := true)] == map[0 := op.(uploaded := true)];
    FinishedLeavesNobody(s.(storage := if f.upload.Failed? && f.upload.anyway then s.storage + {op.path} else s.storage), op);
  }

  lemma CreateIs(limits: Limits, s: State, size: nat, f: Faults)
    requires AtRest(s)
    ensures Handle(limits, s, CreateDocument(size, f)) == Created(limits, s, size, f)
  {
    hide Total;
    hide TidiedUp;
    hide Uploaded;
    hide Ended;
    hide CleanedUp;
    if WithinQuota(limits, |s.rows| + 1, Total(s.rows, s.nextDoc) + size) {
      var begun := DoBeginCreate(limits, s, 0, size);
      var op := Creating(Path(s.nextDoc, s.nextSerial), size, false);
      assert begun.ops == map[0 := op];
      UploadedIs(begun, op, f);
      GrantedCreateIs(s, Uploaded(begun, f), size, f);
    } else {
      UploadAtRest(s, f);
      assert Ended(s, f.ending) == s by { EndedAtRest(s, f.ending); }
      TidiedUpAtRest(s, f);
    }
  }

  lemma RefusedCreateIs(limits: Limits, s: State, size: nat, f: Faults)
    requires AtRest(s) && !WithinQuota(limits, |s.rows| + 1, Total(s.rows, s.nextDoc) + size)
    ensures Handle(limits, s, CreateDocument(size, f)) == s
  {
    hide Handle;
    hide StoredNew;
    hide Total;
    hide WithinQuota;
    CreateIs(limits, s, size, f);
  }

  lemma AcceptedCreateIs(limits: Limits, s: State, size: nat, f: Faults)
    requires AtRest(s) && WithinQuota(limits, |s.rows| + 1, Total(s.rows, s.nextDoc) + size)
    ensures Handle(limits, s, CreateDocument(size, f)) ==
            StoredNew(s.(nextDoc := s.nextDoc + 1, nextSerial := s.nextSerial + 1),
                      Path(s.nextDoc, s.nextSerial), size, f)
  {
    hide Handle;
    hide StoredNew;
    hide Total;
    hide WithinQuota;
    CreateIs(limits, s, size, f);
  }

  lemma EndedAtRest(s: State, ending: Ending)
    requires AtRest(s)
    ensures Ended(s, ending) == s
  {
  }

  /** From the upload of a granted creation on. */
  lemma GrantedCreateIs(s: State, up: State, size: nat, f: Faults)
    requires AtRest(s)
    requires var path := Path(s.nextDoc, s.nextSerial);
             var drawn := s.(nextDoc := s.nextDoc + 1, nextSerial := s.nextSerial + 1);
             up == match f.upload
                   case Done => Kept(drawn, path).(ops := map[0 := Creating(path, size, true)], lock := Some(0))
                   case Failed(anyway) => if anyway then Kept(drawn, path) else drawn
    ensures var path := Path(s.nextDoc, s.nextSerial);
            var drawn := s.(nextDoc := s.nextDoc + 1, nextSerial := s.nextSerial + 1);
            TidiedUp(Ended(up, f.ending), f) == StoredNew(drawn, path, size, f)
  {
    hide TidiedUp;
    hide CleanedUp;
    var path := Path(s.nextDoc, s.nextSerial);
    var drawn := s.(nextDoc := s.nextDoc + 1, nextSerial := s.nextSerial + 1);
    match f.upload
    case Failed(_) => {
      EndedAtRest(up, f.ending);
      TidiedUpAtRest(up, f);
    }
    case Done => {
      if f.ending.Commits? {
        FinishedLeavesNobody(up.(rows := s.rows[path.doc := Row(path, size)]), Creating(path, size, true));
        TidiedUpAtRest(Kept(drawn, path).(rows := s.rows[path.doc := Row(path, size)]), f);
      } else {
        TidiedUpIs(DoAbort(up, 0), path, CreateCompensation, f);
      }
    }
  }

  lemma UploadAtRest(s: State, f: Faults)
    requires AtRest(s)
    ensures Uploaded(s, f) == s
  {
  }

  lemma ReplaceIs(limits: Limits, s: State, doc: nat, size: nat, f: Faults)
    requires AtRest(s)
    ensures Handle(limits, s, ReplaceDocument(doc, size, f)) == Replaced(limits, s, doc, size, f)
  {
    hide Total;
    hide TidiedUp;
    hide CleanedUp;
    hide Uploaded;
    hide EndedReplace;
    if doc !in s.rows {
      UploadAtRest(s, f);
      EndAtRest(s, f.ending);
      TidiedUpAtRest(s, f);
    } else {
      var begun := DoBeginReplace(s, 0, doc, size);
      var row := s.rows[doc];
      var path := Path(doc, s.nextSerial);
      var drawn := s.(nextSerial := s.nextSerial + 1);
      if !WithinQuota(limits, |s.rows|, Total(s.rows, s.nextDoc) - row.size + size) {
        FinishedLeavesNobody(begun, ReplaceRead(row.path, row.size, path, size));
        UploadAtRest(drawn, f);
        EndAtRest(drawn, f.ending);
        TidiedUpAtRest(drawn, f);
      } else {
        var locked := DoLockReplace(limits, begun, 0);
        var op := Replacing(row.path, path, size, false);
        assert locked.ops == map[0 := op];
        UploadedIs(locked, op, f);
        GrantedReplaceIs(s, Uploaded(locked, f), doc, size, f);
      }
    }
  }

  lemma EndAtRest(s: State, ending: Ending)
    requires AtRest(s)
    ensures EndedReplace(s, ending) == s
  {
  }

  /** From the upload of a granted replacement on. */
  lemma GrantedReplaceIs(s: State, up: State, doc: nat, size: nat, f: Faults)
    requires AtRest(s) && doc in s.rows
    requires var path := Path(doc, s.nextSerial);
             var drawn := s.(nextSerial := s.nextSerial + 1);
             up == match f.upload
                   case Done => Kept(drawn, path).(ops := map[0 := Replacing(s.rows[doc].path, path, size, true)], lock := Some(0))
                   case Failed(anyway) => if anyway then Kept(drawn, path) else drawn
    ensures var path := Path(doc, s.nextSerial);
            var drawn := s.(nextSerial := s.nextSerial + 1);
            TidiedUp(EndedReplace(up, f.ending), f) ==
            match f.upload
            case Failed(anyway) => if anyway then Kept(drawn, path) else drawn
            case Done =>
              match f.ending
              case Commits =>
                CleanedUp(Kept(drawn, path).(rows := s.rows[doc := Row(path, size)]), s.rows[doc].path, ReplacedObject, f)
              case RollsBack => CleanedUp(Kept(drawn, path), path, ReplaceCompensation, f)
              case CommitLost => Kept(drawn, path)
  {
    hide TidiedUp;
    hide CleanedUp;
    var path := Path(doc, s.nextSerial);
    var drawn := s.(nextSerial := s.nextSerial + 1);
    match f.upload
    case Failed(_) => {
      EndAtRest(up, f.ending);
      TidiedUpAtRest(up, f);
    }
    case Done => {
      var op := Replacing(s.rows[doc].path, path, size, true);
      match f.ending
      case Commits => {
        TidiedUpIs(DoCommit(up, 0), s.rows[doc].path, ReplacedObject, f);
      }
      case RollsBack => {
        TidiedUpIs(DoAbort(up, 0), path, ReplaceCompensation, f);
      }
      case CommitLost => {
        FinishedLeavesNobody(up, op);
        TidiedUpAtRest(Kept(drawn, path), f);
      }
    }
  }

  lemma DeleteIs(limits: Limits, s: State, doc: nat, f: Faults)
    requires AtRest(s) && (doc in s.rows ==> s.rows[doc].path.doc == doc)
    ensures Handle(limits, s, DeleteDocument(doc, f)) == Deleted(s, doc, f)
  {
    hide Total;
    hide TidiedUp;
    hide CleanedUp;
    TidiedUpAtRest(s, f);
    if doc in s.rows {
      var begun := DoBeginDelete(s, 0, doc);
      var path := s.rows[doc].path;
      FinishedLeavesNobody(begun, Deleting(path));
      if f.ending.Commits? {
        TidiedUpIs(DoCommit(begun, 0), path, DeletedObject, f);
      }
    }
  }
}
