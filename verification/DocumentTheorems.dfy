/** Safety of the document machine: live objects stay stored, the count quota holds, bytes do not. */
module DocumentTheorems {
  import opened Prelude
  import opened Documents

  /******* Every live row's object is in storage *******/

  /** The path a request has drawn for an object no committed row refers to yet. */
  predicate Drawn(op: Op) { op.Creating? || op.ReplaceRead? || op.Replacing? }

  /** The path a request will remove. */
  predicate Doomed(op: Op) { op.CleaningUp? || op.Scheduling? }

  predicate HasOld(op: Op) { op.ReplaceRead? || op.Replacing? }

  /** A live row: its object is stored, and nothing is about to remove it. */
  ghost predicate RowOk(s: State, d: nat)
    requires d in s.rows
  {
    var path := s.rows[d].path;
    && d < s.nextDoc
    && path.doc == d && path.serial < s.nextSerial
    && path in s.storage && path !in s.jobs
    && (forall c | c in s.ops :: Drawn(s.ops[c]) || Doomed(s.ops[c]) ==> s.ops[c].path != path)
  }

  ghost predicate OpOk(s: State, c: nat)
    requires c in s.ops
  {
    var op := s.ops[c];
    && op.path.serial < s.nextSerial && op.path.doc < s.nextDoc
    && (HasOld(op) ==> op.oldPath.doc == op.path.doc && op.oldPath.serial < s.nextSerial)
    && (Drawn(op) ==>
          && op.path !in s.jobs
          && (forall e | e in s.ops && e != c :: s.ops[e].path != op.path)
          && (forall e | e in s.ops && HasOld(s.ops[e]) :: s.ops[e].oldPath != op.path))
    && (op.Creating? ==>
          && op.path.doc !in s.rows
          && (forall e | e in s.ops && e != c :: s.ops[e].path.doc != op.path.doc))
    && ((op.Creating? || op.Replacing?) && op.uploaded ==> op.path in s.storage)
  }

  ghost predicate Safe(s: State) {
    && (forall d | d in s.rows :: RowOk(s, d))
    && (forall c | c in s.ops :: OpOk(s, c))
    && (forall p | p in s.jobs :: p.serial < s.nextSerial)
  }

  /** Nobody but `c` draws this path, and no live row has it. */
  ghost predicate Unused(s: State, path: Path, c: nat) {
    && path.serial < s.nextSerial && path.doc < s.nextDoc
    && (forall d | d in s.rows :: s.rows[d].path != path)
    && (forall e | e in s.ops && e != c :: Drawn(s.ops[e]) ==> s.ops[e].path != path)
    && (forall e | e in s.ops && e != c :: s.ops[e].Creating? ==> s.ops[e].path.doc != path.doc)
  }

  lemma UnlockedIsSafe(s: State, client: nat)
    requires Safe(s)
    ensures Safe(Unlocked(s, client))
  {
    var s' := Unlocked(s, client);
    forall d | d in s'.rows ensures RowOk(s', d) { assert RowOk(s, d); }
    forall c | c in s'.ops ensures OpOk(s', c) { assert OpOk(s, c); }
  }

  lemma DroppedOpIsSafe(s: State, client: nat)
    requires Safe(s)
    ensures Safe(s.(ops := s.ops - {client}))
  {
    var s' := s.(ops := s.ops - {client});
    forall d | d in s'.rows ensures RowOk(s', d) { assert RowOk(s, d); }
    forall c | c in s'.ops ensures OpOk(s', c) { assert OpOk(s, c); }
  }

  lemma FinishedIsSafe(s: State, client: nat)
    requires Safe(s)
    ensures Safe(Finished(s, client))
  {
    hide Safe;
    UnlockedIsSafe(s, client);
    DroppedOpIsSafe(Unlocked(s, client), client);
  }

  /** A request may turn into the removal of an unused path. */
  lemma DoomedIsSafe(s: State, client: nat, op: Op)
    requires Safe(s) && client in s.ops && Doomed(op) && Unused(s, op.path, client)
    ensures Safe(Becomes(s, client, op))
  {
    var s' := Becomes(s, client, op);
    forall d | d in s'.rows ensures RowOk(s', d) { assert RowOk(s, d); }
    forall c | c in s'.ops ensures OpOk(s', c) {
      assert c != client ==> OpOk(s, c);
    }
  }

  lemma CleanUpIsSafe(s: State, client: nat, path: Path, reason: Reason)
    requires Safe(s) && client in s.ops && Unused(s, path, client)
    ensures Safe(ThenCleanUp(s, client, path, reason))
  {
    UnlockedIsSafe(s, client);
    hide Safe;
    DoomedIsSafe(Unlocked(s, client), client, CleaningUp(path, reason));
  }

  /** An object may disappear when no live row has it and nobody draws it. */
  lemma RemovedObjectIsSafe(s: State, path: Path, client: nat)
    requires Safe(s) && Unused(s, path, client)
    requires client in s.ops ==> !Drawn(s.ops[client]) || s.ops[client].path != path
    ensures Safe(s.(storage := s.storage - {path}))
  {
    var s' := s.(storage := s.storage - {path});
    forall d | d in s'.rows ensures RowOk(s', d) { assert RowOk(s, d); }
    forall c | c in s'.ops ensures OpOk(s', c) { assert OpOk(s, c); }
  }

  lemma StoredObjectIsSafe(s: State, path: Path)
    requires Safe(s)
    ensures Safe(s.(storage := s.storage + {path}))
  {
    var s' := s.(storage := s.storage + {path});
    forall d | d in s'.rows ensures RowOk(s', d) { assert RowOk(s, d); }
    forall c | c in s'.ops ensures OpOk(s', c) { assert OpOk(s, c); }
  }

  lemma BeginCreateIsSafe(limits: Limits, s: State, client: nat, size: nat)
    requires Safe(s)
    ensures Safe(DoBeginCreate(limits, s, client, size))
  {
    hide Total;
    var s' := DoBeginCreate(limits, s, client, size);
    forall d | d in s'.rows ensures RowOk(s', d) { assert RowOk(s, d); }
    forall c | c in s'.ops ensures OpOk(s', c) {
      forall e | e in s.ops ensures OpOk(s, e) {}
      forall d | d in s.rows ensures RowOk(s, d) {}
    }
  }

  lemma BeginReplaceIsSafe(s: State, client: nat, doc: nat, size: nat)
    requires Safe(s)
    ensures Safe(DoBeginReplace(s, client, doc, size))
  {
    var s' := DoBeginReplace(s, client, doc, size);
    forall d | d in s'.rows ensures RowOk(s', d) { assert RowOk(s, d); }
    assert doc in s.rows ==> RowOk(s, doc);
    forall c | c in s'.ops ensures OpOk(s', c) {
      forall e | e in s.ops ensures OpOk(s, e) {}
    }
  }

  lemma BeginDeleteIsSafe(s: State, client: nat, doc: nat)
    requires Safe(s)
    ensures Safe(DoBeginDelete(s, client, doc))
  {
    var s' := DoBeginDelete(s, client, doc);
    forall d | d in s'.rows ensures RowOk(s', d) { assert RowOk(s, d); }
    assert doc in s.rows ==> RowOk(s, doc);
    forall c | c in s'.ops ensures OpOk(s', c) {
      forall e | e in s.ops ensures OpOk(s, e) {}
    }
  }

  lemma LockedReplaceIsSafe(s: State, client: nat)
    requires Safe(s) && client in s.ops && s.ops[client].ReplaceRead?
    ensures var op := s.ops[client];
            Safe(Becomes(s.(lock := Some(client)), client, Replacing(op.oldPath, op.path, op.size, false)))
  {
    var op := s.ops[client];
    var s' := Becomes(s.(lock := Some(client)), client, Replacing(op.oldPath, op.path, op.size, false));
    forall d | d in s'.rows ensures RowOk(s', d) { assert RowOk(s, d); }
    forall c | c in s'.ops ensures OpOk(s', c) { assert OpOk(s, c); }
  }

  lemma LockIsSafe(limits: Limits, s: State, client: nat)
    requires Safe(s)
    ensures Safe(DoLockReplace(limits, s, client))
  {
    hide Total;
    hide Safe;
    if client in s.ops && s.ops[client].ReplaceRead? {
      LockedReplaceIsSafe(s, client);
      FinishedIsSafe(s, client);
    }
  }

  lemma UploadedIsSafe(s: State, client: nat)
    requires Safe(s) && client in s.ops && (s.ops[client].Creating? || s.ops[client].Replacing?)
    requires s.ops[client].path in s.storage
    ensures Safe(Becomes(s, client, s.ops[client].(uploaded := true)))
  {
    var s' := Becomes(s, client, s.ops[client].(uploaded := true));
    forall d | d in s'.rows ensures RowOk(s', d) { assert RowOk(s, d); }
    forall c | c in s'.ops ensures OpOk(s', c) { assert OpOk(s, c); }
  }

  lemma UploadIsSafe(s: State, client: nat, ok: bool, stored: bool)
    requires Safe(s)
    ensures Safe(DoUpload(s, client, ok, stored))
  {
    hide Safe;
    if CanUpload(s, client) {
      var path := s.ops[client].path;
      var kept := s.(storage := s.storage + {path});
      StoredObjectIsSafe(s, path);
      if ok {
        UploadedIsSafe(kept, client);
      } else {
        FinishedIsSafe(s.(storage := if stored then s.storage + {path} else s.storage), client);
      }
    }
  }

  /** Writing the row of an uploaded object, the request no longer drawing its path. */
  lemma WrittenRowIsSafe(s: State, client: nat, size: nat)
    requires Safe(s) && client in s.ops && (s.ops[client].Creating? || s.ops[client].Replacing?)
    requires s.ops[client].uploaded
    ensures var path := s.ops[client].path;
            Safe(s.(rows := s.rows[path.doc := Row(path, size)], ops := s.ops - {client}))
  {
    assert OpOk(s, client);
    var path := s.ops[client].path;
    var s' := s.(rows := s.rows[path.doc := Row(path, size)], ops := s.ops - {client});
    forall d | d in s'.rows ensures RowOk(s', d) {
      assert d != path.doc ==> RowOk(s, d);
    }
    forall c | c in s'.ops ensures OpOk(s', c) { assert OpOk(s, c); }
  }

  lemma RemovedRowIsSafe(s: State, doc: nat)
    requires Safe(s)
    ensures Safe(s.(rows := s.rows - {doc}))
  {
    var s' := s.(rows := s.rows - {doc});
    forall d | d in s'.rows ensures RowOk(s', d) { assert RowOk(s, d); }
    forall c | c in s'.ops ensures OpOk(s', c) { assert OpOk(s, c); }
  }

  /** A request joins with the removal of a path nobody uses. */
  lemma JoiningCleanUpIsSafe(s: State, client: nat, op: Op)
    requires Safe(s) && client !in s.ops && Doomed(op) && Unused(s, op.path, client)
    requires forall e | e in s.ops :: Drawn(s.ops[e]) ==> s.ops[e].path != op.path
    ensures Safe(Becomes(s, client, op))
  {
    var s' := Becomes(s, client, op);
    forall d | d in s'.rows ensures RowOk(s', d) { assert RowOk(s, d); }
    forall c | c in s'.ops ensures OpOk(s', c) {
      assert c != client ==> OpOk(s, c);
    }
  }

  lemma OldPathIsUnused(s: State, client: nat, size: nat)
    requires Safe(s) && client in s.ops && s.ops[client].Replacing?
    ensures var op := s.ops[client];
            Unused(s.(rows := s.rows[op.path.doc := Row(op.path, size)], ops := s.ops - {client}), op.oldPath, client)
  {
    assert OpOk(s, client);
    forall e | e in s.ops ensures OpOk(s, e) {}
    forall d | d in s.rows ensures RowOk(s, d) {}
  }

  lemma CommitReplacedIsSafe(s: State, client: nat)
    requires Safe(s) && client in s.ops && s.ops[client].Replacing? && s.ops[client].uploaded
    requires s.ops[client].path.doc in s.rows
    ensures Safe(DoCommit(s, client))
  {
    var op := s.ops[client];
    var mid := s.(rows := s.rows[op.path.doc := Row(op.path, op.size)], ops := s.ops - {client});
    WrittenRowIsSafe(s, client, op.size);
    OldPathIsUnused(s, client, op.size);
    hide Safe;
    UnlockedIsSafe(mid, client);
    var cleaning := CleaningUp(op.oldPath, ReplacedObject);
    JoiningCleanUpIsSafe(Unlocked(mid, client), client, cleaning);
    assert s.ops[client := cleaning] == mid.ops[client := cleaning];
    assert DoCommit(s, client) == Becomes(Unlocked(mid, client), client, cleaning);
  }

  lemma OwnPathIsUnused(s: State, client: nat)
    requires Safe(s) && client in s.ops && (Drawn(s.ops[client]) || Doomed(s.ops[client]))
    ensures Unused(s, s.ops[client].path, client)
  {
    assert OpOk(s, client);
    forall e | e in s.ops ensures OpOk(s, e) {}
    forall d | d in s.rows ensures RowOk(s, d) {}
  }

  lemma DeletedPathIsUnused(s: State, client: nat)
    requires Safe(s) && client in s.ops && s.ops[client].Deleting?
    ensures Unused(s.(rows := s.rows - {s.ops[client].path.doc}), s.ops[client].path, client)
  {
    assert OpOk(s, client);
    forall e | e in s.ops ensures OpOk(s, e) {}
    forall d | d in s.rows ensures RowOk(s, d) {}
  }

  lemma CommitIsSafe(s: State, client: nat)
    requires Safe(s)
    ensures Safe(DoCommit(s, client))
  {
    hide Safe;
    if client in s.ops {
      match s.ops[client]
      case Creating(path, size, true) => {
        WrittenRowIsSafe(s, client, size);
        var mid := s.(rows := s.rows[path.doc := Row(path, size)], ops := s.ops - {client});
        UnlockedIsSafe(mid, client);
        assert DoCommit(s, client) == Unlocked(mid, client);
      }
      case Replacing(oldPath, path, size, true) => {
        if path.doc in s.rows {
          CommitReplacedIsSafe(s, client);
        } else {
          OwnPathIsUnused(s, client);
          CleanUpIsSafe(s, client, path, ReplaceMissing);
        }
      }
      case Deleting(path) => {
        RemovedRowIsSafe(s, path.doc);
        DeletedPathIsUnused(s, client);
        CleanUpIsSafe(s.(rows := s.rows - {path.doc}), client, path, DeletedObject);
        FinishedIsSafe(s, client);
      }
      case _ => {}
    }
  }

  lemma AbortIsSafe(s: State, client: nat)
    requires Safe(s)
    ensures Safe(DoAbort(s, client))
  {
    hide Safe;
    if client in s.ops {
      FinishedIsSafe(s, client);
      match s.ops[client]
      case Creating(path, _, true) => {
        OwnPathIsUnused(s, client);
        CleanUpIsSafe(s, client, path, CreateCompensation);
      }
      case Replacing(_, path, _, true) => {
        OwnPathIsUnused(s, client);
        DoomedIsSafe(s, client, CleaningUp(path, ReplaceCompensation));
      }
      case _ => {}
    }
  }

  lemma DeleteObjectIsSafe(s: State, client: nat, ok: bool, removed: bool)
    requires Safe(s)
    ensures Safe(DoDeleteObject(s, client, ok, removed))
  {
    hide Safe;
    if client in s.ops && s.ops[client].CleaningUp? {
      var op := s.ops[client];
      OwnPathIsUnused(s, client);
      RemovedObjectIsSafe(s, op.path, client);
      if ok {
        FinishedIsSafe(s.(storage := s.storage - {op.path}), client);
      } else {
        var mid := s.(storage := if removed then s.storage - {op.path} else s.storage);
        DoomedIsSafe(mid, client, Scheduling(op.path, op.reason));
      }
    }
  }

  lemma JobIsSafe(s: State, client: nat, keys: set<Key>)
    requires Safe(s) && client in s.ops && Doomed(s.ops[client])
    ensures Safe(s.(keys := keys, jobs := s.jobs + {s.ops[client].path}))
  {
    assert OpOk(s, client);
    var s' := s.(keys := keys, jobs := s.jobs + {s.ops[client].path});
    forall d | d in s'.rows ensures RowOk(s', d) { assert RowOk(s, d); }
    forall c | c in s'.ops ensures OpOk(s', c) { assert OpOk(s, c); }
  }

  lemma ScheduleIsSafe(s: State, client: nat, ok: bool)
    requires Safe(s)
    ensures Safe(DoSchedule(s, client, ok))
  {
    hide Safe;
    if client in s.ops && s.ops[client].Scheduling? {
      var op := s.ops[client];
      FinishedIsSafe(s, client);
      var keys := s.keys + {Key(op.path.doc, op.reason)};
      JobIsSafe(s, client, keys);
      FinishedIsSafe(s.(keys := keys, jobs := s.jobs + {op.path}), client);
    }
  }

  lemma RunJobIsSafe(s: State, path: Path)
    requires Safe(s)
    ensures Safe(DoRunJob(s, path))
  {
    var s' := DoRunJob(s, path);
    forall d | d in s'.rows ensures RowOk(s', d) { assert RowOk(s, d); }
    forall c | c in s'.ops ensures OpOk(s', c) { assert OpOk(s, c); }
  }

  lemma NextIsSafe(limits: Limits, s: State, step: Step)
    requires Safe(s)
    ensures Safe(Next(limits, s, step))
  {
    hide Safe;
    match step {
      case BeginCreate(client, size) => BeginCreateIsSafe(limits, s, client, size);
      case BeginReplace(client, doc, size) => BeginReplaceIsSafe(s, client, doc, size);
      case BeginDelete(client, doc) => BeginDeleteIsSafe(s, client, doc);
      case LockReplace(client) => LockIsSafe(limits, s, client);
      case Upload(client, ok, stored) => UploadIsSafe(s, client, ok, stored);
      case Commit(client) => CommitIsSafe(s, client);
      case LoseCommit(client) => FinishedIsSafe(s, client);
      case Abort(client) => AbortIsSafe(s, client);
      case DeleteObject(client, ok, removed) => DeleteObjectIsSafe(s, client, ok, removed);
      case Schedule(client, ok) => ScheduleIsSafe(s, client, ok);
      case RunJob(path) => RunJobIsSafe(s, path);
    }
  }

  lemma {:induction false} EveryRunIsSafe(limits: Limits, s: State, steps: seq<Step>)
    requires Safe(s)
    ensures Safe(After(limits, s, steps))
  {
    hide Safe;
    hide Next;
    if steps != [] {
      EveryRunIsSafe(limits, s, steps[..|steps| - 1]);
      NextIsSafe(limits, After(limits, s, steps[..|steps| - 1]), steps[|steps| - 1]);
    }
  }

  /**
    In every interleaving, with any step failing and uploads and deletes failing half way, the
    object of every live row is in storage, no queued delete names it, and live objects are distinct.
   */
  lemma LiveObjectsAreStored(limits: Limits, steps: seq<Step>)
    ensures var s := After(limits, EMPTY, steps);
            && (forall d | d in s.rows :: s.rows[d].path in s.storage && s.rows[d].path !in s.jobs)
            && (forall d, e | d in s.rows && e in s.rows && d != e :: s.rows[d].path != s.rows[e].path)
  {
    EveryRunIsSafe(limits, EMPTY, steps);
    var s := After(limits, EMPTY, steps);
    forall d | d in s.rows
      ensures s.rows[d].path in s.storage && s.rows[d].path !in s.jobs && s.rows[d].path.doc == d
    {
      assert RowOk(s, d);
    }
  }
}
