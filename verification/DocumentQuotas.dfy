/**
  The count and byte quotas over every interleaving. The advisory lock makes the count safe; the
  size a replacement gives back was read before the lock was taken, so the bytes are not.
 */
module DocumentQuotas {
  import opened Prelude
  import opened Documents
  import opened DocumentTheorems

  /** A request inside its locked section. */
  predicate Holding(op: Op) { op.Creating? || op.Replacing? }

  /** One locked request at a time, and a slot is left for the document it creates. */
  ghost predicate CountRoom(limits: Limits, s: State) {
    && |s.rows| <= limits.maxCount
    && (forall c | c in s.ops && Holding(s.ops[c]) :: s.lock == Some(c))
    && (forall c | c in s.ops && s.ops[c].Creating? :: |s.rows| + 1 <= limits.maxCount)
  }

  /** Live bytes if the request committed now. */
  function BytesAfter(s: State, op: Op): int
    requires Holding(op)
  {
    var total := Total(s.rows, s.nextDoc);
    if op.Creating? then total + op.size
    else if op.path.doc in s.rows then total - s.rows[op.path.doc].size + op.size
    else total
  }

  ghost predicate ByteRoom(limits: Limits, s: State) {
    && Total(s.rows, s.nextDoc) <= limits.quota
    && (forall c | c in s.ops && Holding(s.ops[c]) :: BytesAfter(s, s.ops[c]) <= limits.quota)
  }

  lemma {:induction false} TotalOfWritten(rows: map<nat, Row>, n: nat, d: nat, row: Row)
    ensures Total(rows[d := row], n) ==
            Total(rows, n) + if d < n then row.size - (if d in rows then rows[d].size else 0) else 0
  {
    if n > 0 { TotalOfWritten(rows, n - 1, d, row); }
  }

  lemma {:induction false} TotalOfRemoved(rows: map<nat, Row>, n: nat, d: nat)
    ensures Total(rows - {d}, n) == Total(rows, n) - if d < n && d in rows then rows[d].size else 0
  {
    if n > 0 { TotalOfRemoved(rows, n - 1, d); }
  }

  /** Same rows, and every locked request was already there with the same lock. */
  ghost predicate Quiet(s: State, s': State) {
    && s'.rows == s.rows && Total(s'.rows, s'.nextDoc) == Total(s.rows, s.nextDoc)
    && (forall c | c in s'.ops && Holding(s'.ops[c]) ::
          && c in s.ops && s'.lock == s.lock
          && s.ops[c].Creating? == s'.ops[c].Creating? && s.ops[c].Replacing? == s'.ops[c].Replacing?
          && s.ops[c].path == s'.ops[c].path && s.ops[c].size == s'.ops[c].size)
  }

  lemma QuietKeepsRoom(limits: Limits, s: State, s': State)
    requires CountRoom(limits, s) && Quiet(s, s')
    ensures CountRoom(limits, s')
    ensures ByteRoom(limits, s) ==> ByteRoom(limits, s')
  {
    hide Total;
  }

  predicate Passive(s: State, step: Step) {
    match step
    case BeginCreate(_, _) => false
    case LockReplace(_) => false
    case Commit(_) => false
    case _ => true
  }

  lemma FinishedIsQuiet(limits: Limits, s: State, client: nat)
    requires CountRoom(limits, s)
    ensures Quiet(s, Finished(s, client))
  {
    hide Total;
  }

  lemma PassiveStepIsQuiet(limits: Limits, s: State, step: Step)
    requires CountRoom(limits, s) && Passive(s, step)
    ensures Quiet(s, Next(limits, s, step))
  {
    hide Total;
    hide Quiet;
    hide CountRoom;
    match step
    case BeginReplace(client, doc, size) => BeginIsQuiet(limits, s, step);
    case BeginDelete(client, doc) => BeginIsQuiet(limits, s, step);
    case Upload(client, ok, stored) => UploadIsQuiet(limits, s, client, ok, stored);
    case LoseCommit(client) => LoseCommitIsQuiet(limits, s, client);
    case Abort(client) => AbortIsQuiet(limits, s, client);
    case DeleteObject(client, ok, removed) => DeleteObjectIsQuiet(limits, s, client, ok, removed);
    case Schedule(client, ok) => ScheduleIsQuiet(limits, s, client, ok);
    case RunJob(path) => RunJobIsQuiet(limits, s, path);
  }

  lemma LoseCommitIsQuiet(limits: Limits, s: State, client: nat)
    requires CountRoom(limits, s)
    ensures Quiet(s, DoLoseCommit(s, client))
  {
    hide Total;
  }

  lemma BeginIsQuiet(limits: Limits, s: State, step: Step)
    requires CountRoom(limits, s) && (step.BeginReplace? || step.BeginDelete?)
    ensures Quiet(s, Next(limits, s, step))
  {
    hide Total;
  }

  lemma RunJobIsQuiet(limits: Limits, s: State, path: Path)
    requires CountRoom(limits, s)
    ensures Quiet(s, DoRunJob(s, path))
  {
    hide Total;
  }

  lemma UploadIsQuiet(limits: Limits, s: State, client: nat, ok: bool, stored: bool)
    requires CountRoom(limits, s)
    ensures Quiet(s, DoUpload(s, client, ok, stored))
  {
    hide Total;
  }

  lemma AbortIsQuiet(limits: Limits, s: State, client: nat)
    requires CountRoom(limits, s)
    ensures Quiet(s, DoAbort(s, client))
  {
    hide Total;
  }

  lemma DeleteObjectIsQuiet(limits: Limits, s: State, client: nat, ok: bool, removed: bool)
    requires CountRoom(limits, s)
    ensures Quiet(s, DoDeleteObject(s, client, ok, removed))
  {
    hide Total;
  }

  lemma ScheduleIsQuiet(limits: Limits, s: State, client: nat, ok: bool)
    requires CountRoom(limits, s)
    ensures Quiet(s, DoSchedule(s, client, ok))
  {
    hide Total;
  }

  lemma GrantedCreateKeepsRoom(limits: Limits, s: State, client: nat, op: Op)
    requires op.Creating? && op.path.doc == s.nextDoc && s.nextDoc !in s.rows && s.lock == None
    requires CountRoom(limits, s) && WithinQuota(limits, |s.rows| + 1, Total(s.rows, s.nextDoc) + op.size)
    ensures var s' := s.(ops := s.ops[client := op], lock := Some(client), nextDoc := s.nextDoc + 1);
            CountRoom(limits, s') && (ByteRoom(limits, s) ==> ByteRoom(limits, s'))
  {
    var s' := s.(ops := s.ops[client := op], lock := Some(client), nextDoc := s.nextDoc + 1);
    assert Total(s'.rows, s'.nextDoc) == Total(s.rows, s.nextDoc);
    hide Total;
  }

  lemma BeginCreateKeepsRoom(limits: Limits, s: State, client: nat, size: nat)
    requires Safe(s) && CountRoom(limits, s)
    ensures CountRoom(limits, DoBeginCreate(limits, s, client, size))
    ensures ByteRoom(limits, s) ==> ByteRoom(limits, DoBeginCreate(limits, s, client, size))
  {
    assert s.nextDoc in s.rows ==> RowOk(s, s.nextDoc);
    hide Total;
    hide Safe;
    if client !in s.ops && s.lock.None? && WithinQuota(limits, |s.rows| + 1, Total(s.rows, s.nextDoc) + size) {
      var op := Creating(Path(s.nextDoc, s.nextSerial), size, false);
      GrantedCreateKeepsRoom(limits, s, client, op);
      var s' := s.(ops := s.ops[client := op], lock := Some(client), nextDoc := s.nextDoc + 1);
      hide CountRoom;
      hide ByteRoom;
      hide WithinQuota;
      SerialIsFree(limits, s', s.nextSerial + 1);
      assert DoBeginCreate(limits, s, client, size) == s'.(nextSerial := s.nextSerial + 1);
    }
  }

  lemma SerialIsFree(limits: Limits, s: State, serial: nat)
    ensures CountRoom(limits, s.(nextSerial := serial)) == CountRoom(limits, s)
    ensures ByteRoom(limits, s.(nextSerial := serial)) == ByteRoom(limits, s)
  {
    hide Total;
  }

  lemma LockKeepsCount(limits: Limits, s: State, client: nat)
    requires CountRoom(limits, s)
    ensures CountRoom(limits, DoLockReplace(limits, s, client))
  {
    hide Total;
    FinishedIsQuiet(limits, s, client);
    QuietKeepsRoom(limits, s, Finished(s, client));
  }

  /** The request gives back more bytes than the row now holds. */
  predicate GivesBackTooMuch(s: State, client: nat) {
    && client in s.ops && s.ops[client].ReplaceRead?
    && s.ops[client].path.doc in s.rows
    && s.ops[client].oldSize > s.rows[s.ops[client].path.doc].size
  }

  lemma LockKeepsBytes(limits: Limits, s: State, client: nat)
    requires CountRoom(limits, s) && ByteRoom(limits, s) && !GivesBackTooMuch(s, client)
    ensures ByteRoom(limits, DoLockReplace(limits, s, client))
  {
    hide Total;
    FinishedIsQuiet(limits, s, client);
    QuietKeepsRoom(limits, s, Finished(s, client));
  }

  lemma CreatedKeepsRoom(limits: Limits, s: State, client: nat)
    requires Safe(s) && CountRoom(limits, s)
    requires client in s.ops && s.ops[client].Creating? && s.ops[client].uploaded
    ensures CountRoom(limits, DoCommit(s, client))
    ensures ByteRoom(limits, s) ==> ByteRoom(limits, DoCommit(s, client))
  {
    assert OpOk(s, client);
    hide Safe;
    hide Total;
    var op := s.ops[client];
    TotalOfWritten(s.rows, s.nextDoc, op.path.doc, Row(op.path, op.size));
  }

  lemma ReplacedKeepsRoom(limits: Limits, s: State, client: nat)
    requires Safe(s) && CountRoom(limits, s)
    requires client in s.ops && s.ops[client].Replacing? && s.ops[client].uploaded
    ensures CountRoom(limits, DoCommit(s, client))
    ensures ByteRoom(limits, s) ==> ByteRoom(limits, DoCommit(s, client))
  {
    var op := s.ops[client];
    assert op.path.doc < s.nextDoc by { assert OpOk(s, client); }
    hide Safe;
    hide Total;
    TotalOfWritten(s.rows, s.nextDoc, op.path.doc, Row(op.path, op.size));
  }

  lemma RemovedRowKeepsRoom(limits: Limits, s: State, doc: nat)
    requires Safe(s) && CountRoom(limits, s)
    ensures CountRoom(limits, s.(rows := s.rows - {doc}))
    ensures ByteRoom(limits, s) ==> ByteRoom(limits, s.(rows := s.rows - {doc}))
  {
    var s' := s.(rows := s.rows - {doc});
    assert |s'.rows| <= |s.rows| by {
      assert s'.rows.Keys == s.rows.Keys - {doc};
      assert |s'.rows| == |s'.rows.Keys| && |s.rows| == |s.rows.Keys|;
    }
    TotalOfRemoved(s.rows, s.nextDoc, doc);
    assert doc in s.rows ==> RowOk(s, doc);
    if ByteRoom(limits, s) {
      forall c | c in s'.ops && Holding(s'.ops[c]) ensures BytesAfter(s', s'.ops[c]) <= limits.quota {
        assert BytesAfter(s, s.ops[c]) <= limits.quota;
      }
    }
  }

  lemma DeletedKeepsRoom(limits: Limits, s: State, client: nat)
    requires Safe(s) && CountRoom(limits, s) && client in s.ops && s.ops[client].Deleting?
    ensures CountRoom(limits, DoCommit(s, client))
    ensures ByteRoom(limits, s) ==> ByteRoom(limits, DoCommit(s, client))
  {
    var path := s.ops[client].path;
    var mid := s.(rows := s.rows - {path.doc});
    RemovedRowKeepsRoom(limits, s, path.doc);
    hide Safe;
    hide Total;
    FinishedIsQuiet(limits, s, client);
    QuietKeepsRoom(limits, s, Finished(s, client));
    QuietKeepsRoom(limits, mid, ThenCleanUp(mid, client, path, DeletedObject));
  }

  lemma CommitKeepsRoom(limits: Limits, s: State, client: nat)
    requires Safe(s) && CountRoom(limits, s)
    ensures CountRoom(limits, DoCommit(s, client))
    ensures ByteRoom(limits, s) ==> ByteRoom(limits, DoCommit(s, client))
  {
    hide Safe;
    hide Total;
    hide CountRoom;
    hide ByteRoom;
    if client in s.ops {
      match s.ops[client]
      case Creating(_, _, true) => CreatedKeepsRoom(limits, s, client);
      case Replacing(_, _, _, true) => ReplacedKeepsRoom(limits, s, client);
      case Deleting(_) => DeletedKeepsRoom(limits, s, client);
      case _ => {}
    }
  }

  lemma NextKeepsRoom(limits: Limits, s: State, step: Step)
    requires Safe(s) && CountRoom(limits, s)
    ensures CountRoom(limits, Next(limits, s, step))
    ensures ByteRoom(limits, s) && (step.LockReplace? ==> !GivesBackTooMuch(s, step.client)) ==>
              ByteRoom(limits, Next(limits, s, step))
  {
    hide Safe;
    hide Total;
    hide CountRoom;
    hide ByteRoom;
    hide GivesBackTooMuch;
    if Passive(s, step) {
      PassiveStepIsQuiet(limits, s, step);
      QuietKeepsRoom(limits, s, Next(limits, s, step));
    } else {
      match step
      case BeginCreate(client, size) => BeginCreateKeepsRoom(limits, s, client, size);
      case LockReplace(client) => {
        LockKeepsCount(limits, s, client);
        if ByteRoom(limits, s) && !GivesBackTooMuch(s, client) { LockKeepsBytes(limits, s, client); }
      }
      case Commit(client) => CommitKeepsRoom(limits, s, client);
    }
  }

  lemma {:induction false} EveryRunKeepsCount(limits: Limits, s: State, steps: seq<Step>)
    requires Safe(s) && CountRoom(limits, s)
    ensures Safe(After(limits, s, steps)) && CountRoom(limits, After(limits, s, steps))
  {
    hide Safe;
    hide CountRoom;
    hide Next;
    EveryRunIsSafe(limits, s, steps);
    if steps != [] {
      EveryRunKeepsCount(limits, s, steps[..|steps| - 1]);
      NextKeepsRoom(limits, After(limits, s, steps[..|steps| - 1]), steps[|steps| - 1]);
    }
  }

  /** The document count never exceeds its limit, whatever interleaves and whatever fails. */
  lemma CountQuotaAlwaysHolds(limits: Limits, steps: seq<Step>)
    ensures |After(limits, EMPTY, steps).rows| <= limits.maxCount
  {
    EveryRunKeepsCount(limits, EMPTY, steps);
  }

  /** No replacement of the run is granted on a size larger than the row then has. */
  ghost predicate ReadsHold(limits: Limits, s: State, steps: seq<Step>) {
    forall i | 0 <= i < |steps| ::
      steps[i].LockReplace? ==> !GivesBackTooMuch(After(limits, s, steps[..i]), steps[i].client)
  }

  lemma {:induction false} EveryRunKeepsBytes(limits: Limits, s: State, steps: seq<Step>)
    requires Safe(s) && CountRoom(limits, s) && ByteRoom(limits, s) && ReadsHold(limits, s, steps)
    ensures ByteRoom(limits, After(limits, s, steps))
  {
    hide Safe;
    hide CountRoom;
    hide ByteRoom;
    hide GivesBackTooMuch;
    hide Next;
    if steps != [] {
      var init := steps[..|steps| - 1];
      forall i | 0 <= i < |init|
        ensures init[i].LockReplace? ==> !GivesBackTooMuch(After(limits, s, init[..i]), init[i].client)
      {
        assert init[..i] == steps[..i];
        assert init[i] == steps[i];
      }
      EveryRunKeepsBytes(limits, s, init);
      EveryRunKeepsCount(limits, s, init);
      NextKeepsRoom(limits, After(limits, s, init), steps[|steps| - 1]);
    }
  }

  /** With every size read still standing when the lock is taken, the byte quota holds throughout. */
  lemma ByteQuotaHoldsWhenReadsHold(limits: Limits, steps: seq<Step>)
    requires ReadsHold(limits, EMPTY, steps)
    ensures var s := After(limits, EMPTY, steps); Total(s.rows, s.nextDoc) <= limits.quota
  {
    EveryRunKeepsBytes(limits, EMPTY, steps);
  }

  /** The replacement a client has begun, had it carried `size` bytes, carried out to its commit. */
  function Carried(limits: Limits, s: State, client: nat, size: nat): State
    requires client in s.ops && s.ops[client].ReplaceRead?
  {
    var op := s.ops[client];
    var asked := Becomes(s, client, ReplaceRead(op.oldPath, op.oldSize, op.path, size));
    DoCommit(DoUpload(DoLockReplace(limits, asked, client), client, true, true), client)
  }

  lemma CarriedRows(limits: Limits, s: State, client: nat, size: nat)
    requires Safe(s) && s.lock == None && client in s.ops && s.ops[client].ReplaceRead?
    requires s.ops[client].path.doc in s.rows
    ensures var op := s.ops[client];
            Carried(limits, s, client, size).rows ==
              (if WithinQuota(limits, |s.rows|, Total(s.rows, s.nextDoc) - op.oldSize + size)
               then s.rows[op.path.doc := Row(op.path, size)] else s.rows)
    ensures Carried(limits, s, client, size).nextDoc == s.nextDoc
  {
    hide Safe;
    hide Total;
  }

  /**
    A replacement about to take the lock keeps the byte quota whatever size it carries, exactly when
    the size it read is not larger than the row's size now.
   */
  lemma ReplacementKeepsQuotaExactlyWhenReadHolds(limits: Limits, s: State, client: nat)
    requires Safe(s) && s.lock == None && client in s.ops && s.ops[client].ReplaceRead?
    requires s.ops[client].path.doc in s.rows
    requires |s.rows| <= limits.maxCount && Total(s.rows, s.nextDoc) <= limits.quota
    ensures (forall size: nat ::
               var s' := Carried(limits, s, client, size); Total(s'.rows, s'.nextDoc) <= limits.quota)
            <==> !GivesBackTooMuch(s, client)
  {
    var op := s.ops[client];
    var doc := op.path.doc;
    assert doc < s.nextDoc by { assert RowOk(s, doc); }
    hide Safe;
    hide Carried;
    forall size: nat
      ensures var s' := Carried(limits, s, client, size);
              Total(s'.rows, s'.nextDoc) ==
                Total(s.rows, s.nextDoc) +
                if WithinQuota(limits, |s.rows|, Total(s.rows, s.nextDoc) - op.oldSize + size)
                then size - s.rows[doc].size else 0
    {
      CarriedRows(limits, s, client, size);
      TotalOfWritten(s.rows, s.nextDoc, doc, Row(op.path, size));
    }
    if GivesBackTooMuch(s, client) {
      var size := limits.quota - Total(s.rows, s.nextDoc) + op.oldSize;
      var s' := Carried(limits, s, client, size);
      assert Total(s'.rows, s'.nextDoc) > limits.quota;
    }
  }

  /** Two replacements of one 10-byte document that both read it at 10 bytes. */
  const RACE: seq<Step> := [
    BeginCreate(0, 10), Upload(0, true, true), Commit(0),
    BeginReplace(1, 0, 4), BeginReplace(2, 0, 16),
    LockReplace(1), Upload(1, true, true), Commit(1), DeleteObject(1, true, true),
    LockReplace(2), Upload(2, true, true), Commit(2)]

  lemma AfterOne(limits: Limits, s: State, steps: seq<Step>, n: nat)
    requires n < |steps|
    ensures After(limits, s, steps[..n + 1]) == Next(limits, After(limits, s, steps[..n]), steps[n])
  {
    assert steps[..n + 1][..n] == steps[..n];
  }

  function RaceRead(size: nat, serial: nat): Op { ReplaceRead(Path(0, 0), 10, Path(0, serial), size) }

  lemma RaceCreates(limits: Limits)
    requires limits == Limits(1, 10)
    ensures After(limits, EMPTY, RACE[..3]) ==
            State(map[0 := Row(Path(0, 0), 10)], {Path(0, 0)}, {}, {}, map[], None, 1, 1)
  {
    assert After(limits, EMPTY, RACE[..0]) == EMPTY;
    hide After;
    AfterOne(limits, EMPTY, RACE, 0);
    assert After(limits, EMPTY, RACE[..1]) ==
           State(map[], {}, {}, {}, map[0 := Creating(Path(0, 0), 10, false)], Some(0), 1, 1);
    AfterOne(limits, EMPTY, RACE, 1);
    AfterOne(limits, EMPTY, RACE, 2);
  }

  lemma RaceReads(limits: Limits)
    requires limits == Limits(1, 10)
    ensures After(limits, EMPTY, RACE[..5]) ==
            State(map[0 := Row(Path(0, 0), 10)], {Path(0, 0)}, {}, {},
                  map[1 := RaceRead(4, 1), 2 := RaceRead(16, 2)], None, 1, 3)
  {
    RaceCreates(limits);
    hide After;
    AfterOne(limits, EMPTY, RACE, 3);
    AfterOne(limits, EMPTY, RACE, 4);
  }

  lemma RaceLocks(limits: Limits)
    requires limits == Limits(1, 10)
    ensures After(limits, EMPTY, RACE[..6]) ==
            State(map[0 := Row(Path(0, 0), 10)], {Path(0, 0)}, {}, {},
                  map[1 := Replacing(Path(0, 0), Path(0, 1), 4, false), 2 := RaceRead(16, 2)], Some(1), 1, 3)
  {
    RaceReads(limits);
    hide After;
    AfterOne(limits, EMPTY, RACE, 5);
    assert Total(map[0 := Row(Path(0, 0), 10)], 1) == 10;
  }

  lemma RaceUploads(limits: Limits)
    requires limits == Limits(1, 10)
    ensures After(limits, EMPTY, RACE[..7]) ==
            State(map[0 := Row(Path(0, 0), 10)], {Path(0, 0), Path(0, 1)}, {}, {},
                  map[1 := Replacing(Path(0, 0), Path(0, 1), 4, true), 2 := RaceRead(16, 2)], Some(1), 1, 3)
  {
    RaceLocks(limits);
    hide After;
    hide Total;
    AfterOne(limits, EMPTY, RACE, 6);
  }

  lemma RaceCommits(limits: Limits)
    requires limits == Limits(1, 10)
    ensures After(limits, EMPTY, RACE[..8]) ==
            State(map[0 := Row(Path(0, 1), 4)], {Path(0, 0), Path(0, 1)}, {}, {},
                  map[1 := CleaningUp(Path(0, 0), ReplacedObject), 2 := RaceRead(16, 2)], None, 1, 3)
  {
    RaceUploads(limits);
    hide After;
    hide Total;
    AfterOne(limits, EMPTY, RACE, 7);
  }

  lemma RaceShrinks(limits: Limits)
    requires limits == Limits(1, 10)
    ensures After(limits, EMPTY, RACE[..9]) ==
            State(map[0 := Row(Path(0, 1), 4)], {Path(0, 1)}, {}, {}, map[2 := RaceRead(16, 2)], None, 1, 3)
  {
    RaceCommits(limits);
    hide After;
    hide Total;
    AfterOne(limits, EMPTY, RACE, 8);
  }

  /** The two of them leave 16 live bytes under a quota of 10. */
  lemma RaceOverrunsQuota(limits: Limits)
    requires limits == Limits(1, 10)
    ensures var s := After(limits, EMPTY, RACE); Total(s.rows, s.nextDoc) == 16
  {
    RaceShrinks(limits);
    hide After;
    AfterOne(limits, EMPTY, RACE, 9);
    assert Total(map[0 := Row(Path(0, 1), 4)], 1) == 4;
    AfterOne(limits, EMPTY, RACE, 10);
    AfterOne(limits, EMPTY, RACE, 11);
    assert RACE[..12] == RACE;
    assert Total(map[0 := Row(Path(0, 2), 16)], 1) == 16;
  }
}
