/**
  One profile's documents over two stores: rows in the database, objects in storage, and a queue of
  deletes. Creates, replacements, deletes and queued jobs interleave, and any step may fail.
 */
module Documents {
  import opened Prelude

  /** `document_id/uuid`: the serial is drawn fresh for every upload. */
  datatype Path = Path(doc: nat, serial: nat)

  datatype Row = Row(path: Path, size: nat)

  datatype Reason = CreateCompensation | ReplaceCompensation | ReplaceMissing | ReplacedObject | DeletedObject

  /** The deduplication key of a queued delete names the document and the reason, not the path. */
  datatype Key = Key(doc: nat, reason: Reason)

  datatype Limits = Limits(maxCount: nat, quota: nat)

  /** A request in flight. */
  datatype Op =
    | Creating(path: Path, size: nat, uploaded: bool)
    | ReplaceRead(oldPath: Path, oldSize: nat, path: Path, size: nat)
    | Replacing(oldPath: Path, path: Path, size: nat, uploaded: bool)
    | Deleting(path: Path)
    | CleaningUp(path: Path, reason: Reason)
    | Scheduling(path: Path, reason: Reason)

  /** `rows` holds the live rows; `lock` is the profile's advisory lock. */
  datatype State = State(
    rows: map<nat, Row>,
    storage: set<Path>,
    jobs: set<Path>,
    keys: set<Key>,
    ops: map<nat, Op>,
    lock: Option<nat>,
    nextDoc: nat,
    nextSerial: nat)

  const EMPTY := State(map[], {}, {}, {}, map[], None, 0, 0)

  /** Bytes of the live rows among the first `n` document ids. */
  function Total(rows: map<nat, Row>, n: nat): nat {
    if n == 0 then 0 else Total(rows, n - 1) + if n - 1 in rows then rows[n - 1].size else 0
  }

  datatype Step =
    | BeginCreate(client: nat, size: nat)
    | BeginReplace(client: nat, doc: nat, size: nat)
    | BeginDelete(client: nat, doc: nat)
    | LockReplace(client: nat)
    | Upload(client: nat, ok: bool, stored: bool)
    | Commit(client: nat)
    | LoseCommit(client: nat)
    | Abort(client: nat)
    | DeleteObject(client: nat, ok: bool, removed: bool)
    | Schedule(client: nat, ok: bool)
    | RunJob(path: Path)

  function Unlocked(s: State, client: nat): State {
    s.(lock := if s.lock == Some(client) then None else s.lock)
  }

  /** The request is over: its transaction, if still open, has ended. */
  function Finished(s: State, client: nat): State {
    Unlocked(s, client).(ops := s.ops - {client})
  }

  function Becomes(s: State, client: nat, op: Op): State {
    s.(ops := s.ops[client := op])
  }

  /** After a rolled-back or committed transaction an object is to be removed. */
  function ThenCleanUp(s: State, client: nat, path: Path, reason: Reason): State {
    Becomes(Unlocked(s, client), client, CleaningUp(path, reason))
  }

  predicate WithinQuota(limits: Limits, count: nat, bytes: int) {
    count <= limits.maxCount && bytes <= limits.quota
  }

  function DoBeginCreate(limits: Limits, s: State, client: nat, size: nat): State {
    if client in s.ops || s.lock.Some? || !WithinQuota(limits, |s.rows| + 1, Total(s.rows, s.nextDoc) + size) then s
    else
      s.(ops := s.ops[client := Creating(Path(s.nextDoc, s.nextSerial), size, false)],
         lock := Some(client), nextDoc := s.nextDoc + 1, nextSerial := s.nextSerial + 1)
  }

  function DoBeginReplace(s: State, client: nat, doc: nat, size: nat): State {
    if client in s.ops || doc !in s.rows then s
    else
      var row := s.rows[doc];
      s.(ops := s.ops[client := ReplaceRead(row.path, row.size, Path(doc, s.nextSerial), size)],
         nextSerial := s.nextSerial + 1)
  }

  function DoBeginDelete(s: State, client: nat, doc: nat): State {
    if client in s.ops || doc !in s.rows then s
    else Becomes(s, client, Deleting(s.rows[doc].path))
  }

  /** The lock is taken after the row was read; the size that is given back is the one read. */
  function DoLockReplace(limits: Limits, s: State, client: nat): State {
    if client !in s.ops || !s.ops[client].ReplaceRead? || s.lock.Some? then s
    else
      var op := s.ops[client];
      if WithinQuota(limits, |s.rows|, Total(s.rows, s.nextDoc) - op.oldSize + op.size)
      then Becomes(s.(lock := Some(client)), client, Replacing(op.oldPath, op.path, op.size, false))
      else Finished(s, client)
  }

  predicate CanUpload(s: State, client: nat) {
    client in s.ops && (s.ops[client].Creating? || s.ops[client].Replacing?) && !s.ops[client].uploaded
  }

  /** A failed upload may or may not have stored the object. */
  function DoUpload(s: State, client: nat, ok: bool, stored: bool): State {
    if !CanUpload(s, client) then s
    else
      var op := s.ops[client];
      if ok then Becomes(s.(storage := s.storage + {op.path}), client, op.(uploaded := true))
      else Finished(s.(storage := if stored then s.storage + {op.path} else s.storage), client)
  }

  function DoCommit(s: State, client: nat): State {
    if client !in s.ops then s else
      match s.ops[client]
      case Creating(path, size, true) =>
        Finished(s.(rows := s.rows[path.doc := Row(path, size)]), client)
      case Replacing(oldPath, path, size, true) =>
        if path.doc in s.rows
        then ThenCleanUp(s.(rows := s.rows[path.doc := Row(path, size)]), client, oldPath, ReplacedObject)
        else ThenCleanUp(s, client, path, ReplaceMissing)
      case Deleting(path) =>
        if path.doc in s.rows
        then ThenCleanUp(s.(rows := s.rows - {path.doc}), client, path, DeletedObject)
        else Finished(s, client)
      case _ => s
  }

  /** The commit of a replacement fails after the compensating handler has been left. */
  function DoLoseCommit(s: State, client: nat): State {
    if client in s.ops && s.ops[client].Replacing? && s.ops[client].uploaded then Finished(s, client) else s
  }

  /** Any other failure inside the transaction; a replacement compensates before rolling back. */
  function DoAbort(s: State, client: nat): State {
    if client !in s.ops then s else
      match s.ops[client]
      case Creating(path, _, true) => ThenCleanUp(s, client, path, CreateCompensation)
      case Replacing(_, path, _, true) => Becomes(s, client, CleaningUp(path, ReplaceCompensation))
      case CleaningUp(_, _) => s
      case Scheduling(_, _) => s
      case _ => Finished(s, client)
  }

  /** A failed delete may or may not have removed the object. */
  function DoDeleteObject(s: State, client: nat, ok: bool, removed: bool): State {
    if client !in s.ops || !s.ops[client].CleaningUp? then s
    else
      var op := s.ops[client];
      if ok then Finished(s.(storage := s.storage - {op.path}), client)
      else Becomes(s.(storage := if removed then s.storage - {op.path} else s.storage), client,
                   Scheduling(op.path, op.reason))
  }

  function DoSchedule(s: State, client: nat, ok: bool): State {
    if client !in s.ops || !s.ops[client].Scheduling? then s
    else
      var op := s.ops[client];
      var key := Key(op.path.doc, op.reason);
      if !ok || key in s.keys then Finished(s, client)
      else Finished(s.(keys := s.keys + {key}, jobs := s.jobs + {op.path}), client)
  }

  function DoRunJob(s: State, path: Path): State {
    if path in s.jobs then s.(storage := s.storage - {path}, jobs := s.jobs - {path}) else s
  }

  function Next(limits: Limits, s: State, step: Step): State {
    match step
    case BeginCreate(client, size) => DoBeginCreate(limits, s, client, size)
    case BeginReplace(client, doc, size) => DoBeginReplace(s, client, doc, size)
    case BeginDelete(client, doc) => DoBeginDelete(s, client, doc)
    case LockReplace(client) => DoLockReplace(limits, s, client)
    case Upload(client, ok, stored) => DoUpload(s, client, ok, stored)
    case Commit(client) => DoCommit(s, client)
    case LoseCommit(client) => DoLoseCommit(s, client)
    case Abort(client) => DoAbort(s, client)
    case DeleteObject(client, ok, removed) => DoDeleteObject(s, client, ok, removed)
    case Schedule(client, ok) => DoSchedule(s, client, ok)
    case RunJob(path) => DoRunJob(s, path)
  }

  function After(limits: Limits, s: State, steps: seq<Step>): State {
    if steps == [] then s else
      Next(limits, After(limits, s, steps[..|steps| - 1]), steps[|steps| - 1])
  }
}
