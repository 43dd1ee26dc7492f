/**
  The document service as it runs: rows, objects and the queue are changed in sequence, with
  compensation where a step fails. The reserved keys are those of the queue adapter.
 */
module DocumentSaga {
  import opened Prelude
  import opened Documents
  import opened DocumentRequests

  class DocumentService {
    const limits: Limits
    var rows: map<nat, Row>
    var storage: set<Path>
    var jobs: set<Path>
    var keys: set<Key>
    var nextDoc: nat
    var nextSerial: nat

    /** The service between two requests, as a state of the machine. */
    function Current(): (s: State)
      reads this
      ensures AtRest(s)
    {
      State(rows, storage, jobs, keys, map[], None, nextDoc, nextSerial)
    }

    constructor (limits: Limits)
      ensures this.limits == limits && Current() == EMPTY
    {
      this.limits := limits;
      rows, storage, jobs, keys, nextDoc, nextSerial := map[], {}, {}, {}, 0, 0;
    }

    /** Live documents and their bytes. */
    method Usage() returns (count: nat, bytes: nat)
      ensures count == |rows| && bytes == Total(rows, nextDoc)
    {
      count, bytes := |rows|, 0;
      var i := 0;
      while i < nextDoc
        invariant i <= nextDoc && bytes == Total(rows, i)
      {
        if i in rows { bytes := bytes + rows[i].size; }
        i := i + 1;
      }
    }

    method CheckQuota(count: nat, bytes: int) returns (ok: bool)
      ensures ok <==> WithinQuota(limits, count, bytes)
    {
      ok := true;
      if count > limits.maxCount || bytes > limits.quota { ok := false; }
    }

    /** A key is given out once: a repeat enqueues nothing. */
    method Reserve(key: Key) returns (ok: bool)
      modifies `keys
      ensures ok == (key !in old(keys)) && keys == old(keys) + {key}
    {
      if key in keys { return false; }
      keys := keys + {key};
      return true;
    }

    /** The object is gone, or its delete is queued, or it is stranded. */
    method DeleteOrSchedule(doc: nat, path: Path, reason: Reason, f: Faults)
      requires path.doc == doc
      modifies `storage, `jobs, `keys
      ensures Current() == CleanedUp(old(Current()), path, reason, f)
      ensures f.deletion.Done? || f.deletion.anyway ==> path !in storage
      ensures f.deletion == Failed(false) && path in old(storage) ==>
                (path in jobs <==> path in old(jobs) || (f.queued && Key(doc, reason) !in old(keys)))
    {
      match f.deletion {
        case Done => storage := storage - {path};
        case Failed(anyway) =>
          if anyway { storage := storage - {path}; }
          if f.queued {
            var first := Reserve(Key(doc, reason));
            if first { jobs := jobs + {path}; }
            else { assert keys == old(keys); }
          }
      }
    }

    method Put(path: Path, reply: Reply) returns (ok: bool)
      modifies `storage
      ensures ok == reply.Done?
      ensures storage == if reply == Failed(false) then old(storage) else old(storage) + {path}
    {
      ok := reply.Done?;
      if reply != Failed(false) { storage := storage + {path}; }
    }

    /** The upload of a granted creation, then its insert and commit or its compensation. */
    method StoreNew(path: Path, size: nat, f: Faults)
      modifies this
      ensures Current() == StoredNew(old(Current()), path, size, f)
    {
      hide CleanedUp;
      var uploaded := Put(path, f.upload);
      if !uploaded { return; }
      if f.ending.Commits? {
        rows := rows[path.doc := Row(path, size)];
      } else {
        DeleteOrSchedule(path.doc, path, CreateCompensation, f);
      }
    }

    /** Whether one more document of this size fits. */
    method HasRoom(size: nat) returns (ok: bool)
      ensures ok <==> WithinQuota(limits, |rows| + 1, Total(rows, nextDoc) + size)
    {
      var count, bytes := Usage();
      ok := CheckQuota(count + 1, bytes + size);
    }

    method Create(size: nat, f: Faults)
      modifies this
      ensures Current() == Handle(limits, old(Current()), CreateDocument(size, f))
    {
      hide Handle;
      hide StoredNew;
      hide Total;
      hide WithinQuota;
      var ok := HasRoom(size);
      if !ok {
        RefusedCreateIs(limits, Current(), size, f);
      } else {
        AcceptedCreateIs(limits, Current(), size, f);
        var path := Path(nextDoc, nextSerial);
        nextDoc, nextSerial := nextDoc + 1, nextSerial + 1;
        StoreNew(path, size, f);
      }
    }

    method Replace(doc: nat, size: nat, f: Faults)
      requires doc in rows ==> rows[doc].path.doc == doc
      modifies this
      ensures Current() == Handle(limits, old(Current()), ReplaceDocument(doc, size, f))
    {
      hide Handle, CleanedUp, Total, WithinQuota;
      ReplaceIs(limits, Current(), doc, size, f);
      if doc !in rows { return; }
      var existing := rows[doc];
      var path := Path(doc, nextSerial);
      nextSerial := nextSerial + 1;
      var count, bytes := Usage();
      var ok := CheckQuota(count, bytes - existing.size + size);
      if !ok { return; }
      var uploaded := Put(path, f.upload);
      if !uploaded { return; }
      match f.ending {
        case Commits =>
          rows := rows[doc := Row(path, size)];
          DeleteOrSchedule(doc, existing.path, ReplacedObject, f);
        case RollsBack => DeleteOrSchedule(doc, path, ReplaceCompensation, f);
        case CommitLost =>
      }
    }

    method Delete(doc: nat, f: Faults)
      requires doc in rows ==> rows[doc].path.doc == doc
      modifies this
      ensures Current() == Handle(limits, old(Current()), DeleteDocument(doc, f))
    {
      DeleteIs(limits, Current(), doc, f);
      hide Handle;
      hide CleanedUp;
      hide Total;
      if doc !in rows { return; }
      var existing := rows[doc];
      if f.ending.Commits? {
        rows := rows - {doc};
        DeleteOrSchedule(doc, existing.path, DeletedObject, f);
      }
    }
  }
}
