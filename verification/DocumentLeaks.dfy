/** Which requests, run one at a time, leave a stored object that no row names and no job will delete. */
module DocumentLeaks {
  import opened Prelude
  import opened Documents
  import opened DocumentTheorems
  import opened DocumentQuotas
  import opened DocumentRequests

  predicate Live(s: State, p: Path) { p.doc in s.rows && s.rows[p.doc].path == p }

  /** Every stored object belongs to a live row or has a delete queued. */
  ghost predicate Tracked(s: State) {
    forall p | p in s.storage :: p in s.jobs || Live(s, p)
  }

  /** The delete fails without effect, and the queue errs or takes the request for a repeat. */
  predicate Stranded(s: State, key: Key, f: Faults) {
    f.deletion == Failed(false) && (!f.queued || key in s.keys)
  }

  predicate LosesTrack(limits: Limits, s: State, r: Request) {
    match r
    case CreateDocument(size, f) =>
      && WithinQuota(limits, |s.rows| + 1, Total(s.rows, s.nextDoc) + size)
      && (match f.upload
          case Failed(anyway) => anyway
          case Done => !f.ending.Commits? && Stranded(s, Key(s.nextDoc, CreateCompensation), f))
    case ReplaceDocument(doc, size, f) =>
      && doc in s.rows
      && WithinQuota(limits, |s.rows|, Total(s.rows, s.nextDoc) - s.rows[doc].size + size)
      && (match f.upload
          case Failed(anyway) => anyway
          case Done =>
            match f.ending
            case Commits => Stranded(s, Key(doc, ReplacedObject), f)
            case RollsBack => Stranded(s, Key(doc, ReplaceCompensation), f)
            case CommitLost => true)
    case DeleteDocument(doc, f) =>
      doc in s.rows && f.ending.Commits? && Stranded(s, Key(doc, DeletedObject), f)
    case StorageJob(_) => false
  }

  /** All stored objects but `path` are tracked, and `path` is not. */
  ghost predicate Only(s: State, path: Path) {
    && path in s.storage && path !in s.jobs && !Live(s, path)
    && (forall p | p in s.storage && p != path :: p in s.jobs || Live(s, p))
  }

  lemma CleanUpTracksExactly(s: State, path: Path, reason: Reason, f: Faults)
    requires Only(s, path)
    ensures Tracked(CleanedUp(s, path, reason, f)) <==> !Stranded(s, Key(path.doc, reason), f)
  {
    var s' := CleanedUp(s, path, reason, f);
    if Stranded(s, Key(path.doc, reason), f) {
      assert path in s'.storage;
    } else {
      forall p | p in s'.storage ensures p in s'.jobs || Live(s', p) {
        assert p != path ==> p in s.jobs || Live(s, p);
      }
    }
  }

  lemma DrawnOnly(s: State, s': State, path: Path)
    requires Safe(s) && Tracked(s) && s.nextSerial <= path.serial
    requires s'.rows == s.rows && s'.jobs == s.jobs && s'.storage == s.storage + {path}
    ensures Only(s', path)
  {
    assert path.doc in s.rows ==> RowOk(s, path.doc);
    forall p | p in s'.storage && p != path ensures p in s'.jobs || Live(s', p) {
      assert p in s.jobs || Live(s, p);
    }
  }

  lemma OnlyIsUntracked(s: State, path: Path)
    requires Only(s, path)
    ensures !Tracked(s)
  {
  }

  lemma CreateTracksExactly(limits: Limits, s: State, size: nat, f: Faults)
    requires AtRest(s) && Safe(s) && Tracked(s)
    ensures Tracked(Created(limits, s, size, f)) <==> !LosesTrack(limits, s, CreateDocument(size, f))
  {
    var path := Path(s.nextDoc, s.nextSerial);
    var kept := Kept(s.(nextDoc := s.nextDoc + 1, nextSerial := s.nextSerial + 1), path);
    assert path.doc !in s.rows by { assert path.doc in s.rows ==> RowOk(s, path.doc); }
    DrawnOnly(s, kept, path);
    OnlyIsUntracked(kept, path);
    CleanUpTracksExactly(kept, path, CreateCompensation, f);
    hide Safe;
    hide Total;
    hide CleanedUp;
    var written := kept.(rows := s.rows[path.doc := Row(path, size)]);
    forall p | p in written.storage ensures p in written.jobs || Live(written, p) {
      assert p != path ==> p in kept.jobs || Live(kept, p);
    }
  }

  lemma SwappedOnly(s: State, kept: State, doc: nat, path: Path, size: nat)
    requires Safe(s) && Only(kept, path) && doc in s.rows && path.doc == doc
    requires kept.rows == s.rows && kept.jobs == s.jobs && kept.storage == s.storage + {path}
    ensures Only(kept.(rows := s.rows[doc := Row(path, size)]), s.rows[doc].path)
    ensures s.rows[doc].path.doc == doc
  {
    assert RowOk(s, doc);
    var s' := kept.(rows := s.rows[doc := Row(path, size)]);
    forall p | p in s'.storage && p != s.rows[doc].path ensures p in s'.jobs || Live(s', p) {
      assert p != path ==> p in kept.jobs || Live(kept, p);
    }
  }

  lemma ReplaceTracksExactly(limits: Limits, s: State, doc: nat, size: nat, f: Faults)
    requires AtRest(s) && Safe(s) && Tracked(s)
    ensures Tracked(Replaced(limits, s, doc, size, f)) <==> !LosesTrack(limits, s, ReplaceDocument(doc, size, f))
  {
    if doc in s.rows {
      var path := Path(doc, s.nextSerial);
      var kept := Kept(s.(nextSerial := s.nextSerial + 1), path);
      DrawnOnly(s, kept, path);
      OnlyIsUntracked(kept, path);
      SwappedOnly(s, kept, doc, path, size);
      CleanUpTracksExactly(kept, path, ReplaceCompensation, f);
      CleanUpTracksExactly(kept.(rows := s.rows[doc := Row(path, size)]), s.rows[doc].path, ReplacedObject, f);
      hide Safe;
      hide Only;
      hide Total;
      hide CleanedUp;
    }
  }

  lemma DeleteTracksExactly(limits: Limits, s: State, doc: nat, f: Faults)
    requires AtRest(s) && Safe(s) && Tracked(s)
    ensures Tracked(Deleted(s, doc, f)) <==> !LosesTrack(limits, s, DeleteDocument(doc, f))
  {
    if doc in s.rows {
      assert RowOk(s, doc);
      var gone := s.(rows := s.rows - {doc});
      forall p | p in gone.storage && p != s.rows[doc].path ensures p in gone.jobs || Live(gone, p) {
        assert p in s.jobs || Live(s, p);
      }
      CleanUpTracksExactly(gone, s.rows[doc].path, DeletedObject, f);
      hide CleanedUp;
    }
  }

  /**
    One request keeps every stored object tracked exactly when it does not strand one: a failed
    upload that stored, a lost replacement commit, or a failed delete whose job the queue refuses.
   */
  lemma RequestTracksExactly(limits: Limits, s: State, r: Request)
    requires AtRest(s) && Safe(s) && Tracked(s)
    ensures Tracked(Handle(limits, s, r)) <==> !LosesTrack(limits, s, r)
  {
    match r
    case CreateDocument(size, f) => {
      CreateIs(limits, s, size, f);
      CreateTracksExactly(limits, s, size, f);
    }
    case ReplaceDocument(doc, size, f) => {
      ReplaceIs(limits, s, doc, size, f);
      ReplaceTracksExactly(limits, s, doc, size, f);
    }
    case DeleteDocument(doc, f) => {
      assert doc in s.rows ==> RowOk(s, doc);
      DeleteIs(limits, s, doc, f);
      DeleteTracksExactly(limits, s, doc, f);
    }
    case StorageJob(path) => {
      var s' := Handle(limits, s, r);
      forall p | p in s'.storage ensures p in s'.jobs || Live(s', p) {
        assert p in s.jobs || Live(s, p);
      }
    }
  }

  lemma CleanedUpAtRest(s: State, path: Path, reason: Reason, f: Faults)
    requires AtRest(s)
    ensures AtRest(CleanedUp(s, path, reason, f))
  {
  }

  lemma RequestEndsAtRest(limits: Limits, s: State, r: Request)
    requires AtRest(s) && Safe(s)
    ensures AtRest(Handle(limits, s, r))
  {
    hide Total;
    hide CleanedUp;
    hide Handle;
    match r
    case CreateDocument(size, f) => {
      CreateIs(limits, s, size, f);
      var path := Path(s.nextDoc, s.nextSerial);
      CleanedUpAtRest(Kept(s.(nextDoc := s.nextDoc + 1, nextSerial := s.nextSerial + 1), path), path, CreateCompensation, f);
    }
    case ReplaceDocument(doc, size, f) => {
      ReplaceIs(limits, s, doc, size, f);
      if doc in s.rows {
        var path := Path(doc, s.nextSerial);
        var kept := Kept(s.(nextSerial := s.nextSerial + 1), path);
        CleanedUpAtRest(kept, path, ReplaceCompensation, f);
        CleanedUpAtRest(kept.(rows := s.rows[doc := Row(path, size)]), s.rows[doc].path, ReplacedObject, f);
      }
    }
    case DeleteDocument(doc, f) => {
      assert doc in s.rows ==> RowOk(s, doc);
      DeleteIs(limits, s, doc, f);
      if doc in s.rows { CleanedUpAtRest(s.(rows := s.rows - {doc}), s.rows[doc].path, DeletedObject, f); }
    }
    case StorageJob(path) => { assert Handle(limits, s, r) == DoRunJob(s, path) by { HandleJob(limits, s, path); } }
  }

  lemma HandleJob(limits: Limits, s: State, path: Path)
    ensures Handle(limits, s, StorageJob(path)) == DoRunJob(s, path)
  {
  }

  /** Live objects stored, and both quotas kept. */
  ghost predicate Sound(limits: Limits, s: State) {
    Safe(s) && CountRoom(limits, s) && ByteRoom(limits, s)
  }

  lemma StepKeepsSound(limits: Limits, s: State, step: Step)
    requires Sound(limits, s) && (step.LockReplace? ==> !GivesBackTooMuch(s, step.client))
    ensures Sound(limits, Next(limits, s, step))
  {
    hide Safe;
    hide CountRoom;
    hide ByteRoom;
    hide GivesBackTooMuch;
    hide Next;
    NextIsSafe(limits, s, step);
    NextKeepsRoom(limits, s, step);
  }

  lemma EndKeepsSound(limits: Limits, s: State, ending: Ending)
    requires Sound(limits, s)
    ensures Sound(limits, Ended(s, ending)) && Sound(limits, EndedReplace(s, ending))
  {
    hide Sound;
    StepKeepsSound(limits, s, Commit(0));
    StepKeepsSound(limits, s, Abort(0));
    StepKeepsSound(limits, s, LoseCommit(0));
  }

  lemma TidyKeepsSound(limits: Limits, s: State, f: Faults)
    requires Sound(limits, s)
    ensures Sound(limits, TidiedUp(s, f))
  {
    hide Sound;
    var step := DeleteObject(0, f.deletion.Done?, f.deletion.Failed? && f.deletion.anyway);
    StepKeepsSound(limits, s, step);
    StepKeepsSound(limits, Next(limits, s, step), Schedule(0, f.queued));
  }

  lemma UploadKeepsSound(limits: Limits, s: State, f: Faults)
    requires Sound(limits, s)
    ensures Sound(limits, Uploaded(s, f))
  {
    hide Sound;
    StepKeepsSound(limits, s, Upload(0, f.upload.Done?, f.upload.Failed? && f.upload.anyway));
  }

  lemma RequestKeepsSound(limits: Limits, s: State, r: Request)
    requires AtRest(s) && Sound(limits, s)
    ensures Sound(limits, Handle(limits, s, r))
  {
    hide Sound;
    hide TidiedUp;
    hide Uploaded;
    hide Ended;
    hide EndedReplace;
    match r
    case CreateDocument(size, f) => {
      StepKeepsSound(limits, s, BeginCreate(0, size));
      var begun := Next(limits, s, BeginCreate(0, size));
      UploadKeepsSound(limits, begun, f);
      EndKeepsSound(limits, Uploaded(begun, f), f.ending);
      TidyKeepsSound(limits, Ended(Uploaded(begun, f), f.ending), f);
    }
    case ReplaceDocument(doc, size, f) => {
      ReplaceKeepsSound(limits, s, doc, size, f);
    }
    case DeleteDocument(doc, f) => {
      StepKeepsSound(limits, s, BeginDelete(0, doc));
      var begun := Next(limits, s, BeginDelete(0, doc));
      EndKeepsSound(limits, begun, f.ending);
      TidyKeepsSound(limits, Ended(begun, f.ending), f);
    }
    case StorageJob(path) => StepKeepsSound(limits, s, RunJob(path));
  }

  lemma ReplaceKeepsSound(limits: Limits, s: State, doc: nat, size: nat, f: Faults)
    requires AtRest(s) && Sound(limits, s)
    ensures Sound(limits, Handle(limits, s, ReplaceDocument(doc, size, f)))
  {
    var begun := DoBeginReplace(s, 0, doc, size);
    assert !GivesBackTooMuch(begun, 0) by { assert doc in s.rows ==> RowOk(s, doc); }
    hide Sound;
    hide TidiedUp;
    hide Uploaded;
    hide Ended;
    hide EndedReplace;
    hide GivesBackTooMuch;
    StepKeepsSound(limits, s, BeginReplace(0, doc, size));
    StepKeepsSound(limits, begun, LockReplace(0));
    var locked := DoLockReplace(limits, begun, 0);
    UploadKeepsSound(limits, locked, f);
    EndKeepsSound(limits, Uploaded(locked, f), f.ending);
    TidyKeepsSound(limits, EndedReplace(Uploaded(locked, f), f.ending), f);
  }

  function AfterAll(limits: Limits, s: State, rs: seq<Request>): State {
    if rs == [] then s else
      Handle(limits, AfterAll(limits, s, rs[..|rs| - 1]), rs[|rs| - 1])
  }

  /**
    Run one at a time, with any failures, requests keep the live rows within both quotas and their
    objects stored.
   */
  lemma {:induction false} RequestsKeepQuotas(limits: Limits, rs: seq<Request>)
    ensures var s := AfterAll(limits, EMPTY, rs);
            && AtRest(s) && Sound(limits, s)
            && |s.rows| <= limits.maxCount && Total(s.rows, s.nextDoc) <= limits.quota
  {
    hide Handle;
    if rs != [] {
      var s := AfterAll(limits, EMPTY, rs[..|rs| - 1]);
      RequestsKeepQuotas(limits, rs[..|rs| - 1]);
      RequestKeepsSound(limits, s, rs[|rs| - 1]);
      RequestEndsAtRest(limits, s, rs[|rs| - 1]);
    }
  }

  ghost predicate NeverLosesTrack(limits: Limits, rs: seq<Request>) {
    forall i | 0 <= i < |rs| :: !LosesTrack(limits, AfterAll(limits, EMPTY, rs[..i]), rs[i])
  }

  ghost predicate AlwaysTracked(limits: Limits, rs: seq<Request>) {
    forall i | 0 <= i <= |rs| :: Tracked(AfterAll(limits, EMPTY, rs[..i]))
  }

  lemma {:induction false} TrackedUpTo(limits: Limits, rs: seq<Request>, n: nat)
    requires n <= |rs| && forall i | 0 <= i < n :: !LosesTrack(limits, AfterAll(limits, EMPTY, rs[..i]), rs[i])
    ensures Tracked(AfterAll(limits, EMPTY, rs[..n]))
  {
    hide LosesTrack;
    hide Handle;
    if n > 0 {
      TrackedUpTo(limits, rs, n - 1);
      assert rs[..n][..n - 1] == rs[..n - 1];
      RequestsKeepQuotas(limits, rs[..n - 1]);
      hide Tracked;
      assert Safe(AfterAll(limits, EMPTY, rs[..n - 1]));
      RequestTracksExactly(limits, AfterAll(limits, EMPTY, rs[..n - 1]), rs[n - 1]);
    }
  }

  /** A history of requests keeps every stored object tracked exactly when no request strands one. */
  lemma HistoryTracksExactly(limits: Limits, rs: seq<Request>)
    ensures AlwaysTracked(limits, rs) <==> NeverLosesTrack(limits, rs)
  {
    hide LosesTrack;
    hide Tracked;
    hide Handle;
    if NeverLosesTrack(limits, rs) {
      forall n: nat | n <= |rs| ensures Tracked(AfterAll(limits, EMPTY, rs[..n])) { TrackedUpTo(limits, rs, n); }
    }
    if AlwaysTracked(limits, rs) {
      forall i | 0 <= i < |rs| ensures !LosesTrack(limits, AfterAll(limits, EMPTY, rs[..i]), rs[i]) {
        RequestsKeepQuotas(limits, rs[..i]);
        assert rs[..i + 1][..i] == rs[..i];
        assert Tracked(AfterAll(limits, EMPTY, rs[..i]));
        assert Tracked(AfterAll(limits, EMPTY, rs[..i + 1]));
        assert AfterAll(limits, EMPTY, rs[..i + 1]) == Handle(limits, AfterAll(limits, EMPTY, rs[..i]), rs[i]);
        assert Safe(AfterAll(limits, EMPTY, rs[..i]));
        RequestTracksExactly(limits, AfterAll(limits, EMPTY, rs[..i]), rs[i]);
      }
    }
  }

  /** Storage refuses to delete; everything else works. */
  const DELETE_DOWN := Faults(Done, Commits, Failed(false), true)

  /**
    The key of a queued delete does not name the path, so the second replacement of one document
    whose delete fails always strands the object of the first.
   */
  lemma SecondFailedDeleteStrands(limits: Limits, s: State, doc: nat, first: nat, second: nat)
    requires AtRest(s) && Sound(limits, s) && Tracked(s) && doc in s.rows
    requires WithinQuota(limits, |s.rows|, Total(s.rows, s.nextDoc) - s.rows[doc].size + first)
    requires WithinQuota(limits, |s.rows|, Total(s.rows, s.nextDoc) - s.rows[doc].size + second)
    requires Key(doc, ReplacedObject) !in s.keys
    ensures var mid := Handle(limits, s, ReplaceDocument(doc, first, DELETE_DOWN));
            Tracked(mid) && !Tracked(Handle(limits, mid, ReplaceDocument(doc, second, DELETE_DOWN)))
  {
    hide CountRoom;
    hide ByteRoom;
    hide Handle;
    hide Total;
    hide Tracked;
    hide AtRest;
    var r1 := ReplaceDocument(doc, first, DELETE_DOWN);
    var r2 := ReplaceDocument(doc, second, DELETE_DOWN);
    var mid := Handle(limits, s, r1);
    RequestTracksExactly(limits, s, r1);
    RequestKeepsSound(limits, s, r1);
    RequestEndsAtRest(limits, s, r1);
    FirstFailedDeleteIsQueued(limits, s, doc, first);
    hide Safe;
    RequestTracksExactly(limits, mid, r2);
  }

  lemma FirstFailedDeleteIsQueued(limits: Limits, s: State, doc: nat, size: nat)
    requires AtRest(s) && Safe(s) && doc in s.rows
    requires WithinQuota(limits, |s.rows|, Total(s.rows, s.nextDoc) - s.rows[doc].size + size)
    requires Key(doc, ReplacedObject) !in s.keys
    ensures var mid := Handle(limits, s, ReplaceDocument(doc, size, DELETE_DOWN));
            && mid.rows == s.rows[doc := Row(Path(doc, s.nextSerial), size)] && |mid.rows| == |s.rows|
            && mid.nextDoc == s.nextDoc && Key(doc, ReplacedObject) in mid.keys
            && Total(mid.rows, mid.nextDoc) == Total(s.rows, s.nextDoc) - s.rows[doc].size + size
  {
    assert RowOk(s, doc);
    hide Safe;
    hide Handle;
    hide Total;
    ReplaceIs(limits, s, doc, size, DELETE_DOWN);
    TotalOfWritten(s.rows, s.nextDoc, doc, Row(Path(doc, s.nextSerial), size));
  }

  /******* Told from the requests alone *******/

  /** The key under which a request's failing delete is queued, for a document that already exists. */
  function FailsUnder(r: Request): Option<Key> {
    match r
    case ReplaceDocument(doc, _, f) =>
      if f.deletion.Failed? then Some(Key(doc, if f.ending.Commits? then ReplacedObject else ReplaceCompensation)) else None
    case DeleteDocument(doc, f) => if f.deletion.Failed? then Some(Key(doc, DeletedObject)) else None
    case _ => None
  }

  /** The queue is up, a failed upload stores nothing, and no commit of a replacement is lost. */
  predicate CleanBut(r: Request) {
    match r
    case CreateDocument(_, f) => f.queued && f.upload != Failed(true)
    case ReplaceDocument(_, _, f) => f.queued && f.upload != Failed(true) && !f.ending.CommitLost?
    case DeleteDocument(_, f) => f.queued
    case StorageJob(_) => true
  }

  /** No document has two deletes fail for the same reason. */
  ghost predicate OneFailureEach(rs: seq<Request>) {
    forall i, j | 0 <= i < j < |rs| && FailsUnder(rs[i]).Some? :: FailsUnder(rs[i]) != FailsUnder(rs[j])
  }

  /** Every reserved key comes from an earlier failing delete or from an earlier creation. */
  ghost predicate KeysFrom(rs: seq<Request>, s: State) {
    forall key | key in s.keys ::
      if key.reason == CreateCompensation then key.doc < s.nextDoc
      else exists i :: 0 <= i < |rs| && FailsUnder(rs[i]) == Some(key)
  }

  lemma HandleKeys(limits: Limits, s: State, r: Request)
    requires AtRest(s) && Safe(s)
    ensures var s' := Handle(limits, s, r);
            && s'.nextDoc >= s.nextDoc
            && forall key | key in s'.keys && key !in s.keys ::
                 Some(key) == FailsUnder(r)
                 || (r.CreateDocument? && key == Key(s.nextDoc, CreateCompensation) && s'.nextDoc == s.nextDoc + 1)
  {
    hide Total, Handle, WithinQuota;
    match r
    case CreateDocument(size, f) => CreateIs(limits, s, size, f);
    case ReplaceDocument(doc, size, f) => {
      assert doc in s.rows ==> RowOk(s, doc);
      hide Safe;
      ReplaceIs(limits, s, doc, size, f);
    }
    case DeleteDocument(doc, f) => {
      assert doc in s.rows ==> RowOk(s, doc);
      hide Safe;
      DeleteIs(limits, s, doc, f);
    }
    case StorageJob(path) => HandleJob(limits, s, path);
  }

  lemma {:induction false} KeysComeFrom(limits: Limits, rs: seq<Request>)
    ensures KeysFrom(rs, AfterAll(limits, EMPTY, rs))
  {
    hide Handle, FailsUnder;
    if rs != [] {
      var k := |rs| - 1;
      var s := AfterAll(limits, EMPTY, rs[..k]);
      var s' := AfterAll(limits, EMPTY, rs);
      KeysComeFrom(limits, rs[..k]);
      RequestsKeepQuotas(limits, rs[..k]);
      hide AtRest, AfterAll;
      assert Safe(s);
      hide Safe;
      HandleKeys(limits, s, rs[k]);
      FailsUnderIs(rs[k]);
      forall key | key in s'.keys
        ensures if key.reason == CreateCompensation then key.doc < s'.nextDoc
                else exists i :: 0 <= i < |rs| && FailsUnder(rs[i]) == Some(key)
      {
        if key in s.keys && key.reason != CreateCompensation {
          var i :| 0 <= i < k && FailsUnder(rs[..k][i]) == Some(key);
          assert rs[i] == rs[..k][i];
        } else if key.reason != CreateCompensation {
          assert FailsUnder(rs[k]) == Some(key);
        }
      }
    }
  }

  lemma FailsUnderIs(r: Request)
    ensures FailsUnder(r).Some? ==> FailsUnder(r).value.reason != CreateCompensation
  {
  }

  lemma CleanRequestKeepsTrack(limits: Limits, rs: seq<Request>, s: State, r: Request)
    requires KeysFrom(rs, s) && CleanBut(r)
    requires forall i | 0 <= i < |rs| && FailsUnder(rs[i]).Some? :: FailsUnder(rs[i]) != FailsUnder(r)
    ensures !LosesTrack(limits, s, r)
  {
    hide Total, WithinQuota;
  }

  /**
    With the queue up, clean uploads and no lost commit of a replacement, every stored object stays
    tracked through any history in which no document has two deletes fail for the same reason.
   */
  lemma CleanHistoryIsTracked(limits: Limits, rs: seq<Request>)
    requires (forall i | 0 <= i < |rs| :: CleanBut(rs[i])) && OneFailureEach(rs)
    ensures AlwaysTracked(limits, rs)
  {
    hide LosesTrack, AfterAll, CleanBut, FailsUnder, AlwaysTracked, KeysFrom;
    forall i | 0 <= i < |rs| ensures !LosesTrack(limits, AfterAll(limits, EMPTY, rs[..i]), rs[i]) {
      KeysComeFrom(limits, rs[..i]);
      forall k | 0 <= k < i && FailsUnder(rs[..i][k]).Some? ensures FailsUnder(rs[..i][k]) != FailsUnder(rs[i]) {
        assert rs[..i][k] == rs[k];
      }
      CleanRequestKeepsTrack(limits, rs[..i], AfterAll(limits, EMPTY, rs[..i]), rs[i]);
    }
    HistoryTracksExactly(limits, rs);
  }
}
