/** What is left in storage once the queued deletes have run. */
module DocumentDrain {
  import opened Prelude
  import opened Documents
  import opened DocumentTheorems
  import opened DocumentRequests
  import opened DocumentLeaks

  /** The queued deletes of these objects, in this order. */
  function JobsFor(paths: seq<Path>): seq<Request> {
    seq(|paths|, i requires 0 <= i < |paths| => StorageJob(paths[i]))
  }

  function PathSet(paths: seq<Path>): set<Path> { set p | p in paths }

  lemma {:induction false} JobsRemove(limits: Limits, s: State, paths: seq<Path>)
    ensures AfterAll(limits, s, JobsFor(paths))
            == s.(storage := s.storage - PathSet(paths) * s.jobs, jobs := s.jobs - PathSet(paths))
  {
    if paths == [] {
      assert s.storage - {} * s.jobs == s.storage && s.jobs - {} == s.jobs && PathSet([]) == {};
    } else {
      var front, last := paths[..|paths| - 1], paths[|paths| - 1];
      JobsRemove(limits, s, front);
      assert JobsFor(paths)[..|paths| - 1] == JobsFor(front);
      assert PathSet(paths) == PathSet(front) + {last};
      var t := AfterAll(limits, s, JobsFor(front));
      assert AfterAll(limits, s, JobsFor(paths)) == DoRunJob(t, last) by { HandleJob(limits, t, last); }
      hide Handle, AfterAll, PathSet, JobsFor;
      assert s.jobs - PathSet(paths) == if last in t.jobs then t.jobs - {last} else t.jobs;
      assert s.storage - PathSet(paths) * s.jobs == if last in t.jobs then t.storage - {last} else t.storage;
    }
  }

  /** The objects of the live rows. */
  function LivePaths(s: State): set<Path> { set d | d in s.rows :: s.rows[d].path }

  lemma LiveIsStored(limits: Limits, s: State)
    requires Sound(limits, s)
    ensures LivePaths(s) <= s.storage - s.jobs
    ensures forall p :: p in LivePaths(s) <==> Live(s, p)
  {
    forall d | d in s.rows ensures s.rows[d].path.doc == d && s.rows[d].path in s.storage && s.rows[d].path !in s.jobs {
      assert RowOk(s, d);
    }
    forall p | Live(s, p) ensures p in LivePaths(s) { assert s.rows[p.doc].path == p; }
  }

  /**
    After any requests, run one at a time and with any failures, the queued deletes in any order empty
    the queue and leave rows and live objects alone. What is stored then is the live rows' objects and
    nothing else exactly when every object was tracked.
   */
  lemma DrainedStorageIsLiveExactlyWhenTracked(limits: Limits, rs: seq<Request>, paths: seq<Path>)
    requires PathSet(paths) == AfterAll(limits, EMPTY, rs).jobs
    ensures var s := AfterAll(limits, EMPTY, rs);
            var t := AfterAll(limits, s, JobsFor(paths));
            && t.jobs == {} && t.rows == s.rows && LivePaths(s) <= t.storage
            && (t.storage == LivePaths(s) <==> Tracked(s))
  {
    hide AfterAll, PathSet, Sound;
    var s := AfterAll(limits, EMPTY, rs);
    RequestsKeepQuotas(limits, rs);
    JobsRemove(limits, s, paths);
    LiveIsStored(limits, s);
    hide LivePaths, Live;
    assert s.storage - s.jobs * s.jobs == s.storage - s.jobs;
  }
}
