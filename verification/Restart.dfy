/** Restarting a job and everything after it; the ancestors shown for a job. */
module Restart {
  import opened Base
  import opened JobTable
  import opened Descent
  import opened Lifecycle
  import opened Scheduler

  /** The rows of the build of `id`, in whatever order the database lists them. */
  ghost predicate BuildListing(t: Table, id: JobId, rows: seq<JobId>) {
    && id in t
    && NoDuplicates(rows)
    && forall x :: x in rows <==> x in t && t[x].build == t[id].build
  }

  /** Does some dependency of the job name one of `ids`? */
  predicate DependsOnAny(deps: seq<Dependency>, ids: seq<JobId>) {
    exists i :: 0 <= i < |deps| && deps[i].id in ids
  }

  /** When a sweep finds nothing new, no descendant is missing. */
  lemma {:induction false} SweptHoldsDescendants(t: Table, id: JobId, rows: seq<JobId>, collected: seq<JobId>)
    requires BuildListing(t, id, rows) && WithinBuilds(t) && id in collected
    requires forall x :: x in collected ==> x in rows
    requires forall x :: x in rows && x !in collected ==> !DependsOnAny(t[x].deps, collected)
    ensures forall x :: x in Descendants(t, id) ==> x in collected
  {
    var s := set x | x in collected;
    forall p, c | p in s && Parent(t, c, p)
      ensures c in s
    {
      ChildCollected(t, id, rows, collected, c, p);
    }
    DescendantsLeast(t, s, id);
  }

  lemma {:induction false} ChildCollected(t: Table, id: JobId, rows: seq<JobId>, collected: seq<JobId>, c: JobId,
      p: JobId)
    requires BuildListing(t, id, rows) && WithinBuilds(t)
    requires p in collected && p in rows && Parent(t, c, p)
    requires c in rows && c !in collected ==> !DependsOnAny(t[c].deps, collected)
    ensures c in collected
  {
    var i :| 0 <= i < |t[c].deps| && t[c].deps[i].id == p;
    assert DependsOnAny(t[c].deps, collected);
  }

  predicate Blocking(s: JobState) {
    !RestartState(s) && s != Skipped
  }

  class JobRestart {
    const db: Database

    constructor (db: Database)
      ensures this.db == db
    {
      this.db := db;
    }

    method DependsOnRestarted(deps: seq<Dependency>, restartJobs: seq<JobId>) returns (found: bool)
      ensures found <==> DependsOnAny(deps, restartJobs)
    {
      for i := 0 to |deps|
        invariant forall k :: 0 <= k < i ==> deps[k].id !in restartJobs
      {
        if deps[i].id in restartJobs {
          return true;
        }
      }
      found := false;
    }

    /** One sweep over the rows, appending every job that depends on a collected one. */
    method Sweep(rows: seq<JobId>, collected: seq<JobId>, id: JobId) returns (restartJobs: seq<JobId>, found: bool)
      requires BuildListing(db.table, id, rows)
      requires NoDuplicates(collected) && forall x :: x in collected ==> x in Descendants(db.table, id) && x in rows
      ensures NoDuplicates(restartJobs) && forall x :: x in restartJobs ==> x in Descendants(db.table, id) && x in rows
      ensures collected <= restartJobs
      ensures found ==> |restartJobs| > |collected|
      ensures !found ==> restartJobs == collected
      ensures !found ==> forall x :: x in rows && x !in collected ==> !DependsOnAny(db.table[x].deps, collected)
    {
      restartJobs, found := collected, false;
      for i := 0 to |rows|
        invariant NoDuplicates(restartJobs)
        invariant forall x :: x in restartJobs ==> x in Descendants(db.table, id) && x in rows
        invariant collected <= restartJobs
        invariant found ==> |restartJobs| > |collected|
        invariant !found ==> restartJobs == collected
        invariant !found ==>
          forall k :: 0 <= k < i && rows[k] !in collected ==> !DependsOnAny(db.table[rows[k]].deps, collected)
      {
        var j := rows[i];
        if j in restartJobs {
          continue;
        }
        var depends := DependsOnRestarted(db.table[j].deps, restartJobs);
        if depends {
          var k :| 0 <= k < |db.table[j].deps| && db.table[j].deps[k].id in restartJobs;
          DescendantsClosed(db.table, id, db.table[j].deps[k].id, j);
          NoDuplicatesSnoc(restartJobs, j);
          found := true;
          restartJobs := restartJobs + [j];
        }
      }
    }

    /** Sweeps until nothing new is found: exactly the descendants, each once. */
    method CollectDescendants(rows: seq<JobId>, id: JobId) returns (restartJobs: seq<JobId>)
      requires BuildListing(db.table, id, rows) && WithinBuilds(db.table)
      ensures NoDuplicates(restartJobs)
      ensures forall x :: x in restartJobs <==> x in Descendants(db.table, id)
    {
      ghost var all := set x | x in rows;
      restartJobs := [id];
      while true
        invariant NoDuplicates(restartJobs) && id in restartJobs
        invariant forall x :: x in restartJobs ==> x in Descendants(db.table, id) && x in rows
        decreases |all| - |restartJobs|
      {
        var found: bool;
        ghost var before := restartJobs;
        restartJobs, found := Sweep(rows, restartJobs, id);
        assert before[..] <= restartJobs;
        NoDuplicatesFits(restartJobs, all);
        if !found {
          break;
        }
      }
      SweptHoldsDescendants(db.table, id, rows, restartJobs);
    }

    /** Is some row to be restarted still active? */
    method SomeBlocked(rows: seq<JobId>, restartJobs: seq<JobId>) returns (blocked: bool)
      requires forall x :: x in rows ==> x in db.table
      ensures blocked <==> exists x :: x in rows && x in restartJobs && Blocking(db.table[x].state)
    {
      for i := 0 to |rows|
        invariant forall k :: 0 <= k < i && rows[k] in restartJobs ==> !Blocking(db.table[rows[k]].state)
      {
        var j := rows[i];
        if j !in restartJobs {
          continue;
        }
        if !RestartState(db.table[j].state) && db.table[j].state != Skipped {
          return true;
        }
      }
      blocked := false;
    }

    /** Queues the job and all its descendants, or changes nothing. */
    method Get(id: JobId, rows: seq<JobId>) returns (r: Result<()>)
      requires WithinBuilds(db.table)
      requires id in db.table ==> BuildListing(db.table, id, rows)
      modifies db
      ensures db.live == old(db.live) && db.aborts == old(db.aborts)
      ensures r.Ok? <==> RestartAllowed(old(db.table), id)
      ensures r.Ok? ==> db.table == Requeue(old(db.table), Descendants(old(db.table), id))
      ensures r.Ok? ==> DescendantsQueued(old(db.table), db.table, id)
      ensures r.Err? ==> db.table == old(db.table)
    {
      if id !in db.table {
        return Err("not found");
      }
      var job := db.table[id];
      if !job.kind.RunProjectContainer? && !job.kind.RunDockerCompose? {
        return Err("job type cannot be restarted");
      }
      if !RestartState(job.state) {
        return Err("job in this state cannot be restarted");
      }
      var restartJobs := CollectDescendants(rows, id);
      var blocked := SomeBlocked(rows, restartJobs);
      ghost var t, ids := db.table, Descendants(db.table, id);
      DescendantsWithinBuild(t, id);
      assert RestartAllowed(t, id) <==> !blocked;
      if blocked {
        return Err("some children jobs are still running");
      }
      for i := 0 to |restartJobs|
        invariant db.live == old(db.live) && db.aborts == old(db.aborts)
        invariant db.table == Requeue(t, set k | 0 <= k < i :: restartJobs[k])
      {
        assert restartJobs[i] in ids;
        db.table := SetState(db.table, restartJobs[i], Queued);
      }
      assert ids == set k | 0 <= k < |restartJobs| :: restartJobs[k];
      r := Ok(());
    }
  }

  /******* Ancestors *******/

  /** The parents of `k` and, with every job, its parents. */
  ghost predicate AncestorClosed(t: Table, k: JobId, s: set<JobId>) {
    && (forall p :: Parent(t, k, p) ==> p in s)
    && (forall c, p :: c in s && Parent(t, c, p) ==> p in s)
  }

  ghost predicate LeastAncestors(t: Table, k: JobId, s: set<JobId>) {
    AncestorClosed(t, k, s) && forall u :: AncestorClosed(t, k, u) ==> s <= u
  }

  /** The rows the recursive query derives for one job: a row for each dependency, or one without parent. */
  function QueryRows(t: Table, c: JobId): set<(JobId, Option<JobId>)>
    requires c in t
  {
    if t[c].deps == [] then {(c, None)}
    else set i | 0 <= i < |t[c].deps| :: (c, Some(t[c].deps[i].id))
  }

  /** The rows derived in one round of the recursive query. */
  function NextRows(t: Table, work: set<(JobId, Option<JobId>)>): set<(JobId, Option<JobId>)> {
    set w, r | w in work && w.1.Some? && w.1.value in t && r in QueryRows(t, w.1.value) :: r
  }

  function AllRows(t: Table): set<(JobId, Option<JobId>)> {
    set c, r | c in t && r in QueryRows(t, c) :: r
  }

  /** Only jobs of the least closed set are derived. */
  ghost predicate Derived(t: Table, k: JobId, all: set<(JobId, Option<JobId>)>) {
    forall r :: r in all ==>
      && r.0 in t
      && r in QueryRows(t, r.0)
      && QueryRows(t, r.0) <= all
      && forall s :: AncestorClosed(t, k, s) ==> r.0 in s || r.0 == k
  }

  lemma {:induction false} DeriveMore(t: Table, k: JobId, all: set<(JobId, Option<JobId>)>)
    requires Derived(t, k, all)
    ensures Derived(t, k, all + NextRows(t, all))
  {
    var more := NextRows(t, all);
    forall r | r in more
      ensures r.0 in t && r in QueryRows(t, r.0) && QueryRows(t, r.0) <= more
      ensures forall s :: AncestorClosed(t, k, s) ==> r.0 in s || r.0 == k
    {
      var w :| w in all && w.1.Some? && w.1.value in t && r in QueryRows(t, w.1.value);
      assert r.0 == w.1.value;
      assert Parent(t, w.0, r.0);
    }
  }

  /** `WITH RECURSIVE next_job`: rounds of new rows until none is new; then all jobs but `id` itself. */
  method Ancestors(db: Database, id: JobId) returns (ids: set<JobId>)
    requires id in db.table
    ensures forall s :: LeastAncestors(db.table, id, s) ==> ids == s - {id}
    ensures exists s :: LeastAncestors(db.table, id, s)
  {
    var t := db.table;
    var all := if t[id].deps == [] then {} else QueryRows(t, id);
    var work := all;
    while work != {}
      invariant work <= all <= AllRows(t)
      invariant Derived(t, id, all)
      invariant t[id].deps != [] ==> QueryRows(t, id) <= all
      invariant NextRows(t, all - work) <= all
      decreases AllRows(t) - all, work
    {
      var next := NextRows(t, work) - all;
      DeriveMore(t, id, all);
      assert NextRows(t, all) == NextRows(t, all - work) + NextRows(t, work);
      assert all + NextRows(t, all) == all + next;
      all, work := all + next, next;
      assert all - work <= all;
    }
    ids := (set r | r in all :: r.0) - {id};
    AncestorsFound(t, id, all);
  }

  lemma {:induction false} StrictAncestorsLeast(t: Table, k: JobId)
    ensures LeastAncestors(t, k, StrictAncestors(t, k))
  {
    var s := StrictAncestors(t, k);
    forall p | Parent(t, k, p)
      ensures p in s
    {
      assert LineFromTo(t, [p], p, p);
    }
    forall c, p | c in s && Parent(t, c, p)
      ensures p in s
    {
      var q :| Parent(t, k, q) && Descends(t, c, q);
      DescendsFromParent(t, p, c, q);
    }
    forall u | AncestorClosed(t, k, u)
      ensures s <= u
    {
      forall a | a in s
        ensures a in u
      {
        var p :| Parent(t, k, p) && Descends(t, a, p);
        var line :| LineFromTo(t, line, a, p);
        ClosedHoldsLineUp(t, u, line);
      }
    }
  }

  lemma {:induction false} AncestorsFound(t: Table, id: JobId, all: set<(JobId, Option<JobId>)>)
    requires id in t && Derived(t, id, all) && NextRows(t, all) <= all
    requires t[id].deps != [] ==> QueryRows(t, id) <= all
    ensures var found := set r | r in all :: r.0;
      && (exists s :: LeastAncestors(t, id, s))
      && forall s :: LeastAncestors(t, id, s) ==> found - {id} == s - {id}
  {
    var found := set r | r in all :: r.0;
    StrictAncestorsLeast(t, id);
    FoundIsClosed(t, id, all, found);
    forall s | LeastAncestors(t, id, s)
      ensures found - {id} == s - {id}
    {
      assert s <= found + {id};
      FoundInClosed(t, id, all, found, s);
    }
  }

  lemma {:induction false} FoundInClosed(t: Table, id: JobId, all: set<(JobId, Option<JobId>)>, found: set<JobId>,
      s: set<JobId>)
    requires Derived(t, id, all) && AncestorClosed(t, id, s)
    requires forall c :: c in found ==> exists r :: r in all && r.0 == c
    ensures found <= s + {id}
  {
    hide AncestorClosed, QueryRows;
  }

  lemma {:induction false} FoundIsClosed(t: Table, id: JobId, all: set<(JobId, Option<JobId>)>, found: set<JobId>)
    requires id in t && Derived(t, id, all) && NextRows(t, all) <= all
    requires t[id].deps != [] ==> QueryRows(t, id) <= all
    requires found == set r | r in all :: r.0
    ensures AncestorClosed(t, id, found + {id})
  {
    hide Derived, QueryRows, NextRows;
    forall c, p | c in found + {id} && Parent(t, c, p)
      ensures p in found
    {
      ParentFound(t, id, all, c, p);
    }
  }

  lemma {:induction false} ParentFound(t: Table, id: JobId, all: set<(JobId, Option<JobId>)>, c: JobId, p: JobId)
    requires id in t && Derived(t, id, all) && NextRows(t, all) <= all
    requires t[id].deps != [] ==> QueryRows(t, id) <= all
    requires (exists r :: r in all && r.0 == c) || c == id
    requires Parent(t, c, p)
    ensures exists r :: r in all && r.0 == p
  {
    var i :| 0 <= i < |t[c].deps| && t[c].deps[i].id == p;
    var w := (c, Some(p));
    assert w == (c, Some(t[c].deps[i].id)) && w in QueryRows(t, c);
    assert w in all;
    var r := if t[p].deps == [] then (p, None) else (p, Some(t[p].deps[0].id));
    assert r in QueryRows(t, p) && w.1.value == p;
    assert r in NextRows(t, all);
  }

  /** `k` is requeued by a restart of `j` iff it is `j` or `j` is one of its ancestors. */
  lemma {:induction false} AncestorsAndDescendants(t: Table, j: JobId, k: JobId, s: set<JobId>)
    requires j in t && k in t && LeastAncestors(t, k, s)
    ensures k in Descendants(t, j) <==> k == j || j in s
  {
    StrictAncestorsLeast(t, k);
    assert s == StrictAncestors(t, k);
    DescendsLastStep(t, j, k);
  }
}
