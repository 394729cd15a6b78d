/** `create_jobs`: the flat list of a build becomes linked rows of the job table. */
module CreateJobs {
  import opened Base
  import opened Infrabox
  import opened Workflow
  import opened WorkflowOrder
  import opened JobTable
  import opened Descent
  import opened Lifecycle
  import opened Scheduler

  /** A submitted job with the id it was given. */
  datatype NewJob = NewJob(job: FlatJob, id: JobId)

  function FlatOf(jobs: seq<NewJob>): seq<FlatJob> {
    seq(|jobs|, i requires 0 <= i < |jobs| => jobs[i].job)
  }

  ghost predicate UniqueIds(jobs: seq<NewJob>) {
    forall i, j :: 0 <= i < j < |jobs| ==> jobs[i].id != jobs[j].id
  }

  /******* Rows *******/

  function TypeOf(kind: JobKind): JobType {
    match kind
    case Docker => RunProjectContainer
    case DockerImage => RunProjectContainer
    case DockerCompose => RunDockerCompose
    case Wait => WaitJob
  }

  /** `jobname_id`: the last job of a name counts. */
  function NameIds(jobs: seq<NewJob>): map<string, JobId> {
    if jobs == [] then map[]
    else
      var k := |jobs| - 1;
      NameIds(jobs[..k])[jobs[k].job.name := jobs[k].id]
  }

  /** `id` belongs to the last job of this name. */
  ghost predicate LastNamed(jobs: seq<NewJob>, name: string, id: JobId) {
    exists k :: 0 <= k < |jobs| && jobs[k].job.name == name && jobs[k].id == id &&
                forall m :: k < m < |jobs| ==> jobs[m].job.name != name
  }

  lemma {:induction false} LastNamedSnoc(jobs: seq<NewJob>, k: nat, name: string, id: JobId)
    requires k == |jobs| - 1
    ensures jobs[k].job.name == name && jobs[k].id == id ==> LastNamed(jobs, name, id)
    ensures jobs[k].job.name != name && LastNamed(jobs[..k], name, id) ==> LastNamed(jobs, name, id)
  {
    if jobs[k].job.name != name && LastNamed(jobs[..k], name, id) {
      var l :| 0 <= l < k && jobs[..k][l].job.name == name && jobs[..k][l].id == id &&
        forall m :: l < m < k ==> jobs[..k][m].job.name != name;
      assert jobs[l] == jobs[..k][l];
      forall m | l < m < |jobs|
        ensures jobs[m].job.name != name
      {
        assert m < k ==> jobs[m] == jobs[..k][m];
      }
    }
  }

  lemma {:induction false} NameIdsLast(jobs: seq<NewJob>)
    ensures forall name :: name in NameIds(jobs) ==> LastNamed(jobs, name, NameIds(jobs)[name])
    ensures forall k :: 0 <= k < |jobs| ==> jobs[k].job.name in NameIds(jobs)
  {
    if jobs != [] {
      var k := |jobs| - 1;
      NameIdsLast(jobs[..k]);
      forall name | name in NameIds(jobs)
        ensures LastNamed(jobs, name, NameIds(jobs)[name])
      {
        LastNamedSnoc(jobs, k, name, NameIds(jobs)[name]);
        if name != jobs[k].job.name {
          assert LastNamed(jobs[..k], name, NameIds(jobs[..k])[name]);
        }
      }
    }
  }

  predicate Linkable(j: FlatJob, ids: map<string, JobId>) {
    forall i :: 0 <= i < |j.dependsOn| ==> j.dependsOn[i].job in ids
  }

  function LinkDep(x: DependsOn, ids: map<string, JobId>): Dependency
    requires x.job in ids
  {
    Dependency(ids[x.job], if x.on.Some? then x.on.value else [])
  }

  /** Dependencies by id; a root depends on the job that creates it. */
  function LinkDeps(j: FlatJob, ids: map<string, JobId>, creator: JobId): seq<Dependency>
    requires Linkable(j, ids)
  {
    if j.dependsOn == [] then [Dependency(creator, [Is(Finished)])]
    else seq(|j.dependsOn|, i requires 0 <= i < |j.dependsOn| => LinkDep(j.dependsOn[i], ids))
  }

  function NewRow(j: FlatJob, ids: map<string, JobId>, creator: JobId, build: BuildId, cluster: string -> string): Row
    requires Linkable(j, ids)
  {
    Row(TypeOf(j.kind), j.name, build, cluster(j.name), Queued, LinkDeps(j, ids, creator))
  }

  /** The rows of the jobs of `jobs`, whatever the order in which they are inserted. */
  function NewRows(jobs: seq<NewJob>, ids: map<string, JobId>, creator: JobId, build: BuildId,
      cluster: string -> string): Table
    requires forall i :: 0 <= i < |jobs| ==> Linkable(jobs[i].job, ids)
  {
    if jobs == [] then map[]
    else
      var k := |jobs| - 1;
      NewRows(jobs[..k], ids, creator, build, cluster)
        [jobs[k].id := NewRow(jobs[k].job, ids, creator, build, cluster)]
  }

  lemma {:induction false} NewRowsLookup(jobs: seq<NewJob>, ids: map<string, JobId>, creator: JobId, build: BuildId,
      cluster: string -> string)
    requires UniqueIds(jobs) && forall i :: 0 <= i < |jobs| ==> Linkable(jobs[i].job, ids)
    ensures var rows := NewRows(jobs, ids, creator, build, cluster);
      && (forall i :: 0 <= i < |jobs| ==>
            jobs[i].id in rows && rows[jobs[i].id] == NewRow(jobs[i].job, ids, creator, build, cluster))
      && (forall id :: id in rows ==> exists i :: 0 <= i < |jobs| && jobs[i].id == id)
  {
    hide NewRow, Linkable;
    if jobs != [] {
      NewRowsLookup(jobs[..|jobs| - 1], ids, creator, build, cluster);
    }
  }

  /** The row says what was submitted, and that the job is to be run. */
  predicate AsSubmitted(row: Row, j: FlatJob, build: BuildId, cluster: string -> string) {
    && row.name == j.name && row.build == build && row.cluster == cluster(j.name) && row.state == Queued
    && (j.kind == Docker || j.kind == DockerImage ==> row.kind == RunProjectContainer)
    && (j.kind == DockerCompose ==> row.kind == RunDockerCompose)
    && (j.kind == Wait ==> row.kind == WaitJob)
  }

  lemma {:induction false} RowsAsSubmitted(jobs: seq<NewJob>, ids: map<string, JobId>, creator: JobId, build: BuildId,
      cluster: string -> string)
    requires UniqueIds(jobs) && forall i :: 0 <= i < |jobs| ==> Linkable(jobs[i].job, ids)
    ensures var rows := NewRows(jobs, ids, creator, build, cluster);
      forall i :: 0 <= i < |jobs| ==> jobs[i].id in rows && AsSubmitted(rows[jobs[i].id], jobs[i].job, build, cluster)
  {
    NewRowsLookup(jobs, ids, creator, build, cluster);
  }

  /** The sort by average duration does not matter. */
  lemma {:induction false} NewRowsPermuted(jobs: seq<NewJob>, sorted: seq<NewJob>, ids: map<string, JobId>,
      creator: JobId, build: BuildId,
      cluster: string -> string)
    requires UniqueIds(jobs) && multiset(sorted) == multiset(jobs)
    requires forall i :: 0 <= i < |jobs| ==> Linkable(jobs[i].job, ids)
    requires forall i :: 0 <= i < |sorted| ==> Linkable(sorted[i].job, ids)
    ensures NewRows(sorted, ids, creator, build, cluster) == NewRows(jobs, ids, creator, build, cluster)
  {
    SortedUniqueIds(jobs, sorted);
    SameMembers(jobs, sorted);
    NewRowsSubset(sorted, jobs, ids, creator, build, cluster);
    NewRowsSubset(jobs, sorted, ids, creator, build, cluster);
  }

  lemma {:induction false} SameMembers(jobs: seq<NewJob>, sorted: seq<NewJob>)
    requires multiset(sorted) == multiset(jobs)
    ensures forall x :: x in sorted <==> x in jobs
  {
    assert forall x :: x in sorted <==> x in multiset(jobs);
  }

  lemma {:induction false} NewRowsSubset(some: seq<NewJob>, all: seq<NewJob>, ids: map<string, JobId>,
      creator: JobId, build: BuildId,
      cluster: string -> string)
    requires UniqueIds(some) && UniqueIds(all) && forall x :: x in some ==> x in all
    requires forall i :: 0 <= i < |some| ==> Linkable(some[i].job, ids)
    requires forall i :: 0 <= i < |all| ==> Linkable(all[i].job, ids)
    ensures var a, b := NewRows(some, ids, creator, build, cluster), NewRows(all, ids, creator, build, cluster);
      forall id :: id in a ==> id in b && a[id] == b[id]
  {
    var a, b := NewRows(some, ids, creator, build, cluster), NewRows(all, ids, creator, build, cluster);
    NewRowsLookup(some, ids, creator, build, cluster);
    NewRowsLookup(all, ids, creator, build, cluster);
    forall id | id in a
      ensures id in b && a[id] == b[id]
    {
      var i :| 0 <= i < |some| && some[i].id == id;
      assert some[i] in all;
      var j :| 0 <= j < |all| && all[j] == some[i];
    }
  }

  lemma {:induction false} SortedUniqueIds(jobs: seq<NewJob>, sorted: seq<NewJob>)
    requires UniqueIds(jobs) && multiset(sorted) == multiset(jobs)
    ensures UniqueIds(sorted)
  {
    forall i, j | 0 <= i < j < |sorted|
      ensures sorted[i].id != sorted[j].id
    {
      if sorted[i].id == sorted[j].id {
        assert sorted[i] in multiset(jobs) && sorted[j] in multiset(jobs);
        var a :| 0 <= a < |jobs| && jobs[a] == sorted[i];
        var b :| 0 <= b < |jobs| && jobs[b] == sorted[j];
        assert a == b;
        CountedTwice(sorted, i, j);
        CountedOnce(jobs, a);
      }
    }
  }

  lemma {:induction false} CountedTwice<T>(s: seq<T>, i: nat, j: nat)
    requires i < j < |s| && s[i] == s[j]
    ensures multiset(s)[s[i]] >= 2
  {
    assert s == s[..j] + s[j..];
    assert s[i] in s[..j] && s[j] in s[j..];
    assert s[j..][0] == s[j];
    assert multiset(s) == multiset(s[..j]) + multiset(s[j..]);
  }

  lemma {:induction false} CountedOnce(jobs: seq<NewJob>, a: nat)
    requires UniqueIds(jobs) && a < |jobs|
    ensures multiset(jobs)[jobs[a]] == 1
  {
    assert jobs == jobs[..a] + ([jobs[a]] + jobs[a + 1..]);
    assert multiset(jobs) == multiset(jobs[..a]) + (multiset([jobs[a]]) + multiset(jobs[a + 1..]));
    assert jobs[a] !in jobs[..a] && jobs[a] !in jobs[a + 1..];
  }

  /******* The handler *******/

  class CreateJobs {
    const db: Database

    constructor (db: Database)
      ensures this.db == db
    {
      this.db := db;
    }

    method CollectIds(jobs: seq<NewJob>) returns (ids: map<string, JobId>)
      ensures ids == NameIds(jobs)
      ensures forall name :: name in ids ==> LastNamed(jobs, name, ids[name])
      ensures forall k :: 0 <= k < |jobs| ==> jobs[k].job.name in ids
    {
      ids := map[];
      for k := 0 to |jobs|
        invariant ids == NameIds(jobs[..k])
      {
        assert jobs[..k + 1][..k] == jobs[..k];
        ids := ids[jobs[k].job.name := jobs[k].id];
      }
      assert jobs[..|jobs|] == jobs;
      NameIdsLast(jobs);
    }

    method LinkJob(j: FlatJob, ids: map<string, JobId>, creator: JobId) returns (r: Result<seq<Dependency>>)
      ensures r.Ok? <==> Linkable(j, ids)
      ensures r.Ok? ==> r.value == LinkDeps(j, ids, creator)
    {
      if j.dependsOn == [] {
        return Ok([Dependency(creator, [Is(Finished)])]);
      }
      var deps: seq<Dependency> := [];
      for i := 0 to |j.dependsOn|
        invariant |deps| == i
        invariant forall k :: 0 <= k < i ==>
          j.dependsOn[k].job in ids && deps[k] == LinkDep(j.dependsOn[k], ids)
      {
        if j.dependsOn[i].job !in ids {
          return Err("unknown job");
        }
        deps := deps + [LinkDep(j.dependsOn[i], ids)];
      }
      r := Ok(deps);
    }

    /** The rows to be inserted, in the order after the sort. */
    method LinkAll(sorted: seq<NewJob>, ids: map<string, JobId>, creator: JobId, build: BuildId,
        cluster: string -> string) returns (r: Result<Table>)
      ensures r.Ok? <==> forall i :: 0 <= i < |sorted| ==> Linkable(sorted[i].job, ids)
      ensures r.Ok? ==> r.value == NewRows(sorted, ids, creator, build, cluster)
    {
      var inserted: Table := map[];
      for k := 0 to |sorted|
        invariant forall i :: 0 <= i < k ==> Linkable(sorted[i].job, ids)
        invariant inserted == NewRows(sorted[..k], ids, creator, build, cluster)
      {
        assert sorted[..k + 1][..k] == sorted[..k];
        var j := sorted[k];
        var deps := LinkJob(j.job, ids, creator);
        if deps.Err? {
          return Err("unknown job");
        }
        var row := Row(TypeOf(j.job.kind), j.job.name, build, cluster(j.job.name), Queued, deps.value);
        inserted := inserted[j.id := row];
      }
      assert sorted[..|sorted|] == sorted;
      r := Ok(inserted);
    }

    /**
     Inserts a row for every job, or none.  `sorted` is the list after the sort by average
     duration and `cluster` the cluster assignment.
     */
    method Post(creator: JobId, jobs: seq<NewJob>, sorted: seq<NewJob>, cluster: string -> string)
        returns (r: Result<()>)
      requires UniqueIds(jobs) && multiset(sorted) == multiset(jobs)
      modifies db
      ensures db.live == old(db.live) && db.aborts == old(db.aborts)
      ensures r.Ok? <==>
        && creator in old(db.table) && Active(old(db.table)[creator].state)
        && forall i :: 0 <= i < |jobs| ==> Linkable(jobs[i].job, NameIds(jobs))
      ensures r.Err? ==> db.table == old(db.table)
      ensures r.Ok? ==>
        db.table == old(db.table) + NewRows(jobs, NameIds(jobs), creator, old(db.table)[creator].build, cluster)
      ensures r.Ok? ==> forall i :: 0 <= i < |jobs| ==>
        && jobs[i].id in db.table
        && AsSubmitted(db.table[jobs[i].id], jobs[i].job, old(db.table)[creator].build, cluster)
    {
      if creator !in db.table || !Active(db.table[creator].state) {
        return Err("unauthorized");
      }
      var build := db.table[creator].build;
      var ids := CollectIds(jobs);
      var inserted := LinkAll(sorted, ids, creator, build, cluster);
      PermutedLinkable(jobs, sorted, ids);
      if inserted.Err? {
        return Err("unknown job");
      }
      NewRowsPermuted(jobs, sorted, ids, creator, build, cluster);
      RowsAsSubmitted(jobs, ids, creator, build, cluster);
      db.table := db.table + inserted.value;
      r := Ok(());
    }
  }

  lemma {:induction false} PermutedLinkable(jobs: seq<NewJob>, sorted: seq<NewJob>, ids: map<string, JobId>)
    requires multiset(sorted) == multiset(jobs)
    ensures (forall i :: 0 <= i < |jobs| ==> Linkable(jobs[i].job, ids)) <==>
            (forall i :: 0 <= i < |sorted| ==> Linkable(sorted[i].job, ids))
  {
    hide Linkable;
    SameMembers(jobs, sorted);
    assert forall i :: 0 <= i < |jobs| ==> jobs[i] in sorted;
    assert forall i :: 0 <= i < |sorted| ==> sorted[i] in jobs;
  }

  /******* The graph by ids is the graph by names *******/

  lemma {:induction false} NameIdsLookup(jobs: seq<NewJob>)
    requires UniqueNames(FlatOf(jobs))
    ensures forall i :: 0 <= i < |jobs| ==>
      jobs[i].job.name in NameIds(jobs) && NameIds(jobs)[jobs[i].job.name] == jobs[i].id
    ensures forall name :: name in NameIds(jobs) ==> exists i :: 0 <= i < |jobs| && jobs[i].job.name == name
  {
    if jobs != [] {
      var k := |jobs| - 1;
      forall i, j | 0 <= i < j < |jobs|
        ensures jobs[i].job.name != jobs[j].job.name
      {
        assert FlatOf(jobs)[i].name != FlatOf(jobs)[j].name;
      }
      NameIdsLookup(jobs[..k]);
    }
  }

  lemma {:induction false} DependencyKnown(jobs: seq<NewJob>, i: nat, x: nat)
    requires UniqueNames(FlatOf(jobs)) && Topological(FlatOf(jobs))
    requires i < |jobs| && x < |jobs[i].job.dependsOn|
    ensures jobs[i].job.dependsOn[x].job in NameIds(jobs)
  {
    NameIdsLookup(jobs);
    var y := jobs[i].job.dependsOn[x];
    var k := EarlierJob(jobs, i, y);
    assert jobs[k].job.name in NameIds(jobs);
  }

  /** The job a dependency names comes earlier in the list. */
  lemma {:induction false} EarlierJob(jobs: seq<NewJob>, i: nat, y: DependsOn) returns (k: nat)
    requires Topological(FlatOf(jobs)) && i < |jobs| && y in jobs[i].job.dependsOn
    ensures k < i && jobs[k].job.name == y.job
  {
    assert y in FlatOf(jobs)[i].dependsOn;
    assert DeclaredBefore(FlatOf(jobs), i, y.job);
    k :| 0 <= k < i && FlatOf(jobs)[k].name == y.job;
  }

  lemma {:induction false} TopologicalIsLinkable(jobs: seq<NewJob>)
    requires UniqueNames(FlatOf(jobs)) && Topological(FlatOf(jobs))
    ensures forall i :: 0 <= i < |jobs| ==> Linkable(jobs[i].job, NameIds(jobs))
  {
    forall i | 0 <= i < |jobs|
      ensures Linkable(jobs[i].job, NameIds(jobs))
    {
      forall x | 0 <= x < |jobs[i].job.dependsOn|
        ensures jobs[i].job.dependsOn[x].job in NameIds(jobs)
      {
        DependencyKnown(jobs, i, x);
      }
    }
  }

  ghost predicate WaitsFor(a: FlatJob, b: FlatJob) {
    exists x :: 0 <= x < |a.dependsOn| && a.dependsOn[x].job == b.name
  }

  /** Entry by entry, the linked dependencies name job `b` where the written ones do, with their conditions. */
  ghost predicate SameEdges(deps: seq<Dependency>, written: seq<DependsOn>, b: NewJob) {
    && |deps| == |written|
    && forall x :: 0 <= x < |deps| ==>
         && (deps[x].id == b.id <==> written[x].job == b.job.name)
         && deps[x].on == if written[x].on.Some? then written[x].on.value else []
  }

  /**
   One row depends on another iff the one job depends on the other, and under the same condition;
   exactly the roots depend on the creator, and they wait for it to finish.
   */
  lemma {:induction false} SameGraph(jobs: seq<NewJob>, creator: JobId, build: BuildId, cluster: string -> string,
      a: nat, b: nat)
    requires UniqueIds(jobs) && UniqueNames(FlatOf(jobs)) && Topological(FlatOf(jobs))
    requires a < |jobs| && b < |jobs| && forall i :: 0 <= i < |jobs| ==> jobs[i].id != creator
    ensures forall i :: 0 <= i < |jobs| ==> Linkable(jobs[i].job, NameIds(jobs))
    ensures var rows := NewRows(jobs, NameIds(jobs), creator, build, cluster);
      && (Parent(rows, jobs[a].id, jobs[b].id) <==> WaitsFor(jobs[a].job, jobs[b].job))
      && jobs[a].id in rows
      && (DependsOnId(rows[jobs[a].id].deps, creator) <==> jobs[a].job.dependsOn == [])
      && (jobs[a].job.dependsOn == [] ==> rows[jobs[a].id].deps == [Dependency(creator, [Is(Finished)])])
      && (jobs[a].job.dependsOn != [] ==> SameEdges(rows[jobs[a].id].deps, jobs[a].job.dependsOn, jobs[b]))
  {
    hide NameIds, NewRows, Topological, UniqueNames;
    TopologicalIsLinkable(jobs);
    NewRowsLookup(jobs, NameIds(jobs), creator, build, cluster);
    if jobs[a].job.dependsOn != [] {
      EdgesLinked(jobs, creator, a, b);
    } else {
      assert LinkDeps(jobs[a].job, NameIds(jobs), creator)[0].id == creator;
    }
  }

  lemma {:induction false} EdgesLinked(jobs: seq<NewJob>, creator: JobId, a: nat, b: nat)
    requires UniqueIds(jobs) && UniqueNames(FlatOf(jobs))
    requires a < |jobs| && b < |jobs| && forall i :: 0 <= i < |jobs| ==> jobs[i].id != creator
    requires jobs[a].job.dependsOn != [] && Linkable(jobs[a].job, NameIds(jobs))
    ensures var deps := LinkDeps(jobs[a].job, NameIds(jobs), creator);
      SameEdges(deps, jobs[a].job.dependsOn, jobs[b]) && !DependsOnId(deps, creator)
  {
    NameIdsLookup(jobs);
    var j := jobs[a].job;
    var deps := LinkDeps(j, NameIds(jobs), creator);
    forall x | 0 <= x < |j.dependsOn|
      ensures deps[x].id == jobs[b].id <==> j.dependsOn[x].job == jobs[b].job.name
      ensures deps[x].id != creator
    {
      var k :| 0 <= k < |jobs| && jobs[k].job.name == j.dependsOn[x].job;
      assert deps[x].id == jobs[k].id;
      assert FlatOf(jobs)[k] == jobs[k].job && FlatOf(jobs)[b] == jobs[b].job;
      assert k < b || b < k || k == b;
    }
  }

  /** What the list of a compiled build guarantees. */
  ghost predicate WellFormedJobs(jobs: seq<NewJob>) {
    && UniqueIds(jobs)
    && UniqueNames(FlatOf(jobs))
    && Topological(FlatOf(jobs))
    && forall i, x :: 0 <= i < |jobs| && x in jobs[i].job.dependsOn ==> Explicit(x)
  }

  /** The job behind a row. */
  lemma {:induction false} RowOf(jobs: seq<NewJob>, ids: map<string, JobId>, creator: JobId, build: BuildId,
      cluster: string -> string,
      id: JobId) returns (i: nat)
    requires UniqueIds(jobs) && forall i :: 0 <= i < |jobs| ==> Linkable(jobs[i].job, ids)
    requires id in NewRows(jobs, ids, creator, build, cluster)
    ensures i < |jobs| && jobs[i].id == id
    ensures NewRows(jobs, ids, creator, build, cluster)[id] == NewRow(jobs[i].job, ids, creator, build, cluster)
  {
    NewRowsLookup(jobs, ids, creator, build, cluster);
    i :| 0 <= i < |jobs| && jobs[i].id == id;
  }

  /** Whatever a build inserts that is no wait job can be restarted once it has ended. */
  lemma {:induction false} InsertedCanBeRestarted(j: FlatJob, ids: map<string, JobId>, creator: JobId, build: BuildId,
      cluster: string -> string, end: JobState)
    requires Linkable(j, ids) && Outcome(end)
    ensures Restartable(NewRow(j, ids, creator, build, cluster).(state := end)) <==> !j.kind.Wait?
  {
  }

  /** The inserted rows are properly linked, so the insertion is a step of the transition system. */
  lemma {:induction false} RowsAreLinked(t: Table, creator: JobId, jobs: seq<NewJob>, cluster: string -> string)
    requires WellFormedJobs(jobs) && creator in t
    requires forall i :: 0 <= i < |jobs| ==> jobs[i].id !in t
    ensures forall i :: 0 <= i < |jobs| ==> Linkable(jobs[i].job, NameIds(jobs))
    ensures LinkedRows(t, creator, NewRows(jobs, NameIds(jobs), creator, t[creator].build, cluster))
  {
    hide NameIds, NewRows, LinkDeps, Linkable, UniqueNames, Topological;
    var ids := NameIds(jobs);
    TopologicalIsLinkable(jobs);
    NameIdsLookup(jobs);
    var rows := NewRows(jobs, ids, creator, t[creator].build, cluster);
    NewRowsLookup(jobs, ids, creator, t[creator].build, cluster);
    forall id | id in rows
      ensures id !in t
      ensures rows[id].state == Queued && rows[id].build == t[creator].build && rows[id].deps != []
      ensures forall x :: 0 <= x < |rows[id].deps| ==>
        rows[id].deps[x].on != [] && (rows[id].deps[x].id in rows || rows[id].deps[x].id == creator)
    {
      var i := RowOf(jobs, ids, creator, t[creator].build, cluster, id);
      RowLinked(jobs, ids, creator, i);
    }
    RowsAcyclic(jobs, creator, t[creator].build, cluster);
  }

  lemma {:induction false} RowLinked(jobs: seq<NewJob>, ids: map<string, JobId>, creator: JobId, i: nat)
    requires WellFormedJobs(jobs) && i < |jobs| && ids == NameIds(jobs) && Linkable(jobs[i].job, ids)
    ensures var deps := LinkDeps(jobs[i].job, ids, creator);
      deps != [] && forall x :: 0 <= x < |deps| ==>
        deps[x].on != [] && (deps[x].id == creator || exists k :: 0 <= k < |jobs| && jobs[k].id == deps[x].id)
  {
    NameIdsLookup(jobs);
    var j := jobs[i].job;
    var deps := LinkDeps(j, ids, creator);
    if j.dependsOn != [] {
      forall x | 0 <= x < |deps|
        ensures deps[x].on != [] && exists k :: 0 <= k < |jobs| && jobs[k].id == deps[x].id
      {
        assert j.dependsOn[x] in j.dependsOn && Explicit(j.dependsOn[x]);
        var k :| 0 <= k < |jobs| && jobs[k].job.name == j.dependsOn[x].job;
        assert jobs[k].id == deps[x].id;
      }
    }
  }

  /** Positions in the list rank the rows. */
  ghost function Position(jobs: seq<NewJob>, id: JobId): (p: nat)
    requires exists i :: 0 <= i < |jobs| && jobs[i].id == id
    ensures p < |jobs| && jobs[p].id == id
  {
    var i :| 0 <= i < |jobs| && jobs[i].id == id;
    i
  }

  lemma {:induction false} EdgeGoesBack(jobs: seq<NewJob>, a: nat, b: nat)
    requires UniqueNames(FlatOf(jobs)) && Topological(FlatOf(jobs))
    requires a < |jobs| && b < |jobs| && WaitsFor(jobs[a].job, jobs[b].job)
    ensures b < a
  {
    var x :| 0 <= x < |jobs[a].job.dependsOn| && jobs[a].job.dependsOn[x].job == jobs[b].job.name;
    var k := EarlierJob(jobs, a, jobs[a].job.dependsOn[x]);
    assert FlatOf(jobs)[b].name == FlatOf(jobs)[k].name;
    assert k == b;
  }

  lemma {:induction false} RowsAcyclic(jobs: seq<NewJob>, creator: JobId, build: BuildId, cluster: string -> string)
    requires WellFormedJobs(jobs)
    requires forall i :: 0 <= i < |jobs| ==> Linkable(jobs[i].job, NameIds(jobs)) && jobs[i].id != creator
    ensures Acyclic(NewRows(jobs, NameIds(jobs), creator, build, cluster))
  {
    var rows := NewRows(jobs, NameIds(jobs), creator, build, cluster);
    NewRowsLookup(jobs, NameIds(jobs), creator, build, cluster);
    var rank := map id | id in rows :: Position(jobs, id);
    forall c, p | Parent(rows, c, p)
      ensures rank[p] < rank[c]
    {
      var a, b := rank[c], rank[p];
      SameGraph(jobs, creator, build, cluster, a, b);
      EdgeGoesBack(jobs, a, b);
    }
    assert Ranked(rows, rank);
  }

  /** Every new job comes after the job that created it. */
  lemma {:induction false} NewJobsDescend(t: Table, creator: JobId, rows: Table, rank: map<JobId, nat>, id: JobId)
    requires LinkedRows(t, creator, rows) && Resolved(t) && Ranked(rows, rank) && id in rows
    ensures Descends(t + rows, creator, id)
    decreases rank[id]
  {
    var p := rows[id].deps[0].id;
    var u := t + rows;
    assert DependsOnId(u[id].deps, p) && p in u;
    if p in rows {
      assert Parent(rows, id, p);
      NewJobsDescend(t, creator, rows, rank, p);
    } else {
      assert LineFromTo(u, [creator], creator, creator);
    }
    DescendsFurther(u, creator, p, id);
  }
}
