/** The `job` table of the database: rows linked by dependencies, and what a linked build means. */
module JobTable {
  import opened Base

  type JobId = nat
  type BuildId = nat

  datatype JobType = CreateJobMatrix | RunProjectContainer | RunDockerCompose | WaitJob

  datatype Dependency = Dependency(id: JobId, on: seq<OnValue>)

  datatype Row =
    Row(kind: JobType, name: string, build: BuildId, cluster: string, state: JobState, deps: seq<Dependency>)

  type Table = map<JobId, Row>

  /******* Parents *******/

  predicate DependsOnId(deps: seq<Dependency>, p: JobId) {
    exists i :: 0 <= i < |deps| && deps[i].id == p
  }

  /** `p` is a row that row `c` depends on.  Dependencies on ids without a row have no effect. */
  predicate Parent(t: Table, c: JobId, p: JobId) {
    c in t && p in t && DependsOnId(t[c].deps, p)
  }

  /** The condition that counts for parent `p`: the last one listed. */
  function Condition(deps: seq<Dependency>, p: JobId): seq<OnValue> {
    if deps == [] then []
    else if deps[|deps| - 1].id == p then deps[|deps| - 1].on
    else Condition(deps[..|deps| - 1], p)
  }

  ghost predicate ParentActive(t: Table, id: JobId) {
    exists p :: Parent(t, id, p) && Active(t[p].state)
  }

  ghost predicate ConditionFails(t: Table, id: JobId)
    requires id in t
  {
    exists p :: Parent(t, id, p) && Is(t[p].state) !in Condition(t[id].deps, p)
  }

  function SetState(t: Table, id: JobId, s: JobState): Table
    requires id in t
  {
    t[id := t[id].(state := s)]
  }

  /** The tables differ in the states of their rows at most. */
  ghost predicate SameShape(t: Table, u: Table) {
    t.Keys == u.Keys && forall id :: id in t ==> u[id] == t[id].(state := u[id].state)
  }

  lemma {:induction false} ShapeParents(t: Table, u: Table, c: JobId, p: JobId)
    requires SameShape(t, u)
    ensures Parent(t, c, p) == Parent(u, c, p)
  {
  }

  /** No dependency leads to another build. */
  ghost predicate WithinBuilds(t: Table) {
    forall c, p :: Parent(t, c, p) ==> t[c].build == t[p].build
  }

  /******* Acyclic tables *******/

  /** `rank` grows along every dependency. */
  ghost predicate Ranked(t: Table, rank: map<JobId, nat>) {
    t.Keys <= rank.Keys && forall c, p :: Parent(t, c, p) ==> rank[p] < rank[c]
  }

  ghost predicate Acyclic(t: Table) {
    exists rank :: Ranked(t, rank)
  }

  lemma {:induction false} ShapeRanked(t: Table, u: Table, rank: map<JobId, nat>)
    requires SameShape(t, u) && Ranked(t, rank)
    ensures Ranked(u, rank)
  {
    forall c, p | Parent(u, c, p)
      ensures rank[p] < rank[c]
    {
      ShapeParents(t, u, c, p);
    }
  }

  lemma {:induction false} ShapeAcyclic(t: Table, u: Table)
    requires SameShape(t, u) && Acyclic(t)
    ensures Acyclic(u)
  {
    var rank :| Ranked(t, rank);
    ShapeRanked(t, u, rank);
  }

  /******* The meaning of a linked build *******/

  /** What each job that is no wait job reports when it runs. */
  type Reports = JobId -> JobState

  type Meaning = map<JobId, JobState>

  ghost predicate GateOpen(t: Table, id: JobId, ev: Meaning)
    requires id in t && ev.Keys == t.Keys
  {
    forall p :: Parent(t, id, p) ==> Is(ev[p]) in Condition(t[id].deps, p)
  }

  function RowResult(kind: JobType, open: bool, report: JobState): JobState {
    if !open then Skipped else if kind.WaitJob? then Finished else report
  }

  /** `ev` gives every row the state its conditions and its report call for. */
  ghost predicate IsMeaning(t: Table, ev: Meaning, o: Reports) {
    ev.Keys == t.Keys && forall id :: id in t ==> ev[id] == RowResult(t[id].kind, GateOpen(t, id, ev), o(id))
  }

  lemma {:induction false} ShapeMeaning(t: Table, u: Table, ev: Meaning, o: Reports)
    requires SameShape(t, u) && IsMeaning(t, ev, o)
    ensures IsMeaning(u, ev, o)
  {
    forall id | id in u
      ensures ev[id] == RowResult(u[id].kind, GateOpen(u, id, ev), o(id))
    {
      forall p
        ensures Parent(t, id, p) == Parent(u, id, p)
      {
        ShapeParents(t, u, id, p);
      }
      assert GateOpen(t, id, ev) == GateOpen(u, id, ev);
    }
  }

  /** An acyclic build has at most one meaning. */
  lemma {:induction false} MeaningUnique(t: Table, rank: map<JobId, nat>, ev1: Meaning, ev2: Meaning, o: Reports,
      id: JobId)
    requires Ranked(t, rank) && id in t
    requires IsMeaning(t, ev1, o) && IsMeaning(t, ev2, o)
    ensures ev1[id] == ev2[id]
    decreases rank[id]
  {
    forall p | Parent(t, id, p)
      ensures ev1[p] == ev2[p]
    {
      MeaningUnique(t, rank, ev1, ev2, o, p);
    }
    assert GateOpen(t, id, ev1) == GateOpen(t, id, ev2);
  }

  ghost function MeaningOf(t: Table, rank: map<JobId, nat>, o: Reports, id: JobId): JobState
    requires Ranked(t, rank) && id in t
    decreases rank[id]
  {
    var open := forall p :: Parent(t, id, p) ==> Is(MeaningOf(t, rank, o, p)) in Condition(t[id].deps, p);
    RowResult(t[id].kind, open, o(id))
  }

  /** An acyclic build has a meaning. */
  lemma {:induction false} MeaningExists(t: Table, o: Reports) returns (ev: Meaning)
    requires Acyclic(t)
    ensures IsMeaning(t, ev, o)
  {
    var rank :| Ranked(t, rank);
    ev := map id | id in t :: MeaningOf(t, rank, o, id);
    forall id | id in t
      ensures ev[id] == RowResult(t[id].kind, GateOpen(t, id, ev), o(id))
    {
      assert forall p :: Parent(t, id, p) ==> ev[p] == MeaningOf(t, rank, o, p);
    }
  }
}
