/**
 The life of jobs as a transition system.  Each handler of the job API, each decision the
 scheduler takes about one job and each clean-up action is one atomic event.
 */
module Lifecycle {
  import opened Base
  import opened JobTable
  import opened Descent

  /** The table, and the jobs whose IBJob exists in the cluster. */
  datatype System = System(table: Table, live: set<JobId>)

  const EMPTY := System(map[], {})

  /** The cluster's answer to a submission. */
  datatype Submit = Submitted | Refused | NamespaceFailed

  datatype Event =
    | NewBuild(id: JobId, row: Row)             // trigger, upload or restart of a build
    | Create(creator: JobId, rows: Table)       // create_jobs
    | Decide(id: JobId, submit: Submit)         // one iteration of schedule()
    | SetRunning(id: JobId)
    | SetFinished(id: JobId, outcome: JobState)
    | Abort(id: JobId)                          // handle_aborts
    | Timeout(id: JobId)                        // handle_timeouts
    | ControllerError(id: JobId)                // handle_orphaned_jobs, IBJob in state error
    | Reap(id: JobId)                           // the IBJob of a finished job goes away
    | Restart(id: JobId)                        // job restart

  /******* Decisions *******/

  /** The new state of the queued job `id`. */
  ghost function Decision(t: Table, id: JobId, submit: Submit): JobState
    requires id in t
  {
    if ParentActive(t, id) then t[id].state
    else if ConditionFails(t, id) then Skipped
    else if t[id].kind.WaitJob? then Finished
    else
      match submit
      case Submitted => Scheduled
      case Refused => t[id].state
      case NamespaceFailed => JobState.Error
  }

  predicate RestartState(s: JobState) {
    s == JobState.Error || s == JobState.Failure || s == Finished || s == Killed
  }

  predicate Restartable(r: Row) {
    (r.kind.RunProjectContainer? || r.kind.RunDockerCompose?) && RestartState(r.state)
  }

  /** The job may be restarted, and none of its descendants is active. */
  ghost predicate RestartAllowed(t: Table, id: JobId) {
    && id in t && Restartable(t[id])
    && forall d :: d in Descendants(t, id) ==> RestartState(t[d].state) || t[d].state == Skipped
  }

  /** What `RestartAllowed` comes down to: a job that runs something, and nothing active from it on. */
  lemma {:induction false} AllowedMeansIdle(t: Table, id: JobId)
    ensures RestartAllowed(t, id) <==>
      && id in t && (t[id].kind == RunProjectContainer || t[id].kind == RunDockerCompose)
      && t[id].state != Skipped
      && forall d :: d in Descendants(t, id) ==> t[d].state !in {Queued, Scheduled, Running}
  {
  }

  /** `u` is `t` with exactly the descendants of `id` back in the queue. */
  ghost predicate DescendantsQueued(t: Table, u: Table, id: JobId) {
    && u.Keys == t.Keys
    && forall x :: x in t ==> u[x] == if Descends(t, id, x) then t[x].(state := Queued) else t[x]
  }

  ghost function Requeue(t: Table, ids: set<JobId>): Table {
    map x | x in t :: if x in ids then t[x].(state := Queued) else t[x]
  }

  /** New rows of the build of `creator`, each linked to other new rows or to `creator`. */
  ghost predicate LinkedRows(t: Table, creator: JobId, rows: Table) {
    && creator in t
    && rows.Keys !! t.Keys
    && Acyclic(rows)
    && forall id :: id in rows ==>
         && rows[id].state == Queued
         && rows[id].build == t[creator].build
         && rows[id].deps != []
         && forall i :: 0 <= i < |rows[id].deps| ==>
              rows[id].deps[i].on != [] && (rows[id].deps[i].id in rows || rows[id].deps[i].id == creator)
  }

  /******* Steps *******/

  /** The token of a job is accepted as long as the job is active; its runner acts while its IBJob exists. */
  ghost predicate RunnerMayAct(s: System, id: JobId) {
    id in s.live && id in s.table && Active(s.table[id].state)
  }

  ghost predicate Enabled(s: System, e: Event) {
    match e
    case NewBuild(id, row) =>
      && id !in s.table && row.state == Queued && row.deps == []
      && !exists x :: x in s.table && s.table[x].build == row.build
    case Create(creator, rows) => RunnerMayAct(s, creator) && LinkedRows(s.table, creator, rows)
    case Decide(id, submit) =>
      id in s.table && s.table[id].state == Queued && (submit.Submitted? ==> id !in s.live)
    case SetRunning(id) => RunnerMayAct(s, id)
    case SetFinished(id, outcome) => RunnerMayAct(s, id) && Outcome(outcome)
    case Abort(id) => true
    case Timeout(id) => id in s.table && s.table[id].state == Running
    case ControllerError(id) => RunnerMayAct(s, id)
    case Reap(id) => id in s.live && id in s.table && Terminal(s.table[id].state)
    case Restart(id) => RestartAllowed(s.table, id) && Descendants(s.table, id) !! s.live
  }

  ghost function Next(s: System, e: Event): System
    requires Enabled(s, e)
  {
    var t := s.table;
    match e
    case NewBuild(id, row) => s.(table := t[id := row])
    case Create(_, rows) => s.(table := t + rows)
    case Decide(id, submit) =>
      var state := Decision(t, id, submit);
      System(SetState(t, id, state), if state == Scheduled then s.live + {id} else s.live)
    case SetRunning(id) => s.(table := SetState(t, id, Running))
    case SetFinished(id, outcome) => s.(table := SetState(t, id, outcome))
    case Abort(id) => if id in t && Active(t[id].state) then s.(table := SetState(t, id, Killed)) else s
    case Timeout(id) => s.(table := SetState(t, id, JobState.Error))
    case ControllerError(id) => s.(table := SetState(t, id, JobState.Error))
    case Reap(id) => s.(live := s.live - {id})
    case Restart(id) => s.(table := Requeue(t, Descendants(t, id)))
  }

  ghost predicate IsRun(s: System, es: seq<Event>)
    decreases es
  {
    es == [] || (Enabled(s, es[0]) && IsRun(Next(s, es[0]), es[1..]))
  }

  ghost function After(s: System, es: seq<Event>): System
    requires IsRun(s, es)
    decreases es
  {
    if es == [] then s else After(Next(s, es[0]), es[1..])
  }

  lemma {:induction false} OneStep(s: System, e: Event)
    requires Enabled(s, e)
    ensures IsRun(s, [e]) && After(s, [e]) == Next(s, e)
  {
    assert [e][1..] == [];
    assert After(Next(s, e), [e][1..]) == Next(s, e);
  }

  lemma {:induction false} RunConcat(s: System, a: seq<Event>, b: seq<Event>)
    requires IsRun(s, a) && IsRun(After(s, a), b)
    ensures IsRun(s, a + b) && After(s, a + b) == After(After(s, a), b)
    decreases a
  {
    if a == [] {
      assert a + b == b;
    } else {
      RunConcat(Next(s, a[0]), a[1..], b);
      assert (a + b)[1..] == a[1..] + b;
    }
  }

  /******* The global invariant *******/

  ghost predicate Resolved(t: Table) {
    forall id, i :: id in t && 0 <= i < |t[id].deps| ==> t[id].deps[i].id in t && t[id].deps[i].on != []
  }

  /** A job that is neither queued nor killed has terminal parents only. */
  ghost predicate Settled(t: Table) {
    forall c, p :: Parent(t, c, p) && t[c].state != Queued && t[c].state != Killed ==> Terminal(t[p].state)
  }

  /** An IBJob belongs to a job that left the queue. */
  ghost predicate LiveLeftQueue(s: System) {
    forall id :: id in s.live ==> id in s.table && s.table[id].state != Queued
  }

  /** A job in the hands of the cluster has its IBJob. */
  ghost predicate WorkedIsLive(s: System) {
    forall id :: id in s.table && (s.table[id].state == Scheduled || s.table[id].state == Running) ==> id in s.live
  }

  ghost predicate Good(s: System) {
    && LiveLeftQueue(s) && WorkedIsLive(s)
    && Settled(s.table) && WithinBuilds(s.table) && Resolved(s.table) && Acyclic(s.table)
  }

  /** Changing the state of one job keeps the invariant if the job's own parents and children allow it. */
  lemma {:induction false} SetStateGood(s: System, id: JobId, state: JobState, live: set<JobId>)
    requires Good(s) && id in s.table
    requires state != Queued || s.table[id].state == Queued
    requires state != Queued && state != Killed ==> !ParentActive(s.table, id)
    requires Active(state) ==> Active(s.table[id].state)
    requires live == s.live || (live == s.live + {id} && state != Queued)
    requires state == Scheduled || state == Running ==> id in live
    ensures Good(System(SetState(s.table, id, state), live))
  {
    var t, u := s.table, SetState(s.table, id, state);
    ShapeAcyclic(t, u);
    forall c, p | Parent(u, c, p)
      ensures u[c].build == u[p].build
      ensures u[c].state != Queued && u[c].state != Killed ==> Terminal(u[p].state)
    {
      ShapeParents(t, u, c, p);
    }
  }

  /** The restart step queues the job and everything after it, and nothing else. */
  lemma {:induction false} RestartQueues(s: System, id: JobId)
    requires Enabled(s, Restart(id))
    ensures Next(s, Restart(id)).live == s.live
    ensures DescendantsQueued(s.table, Next(s, Restart(id)).table, id)
    ensures Next(s, Restart(id)).table[id].state == Queued
  {
    assert id in Descendants(s.table, id);
  }

  lemma {:induction false} RestartGood(s: System, id: JobId)
    requires Good(s) && Enabled(s, Restart(id))
    ensures Good(Next(s, Restart(id)))
  {
    var t := s.table;
    var u := Requeue(t, Descendants(t, id));
    ShapeAcyclic(t, u);
    forall c, p | Parent(u, c, p)
      ensures u[c].build == u[p].build
      ensures u[c].state != Queued && u[c].state != Killed ==> Terminal(u[p].state)
    {
      ShapeParents(t, u, c, p);
      if p in Descendants(t, id) {
        DescendantsClosed(t, id, p, c);
      }
    }
  }

  lemma {:induction false} CreateParents(t: Table, creator: JobId, rows: Table, c: JobId, p: JobId)
    requires LinkedRows(t, creator, rows) && Resolved(t) && Parent(t + rows, c, p)
    ensures Parent(t, c, p) || Parent(rows, c, p) || (c in rows && p == creator)
    ensures c in rows || p !in rows
  {
    var u := t + rows;
    var i :| 0 <= i < |u[c].deps| && u[c].deps[i].id == p;
    if c in rows {
      assert u[c] == rows[c];
    } else {
      assert u[c] == t[c];
    }
  }

  lemma {:induction false} CreateAcyclic(t: Table, creator: JobId, rows: Table)
    requires LinkedRows(t, creator, rows) && Resolved(t) && Acyclic(t)
    ensures Acyclic(t + rows)
  {
    var r1 :| Ranked(t, r1);
    var r2 :| Ranked(rows, r2);
    var u := t + rows;
    var rank := map id | id in u.Keys :: if id in rows then r1[creator] + 1 + r2[id] else r1[id];
    forall c, p | Parent(u, c, p)
      ensures rank[p] < rank[c]
    {
      CreateParents(t, creator, rows, c, p);
    }
    assert Ranked(u, rank);
  }

  lemma {:induction false} CreateGood(s: System, creator: JobId, rows: Table)
    requires Good(s) && Enabled(s, Create(creator, rows))
    ensures Good(Next(s, Create(creator, rows)))
  {
    var t, u := s.table, s.table + rows;
    CreateAcyclic(t, creator, rows);
    forall c, p | Parent(u, c, p)
      ensures u[c].build == u[p].build
      ensures u[c].state != Queued && u[c].state != Killed ==> Terminal(u[p].state)
    {
      CreateParents(t, creator, rows, c, p);
    }
  }

  lemma {:induction false} NewBuildGood(s: System, id: JobId, row: Row)
    requires Good(s) && Enabled(s, NewBuild(id, row))
    ensures Good(Next(s, NewBuild(id, row)))
  {
    var t, u := s.table, s.table[id := row];
    forall c, p | Parent(u, c, p)
      ensures Parent(t, c, p)
    {
      if c != id {
        var i :| 0 <= i < |t[c].deps| && t[c].deps[i].id == p;
      }
    }
    var rank :| Ranked(t, rank);
    assert Ranked(u, if id in rank then rank else rank[id := 0]);
  }

  lemma {:induction false} StepGood(s: System, e: Event)
    requires Good(s) && Enabled(s, e)
    ensures Good(Next(s, e))
  {
    match e
    case NewBuild(id, row) => NewBuildGood(s, id, row);
    case Create(creator, rows) => CreateGood(s, creator, rows);
    case Decide(id, submit) =>
      var state := Decision(s.table, id, submit);
      SetStateGood(s, id, state, if state == Scheduled then s.live + {id} else s.live);
    case SetRunning(id) => SetStateGood(s, id, Running, s.live);
    case SetFinished(id, outcome) => SetStateGood(s, id, outcome, s.live);
    case Abort(id) =>
      if id in s.table && Active(s.table[id].state) {
        SetStateGood(s, id, Killed, s.live);
      }
    case Timeout(id) => SetStateGood(s, id, JobState.Error, s.live);
    case ControllerError(id) => SetStateGood(s, id, JobState.Error, s.live);
    case Reap(id) =>
    case Restart(id) => RestartGood(s, id);
  }

  /** The invariant holds in every reachable state, restarts included. */
  lemma {:induction false} ReachableGood(s: System, es: seq<Event>)
    requires Good(s) && IsRun(s, es)
    ensures Good(After(s, es))
    decreases es
  {
    if es != [] {
      StepGood(s, es[0]);
      ReachableGood(Next(s, es[0]), es[1..]);
    }
  }

  lemma {:induction false} EmptyGood()
    ensures Good(EMPTY)
  {
    assert Ranked(map[], map[]);
  }
}
