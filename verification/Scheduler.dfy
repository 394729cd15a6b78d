/** The scheduler process and the handlers of the job API, working on the database. */
module Scheduler {
  import opened Base
  import opened JobTable
  import opened Lifecycle

  /******* One pass of schedule(), as a function *******/

  /** A submission is refused if an IBJob of that name still exists. */
  function Answer(s: System, id: JobId, kube: JobId -> Submit): Submit {
    if kube(id).Submitted? && id in s.live then Refused else kube(id)
  }

  ghost function DecideOne(s: System, id: JobId, kube: JobId -> Submit): System {
    if id in s.table && s.table[id].state == Queued then Next(s, Decide(id, Answer(s, id, kube))) else s
  }

  /** The system after `schedule()` has visited the jobs of `order`. */
  ghost function Pass(s: System, order: seq<JobId>, kube: JobId -> Submit): System {
    if order == [] then s
    else DecideOne(Pass(s, order[..|order| - 1], kube), order[|order| - 1], kube)
  }

  /** The rows `SELECT ... WHERE state = 'queued' and cluster_name = ...` yields, in whatever order. */
  ghost predicate QueuedRows(t: Table, cluster: string, order: seq<JobId>) {
    && NoDuplicates(order)
    && forall id :: id in order <==> id in t && t[id].state == Queued && t[id].cluster == cluster
  }

  /******* The database and its clients *******/

  /** An IBJob as listed by the API server. */
  datatype IBJobItem = IBJobItem(name: JobId, deleting: bool, error: bool)

  class Database {
    var table: Table
    var live: set<JobId>
    var aborts: seq<JobId>

    constructor ()
      ensures Sys() == EMPTY && aborts == []
    {
      table, live, aborts := map[], {}, [];
    }

    ghost function Sys(): System
      reads this
    {
      System(table, live)
    }
  }

  class Scheduler {
    const db: Database
    const cluster: string

    constructor (db: Database, cluster: string)
      ensures this.db == db && this.cluster == cluster
    {
      this.db, this.cluster := db, cluster;
    }

    /** `SELECT id, state FROM job WHERE id IN (dependencies of id)` */
    method ParentRows(id: JobId) returns (result: seq<(JobId, JobState)>)
      requires id in db.table
      ensures forall k :: 0 <= k < |result| ==>
        Parent(db.table, id, result[k].0) && result[k].1 == db.table[result[k].0].state
      ensures forall p :: Parent(db.table, id, p) ==> exists k :: 0 <= k < |result| && result[k].0 == p
    {
      var deps := db.table[id].deps;
      result := [];
      for i := 0 to |deps|
        invariant forall k :: 0 <= k < |result| ==>
          Parent(db.table, id, result[k].0) && result[k].1 == db.table[result[k].0].state
        invariant forall m :: 0 <= m < i && deps[m].id in db.table ==>
          exists k :: 0 <= k < |result| && result[k].0 == deps[m].id
      {
        var p := deps[i].id;
        ghost var before := result;
        if p in db.table && (p, db.table[p].state) !in result {
          result := result + [(p, db.table[p].state)];
          assert result[|result| - 1].0 == p;
        }
        forall m | 0 <= m < i && deps[m].id in db.table
          ensures exists k :: 0 <= k < |result| && result[k].0 == deps[m].id
        {
          var k :| 0 <= k < |before| && before[k].0 == deps[m].id;
          assert result[k].0 == deps[m].id;
        }
      }
    }

    /** The `on` list the loop over the dependencies ends up with. */
    static method FindCondition(deps: seq<Dependency>, parent: JobId) returns (on: seq<OnValue>)
      ensures on == Condition(deps, parent)
      ensures (exists k :: 0 <= k < |deps| && deps[k] == Dependency(parent, on) &&
                           forall m :: k < m < |deps| ==> deps[m].id != parent)
        || (on == [] && forall m :: 0 <= m < |deps| ==> deps[m].id != parent)
    {
      on := [];
      for i := 0 to |deps|
        invariant on == Condition(deps[..i], parent)
        invariant (exists k :: 0 <= k < i && deps[k] == Dependency(parent, on) &&
                               forall m :: k < m < i ==> deps[m].id != parent)
          || (on == [] && forall m :: 0 <= m < i ==> deps[m].id != parent)
      {
        assert deps[..i + 1][..i] == deps[..i];
        if deps[i].id == parent {
          on := deps[i].on;
        }
      }
      assert deps[..|deps|] == deps;
    }

    method ScheduleJob(id: JobId, kube: JobId -> Submit)
      requires id in db.table && db.table[id].state == Queued
      requires !ParentActive(db.table, id) && !ConditionFails(db.table, id) && !db.table[id].kind.WaitJob?
      modifies db
      ensures db.aborts == old(db.aborts)
      ensures db.Sys() == DecideOne(old(db.Sys()), id, kube)
      ensures kube(id).NamespaceFailed? ==>
        db.live == old(db.live) && db.table == SetState(old(db.table), id, JobState.Error)
      ensures kube(id).Refused? || (kube(id).Submitted? && id in old(db.live)) ==>
        db.live == old(db.live) && db.table == old(db.table)
      ensures kube(id).Submitted? && id !in old(db.live) ==>
        db.live == old(db.live) + {id} && db.table == SetState(old(db.table), id, Scheduled)
    {
      match kube(id)
      case NamespaceFailed =>
        db.table := SetState(db.table, id, JobState.Error);
      case Refused =>
        assert db.table[id].(state := Queued) == db.table[id];
        assert SetState(db.table, id, Queued) == db.table;
      case Submitted =>
        if id in db.live {
          assert db.table[id].(state := Queued) == db.table[id];
          assert SetState(db.table, id, Queued) == db.table;
        } else {
          db.live := db.live + {id};
          db.table := SetState(db.table, id, Scheduled);
        }
    }

    method AnyActive(result: seq<(JobId, JobState)>) returns (running: bool)
      ensures running <==> exists k :: 0 <= k < |result| && Active(result[k].1)
    {
      running := false;
      for k := 0 to |result|
        invariant forall m :: 0 <= m < k ==> !Active(result[m].1)
      {
        if Active(result[k].1) {
          return true;
        }
      }
    }

    /** One iteration of the loop of schedule(). */
    method Visit(id: JobId, kube: JobId -> Submit)
      requires id in db.table && db.table[id].state == Queued && Resolved(db.table)
      modifies db
      ensures db.aborts == old(db.aborts)
      ensures db.Sys() == DecideOne(old(db.Sys()), id, kube)
      ensures ParentActive(old(db.table), id) ==> db.Sys() == old(db.Sys())
      ensures !ParentActive(old(db.table), id) && ConditionFails(old(db.table), id) ==>
        db.Sys() == System(SetState(old(db.table), id, Skipped), old(db.live))
      ensures (!ParentActive(old(db.table), id) && !ConditionFails(old(db.table), id) &&
                old(db.table)[id].kind.WaitJob?) ==>
        db.Sys() == System(SetState(old(db.table), id, Finished), old(db.live))
    {
      var result := ParentRows(id);
      var parentsRunning := AnyActive(result);
      if parentsRunning {
        assert ParentActive(db.table, id);
        assert SetState(db.table, id, Queued) == db.table;
        return;
      }
      assert !ParentActive(db.table, id);
      var deps := db.table[id].deps;
      for k := 0 to |result|
        invariant db.Sys() == old(db.Sys()) && db.aborts == old(db.aborts)
        invariant forall m :: 0 <= m < k ==> Is(result[m].1) in Condition(deps, result[m].0)
      {
        var on := FindCondition(deps, result[k].0);
        ConditionGiven(deps, result[k].0);
        assert on != [];
        if Is(result[k].1) !in on {
          assert ConditionFails(db.table, id);
          db.table := SetState(db.table, id, Skipped);
          return;
        }
      }
      assert !ConditionFails(db.table, id);
      if db.table[id].kind.WaitJob? {
        db.table := SetState(db.table, id, Finished);
      } else {
        ScheduleJob(id, kube);
      }
    }

    /** A pass over the queued jobs of this cluster; `kube` is the cluster's answer to each submission. */
    method Schedule(order: seq<JobId>, kube: JobId -> Submit)
      requires QueuedRows(db.table, cluster, order) && Resolved(db.table)
      modifies db
      ensures db.aborts == old(db.aborts)
      ensures db.Sys() == Pass(old(db.Sys()), order, kube)
    {
      ghost var s := db.Sys();
      for k := 0 to |order|
        invariant db.Sys() == Pass(s, order[..k], kube)
        invariant db.aborts == old(db.aborts)
      {
        PassFrame(s, order, k, kube);
        assert order[..k + 1][..k] == order[..k];
        Visit(order[k], kube);
      }
      assert order[..|order|] == order;
    }

    /** The query on the abort table: empties it, kills what is still queued, and lists what was active. */
    method TakeAborts() returns (toAbort: seq<JobId>)
      modifies db
      ensures db.aborts == [] && db.live == old(db.live)
      ensures db.table == KillQueued(old(db.table), old(db.aborts))
      ensures forall id :: id in toAbort <==>
        id in old(db.aborts) && id in old(db.table) && Active(old(db.table)[id].state)
    {
      ghost var t := db.table;
      var ids := db.aborts;
      db.aborts := [];
      toAbort := [];
      for i := 0 to |ids|
        invariant db.live == old(db.live) && db.aborts == []
        invariant db.table == KillQueued(t, ids[..i])
        invariant forall id :: id in toAbort ==> id in ids[..i] && id in t && Active(t[id].state)
        invariant forall id :: id in ids[..i] && id in t && Active(t[id].state) ==> id in toAbort
      {
        var id := ids[i];
        assert ids[..i + 1] == ids[..i] + [id];
        if id in db.table {
          if Active(db.table[id].state) {
            toAbort := toAbort + [id];
          }
          if db.table[id].state == Queued {
            db.table := SetState(db.table, id, Killed);
          }
        }
      }
      assert ids[..|ids|] == ids;
    }

    /** Kills the jobs listed in the abort table that are still active; the table is emptied. */
    method HandleAborts()
      modifies db
      ensures db.aborts == [] && db.live == old(db.live)
      ensures db.table == KillAll(old(db.table), old(db.aborts))
      ensures db.table.Keys == old(db.table).Keys
      ensures forall id :: id in db.table ==>
        db.table[id] ==
          if id in old(db.aborts) && old(db.table)[id].state in {Queued, Scheduled, Running}
          then old(db.table)[id].(state := Killed)
          else old(db.table)[id]
    {
      ghost var t, ids := db.table, db.aborts;
      var toAbort := TakeAborts();
      for i := 0 to |toAbort|
        invariant db.live == old(db.live) && db.aborts == []
        invariant db.table == KillAll(KillQueued(t, ids), toAbort[..i])
      {
        var id := toAbort[i];
        assert toAbort[..i + 1] == toAbort[..i] + [id];
        if Active(db.table[id].state) {
          db.table := SetState(db.table, id, Killed);
        }
      }
      assert toAbort[..|toAbort|] == toAbort;
      assert db.table == KillAll(t, ids);
    }

    /** `timedOut` are the running jobs that exceeded their timeout. */
    method HandleTimeouts(timedOut: seq<JobId>)
      requires forall i :: 0 <= i < |timedOut| ==> timedOut[i] in db.table && db.table[timedOut[i]].state == Running
      modifies db
      ensures db.aborts == old(db.aborts) && db.live == old(db.live)
      ensures db.table == FailAll(old(db.table), timedOut)
      ensures db.table.Keys == old(db.table).Keys
      ensures forall id :: id in db.table ==>
        db.table[id] ==
          if id in timedOut then old(db.table)[id].(state := JobState.Error) else old(db.table)[id]
    {
      ghost var t := db.table;
      for i := 0 to |timedOut|
        invariant db.aborts == old(db.aborts) && db.live == old(db.live)
        invariant db.table == FailAll(t, timedOut[..i])
      {
        assert timedOut[..i + 1] == timedOut[..i] + [timedOut[i]];
        db.table := SetState(db.table, timedOut[i], JobState.Error);
      }
      assert timedOut[..|timedOut|] == timedOut;
    }

    /**
     Jobs whose IBJob reports an error fail; IBJobs of jobs that need them no longer are to be
     deleted, as are IBJobs without a row.
     */
    method HandleOrphanedJobs(items: seq<IBJobItem>) returns (toDelete: set<JobId>)
      modifies db
      ensures db.aborts == old(db.aborts) && db.live == old(db.live)
      ensures db.table == FailReported(old(db.table), items)
      ensures toDelete == set i | 0 <= i < |items| && Obsolete(old(db.table), items, i) :: items[i].name
      ensures db.table.Keys == old(db.table).Keys
      ensures forall id :: id in db.table ==>
        db.table[id] ==
          if old(db.table)[id].state in {Queued, Scheduled, Running} && IBJobItem(id, false, true) in items
          then old(db.table)[id].(state := JobState.Error)
          else old(db.table)[id]
      ensures forall id :: id in toDelete <==>
        || IBJobItem(id, false, true) in items
        || (IBJobItem(id, false, false) in items &&
            (id !in old(db.table) || old(db.table)[id].state !in {Queued, Scheduled, Running}))
    {
      ghost var t := db.table;
      toDelete := {};
      for i := 0 to |items|
        invariant db.aborts == old(db.aborts) && db.live == old(db.live)
        invariant db.table == FailReported(t, items[..i])
        invariant toDelete == set m | 0 <= m < i && Obsolete(t, items, m) :: items[m].name
      {
        ReportedSnoc(items, i);
        var item := items[i];
        if item.deleting {
          continue;
        }
        if item.name !in db.table {
          toDelete := toDelete + {item.name};
          continue;
        }
        if Active(db.table[item.name].state) {
          if !item.error {
            continue;
          }
          db.table := SetState(db.table, item.name, JobState.Error);
        }
        toDelete := toDelete + {item.name};
      }
      assert items[..|items|] == items;
      forall id
        ensures Reported(items, id) <==> IBJobItem(id, false, true) in items
        ensures id in toDelete <==>
          || IBJobItem(id, false, true) in items
          || (IBJobItem(id, false, false) in items && (id !in t || t[id].state !in {Queued, Scheduled, Running}))
      {
        ReportedListed(items, id);
        ObsoleteListed(t, items, id);
      }
    }
  }

  /** The handlers a runner calls with the token of its job. */
  class JobApi {
    const db: Database

    constructor (db: Database)
      ensures this.db == db
    {
      this.db := db;
    }

    /** The check made before every handler: the job exists and is active. */
    method JobTokenRequired(id: JobId) returns (r: Result<()>)
      ensures r.Ok? <==> id in db.table && Active(db.table[id].state)
      ensures r.Ok? <==> id in db.table && db.table[id].state in {Queued, Scheduled, Running}
    {
      if id !in db.table {
        return Err("job not found");
      }
      if !Active(db.table[id].state) {
        return Err("job not in an active state");
      }
      r := Ok(());
    }

    method SetRunning(id: JobId) returns (r: Result<()>)
      modifies db
      ensures db.aborts == old(db.aborts)
      ensures r.Ok? <==> id in old(db.table) && Active(old(db.table)[id].state)
      ensures r.Ok? ==> db.Sys() == System(SetState(old(db.table), id, Running), old(db.live))
      ensures r.Ok? && id in old(db.live) ==> db.Sys() == Next(old(db.Sys()), Event.SetRunning(id))
      ensures r.Err? ==> db.Sys() == old(db.Sys())
    {
      r := JobTokenRequired(id);
      if r.Ok? {
        db.table := SetState(db.table, id, Running);
      }
    }

    /** The handler takes any state; runners report outcomes only. */
    method SetFinished(id: JobId, state: JobState) returns (r: Result<()>)
      modifies db
      ensures db.aborts == old(db.aborts)
      ensures r.Ok? <==> id in old(db.table) && Active(old(db.table)[id].state)
      ensures r.Ok? ==> db.Sys() == System(SetState(old(db.table), id, state), old(db.live))
      ensures r.Ok? && id in old(db.live) && Outcome(state) ==>
        db.Sys() == Next(old(db.Sys()), Event.SetFinished(id, state))
      ensures r.Err? ==> db.Sys() == old(db.Sys())
    {
      r := JobTokenRequired(id);
      if r.Ok? {
        db.table := SetState(db.table, id, state);
      }
    }
  }

  /******* What the clean-up handlers compute *******/

  function KillQueued(t: Table, ids: seq<JobId>): Table {
    map id | id in t :: if id in ids && t[id].state == Queued then t[id].(state := Killed) else t[id]
  }

  function KillAll(t: Table, ids: seq<JobId>): Table {
    map id | id in t :: if id in ids && Active(t[id].state) then t[id].(state := Killed) else t[id]
  }

  function FailAll(t: Table, ids: seq<JobId>): Table {
    map id | id in t :: if id in ids then t[id].(state := JobState.Error) else t[id]
  }

  predicate Reported(items: seq<IBJobItem>, id: JobId) {
    exists i :: 0 <= i < |items| && items[i].name == id && items[i].error && !items[i].deleting
  }

  lemma {:induction false} ReportedSnoc(items: seq<IBJobItem>, i: nat)
    requires i < |items|
    ensures forall id :: Reported(items[..i + 1], id) <==>
      Reported(items[..i], id) || (items[i].name == id && items[i].error && !items[i].deleting)
  {
    forall id
      ensures Reported(items[..i + 1], id) <==>
        Reported(items[..i], id) || (items[i].name == id && items[i].error && !items[i].deleting)
    {
      if Reported(items[..i], id) {
        var m :| 0 <= m < i && items[..i][m].name == id && items[..i][m].error && !items[..i][m].deleting;
        assert items[..i + 1][m] == items[m];
      }
      if items[i].name == id && items[i].error && !items[i].deleting {
        assert items[..i + 1][i] == items[i];
      }
    }
  }

  /** The IBJob listed at position `i` has no use: no active job needs it, or it has just been reported. */
  predicate Obsolete(t: Table, items: seq<IBJobItem>, i: nat)
    requires i < |items|
  {
    var name := items[i].name;
    !items[i].deleting && (name !in t || Terminal(t[name].state) || Reported(items[..i + 1], name))
  }

  lemma {:induction false} ReportedListed(items: seq<IBJobItem>, id: JobId)
    ensures Reported(items, id) <==> IBJobItem(id, false, true) in items
  {
  }

  /** An IBJob that reports an error goes away in any case, another one if no active job needs it. */
  lemma {:induction false} ObsoleteListed(t: Table, items: seq<IBJobItem>, id: JobId)
    ensures (exists i :: 0 <= i < |items| && items[i].name == id && Obsolete(t, items, i)) <==>
      || IBJobItem(id, false, true) in items
      || (IBJobItem(id, false, false) in items && (id !in t || t[id].state !in {Queued, Scheduled, Running}))
  {
    if i :| 0 <= i < |items| && items[i] == IBJobItem(id, false, true) {
      assert items[..i + 1][i] == items[i];
      assert Obsolete(t, items, i);
    }
    if i :| 0 <= i < |items| && items[i].name == id && Obsolete(t, items, i) {
      assert items[i] == IBJobItem(id, false, items[i].error);
      if Reported(items[..i + 1], id) {
        var m :| 0 <= m < i + 1 && items[..i + 1][m] == IBJobItem(id, false, true);
        assert items[m] == IBJobItem(id, false, true);
      }
    }
    if i :| 0 <= i < |items| && items[i] == IBJobItem(id, false, false) {
      assert Obsolete(t, items, i) <== id !in t || Terminal(t[id].state);
    }
  }

  function FailReported(t: Table, items: seq<IBJobItem>): Table {
    map id | id in t :: if Reported(items, id) && Active(t[id].state) then t[id].(state := JobState.Error) else t[id]
  }

  /** A listed parent has a non-empty condition. */
  lemma {:induction false} ConditionGiven(deps: seq<Dependency>, p: JobId)
    requires DependsOnId(deps, p)
    requires forall i :: 0 <= i < |deps| ==> deps[i].on != []
    ensures Condition(deps, p) != []
  {
    var k := |deps| - 1;
    if deps[k].id != p {
      var i :| 0 <= i < |deps| && deps[i].id == p;
      assert deps[..k][i].id == p;
      ConditionGiven(deps[..k], p);
    }
  }

  /******* Facts about a pass *******/

  lemma {:induction false} DecideOneFrame(s: System, id: JobId, kube: JobId -> Submit)
    ensures var u := DecideOne(s, id, kube);
      && SameShape(s.table, u.table)
      && (forall x :: x in s.table && (x != id || s.table[x].state != Queued) ==> u.table[x] == s.table[x])
  {
  }

  /** Jobs not visited yet are as before; the shape of the table never changes. */
  lemma {:induction false} PassFrame(s: System, order: seq<JobId>, k: nat, kube: JobId -> Submit)
    requires k <= |order|
    ensures var u := Pass(s, order[..k], kube);
      && SameShape(s.table, u.table)
      && (forall x :: x in s.table && (x !in order[..k] || s.table[x].state != Queued) ==> u.table[x] == s.table[x])
      && (NoDuplicates(order) && k < |order| && order[k] in s.table ==> u.table[order[k]] == s.table[order[k]])
  {
    if k > 0 {
      PassFrame(s, order, k - 1, kube);
      assert order[..k][..k - 1] == order[..k - 1];
      DecideOneFrame(Pass(s, order[..k - 1], kube), order[k - 1], kube);
    }
  }

  /** Once visited, a job keeps its state for the rest of the pass. */
  lemma {:induction false} PassSettles(s: System, order: seq<JobId>, k: nat, m: nat, kube: JobId -> Submit, x: JobId)
    requires k <= m <= |order| && x in s.table
    requires forall i :: k <= i < m ==> order[i] != x
    ensures x in Pass(s, order[..k], kube).table && x in Pass(s, order[..m], kube).table
    ensures Pass(s, order[..m], kube).table[x] == Pass(s, order[..k], kube).table[x]
    decreases m - k
  {
    if k < m {
      PassSettles(s, order, k, m - 1, kube, x);
      assert order[..m][..m - 1] == order[..m - 1];
      DecideOneFrame(Pass(s, order[..m - 1], kube), order[m - 1], kube);
    } else {
      PassFrame(s, order, k, kube);
    }
  }

  /** A job that could start, but whose submission the cluster does not take. */
  ghost predicate RefusedNow(s: System, id: JobId, kube: JobId -> Submit) {
    && id in s.table
    && !ParentActive(s.table, id) && !ConditionFails(s.table, id) && !s.table[id].kind.WaitJob?
    && Answer(s, id, kube).Refused?
  }

  /** Job `order[k]` was refused when the pass came to it. */
  ghost predicate RefusedAt(s: System, order: seq<JobId>, k: nat, kube: JobId -> Submit)
    requires k < |order|
  {
    RefusedNow(Pass(s, order[..k], kube), order[k], kube)
  }

  /** Deciding on other jobs leaves the IBJob of a job alone. */
  lemma {:induction false} PassLive(s: System, order: seq<JobId>, k: nat, m: nat, kube: JobId -> Submit, x: JobId)
    requires k <= m <= |order| && forall i :: k <= i < m ==> order[i] != x
    ensures x in Pass(s, order[..m], kube).live <==> x in Pass(s, order[..k], kube).live
    decreases m - k
  {
    if k < m {
      PassLive(s, order, k, m - 1, kube, x);
      assert order[..m][..m - 1] == order[..m - 1];
    }
  }

  lemma {:induction false} RefusedChangesNothing(s: System, id: JobId, kube: JobId -> Submit)
    requires RefusedNow(s, id, kube) && s.table[id].state == Queued
    ensures DecideOne(s, id, kube) == s
  {
    assert SetState(s.table, id, Queued) == s.table;
  }

  /** A refused job stays queued, and gets no IBJob, for the rest of the pass. */
  lemma {:induction false} RefusedStaysQueued(s: System, order: seq<JobId>, k: nat, kube: JobId -> Submit)
    requires NoDuplicates(order) && k < |order| && RefusedAt(s, order, k, kube)
    requires order[k] in s.table && s.table[order[k]].state == Queued
    ensures order[k] in Pass(s, order, kube).table
    ensures Pass(s, order, kube).table[order[k]] == s.table[order[k]]
    ensures order[k] in Pass(s, order, kube).live <==> order[k] in s.live
  {
    var id, mid := order[k], Pass(s, order[..k], kube);
    PassFrame(s, order, k, kube);
    RefusedChangesNothing(mid, id, kube);
    assert Pass(s, order[..k + 1], kube) == mid by {
      assert order[..k + 1][..k] == order[..k];
    }
    assert order[..|order|] == order && order[..0] == [];
    hide DecideOne, RefusedNow, RefusedAt;
    PassSettles(s, order, k + 1, |order|, kube, id);
    PassLive(s, order, 0, k, kube, id);
    PassLive(s, order, k + 1, |order|, kube, id);
  }

  /** Only a submission that the cluster takes makes a job scheduled or gives it an IBJob. */
  lemma {:induction false} OnlySubmissionStarts(s: System, e: Event, id: JobId)
    requires Enabled(s, e)
    ensures id in Next(s, e).live && id !in s.live ==> e == Decide(id, Submitted)
    ensures id in Next(s, e).table && Next(s, e).table[id].state == Scheduled ==>
      (id in s.table && s.table[id].state == Scheduled) || e == Decide(id, Submitted)
    ensures e == Decide(id, Submitted) && Next(s, e).table[id].state == Scheduled ==> Next(s, e).live == s.live + {id}
  {
  }

  /** A job stays queued only if a parent is active when the pass comes to it, or if it is refused. */
  lemma {:induction false} VisitOutcome(s: System, order: seq<JobId>, k: nat, kube: JobId -> Submit)
    requires NoDuplicates(order) && k < |order|
    requires order[k] in s.table && s.table[order[k]].state == Queued
    ensures var mid := Pass(s, order[..k], kube);
      && SameShape(s.table, mid.table)
      && order[k] in Pass(s, order, kube).table
      && (Pass(s, order, kube).table[order[k]].state == Queued ==>
            ParentActive(mid.table, order[k]) || RefusedAt(s, order, k, kube))
  {
    var mid := Pass(s, order[..k], kube);
    PassFrame(s, order, k, kube);
    assert order[..k + 1][..k] == order[..k];
    assert order[..|order|] == order;
    PassSettles(s, order, k + 1, |order|, kube, order[k]);
  }

  /******* Progress *******/

  /** Following queued parents upwards one finds a queued job without active parents. */
  lemma {:induction false} FindReady(t: Table, rank: map<JobId, nat>, id: JobId) returns (m: JobId)
    requires Ranked(t, rank) && id in t && t[id].state == Queued
    requires forall x :: x in t ==> t[x].state != Scheduled && t[x].state != Running
    ensures m in t && t[m].state == Queued && !ParentActive(t, m)
    decreases rank[id]
  {
    if ParentActive(t, id) {
      var p :| Parent(t, id, p) && Active(t[p].state);
      m := FindReady(t, rank, p);
    } else {
      m := id;
    }
  }

  /**
   No deadlock: if some job is queued, all queued jobs belong to one cluster, and none is scheduled
   or running, then one pass changes the state of a job, unless the cluster refused a submission.
   */
  lemma {:induction false} PassMakesProgress(s: System, cluster: string, order: seq<JobId>, kube: JobId -> Submit)
    requires Acyclic(s.table) && QueuedRows(s.table, cluster, order) && order != []
    requires forall id :: id in s.table && s.table[id].state == Queued ==> s.table[id].cluster == cluster
    requires forall id :: id in s.table ==> s.table[id].state != Scheduled && s.table[id].state != Running
    ensures || Pass(s, order, kube).table != s.table
            || exists k :: 0 <= k < |order| && RefusedAt(s, order, k, kube)
  {
    var rank :| Ranked(s.table, rank);
    assert order[0] in order;
    var m := FindReady(s.table, rank, order[0]);
    var k :| 0 <= k < |order| && order[k] == m;
    VisitOutcome(s, order, k, kube);
    if Pass(s, order, kube).table[m].state == Queued && !RefusedAt(s, order, k, kube) {
      var mid := Pass(s, order[..k], kube);
      var p :| Parent(mid.table, m, p) && Active(mid.table[p].state);
      ShapeParents(s.table, mid.table, m, p);
      PassFrame(s, order, k, kube);
      assert false;
    }
  }

  /** No job comes before one of its parents. */
  ghost predicate ParentsFirst(t: Table, order: seq<JobId>) {
    forall i, j :: 0 <= i < j < |order| ==> !Parent(t, order[i], order[j])
  }

  /**
   If parents are visited first, one pass decides everything there is to decide: a job still
   queued afterwards has an active parent, or was refused.
   */
  lemma {:induction false} OnePassSuffices(s: System, cluster: string, order: seq<JobId>, kube: JobId -> Submit, k: nat)
    requires QueuedRows(s.table, cluster, order) && ParentsFirst(s.table, order) && k < |order|
    ensures SameShape(s.table, Pass(s, order, kube).table)
    ensures order[k] in order && order[k] in s.table
    ensures Pass(s, order, kube).table[order[k]].state == Queued ==>
      ParentActive(Pass(s, order, kube).table, order[k]) || RefusedAt(s, order, k, kube)
  {
    var id := order[k];
    assert id in order;
    var mid, end := Pass(s, order[..k], kube), Pass(s, order, kube);
    assert order[..|order|] == order;
    PassFrame(s, order, |order|, kube);
    VisitOutcome(s, order, k, kube);
    if end.table[id].state == Queued && !RefusedAt(s, order, k, kube) {
      var p :| Parent(mid.table, id, p) && Active(mid.table[p].state);
      ShapeParents(s.table, mid.table, id, p);
      ShapeParents(s.table, end.table, id, p);
      if p != id {
        SettledParent(s, order, k, kube, p);
      }
    }
  }

  /** A parent that is active when the child is visited stays so until the end of the pass. */
  lemma {:induction false} SettledParent(s: System, order: seq<JobId>, k: nat, kube: JobId -> Submit, p: JobId)
    requires ParentsFirst(s.table, order) && k < |order| && Parent(s.table, order[k], p) && p != order[k]
    requires order[k] in s.table && s.table[order[k]].state == Queued && NoDuplicates(order)
    requires p in Pass(s, order[..k], kube).table && Active(Pass(s, order[..k], kube).table[p].state)
    ensures p in Pass(s, order, kube).table && Active(Pass(s, order, kube).table[p].state)
  {
    assert order[..|order|] == order;
    assert p !in order[k..];
    PassSettles(s, order, k, |order|, kube, p);
  }

  /** A pass is a run of the transition system. */
  lemma {:induction false} PassIsRun(s: System, order: seq<JobId>, kube: JobId -> Submit) returns (es: seq<Event>)
    ensures IsRun(s, es) && After(s, es) == Pass(s, order, kube)
    ensures forall i :: 0 <= i < |es| ==> es[i].Decide? && es[i].id in order
    ensures forall i :: 0 <= i < |es| && es[i].submit.NamespaceFailed? ==> kube(es[i].id).NamespaceFailed?
  {
    if order == [] {
      es := [];
    } else {
      var k := |order| - 1;
      es := PassIsRun(s, order[..k], kube);
      var mid, id := Pass(s, order[..k], kube), order[k];
      if id in mid.table && mid.table[id].state == Queued {
        var e := Decide(id, Answer(mid, id, kube));
        OneStep(mid, e);
        RunConcat(s, es, [e]);
        es := es + [e];
      }
    }
  }

  /******* The clean-up handlers are runs, too *******/

  lemma {:induction false} AbortsAreRun(s: System, ids: seq<JobId>) returns (es: seq<Event>)
    ensures IsRun(s, es) && After(s, es) == s.(table := KillAll(s.table, ids))
    ensures forall i :: 0 <= i < |es| ==> es[i].Abort? && es[i].id in ids
  {
    if ids == [] {
      es := [];
      assert KillAll(s.table, ids) == s.table;
    } else {
      var k := |ids| - 1;
      es := AbortsAreRun(s, ids[..k]);
      var mid := s.(table := KillAll(s.table, ids[..k]));
      var e := Abort(ids[k]);
      assert ids == ids[..k] + [ids[k]];
      assert Next(mid, e).table == KillAll(s.table, ids);
      OneStep(mid, e);
      RunConcat(s, es, [e]);
      es := es + [e];
    }
  }

  lemma {:induction false} TimeoutsAreRun(s: System, ids: seq<JobId>) returns (es: seq<Event>)
    requires NoDuplicates(ids)
    requires forall i :: 0 <= i < |ids| ==> ids[i] in s.table && s.table[ids[i]].state == Running
    ensures IsRun(s, es) && After(s, es) == s.(table := FailAll(s.table, ids))
    ensures forall i :: 0 <= i < |es| ==> es[i].Timeout? && es[i].id in ids
  {
    if ids == [] {
      es := [];
      assert FailAll(s.table, ids) == s.table;
    } else {
      var k := |ids| - 1;
      es := TimeoutsAreRun(s, ids[..k]);
      var mid := s.(table := FailAll(s.table, ids[..k]));
      var e := Timeout(ids[k]);
      assert ids == ids[..k] + [ids[k]];
      assert ids[k] !in ids[..k];
      assert Next(mid, e).table == FailAll(s.table, ids);
      OneStep(mid, e);
      RunConcat(s, es, [e]);
      es := es + [e];
    }
  }

  lemma {:induction false} ReportsAreRun(s: System, items: seq<IBJobItem>) returns (es: seq<Event>)
    requires forall i :: 0 <= i < |items| && items[i].name in s.table ==> items[i].name in s.live
    ensures IsRun(s, es) && After(s, es) == s.(table := FailReported(s.table, items))
    ensures forall i :: 0 <= i < |es| ==> es[i].ControllerError?
  {
    if items == [] {
      es := [];
      assert FailReported(s.table, items) == s.table;
    } else {
      var k := |items| - 1;
      es := ReportsAreRun(s, items[..k]);
      ReportedSnoc(items, k);
      assert items[..k + 1] == items;
      var mid := s.(table := FailReported(s.table, items[..k]));
      var id := items[k].name;
      if items[k].error && !items[k].deleting && id in s.table && Active(mid.table[id].state) {
        var e := ControllerError(id);
        assert Next(mid, e).table == FailReported(s.table, items);
        OneStep(mid, e);
        RunConcat(s, es, [e]);
        es := es + [e];
      } else {
        assert FailReported(s.table, items) == mid.table;
      }
    }
  }
}
