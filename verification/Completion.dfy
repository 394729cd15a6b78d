/** Builds do end: an undisturbed build can always be completed, and then it has ended as written. */
module Completion {
  import opened Base
  import opened Infrabox
  import opened JobTable
  import opened Lifecycle
  import opened Outcomes
  import opened Scheduler
  import opened CreateJobs
  import opened WorkflowMeaning
  import opened WorkflowHarmless
  import opened EndToEnd

  ghost predicate OutcomeReports(o: Reports) {
    forall id :: Outcome(o(id))
  }

  /** As long as a job of the build is active, some regular event brings one of its jobs forward. */
  lemma {:induction false} SomeJobAdvances(s: System, build: BuildId, o: Reports)
      returns (e: Event, id: JobId, state: JobState)
    requires Good(s) && OutcomeReports(o) && !Complete(BuildRows(s.table, build))
    ensures Enabled(s, e) && Regular(e, o)
    ensures id in s.table && Rank(state) < Rank(s.table[id].state)
    ensures Next(s, e).table == SetState(s.table, id, state)
  {
    var rows := BuildRows(s.table, build);
    if x :| x in rows && (rows[x].state == Scheduled || rows[x].state == Running) {
      e, id, state := SetFinished(x, o(x)), x, o(x);
    } else {
      id := ReadyJob(s, build);
      e, state := Decide(id, Submitted), Decision(s.table, id, Submitted);
    }
  }

  lemma {:induction false} ReadyJob(s: System, build: BuildId) returns (id: JobId)
    requires Good(s) && !Complete(BuildRows(s.table, build))
    requires forall x :: x in BuildRows(s.table, build) ==>
      s.table[x].state != Scheduled && s.table[x].state != Running
    ensures id in s.table && s.table[id].state == Queued && !ParentActive(s.table, id)
  {
    var rows := BuildRows(s.table, build);
    BuildAcyclic(s.table, build);
    var rank :| Ranked(rows, rank);
    var first :| first in rows && Active(rows[first].state);
    id := FindReady(rows, rank, first);
    forall p | Parent(s.table, id, p)
      ensures Parent(rows, id, p)
    {
      BuildParents(s.table, build, id, p);
    }
  }

  lemma {:induction false} Completes(s: System, build: BuildId, o: Reports, ids: seq<JobId>) returns (es: seq<Event>)
    requires Good(s) && OutcomeReports(o)
    requires NoDuplicates(ids) && forall id :: id in s.table ==> id in ids
    ensures UndisturbedRun(s, es, build, o) && IsRun(s, es)
    ensures Complete(BuildRows(After(s, es).table, build))
    decreases Work(s.table, ids)
  {
    if Complete(BuildRows(s.table, build)) {
      es := [];
    } else {
      var e, id, state := SomeJobAdvances(s, build, o);
      StepGood(s, e);
      WorkAfterSet(s.table, ids, id, state);
      var rest := Completes(Next(s, e), build, o, ids);
      es := [e] + rest;
      assert es[1..] == rest;
    }
  }

  lemma {:induction false} Listing(ids: set<JobId>) returns (list: seq<JobId>)
    ensures NoDuplicates(list) && forall id :: id in list <==> id in ids
  {
    list := [];
    var left := ids;
    while left != {}
      invariant left <= ids && NoDuplicates(list)
      invariant forall id :: id in list <==> id in ids && id !in left
    {
      var id :| id in left;
      NoDuplicatesSnoc(list, id);
      list, left := list + [id], left - {id};
    }
  }

  /** In every reachable state, whatever runners will report, a build can run on undisturbed until it is complete. */
  lemma {:induction false} BuildCompletes(s: System, build: BuildId, o: Reports) returns (es: seq<Event>)
    requires Good(s) && OutcomeReports(o)
    ensures UndisturbedRun(s, es, build, o) && IsRun(s, es)
    ensures Complete(BuildRows(After(s, es).table, build))
  {
    var ids := Listing(s.table.Keys);
    es := Completes(s, build, o, ids);
  }

  /******* Harmless trees *******/

  /** The states of a job list after a run are those of the tree. */
  ghost predicate EndedAsWritten(file: seq<Node>, jobs: seq<NewJob>, end: Table, creator: JobId, o: Reports) {
    var nested := NestFile(file, "", o(creator) == Finished, ByName(jobs, o)).all;
    forall i :: 0 <= i < |jobs| ==>
      && jobs[i].id in end && jobs[i].job.name in nested
      && end[jobs[i].id].state == nested[jobs[i].job.name]
  }

  lemma {:induction false} HarmlessBuildIsFaithful(file: seq<Node>, jobs: seq<NewJob>, creator: JobId, o: Reports)
    requires AcceptedTree(file) && HarmlessBuild(file) && OutcomeReports(o)
    ensures Faithful(file, "", o(creator) == Finished, ByName(jobs, o))
  {
    GatedIsFaithful(file, o(creator) == Finished, ByName(jobs, o));
  }

  /**
   Main result: a harmless tree is built as written.  After the insertion of its compiled list every
   undisturbed run that completes the build ends with the states of the tree, and there is one.
   */
  lemma {:induction false} HarmlessBuildEndsAsWritten(file: seq<Node>, jobs: seq<NewJob>, s: System, creator: JobId,
      cluster: string -> string, es: seq<Event>, o: Reports) returns (some: seq<Event>)
    requires CompiledBuild(file, jobs) && HarmlessBuild(file) && OutcomeReports(o)
    requires Good(s) && RunnerMayAct(s, creator)
    requires s.table[creator].deps == [] && !s.table[creator].kind.WaitJob?
    requires forall id :: id in s.table && s.table[id].build == s.table[creator].build ==> id == creator
    requires forall k :: 0 <= k < |jobs| ==> jobs[k].id !in s.table && Linkable(jobs[k].job, NameIds(jobs))
    requires UndisturbedRun(AfterInsertion(s, creator, jobs, cluster), es, s.table[creator].build, o)
    ensures var s1, build := AfterInsertion(s, creator, jobs, cluster), s.table[creator].build;
      && IsRun(s1, es) && IsRun(s1, some) && UndisturbedRun(s1, some, build, o)
      && Complete(BuildRows(After(s1, some).table, build))
      && EndedAsWritten(file, jobs, After(s1, some).table, creator, o)
      && (Complete(BuildRows(After(s1, es).table, build)) ==>
            EndedAsWritten(file, jobs, After(s1, es).table, creator, o))
  {
    var s1, build := AfterInsertion(s, creator, jobs, cluster), s.table[creator].build;
    var ev := InsertionOnTrack(file, jobs, s, creator, cluster, o);
    some := BuildCompletes(s1, build, o);
    CompleteEndsAsWritten(file, jobs, s, creator, cluster, some, o);
    UndisturbedIsRun(s1, es, build, o);
    if Complete(BuildRows(After(s1, es).table, build)) {
      CompleteEndsAsWritten(file, jobs, s, creator, cluster, es, o);
    }
  }

  lemma {:induction false} CompleteEndsAsWritten(file: seq<Node>, jobs: seq<NewJob>, s: System, creator: JobId,
      cluster: string -> string, es: seq<Event>, o: Reports)
    requires CompiledBuild(file, jobs) && HarmlessBuild(file) && OutcomeReports(o)
    requires Good(s) && RunnerMayAct(s, creator)
    requires s.table[creator].deps == [] && !s.table[creator].kind.WaitJob?
    requires forall id :: id in s.table && s.table[id].build == s.table[creator].build ==> id == creator
    requires forall k :: 0 <= k < |jobs| ==> jobs[k].id !in s.table && Linkable(jobs[k].job, NameIds(jobs))
    requires UndisturbedRun(AfterInsertion(s, creator, jobs, cluster), es, s.table[creator].build, o)
    requires IsRun(AfterInsertion(s, creator, jobs, cluster), es)
    requires Complete(BuildRows(After(AfterInsertion(s, creator, jobs, cluster), es).table, s.table[creator].build))
    ensures EndedAsWritten(file, jobs, After(AfterInsertion(s, creator, jobs, cluster), es).table, creator, o)
  {
    var s1, build := AfterInsertion(s, creator, jobs, cluster), s.table[creator].build;
    HarmlessBuildIsFaithful(file, jobs, creator, o);
    var ev := InsertionOnTrack(file, jobs, s, creator, cluster, o);
    RunOnTrack(s1, es, build, ev, o);
    forall i | 0 <= i < |jobs|
      ensures jobs[i].id in BuildRows(After(s1, es).table, build)
    {
      assert jobs[i].id in BuildRows(s1.table, build);
    }
    forall i | 0 <= i < |jobs|
    {
      BuildEndsAsWritten(file, jobs, s, creator, cluster, es, o, i);
    }
  }
}
