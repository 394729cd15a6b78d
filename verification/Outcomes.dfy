/** Properties of whole runs: final states, bounded work, quiescence. */
module Outcomes {
  import opened Base
  import opened JobTable
  import opened Descent
  import opened Lifecycle

  /** The rows of one build. */
  function BuildRows(t: Table, build: BuildId): Table {
    map id | id in t && t[id].build == build :: t[id]
  }

  lemma {:induction false} BuildParents(t: Table, build: BuildId, c: JobId, p: JobId)
    requires WithinBuilds(t)
    ensures Parent(BuildRows(t, build), c, p) <==> Parent(t, c, p) && t[c].build == build
  {
  }

  /******* Undisturbed builds end in the states they should *******/

  ghost predicate Touches(t: Table, e: Event, build: BuildId) {
    match e
    case NewBuild(_, row) => row.build == build
    case Create(creator, _) => creator in t && t[creator].build == build
    case Decide(id, _) => id in t && t[id].build == build
    case SetRunning(id) => id in t && t[id].build == build
    case SetFinished(id, _) => id in t && t[id].build == build
    case Abort(id) => id in t && t[id].build == build
    case Timeout(id) => id in t && t[id].build == build
    case ControllerError(id) => id in t && t[id].build == build
    case Reap(_) => false
    case Restart(id) => id in t && t[id].build == build
  }

  /** No abort, timeout, controller error, restart or new job; runners report what `o` says. */
  ghost predicate Regular(e: Event, o: Reports) {
    match e
    case Decide(id, submit) => submit.NamespaceFailed? ==> o(id) == JobState.Error
    case SetRunning(_) => true
    case SetFinished(id, outcome) => outcome == o(id)
    case _ => false
  }

  /** A run in which only regular events touch the build; other builds may see anything. */
  ghost predicate UndisturbedRun(s: System, es: seq<Event>, build: BuildId, o: Reports)
    decreases es
  {
    es == [] ||
    (&& Enabled(s, es[0])
     && (Touches(s.table, es[0], build) ==> Regular(es[0], o))
     && UndisturbedRun(Next(s, es[0]), es[1..], build, o))
  }

  lemma {:induction false} UndisturbedIsRun(s: System, es: seq<Event>, build: BuildId, o: Reports)
    requires UndisturbedRun(s, es, build, o)
    ensures IsRun(s, es)
    decreases es
  {
    if es != [] {
      UndisturbedIsRun(Next(s, es[0]), es[1..], build, o);
    }
  }

  /** Terminal jobs have the state they should have; jobs sent to the cluster were due to run. */
  ghost predicate OnTrack(t: Table, ev: Meaning, o: Reports) {
    && IsMeaning(t, ev, o)
    && forall id :: id in t ==>
         && (Terminal(t[id].state) ==> t[id].state == ev[id])
         && (t[id].state == Scheduled || t[id].state == Running ==> ev[id] == o(id))
  }

  lemma {:induction false} DecisionOnTrack(t: Table, build: BuildId, ev: Meaning, o: Reports, id: JobId, submit: Submit)
    requires WithinBuilds(t) && OnTrack(BuildRows(t, build), ev, o)
    requires id in t && t[id].build == build && t[id].state == Queued && Regular(Decide(id, submit), o)
    ensures var state := Decision(t, id, submit);
      && (Terminal(state) ==> state == ev[id])
      && (state == Scheduled ==> ev[id] == o(id))
      && state != Running
  {
    var rows := BuildRows(t, build);
    if !ParentActive(t, id) {
      forall p | Parent(t, id, p)
        ensures t[p].state == ev[p] && Parent(rows, id, p)
      {
        BuildParents(t, build, id, p);
      }
      assert forall p :: Parent(rows, id, p) ==> Parent(t, id, p);
      assert ConditionFails(t, id) <==> !GateOpen(rows, id, ev);
    }
  }

  lemma {:induction false} OnTrackSet(t: Table, build: BuildId, ev: Meaning, o: Reports, id: JobId, state: JobState)
    requires OnTrack(BuildRows(t, build), ev, o) && id in t && t[id].build == build
    requires Terminal(state) ==> state == ev[id]
    requires state == Scheduled || state == Running ==> ev[id] == o(id)
    ensures OnTrack(BuildRows(SetState(t, id, state), build), ev, o)
    ensures SameShape(BuildRows(t, build), BuildRows(SetState(t, id, state), build))
  {
    hide IsMeaning;
    ShapeMeaning(BuildRows(t, build), BuildRows(SetState(t, id, state), build), ev, o);
  }

  lemma {:induction false} UntouchedBuild(s: System, e: Event, build: BuildId)
    requires Good(s) && Enabled(s, e) && !Touches(s.table, e, build)
    ensures BuildRows(Next(s, e).table, build) == BuildRows(s.table, build)
  {
    if e.Restart? {
      DescendantsWithinBuild(s.table, e.id);
    }
  }

  lemma {:induction false} StepOnTrack(s: System, e: Event, build: BuildId, ev: Meaning, o: Reports)
    requires Good(s) && OnTrack(BuildRows(s.table, build), ev, o) && Enabled(s, e)
    requires Touches(s.table, e, build) ==> Regular(e, o)
    ensures OnTrack(BuildRows(Next(s, e).table, build), ev, o)
    ensures SameShape(BuildRows(s.table, build), BuildRows(Next(s, e).table, build))
  {
    if !Touches(s.table, e, build) {
      UntouchedBuild(s, e, build);
    } else {
      var id := e.id;
      if e.Decide? {
        DecisionOnTrack(s.table, build, ev, o, id, e.submit);
      }
      var state := Next(s, e).table[id].state;
      assert Next(s, e).table == SetState(s.table, id, state);
      OnTrackSet(s.table, build, ev, o, id, state);
    }
  }

  /**
   Main result: while a build is undisturbed, each of its terminal jobs has the state that its
   conditions and its report call for, whatever the interleaving and whatever other builds do.
   */
  lemma {:induction false} RunOnTrack(s: System, es: seq<Event>, build: BuildId, ev: Meaning, o: Reports)
    requires Good(s) && OnTrack(BuildRows(s.table, build), ev, o) && UndisturbedRun(s, es, build, o)
    ensures IsRun(s, es)
    ensures OnTrack(BuildRows(After(s, es).table, build), ev, o)
    ensures SameShape(BuildRows(s.table, build), BuildRows(After(s, es).table, build))
    decreases es
  {
    UndisturbedIsRun(s, es, build, o);
    if es != [] {
      StepGood(s, es[0]);
      StepOnTrack(s, es[0], build, ev, o);
      RunOnTrack(Next(s, es[0]), es[1..], build, ev, o);
    }
  }

  ghost predicate Complete(t: Table) {
    forall id :: id in t ==> Terminal(t[id].state)
  }

  /** Two complete undisturbed runs of a queued build with the same reports end in the same states. */
  lemma {:induction false} CompleteRunsAgree(s: System, es1: seq<Event>, es2: seq<Event>, build: BuildId, o: Reports)
    requires Good(s) && forall id :: id in s.table && s.table[id].build == build ==> s.table[id].state == Queued
    requires UndisturbedRun(s, es1, build, o) && UndisturbedRun(s, es2, build, o)
    ensures IsRun(s, es1) && IsRun(s, es2)
    ensures var t1, t2 := BuildRows(After(s, es1).table, build), BuildRows(After(s, es2).table, build);
      Complete(t1) && Complete(t2) ==> t1 == t2
  {
    var rows := BuildRows(s.table, build);
    BuildAcyclic(s.table, build);
    var ev := MeaningExists(rows, o);
    RunOnTrack(s, es1, build, ev, o);
    RunOnTrack(s, es2, build, ev, o);
    var t1, t2 := BuildRows(After(s, es1).table, build), BuildRows(After(s, es2).table, build);
    if Complete(t1) && Complete(t2) {
      FinalTable(rows, t1, t2, ev);
    }
  }

  lemma {:induction false} BuildAcyclic(t: Table, build: BuildId)
    requires Acyclic(t) && WithinBuilds(t)
    ensures Acyclic(BuildRows(t, build))
  {
    var rank :| Ranked(t, rank);
    assert Ranked(BuildRows(t, build), rank) by {
      forall c, p | Parent(BuildRows(t, build), c, p)
        ensures rank[p] < rank[c]
      {
        BuildParents(t, build, c, p);
      }
    }
  }

  lemma {:induction false} FinalTable(t: Table, u1: Table, u2: Table, ev: Meaning)
    requires SameShape(t, u1) && SameShape(t, u2) && ev.Keys == t.Keys
    requires forall id :: id in t ==> u1[id].state == ev[id] && u2[id].state == ev[id]
    ensures u1 == u2
  {
  }

  /******* Bounded work *******/

  /** How many more effective steps a job may take. */
  function Rank(s: JobState): nat {
    match s
    case Queued => 3
    case Scheduled => 2
    case Running => 1
    case _ => 0
  }

  /** The work left for the jobs listed in `ids`. */
  function Work(t: Table, ids: seq<JobId>): nat {
    if ids == [] then 0
    else
      var id := ids[|ids| - 1];
      Work(t, ids[..|ids| - 1]) + if id in t then Rank(t[id].state) else 0
  }

  /** An event that neither adds jobs nor puts jobs back into the queue. */
  predicate Forward(e: Event) {
    !e.NewBuild? && !e.Create? && !e.Restart?
  }

  /** A forward event changes nothing, or lowers the rank of exactly one job. */
  lemma {:induction false} ForwardLowersOne(s: System, e: Event) returns (id: JobId)
    requires Enabled(s, e) && Forward(e)
    ensures Next(s, e).table != s.table ==>
      && id in s.table
      && Next(s, e).table == SetState(s.table, id, Next(s, e).table[id].state)
      && (Rank(Next(s, e).table[id].state) < Rank(s.table[id].state) ||
          (Next(s, e).table[id].state == Running == s.table[id].state))
  {
    match e
    case Decide(i, _) => id := i;
    case SetRunning(i) => id := i;
    case SetFinished(i, _) => id := i;
    case Abort(i) => id := i;
    case Timeout(i) => id := i;
    case ControllerError(i) => id := i;
    case Reap(i) => id := i;
  }

  lemma {:induction false} WorkAfterSet(t: Table, ids: seq<JobId>, id: JobId, state: JobState)
    requires NoDuplicates(ids) && id in t
    ensures Work(SetState(t, id, state), ids) + (if id in ids then Rank(t[id].state) else 0)
         == Work(t, ids) + (if id in ids then Rank(state) else 0)
  {
    if ids != [] {
      var k := |ids| - 1;
      WorkAfterSet(t, ids[..k], id, state);
      assert ids == ids[..k] + [ids[k]];
    }
  }

  /** How many events of a run change the table. */
  ghost function Changes(s: System, es: seq<Event>): nat
    requires IsRun(s, es)
    decreases es
  {
    if es == [] then 0
    else (if Next(s, es[0]).table != s.table then 1 else 0) + Changes(Next(s, es[0]), es[1..])
  }

  lemma {:induction false} ChangesAreWork(s: System, es: seq<Event>, ids: seq<JobId>)
    requires IsRun(s, es) && forall i :: 0 <= i < |es| ==> Forward(es[i])
    requires NoDuplicates(ids) && forall id :: id in s.table ==> id in ids
    ensures Changes(s, es) + Work(After(s, es).table, ids) <= Work(s.table, ids)
    decreases es
  {
    if es != [] {
      var t, u := s.table, Next(s, es[0]).table;
      var id := ForwardLowersOne(s, es[0]);
      if u != t {
        WorkAfterSet(t, ids, id, u[id].state);
        assert u[id].state == Running == t[id].state ==> u == t;
      }
      assert u.Keys == t.Keys;
      ChangesAreWork(Next(s, es[0]), es[1..], ids);
    }
  }

  lemma {:induction false} WorkBound(t: Table, ids: seq<JobId>)
    ensures Work(t, ids) <= 3 * |ids|
  {
    if ids != [] {
      WorkBound(t, ids[..|ids| - 1]);
    }
  }

  /** `n` jobs take at most `3 n` effective steps between restarts. */
  lemma {:induction false} BoundedWork(s: System, es: seq<Event>, ids: seq<JobId>)
    requires IsRun(s, es) && forall i :: 0 <= i < |es| ==> Forward(es[i])
    requires NoDuplicates(ids) && forall id :: id in s.table ==> id in ids
    ensures Changes(s, es) <= 3 * |ids|
  {
    ChangesAreWork(s, es, ids);
    WorkBound(s.table, ids);
  }

  /******* Terminal states stay *******/

  lemma {:induction false} TerminalStays(s: System, e: Event, id: JobId)
    requires Enabled(s, e) && !e.Restart?
    requires id in s.table && Terminal(s.table[id].state)
    ensures id in Next(s, e).table && Next(s, e).table[id] == s.table[id]
  {
  }

  /** Once all jobs of a build are terminal, only a job restart changes the build or adds a job to it. */
  lemma {:induction false} QuiescentBuildStays(s: System, es: seq<Event>, build: BuildId)
    requires IsRun(s, es) && forall i :: 0 <= i < |es| ==> !es[i].Restart?
    requires Complete(BuildRows(s.table, build)) && BuildRows(s.table, build) != map[]
    ensures BuildRows(After(s, es).table, build) == BuildRows(s.table, build)
    decreases es
  {
    if es != [] {
      QuiescentStep(s, es[0], build);
      QuiescentBuildStays(Next(s, es[0]), es[1..], build);
    }
  }

  lemma {:induction false} QuiescentStep(s: System, e: Event, build: BuildId)
    requires Enabled(s, e) && !e.Restart?
    requires Complete(BuildRows(s.table, build)) && BuildRows(s.table, build) != map[]
    ensures BuildRows(Next(s, e).table, build) == BuildRows(s.table, build)
  {
    var rows := BuildRows(s.table, build);
    var member :| member in rows;
    assert forall id :: id in s.table && s.table[id].build == build ==> id in rows && Terminal(rows[id].state);
  }
}
