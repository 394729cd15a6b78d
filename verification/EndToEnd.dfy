/**
 From the files to the final states: compile, insert, schedule.  Every job of an undisturbed
 build ends in the state that the tree of files calls for.
 */
module EndToEnd {
  import opened Base
  import opened Names
  import opened Infrabox
  import opened Workflow
  import opened WorkflowShape
  import opened WorkflowOrder
  import opened WorkflowBrackets
  import opened WorkflowMeaning
  import opened JobTable
  import opened Lifecycle
  import opened Outcomes
  import opened CreateJobs

  /******* Distinct dependencies *******/

  ghost predicate DistinctDeps(ds: seq<DependsOn>) {
    forall x, y :: 0 <= x < y < |ds| ==> ds[x].job != ds[y].job
  }

  lemma {:induction false} OwnDepsDistinct(file: seq<Node>, k: nat, parent: string, d: seq<DependsOn>)
    requires Accepted(file) && k < |file| && DistinctDeps(d)
    ensures DistinctDeps(DepsOf(file[k], parent, d))
  {
    var n := file[k];
    assert Follows(n, file[..k]);
    forall x, y | 0 <= x < y < |OwnDeps(n, parent)|
      ensures OwnDeps(n, parent)[x].job != OwnDeps(n, parent)[y].job
    {
      assert DepJobs(Own(n))[x] != DepJobs(Own(n))[y];
      if Full(parent, Own(n)[x].job) == Full(parent, Own(n)[y].job) {
        FullInjective(parent, Own(n)[x].job, Own(n)[y].job);
      }
    }
  }

  lemma {:induction false} DistinctSnoc(ds: seq<DependsOn>, x: DependsOn)
    requires DistinctDeps(ds) && forall y :: y in ds ==> y.job != x.job
    ensures DistinctDeps(ds + [x])
  {
  }

  lemma {:induction false} SinkDepsDistinct(file: seq<Node>, k: nat, parent: string)
    requires Accepted(file) && k <= |file|
    ensures DistinctDeps(SinkDeps(file, k, parent))
  {
    if k > 0 {
      SinkDepsDistinct(file, k - 1, parent);
      forall y | y in SinkDeps(file, k - 1, parent)
        ensures y.job != Full(parent, file[k - 1].name)
      {
        EarlierSink(file, k - 1, parent, y);
      }
      DistinctSnoc(SinkDeps(file, k - 1, parent), WaitFor(Full(parent, file[k - 1].name)));
    }
  }

  lemma {:induction false} EarlierSink(file: seq<Node>, k: nat, parent: string, y: DependsOn)
    requires Accepted(file) && k < |file| && y in SinkDeps(file, k, parent)
    ensures y.job != Full(parent, file[k].name)
  {
    hide IsSink, Accepted;
    SinkDepsTargets(file, k, parent, y);
    var i :| 0 <= i < k && y == WaitFor(Full(parent, file[i].name)) && IsSink(file, file[i].name);
    NamesDistinct(file, i, k);
    if y.job == Full(parent, file[k].name) {
      FullInjective(parent, file[i].name, file[k].name);
    }
  }

  /** No job of a compiled file waits for the same job twice. */
  lemma {:induction false} FlatFileDistinct(file: seq<Node>, parent: string, d: seq<DependsOn>, e: Env, j: FlatJob)
    requires AcceptedTree(file) && DistinctDeps(d) && j in FlatFile(file, parent, d, e)
    ensures DistinctDeps(j.dependsOn)
    decreases file
  {
    var k := FindBlock(file, parent, d, e, j);
    var n := file[k];
    var body := Body(n, parent, d, e);
    var block := FlatNode(n, parent, d, e);
    assert block == body + [block[|body|]];
    OwnDepsDistinct(file, k, parent, d);
    if j in body {
      FlatFileDistinct(n.file, Full(parent, n.name), DepsOf(n, parent, d), n.env + e, j);
    } else if n.Include? {
      SinkDepsDistinct(n.file, |n.file|, Full(parent, n.name));
    }
  }

  lemma {:induction false} ConditionOfDep(deps: seq<Dependency>, i: nat)
    requires i < |deps| && forall x, y :: 0 <= x < y < |deps| ==> deps[x].id != deps[y].id
    ensures Condition(deps, deps[i].id) == deps[i].on
  {
    if i < |deps| - 1 {
      ConditionOfDep(deps[..|deps| - 1], i);
    }
  }

  /******* Evaluation solves the equations of the list *******/

  /** A dependency names an earlier job or no job of the list. */
  ghost predicate NoForward(jobs: seq<FlatJob>) {
    forall i, x, k :: 0 <= i < |jobs| && x in jobs[i].dependsOn && i <= k < |jobs| ==> jobs[k].name != x.job
  }

  lemma {:induction false} MetAfterUpdate(ds: seq<DependsOn>, states: States, name: string, s: JobState)
    requires forall x :: x in ds ==> x.job != name
    ensures Met(ds, states[name := s]) == Met(ds, states)
  {
    assert states[name := s] == states + map[name := s];
    MetUnaffected(ds, states, map[name := s]);
  }

  /** The states solve the equations of the list and leave other names alone. */
  ghost predicate Solves(jobs: seq<FlatJob>, states: States, m: States, o: Oracle) {
    && (forall i :: 0 <= i < |jobs| ==> jobs[i].name in m && m[jobs[i].name] == StateOf(jobs[i], m, o))
    && (forall name :: name in states && name !in NamesOf(jobs) ==> name in m && m[name] == states[name])
  }

  lemma {:induction false} EvalSolves(jobs: seq<FlatJob>, states: States, o: Oracle)
    requires UniqueNames(jobs) && NoForward(jobs)
    ensures Solves(jobs, states, Eval(jobs, states, o), o)
  {
    if jobs != [] {
      var k := |jobs| - 1;
      EvalSolves(jobs[..k], states, o);
      SolvesOneMore(jobs, k, states, Eval(jobs[..k], states, o), o);
    }
  }

  lemma {:induction false} SolvesOneMore(jobs: seq<FlatJob>, k: nat, states: States, m: States, o: Oracle)
    requires UniqueNames(jobs) && NoForward(jobs) && k == |jobs| - 1
    requires Solves(jobs[..k], states, m, o)
    ensures Solves(jobs, states, m[jobs[k].name := StateOf(jobs[k], m, o)], o)
  {
    var s := StateOf(jobs[k], m, o);
    var u := m[jobs[k].name := s];
    forall i | 0 <= i < |jobs|
      ensures jobs[i].name in u && u[jobs[i].name] == StateOf(jobs[i], u, o)
    {
      MetAfterUpdate(jobs[i].dependsOn, m, jobs[k].name, s);
      assert i < k ==> jobs[..k][i] == jobs[i];
    }
    assert NamesOf(jobs) == NamesOf(jobs[..k]) + {jobs[k].name} by {
      assert jobs == jobs[..k] + [jobs[k]];
    }
  }

  /******* The build as inserted *******/

  const ROOT_DEPS := [WaitFor(CREATE_JOBS)]

  /** The list in which the roots wait for the creating job. */
  function RootedList(file: seq<Node>): seq<FlatJob> {
    FlatFile(file, "", ROOT_DEPS, map[])
  }

  lemma {:induction false} RootedIsPatched(file: seq<Node>)
    requires AcceptedTree(file)
    ensures RootedList(file) == AdoptAll(Flat(file), ROOT_DEPS, map[])
  {
    AdoptPushesDown(file, "", [], map[], ROOT_DEPS, map[]);
    var none: Env := map[];
    assert none + none == none;
  }

  /** `Create Jobs` can be no job of a file, nor lie in the block of one. */
  lemma {:induction false} CreatorFromOutside(file: seq<Node>)
    requires AcceptedTree(file)
    ensures FromOutside(file, "", ROOT_DEPS)
    ensures CREATE_JOBS !in NamesOf(RootedList(file))
  {
    forall k | 0 <= k < |file|
      ensures !InBlock(CREATE_JOBS, Full("", file[k].name))
    {
      assert ValidJob(file[k]) && NameChar(file[k].name[0]);
      assert !NameChar(CREATE_JOBS[0]);
      if InBlock(CREATE_JOBS, Full("", file[k].name)) {
        BlockStart(CREATE_JOBS, file[k].name);
      }
    }
    forall j | j in RootedList(file)
      ensures j.name != CREATE_JOBS
    {
      var k := FindBlock(file, "", ROOT_DEPS, map[], j);
      assert ValidJob(file[k]);
      NamesInBlock(file[k], "", ROOT_DEPS, map[], j);
    }
  }

  lemma {:induction false} RootedNoForward(file: seq<Node>)
    requires AcceptedTree(file)
    ensures UniqueNames(RootedList(file)) && NoForward(RootedList(file))
  {
    var g := RootedList(file);
    FlatFileUnique(file, "", ROOT_DEPS, map[]);
    FlatFileOrdered(file, "", ROOT_DEPS, map[]);
    CreatorFromOutside(file);
    forall i, x, k | 0 <= i < |g| && x in g[i].dependsOn && i <= k < |g|
      ensures g[k].name != x.job
    {
      if x in ROOT_DEPS {
        assert g[k] in g;
      } else {
        var j :| j in g[..i] && j.name == x.job;
        var m :| 0 <= m < i && g[m] == j;
      }
    }
  }

  /** A compiled build, ready to be inserted. */
  ghost predicate CompiledBuild(file: seq<Node>, jobs: seq<NewJob>) {
    AcceptedTree(file) && FlatOf(jobs) == Flat(file) && UniqueIds(jobs)
  }

  lemma {:induction false} CompiledIsWellFormed(file: seq<Node>, jobs: seq<NewJob>)
    requires CompiledBuild(file, jobs)
    ensures WellFormedJobs(jobs)
  {
    FlatFileUnique(file, "", [], map[]);
    FlatIsTopological(file);
    forall i, x | 0 <= i < |jobs| && x in jobs[i].job.dependsOn
      ensures Explicit(x)
    {
      assert FlatOf(jobs)[i] == jobs[i].job && Flat(file)[i] in Flat(file);
      FlatFileExplicit(file, "", [], map[], jobs[i].job, x);
    }
  }

  /** The reports of runners, by name instead of by id. */
  function ByName(jobs: seq<NewJob>, o: Reports): Oracle {
    var ids := NameIds(jobs);
    name => if name in ids then o(ids[name]) else Finished
  }

  /** The states of the build: what the evaluation of the rooted list says, given the creator's result. */
  function BuildStates(file: seq<Node>, jobs: seq<NewJob>, creator: JobId, o: Reports): States {
    Eval(RootedList(file), map[CREATE_JOBS := o(creator)], ByName(jobs, o))
  }

  lemma {:induction false} StatesSolve(file: seq<Node>, jobs: seq<NewJob>, creator: JobId, o: Reports)
    requires CompiledBuild(file, jobs)
    ensures |RootedList(file)| == |jobs|
    ensures var m := BuildStates(file, jobs, creator, o);
      && CREATE_JOBS in m && m[CREATE_JOBS] == o(creator)
      && forall i :: 0 <= i < |jobs| ==>
           var j := jobs[i].job;
           && j.name in m
           && var deps := if j.dependsOn == [] then ROOT_DEPS else j.dependsOn;
           m[j.name] == JobResult(j.kind, j.name, Met(deps, m), ByName(jobs, o))
  {
    RootedIsPatched(file);
    RootedNoForward(file);
    CreatorFromOutside(file);
    EvalSolves(RootedList(file), map[CREATE_JOBS := o(creator)], ByName(jobs, o));
    forall i | 0 <= i < |jobs|
      ensures RootedList(file)[i] == Adopt(jobs[i].job, ROOT_DEPS, map[])
    {
      assert FlatOf(jobs)[i] == jobs[i].job;
    }
  }

  /** The meaning of the rows of the build, by id. */
  ghost function BuildMeaning(t: Table, creator: JobId, o: Reports, m: States): Meaning
    requires forall id :: id in t && id != creator ==> t[id].name in m
  {
    map id | id in t :: if id == creator then o(creator) else m[t[id].name]
  }

  /** A row's gate is open iff the conditions of its job are met. */
  lemma {:induction false} RowGate(t: Table, ev: Meaning, jobs: seq<NewJob>, creator: JobId, i: nat, m: States)
    requires WellFormedJobs(jobs) && i < |jobs| && DistinctDeps(jobs[i].job.dependsOn)
    requires forall k :: 0 <= k < |jobs| ==> jobs[k].id in t && jobs[k].id != creator
    requires Linkable(jobs[i].job, NameIds(jobs))
    requires creator in t && ev.Keys == t.Keys && t[jobs[i].id].deps == LinkDeps(jobs[i].job, NameIds(jobs), creator)
    requires CREATE_JOBS in m && ev[creator] == m[CREATE_JOBS]
    requires forall k :: 0 <= k < |jobs| ==> jobs[k].job.name in m && ev[jobs[k].id] == m[jobs[k].job.name]
    ensures GateOpen(t, jobs[i].id, ev)
       <==> Met(if jobs[i].job.dependsOn == [] then ROOT_DEPS else jobs[i].job.dependsOn, m)
  {
    var j := jobs[i].job;
    var id := jobs[i].id;
    var deps := t[id].deps;
    if j.dependsOn == [] {
      assert deps[0].id == creator && Parent(t, id, creator);
      ConditionOfDep(deps, 0);
      assert DepMet(ROOT_DEPS[0], m) <==> m[CREATE_JOBS] == Finished;
    } else {
      LinkedDeps(jobs, creator, i);
      forall x | 0 <= x < |deps|
        ensures deps[x].id in t && Parent(t, id, deps[x].id)
        ensures DepMet(j.dependsOn[x], m) <==> Is(ev[deps[x].id]) in Condition(deps, deps[x].id)
      {
        ConditionOfDep(deps, x);
      }
      if Met(j.dependsOn, m) {
        forall p | Parent(t, id, p)
          ensures Is(ev[p]) in Condition(deps, p)
        {
          var x :| 0 <= x < |deps| && deps[x].id == p;
          assert DepMet(j.dependsOn[x], m);
        }
      }
      if GateOpen(t, id, ev) {
        forall x | 0 <= x < |j.dependsOn|
          ensures DepMet(j.dependsOn[x], m)
        {
          assert Parent(t, id, deps[x].id);
        }
      }
    }
  }

  /** The linked dependencies of a job, one for each by-name dependency, with distinct ids. */
  lemma {:induction false} LinkedDeps(jobs: seq<NewJob>, creator: JobId, i: nat)
    requires WellFormedJobs(jobs) && i < |jobs| && jobs[i].job.dependsOn != []
    requires DistinctDeps(jobs[i].job.dependsOn) && Linkable(jobs[i].job, NameIds(jobs))
    ensures var j, deps := jobs[i].job, LinkDeps(jobs[i].job, NameIds(jobs), creator);
      && |deps| == |j.dependsOn|
      && (forall x :: 0 <= x < |deps| ==>
            && j.dependsOn[x].on.Some? && deps[x].on == j.dependsOn[x].on.value
            && exists k :: 0 <= k < |jobs| && jobs[k].id == deps[x].id && jobs[k].job.name == j.dependsOn[x].job)
      && (forall x, y :: 0 <= x < y < |deps| ==> deps[x].id != deps[y].id)
  {
    var j, deps := jobs[i].job, LinkDeps(jobs[i].job, NameIds(jobs), creator);
    NameIdsLookup(jobs);
    forall x | 0 <= x < |deps|
      ensures j.dependsOn[x].on.Some? && deps[x].on == j.dependsOn[x].on.value
      ensures exists k :: 0 <= k < |jobs| && jobs[k].id == deps[x].id && jobs[k].job.name == j.dependsOn[x].job
    {
      assert j.dependsOn[x] in j.dependsOn && Explicit(j.dependsOn[x]);
      var k :| 0 <= k < |jobs| && jobs[k].job.name == j.dependsOn[x].job;
      assert jobs[k].id == deps[x].id;
    }
    forall x, y | 0 <= x < y < |deps|
      ensures deps[x].id != deps[y].id
    {
      var k :| 0 <= k < |jobs| && jobs[k].id == deps[x].id && jobs[k].job.name == j.dependsOn[x].job;
      var l :| 0 <= l < |jobs| && jobs[l].id == deps[y].id && jobs[l].job.name == j.dependsOn[y].job;
      assert k != l;
      assert k < l || l < k;
    }
  }

  /** The rows of the build after the insertion. */
  ghost predicate Inserted(t: Table, creator: JobId, jobs: seq<NewJob>) {
    && creator in t && t[creator].deps == [] && !t[creator].kind.WaitJob?
    && (forall k :: 0 <= k < |jobs| ==>
          && jobs[k].id in t && jobs[k].id != creator
          && Linkable(jobs[k].job, NameIds(jobs))
          && t[jobs[k].id].deps == LinkDeps(jobs[k].job, NameIds(jobs), creator)
          && t[jobs[k].id].kind == TypeOf(jobs[k].job.kind) && t[jobs[k].id].name == jobs[k].job.name)
    && (forall id :: id in t ==> id == creator || exists k :: 0 <= k < |jobs| && jobs[k].id == id)
  }

  lemma {:induction false} InsertedMeaning(file: seq<Node>, t: Table, creator: JobId, jobs: seq<NewJob>, o: Reports)
      returns (ev: Meaning)
    requires CompiledBuild(file, jobs) && Inserted(t, creator, jobs)
    ensures IsMeaning(t, ev, o) && ev[creator] == o(creator)
    ensures var m := BuildStates(file, jobs, creator, o);
      forall k :: 0 <= k < |jobs| ==> jobs[k].job.name in m && ev[jobs[k].id] == m[jobs[k].job.name]
  {
    var m := BuildStates(file, jobs, creator, o);
    StatesSolve(file, jobs, creator, o);
    forall id | id in t && id != creator
      ensures t[id].name in m
    {
      var k :| 0 <= k < |jobs| && jobs[k].id == id;
    }
    ev := BuildMeaning(t, creator, o, m);
    forall id | id in t
      ensures ev[id] == RowResult(t[id].kind, GateOpen(t, id, ev), o(id))
    {
      if id != creator {
        var i :| 0 <= i < |jobs| && jobs[i].id == id;
        InsertedRowMeaning(file, t, creator, jobs, o, ev, i);
      } else {
        assert forall p :: !Parent(t, creator, p);
      }
    }
  }

  lemma {:induction false} InsertedRowMeaning(file: seq<Node>, t: Table, creator: JobId, jobs: seq<NewJob>,
      o: Reports, ev: Meaning,
      i: nat)
    requires CompiledBuild(file, jobs) && Inserted(t, creator, jobs) && i < |jobs|
    requires forall id :: id in t && id != creator ==> t[id].name in BuildStates(file, jobs, creator, o)
    requires ev == BuildMeaning(t, creator, o, BuildStates(file, jobs, creator, o))
    ensures var id := jobs[i].id; ev[id] == RowResult(t[id].kind, GateOpen(t, id, ev), o(id))
  {
    var m := BuildStates(file, jobs, creator, o);
    CompiledIsWellFormed(file, jobs);
    StatesSolve(file, jobs, creator, o);
    ReportByName(jobs, o, i);
    CompiledDistinct(file, jobs, i);
    RowGate(t, ev, jobs, creator, i, m);
  }

  lemma {:induction false} ReportByName(jobs: seq<NewJob>, o: Reports, i: nat)
    requires UniqueNames(FlatOf(jobs)) && i < |jobs|
    ensures ByName(jobs, o)(jobs[i].job.name) == o(jobs[i].id)
  {
    NameIdsLookup(jobs);
  }

  lemma {:induction false} CompiledDistinct(file: seq<Node>, jobs: seq<NewJob>, i: nat)
    requires CompiledBuild(file, jobs) && i < |jobs|
    ensures DistinctDeps(jobs[i].job.dependsOn)
  {
    assert FlatOf(jobs)[i] == jobs[i].job && Flat(file)[i] in Flat(file);
    FlatFileDistinct(file, "", [], map[], jobs[i].job);
  }

  lemma {:induction false} InsertedAfterCreate(t: Table, creator: JobId, jobs: seq<NewJob>, cluster: string -> string)
    requires WellFormedJobs(jobs) && creator in t && t[creator].deps == [] && !t[creator].kind.WaitJob?
    requires forall k :: 0 <= k < |jobs| ==> jobs[k].id !in t && Linkable(jobs[k].job, NameIds(jobs))
    requires forall id :: id in t && t[id].build == t[creator].build ==> id == creator
    ensures var rows := NewRows(jobs, NameIds(jobs), creator, t[creator].build, cluster);
      Inserted(BuildRows(t + rows, t[creator].build), creator, jobs)
  {
    NewRowsLookup(jobs, NameIds(jobs), creator, t[creator].build, cluster);
  }

  /** The system after `create_jobs`. */
  ghost function AfterInsertion(s: System, creator: JobId, jobs: seq<NewJob>, cluster: string -> string): System
    requires creator in s.table && forall k :: 0 <= k < |jobs| ==> Linkable(jobs[k].job, NameIds(jobs))
  {
    s.(table := s.table + NewRows(jobs, NameIds(jobs), creator, s.table[creator].build, cluster))
  }

  /** Inserting a compiled build is a step of the transition system. */
  lemma {:induction false} InsertionIsStep(file: seq<Node>, s: System, creator: JobId, jobs: seq<NewJob>,
      cluster: string -> string)
    requires CompiledBuild(file, jobs) && RunnerMayAct(s, creator)
    requires forall k :: 0 <= k < |jobs| ==> jobs[k].id !in s.table
    ensures forall k :: 0 <= k < |jobs| ==> Linkable(jobs[k].job, NameIds(jobs))
    ensures var create := Create(creator, NewRows(jobs, NameIds(jobs), creator, s.table[creator].build, cluster));
      Enabled(s, create) && Next(s, create) == AfterInsertion(s, creator, jobs, cluster)
  {
    CompiledIsWellFormed(file, jobs);
    RowsAreLinked(s.table, creator, jobs, cluster);
  }

  /**
   Main result: let `creator`, alone in its build, insert the compiled list and let the build run
   undisturbed.  Then every terminal job has the state that walking the tree of files gives it,
   the whole tree being gated by the creator's own success.
   */
  lemma {:induction false} BuildEndsAsWritten(file: seq<Node>, jobs: seq<NewJob>, s: System, creator: JobId,
      cluster: string -> string,
      es: seq<Event>, o: Reports, i: nat)
    requires CompiledBuild(file, jobs) && i < |jobs|
    requires Faithful(file, "", o(creator) == Finished, ByName(jobs, o))
    requires Good(s) && RunnerMayAct(s, creator)
    requires s.table[creator].deps == [] && !s.table[creator].kind.WaitJob?
    requires forall id :: id in s.table && s.table[id].build == s.table[creator].build ==> id == creator
    requires forall k :: 0 <= k < |jobs| ==> jobs[k].id !in s.table && Linkable(jobs[k].job, NameIds(jobs))
    requires UndisturbedRun(AfterInsertion(s, creator, jobs, cluster), es, s.table[creator].build, o)
    ensures var s1 := AfterInsertion(s, creator, jobs, cluster);
      var nested := NestFile(file, "", o(creator) == Finished, ByName(jobs, o)).all;
      && IsRun(s1, es)
      && var end := After(s1, es).table;
      && jobs[i].id in end && jobs[i].job.name in nested
      && (Terminal(end[jobs[i].id].state) ==> end[jobs[i].id].state == nested[jobs[i].job.name])
  {
    var build := s.table[creator].build;
    var s1 := AfterInsertion(s, creator, jobs, cluster);
    var ev := InsertionOnTrack(file, jobs, s, creator, cluster, o);
    RunOnTrack(s1, es, build, ev, o);
    StatesOfTree(file, jobs, creator, o, i);
    assert jobs[i].id in BuildRows(s1.table, build);
    assert jobs[i].id in BuildRows(After(s1, es).table, build);
  }

  /** Right after the insertion the build is on track to the states of the rooted list. */
  lemma {:induction false} InsertionOnTrack(file: seq<Node>, jobs: seq<NewJob>, s: System, creator: JobId,
      cluster: string -> string,
      o: Reports) returns (ev: Meaning)
    requires CompiledBuild(file, jobs) && Good(s) && RunnerMayAct(s, creator)
    requires s.table[creator].deps == [] && !s.table[creator].kind.WaitJob?
    requires forall id :: id in s.table && s.table[id].build == s.table[creator].build ==> id == creator
    requires forall k :: 0 <= k < |jobs| ==> jobs[k].id !in s.table && Linkable(jobs[k].job, NameIds(jobs))
    ensures var s1, m := AfterInsertion(s, creator, jobs, cluster), BuildStates(file, jobs, creator, o);
      && Good(s1)
      && OnTrack(BuildRows(s1.table, s.table[creator].build), ev, o)
      && forall k :: 0 <= k < |jobs| ==>
           && jobs[k].id in BuildRows(s1.table, s.table[creator].build)
           && jobs[k].job.name in m && ev[jobs[k].id] == m[jobs[k].job.name]
  {
    var build := s.table[creator].build;
    var s1 := AfterInsertion(s, creator, jobs, cluster);
    InsertionIsStep(file, s, creator, jobs, cluster);
    StepGood(s, Create(creator, NewRows(jobs, NameIds(jobs), creator, build, cluster)));
    CompiledIsWellFormed(file, jobs);
    InsertedAfterCreate(s.table, creator, jobs, cluster);
    ev := InsertedMeaning(file, BuildRows(s1.table, build), creator, jobs, o);
    NewRowsLookup(jobs, NameIds(jobs), creator, build, cluster);
  }

  lemma {:induction false} StatesOfTree(file: seq<Node>, jobs: seq<NewJob>, creator: JobId, o: Reports, i: nat)
    requires CompiledBuild(file, jobs) && i < |jobs|
    requires Faithful(file, "", o(creator) == Finished, ByName(jobs, o))
    ensures var nested := NestFile(file, "", o(creator) == Finished, ByName(jobs, o)).all;
      var m := BuildStates(file, jobs, creator, o);
      && jobs[i].job.name in nested && jobs[i].job.name in m
      && m[jobs[i].job.name] == nested[jobs[i].job.name]
  {
    var start: States := map[CREATE_JOBS := o(creator)];
    CreatorFromOutside(file);
    assert Met(ROOT_DEPS, start) <==> o(creator) == Finished by {
      assert DepMet(ROOT_DEPS[0], start) <==> o(creator) == Finished;
    }
    FileMeaning(file, "", ROOT_DEPS, map[], start, ByName(jobs, o));
    StatesSolve(file, jobs, creator, o);
    RootedIsPatched(file);
    assert FlatOf(jobs)[i] == jobs[i].job;
    assert RootedList(file)[i].name == jobs[i].job.name;
    assert RootedList(file)[i] in RootedList(file);
    assert jobs[i].job.name != CREATE_JOBS;
  }

  /******* The hypotheses can be met *******/

  const NEW_BUILD := Row(CreateJobMatrix, CREATE_JOBS, 0, "master", Queued, [])

  /** A new build whose first job has been scheduled. */
  lemma {:induction false} FirstJobScheduled() returns (es: seq<Event>)
    ensures IsRun(EMPTY, es)
    ensures After(EMPTY, es) == System(map[0 := NEW_BUILD.(state := Scheduled)], {0})
  {
    var first, second := NewBuild(0, NEW_BUILD), Decide(0, Submitted);
    var mid := System(map[0 := NEW_BUILD], {});
    assert Enabled(EMPTY, first) && Next(EMPTY, first) == mid;
    OneStep(EMPTY, first);
    assert Enabled(mid, second) && !ParentActive(mid.table, 0) && !ConditionFails(mid.table, 0);
    assert Next(mid, second) == System(map[0 := NEW_BUILD.(state := Scheduled)], {0});
    OneStep(mid, second);
    RunConcat(EMPTY, [first], [second]);
    es := [first] + [second];
  }

  /** For every tree of accepted files some reachable system is about to insert its list. */
  lemma {:induction false} EveryTreeCanBeBuilt(file: seq<Node>) returns (es: seq<Event>, jobs: seq<NewJob>)
    requires AcceptedTree(file)
    ensures IsRun(EMPTY, es) && CompiledBuild(file, jobs) && |jobs| == |Flat(file)|
    ensures var s := After(EMPTY, es);
      && Good(s) && RunnerMayAct(s, 0)
      && s.table[0].deps == [] && !s.table[0].kind.WaitJob?
      && (forall id :: id in s.table && s.table[id].build == s.table[0].build ==> id == 0)
      && forall k :: 0 <= k < |jobs| ==> jobs[k].id !in s.table && Linkable(jobs[k].job, NameIds(jobs))
  {
    var flat := Flat(file);
    jobs := seq(|flat|, i requires 0 <= i < |flat| => NewJob(flat[i], i + 1));
    assert FlatOf(jobs) == flat;
    es := FirstJobScheduled();
    EmptyGood();
    ReachableGood(EMPTY, es);
    CompiledIsWellFormed(file, jobs);
    TopologicalIsLinkable(jobs);
  }
}
