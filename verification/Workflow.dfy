/**
 The workflow compiler: a tree of included job files becomes one flat list of jobs.

 `FlatFile` describes the list from the top down: what an entry job inherits is passed down
 to it.  `GetJobList` builds the list the way the runner does, bottom up: it compiles the
 included file first and patches the result afterwards.
 */
module Workflow {
  import opened Base
  import opened Names
  import opened Infrabox

  datatype FlatJob = FlatJob(name: string, kind: JobKind, dependsOn: seq<DependsOn>, env: Env)

  const FINISHED_ONLY: Option<seq<OnValue>> := Some([Is(Finished)])
  const ANY_RESULT: Option<seq<OnValue>> :=
    Some([Is(Finished), Is(JobState.Error), Is(JobState.Failure), Is(Skipped)])

  /******* The flat list, top down *******/

  /** A bare name means "finished"; `*` stands for every result including skipped. */
  function RewriteDep(d: DependsOn): DependsOn {
    if d.on.None? then d.(on := FINISHED_ONLY)
    else if Star in d.on.value then d.(on := ANY_RESULT)
    else d
  }

  function PrefixDep(parent: string, d: DependsOn): DependsOn {
    d.(job := Full(parent, d.job))
  }

  /** A job's own dependencies with conditions made explicit and names qualified. */
  function OwnDeps(n: Node, parent: string): (ds: seq<DependsOn>) {
    seq(|Own(n)|, i requires 0 <= i < |Own(n)| => PrefixDep(parent, RewriteDep(Own(n)[i])))
  }

  /** An entry job, one without dependencies of its own, gets what it inherits. */
  function DepsOf(n: Node, parent: string, inherited: seq<DependsOn>): seq<DependsOn> {
    if Own(n) == [] then inherited else OwnDeps(n, parent)
  }

  /**
   The names a job keeps waiting for after compilation.  An include of an empty file has no
   entry job that could inherit its dependencies, so they are lost.
   */
  function KeptDepJobs(n: Node): seq<string> {
    if n.Include? && n.file == [] then [] else DepJobs(Own(n))
  }

  /** No job of the file waits for `name`. */
  predicate IsSink(file: seq<Node>, name: string) {
    forall i :: 0 <= i < |file| ==> name !in KeptDepJobs(file[i])
  }

  function WaitFor(name: string): DependsOn {
    DependsOn(name, FINISHED_ONLY)
  }

  /** One dependency for each sink among the first `k` jobs of the file included as `parent`. */
  function SinkDeps(file: seq<Node>, k: nat, parent: string): seq<DependsOn>
    requires k <= |file|
  {
    if k == 0 then []
    else if IsSink(file, file[k - 1].name)
    then SinkDeps(file, k - 1, parent) + [WaitFor(Full(parent, file[k - 1].name))]
    else SinkDeps(file, k - 1, parent)
  }

  /**
   The block of jobs that `n` becomes.  `env` is what the enclosing includes impose, the
   outermost include winning.
   */
  function FlatNode(n: Node, parent: string, inherited: seq<DependsOn>, env: Env): seq<FlatJob>
    decreases n
  {
    var full := Full(parent, n.name);
    var deps := DepsOf(n, parent, inherited);
    match n
    case Job(_, _, own, kind) =>
      [FlatJob(full, kind, deps, own + env)]
    case Include(_, _, own, file) =>
      FlatFile(file, full, deps, own + env) +
      [FlatJob(full, Wait, if file == [] then inherited else SinkDeps(file, |file|, full), env)]
  }

  function FlatFile(file: seq<Node>, parent: string, inherited: seq<DependsOn>, env: Env): seq<FlatJob>
    decreases file
  {
    if file == [] then []
    else
      var k := |file| - 1;
      FlatFile(file[..k], parent, inherited, env) + FlatNode(file[k], parent, inherited, env)
  }

  /** The list the runner submits for a build. */
  function Flat(file: seq<Node>): seq<FlatJob> {
    FlatFile(file, "", [], map[])
  }

  lemma {:induction false} FlatFileSnoc(file: seq<Node>, k: nat, parent: string, inherited: seq<DependsOn>, env: Env)
    requires k < |file|
    ensures FlatFile(file[..k + 1], parent, inherited, env)
         == FlatFile(file[..k], parent, inherited, env) + FlatNode(file[k], parent, inherited, env)
  {
    assert file[..k + 1][..k] == file[..k];
  }

  /******* The patch applied to the jobs of an included file *******/

  function Adopt(j: FlatJob, deps: seq<DependsOn>, env: Env): FlatJob {
    j.(dependsOn := if j.dependsOn == [] then deps else j.dependsOn, env := j.env + env)
  }

  function AdoptAll(jobs: seq<FlatJob>, deps: seq<DependsOn>, env: Env): seq<FlatJob> {
    seq(|jobs|, i requires 0 <= i < |jobs| => Adopt(jobs[i], deps, env))
  }

  lemma {:induction false} AdoptAllConcat(a: seq<FlatJob>, b: seq<FlatJob>, deps: seq<DependsOn>, env: Env)
    ensures AdoptAll(a + b, deps, env) == AdoptAll(a, deps, env) + AdoptAll(b, deps, env)
  {
  }

  /** The last job of an accepted file is a sink: nothing comes after it. */
  lemma {:induction false} LastIsSink(file: seq<Node>)
    requires Accepted(file) && file != []
    ensures IsSink(file, file[|file| - 1].name)
  {
    var k := |file| - 1;
    forall i | 0 <= i < |file|
      ensures file[k].name !in KeptDepJobs(file[i])
    {
      if file[k].name in DepJobs(Own(file[i])) {
        var j :| 0 <= j < |Own(file[i])| && Own(file[i])[j].job == file[k].name;
        assert Follows(file[i], file[..i]);
        var m :| 0 <= m < i && file[..i][m].name == file[k].name;
        NamesDistinct(file, m, k);
      }
    }
  }

  lemma {:induction false} SinkDepsNonEmpty(file: seq<Node>, parent: string)
    requires Accepted(file) && file != []
    ensures SinkDeps(file, |file|, parent) != []
  {
    LastIsSink(file);
  }

  /** Patching a compiled file is the same as passing the inheritance down while compiling it. */
  lemma {:induction false} AdoptPushesDown(file: seq<Node>, parent: string,
      d0: seq<DependsOn>, e0: Env, deps: seq<DependsOn>, env: Env)
    requires AcceptedTree(file)
    ensures AdoptAll(FlatFile(file, parent, d0, e0), deps, env)
         == FlatFile(file, parent, if d0 == [] then deps else d0, e0 + env)
    decreases file
  {
    if file != [] {
      var k := |file| - 1;
      var d := if d0 == [] then deps else d0;
      AcceptedTreePrefix(file, k);
      AdoptPushesDown(file[..k], parent, d0, e0, deps, env);
      AdoptAllConcat(FlatFile(file[..k], parent, d0, e0), FlatNode(file[k], parent, d0, e0), deps, env);
      AdoptPushesDownNode(file[k], parent, d0, e0, deps, env);
    }
  }

  lemma {:induction false} AdoptPushesDownNode(n: Node, parent: string,
      d0: seq<DependsOn>, e0: Env, deps: seq<DependsOn>, env: Env)
    requires n.Include? ==> AcceptedTree(n.file)
    ensures AdoptAll(FlatNode(n, parent, d0, e0), deps, env)
         == FlatNode(n, parent, if d0 == [] then deps else d0, e0 + env)
    decreases n
  {
    var d := if d0 == [] then deps else d0;
    var full := Full(parent, n.name);
    MapPlusAssociative(n.env, e0, env);
    if n.Include? {
      var body := FlatFile(n.file, full, DepsOf(n, parent, d0), n.env + e0);
      var last := FlatNode(n, parent, d0, e0)[|body|];
      AdoptPushesDown(n.file, full, DepsOf(n, parent, d0), n.env + e0, deps, env);
      AdoptAllConcat(body, [last], deps, env);
      if n.file != [] {
        SinkDepsNonEmpty(n.file, full);
      }
    }
  }

  /******* The sinks of a flat list are the sinks of the file *******/

  ghost predicate Waits(jobs: seq<FlatJob>, name: string) {
    exists j, d :: j in jobs && d in j.dependsOn && d.job == name
  }

  function Children(jobs: seq<FlatJob>): set<string> {
    set j, d | j in jobs && d in j.dependsOn :: d.job
  }

  /** The `depends_on` list the runner computes for the final wait job of an include. */
  function FinalDeps(jobs: seq<FlatJob>, withChildren: set<string>): seq<DependsOn> {
    if jobs == [] then []
    else
      var k := |jobs| - 1;
      FinalDeps(jobs[..k], withChildren) +
      (if jobs[k].name in withChildren then [] else [WaitFor(jobs[k].name)])
  }

  lemma {:induction false} FinalDepsConcat(a: seq<FlatJob>, b: seq<FlatJob>, withChildren: set<string>)
    ensures FinalDeps(a + b, withChildren) == FinalDeps(a, withChildren) + FinalDeps(b, withChildren)
  {
    if b == [] {
      assert a + b == a;
    } else {
      var k := |b| - 1;
      assert (a + b)[..|a| + k] == a + b[..k];
      FinalDepsConcat(a, b[..k], withChildren);
    }
  }

  lemma {:induction false} FinalDepsNone(jobs: seq<FlatJob>, withChildren: set<string>)
    requires forall i :: 0 <= i < |jobs| ==> jobs[i].name in withChildren
    ensures FinalDeps(jobs, withChildren) == []
  {
    if jobs != [] {
      FinalDepsNone(jobs[..|jobs| - 1], withChildren);
    }
  }

  /** A job whose name no other job of the list waits for is in the final list, in order. */
  lemma {:induction false} FinalDepsMember(jobs: seq<FlatJob>, withChildren: set<string>, i: nat)
    requires i < |jobs| && jobs[i].name !in withChildren
    ensures WaitFor(jobs[i].name) in FinalDeps(jobs, withChildren)
  {
    if i < |jobs| - 1 {
      FinalDepsMember(jobs[..|jobs| - 1], withChildren, i);
    }
  }
}
