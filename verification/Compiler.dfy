/**
 `rewrite_depends_on` and `get_job_list` of the runner.  The list `data['jobs']` of one parsed
 file is an array whose elements are patched in place; the compiled list is assembled in loops.
 */
module Compiler {
  import opened Base
  import opened Names
  import opened Infrabox
  import opened Workflow
  import opened WorkflowShape

  function RewriteNode(n: Node): Node {
    if n.dependsOn.None? then n
    else
      var ds := n.dependsOn.value;
      n.(dependsOn := Some(seq(|ds|, i requires 0 <= i < |ds| => RewriteDep(ds[i]))))
  }

  /** `m` is `n` with every condition spelled out. */
  ghost predicate Spelled(n: Node, m: Node) {
    && m == n.(dependsOn := m.dependsOn)
    && |Own(m)| == |Own(n)|
    && forall x :: 0 <= x < |Own(n)| ==>
         && Own(m)[x].job == Own(n)[x].job
         && Own(m)[x].on ==
            if Own(n)[x].on.None? then Some([Is(Finished)])
            else if Star in Own(n)[x].on.value
            then Some([Is(Finished), Is(JobState.Error), Is(JobState.Failure), Is(Skipped)])
            else Own(n)[x].on
  }

  /** Makes the condition of every dependency explicit, in place. */
  method RewriteDependsOn(data: array<Node>)
    modifies data
    ensures forall i :: 0 <= i < data.Length ==> data[i] == RewriteNode(old(data[i]))
    ensures forall i :: 0 <= i < data.Length ==> Spelled(old(data[i]), data[i])
  {
    for i := 0 to data.Length
      invariant forall k :: 0 <= k < i ==> data[k] == RewriteNode(old(data[k]))
      invariant forall k :: i <= k < data.Length ==> data[k] == old(data[k])
    {
      var ds := Own(data[i]);
      for k := 0 to |ds|
        invariant |ds| == |Own(data[i])|
        invariant forall m :: 0 <= m < k ==> ds[m] == RewriteDep(Own(data[i])[m])
        invariant forall m :: k <= m < |ds| ==> ds[m] == Own(data[i])[m]
      {
        var d := ds[k];
        if d.on.None? {
          ds := ds[k := d.(on := FINISHED_ONLY)];
          continue;
        }
        var on := d.on.value;
        for n := 0 to |on|
          invariant Star !in on[..n]
          invariant ds[k] == d
        {
          if on[n] == Star {
            ds := ds[k := d.(on := ANY_RESULT)];
            break;
          }
        }
      }
      if data[i].dependsOn.Some? {
        data[i] := data[i].(dependsOn := Some(ds));
      }
      assert data[i] == RewriteNode(old(data[i])) by {
        if data[i].dependsOn.Some? {
          assert data[i].dependsOn.value == RewriteNode(old(data[i])).dependsOn.value;
        }
      }
    }
  }

  /** A validated file, freshly parsed. */
  method ParseInfraboxJson(file: seq<Node>) returns (data: array<Node>)
    ensures fresh(data) && data[..] == file
  {
    data := new Node[|file|](i requires 0 <= i < |file| => file[i]);
  }

  /** The compiled form of one job that is no include, after its name was qualified. */
  function Compiled(n: Node): FlatJob
    requires n.Job?
  {
    FlatJob(n.name, n.kind, Own(n), n.env)
  }

  /** Qualifies the name and the dependencies of the job at position `i`, in place. */
  method Qualify(data: array<Node>, i: nat, parentName: string)
    requires i < data.Length
    modifies data
    ensures forall k :: 0 <= k < data.Length && k != i ==> data[k] == old(data[k])
    ensures data[i] == old(data[i]).(name := Full(parentName, old(data[i]).name), dependsOn := data[i].dependsOn)
    ensures data[i].name == if parentName == "" then old(data[i]).name else parentName + "/" + old(data[i]).name
    ensures data[i].dependsOn.Some? <==> old(data[i]).dependsOn.Some?
    ensures |Own(data[i])| == |Own(old(data[i]))|
    ensures forall x :: 0 <= x < |Own(data[i])| ==> Own(data[i])[x] == PrefixDep(parentName, Own(old(data[i]))[x])
  {
    if parentName != "" {
      data[i] := data[i].(name := parentName + "/" + data[i].name);
      var deps := Own(data[i]);
      for x := 0 to |deps|
        invariant |deps| == |Own(data[i])|
        invariant forall m :: 0 <= m < x ==> deps[m] == PrefixDep(parentName, Own(data[i])[m])
        invariant forall m :: x <= m < |deps| ==> deps[m] == Own(data[i])[m]
      {
        deps := deps[x := deps[x].(job := parentName + "/" + deps[x].job)];
      }
      if data[i].dependsOn.Some? {
        data[i] := data[i].(dependsOn := Some(deps));
      }
    }
  }

  lemma {:induction false} ChildrenSnoc(jobs: seq<FlatJob>, i: nat)
    requires i < |jobs|
    ensures var deps := jobs[i].dependsOn;
      Children(jobs[..i + 1]) == Children(jobs[..i]) + set m | 0 <= m < |deps| :: deps[m].job
  {
    assert jobs[..i + 1] == jobs[..i] + [jobs[i]];
  }

  /**
   Hands the dependencies and the environment of the include `job` to the jobs of its compiled
   file, and collects the names somebody waits for.
   */
  method AdoptJobs(job: Node, compiled: seq<FlatJob>) returns (sub: seq<FlatJob>, jobWithChildren: set<string>)
    ensures sub == AdoptAll(compiled, Own(job), job.env)
    ensures jobWithChildren == Children(compiled)
  {
    sub, jobWithChildren := compiled, {};
    for i := 0 to |sub|
      invariant |sub| == |compiled|
      invariant forall k :: 0 <= k < i ==> sub[k] == Adopt(compiled[k], Own(job), job.env)
      invariant forall k :: i <= k < |sub| ==> sub[k] == compiled[k]
      invariant jobWithChildren == Children(compiled[..i])
    {
      var deps := sub[i].dependsOn;
      if |deps| == 0 {
        sub := sub[i := sub[i].(dependsOn := Own(job))];
      }
      ghost var before := jobWithChildren;
      for x := 0 to |deps|
        invariant jobWithChildren == before + set m | 0 <= m < x :: deps[m].job
      {
        jobWithChildren := jobWithChildren + {deps[x].job};
      }
      sub := sub[i := sub[i].(env := sub[i].env + job.env)];
      ChildrenSnoc(compiled, i);
    }
    assert compiled[..|sub|] == compiled;
  }

  /** Patches the compiled file of an include and appends the final wait job. */
  method CloseInclude(job: Node, compiled: seq<FlatJob>) returns (jobs: seq<FlatJob>)
    ensures jobs == AdoptAll(compiled, Own(job), job.env)
      + [FlatJob(job.name, Wait, FinalDeps(compiled, Children(compiled)), map[])]
  {
    var sub, jobWithChildren := AdoptJobs(job, compiled);
    var dependsOn: seq<DependsOn> := [];
    for i := 0 to |sub|
      invariant dependsOn == FinalDeps(compiled[..i], jobWithChildren)
    {
      assert compiled[..i + 1][..i] == compiled[..i];
      if sub[i].name !in jobWithChildren {
        dependsOn := dependsOn + [WaitFor(sub[i].name)];
      }
    }
    assert compiled[..|sub|] == compiled;
    jobs := sub + [FlatJob(job.name, Wait, dependsOn, map[])];
  }

  /** The runner's list equals the top-down description, for every tree of accepted files. */
  method GetJobList(data: array<Node>, parentName: string) returns (jobs: seq<FlatJob>)
    requires AcceptedTree(data[..])
    modifies data
    decreases data[..]
    ensures jobs == FlatFile(old(data[..]), parentName, [], map[])
  {
    hide FlatNode, AdoptAll, FinalDeps, Children;
    ghost var file := data[..];
    RewriteDependsOn(data);
    jobs := [];
    for i := 0 to data.Length
      invariant forall k :: i <= k < data.Length ==> data[k] == RewriteNode(file[k])
      invariant jobs == FlatFile(file[..i], parentName, [], map[])
    {
      FlatFileSnoc(file, i, parentName, [], map[]);
      Qualify(data, i, parentName);
      var job := data[i];
      assert Own(job) == OwnDeps(file[i], parentName);
      if job.Job? {
        JobClosed(file[i], job, parentName);
        jobs := jobs + [Compiled(job)];
        continue;
      }
      assert job.file == file[i].file;
      var yml := ParseInfraboxJson(job.file);
      var sub := GetJobList(yml, job.name);
      sub := CloseInclude(job, sub);
      IncludeClosed(file[i], parentName);
      jobs := jobs + sub;
    }
    assert file[..data.Length] == file;
  }

  /** A job that is no include is its own block. */
  lemma {:induction false} JobClosed(n: Node, job: Node, parent: string)
    requires n.Job? && job.Job? && job.name == Full(parent, n.name)
    requires job.kind == n.kind && job.env == n.env && Own(job) == OwnDeps(n, parent)
    ensures FlatNode(n, parent, [], map[]) == [Compiled(job)]
  {
    assert job.env + map[] == job.env;
  }

  lemma {:induction false} NoSinks(parent: string)
    ensures SinkDeps([], 0, parent) == []
  {
  }

  /** Patching the compiled file of an include yields the block of the include. */
  lemma {:induction false} IncludeClosed(n: Node, parent: string)
    requires n.Include? && AcceptedTree(n.file)
    ensures var compiled := FlatFile(n.file, Full(parent, n.name), [], map[]);
      AdoptAll(compiled, OwnDeps(n, parent), n.env)
        + [FlatJob(Full(parent, n.name), Wait, FinalDeps(compiled, Children(compiled)), map[])]
      == FlatNode(n, parent, [], map[])
  {
    hide FlatFile, FinalDeps, SinkDeps, AdoptAll, Children;
    var full := Full(parent, n.name);
    var compiled := FlatFile(n.file, full, [], map[]);
    var none: Env := map[];
    assert none + n.env == n.env == n.env + none;
    assert OwnDeps(n, parent) == DepsOf(n, parent, []);
    assert AdoptAll(compiled, OwnDeps(n, parent), n.env) == FlatFile(n.file, full, OwnDeps(n, parent), n.env) by {
      AdoptPushesDown(n.file, full, [], map[], OwnDeps(n, parent), n.env);
    }
    assert FinalDeps(compiled, Children(compiled)) == SinkDeps(n.file, |n.file|, full) by {
      FinalDepsAreSinks(n.file, |n.file|, full, map[]);
      assert n.file[..|n.file|] == n.file;
    }
    if n.file == [] {
      NoSinks(full);
    }
  }
}
