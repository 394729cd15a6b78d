/** The shape of the flat list: where names lie, what waits for what, and in which order. */
module WorkflowShape {
  import opened Base
  import opened Names
  import opened Infrabox
  import opened Workflow

  /******* Jobs and blocks *******/

  /** Each job of a compiled file lies in the block of some job of the file ... */
  lemma {:induction false} FindBlock(file: seq<Node>, parent: string, d: seq<DependsOn>, e: Env, j: FlatJob)
      returns (k: nat)
    requires j in FlatFile(file, parent, d, e)
    ensures k < |file| && j in FlatNode(file[k], parent, d, e)
    decreases |file|
  {
    hide FlatNode;
    k := |file| - 1;
    if j !in FlatNode(file[k], parent, d, e) {
      k := FindBlock(file[..k], parent, d, e, j);
    }
  }

  /** ... and each block is part of the compiled file. */
  lemma {:induction false} BlockInFile(file: seq<Node>, k: nat, parent: string, d: seq<DependsOn>, e: Env,
      j: FlatJob)
    requires k < |file| && j in FlatNode(file[k], parent, d, e)
    ensures j in FlatFile(file, parent, d, e)
    decreases |file|
  {
    hide FlatNode;
    var last := |file| - 1;
    if k < last {
      BlockInFile(file[..last], k, parent, d, e, j);
    }
  }

  /** The file whose jobs make up the block of `n`, apart from the last one. */
  function Body(n: Node, parent: string, d: seq<DependsOn>, e: Env): (body: seq<FlatJob>)
    ensures |FlatNode(n, parent, d, e)| == |body| + 1
    ensures FlatNode(n, parent, d, e)[..|body|] == body
    ensures FlatNode(n, parent, d, e)[|body|].name == Full(parent, n.name)
  {
    if n.Include? then FlatFile(n.file, Full(parent, n.name), DepsOf(n, parent, d), n.env + e) else []
  }

  lemma {:induction false} NamesInBlock(n: Node, parent: string, d: seq<DependsOn>, e: Env, j: FlatJob)
    requires ValidName(n.name) && (n.Include? ==> AcceptedTree(n.file))
    ensures j in FlatNode(n, parent, d, e) ==> InBlock(j.name, Full(parent, n.name))
    ensures j in Body(n, parent, d, e) ==> Below(j.name, Full(parent, n.name)) && j.name != Full(parent, n.name)
    decreases n
  {
    var full := Full(parent, n.name);
    var block := FlatNode(n, parent, d, e);
    var body := Body(n, parent, d, e);
    assert block == body + [block[|body|]];
    if n.Include? && j in body {
      var k := FindBlock(n.file, full, DepsOf(n, parent, d), n.env + e, j);
      NamesInBlock(n.file[k], full, DepsOf(n, parent, d), n.env + e, j);
      FullNonEmpty(parent, n.name);
      NestedBelow(j.name, full, n.file[k].name);
    }
  }

  /** There is nothing the first job of a file could depend on. */
  lemma {:induction false} FirstOwnsNothing(file: seq<Node>)
    requires Accepted(file) && file != []
    ensures Own(file[0]) == []
  {
    assert Follows(file[0], file[..0]);
    if Own(file[0]) != [] {
      DependsOnEarlier(file[0], file[..0]);
    }
  }

  lemma {:induction false} DependsOnEarlier(n: Node, earlier: seq<Node>)
    requires Follows(n, earlier) && Own(n) != []
    ensures earlier != []
  {
    assert Declares(earlier, Own(n)[0].job);
  }

  /** The first job of a compiled non-empty file is an entry job. */
  lemma {:induction false} FirstInherits(file: seq<Node>, parent: string, d: seq<DependsOn>, e: Env)
    requires AcceptedTree(file) && file != []
    ensures |FlatFile(file, parent, d, e)| > 0
    ensures FlatFile(file, parent, d, e)[0].dependsOn == d
    decreases file
  {
    var k := |file| - 1;
    if k > 0 {
      AcceptedTreePrefix(file, k);
      FirstInherits(file[..k], parent, d, e);
    } else {
      assert FlatFile(file[..k], parent, d, e) == [];
      FirstOwnsNothing(file);
      var n := file[0];
      var block := FlatNode(n, parent, d, e);
      var body := Body(n, parent, d, e);
      assert FlatFile(file, parent, d, e) == block == body + [block[|body|]];
      if n.Include? && n.file != [] {
        FirstInherits(n.file, Full(parent, n.name), DepsOf(n, parent, d), n.env + e);
        assert block[0] == body[0];
      }
    }
  }

  /******* What the jobs of a block wait for *******/

  /** A name that some job of the block of `n` may wait for. */
  ghost predicate Target(n: Node, parent: string, d: seq<DependsOn>, name: string) {
    || (exists x :: x in d && x.job == name)
    || (exists x :: x in KeptDepJobs(n) && name == Full(parent, x))
    || Below(name, Full(parent, n.name))
  }

  /** `x` is the dependency on some sink among the first `k` jobs. */
  ghost predicate SinkTarget(file: seq<Node>, k: nat, parent: string, x: DependsOn)
    requires k <= |file|
  {
    exists i :: 0 <= i < k && x == WaitFor(Full(parent, file[i].name)) && IsSink(file, file[i].name)
  }

  lemma {:induction false} SinkDepsTargets(file: seq<Node>, k: nat, parent: string, x: DependsOn)
    requires k <= |file|
    ensures x in SinkDeps(file, k, parent) <==> SinkTarget(file, k, parent, x)
  {
    hide IsSink;
    if k > 0 {
      SinkDepsTargets(file, k - 1, parent, x);
      var sink := IsSink(file, file[k - 1].name);
      var here := sink && x == WaitFor(Full(parent, file[k - 1].name));
      assert SinkTarget(file, k, parent, x) <==> SinkTarget(file, k - 1, parent, x) || here;
      assert x in SinkDeps(file, k, parent) <==> x in SinkDeps(file, k - 1, parent) || here;
    }
  }

  lemma {:induction false} BlockTargets(n: Node, parent: string, d: seq<DependsOn>, e: Env,
      j: FlatJob, x: DependsOn)
    requires ValidName(n.name) && (n.Include? ==> AcceptedTree(n.file))
    requires j in FlatNode(n, parent, d, e) && x in j.dependsOn
    ensures Target(n, parent, d, x.job)
    decreases n
  {
    var full := Full(parent, n.name);
    var deps := DepsOf(n, parent, d);
    var body := Body(n, parent, d, e);
    var block := FlatNode(n, parent, d, e);
    assert block == body + [block[|body|]];
    if n.Job? {
      OwnDepsNames(n, parent, d, x);
    } else if j in body {
      var k := FindBlock(n.file, full, deps, n.env + e, j);
      assert ValidJob(n.file[k]);
      BlockTargets(n.file[k], full, deps, n.env + e, j, x);
      InnerTarget(n, parent, d, n.file[k], x.job);
    } else if n.file != [] {
      SinkDepsTargets(n.file, |n.file|, full, x);
      var i :| 0 <= i < |n.file| && x == WaitFor(Full(full, n.file[i].name)) && IsSink(n.file, n.file[i].name);
      FullNonEmpty(parent, n.name);
      NestedBelow(x.job, full, n.file[i].name);
    }
  }

  lemma {:induction false} OwnDepsNames(n: Node, parent: string, d: seq<DependsOn>, x: DependsOn)
    requires x in DepsOf(n, parent, d)
    ensures x in d || exists i :: 0 <= i < |Own(n)| && x.job == Full(parent, Own(n)[i].job)
    ensures (n.Include? ==> n.file != []) ==> x in d || exists y :: y in KeptDepJobs(n) && x.job == Full(parent, y)
  {
    if Own(n) != [] {
      var i :| 0 <= i < |Own(n)| && x == OwnDeps(n, parent)[i];
      assert x.job == Full(parent, Own(n)[i].job);
      assert DepJobs(Own(n))[i] == Own(n)[i].job;
    }
  }

  lemma {:induction false} InnerTarget(n: Node, parent: string, d: seq<DependsOn>, m: Node, name: string)
    requires n.Include? && m in n.file && ValidName(n.name)
    requires Target(m, Full(parent, n.name), DepsOf(n, parent, d), name)
    ensures Target(n, parent, d, name)
  {
    var full := Full(parent, n.name);
    FullNonEmpty(parent, n.name);
    if x :| x in DepsOf(n, parent, d) && x.job == name {
      OwnDepsNames(n, parent, d, x);
    } else if x :| x in KeptDepJobs(m) && name == Full(full, x) {
      assert full + "/" == name[..|full| + 1];
    } else {
      assert full + "/" == Full(full, m.name)[..|full| + 1];
      assert name[..|full| + 1] == full + "/";
    }
  }

  /** A dependency that `n` keeps is waited for by some job of its block. */
  lemma {:induction false} KeptIsWaited(n: Node, parent: string, d: seq<DependsOn>, e: Env, x: string)
    requires n.Include? ==> AcceptedTree(n.file)
    requires x in KeptDepJobs(n)
    ensures Waits(FlatNode(n, parent, d, e), Full(parent, x))
  {
    var i :| 0 <= i < |Own(n)| && Own(n)[i].job == x;
    var dep := OwnDeps(n, parent)[i];
    assert dep in DepsOf(n, parent, d) && dep.job == Full(parent, x);
    var block := FlatNode(n, parent, d, e);
    if n.Include? {
      FirstInherits(n.file, Full(parent, n.name), DepsOf(n, parent, d), n.env + e);
    }
    assert block[0] in block && dep in block[0].dependsOn;
  }

  /** Each job of a compiled file is waited for by another one, or is a sink of the file itself. */
  lemma {:induction false} Covered(file: seq<Node>, parent: string, d: seq<DependsOn>, e: Env, j: FlatJob)
    requires AcceptedTree(file)
    requires j in FlatFile(file, parent, d, e)
    ensures || Waits(FlatFile(file, parent, d, e), j.name)
            || exists k :: 0 <= k < |file| && j.name == Full(parent, file[k].name) && IsSink(file, file[k].name)
    decreases file
  {
    var k := FindBlock(file, parent, d, e, j);
    var n := file[k];
    assert ValidJob(n);
    var body := Body(n, parent, d, e);
    var block := FlatNode(n, parent, d, e);
    assert block == body + [block[|body|]];
    if j in body {
      BodyWaited(n, parent, d, e, j);
      WaitsInFile(file, k, parent, d, e, j.name);
    } else if !IsSink(file, n.name) {
      var m :| 0 <= m < |file| && n.name in KeptDepJobs(file[m]);
      KeptIsWaited(file[m], parent, d, e, n.name);
      WaitsInFile(file, m, parent, d, e, j.name);
    }
  }

  /** Inside the block of an include every job but the final one is waited for. */
  lemma {:induction false} BodyWaited(n: Node, parent: string, d: seq<DependsOn>, e: Env, j: FlatJob)
    requires n.Include? ==> AcceptedTree(n.file)
    requires j in Body(n, parent, d, e)
    ensures Waits(FlatNode(n, parent, d, e), j.name)
    decreases n
  {
    var full := Full(parent, n.name);
    var body := Body(n, parent, d, e);
    var block := FlatNode(n, parent, d, e);
    assert block == body + [block[|body|]];
    Covered(n.file, full, DepsOf(n, parent, d), n.env + e, j);
    if !Waits(body, j.name) {
      var i :| 0 <= i < |n.file| && j.name == Full(full, n.file[i].name) && IsSink(n.file, n.file[i].name);
      SinkDepsTargets(n.file, |n.file|, full, WaitFor(j.name));
      assert block[|body|] in block && WaitFor(j.name) in block[|body|].dependsOn;
    }
  }

  lemma {:induction false} WaitsInFile(file: seq<Node>, k: nat, parent: string, d: seq<DependsOn>, e: Env, name: string)
    requires k < |file|
    requires Waits(FlatNode(file[k], parent, d, e), name)
    ensures Waits(FlatFile(file, parent, d, e), name)
  {
    var j, x :| j in FlatNode(file[k], parent, d, e) && x in j.dependsOn && x.job == name;
    BlockInFile(file, k, parent, d, e, j);
  }

  /** In a file compiled without inheritance, a job of the file is waited for iff it is no sink. */
  lemma {:induction false} WaitedIffNoSink(file: seq<Node>, k: nat, parent: string, e: Env)
    requires AcceptedTree(file) && k < |file|
    ensures Waits(FlatFile(file, parent, [], e), Full(parent, file[k].name)) <==> !IsSink(file, file[k].name)
  {
    var full := Full(parent, file[k].name);
    assert ValidJob(file[k]);
    if Waits(FlatFile(file, parent, [], e), full) {
      var j, x :| j in FlatFile(file, parent, [], e) && x in j.dependsOn && x.job == full;
      var m := FindBlock(file, parent, [], e, j);
      assert ValidJob(file[m]);
      BlockTargets(file[m], parent, [], e, j, x);
      if Below(full, Full(parent, file[m].name)) {
        BlocksDisjoint(full, parent, file[k].name, file[m].name);
      }
      var y :| y in KeptDepJobs(file[m]) && full == Full(parent, y);
      FullInjective(parent, y, file[k].name);
    }
    if !IsSink(file, file[k].name) {
      var m :| 0 <= m < |file| && file[k].name in KeptDepJobs(file[m]);
      KeptIsWaited(file[m], parent, [], e, file[k].name);
      WaitsInFile(file, m, parent, [], e, full);
    }
  }

  /** The names nothing in a compiled file waits for are exactly the sinks of the file. */
  lemma {:induction false} FinalDepsAreSinks(file: seq<Node>, k: nat, parent: string, e: Env)
    requires AcceptedTree(file) && k <= |file|
    ensures FinalDeps(FlatFile(file[..k], parent, [], e), Children(FlatFile(file, parent, [], e)))
         == SinkDeps(file, k, parent)
  {
    if k > 0 {
      var m := k - 1;
      FinalDepsAreSinks(file, m, parent, e);
      ChildrenOfBlock(file, m, parent, e);
      FinalDepsSnoc(file, m, parent, e, Children(FlatFile(file, parent, [], e)));
    }
  }

  /** Of the block of job `k` all jobs are waited for, except perhaps the last one. */
  ghost predicate BlockHasChildren(file: seq<Node>, k: nat, parent: string, e: Env, children: set<string>)
    requires k < |file|
  {
    && (forall j :: j in Body(file[k], parent, [], e) ==> j.name in children)
    && (Full(parent, file[k].name) in children <==> !IsSink(file, file[k].name))
  }

  lemma {:induction false} ChildrenOfBlock(file: seq<Node>, k: nat, parent: string, e: Env)
    requires AcceptedTree(file) && k < |file|
    ensures BlockHasChildren(file, k, parent, e, Children(FlatFile(file, parent, [], e)))
  {
    forall j | j in Body(file[k], parent, [], e)
      ensures j.name in Children(FlatFile(file, parent, [], e))
    {
      InnerHasChild(file, k, parent, e, j);
    }
    LastHasChild(file, k, parent, e);
  }

  lemma {:induction false} FinalDepsSnoc(file: seq<Node>, k: nat, parent: string, e: Env, children: set<string>)
    requires k < |file| && BlockHasChildren(file, k, parent, e, children)
    requires FinalDeps(FlatFile(file[..k], parent, [], e), children) == SinkDeps(file, k, parent)
    ensures FinalDeps(FlatFile(file[..k + 1], parent, [], e), children) == SinkDeps(file, k + 1, parent)
  {
    FlatFileSnoc(file, k, parent, [], e);
    FinalDepsConcat(FlatFile(file[..k], parent, [], e), FlatNode(file[k], parent, [], e), children);
    BlockParts(file[k], parent, [], e);
    var body := Body(file[k], parent, [], e);
    LastFinal(body, FlatNode(file[k], parent, [], e)[|body|], children);
  }

  lemma {:induction false} BlockParts(n: Node, parent: string, d: seq<DependsOn>, e: Env)
    ensures var body, block := Body(n, parent, d, e), FlatNode(n, parent, d, e);
      block == body + [block[|body|]] && block[|body|].name == Full(parent, n.name)
  {
  }

  /** Of a block at most the last job is a sink of the list. */
  lemma {:induction false} LastFinal(body: seq<FlatJob>, last: FlatJob, children: set<string>)
    requires forall i :: 0 <= i < |body| ==> body[i].name in children
    ensures FinalDeps(body + [last], children) == if last.name in children then [] else [WaitFor(last.name)]
  {
    FinalDepsConcat(body, [last], children);
    FinalDepsNone(body, children);
    SingleFinal(last, children);
  }

  lemma {:induction false} InnerHasChild(file: seq<Node>, k: nat, parent: string, e: Env, j: FlatJob)
    requires AcceptedTree(file) && k < |file| && j in Body(file[k], parent, [], e)
    ensures j.name in Children(FlatFile(file, parent, [], e))
  {
    BodyWaited(file[k], parent, [], e, j);
    WaitsInFile(file, k, parent, [], e, j.name);
  }

  lemma {:induction false} LastHasChild(file: seq<Node>, k: nat, parent: string, e: Env)
    requires AcceptedTree(file) && k < |file|
    ensures Full(parent, file[k].name) in Children(FlatFile(file, parent, [], e)) <==> !IsSink(file, file[k].name)
  {
    WaitedIffNoSink(file, k, parent, e);
    WaitedIsChild(FlatFile(file, parent, [], e), Full(parent, file[k].name));
  }

  lemma {:induction false} WaitedIsChild(jobs: seq<FlatJob>, name: string)
    ensures name in Children(jobs) <==> Waits(jobs, name)
  {
  }

  lemma {:induction false} SingleFinal(j: FlatJob, withChildren: set<string>)
    ensures FinalDeps([j], withChildren) == if j.name in withChildren then [] else [WaitFor(j.name)]
  {
    assert FinalDeps([j][..0], withChildren) == [];
  }
}
