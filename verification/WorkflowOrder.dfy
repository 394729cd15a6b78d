/** The flat list is closed and topologically ordered, its names are unique, its conditions explicit. */
module WorkflowOrder {
  import opened Base
  import opened Names
  import opened Infrabox
  import opened Workflow
  import opened WorkflowShape

  function NamesOf(jobs: seq<FlatJob>): set<string> {
    set j | j in jobs :: j.name
  }

  /** Each dependency is inherited, names a job of `before`, or names a job strictly earlier in the list. */
  ghost predicate Ordered(jobs: seq<FlatJob>, inherited: seq<DependsOn>, before: set<string>) {
    forall i, x :: 0 <= i < |jobs| && x in jobs[i].dependsOn ==>
      x in inherited || x.job in before || x.job in NamesOf(jobs[..i])
  }

  lemma {:induction false} OrderedConcat(a: seq<FlatJob>, b: seq<FlatJob>, inherited: seq<DependsOn>,
      before: set<string>)
    requires Ordered(a, inherited, before)
    requires Ordered(b, inherited, before + NamesOf(a))
    ensures Ordered(a + b, inherited, before)
  {
    forall i, x | 0 <= i < |a + b| && x in (a + b)[i].dependsOn
      ensures x in inherited || x.job in before || x.job in NamesOf((a + b)[..i])
    {
      if i < |a| {
        assert (a + b)[..i] == a[..i];
      } else {
        assert (a + b)[..i] == a + b[..i - |a|];
      }
    }
  }

  /** A name declared in the file is the name of a job of the compiled file. */
  lemma {:induction false} DeclaredIsCompiled(file: seq<Node>, parent: string, d: seq<DependsOn>, e: Env, name: string)
    requires Declares(file, name)
    ensures Full(parent, name) in NamesOf(FlatFile(file, parent, d, e))
  {
    var k :| 0 <= k < |file| && file[k].name == name;
    var block := FlatNode(file[k], parent, d, e);
    var j := block[|Body(file[k], parent, d, e)|];
    BlockInFile(file, k, parent, d, e, j);
  }

  lemma {:induction false} FlatFileOrdered(file: seq<Node>, parent: string, d: seq<DependsOn>, e: Env)
    requires AcceptedTree(file)
    ensures Ordered(FlatFile(file, parent, d, e), d, {})
    decreases file
  {
    if file != [] {
      var k := |file| - 1;
      AcceptedTreePrefix(file, k);
      FlatFileOrdered(file[..k], parent, d, e);
      var prefix := FlatFile(file[..k], parent, d, e);
      BlockOrdered(file, k, parent, d, e);
      assert {} + NamesOf(prefix) == NamesOf(prefix);
      OrderedConcat(prefix, FlatNode(file[k], parent, d, e), d, {});
    }
  }

  lemma {:induction false} BlockOrdered(file: seq<Node>, k: nat, parent: string, d: seq<DependsOn>, e: Env)
    requires AcceptedTree(file) && k < |file|
    ensures Ordered(FlatNode(file[k], parent, d, e), d, NamesOf(FlatFile(file[..k], parent, d, e)))
    decreases file[k]
  {
    var n := file[k];
    var full := Full(parent, n.name);
    var deps := DepsOf(n, parent, d);
    var before := NamesOf(FlatFile(file[..k], parent, d, e));
    var body := Body(n, parent, d, e);
    var block := FlatNode(n, parent, d, e);
    assert block == body + [block[|body|]];
    if n.Include? {
      FlatFileOrdered(n.file, full, deps, n.env + e);
    }
    forall i, x | 0 <= i < |block| && x in block[i].dependsOn
      ensures x in d || x.job in before || x.job in NamesOf(block[..i])
    {
      if x in deps {
        OwnDepsEarlier(file, k, parent, d, e, x);
      } else if i < |body| {
        assert block[..i] == body[..i];
      } else if n.Include? && n.file != [] {
        SinkDepsTargets(n.file, |n.file|, full, x);
        var m :| 0 <= m < |n.file| && x == WaitFor(Full(full, n.file[m].name)) && IsSink(n.file, n.file[m].name);
        DeclaredIsCompiled(n.file, full, deps, n.env + e, n.file[m].name);
      }
    }
  }

  lemma {:induction false} OwnDepsEarlier(file: seq<Node>, k: nat, parent: string, d: seq<DependsOn>, e: Env,
      x: DependsOn)
    requires AcceptedTree(file) && k < |file|
    requires x in DepsOf(file[k], parent, d)
    ensures x in d || x.job in NamesOf(FlatFile(file[..k], parent, d, e))
  {
    if Own(file[k]) != [] {
      OwnDepsNames(file[k], parent, [], x);
      var i :| 0 <= i < |Own(file[k])| && x.job == Full(parent, Own(file[k])[i].job);
      assert Follows(file[k], file[..k]);
      DeclaredIsCompiled(file[..k], parent, d, e, Own(file[k])[i].job);
    }
  }

  ghost predicate DeclaredBefore(jobs: seq<FlatJob>, i: nat, name: string)
    requires i <= |jobs|
  {
    exists k :: 0 <= k < i && jobs[k].name == name
  }

  /** Every dependency of every job names a job strictly earlier in the list. */
  ghost predicate Topological(jobs: seq<FlatJob>) {
    forall i, x :: 0 <= i < |jobs| && x in jobs[i].dependsOn ==> DeclaredBefore(jobs, i, x.job)
  }

  lemma {:induction false} FlatIsTopological(file: seq<Node>)
    requires AcceptedTree(file)
    ensures Topological(Flat(file))
  {
    FlatFileOrdered(file, "", [], map[]);
    var jobs := Flat(file);
    forall i, x | 0 <= i < |jobs| && x in jobs[i].dependsOn
      ensures DeclaredBefore(jobs, i, x.job)
    {
      var j :| j in jobs[..i] && j.name == x.job;
      var k :| 0 <= k < i && jobs[..i][k] == j;
      assert jobs[k].name == x.job;
    }
  }

  /******* Unique names *******/

  ghost predicate UniqueNames(jobs: seq<FlatJob>) {
    forall i, j :: 0 <= i < j < |jobs| ==> jobs[i].name != jobs[j].name
  }

  lemma {:induction false} UniqueConcat(a: seq<FlatJob>, b: seq<FlatJob>)
    requires UniqueNames(a) && UniqueNames(b)
    requires forall x, y :: x in a && y in b ==> x.name != y.name
    ensures UniqueNames(a + b)
  {
  }

  /** Two blocks of a file have no name in common. */
  lemma {:induction false} BlocksApart(file: seq<Node>, k: nat, parent: string, d: seq<DependsOn>, e: Env,
      x: FlatJob, y: FlatJob)
    requires AcceptedTree(file) && k < |file|
    requires x in FlatFile(file[..k], parent, d, e) && y in FlatNode(file[k], parent, d, e)
    ensures x.name != y.name
  {
    var i := FindBlock(file[..k], parent, d, e, x);
    assert file[..k][i] == file[i] && ValidJob(file[i]) && ValidJob(file[k]);
    NamesInBlock(file[i], parent, d, e, x);
    NamesInBlock(file[k], parent, d, e, y);
    NamesDistinct(file, i, k);
    if x.name == y.name {
      BlocksDisjoint(x.name, parent, file[i].name, file[k].name);
    }
  }

  /** No two jobs of the list share a name, wait jobs included, at any nesting depth. */
  lemma {:induction false} FlatFileUnique(file: seq<Node>, parent: string, d: seq<DependsOn>, e: Env)
    requires AcceptedTree(file)
    ensures UniqueNames(FlatFile(file, parent, d, e))
    decreases file
  {
    if file != [] {
      var k := |file| - 1;
      AcceptedTreePrefix(file, k);
      FlatFileUnique(file[..k], parent, d, e);
      assert ValidJob(file[k]);
      BlockUnique(file[k], parent, d, e);
      var a, b := FlatFile(file[..k], parent, d, e), FlatNode(file[k], parent, d, e);
      forall x, y | x in a && y in b
        ensures x.name != y.name
      {
        BlocksApart(file, k, parent, d, e, x, y);
      }
      UniqueConcat(a, b);
    }
  }

  lemma {:induction false} BlockUnique(n: Node, parent: string, d: seq<DependsOn>, e: Env)
    requires ValidName(n.name) && (n.Include? ==> AcceptedTree(n.file))
    ensures UniqueNames(FlatNode(n, parent, d, e))
    decreases n
  {
    var body := Body(n, parent, d, e);
    if n.Include? {
      FlatFileUnique(n.file, Full(parent, n.name), DepsOf(n, parent, d), n.env + e);
    }
    forall i | 0 <= i < |body|
      ensures body[i].name != Full(parent, n.name)
    {
      NamesInBlock(n, parent, d, e, body[i]);
    }
    var block := FlatNode(n, parent, d, e);
    assert block == body + [block[|body|]];
  }

  lemma {:induction false} SameNameSameJob(jobs: seq<FlatJob>, a: FlatJob, b: FlatJob)
    requires UniqueNames(jobs) && a in jobs && b in jobs && a.name == b.name
    ensures a == b
  {
    var i :| 0 <= i < |jobs| && jobs[i] == a;
    var j :| 0 <= j < |jobs| && jobs[j] == b;
    assert i < j || j < i || i == j;
  }

  /******* Explicit conditions *******/

  /** The condition is a non-empty list of states. */
  ghost predicate Explicit(x: DependsOn) {
    x.on.Some? && x.on.value != [] && forall v :: v in x.on.value ==> v.Is?
  }

  lemma {:induction false} RewriteIsExplicit(x: DependsOn)
    requires ValidDependsOn(x)
    ensures Explicit(RewriteDep(x))
  {
    if x.on.Some? && Star !in x.on.value {
      forall v | v in x.on.value
        ensures v.Is?
      {
        var i :| 0 <= i < |x.on.value| && x.on.value[i] == v;
        assert OnAllowed(x.on.value[i]);
      }
    }
  }

  lemma {:induction false} FlatFileExplicit(file: seq<Node>, parent: string, d: seq<DependsOn>, e: Env,
      j: FlatJob, x: DependsOn)
    requires AcceptedTree(file)
    requires j in FlatFile(file, parent, d, e) && x in j.dependsOn
    ensures x in d || Explicit(x)
    decreases file
  {
    var k := FindBlock(file, parent, d, e, j);
    assert ValidJob(file[k]);
    BlockExplicit(file[k], parent, d, e, j, x);
  }

  lemma {:induction false} BlockExplicit(n: Node, parent: string, d: seq<DependsOn>, e: Env,
      j: FlatJob, x: DependsOn)
    requires ValidJob(n) && (n.Include? ==> AcceptedTree(n.file))
    requires j in FlatNode(n, parent, d, e) && x in j.dependsOn
    ensures x in d || Explicit(x)
    decreases n
  {
    var full := Full(parent, n.name);
    var deps := DepsOf(n, parent, d);
    var body := Body(n, parent, d, e);
    var block := FlatNode(n, parent, d, e);
    assert block == body + [block[|body|]];
    if n.Include? && j !in body {
      if n.file != [] {
        SinkDepsTargets(n.file, |n.file|, full, x);
      }
    } else {
      if n.Include? {
        FlatFileExplicit(n.file, full, deps, n.env + e, j, x);
      }
      if x in deps {
        OwnDepsExplicit(n, parent, d, x);
      }
    }
  }

  lemma {:induction false} OwnDepsExplicit(n: Node, parent: string, d: seq<DependsOn>, x: DependsOn)
    requires ValidJob(n) && x in DepsOf(n, parent, d)
    ensures x in d || Explicit(x)
  {
    if Own(n) != [] {
      var i :| 0 <= i < |Own(n)| && x == PrefixDep(parent, RewriteDep(Own(n)[i]));
      RewriteIsExplicit(Own(n)[i]);
      assert x.on == RewriteDep(Own(n)[i]).on;
    }
  }
}
