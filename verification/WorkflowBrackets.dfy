/**
 Includes are brackets in the flat dependency graph: everything inside an include comes after
 what the include depends on, its wait job comes after everything inside, and the rest of the
 build sees the wait job only.
 */
module WorkflowBrackets {
  import opened Base
  import opened Names
  import opened Infrabox
  import opened Workflow
  import opened WorkflowShape
  import opened WorkflowOrder

  /******* Reachability along dependencies *******/

  ghost predicate Edge(jobs: seq<FlatJob>, a: string, b: string) {
    exists j, x :: j in jobs && x in j.dependsOn && j.name == a && x.job == b
  }

  ghost predicate IsPath(jobs: seq<FlatJob>, path: seq<string>) {
    forall i :: 0 <= i < |path| - 1 ==> Edge(jobs, path[i], path[i + 1])
  }

  /** `a` waits for `b`, directly or through other jobs. */
  ghost predicate Reaches(jobs: seq<FlatJob>, a: string, b: string) {
    exists path :: |path| >= 2 && path[0] == a && path[|path| - 1] == b && IsPath(jobs, path)
  }

  lemma {:induction false} EdgeReaches(jobs: seq<FlatJob>, a: string, b: string)
    requires Edge(jobs, a, b)
    ensures Reaches(jobs, a, b)
  {
    assert IsPath(jobs, [a, b]);
  }

  lemma {:induction false} EdgeThenReaches(jobs: seq<FlatJob>, a: string, b: string, c: string)
    requires Edge(jobs, a, b) && Reaches(jobs, b, c)
    ensures Reaches(jobs, a, c)
  {
    var path :| |path| >= 2 && path[0] == b && path[|path| - 1] == c && IsPath(jobs, path);
    var longer := [a] + path;
    forall i | 0 <= i < |longer| - 1
      ensures Edge(jobs, longer[i], longer[i + 1])
    {
      if i > 0 {
        assert longer[i] == path[i - 1] && longer[i + 1] == path[i];
      }
    }
    assert IsPath(jobs, longer) && longer[0] == a && longer[|longer| - 1] == c;
  }

  lemma {:induction false} ReachesThenEdge(jobs: seq<FlatJob>, a: string, b: string, c: string)
    requires Reaches(jobs, a, b) && Edge(jobs, b, c)
    ensures Reaches(jobs, a, c)
  {
    var path :| |path| >= 2 && path[0] == a && path[|path| - 1] == b && IsPath(jobs, path);
    var longer := path + [c];
    forall i | 0 <= i < |longer| - 1
      ensures Edge(jobs, longer[i], longer[i + 1])
    {
      if i < |path| - 1 {
        assert longer[i] == path[i] && longer[i + 1] == path[i + 1];
      } else {
        assert longer[i] == b && longer[i + 1] == c;
      }
    }
    assert IsPath(jobs, longer) && longer[0] == a && longer[|longer| - 1] == c;
  }

  /******* What is inherited comes from outside *******/

  /** No inherited dependency names a job of the file included as `parent`. */
  ghost predicate FromOutside(file: seq<Node>, parent: string, d: seq<DependsOn>) {
    forall x, k :: x in d && 0 <= k < |file| ==> !InBlock(x.job, Full(parent, file[k].name))
  }

  lemma {:induction false} DepsFromOutside(file: seq<Node>, k: nat, parent: string, d: seq<DependsOn>)
    requires AcceptedTree(file) && k < |file| && FromOutside(file, parent, d)
    ensures forall x :: x in DepsOf(file[k], parent, d) ==> !InBlock(x.job, Full(parent, file[k].name))
    ensures file[k].Include? ==> FromOutside(file[k].file, Full(parent, file[k].name), DepsOf(file[k], parent, d))
  {
    var n := file[k];
    var full := Full(parent, n.name);
    assert ValidJob(n);
    forall x | x in DepsOf(n, parent, d)
      ensures !InBlock(x.job, full)
    {
      OwnDepsNames(n, parent, d, x);
      if x !in d {
        var i :| 0 <= i < |Own(n)| && x.job == Full(parent, Own(n)[i].job);
        SiblingNotInBlock(file, k, parent, Own(n)[i].job);
      }
    }
    if n.Include? {
      forall x, m | x in DepsOf(n, parent, d) && 0 <= m < |n.file|
        ensures !InBlock(x.job, Full(full, n.file[m].name))
      {
        FullNonEmpty(parent, n.name);
        if InBlock(x.job, Full(full, n.file[m].name)) {
          NestedBelow(x.job, full, n.file[m].name);
        }
      }
    }
  }

  /** A job another one of the same file depends on lies outside the block of the latter. */
  lemma {:induction false} SiblingNotInBlock(file: seq<Node>, k: nat, parent: string, name: string)
    requires Accepted(file) && k < |file|
    requires exists i :: 0 <= i < |Own(file[k])| && Own(file[k])[i].job == name
    ensures !InBlock(Full(parent, name), Full(parent, file[k].name))
    ensures ValidName(name)
  {
    assert ValidJob(file[k]) && Follows(file[k], file[..k]);
    var m :| 0 <= m < k && file[..k][m].name == name;
    assert ValidJob(file[m]);
    NamesDistinct(file, m, k);
    if InBlock(Full(parent, name), Full(parent, file[k].name)) {
      BlocksDisjoint(Full(parent, name), parent, name, file[k].name);
    }
  }

  /******* Everything inside comes after what the include depends on *******/

  /** Each job has exactly the inherited dependencies, or waits for an earlier job of the list. */
  ghost predicate EntryOrInner(jobs: seq<FlatJob>, d: seq<DependsOn>) {
    forall i :: 0 <= i < |jobs| ==>
      jobs[i].dependsOn == d || exists x :: x in jobs[i].dependsOn && x.job in NamesOf(jobs[..i])
  }

  /** The same for a list that is put after `jobs`. */
  ghost predicate EntryOrInnerAfter(jobs: seq<FlatJob>, block: seq<FlatJob>, d: seq<DependsOn>) {
    forall i :: 0 <= i < |block| ==>
      || block[i].dependsOn == d
      || exists x :: x in block[i].dependsOn && (x.job in NamesOf(jobs) || x.job in NamesOf(block[..i]))
  }

  lemma {:induction false} EntryOrInnerConcat(a: seq<FlatJob>, b: seq<FlatJob>, d: seq<DependsOn>)
    requires EntryOrInner(a, d) && EntryOrInnerAfter(a, b, d)
    ensures EntryOrInner(a + b, d)
  {
    var jobs := a + b;
    forall i | 0 <= i < |jobs|
      ensures jobs[i].dependsOn == d || exists x :: x in jobs[i].dependsOn && x.job in NamesOf(jobs[..i])
    {
      if i < |a| {
        assert jobs[..i] == a[..i];
      } else {
        assert jobs[..i] == a + b[..i - |a|];
      }
    }
  }

  lemma {:induction false} FileEntryOrInner(file: seq<Node>, parent: string, d: seq<DependsOn>, e: Env)
    requires AcceptedTree(file)
    ensures EntryOrInner(FlatFile(file, parent, d, e), d)
    decreases file
  {
    if file != [] {
      var k := |file| - 1;
      AcceptedTreePrefix(file, k);
      FileEntryOrInner(file[..k], parent, d, e);
      var prefix, block := FlatFile(file[..k], parent, d, e), FlatNode(file[k], parent, d, e);
      forall i | 0 <= i < |block|
        ensures || block[i].dependsOn == d
                || exists x :: x in block[i].dependsOn && (x.job in NamesOf(prefix) || x.job in NamesOf(block[..i]))
      {
        BlockEntryOrInner(file, k, parent, d, e, i);
      }
      EntryOrInnerConcat(prefix, block, d);
    }
  }

  lemma {:induction false} BlockEntryOrInner(file: seq<Node>, k: nat, parent: string, d: seq<DependsOn>,
      e: Env, i: nat)
    requires AcceptedTree(file) && k < |file|
    requires i < |FlatNode(file[k], parent, d, e)|
    ensures var block, prefix := FlatNode(file[k], parent, d, e), FlatFile(file[..k], parent, d, e);
      || block[i].dependsOn == d
      || exists x :: x in block[i].dependsOn && (x.job in NamesOf(prefix) || x.job in NamesOf(block[..i]))
    decreases file[k]
  {
    var n := file[k];
    var full := Full(parent, n.name);
    var deps := DepsOf(n, parent, d);
    var body := Body(n, parent, d, e);
    var block := FlatNode(n, parent, d, e);
    assert block == body + [block[|body|]];
    if i < |body| {
      FileEntryOrInner(n.file, full, deps, n.env + e);
      assert block[..i] == body[..i];
    } else if n.Include? && n.file != [] {
      SinkDepsNonEmpty(n.file, full);
      var x := SinkDeps(n.file, |n.file|, full)[0];
      SinkDepsTargets(n.file, |n.file|, full, x);
      var m :| 0 <= m < |n.file| && x == WaitFor(Full(full, n.file[m].name)) && IsSink(n.file, n.file[m].name);
      DeclaredIsCompiled(n.file, full, deps, n.env + e, n.file[m].name);
      assert block[..i] == body;
    }
    if block[i].dependsOn == deps != d {
      OwnDepsCompiled(file, k, parent, d, e, deps[0]);
    }
  }

  lemma {:induction false} OwnDepsCompiled(file: seq<Node>, k: nat, parent: string, d: seq<DependsOn>, e: Env,
      x: DependsOn)
    requires AcceptedTree(file) && k < |file|
    requires x in OwnDeps(file[k], parent)
    ensures x.job in NamesOf(FlatFile(file[..k], parent, d, e))
  {
    var i :| 0 <= i < |Own(file[k])| && x.job == Full(parent, Own(file[k])[i].job);
    assert Follows(file[k], file[..k]);
    DeclaredIsCompiled(file[..k], parent, d, e, Own(file[k])[i].job);
  }

  ghost predicate Contains(all: seq<FlatJob>, some: seq<FlatJob>) {
    forall j :: j in some ==> j in all
  }

  /** From each job of such a list one gets to each inherited dependency. */
  lemma {:induction false} InnerReachesInherited(all: seq<FlatJob>, jobs: seq<FlatJob>, d: seq<DependsOn>, i: nat,
      x: DependsOn)
    requires EntryOrInner(jobs, d) && Contains(all, jobs)
    requires i < |jobs| && x in d
    ensures Reaches(all, jobs[i].name, x.job)
    decreases i
  {
    assert jobs[i] in all;
    if jobs[i].dependsOn == d {
      assert Edge(all, jobs[i].name, x.job);
      EdgeReaches(all, jobs[i].name, x.job);
    } else {
      var y :| y in jobs[i].dependsOn && y.job in NamesOf(jobs[..i]);
      var j :| j in jobs[..i] && j.name == y.job;
      var m :| 0 <= m < i && jobs[..i][m] == j;
      InnerReachesInherited(all, jobs, d, m, x);
      assert Edge(all, jobs[i].name, y.job);
      EdgeThenReaches(all, jobs[i].name, y.job, x.job);
    }
  }

  /******* The wait job comes after everything inside *******/

  lemma {:induction false} WaitReachesBody(all: seq<FlatJob>, file: seq<Node>, k: nat, parent: string,
      d: seq<DependsOn>, e: Env, i: nat)
    requires AcceptedTree(file) && k < |file| && FromOutside(file, parent, d)
    requires Contains(all, FlatNode(file[k], parent, d, e))
    requires i < |Body(file[k], parent, d, e)|
    ensures Reaches(all, Full(parent, file[k].name), Body(file[k], parent, d, e)[i].name)
    decreases |Body(file[k], parent, d, e)| - i
  {
    var n := file[k];
    var full := Full(parent, n.name);
    var deps := DepsOf(n, parent, d);
    var body := Body(n, parent, d, e);
    var block := FlatNode(n, parent, d, e);
    assert block == body + [block[|body|]];
    assert ValidJob(n);
    BodyWaited(n, parent, d, e, body[i]);
    var j, x :| j in block && x in j.dependsOn && x.job == body[i].name;
    assert Edge(all, j.name, body[i].name);
    if j.name == full {
      EdgeReaches(all, full, body[i].name);
    } else {
      assert j in body;
      var m :| 0 <= m < |body| && body[m] == j;
      FlatFileOrdered(n.file, full, deps, n.env + e);
      NamesInBlock(n, parent, d, e, body[i]);
      DepsFromOutside(file, k, parent, d);
      var y :| y in body[..m] && y.name == body[i].name;
      var h :| 0 <= h < m && body[h] == y;
      FlatFileUnique(n.file, full, deps, n.env + e);
      assert h == i;
      WaitReachesBody(all, file, k, parent, d, e, m);
      ReachesThenEdge(all, full, j.name, body[i].name);
    }
  }

  /******* The rest of the build sees the wait job only *******/

  /** No job outside the compiled file waits for a job strictly inside one of its includes. */
  ghost predicate Sealed(all: seq<FlatJob>, file: seq<Node>, parent: string, d: seq<DependsOn>, e: Env) {
    forall j, x, k :: j in all && j !in FlatFile(file, parent, d, e) && x in j.dependsOn && 0 <= k < |file| ==>
      !Below(x.job, Full(parent, file[k].name))
  }

  ghost predicate EnteredThroughWait(all: seq<FlatJob>, n: Node, parent: string, d: seq<DependsOn>, e: Env) {
    forall j, x :: j in all && j !in FlatNode(n, parent, d, e) && x in j.dependsOn ==>
      !Below(x.job, Full(parent, n.name))
  }

  lemma {:induction false} BlockEntry(all: seq<FlatJob>, file: seq<Node>, k: nat, parent: string, d: seq<DependsOn>,
      e: Env)
    requires AcceptedTree(file) && k < |file| && FromOutside(file, parent, d)
    requires Sealed(all, file, parent, d, e)
    ensures EnteredThroughWait(all, file[k], parent, d, e)
  {
    var full := Full(parent, file[k].name);
    forall j, x | j in all && j !in FlatNode(file[k], parent, d, e) && x in j.dependsOn
      ensures !Below(x.job, full)
    {
      if j in FlatFile(file, parent, d, e) {
        var m := FindBlock(file, parent, d, e, j);
        assert ValidJob(file[m]) && m != k;
        BlockTargets(file[m], parent, d, e, j, x);
        TargetNotBelow(file, m, k, parent, d, x.job);
      }
    }
  }

  lemma {:induction false} TargetNotBelow(file: seq<Node>, m: nat, k: nat, parent: string, d: seq<DependsOn>,
      name: string)
    requires AcceptedTree(file) && k < |file| && m < |file| && m != k && FromOutside(file, parent, d)
    requires Target(file[m], parent, d, name)
    ensures !Below(name, Full(parent, file[k].name))
  {
    assert ValidJob(file[m]) && ValidJob(file[k]);
    NamesDistinct(file, m, k);
    if Below(name, Full(parent, file[m].name)) {
      if Below(name, Full(parent, file[k].name)) {
        BlocksDisjoint(name, parent, file[m].name, file[k].name);
      }
    } else if y :| y in KeptDepJobs(file[m]) && name == Full(parent, y) {
      var i :| 0 <= i < |Own(file[m])| && Own(file[m])[i].job == y;
      SiblingNotInBlock(file, m, parent, y);
      DirectNotBelow(parent, y, file[k].name);
    }
  }

  /** A direct job of a file is not strictly below any job of that file. */
  lemma {:induction false} DirectNotBelow(parent: string, a: string, b: string)
    requires ValidName(a) && ValidName(b)
    ensures !Below(Full(parent, a), Full(parent, b))
  {
    if Below(Full(parent, a), Full(parent, b)) {
      BlocksDisjoint(Full(parent, a), parent, a, b);
    }
  }

  lemma {:induction false} BodySealed(all: seq<FlatJob>, file: seq<Node>, k: nat, parent: string, d: seq<DependsOn>,
      e: Env)
    requires AcceptedTree(file) && k < |file| && file[k].Include?
    requires EnteredThroughWait(all, file[k], parent, d, e)
    ensures Sealed(all, file[k].file, Full(parent, file[k].name), DepsOf(file[k], parent, d), file[k].env + e)
  {
    var n := file[k];
    var full := Full(parent, n.name);
    var body := Body(n, parent, d, e);
    var block := FlatNode(n, parent, d, e);
    assert block == body + [block[|body|]];
    assert ValidJob(n);
    forall j, x, m | j in all && j !in body && x in j.dependsOn && 0 <= m < |n.file|
      ensures !Below(x.job, Full(full, n.file[m].name))
    {
      assert ValidJob(n.file[m]);
      if j in block {
        SinkDepsTargets(n.file, |n.file|, full, x);
        var i :| 0 <= i < |n.file| && x == WaitFor(Full(full, n.file[i].name)) && IsSink(n.file, n.file[i].name);
        assert ValidJob(n.file[i]);
        DirectNotBelow(full, n.file[i].name, n.file[m].name);
      } else if Below(x.job, Full(full, n.file[m].name)) {
        FullNonEmpty(parent, n.name);
        NestedBelow(x.job, full, n.file[m].name);
      }
    }
  }

  /******* Includes of an empty file *******/

  /** Dependencies lead to strictly earlier jobs. */
  lemma {:induction false} PathGoesBack(jobs: seq<FlatJob>, path: seq<string>, i: nat)
    requires Topological(jobs) && UniqueNames(jobs) && IsPath(jobs, path)
    requires |path| >= 2 && i < |jobs| && jobs[i].name == path[0]
    ensures DeclaredBefore(jobs, i, path[|path| - 1])
    decreases |path|
  {
    assert Edge(jobs, path[0], path[1]);
    var j, x :| j in jobs && x in j.dependsOn && j.name == path[0] && x.job == path[1];
    SameNameSameJob(jobs, j, jobs[i]);
    assert DeclaredBefore(jobs, i, path[1]);
    if |path| > 2 {
      var k :| 0 <= k < i && jobs[k].name == path[1];
      var rest := path[1..];
      forall m | 0 <= m < |rest| - 1
        ensures Edge(jobs, rest[m], rest[m + 1])
      {
        assert rest[m] == path[m + 1] && rest[m + 1] == path[m + 2];
      }
      PathGoesBack(jobs, rest, k);
    }
  }

  /** The wait job of an include of an empty file never gets to a dependency of the include. */
  lemma {:induction false} EmptyIncludeUngated(all: seq<FlatJob>, before: seq<FlatJob>, after: seq<FlatJob>,
      file: seq<Node>, k: nat,
      parent: string, d: seq<DependsOn>, e: Env, x: DependsOn)
    requires AcceptedTree(file) && k < |file| && FromOutside(file, parent, d)
    requires all == before + FlatFile(file, parent, d, e) + after
    requires Topological(all) && UniqueNames(all)
    requires forall y :: y in d ==> y.job in NamesOf(before)
    requires file[k].Include? && file[k].file == [] && x in OwnDeps(file[k], parent)
    ensures !Reaches(all, Full(parent, file[k].name), x.job)
  {
    var full := Full(parent, file[k].name);
    if Reaches(all, full, x.job) {
      var path :| |path| >= 2 && path[0] == full && path[|path| - 1] == x.job && IsPath(all, path);
      assert Edge(all, full, path[1]);
      var i := EmptyWaitLooksBack(all, before, after, file, k, parent, d, e, path[1]);
      TailGoesBack(all, path, i);
      OwnDepLate(all, before, after, file, k, parent, d, e, x);
    }
  }

  lemma {:induction false} EmptyIncludeBlock(file: seq<Node>, k: nat, parent: string, d: seq<DependsOn>, e: Env)
    requires k < |file| && file[k].Include? && file[k].file == []
    ensures FlatJob(Full(parent, file[k].name), Wait, d, e) in FlatFile(file, parent, d, e)
  {
    var wait := FlatJob(Full(parent, file[k].name), Wait, d, e);
    assert FlatNode(file[k], parent, d, e) == [wait];
    BlockInFile(file, k, parent, d, e, wait);
  }

  lemma {:induction false} EmptyWaitLooksBack(all: seq<FlatJob>, before: seq<FlatJob>, after: seq<FlatJob>,
      file: seq<Node>, k: nat,
      parent: string, d: seq<DependsOn>, e: Env, next: string) returns (i: nat)
    requires k < |file| && all == before + FlatFile(file, parent, d, e) + after
    requires UniqueNames(all)
    requires forall y :: y in d ==> y.job in NamesOf(before)
    requires file[k].Include? && file[k].file == []
    requires Edge(all, Full(parent, file[k].name), next)
    ensures i < |before| && before[i].name == next
  {
    var full := Full(parent, file[k].name);
    EmptyIncludeBlock(file, k, parent, d, e);
    assert FlatJob(full, Wait, d, e) in all;
    var j, y :| j in all && y in j.dependsOn && j.name == full && y.job == next;
    SameNameSameJob(all, j, FlatJob(full, Wait, d, e));
    var b :| b in before && b.name == next;
    i :| 0 <= i < |before| && before[i] == b;
  }

  lemma {:induction false} OwnDepLate(all: seq<FlatJob>, before: seq<FlatJob>, after: seq<FlatJob>, file: seq<Node>,
      k: nat,
      parent: string, d: seq<DependsOn>, e: Env, x: DependsOn)
    requires AcceptedTree(file) && k < |file|
    requires all == before + FlatFile(file, parent, d, e) + after
    requires UniqueNames(all) && x in OwnDeps(file[k], parent)
    ensures forall i :: 0 <= i < |before| ==> all[i].name != x.job
  {
    OwnDepsCompiled(file, k, parent, d, e, x);
    PrefixInside(file, k, parent, d, e);
    var t :| t in FlatFile(file[..k], parent, d, e) && t.name == x.job;
    var h :| 0 <= h < |FlatFile(file, parent, d, e)| && FlatFile(file, parent, d, e)[h] == t;
    assert all[|before| + h].name == x.job;
  }

  lemma {:induction false} TailGoesBack(jobs: seq<FlatJob>, path: seq<string>, i: nat)
    requires Topological(jobs) && UniqueNames(jobs) && IsPath(jobs, path)
    requires |path| >= 2 && i < |jobs| && jobs[i].name == path[1]
    ensures exists t :: 0 <= t <= i && jobs[t].name == path[|path| - 1]
  {
    if |path| > 2 {
      var rest := path[1..];
      forall m | 0 <= m < |rest| - 1
        ensures Edge(jobs, rest[m], rest[m + 1])
      {
        assert rest[m] == path[m + 1] && rest[m + 1] == path[m + 2];
      }
      PathGoesBack(jobs, rest, i);
    }
  }

  lemma {:induction false} PrefixInside(file: seq<Node>, k: nat, parent: string, d: seq<DependsOn>, e: Env)
    requires k <= |file|
    ensures Contains(FlatFile(file, parent, d, e), FlatFile(file[..k], parent, d, e))
  {
    CompiledPrefix(file, k, parent, d, e);
    PrefixContained(FlatFile(file[..k], parent, d, e), FlatFile(file, parent, d, e));
  }

  lemma {:induction false} PrefixContained(a: seq<FlatJob>, b: seq<FlatJob>)
    requires a <= b
    ensures Contains(b, a)
  {
    assert forall i :: 0 <= i < |a| ==> b[i] == a[i];
  }

  lemma {:induction false} PrefixGrows(a: seq<FlatJob>, b: seq<FlatJob>, c: seq<FlatJob>)
    requires a <= b
    ensures a <= b + c
  {
  }

  lemma {:induction false} CompiledPrefix(file: seq<Node>, k: nat, parent: string, d: seq<DependsOn>, e: Env)
    requires k <= |file|
    ensures FlatFile(file[..k], parent, d, e) <= FlatFile(file, parent, d, e)
  {
    PrefixCompiled(file, k, |file|, parent, d, e);
    assert file[..|file|] == file;
  }

  /** The compiled form of a prefix of a file is a prefix of the compiled form. */
  lemma {:induction false} PrefixCompiled(file: seq<Node>, k: nat, m: nat, parent: string, d: seq<DependsOn>,
      e: Env)
    requires k <= m <= |file|
    ensures FlatFile(file[..k], parent, d, e) <= FlatFile(file[..m], parent, d, e)
  {
    hide *;
    if k < m {
      PrefixCompiled(file, k, m - 1, parent, d, e);
      FlatFileSnoc(file, m - 1, parent, d, e);
      PrefixGrows(FlatFile(file[..k], parent, d, e), FlatFile(file[..m - 1], parent, d, e),
        FlatNode(file[m - 1], parent, d, e));
    }
  }

  /******* Every include of a build is a bracket *******/

  /** The dependencies by which the block of the include `n` hangs on the rest of the list. */
  function LeadingOut(n: Node, parent: string, d: seq<DependsOn>): seq<DependsOn>
    requires n.Include?
  {
    if n.file == [] then d else DepsOf(n, parent, d)
  }

  /** What holds of the include `n` of the file included as `parent` in the list `all`. */
  ghost predicate Bracketed(all: seq<FlatJob>, n: Node, parent: string, d: seq<DependsOn>, e: Env)
    requires n.Include?
  {
    var full, deps := Full(parent, n.name), DepsOf(n, parent, d);
    var block, body := FlatNode(n, parent, d, e), Body(n, parent, d, e);
    // every job inside waits for every dependency of the include
    && (forall j, x :: j in body && x in deps ==> Reaches(all, j.name, x.job))
    // so does the wait job, unless there is nothing inside
    && (forall x :: x in OwnDeps(n, parent) ==> (Reaches(all, full, x.job) <==> n.file != []))
    // the wait job waits for everything inside
    && (forall j :: j in body ==> Reaches(all, full, j.name))
    // only dependencies of the include lead out, or what the wait job of an empty include inherits
    && (forall j, x :: j in block && x in j.dependsOn ==> x in LeadingOut(n, parent, d) || x.job in NamesOf(block))
    // and only the wait job leads in
    && (forall j, x :: j in all && j !in block && x in j.dependsOn ==> x.job !in NamesOf(body))
  }

  ghost predicate AllBracketed(all: seq<FlatJob>, file: seq<Node>, parent: string, d: seq<DependsOn>, e: Env)
    decreases file
  {
    forall k :: 0 <= k < |file| && file[k].Include? ==>
      && Bracketed(all, file[k], parent, d, e)
      && AllBracketed(all, file[k].file, Full(parent, file[k].name), DepsOf(file[k], parent, d), file[k].env + e)
  }

  lemma {:induction false} IncludeIsBracket(all: seq<FlatJob>, before: seq<FlatJob>, after: seq<FlatJob>,
      file: seq<Node>, k: nat,
      parent: string, d: seq<DependsOn>, e: Env)
    requires AcceptedTree(file) && k < |file| && file[k].Include? && FromOutside(file, parent, d)
    requires all == before + FlatFile(file, parent, d, e) + after
    requires Topological(all) && UniqueNames(all) && Sealed(all, file, parent, d, e)
    requires forall y :: y in d ==> y.job in NamesOf(before)
    ensures Bracketed(all, file[k], parent, d, e)
  {
    var n := file[k];
    forall j | j in FlatNode(n, parent, d, e)
      ensures j in all
    {
      BlockInFile(file, k, parent, d, e, j);
    }
    InsideComesAfter(all, file, k, parent, d, e);
    forall x | x in OwnDeps(n, parent)
      ensures Reaches(all, Full(parent, n.name), x.job) <==> n.file != []
    {
      if n.file == [] {
        EmptyIncludeUngated(all, before, after, file, k, parent, d, e, x);
      } else {
        WaitReachesOwn(all, n, parent, d, e, x);
      }
    }
    forall j, x | j in FlatNode(n, parent, d, e) && x in j.dependsOn
      ensures x in LeadingOut(n, parent, d) || x.job in NamesOf(FlatNode(n, parent, d, e))
    {
      LeavesThroughDeps(file, k, parent, d, e, j, x);
    }
    BlockEntry(all, file, k, parent, d, e);
    forall name | name in NamesOf(Body(n, parent, d, e))
      ensures Below(name, Full(parent, n.name))
    {
      var j :| j in Body(n, parent, d, e) && j.name == name;
      assert ValidJob(n);
      NamesInBlock(n, parent, d, e, j);
    }
  }

  lemma {:induction false} InsideComesAfter(all: seq<FlatJob>, file: seq<Node>, k: nat, parent: string,
      d: seq<DependsOn>, e: Env)
    requires AcceptedTree(file) && k < |file| && file[k].Include? && FromOutside(file, parent, d)
    requires Contains(all, FlatNode(file[k], parent, d, e))
    ensures forall j, x :: j in Body(file[k], parent, d, e) && x in DepsOf(file[k], parent, d) ==>
      Reaches(all, j.name, x.job)
    ensures forall j :: j in Body(file[k], parent, d, e) ==> Reaches(all, Full(parent, file[k].name), j.name)
  {
    var n := file[k];
    var full, deps := Full(parent, n.name), DepsOf(n, parent, d);
    var block, body := FlatNode(n, parent, d, e), Body(n, parent, d, e);
    assert block == body + [block[|body|]];
    FileEntryOrInner(n.file, full, deps, n.env + e);
    forall j, x | j in body && x in deps
      ensures Reaches(all, j.name, x.job)
    {
      var i :| 0 <= i < |body| && body[i] == j;
      InnerReachesInherited(all, body, deps, i, x);
    }
    forall j | j in body
      ensures Reaches(all, full, j.name)
    {
      var i :| 0 <= i < |body| && body[i] == j;
      WaitReachesBody(all, file, k, parent, d, e, i);
    }
  }

  /** The wait job of a non-empty include waits for some job inside. */
  lemma {:induction false} WaitHasInner(n: Node, parent: string, d: seq<DependsOn>, e: Env) returns (i: nat)
    requires n.Include? && AcceptedTree(n.file) && n.file != []
    ensures i < |Body(n, parent, d, e)|
    ensures var body := Body(n, parent, d, e);
      exists s :: s in FlatNode(n, parent, d, e)[|body|].dependsOn && s.job == body[i].name
  {
    var full, deps := Full(parent, n.name), DepsOf(n, parent, d);
    var body := Body(n, parent, d, e);
    var last := n.file[|n.file| - 1].name;
    LastIsSink(n.file);
    var s := WaitFor(Full(full, last));
    assert s in SinkDeps(n.file, |n.file|, full);
    DeclaredIsCompiled(n.file, full, deps, n.env + e, last);
    i := JobAt(body, s.job);
  }

  lemma {:induction false} JobAt(jobs: seq<FlatJob>, name: string) returns (i: nat)
    requires name in NamesOf(jobs)
    ensures i < |jobs| && jobs[i].name == name
  {
    var j :| j in jobs && j.name == name;
    i :| 0 <= i < |jobs| && jobs[i] == j;
  }

  lemma {:induction false} WaitReachesOwn(all: seq<FlatJob>, n: Node, parent: string, d: seq<DependsOn>, e: Env,
      x: DependsOn)
    requires n.Include? && AcceptedTree(n.file) && n.file != []
    requires Contains(all, FlatNode(n, parent, d, e)) && x in OwnDeps(n, parent)
    ensures Reaches(all, Full(parent, n.name), x.job)
  {
    var full, deps := Full(parent, n.name), DepsOf(n, parent, d);
    var block, body := FlatNode(n, parent, d, e), Body(n, parent, d, e);
    assert block == body + [block[|body|]];
    FileEntryOrInner(n.file, full, deps, n.env + e);
    var i := WaitHasInner(n, parent, d, e);
    InnerReachesInherited(all, body, deps, i, x);
    assert block[|body|] in all;
    EdgeThenReaches(all, full, body[i].name, x.job);
  }

  lemma {:induction false} LeavesThroughDeps(file: seq<Node>, k: nat, parent: string, d: seq<DependsOn>, e: Env,
      j: FlatJob, x: DependsOn)
    requires AcceptedTree(file) && k < |file| && file[k].Include?
    requires j in FlatNode(file[k], parent, d, e) && x in j.dependsOn
    ensures x in LeadingOut(file[k], parent, d) || x.job in NamesOf(FlatNode(file[k], parent, d, e))
  {
    var n := file[k];
    var full, deps := Full(parent, n.name), DepsOf(n, parent, d);
    var block, body := FlatNode(n, parent, d, e), Body(n, parent, d, e);
    assert block == body + [block[|body|]];
    assert Contains(block, body);
    if j in body {
      FlatFileOrdered(n.file, full, deps, n.env + e);
      var i :| 0 <= i < |body| && body[i] == j;
      assert x in deps || x.job in NamesOf(body[..i]);
      assert Contains(body, body[..i]);
    } else if n.file != [] {
      SinkDepsTargets(n.file, |n.file|, full, x);
      var m :| 0 <= m < |n.file| && x == WaitFor(Full(full, n.file[m].name)) && IsSink(n.file, n.file[m].name);
      DeclaredIsCompiled(n.file, full, deps, n.env + e, n.file[m].name);
    }
  }

  lemma {:induction false} BracketsHold(all: seq<FlatJob>, before: seq<FlatJob>, after: seq<FlatJob>, file: seq<Node>,
      parent: string, d: seq<DependsOn>, e: Env)
    requires AcceptedTree(file) && FromOutside(file, parent, d)
    requires all == before + FlatFile(file, parent, d, e) + after
    requires Topological(all) && UniqueNames(all) && Sealed(all, file, parent, d, e)
    requires forall y :: y in d ==> y.job in NamesOf(before)
    ensures AllBracketed(all, file, parent, d, e)
    decreases file
  {
    forall k | 0 <= k < |file| && file[k].Include?
      ensures Bracketed(all, file[k], parent, d, e)
      ensures AllBracketed(all, file[k].file, Full(parent, file[k].name), DepsOf(file[k], parent, d), file[k].env + e)
    {
      var n := file[k];
      IncludeIsBracket(all, before, after, file, k, parent, d, e);
      BlockEntry(all, file, k, parent, d, e);
      BodySealed(all, file, k, parent, d, e);
      DepsFromOutside(file, k, parent, d);
      var pre, post := AroundBody(all, before, after, file, k, parent, d, e);
      BracketsHold(all, pre, post, n.file, Full(parent, n.name), DepsOf(n, parent, d), n.env + e);
    }
  }

  lemma {:induction false} Regroup<T>(a: seq<T>, b: seq<T>, c: seq<T>, w: T, r: seq<T>, z: seq<T>)
    ensures a + (b + (c + [w]) + r) + z == (a + b) + c + ([w] + r + z)
  {
  }

  /** The position of the jobs of an included file in the whole list. */
  lemma {:induction false} AroundBody(all: seq<FlatJob>, before: seq<FlatJob>, after: seq<FlatJob>, file: seq<Node>,
      k: nat,
      parent: string, d: seq<DependsOn>, e: Env) returns (pre: seq<FlatJob>, post: seq<FlatJob>)
    requires AcceptedTree(file) && k < |file| && file[k].Include?
    requires all == before + FlatFile(file, parent, d, e) + after
    requires forall y :: y in d ==> y.job in NamesOf(before)
    ensures all == pre + Body(file[k], parent, d, e) + post
    ensures forall y :: y in DepsOf(file[k], parent, d) ==> y.job in NamesOf(pre)
  {
    var prefix := FlatFile(file[..k], parent, d, e);
    var rest := FileSplit(file, k, parent, d, e);
    var block, body := FlatNode(file[k], parent, d, e), Body(file[k], parent, d, e);
    assert block == body + [block[|body|]];
    pre, post := before + prefix, [block[|body|]] + rest + after;
    Regroup(before, prefix, body, block[|body|], rest, after);
    assert NamesOf(pre) == NamesOf(before) + NamesOf(prefix);
    forall y | y in DepsOf(file[k], parent, d)
      ensures y.job in NamesOf(pre)
    {
      OwnDepsEarlier(file, k, parent, d, e, y);
    }
  }

  lemma {:induction false} SplitOff(a: seq<FlatJob>, all: seq<FlatJob>) returns (rest: seq<FlatJob>)
    requires a <= all
    ensures all == a + rest
  {
    rest := all[|a|..];
  }

  lemma {:induction false} FileSplit(file: seq<Node>, k: nat, parent: string, d: seq<DependsOn>, e: Env)
      returns (rest: seq<FlatJob>)
    requires k < |file|
    ensures FlatFile(file, parent, d, e)
         == FlatFile(file[..k], parent, d, e) + FlatNode(file[k], parent, d, e) + rest
  {
    CompiledPrefix(file, k + 1, parent, d, e);
    FlatFileSnoc(file, k, parent, d, e);
    rest := SplitOff(FlatFile(file[..k], parent, d, e) + FlatNode(file[k], parent, d, e), FlatFile(file, parent, d, e));
  }

  /** Main result: every include of a build, at any depth, is a bracket of the flat list. */
  lemma {:induction false} FlatIsBracketed(file: seq<Node>)
    requires AcceptedTree(file)
    ensures AllBracketed(Flat(file), file, "", [], map[])
  {
    FlatIsTopological(file);
    FlatFileUnique(file, "", [], map[]);
    assert [] + Flat(file) + [] == Flat(file);
    BracketsHold(Flat(file), [], [], file, "", [], map[]);
  }
}
