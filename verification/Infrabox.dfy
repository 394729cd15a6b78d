/**
 Job files (`infrabox.json`) and the validator that every file passes before it is compiled.
 Types are taken for granted: the checks that a JSON value is a string, a list or an object
 are settled by the datatypes.
 */
module Infrabox {
  import opened Base
  import opened Names

  /** Environment variables. */
  type Env = map<string, string>

  datatype JobKind = Docker | DockerImage | DockerCompose | Wait

  /**
   One element of `jobs`.  An include is a job of type `workflow` or `git`; `file` is the
   list of jobs of the file it names.  A `workflow` has no environment of its own.
   */
  datatype Node =
    | Job(name: string, dependsOn: Option<seq<DependsOn>>, env: Env, kind: JobKind)
    | Include(name: string, dependsOn: Option<seq<DependsOn>>, env: Env, file: seq<Node>)

  const CREATE_JOBS := "Create Jobs"

  /** The `depends_on` list of a job, empty if the job has none. */
  function Own(n: Node): seq<DependsOn> {
    if n.dependsOn.Some? then n.dependsOn.value else []
  }

  /******* What an accepted file guarantees *******/

  predicate OnAllowed(v: OnValue) {
    v == Is(Finished) || v == Is(JobState.Error) || v == Is(JobState.Failure) || v == Star
  }

  ghost predicate ValidOn(on: seq<OnValue>) {
    on != [] && NoDuplicates(on) && forall i :: 0 <= i < |on| ==> OnAllowed(on[i])
  }

  ghost predicate ValidDependsOn(d: DependsOn) {
    ValidName(d.job) && (d.on.Some? ==> ValidOn(d.on.value))
  }

  /** The checks on one job that need no other job. */
  ghost predicate ValidJob(n: Node) {
    && ValidName(n.name)
    && (n.dependsOn.Some? ==>
          && n.dependsOn.value != []
          && forall i :: 0 <= i < |n.dependsOn.value| ==> ValidDependsOn(n.dependsOn.value[i]))
  }

  function DepJobs(ds: seq<DependsOn>): (names: seq<string>) {
    seq(|ds|, i requires 0 <= i < |ds| => ds[i].job)
  }

  predicate Declares(file: seq<Node>, name: string) {
    exists i :: 0 <= i < |file| && file[i].name == name
  }

  /** Job `n` may follow the jobs `earlier`: a fresh name, and dependencies on earlier jobs only. */
  ghost predicate Follows(n: Node, earlier: seq<Node>) {
    && !Declares(earlier, n.name)
    && n.name != CREATE_JOBS
    && (forall i :: 0 <= i < |Own(n)| ==> Declares(earlier, Own(n)[i].job))
    && NoDuplicates(DepJobs(Own(n)))
  }

  ghost predicate Accepted(file: seq<Node>) {
    forall i :: 0 <= i < |file| ==> ValidJob(file[i]) && Follows(file[i], file[..i])
  }

  /** Every file of the include tree is accepted. */
  ghost predicate AcceptedTree(file: seq<Node>) {
    && Accepted(file)
    && forall i :: 0 <= i < |file| ==> file[i].Include? ==> AcceptedTree(file[i].file)
  }

  /******* The validator *******/

  const NAME_CHARS := {
    'a', 'b', 'c', 'd', 'e', 'f', 'g', 'h', 'i', 'j', 'k', 'l', 'm',
    'n', 'o', 'p', 'q', 'r', 's', 't', 'u', 'v', 'w', 'x', 'y', 'z',
    '0', '1', '2', '3', '4', '5', '6', '7', '8', '9', '_', '-'
  }

  lemma {:induction false} NameAlphabet(c: char)
    ensures NameChar(c) <==> c in NAME_CHARS
  {
  }

  method CheckName(n: string) returns (r: Result<()>)
    ensures r.Ok? <==> ValidName(n)
    ensures r.Ok? <==> n != "" && forall i :: 0 <= i < |n| ==> n[i] in NAME_CHARS
  {
    hide NameChar;
    if n == "" {
      return Err("empty string not allowed");
    }
    for i := 0 to |n|
      invariant forall k :: 0 <= k < i ==> NameChar(n[k]) && n[k] in NAME_CHARS
    {
      NameAlphabet(n[i]);
      if !NameChar(n[i]) {
        return Err("not a valid value");
      }
    }
    r := Ok(());
  }

  method ParseDependsOnCondition(job: string, on: seq<OnValue>) returns (r: Result<()>)
    ensures r.Ok? <==> ValidName(job) && ValidOn(on)
    ensures r.Ok? <==>
      && ValidName(job) && on != [] && NoDuplicates(on)
      && forall i :: 0 <= i < |on| ==> on[i] in {Is(Finished), Is(JobState.Error), Is(JobState.Failure), Star}
  {
    r := CheckName(job);
    if r.Err? {
      return;
    }
    if on == [] {
      return Err("must not be empty");
    }
    var onUsed: set<OnValue> := {};
    for i := 0 to |on|
      invariant NoDuplicates(on[..i])
      invariant forall k :: 0 <= k < i ==> OnAllowed(on[k])
      invariant onUsed == set k | 0 <= k < i :: on[k]
    {
      if !OnAllowed(on[i]) {
        return Err("not a valid value");
      }
      if on[i] in onUsed {
        ghost var k :| 0 <= k < i && on[k] == on[i];
        return Err("used twice");
      }
      onUsed := onUsed + {on[i]};
    }
    assert on[..|on|] == on;
  }

  method ParseDependsOn(ds: seq<DependsOn>) returns (r: Result<()>)
    ensures r.Ok? <==> ds != [] && forall i :: 0 <= i < |ds| ==> ValidDependsOn(ds[i])
  {
    if ds == [] {
      return Err("must not be empty");
    }
    for i := 0 to |ds|
      invariant forall k :: 0 <= k < i ==> ValidDependsOn(ds[k])
    {
      if ds[i].on.Some? {
        r := ParseDependsOnCondition(ds[i].job, ds[i].on.value);
      } else {
        r := CheckName(ds[i].job);
      }
      if r.Err? {
        return;
      }
    }
    r := Ok(());
  }

  method ParseJobs(file: seq<Node>) returns (r: Result<()>)
    ensures r.Ok? <==> forall i :: 0 <= i < |file| ==> ValidJob(file[i])
  {
    for i := 0 to |file|
      invariant forall k :: 0 <= k < i ==> ValidJob(file[k])
    {
      r := CheckName(file[i].name);
      if r.Ok? && file[i].dependsOn.Some? {
        r := ParseDependsOn(file[i].dependsOn.value);
      }
      if r.Err? {
        return;
      }
    }
    r := Ok(());
  }

  /** Rejects a job whose dependencies are not distinct earlier jobs; `jobs` holds the names so far. */
  method CheckDependencies(n: Node, jobs: set<string>, ghost earlier: seq<Node>) returns (r: Result<()>)
    requires forall s :: s in jobs <==> s == n.name || Declares(earlier, s)
    requires !Declares(earlier, n.name)
    ensures r.Ok? <==>
      (forall i :: 0 <= i < |Own(n)| ==> Declares(earlier, Own(n)[i].job)) && NoDuplicates(DepJobs(Own(n)))
  {
    var ds := Own(n);
    var deps: set<string> := {};
    for i := 0 to |ds|
      invariant forall k :: 0 <= k < i ==> Declares(earlier, ds[k].job)
      invariant deps == set k | 0 <= k < i :: ds[k].job
      invariant forall k, l :: 0 <= k < l < i ==> ds[k].job != ds[l].job
    {
      var parent := ds[i].job;
      if n.name == parent {
        return Err("may not depend on itself");
      }
      if parent !in jobs {
        return Err("job not found");
      }
      if parent in deps {
        ghost var k :| 0 <= k < i && ds[k].job == parent;
        assert DepJobs(ds)[k] == DepJobs(ds)[i];
        return Err("duplicate dependencies");
      }
      deps := deps + {parent};
    }
    r := Ok(());
  }

  method ValidateJson(file: seq<Node>) returns (r: Result<()>)
    ensures r.Ok? <==> Accepted(file)
  {
    hide ValidJob, DepJobs, NoDuplicates;
    r := ParseJobs(file);
    if r.Err? {
      return;
    }
    var jobs: set<string> := {};
    for i := 0 to |file|
      invariant forall k :: 0 <= k < i ==> Follows(file[k], file[..k])
      invariant forall s :: s in jobs <==> Declares(file[..i], s)
    {
      var name := file[i].name;
      if name in jobs {
        return Err("job name already exists");
      }
      if name == CREATE_JOBS {
        return Err("job name may not be 'Create Jobs'");
      }
      jobs := jobs + {name};
      DeclaresSnoc(file, i);
      r := CheckDependencies(file[i], jobs, file[..i]);
      if r.Err? {
        return;
      }
    }
    r := Ok(());
  }

  lemma {:induction false} DeclaresSnoc(file: seq<Node>, i: nat)
    requires i < |file|
    ensures forall s :: Declares(file[..i + 1], s) <==> s == file[i].name || Declares(file[..i], s)
  {
    assert file[..i + 1] == file[..i] + [file[i]];
    forall s
      ensures Declares(file[..i + 1], s) <==> s == file[i].name || Declares(file[..i], s)
    {
      if Declares(file[..i], s) {
        var k :| 0 <= k < i && file[k].name == s;
        assert file[..i + 1][k].name == s;
      }
      if s == file[i].name {
        assert file[..i + 1][i].name == s;
      }
    }
  }

  /******* Consequences *******/

  lemma {:induction false} AcceptedPrefix(file: seq<Node>, k: nat)
    requires Accepted(file) && k <= |file|
    ensures Accepted(file[..k])
  {
    forall i | 0 <= i < k
      ensures ValidJob(file[..k][i]) && Follows(file[..k][i], file[..k][..i])
    {
      assert file[..k][..i] == file[..i];
    }
  }

  lemma {:induction false} AcceptedTreePrefix(file: seq<Node>, k: nat)
    requires AcceptedTree(file) && k <= |file|
    ensures AcceptedTree(file[..k])
  {
    AcceptedPrefix(file, k);
    forall i | 0 <= i < k && file[..k][i].Include?
      ensures AcceptedTree(file[..k][i].file)
    {
      assert file[..k][i] == file[i];
    }
  }

  /** What acceptance means, word by word. */
  lemma {:induction false} AcceptedMeans(file: seq<Node>)
    ensures Accepted(file) <==>
      forall i :: 0 <= i < |file| ==>
        && ValidName(file[i].name)
        && (forall k :: 0 <= k < i ==> file[k].name != file[i].name)
        && (file[i].dependsOn.Some? ==> AcceptedDeps(file[..i], file[i].dependsOn.value))
  {
    forall i | 0 <= i < |file|
      ensures ValidJob(file[i]) && Follows(file[i], file[..i]) <==>
        && ValidName(file[i].name)
        && (forall k :: 0 <= k < i ==> file[k].name != file[i].name)
        && (file[i].dependsOn.Some? ==> AcceptedDeps(file[..i], file[i].dependsOn.value))
    {
      FollowsMeans(file[i], file[..i]);
      assert forall k :: 0 <= k < i ==> file[..i][k] == file[k];
    }
  }

  /** Dependencies on earlier jobs, none twice, each with distinct values of the four that are known. */
  ghost predicate AcceptedDeps(earlier: seq<Node>, ds: seq<DependsOn>) {
    && ds != []
    && (forall x, y :: 0 <= x < y < |ds| ==> ds[x].job != ds[y].job)
    && forall x :: 0 <= x < |ds| ==>
         && ValidName(ds[x].job)
         && (exists k :: 0 <= k < |earlier| && earlier[k].name == ds[x].job)
         && (ds[x].on.Some? ==>
               && ds[x].on.value != [] && NoDuplicates(ds[x].on.value)
               && forall v :: v in ds[x].on.value ==>
                    v in {Is(Finished), Is(JobState.Error), Is(JobState.Failure), Star})
  }

  lemma {:induction false} FollowsMeans(n: Node, earlier: seq<Node>)
    ensures ValidJob(n) && Follows(n, earlier) <==>
      && ValidName(n.name)
      && (forall k :: 0 <= k < |earlier| ==> earlier[k].name != n.name)
      && (n.dependsOn.Some? ==> AcceptedDeps(earlier, n.dependsOn.value))
  {
    hide AcceptedDeps, ValidDependsOn, NoDuplicates;
    if ValidName(n.name) {
      assert NameChar(n.name[0]);
      assert n.name[0] != CREATE_JOBS[0];
    }
    if n.dependsOn.Some? {
      DepsMean(earlier, n.dependsOn.value);
    } else {
      NoneTwice();
    }
  }

  lemma {:induction false} NoneTwice()
    ensures NoDuplicates(DepJobs([]))
  {
  }

  lemma {:induction false} DepsMean(earlier: seq<Node>, ds: seq<DependsOn>)
    ensures AcceptedDeps(earlier, ds) <==>
      && ds != [] && NoDuplicates(DepJobs(ds))
      && forall x :: 0 <= x < |ds| ==> ValidDependsOn(ds[x]) && Declares(earlier, ds[x].job)
  {
    hide ValidOn, ValidName;
    assert NoDuplicates(DepJobs(ds)) <==> forall x, y :: 0 <= x < y < |ds| ==> ds[x].job != ds[y].job by {
      assert forall x :: 0 <= x < |ds| ==> DepJobs(ds)[x] == ds[x].job;
    }
    forall x | 0 <= x < |ds| && ds[x].on.Some?
      ensures ValidOn(ds[x].on.value) <==>
        && ds[x].on.value != [] && NoDuplicates(ds[x].on.value)
        && forall v :: v in ds[x].on.value ==> v in {Is(Finished), Is(JobState.Error), Is(JobState.Failure), Star}
    {
      ValidOnMeans(ds[x].on.value);
    }
  }

  lemma {:induction false} ValidOnMeans(on: seq<OnValue>)
    ensures ValidOn(on) <==>
      && on != [] && NoDuplicates(on)
      && forall v :: v in on ==> v in {Is(Finished), Is(JobState.Error), Is(JobState.Failure), Star}
  {
    assert forall v :: OnAllowed(v) <==> v in {Is(Finished), Is(JobState.Error), Is(JobState.Failure), Star};
    assert forall i :: 0 <= i < |on| ==> on[i] in on;
  }

  /** Names within one accepted file are pairwise distinct. */
  lemma {:induction false} NamesDistinct(file: seq<Node>, i: nat, j: nat)
    requires Accepted(file) && i < |file| && j < |file| && i != j
    ensures file[i].name != file[j].name
  {
    var lo, hi := if i < j then i else j, if i < j then j else i;
    assert Follows(file[hi], file[..hi]);
    assert file[..hi][lo].name == file[lo].name;
  }
}
