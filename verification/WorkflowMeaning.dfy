/**
 What a build means, twice: `Eval` runs down the flat list, `NestFile` walks the tree of files.
 The compiler preserves the meaning.
 */
module WorkflowMeaning {
  import opened Base
  import opened Names
  import opened Infrabox
  import opened Workflow
  import opened WorkflowShape
  import opened WorkflowBrackets

  /** What each job that is no wait job reports when it runs, by qualified name. */
  type Oracle = string -> JobState

  type States = map<string, JobState>

  /******* The flat list *******/

  predicate DepMet(x: DependsOn, states: States) {
    x.job in states ==> x.on.Some? && Is(states[x.job]) in x.on.value
  }

  predicate Met(ds: seq<DependsOn>, states: States) {
    forall i :: 0 <= i < |ds| ==> DepMet(ds[i], states)
  }

  function JobResult(kind: JobKind, name: string, open: bool, o: Oracle): JobState {
    if !open then Skipped else if kind.Wait? then Finished else o(name)
  }

  function StateOf(j: FlatJob, states: States, o: Oracle): JobState {
    JobResult(j.kind, j.name, Met(j.dependsOn, states), o)
  }

  function Eval(jobs: seq<FlatJob>, states: States, o: Oracle): States {
    if jobs == [] then states
    else
      var k := |jobs| - 1;
      var before := Eval(jobs[..k], states, o);
      before[jobs[k].name := StateOf(jobs[k], before, o)]
  }

  lemma {:induction false} EvalConcat(a: seq<FlatJob>, b: seq<FlatJob>, states: States, o: Oracle)
    ensures Eval(a + b, states, o) == Eval(b, Eval(a, states, o), o)
  {
    if b == [] {
      assert a + b == a;
    } else {
      var k := |b| - 1;
      assert (a + b)[..|a| + k] == a + b[..k];
      EvalConcat(a, b[..k], states, o);
    }
  }

  /******* The tree *******/

  /** Does a parent in state `s` satisfy the condition as written in the file? */
  predicate ConditionMet(x: DependsOn, s: JobState) {
    if x.on.None? then s == Finished
    else
      || Is(s) in x.on.value
      || (Star in x.on.value && (s.Finished? || s.Error? || s.Failure? || s.Skipped?))
  }

  /** `local` maps the names of one file, `all` the qualified names of it and everything below. */
  datatype Nested = Nested(local: States, all: States)

  /** The gate of a job: its own conditions, or the gate of the enclosing include. */
  predicate Open(n: Node, local: States, gate: bool) {
    if Own(n) == [] then gate
    else forall i :: 0 <= i < |Own(n)| ==>
      Own(n)[i].job in local && ConditionMet(Own(n)[i], local[Own(n)[i].job])
  }

  /** No job of the file depends on `name`. */
  predicate IsLeaf(file: seq<Node>, name: string) {
    forall i :: 0 <= i < |file| ==> name !in DepJobs(Own(file[i]))
  }

  predicate LeavesFinished(file: seq<Node>, local: States) {
    forall i :: 0 <= i < |file| && IsLeaf(file, file[i].name) ==>
      file[i].name in local && local[file[i].name] == Finished
  }

  /** An include is finished iff all leaves of its file are; an empty one iff its gate is open. */
  function IncludeState(file: seq<Node>, open: bool, local: States): JobState {
    if if file == [] then open else LeavesFinished(file, local) then Finished else Skipped
  }

  function NestNode(n: Node, parent: string, open: bool, o: Oracle): (JobState, States)
    decreases n
  {
    var full := Full(parent, n.name);
    match n
    case Job(_, _, _, kind) =>
      var s := JobResult(kind, full, open, o);
      (s, map[full := s])
    case Include(_, _, _, file) =>
      var inner := NestFile(file, full, open, o);
      var s := IncludeState(file, open, inner.local);
      (s, inner.all[full := s])
  }

  function NestFile(file: seq<Node>, parent: string, gate: bool, o: Oracle): Nested
    decreases file
  {
    if file == [] then Nested(map[], map[])
    else
      var k := |file| - 1;
      var earlier := NestFile(file[..k], parent, gate, o);
      var (s, states) := NestNode(file[k], parent, Open(file[k], earlier.local, gate), o);
      Nested(earlier.local[file[k].name := s], earlier.all + states)
  }

  /******* They agree *******/

  /** All jobs of the file that the compiled file leaves unwaited for are finished. */
  predicate SinksFinished(file: seq<Node>, local: States) {
    forall i :: 0 <= i < |file| && IsSink(file, file[i].name) ==>
      file[i].name in local && local[file[i].name] == Finished
  }

  /**
   Does the compiler get include `n` right under this oracle?  An empty file has no entry job, so
   the include's own conditions are lost: they must come out like the gate of the enclosing file.
   For the same reason a job that only such includes wait for counts as a sink of its file.
   */
  predicate FaithfulNode(n: Node, parent: string, gate: bool, open: bool, o: Oracle)
    decreases n
  {
    n.Include? ==>
      var full := Full(parent, n.name);
      if n.file == [] then open == gate
      else
        var local := NestFile(n.file, full, open, o).local;
        Faithful(n.file, full, open, o) && (LeavesFinished(n.file, local) ==> SinksFinished(n.file, local))
  }

  predicate Faithful(file: seq<Node>, parent: string, gate: bool, o: Oracle)
    decreases file
  {
    file != [] ==>
      var k := |file| - 1;
      var local := NestFile(file[..k], parent, gate, o).local;
      Faithful(file[..k], parent, gate, o) && FaithfulNode(file[k], parent, gate, Open(file[k], local, gate), o)
  }

  /** The results of a file concern names in the blocks of its jobs only. */
  ghost predicate InFile(name: string, file: seq<Node>, parent: string) {
    exists k :: 0 <= k < |file| && InBlock(name, Full(parent, file[k].name))
  }

  lemma {:induction false} NestKeys(file: seq<Node>, parent: string, gate: bool, o: Oracle, name: string)
    requires AcceptedTree(file) && name in NestFile(file, parent, gate, o).all
    ensures InFile(name, file, parent)
    decreases file
  {
    var k := |file| - 1;
    var earlier := NestFile(file[..k], parent, gate, o);
    if name in earlier.all {
      AcceptedTreePrefix(file, k);
      NestKeys(file[..k], parent, gate, o, name);
      var i :| 0 <= i < k && InBlock(name, Full(parent, file[..k][i].name));
      assert file[..k][i] == file[i];
    } else {
      assert ValidJob(file[k]);
      NestNodeKeys(file[k], parent, Open(file[k], earlier.local, gate), o, name);
    }
  }

  lemma {:induction false} NestNodeKeys(n: Node, parent: string, open: bool, o: Oracle, name: string)
    requires ValidName(n.name) && (n.Include? ==> AcceptedTree(n.file))
    requires name in NestNode(n, parent, open, o).1
    ensures InBlock(name, Full(parent, n.name))
    decreases n
  {
    var full := Full(parent, n.name);
    if n.Include? && name != full {
      NestKeys(n.file, full, open, o, name);
      var k :| 0 <= k < |n.file| && InBlock(name, Full(full, n.file[k].name));
      FullNonEmpty(parent, n.name);
      NestedBelow(name, full, n.file[k].name);
    }
  }

  /** The results for the direct jobs of a file are found under their qualified names. */
  ghost predicate LocalAgrees(file: seq<Node>, parent: string, local: States, states: States) {
    forall i :: 0 <= i < |file| ==>
      && file[i].name in local
      && Full(parent, file[i].name) in states
      && local[file[i].name] == states[Full(parent, file[i].name)]
  }

  lemma {:induction false} MetUnaffected(ds: seq<DependsOn>, states: States, more: States)
    requires forall x :: x in ds ==> x.job !in more
    ensures Met(ds, states + more) == Met(ds, states)
  {
    forall i | 0 <= i < |ds|
      ensures DepMet(ds[i], states + more) == DepMet(ds[i], states)
    {
      assert ds[i] in ds;
    }
  }

  /** The gate computed on the tree is the gate computed on the list. */
  lemma {:induction false} GatesAgree(file: seq<Node>, k: nat, parent: string, d: seq<DependsOn>, local: States,
      states: States,
      gate: bool)
    requires AcceptedTree(file) && k < |file|
    requires LocalAgrees(file[..k], parent, local, states)
    requires gate == Met(d, states)
    ensures Open(file[k], local, gate) == Met(DepsOf(file[k], parent, d), states)
  {
    var n := file[k];
    if Own(n) != [] {
      assert ValidJob(n) && Follows(n, file[..k]);
      forall i | 0 <= i < |Own(n)|
        ensures Own(n)[i].job in local
        ensures DepMet(OwnDeps(n, parent)[i], states) == ConditionMet(Own(n)[i], local[Own(n)[i].job])
      {
        var m :| 0 <= m < k && file[..k][m].name == Own(n)[i].job;
        assert ValidDependsOn(Own(n)[i]);
        ConditionRewritten(Own(n)[i], local[Own(n)[i].job]);
      }
    }
  }

  lemma {:induction false} ConditionRewritten(x: DependsOn, s: JobState)
    requires ValidDependsOn(x)
    ensures ConditionMet(x, s) <==> Is(s) in RewriteDep(x).on.value
  {
    if x.on.Some? && Star in x.on.value && Is(s) in x.on.value {
      var i :| 0 <= i < |x.on.value| && x.on.value[i] == Is(s);
      assert OnAllowed(x.on.value[i]);
    }
  }

  /** Running down the compiled file adds exactly the results of the tree walk. */
  lemma {:induction false} FileMeaning(file: seq<Node>, parent: string, d: seq<DependsOn>, e: Env,
      states: States, o: Oracle)
    requires AcceptedTree(file) && FromOutside(file, parent, d)
    requires Faithful(file, parent, Met(d, states), o)
    ensures var nested := NestFile(file, parent, Met(d, states), o);
      && Eval(FlatFile(file, parent, d, e), states, o) == states + nested.all
      && LocalAgrees(file, parent, nested.local, states + nested.all)
    decreases file
  {
    if file == [] {
      assert states + map[] == states;
    } else {
      var k := |file| - 1;
      AcceptedTreePrefix(file, k);
      FileMeaning(file[..k], parent, d, e, states, o);
      var earlier := NestFile(file[..k], parent, Met(d, states), o);
      var more := StepMeaning(file, k, parent, d, e, states, earlier, o);
      EvalFileSnoc(file, k, parent, d, e, states, o);
      NestFileSnoc(file, k, parent, Met(d, states), o);
      MapPlusAssociative(states, earlier.all, more);
    }
  }

  lemma {:induction false} EvalFileSnoc(file: seq<Node>, k: nat, parent: string, d: seq<DependsOn>, e: Env,
      states: States, o: Oracle)
    requires k == |file| - 1
    ensures Eval(FlatFile(file, parent, d, e), states, o)
         == Eval(FlatNode(file[k], parent, d, e), Eval(FlatFile(file[..k], parent, d, e), states, o), o)
  {
    EvalConcat(FlatFile(file[..k], parent, d, e), FlatNode(file[k], parent, d, e), states, o);
  }

  lemma {:induction false} NestFileSnoc(file: seq<Node>, k: nat, parent: string, gate: bool, o: Oracle)
    requires k == |file| - 1
    ensures var earlier := NestFile(file[..k], parent, gate, o);
      var (s, more) := NestNode(file[k], parent, Open(file[k], earlier.local, gate), o);
      NestFile(file, parent, gate, o) == Nested(earlier.local[file[k].name := s], earlier.all + more)
  {
  }

  /** One more job of the file, after the first `k`. */
  lemma {:induction false} StepMeaning(file: seq<Node>, k: nat, parent: string, d: seq<DependsOn>, e: Env,
      states: States, earlier: Nested, o: Oracle) returns (more: States)
    requires AcceptedTree(file) && k == |file| - 1 && FromOutside(file, parent, d)
    requires earlier == NestFile(file[..k], parent, Met(d, states), o)
    requires FaithfulNode(file[k], parent, Met(d, states), Open(file[k], earlier.local, Met(d, states)), o)
    requires LocalAgrees(file[..k], parent, earlier.local, states + earlier.all)
    ensures var (s, states1) := NestNode(file[k], parent, Open(file[k], earlier.local, Met(d, states)), o);
      && more == states1
      && Eval(FlatNode(file[k], parent, d, e), states + earlier.all, o) == states + earlier.all + more
      && LocalAgrees(file, parent, earlier.local[file[k].name := s], states + earlier.all + more)
    decreases file, 0
  {
    var gate := Met(d, states);
    var mid := states + earlier.all;
    InheritedUnaffected(file, k, parent, d, states, earlier.all, gate, o);
    GatesAgree(file, k, parent, d, earlier.local, mid, gate);
    NodeMeaning(file, k, parent, d, e, mid, o);
    var (s, states1) := NestNode(file[k], parent, Open(file[k], earlier.local, gate), o);
    more := states1;
    OthersUntouched(file, k, parent, more);
    LocalExtended(file, k, parent, earlier.local, mid, s, more);
  }

  lemma {:induction false} InheritedUnaffected(file: seq<Node>, k: nat, parent: string, d: seq<DependsOn>,
      states: States, more: States,
      gate: bool, o: Oracle)
    requires AcceptedTree(file) && k < |file| && FromOutside(file, parent, d)
    requires more == NestFile(file[..k], parent, gate, o).all
    ensures Met(d, states + more) == Met(d, states)
  {
    AcceptedTreePrefix(file, k);
    forall name | name in more
      ensures forall x :: x in d ==> x.job != name
    {
      NestKeys(file[..k], parent, gate, o, name);
      var i :| 0 <= i < k && InBlock(name, Full(parent, file[..k][i].name));
      assert file[..k][i] == file[i];
    }
    MetUnaffected(d, states, more);
  }

  /** Results within one block say nothing about the other direct jobs of the file. */
  lemma {:induction false} OthersUntouched(file: seq<Node>, k: nat, parent: string, more: States)
    requires AcceptedTree(file) && k == |file| - 1
    requires forall name :: name in more ==> InBlock(name, Full(parent, file[k].name))
    ensures forall i :: 0 <= i < k ==> file[i].name != file[k].name && Full(parent, file[i].name) !in more
  {
    forall i | 0 <= i < k
      ensures file[i].name != file[k].name && Full(parent, file[i].name) !in more
    {
      assert ValidJob(file[i]) && ValidJob(file[k]);
      NamesDistinct(file, i, k);
      if Full(parent, file[i].name) in more {
        BlocksDisjoint(Full(parent, file[i].name), parent, file[i].name, file[k].name);
      }
    }
  }

  lemma {:induction false} LocalExtended(file: seq<Node>, k: nat, parent: string, local: States, mid: States,
      s: JobState, more: States)
    requires k == |file| - 1
    requires LocalAgrees(file[..k], parent, local, mid)
    requires forall i :: 0 <= i < k ==> file[i].name != file[k].name && Full(parent, file[i].name) !in more
    requires Full(parent, file[k].name) in more && more[Full(parent, file[k].name)] == s
    ensures LocalAgrees(file, parent, local[file[k].name := s], mid + more)
  {
    forall i | 0 <= i < k
      ensures file[..k][i] == file[i]
    {
    }
  }

  lemma {:induction false} NodeMeaning(file: seq<Node>, k: nat, parent: string, d: seq<DependsOn>, e: Env,
      states: States, o: Oracle)
    requires AcceptedTree(file) && k < |file| && FromOutside(file, parent, d)
    requires FaithfulNode(file[k], parent, Met(d, states), Met(DepsOf(file[k], parent, d), states), o)
    ensures var (s, more) := NestNode(file[k], parent, Met(DepsOf(file[k], parent, d), states), o);
      && Eval(FlatNode(file[k], parent, d, e), states, o) == states + more
      && (forall name :: name in more ==> InBlock(name, Full(parent, file[k].name)))
      && Full(parent, file[k].name) in more && more[Full(parent, file[k].name)] == s
    decreases file[k]
  {
    var n := file[k];
    var full := Full(parent, n.name);
    var open := Met(DepsOf(n, parent, d), states);
    assert ValidJob(n);
    forall name | name in NestNode(n, parent, open, o).1
      ensures InBlock(name, full)
    {
      NestNodeKeys(n, parent, open, o, name);
    }
    if n.Include? {
      IncludeMeaning(file, k, parent, d, e, states, o);
    } else {
      JobMeaning(n, parent, d, e, states, o);
    }
  }

  lemma {:induction false} JobMeaning(n: Node, parent: string, d: seq<DependsOn>, e: Env, states: States, o: Oracle)
    requires n.Job?
    ensures Eval(FlatNode(n, parent, d, e), states, o)
         == states + NestNode(n, parent, Met(DepsOf(n, parent, d), states), o).1
  {
    var full := Full(parent, n.name);
    var j := FlatJob(full, n.kind, DepsOf(n, parent, d), n.env + e);
    assert FlatNode(n, parent, d, e) == [j];
    EvalOne(j, states, o);
    assert states[full := StateOf(j, states, o)] == states + map[full := StateOf(j, states, o)];
  }

  lemma {:induction false} IncludeMeaning(file: seq<Node>, k: nat, parent: string, d: seq<DependsOn>, e: Env,
      states: States, o: Oracle)
    requires AcceptedTree(file) && k < |file| && FromOutside(file, parent, d)
    requires FaithfulNode(file[k], parent, Met(d, states), Met(DepsOf(file[k], parent, d), states), o)
    requires file[k].Include?
    ensures Eval(FlatNode(file[k], parent, d, e), states, o)
         == states + NestNode(file[k], parent, Met(DepsOf(file[k], parent, d), states), o).1
    decreases file[k], 0
  {
    var n := file[k];
    var full, deps := Full(parent, n.name), DepsOf(n, parent, d);
    var open := Met(deps, states);
    var inner := NestFile(n.file, full, open, o);
    DepsFromOutside(file, k, parent, d);
    FileMeaning(n.file, full, deps, n.env + e, states, o);
    var after := states + inner.all;
    var last := FlatJob(full, Wait, if n.file == [] then d else SinkDeps(n.file, |n.file|, full), e);
    EvalConcat(FlatFile(n.file, full, deps, n.env + e), [last], states, o);
    EvalOne(last, after, o);
    var s := IncludeState(n.file, open, inner.local);
    assert StateOf(last, after, o) == s by {
      if n.file == [] {
        assert after == states;
      } else {
        SinksMet(n.file, full, inner.local, after);
        LeavesAreSinks(n.file, inner.local);
      }
    }
    MapPlusUpdate(states, inner.all, full, s);
    NestInclude(n, parent, open, o);
  }

  lemma {:induction false} NestInclude(n: Node, parent: string, open: bool, o: Oracle)
    requires n.Include?
    ensures var full := Full(parent, n.name);
      var inner := NestFile(n.file, full, open, o);
      NestNode(n, parent, open, o).1 == inner.all[full := IncludeState(n.file, open, inner.local)]
  {
  }

  lemma {:induction false} EvalOne(j: FlatJob, states: States, o: Oracle)
    ensures Eval([j], states, o) == states[j.name := StateOf(j, states, o)]
  {
    assert Eval([j][..0], states, o) == states;
  }

  /** The condition of a final wait job: all sinks of the file are finished. */
  lemma {:induction false} SinksMet(file: seq<Node>, parent: string, local: States, states: States)
    requires LocalAgrees(file, parent, local, states)
    ensures Met(SinkDeps(file, |file|, parent), states) <==> SinksFinished(file, local)
  {
    var ds := SinkDeps(file, |file|, parent);
    if Met(ds, states) {
      forall i | 0 <= i < |file| && IsSink(file, file[i].name)
        ensures local[file[i].name] == Finished
      {
        var x := WaitFor(Full(parent, file[i].name));
        SinkDepsTargets(file, |file|, parent, x);
        var m :| 0 <= m < |ds| && ds[m] == x;
        assert DepMet(ds[m], states);
      }
    }
    if SinksFinished(file, local) {
      forall m | 0 <= m < |ds|
        ensures DepMet(ds[m], states)
      {
        SinkDepsTargets(file, |file|, parent, ds[m]);
        var i :| 0 <= i < |file| && ds[m] == WaitFor(Full(parent, file[i].name)) && IsSink(file, file[i].name);
      }
    }
  }

  /** Every leaf is a sink; the converse fails for a job that only empty includes wait for. */
  lemma {:induction false} LeavesAreSinks(file: seq<Node>, local: States)
    ensures SinksFinished(file, local) ==> LeavesFinished(file, local)
  {
    forall i | 0 <= i < |file| && IsLeaf(file, file[i].name)
      ensures IsSink(file, file[i].name)
    {
    }
  }

  /** Running down the whole flat list gives what the tree walk gives. */
  ghost predicate Preserved(file: seq<Node>, o: Oracle) {
    Eval(Flat(file), map[], o) == NestFile(file, "", true, o).all
  }

  lemma {:induction false} EmptyPlus(m: States)
    ensures map[] + m == m
  {
  }

  lemma {:induction false} FaithfulIsPreserved(file: seq<Node>, o: Oracle)
    requires AcceptedTree(file) && Faithful(file, "", true, o)
    ensures Preserved(file, o)
  {
    FileMeaning(file, "", [], map[], map[], o);
    EmptyPlus(NestFile(file, "", true, o).all);
  }

  /******* A condition that does not look at the results *******/

  /** An include of an empty file that has dependencies of its own: the compiler drops them. */
  predicate GatedEmpty(n: Node) {
    n.Include? && n.file == [] && Own(n) != []
  }

  predicate NoGatedEmpty(file: seq<Node>) {
    forall i :: 0 <= i < |file| ==>
      !GatedEmpty(file[i]) && (file[i].Include? ==> NoGatedEmpty(file[i].file))
  }

  lemma {:induction false} NoGatedEmptyPrefix(file: seq<Node>, k: nat)
    requires NoGatedEmpty(file) && k <= |file|
    ensures NoGatedEmpty(file[..k])
  {
    forall i | 0 <= i < k
      ensures !GatedEmpty(file[..k][i]) && (file[..k][i].Include? ==> NoGatedEmpty(file[..k][i].file))
    {
      assert file[..k][i] == file[i];
    }
  }

  lemma {:induction false} SinksAreLeaves(file: seq<Node>, name: string)
    requires NoGatedEmpty(file)
    ensures IsSink(file, name) <==> IsLeaf(file, name)
  {
    forall i | 0 <= i < |file|
      ensures KeptDepJobs(file[i]) == DepJobs(Own(file[i]))
    {
      assert !GatedEmpty(file[i]);
    }
  }

  lemma {:induction false} NoGatedEmptyIsFaithful(file: seq<Node>, parent: string, gate: bool, o: Oracle)
    requires NoGatedEmpty(file)
    ensures Faithful(file, parent, gate, o)
    decreases file
  {
    if file != [] {
      var k := |file| - 1;
      NoGatedEmptyPrefix(file, k);
      NoGatedEmptyIsFaithful(file[..k], parent, gate, o);
      var local := NestFile(file[..k], parent, gate, o).local;
      UngatedNodeIsFaithful(file[k], parent, gate, Open(file[k], local, gate), o);
    }
  }

  lemma {:induction false} UngatedNodeIsFaithful(n: Node, parent: string, gate: bool, open: bool, o: Oracle)
    requires !GatedEmpty(n) && (n.Include? ==> NoGatedEmpty(n.file))
    requires Own(n) == [] ==> open == gate
    ensures FaithfulNode(n, parent, gate, open, o)
    decreases n
  {
    if n.Include? && n.file != [] {
      NoGatedEmptyIsFaithful(n.file, Full(parent, n.name), open, o);
      forall i | 0 <= i < |n.file| && IsSink(n.file, n.file[i].name)
        ensures IsLeaf(n.file, n.file[i].name)
      {
        SinksAreLeaves(n.file, n.file[i].name);
      }
    }
  }

  /**
   Main result: compiling preserves outcomes.  Whatever each job reports, running down the flat
   list gives every job and every include's wait job the state the tree walk gives it.
   */
  lemma {:induction false} FlatteningPreservesOutcomes(file: seq<Node>, o: Oracle)
    requires AcceptedTree(file) && NoGatedEmpty(file)
    ensures Eval(Flat(file), map[], o) == NestFile(file, "", true, o).all
  {
    NoGatedEmptyIsFaithful(file, "", true, o);
    FaithfulIsPreserved(file, o);
  }

  /******* The hypothesis on empty includes is needed *******/

  /** Job `a`, and an include `b` of an empty file that is to run only if `a` finished. */
  const UNGATED_A := Job("a", None, map[], Docker)
  const UNGATED_B := Include("b", Some([DependsOn("a", None)]), map[], [])
  const UNGATED := [UNGATED_A, UNGATED_B]

  lemma {:induction false} UngatedAccepted()
    ensures AcceptedTree(UNGATED) && !NoGatedEmpty(UNGATED)
  {
    assert UNGATED[..1] == [UNGATED_A] && UNGATED[..0] == [];
    assert UNGATED[..1][0].name == "a";
    assert Declares(UNGATED[..1], "a");
    assert AcceptedTree([]);
    assert UNGATED[1] == UNGATED_B && GatedEmpty(UNGATED[1]);
  }

  lemma {:induction false} UngatedFlat()
    ensures Flat(UNGATED) == [FlatJob("a", Docker, [], map[]), FlatJob("b", Wait, [], map[])]
  {
    assert UNGATED[..0] == [] && UNGATED[..1] == [UNGATED_A] && UNGATED[..2] == UNGATED;
    FlatFileSnoc(UNGATED, 0, "", [], map[]);
    FlatFileSnoc(UNGATED, 1, "", [], map[]);
    RootName("a");
    RootName("b");
    var none: Env := map[];
    assert none + none == none;
    assert FlatNode(UNGATED_A, "", [], map[]) == [FlatJob("a", Docker, [], map[])];
    assert FlatNode(UNGATED_B, "", [], map[]) == [FlatJob("b", Wait, [], map[])];
  }

  /** When `a` fails, the file says that `b` is skipped, yet the flat list lets `b` finish. */
  lemma {:induction false} GatedEmptyIncludeRunsAnyway(o: Oracle)
    requires o("a") == JobState.Failure
    ensures var flat, nested := Eval(Flat(UNGATED), map[], o), NestFile(UNGATED, "", true, o).all;
      "b" in flat && flat["b"] == Finished && "b" in nested && nested["b"] == Skipped
  {
    var ja, jb := FlatJob("a", Docker, [], map[]), FlatJob("b", Wait, [], map[]);
    UngatedFlat();
    RootName("a");
    RootName("b");
    assert Flat(UNGATED)[..1] == [ja];
    EvalOne(ja, map[], o);
    assert UNGATED[..1] == [UNGATED_A] && [UNGATED_A][..0] == [];
    NestFileSnoc([UNGATED_A], 0, "", true, o);
    NestFileSnoc(UNGATED, 1, "", true, o);
    var first := NestFile([UNGATED_A], "", true, o);
    assert first.local["a"] == JobState.Failure;
    assert !ConditionMet(Own(UNGATED_B)[0], JobState.Failure);
    assert !Open(UNGATED_B, first.local, true);
    assert NestNode(UNGATED_B, "", false, o).0 == Skipped;
  }
}
