/**
 A condition on the tree of files alone that says whether the compiler preserves all outcomes.

 On accepted files `*` is always met and every other condition asks for one of some results.  So the
 gate of a job, and whether an include is finished, are conjunctions of conditions on what single
 jobs report, and one walk over the tree collects them.
 */
module WorkflowHarmless {
  import opened Base
  import opened Names
  import opened Infrabox
  import opened Workflow
  import opened Requirements
  import opened WorkflowMeaning
  import opened WorkflowFaithful

  /**
   A job runs if `open` holds and is skipped otherwise.  If it runs, it ends in the state reported
   under the name `reports`, or it just finishes.
   */
  datatype Summary = Summary(open: Requirement, reports: Option<string>)

  /** The jobs of one file by their names in the file. */
  type Summaries = map<string, Summary>

  function StateAt(s: Summary, o: Oracle): JobState {
    if !Holds(s.open, o) then Skipped else if s.reports.Some? then o(s.reports.value) else Finished
  }

  /******* Conditions as requirements *******/

  function Listed(x: DependsOn): seq<OnValue> {
    if x.on.None? then [Is(Finished)] else x.on.value
  }

  /** When is a condition on a job of this summary met? */
  function Satisfied(x: DependsOn, s: Summary): Requirement {
    if Star in Listed(x) then ALWAYS
    else if s.reports.Some? then And(s.open, map[s.reports.value := set v | v in OUTCOMES && Is(v) in Listed(x)])
    else if Is(Finished) in Listed(x) then s.open
    else NEVER
  }

  lemma {:induction false} SatisfiedMeans(x: DependsOn, s: Summary, o: Oracle)
    requires OutcomesOnly(o) && (x.on.Some? ==> ValidOn(x.on.value))
    ensures Holds(Satisfied(x, s), o) <==> ConditionMet(x, StateAt(s, o))
  {
    assert forall v :: Is(v) in Listed(x) ==> OnAllowed(Is(v));
    if s.reports.Some? {
      var own := map[s.reports.value := set v | v in OUTCOMES && Is(v) in Listed(x)];
      AndHolds(s.open, own, o);
      assert Outcome(o(s.reports.value));
      assert s.reports.value in own;
    } else {
      Extremes(o);
    }
  }

  function AllSatisfied(ds: seq<DependsOn>, local: Summaries): Requirement {
    if ds == [] then ALWAYS
    else
      var k := |ds| - 1;
      And(AllSatisfied(ds[..k], local), if ds[k].job in local then Satisfied(ds[k], local[ds[k].job]) else NEVER)
  }

  /** The summaries say what the states are under these results. */
  ghost predicate Describes(local: Summaries, states: States, o: Oracle) {
    local.Keys == states.Keys && forall name :: name in local ==> states[name] == StateAt(local[name], o)
  }

  lemma {:induction false} AllSatisfiedMeans(ds: seq<DependsOn>, local: Summaries, states: States, o: Oracle)
    requires OutcomesOnly(o) && Describes(local, states, o)
    requires forall i :: 0 <= i < |ds| && ds[i].on.Some? ==> ValidOn(ds[i].on.value)
    ensures Holds(AllSatisfied(ds, local), o)
       <==> forall i :: 0 <= i < |ds| ==> ds[i].job in states && ConditionMet(ds[i], states[ds[i].job])
  {
    hide Holds, And, Satisfied, ConditionMet, StateAt, ValidOn, OutcomesOnly;
    Extremes(o);
    if ds != [] {
      var k := |ds| - 1;
      AllSatisfiedMeans(ds[..k], local, states, o);
      var last := if ds[k].job in local then Satisfied(ds[k], local[ds[k].job]) else NEVER;
      AndHolds(AllSatisfied(ds[..k], local), last, o);
      if ds[k].job in local {
        SatisfiedMeans(ds[k], local[ds[k].job], o);
      }
    }
  }

  /** When does a job of the file get to run? */
  function OpenWhen(n: Node, local: Summaries, gate: Requirement): Requirement {
    if Own(n) == [] then gate else AllSatisfied(Own(n), local)
  }

  lemma {:induction false} OpenWhenMeans(n: Node, local: Summaries, states: States, gate: Requirement, o: Oracle)
    requires ValidJob(n) && OutcomesOnly(o) && Describes(local, states, o)
    ensures Holds(OpenWhen(n, local, gate), o) <==> Open(n, states, Holds(gate, o))
  {
    if Own(n) != [] {
      AllSatisfiedMeans(Own(n), local, states, o);
    }
  }

  /** When do those of the first `k` jobs finish whose names are in `names`? */
  function AllFinish(file: seq<Node>, k: nat, names: set<string>, local: Summaries): Requirement
    requires k <= |file|
  {
    if k == 0 then ALWAYS
    else
      var name := file[k - 1].name;
      if name !in names then AllFinish(file, k - 1, names, local)
      else if name !in local then NEVER
      else And(AllFinish(file, k - 1, names, local), Satisfied(DependsOn(name, None), local[name]))
  }

  lemma {:induction false} AllFinishMeans(file: seq<Node>, k: nat, names: set<string>, local: Summaries, states: States,
      o: Oracle)
    requires k <= |file| && OutcomesOnly(o) && Describes(local, states, o)
    ensures Holds(AllFinish(file, k, names, local), o)
       <==> forall i :: 0 <= i < k && file[i].name in names ==>
              file[i].name in states && states[file[i].name] == Finished
  {
    hide Holds, And, Satisfied, StateAt, OutcomesOnly;
    Extremes(o);
    if k > 0 {
      var name := file[k - 1].name;
      AllFinishMeans(file, k - 1, names, local, states, o);
      if name in names && name in local {
        AndHolds(AllFinish(file, k - 1, names, local), Satisfied(DependsOn(name, None), local[name]), o);
        SatisfiedMeans(DependsOn(name, None), local[name], o);
      }
    }
  }

  function Leaves(file: seq<Node>): set<string> {
    set i | 0 <= i < |file| && IsLeaf(file, file[i].name) :: file[i].name
  }

  function Sinks(file: seq<Node>): set<string> {
    set i | 0 <= i < |file| && IsSink(file, file[i].name) :: file[i].name
  }

  function LeavesFinish(file: seq<Node>, local: Summaries): Requirement {
    AllFinish(file, |file|, Leaves(file), local)
  }

  function SinksFinish(file: seq<Node>, local: Summaries): Requirement {
    AllFinish(file, |file|, Sinks(file), local)
  }

  lemma {:induction false} FinishMeans(file: seq<Node>, local: Summaries, states: States, o: Oracle)
    requires OutcomesOnly(o) && Describes(local, states, o)
    ensures Holds(LeavesFinish(file, local), o) <==> LeavesFinished(file, states)
    ensures Holds(SinksFinish(file, local), o) <==> SinksFinished(file, states)
  {
    hide Holds, AllFinish, Leaves, Sinks, IsLeaf, IsSink, Describes, OutcomesOnly;
    AllFinishMeans(file, |file|, Leaves(file), local, states, o);
    AllFinishMeans(file, |file|, Sinks(file), local, states, o);
    forall i | 0 <= i < |file|
      ensures file[i].name in Leaves(file) <==> IsLeaf(file, file[i].name)
      ensures file[i].name in Sinks(file) <==> IsSink(file, file[i].name)
    {
      LeafOrSink(file, i);
    }
  }

  lemma {:induction false} LeafOrSink(file: seq<Node>, i: nat)
    requires i < |file|
    ensures file[i].name in Leaves(file) <==> IsLeaf(file, file[i].name)
    ensures file[i].name in Sinks(file) <==> IsSink(file, file[i].name)
  {
    hide IsLeaf, IsSink;
  }

  /******* The walk *******/

  function NodeSummary(n: Node, parent: string, open: Requirement): Summary
    decreases n
  {
    var full := Full(parent, n.name);
    match n
    case Job(_, _, _, kind) => Summary(open, if kind.Wait? then None else Some(full))
    case Include(_, _, _, file) =>
      Summary(if file == [] then open else LeavesFinish(file, FileSummaries(file, full, open)), None)
  }

  function FileSummaries(file: seq<Node>, parent: string, gate: Requirement): Summaries
    decreases file
  {
    if file == [] then map[]
    else
      var k := |file| - 1;
      var earlier := FileSummaries(file[..k], parent, gate);
      earlier[file[k].name := NodeSummary(file[k], parent, OpenWhen(file[k], earlier, gate))]
  }

  lemma {:induction false} FileSummariesSnoc(file: seq<Node>, k: nat, parent: string, gate: Requirement)
    requires k == |file| - 1
    ensures var earlier := FileSummaries(file[..k], parent, gate);
      FileSummaries(file, parent, gate)
        == earlier[file[k].name := NodeSummary(file[k], parent, OpenWhen(file[k], earlier, gate))]
  {
  }

  lemma {:induction false} DescribesSnoc(local: Summaries, states: States, name: string, s: Summary, o: Oracle)
    requires Describes(local, states, o)
    ensures Describes(local[name := s], states[name := StateAt(s, o)], o)
  {
  }

  lemma {:induction false} MemberAccepted(file: seq<Node>, k: nat)
    requires AcceptedTree(file) && k < |file|
    ensures ValidJob(file[k]) && (file[k].Include? ==> AcceptedTree(file[k].file))
  {
  }

  /** What the walk collects describes the states of the tree, whatever the outcomes. */
  lemma {:induction false} FileDescribed(file: seq<Node>, parent: string, gate: Requirement, o: Oracle)
    requires AcceptedTree(file) && OutcomesOnly(o)
    ensures Describes(FileSummaries(file, parent, gate), NestFile(file, parent, Holds(gate, o), o).local, o)
    decreases file
  {
    if file != [] {
      hide *;
      var k := |file| - 1;
      AcceptedTreePrefix(file, k);
      FileDescribed(file[..k], parent, gate, o);
      var earlier := FileSummaries(file[..k], parent, gate);
      var states := NestFile(file[..k], parent, Holds(gate, o), o).local;
      MemberAccepted(file, k);
      OpenWhenMeans(file[k], earlier, states, gate, o);
      var open := OpenWhen(file[k], earlier, gate);
      NodeDescribed(file[k], parent, open, o);
      DescribesSnoc(earlier, states, file[k].name, NodeSummary(file[k], parent, open), o);
      NestFileSnoc(file, k, parent, Holds(gate, o), o);
      FileSummariesSnoc(file, k, parent, gate);
    }
  }

  lemma {:induction false} NodeDescribed(n: Node, parent: string, open: Requirement, o: Oracle)
    requires (n.Include? ==> AcceptedTree(n.file)) && OutcomesOnly(o)
    ensures NestNode(n, parent, Holds(open, o), o).0 == StateAt(NodeSummary(n, parent, open), o)
    decreases n
  {
    if n.Include? && n.file != [] {
      var full := Full(parent, n.name);
      FileDescribed(n.file, full, open, o);
      FinishMeans(n.file, FileSummaries(n.file, full, open), NestFile(n.file, full, Holds(open, o), o).local, o);
    }
  }

  /******* The condition *******/

  /**
   An include of an empty file must be gated exactly like its enclosing file, and no include may
   hang on a job that only such includes wait for, unless its leaves demand that job anyway.
   */
  predicate HarmlessNode(n: Node, parent: string, gate: Requirement, open: Requirement)
    decreases n
  {
    n.Include? ==>
      var full := Full(parent, n.name);
      if n.file == [] then Same(open, gate)
      else
        var local := FileSummaries(n.file, full, open);
        HarmlessFile(n.file, full, open) && Implies(LeavesFinish(n.file, local), SinksFinish(n.file, local))
  }

  predicate HarmlessFile(file: seq<Node>, parent: string, gate: Requirement)
    decreases file
  {
    file != [] ==>
      var k := |file| - 1;
      var local := FileSummaries(file[..k], parent, gate);
      HarmlessFile(file[..k], parent, gate) && HarmlessNode(file[k], parent, gate, OpenWhen(file[k], local, gate))
  }

  /** The whole tree, compiled on its own. */
  predicate Harmless(file: seq<Node>) {
    HarmlessFile(file, "", ALWAYS)
  }

  /** The whole tree as a build, whose roots wait for the job that inserts them. */
  predicate HarmlessBuild(file: seq<Node>) {
    HarmlessFile(file, "", ALWAYS) && HarmlessFile(file, "", NEVER)
  }

  /** A harmless tree is faithful under all outcomes ... */
  lemma {:induction false} HarmlessIsFaithful(file: seq<Node>, parent: string, gate: Requirement, o: Oracle)
    requires AcceptedTree(file) && OutcomesOnly(o) && HarmlessFile(file, parent, gate)
    ensures Faithful(file, parent, Holds(gate, o), o)
    decreases file
  {
    if file != [] {
      var k := |file| - 1;
      AcceptedTreePrefix(file, k);
      HarmlessIsFaithful(file[..k], parent, gate, o);
      GateDescribed(file, k, parent, gate, o);
      HarmlessNodeIsFaithful(file[k], parent, gate, OpenWhen(file[k], FileSummaries(file[..k], parent, gate), gate), o);
    }
  }

  lemma {:induction false} GateDescribed(file: seq<Node>, k: nat, parent: string, gate: Requirement, o: Oracle)
    requires AcceptedTree(file) && k < |file| && OutcomesOnly(o)
    ensures Holds(OpenWhen(file[k], FileSummaries(file[..k], parent, gate), gate), o)
       <==> Open(file[k], NestFile(file[..k], parent, Holds(gate, o), o).local, Holds(gate, o))
  {
    AcceptedTreePrefix(file, k);
    FileDescribed(file[..k], parent, gate, o);
    assert ValidJob(file[k]);
    OpenWhenMeans(file[k], FileSummaries(file[..k], parent, gate), NestFile(file[..k], parent, Holds(gate, o), o).local,
      gate, o);
  }

  lemma {:induction false} HarmlessNodeIsFaithful(n: Node, parent: string, gate: Requirement, open: Requirement,
      o: Oracle)
    requires (n.Include? ==> AcceptedTree(n.file)) && OutcomesOnly(o) && HarmlessNode(n, parent, gate, open)
    ensures FaithfulNode(n, parent, Holds(gate, o), Holds(open, o), o)
    decreases n
  {
    if n.Include? {
      var full := Full(parent, n.name);
      if n.file == [] {
        if Holds(open, o) { ImpliesHolds(open, gate, o); }
        if Holds(gate, o) { ImpliesHolds(gate, open, o); }
      } else {
        var local := FileSummaries(n.file, full, open);
        HarmlessIsFaithful(n.file, full, open, o);
        FileDescribed(n.file, full, open, o);
        FinishMeans(n.file, local, NestFile(n.file, full, Holds(open, o), o).local, o);
        if Holds(LeavesFinish(n.file, local), o) {
          ImpliesHolds(LeavesFinish(n.file, local), SinksFinish(n.file, local), o);
        }
      }
    }
  }

  /** ... and any other tree is unfaithful under some. */
  lemma {:induction false} HarmfulFile(file: seq<Node>, parent: string, gate: Requirement) returns (o: Oracle)
    requires AcceptedTree(file) && !HarmlessFile(file, parent, gate)
    ensures OutcomesOnly(o) && !Faithful(file, parent, Holds(gate, o), o)
    decreases file
  {
    var k := |file| - 1;
    AcceptedTreePrefix(file, k);
    if !HarmlessFile(file[..k], parent, gate) {
      o := HarmfulFile(file[..k], parent, gate);
    } else {
      o := HarmfulNode(file[k], parent, gate, OpenWhen(file[k], FileSummaries(file[..k], parent, gate), gate));
      GateDescribed(file, k, parent, gate, o);
    }
  }

  lemma {:induction false} HarmfulNode(n: Node, parent: string, gate: Requirement, open: Requirement)
      returns (o: Oracle)
    requires (n.Include? ==> AcceptedTree(n.file)) && !HarmlessNode(n, parent, gate, open)
    ensures OutcomesOnly(o) && !FaithfulNode(n, parent, Holds(gate, o), Holds(open, o), o)
    decreases n
  {
    var full := Full(parent, n.name);
    if n.file == [] {
      if !Implies(open, gate) {
        o := NotImplied(open, gate);
      } else {
        o := NotImplied(gate, open);
      }
    } else if !HarmlessFile(n.file, full, open) {
      o := HarmfulFile(n.file, full, open);
    } else {
      var local := FileSummaries(n.file, full, open);
      o := NotImplied(LeavesFinish(n.file, local), SinksFinish(n.file, local));
      FileDescribed(n.file, full, open, o);
      FinishMeans(n.file, local, NestFile(n.file, full, Holds(open, o), o).local, o);
    }
  }

  /**
   Main result: the compiler preserves the outcomes of an accepted tree, whatever its runners
   report, exactly if the tree is harmless.
   */
  lemma {:induction false} PreservedExactlyIfHarmless(file: seq<Node>)
    requires AcceptedTree(file)
    ensures (forall o: Oracle :: OutcomesOnly(o) ==> Preserved(file, o)) <==> Harmless(file)
  {
    if Harmless(file) {
      forall o: Oracle | OutcomesOnly(o)
        ensures Preserved(file, o)
      {
        HarmlessIsFaithful(file, "", ALWAYS, o);
        PreservedExactlyIfFaithful(file, o);
      }
    } else {
      var o := HarmfulFile(file, "", ALWAYS);
      PreservedExactlyIfFaithful(file, o);
    }
  }

  lemma {:induction false} GatedIsFaithful(file: seq<Node>, gate: bool, o: Oracle)
    requires AcceptedTree(file) && HarmlessBuild(file) && OutcomesOnly(o)
    ensures Faithful(file, "", gate, o)
  {
    Extremes(o);
    HarmlessIsFaithful(file, "", if gate then ALWAYS else NEVER, o);
  }

  /** The same for a build: whether the creating job finishes or not, and whatever runners report. */
  lemma {:induction false} FaithfulExactlyIfHarmlessBuild(file: seq<Node>)
    requires AcceptedTree(file)
    ensures (forall o: Oracle, gate :: OutcomesOnly(o) ==> Faithful(file, "", gate, o)) <==> HarmlessBuild(file)
  {
    if HarmlessBuild(file) {
      forall o: Oracle, gate | OutcomesOnly(o)
        ensures Faithful(file, "", gate, o)
      {
        GatedIsFaithful(file, gate, o);
      }
    } else if !HarmlessFile(file, "", ALWAYS) {
      var o := HarmfulFile(file, "", ALWAYS);
      Extremes(o);
    } else {
      var o := HarmfulFile(file, "", NEVER);
      Extremes(o);
    }
  }

  /** Without an include of an empty file that has dependencies, there is no harm. */
  lemma {:induction false} NoGatedEmptyIsHarmless(file: seq<Node>)
    requires AcceptedTree(file) && NoGatedEmpty(file)
    ensures Harmless(file) && HarmlessBuild(file)
  {
    forall o: Oracle, gate | OutcomesOnly(o)
      ensures Faithful(file, "", gate, o)
    {
      NoGatedEmptyIsFaithful(file, "", gate, o);
    }
    FaithfulExactlyIfHarmlessBuild(file);
  }

  /** The counterexample is harmful. */
  lemma {:induction false} UngatedIsHarmful()
    ensures !Harmless(UNGATED)
  {
    var o: Oracle := _ => JobState.Failure;
    UngatedAccepted();
    GatedEmptyIncludeRunsAnyway(o);
    PreservedExactlyIfHarmless(UNGATED);
    assert OutcomesOnly(o) && !Preserved(UNGATED, o);
  }

  /** Job `a`, and an include `b` of an empty file that is to run whatever becomes of `a`. */
  const ANYWAY_B := Include("b", Some([DependsOn("a", Some([Star]))]), map[], [])

  /** Not every include of an empty file that has dependencies does harm. */
  lemma {:induction false} AnywayIsHarmless()
    ensures !NoGatedEmpty([UNGATED_A, ANYWAY_B]) && Harmless([UNGATED_A, ANYWAY_B])
  {
    var file := [UNGATED_A, ANYWAY_B];
    assert GatedEmpty(file[1]);
    var first := file[..1];
    assert first == [UNGATED_A] && first[..0] == [];
    FileSummariesSnoc(first, 0, "", ALWAYS);
    assert HarmlessFile(first[..0], "", ALWAYS);
    assert HarmlessFile(first, "", ALWAYS);
    var local := FileSummaries(first, "", ALWAYS);
    assert "a" in local;
    var ds := Own(ANYWAY_B);
    assert ds[..0] == [] && AllSatisfied(ds[..0], local) == ALWAYS;
    assert Satisfied(ds[0], local["a"]) == ALWAYS;
    assert OpenWhen(ANYWAY_B, local, ALWAYS) == And(ALWAYS, ALWAYS) == ALWAYS;
  }
}
