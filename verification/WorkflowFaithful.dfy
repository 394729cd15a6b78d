/**
 The compiler preserves outcomes exactly where the tree is `Faithful`: an unfaithful include makes
 the flat list and the tree disagree.
 */
module WorkflowFaithful {
  import opened Base
  import opened Names
  import opened Infrabox
  import opened Workflow
  import opened WorkflowShape
  import opened WorkflowBrackets
  import opened WorkflowMeaning

  /** Running jobs of other names does not touch the result of `name`. */
  lemma {:induction false} EvalFrame(jobs: seq<FlatJob>, states: States, o: Oracle, name: string)
    requires forall j :: j in jobs ==> j.name != name
    ensures name in Eval(jobs, states, o) <==> name in states
    ensures name in states ==> Eval(jobs, states, o)[name] == states[name]
  {
    if jobs != [] {
      EvalFrame(jobs[..|jobs| - 1], states, o, name);
    }
  }

  /** The same result, or none, for `name` in both. */
  ghost predicate SameAt(a: States, b: States, name: string) {
    (name in a <==> name in b) && (name in a ==> a[name] == b[name])
  }

  /**
   If two lists of jobs with separate names together give the results `m` and `more`, which are
   separate in the same way, the first list alone gives `m`.
   */
  lemma {:induction false} EvalStrip(a: seq<FlatJob>, b: seq<FlatJob>, states: States, m: States, more: States,
      o: Oracle,
      second: string -> bool)
    requires Eval(a + b, states, o) == states + m + more
    requires forall j :: j in a ==> !second(j.name)
    requires forall j :: j in b ==> second(j.name)
    requires forall name :: name in m ==> !second(name)
    requires forall name :: name in more ==> second(name)
    ensures Eval(a, states, o) == states + m
  {
    EvalConcat(a, b, states, o);
    forall name: string
      ensures SameAt(Eval(a, states, o), states + m, name)
    {
      if second(name) {
        EvalFrame(a, states, o, name);
      } else {
        EvalFrame(b, Eval(a, states, o), o, name);
        assert SameAt(states + m + more, states + m, name);
      }
    }
    SameEverywhere(Eval(a, states, o), states + m);
  }

  lemma {:induction false} SameEverywhere(a: States, b: States)
    requires forall name :: SameAt(a, b, name)
    ensures a == b
  {
    forall name
      ensures name in a <==> name in b
      ensures name in a ==> a[name] == b[name]
    {
      assert SameAt(a, b, name);
    }
  }

  /** The blocks before block `k` of a file have no name in it. */
  lemma {:induction false} EarlierBlocks(file: seq<Node>, k: nat, parent: string, d: seq<DependsOn>, e: Env, j: FlatJob)
    requires AcceptedTree(file) && k < |file| && j in FlatFile(file[..k], parent, d, e)
    ensures !InBlock(j.name, Full(parent, file[k].name))
  {
    var i := FindBlock(file[..k], parent, d, e, j);
    assert file[..k][i] == file[i] && ValidJob(file[i]) && ValidJob(file[k]);
    NamesInBlock(file[i], parent, d, e, j);
    NamesDistinct(file, i, k);
    if InBlock(j.name, Full(parent, file[k].name)) {
      BlocksDisjoint(j.name, parent, file[i].name, file[k].name);
    }
  }

  lemma {:induction false} EarlierResults(file: seq<Node>, k: nat, parent: string, gate: bool, o: Oracle, name: string)
    requires AcceptedTree(file) && k < |file| && name in NestFile(file[..k], parent, gate, o).all
    ensures !InBlock(name, Full(parent, file[k].name))
  {
    AcceptedTreePrefix(file, k);
    NestKeys(file[..k], parent, gate, o, name);
    var i :| 0 <= i < k && InBlock(name, Full(parent, file[..k][i].name));
    assert file[..k][i] == file[i] && ValidJob(file[i]) && ValidJob(file[k]);
    NamesDistinct(file, i, k);
    if InBlock(name, Full(parent, file[k].name)) {
      BlocksDisjoint(name, parent, file[i].name, file[k].name);
    }
  }

  /** Results that agree for a file agree for its prefix ... */
  lemma {:induction false} PrefixAgrees(file: seq<Node>, k: nat, parent: string, d: seq<DependsOn>, e: Env,
      states: States, o: Oracle)
    requires AcceptedTree(file) && k == |file| - 1
    requires Eval(FlatFile(file, parent, d, e), states, o) == states + NestFile(file, parent, Met(d, states), o).all
    ensures Eval(FlatFile(file[..k], parent, d, e), states, o)
         == states + NestFile(file[..k], parent, Met(d, states), o).all
  {
    var gate := Met(d, states);
    var full := Full(parent, file[k].name);
    var a, b := FlatFile(file[..k], parent, d, e), FlatNode(file[k], parent, d, e);
    var m := NestFile(file[..k], parent, gate, o);
    var open := Open(file[k], m.local, gate);
    var more := NestNode(file[k], parent, open, o).1;
    assert ValidJob(file[k]);
    forall j | j in a
      ensures !InBlock(j.name, full)
    {
      EarlierBlocks(file, k, parent, d, e, j);
    }
    forall j | j in b
      ensures InBlock(j.name, full)
    {
      NamesInBlock(file[k], parent, d, e, j);
    }
    forall name | name in m.all
      ensures !InBlock(name, full)
    {
      EarlierResults(file, k, parent, gate, o, name);
    }
    forall name | name in more
      ensures InBlock(name, full)
    {
      NestNodeKeys(file[k], parent, open, o, name);
    }
    NestFileSnoc(file, k, parent, gate, o);
    MapPlusAssociative(states, m.all, more);
    EvalStrip(a, b, states, m.all, more, o, x => InBlock(x, full));
  }

  /** ... and results that agree for an include agree for the file it includes. */
  lemma {:induction false} BodyAgrees(n: Node, parent: string, d: seq<DependsOn>, e: Env, states: States, o: Oracle)
    requires n.Include? && ValidName(n.name) && AcceptedTree(n.file)
    requires Eval(FlatNode(n, parent, d, e), states, o)
          == states + NestNode(n, parent, Met(DepsOf(n, parent, d), states), o).1
    ensures var full, deps := Full(parent, n.name), DepsOf(n, parent, d);
      Eval(FlatFile(n.file, full, deps, n.env + e), states, o)
        == states + NestFile(n.file, full, Met(deps, states), o).all
  {
    var full, deps := Full(parent, n.name), DepsOf(n, parent, d);
    var open := Met(deps, states);
    var body := Body(n, parent, d, e);
    var last := FlatNode(n, parent, d, e)[|body|];
    var inner := NestFile(n.file, full, open, o);
    var s := IncludeState(n.file, open, inner.local);
    forall j | j in body
      ensures j.name != full
    {
      NamesInBlock(n, parent, d, e, j);
    }
    forall name | name in inner.all
      ensures name != full
    {
      NestKeys(n.file, full, open, o, name);
      var i :| 0 <= i < |n.file| && InBlock(name, Full(full, n.file[i].name));
      NestedBelow(name, full, n.file[i].name);
    }
    NestInclude(n, parent, open, o);
    MapPlusUpdate(states, inner.all, full, s);
    UpdateIsPlus(states + inner.all, full, s);
    EvalStrip(body, [last], states, inner.all, map[full := s], o, x => x == full);
  }

  lemma {:induction false} UpdateIsPlus(m: States, name: string, s: JobState)
    ensures m[name := s] == m + map[name := s]
  {
  }

  lemma {:induction false} AgreementNeedsFaithful(file: seq<Node>, parent: string, d: seq<DependsOn>,
      e: Env, states: States, o: Oracle)
    requires AcceptedTree(file) && FromOutside(file, parent, d)
    requires Eval(FlatFile(file, parent, d, e), states, o) == states + NestFile(file, parent, Met(d, states), o).all
    ensures Faithful(file, parent, Met(d, states), o)
    decreases file
  {
    if file != [] {
      var k := |file| - 1;
      var gate := Met(d, states);
      AcceptedTreePrefix(file, k);
      PrefixAgrees(file, k, parent, d, e, states, o);
      AgreementNeedsFaithful(file[..k], parent, d, e, states, o);
      FileMeaning(file[..k], parent, d, e, states, o);
      var earlier := NestFile(file[..k], parent, gate, o);
      var mid := states + earlier.all;
      InheritedUnaffected(file, k, parent, d, states, earlier.all, gate, o);
      GatesAgree(file, k, parent, d, earlier.local, mid, gate);
      var more := NestNode(file[k], parent, Open(file[k], earlier.local, gate), o).1;
      EvalFileSnoc(file, k, parent, d, e, states, o);
      NestFileSnoc(file, k, parent, gate, o);
      MapPlusAssociative(states, earlier.all, more);
      NodeNeedsFaithful(file, k, parent, d, e, mid, o);
    }
  }

  lemma {:induction false} NodeNeedsFaithful(file: seq<Node>, k: nat, parent: string, d: seq<DependsOn>,
      e: Env, states: States, o: Oracle)
    requires AcceptedTree(file) && k < |file| && FromOutside(file, parent, d)
    requires Eval(FlatNode(file[k], parent, d, e), states, o)
          == states + NestNode(file[k], parent, Met(DepsOf(file[k], parent, d), states), o).1
    ensures FaithfulNode(file[k], parent, Met(d, states), Met(DepsOf(file[k], parent, d), states), o)
    decreases file[k]
  {
    var n := file[k];
    if n.Include? {
      var full, deps := Full(parent, n.name), DepsOf(n, parent, d);
      var open := Met(deps, states);
      var inner := NestFile(n.file, full, open, o);
      assert ValidJob(n);
      DepsFromOutside(file, k, parent, d);
      BodyAgrees(n, parent, d, e, states, o);
      AgreementNeedsFaithful(n.file, full, deps, n.env + e, states, o);
      FileMeaning(n.file, full, deps, n.env + e, states, o);
      LastDecides(n, parent, d, e, states, inner, o);
      if n.file != [] {
        SinksMet(n.file, full, inner.local, states + inner.all);
      }
    }
  }

  /** The state of the final wait job, read off on both sides. */
  lemma {:induction false} LastDecides(n: Node, parent: string, d: seq<DependsOn>, e: Env, states: States,
      inner: Nested, o: Oracle)
    requires n.Include?
    requires inner == NestFile(n.file, Full(parent, n.name), Met(DepsOf(n, parent, d), states), o)
    requires Eval(FlatFile(n.file, Full(parent, n.name), DepsOf(n, parent, d), n.env + e), states, o)
          == states + inner.all
    requires Eval(FlatNode(n, parent, d, e), states, o)
          == states + NestNode(n, parent, Met(DepsOf(n, parent, d), states), o).1
    ensures var open := Met(DepsOf(n, parent, d), states);
      var waits := if n.file == [] then d else SinkDeps(n.file, |n.file|, Full(parent, n.name));
      (if n.file == [] then open else LeavesFinished(n.file, inner.local)) <==> Met(waits, states + inner.all)
  {
    var full, deps := Full(parent, n.name), DepsOf(n, parent, d);
    var open := Met(deps, states);
    var last := FlatJob(full, Wait, if n.file == [] then d else SinkDeps(n.file, |n.file|, full), e);
    EvalConcat(FlatFile(n.file, full, deps, n.env + e), [last], states, o);
    EvalOne(last, states + inner.all, o);
    NestInclude(n, parent, open, o);
    assert NestNode(n, parent, open, o).1[full] == IncludeState(n.file, open, inner.local);
    assert StateOf(last, states + inner.all, o) == IncludeState(n.file, open, inner.local);
  }

  /** Main result: outcomes are preserved under an oracle exactly if the tree is faithful under it. */
  lemma {:induction false} PreservedExactlyIfFaithful(file: seq<Node>, o: Oracle)
    requires AcceptedTree(file)
    ensures Preserved(file, o) <==> Faithful(file, "", true, o)
  {
    if Faithful(file, "", true, o) {
      FaithfulIsPreserved(file, o);
    }
    if Preserved(file, o) {
      EmptyPlus(NestFile(file, "", true, o).all);
      AgreementNeedsFaithful(file, "", [], map[], map[], o);
    }
  }
}
