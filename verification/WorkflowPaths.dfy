/**
 The jobs of the flat list, one for each node of the tree, described by the way that leads to the
 node: name, kind and environment.
 */
module WorkflowPaths {
  import opened Base
  import opened Names
  import opened Infrabox
  import opened Workflow
  import opened WorkflowShape
  import opened WorkflowOrder

  /** A way down the tree: a node of the file, a node of the file it includes, and so on. */
  ghost predicate IsBranch(file: seq<Node>, path: seq<Node>)
    decreases |path|
  {
    && path != [] && path[0] in file
    && (|path| > 1 ==> path[0].Include? && IsBranch(path[0].file, path[1..]))
  }

  function PathName(path: seq<Node>): string
    requires path != []
  {
    if |path| == 1 then path[0].name else path[0].name + "/" + PathName(path[1..])
  }

  /** The value the outermost node of the path gives to a variable, if any node sets it. */
  function Setting(path: seq<Node>, v: string): Option<string> {
    if path == [] then None
    else if v in path[0].env then Some(path[0].env[v])
    else Setting(path[1..], v)
  }

  /** The nodes that may set a variable for the job of a path: a wait job has no environment of its own. */
  function Setters(path: seq<Node>): seq<Node>
    requires path != []
  {
    if path[|path| - 1].Include? then path[..|path| - 1] else path
  }

  function Lookup(env: Env, v: string): Option<string> {
    if v in env then Some(env[v]) else None
  }

  ghost predicate CompiledFrom(j: FlatJob, path: seq<Node>)
    requires path != []
  {
    var n := path[|path| - 1];
    && j.name == PathName(path)
    && (n.Job? ==> j.kind == n.kind)
    && (n.Include? ==> j.kind == Wait)
    && forall v :: Lookup(j.env, v) == Setting(Setters(path), v)
  }

  /** `CompiledFrom` for a file included as `parent`, with `e` imposed from outside. */
  ghost predicate CompiledBelow(j: FlatJob, parent: string, e: Env, path: seq<Node>)
    requires path != []
  {
    var n := path[|path| - 1];
    && j.name == Full(parent, PathName(path))
    && j.kind == (if n.Job? then n.kind else Wait)
    && forall v :: Lookup(j.env, v) == if v in e then Some(e[v]) else Setting(Setters(path), v)
  }

  lemma {:induction false} OneNodeFurther(j: FlatJob, parent: string, e: Env, path: seq<Node>)
    requires |path| > 1 && path[0].Include? && ValidName(path[0].name)
    requires CompiledBelow(j, Full(parent, path[0].name), path[0].env + e, path[1..])
    ensures CompiledBelow(j, parent, e, path)
  {
    var rest := path[1..];
    assert rest[|rest| - 1] == path[|path| - 1];
    assert Setters(path)[1..] == Setters(rest);
    assert Setters(path)[0] == path[0];
  }

  lemma {:induction false} InsideBlock(n: Node, parent: string, d: seq<DependsOn>, e: Env, j: FlatJob)
    requires n.Include? && j in FlatFile(n.file, Full(parent, n.name), DepsOf(n, parent, d), n.env + e)
    ensures j in FlatNode(n, parent, d, e)
  {
    BlockParts(n, parent, d, e);
    assert j in Body(n, parent, d, e);
  }

  lemma {:induction false} BranchBelow(file: seq<Node>, parent: string, d: seq<DependsOn>, e: Env, path: seq<Node>)
      returns (j: FlatJob)
    requires AcceptedTree(file) && IsBranch(file, path)
    ensures j in FlatFile(file, parent, d, e) && CompiledBelow(j, parent, e, path)
    decreases |path|
  {
    hide FlatNode, FlatFile, CompiledBelow, DepsOf, Body;
    var k :| 0 <= k < |file| && file[k] == path[0];
    var n := file[k];
    assert ValidJob(n);
    if |path| == 1 {
      j := FlatNode(n, parent, d, e)[|Body(n, parent, d, e)|];
      LastOfBlock(n, parent, d, e);
      assert path == [n];
    } else {
      j := BranchBelow(n.file, Full(parent, n.name), DepsOf(n, parent, d), n.env + e, path[1..]);
      OneNodeFurther(j, parent, e, path);
      InsideBlock(n, parent, d, e, j);
    }
    BlockInFile(file, k, parent, d, e, j);
  }

  lemma {:induction false} LastOfBlock(n: Node, parent: string, d: seq<DependsOn>, e: Env)
    ensures CompiledBelow(FlatNode(n, parent, d, e)[|Body(n, parent, d, e)|], parent, e, [n])
  {
    assert Setters([n]) == if n.Include? then [] else [n];
    assert [n][1..] == [];
  }

  /** Conversely, every job of a compiled file is there for some node. */
  lemma {:induction false} BelowBranch(file: seq<Node>, parent: string, d: seq<DependsOn>, e: Env, j: FlatJob)
      returns (path: seq<Node>)
    requires AcceptedTree(file) && j in FlatFile(file, parent, d, e)
    ensures IsBranch(file, path) && CompiledBelow(j, parent, e, path)
    decreases file
  {
    var k := FindBlock(file, parent, d, e, j);
    var n := file[k];
    assert ValidJob(n);
    BlockParts(n, parent, d, e);
    var body, block := Body(n, parent, d, e), FlatNode(n, parent, d, e);
    if j in body {
      var rest := BelowBranch(n.file, Full(parent, n.name), DepsOf(n, parent, d), n.env + e, j);
      path := [n] + rest;
      assert path[1..] == rest;
      OneNodeFurther(j, parent, e, path);
    } else {
      path := [n];
      LastOfBlock(n, parent, d, e);
    }
  }

  /**
   Main result: the flat list has exactly one job for each node of the tree, named after the path to
   the node.  It has the kind of the node, or is a wait job for an include.  Each of its variables
   has the value of the outermost include on the path that sets it, or else the node's own.
   */
  lemma {:induction false} NodesAreJobs(file: seq<Node>, path: seq<Node>)
    requires AcceptedTree(file) && IsBranch(file, path)
    ensures exists j :: j in Flat(file) && CompiledFrom(j, path)
    ensures forall j :: j in Flat(file) && j.name == PathName(path) ==> CompiledFrom(j, path)
  {
    var j := BranchBelow(file, "", [], map[], path);
    assert CompiledFrom(j, path);
    FlatFileUnique(file, "", [], map[]);
    forall i | i in Flat(file) && i.name == PathName(path)
      ensures i == j
    {
      SameNameSameJob(Flat(file), i, j);
    }
  }

  lemma {:induction false} JobsAreNodes(file: seq<Node>, j: FlatJob) returns (path: seq<Node>)
    requires AcceptedTree(file) && j in Flat(file)
    ensures IsBranch(file, path) && CompiledFrom(j, path)
  {
    path := BelowBranch(file, "", [], map[], j);
  }
}
