/** Descendants and ancestors along dependencies. */
module Descent {
  import opened JobTable

  /** Each element of the line is a parent of the next one. */
  ghost predicate Line(t: Table, line: seq<JobId>) {
    line != [] && line[0] in t && forall i :: 0 <= i < |line| - 1 ==> Parent(t, line[i + 1], line[i])
  }

  ghost predicate LineFromTo(t: Table, line: seq<JobId>, a: JobId, b: JobId) {
    Line(t, line) && line[0] == a && line[|line| - 1] == b
  }

  /** `b` is `a` or comes after it, directly or through other jobs. */
  ghost predicate Descends(t: Table, a: JobId, b: JobId) {
    exists line :: LineFromTo(t, line, a, b)
  }

  ghost function Descendants(t: Table, a: JobId): (ds: set<JobId>)
    ensures a in t ==> a in ds
  {
    assert a in t ==> LineFromTo(t, [a], a, a);
    set b | b in t && Descends(t, a, b)
  }

  lemma {:induction false} DescendsFurther(t: Table, a: JobId, b: JobId, c: JobId)
    requires Descends(t, a, b) && Parent(t, c, b)
    ensures Descends(t, a, c)
  {
    var line :| LineFromTo(t, line, a, b);
    var longer := line + [c];
    forall i | 0 <= i < |longer| - 1
      ensures Parent(t, longer[i + 1], longer[i])
    {
      if i < |line| - 1 {
        assert longer[i] == line[i] && longer[i + 1] == line[i + 1];
      }
    }
    assert LineFromTo(t, longer, a, c);
  }

  lemma {:induction false} DescendantsClosed(t: Table, a: JobId, p: JobId, c: JobId)
    requires p in Descendants(t, a) && Parent(t, c, p)
    ensures c in Descendants(t, a)
  {
    DescendsFurther(t, a, p, c);
  }

  /** Any set that holds `a` and is closed under children holds every descendant. */
  lemma {:induction false} ClosedHoldsLine(t: Table, s: set<JobId>, line: seq<JobId>)
    requires Line(t, line) && line[0] in s
    requires forall p, c :: p in s && Parent(t, c, p) ==> c in s
    ensures line[|line| - 1] in s
  {
    if |line| > 1 {
      ClosedHoldsLine(t, s, line[..|line| - 1]);
    }
  }

  lemma {:induction false} DescendantsLeast(t: Table, s: set<JobId>, a: JobId)
    requires a in s
    requires forall p, c :: p in s && Parent(t, c, p) ==> c in s
    ensures Descendants(t, a) <= s
  {
    forall b | b in Descendants(t, a)
      ensures b in s
    {
      var line :| LineFromTo(t, line, a, b);
      ClosedHoldsLine(t, s, line);
    }
  }

  lemma {:induction false} LineWithinBuild(t: Table, line: seq<JobId>)
    requires Line(t, line) && WithinBuilds(t)
    ensures line[|line| - 1] in t && t[line[|line| - 1]].build == t[line[0]].build
  {
    if |line| > 1 {
      LineWithinBuild(t, line[..|line| - 1]);
      assert Parent(t, line[|line| - 1], line[|line| - 2]);
    }
  }

  lemma {:induction false} DescendantsWithinBuild(t: Table, a: JobId)
    requires a in t && WithinBuilds(t)
    ensures forall b :: b in Descendants(t, a) ==> t[b].build == t[a].build
  {
    forall b | b in Descendants(t, a)
      ensures t[b].build == t[a].build
    {
      var line :| LineFromTo(t, line, a, b);
      LineWithinBuild(t, line);
    }
  }

  /******* Upwards *******/

  lemma {:induction false} DescendsFromParent(t: Table, a: JobId, b: JobId, c: JobId)
    requires Parent(t, b, a) && Descends(t, b, c)
    ensures Descends(t, a, c)
  {
    var line :| LineFromTo(t, line, b, c);
    var longer := [a] + line;
    forall i | 0 <= i < |longer| - 1
      ensures Parent(t, longer[i + 1], longer[i])
    {
      if i > 0 {
        assert longer[i] == line[i - 1] && longer[i + 1] == line[i];
      }
    }
    assert LineFromTo(t, longer, a, c);
  }

  lemma {:induction false} ClosedHoldsLineUp(t: Table, s: set<JobId>, line: seq<JobId>)
    requires Line(t, line) && line[|line| - 1] in s
    requires forall c, p :: c in s && Parent(t, c, p) ==> p in s
    ensures line[0] in s
  {
    if |line| > 1 {
      var k := |line| - 1;
      assert Parent(t, line[k], line[k - 1]);
      ClosedHoldsLineUp(t, s, line[..k]);
    }
  }

  /** The jobs from which `k` descends in at least one step. */
  ghost function StrictAncestors(t: Table, k: JobId): set<JobId> {
    set a | a in t && exists p :: Parent(t, k, p) && Descends(t, a, p)
  }

  lemma {:induction false} DescendsLastStep(t: Table, j: JobId, k: JobId)
    requires j in t && k in t
    ensures Descends(t, j, k) <==> k == j || j in StrictAncestors(t, k)
  {
    if Descends(t, j, k) && k != j {
      var line :| LineFromTo(t, line, j, k);
      var m := |line| - 1;
      assert LineFromTo(t, line[..m], j, line[m - 1]);
      assert Parent(t, k, line[m - 1]);
    }
    if j in StrictAncestors(t, k) {
      var p :| Parent(t, k, p) && Descends(t, j, p);
      DescendsFurther(t, j, p, k);
    }
    assert LineFromTo(t, [j], j, j);
  }
}
