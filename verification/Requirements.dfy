/** Conjunctions of conditions on what jobs report: which reports each named job may make. */
module Requirements {
  import opened Base

  /** A name that is not listed may report any outcome. */
  type Requirement = map<string, set<JobState>>

  const OUTCOMES: set<JobState> := {Finished, JobState.Failure, JobState.Error}
  const ALWAYS: Requirement := map[]

  /** Whatever the job of the empty name reports, it is too much. */
  const NEVER: Requirement := map["" := {}]

  predicate Holds(r: Requirement, o: string -> JobState) {
    forall name :: name in r ==> o(name) in r[name]
  }

  /** What runners report: finished, failure or error. */
  ghost predicate OutcomesOnly(o: string -> JobState) {
    forall name :: Outcome(o(name))
  }

  function Allowed(r: Requirement, name: string): set<JobState> {
    if name in r then r[name] * OUTCOMES else OUTCOMES
  }

  function And(a: Requirement, b: Requirement): Requirement {
    map name | name in a.Keys + b.Keys :: Allowed(a, name) * Allowed(b, name)
  }

  predicate Satisfiable(r: Requirement) {
    forall name :: name in r ==> Allowed(r, name) != {}
  }

  predicate Implies(a: Requirement, b: Requirement) {
    Satisfiable(a) ==> forall name :: name in b ==> Allowed(a, name) <= Allowed(b, name)
  }

  predicate Same(a: Requirement, b: Requirement) {
    Implies(a, b) && Implies(b, a)
  }

  lemma {:induction false} Extremes(o: string -> JobState)
    ensures Holds(ALWAYS, o) && !Holds(NEVER, o)
  {
    assert "" in NEVER;
  }

  lemma {:induction false} HoldsIsAllowed(r: Requirement, o: string -> JobState)
    requires OutcomesOnly(o)
    ensures Holds(r, o) <==> forall name :: name in r ==> o(name) in Allowed(r, name)
    ensures Holds(r, o) ==> forall name :: o(name) in Allowed(r, name)
  {
    assert forall name :: Outcome(o(name)) ==> o(name) in OUTCOMES;
  }

  lemma {:induction false} AndHolds(a: Requirement, b: Requirement, o: string -> JobState)
    requires OutcomesOnly(o)
    ensures Holds(And(a, b), o) <==> Holds(a, o) && Holds(b, o)
  {
    HoldsIsAllowed(a, o);
    HoldsIsAllowed(b, o);
    if Holds(And(a, b), o) {
      forall name | name in a || name in b
        ensures o(name) in Allowed(a, name) && o(name) in Allowed(b, name)
      {
        assert name in And(a, b);
      }
    }
  }

  /** Outcomes that meet a requirement meet what it implies ... */
  lemma {:induction false} ImpliesHolds(a: Requirement, b: Requirement, o: string -> JobState)
    requires OutcomesOnly(o) && Implies(a, b) && Holds(a, o)
    ensures Holds(b, o)
  {
    HoldsIsAllowed(a, o);
    HoldsIsAllowed(b, o);
    assert Satisfiable(a) by {
      forall name | name in a
        ensures Allowed(a, name) != {}
      {
        assert o(name) in Allowed(a, name);
      }
    }
  }

  /** ... and only then does every such choice of outcomes. */
  lemma {:induction false} NotImplied(a: Requirement, b: Requirement) returns (o: string -> JobState)
    requires !Implies(a, b)
    ensures OutcomesOnly(o) && Holds(a, o) && !Holds(b, o)
  {
    var name :| name in b && !(Allowed(a, name) <= Allowed(b, name));
    var s :| s in Allowed(a, name) && s !in Allowed(b, name);
    o := x => if x == name then s else Choice(Allowed(a, x));
    forall x
      ensures o(x) in Allowed(a, x) && Outcome(o(x))
    {
      assert Allowed(a, x) != {};
    }
    HoldsIsAllowed(a, o);
    HoldsIsAllowed(b, o);
    assert o(name) == s;
  }

  function Choice(s: set<JobState>): (c: JobState)
    ensures Outcome(c)
    ensures s != {} && s <= OUTCOMES ==> c in s
  {
    if Finished in s then Finished else if JobState.Failure in s then JobState.Failure else JobState.Error
  }
}
