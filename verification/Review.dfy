/** The vote given to a Gerrit change from the states of the jobs of a build. */
module Review {
  import opened Base
  import opened JobTable
  import opened Lifecycle
  import opened Outcomes

  datatype Vote = NoVote | Minus | Zero | Plus

  /** One row of `SELECT state, count(*) ... GROUP BY state`. */
  datatype Group = Group(state: JobState, count: nat)

  /** The groups of the rows of a build, in whatever order the database lists them. */
  ghost predicate GroupsOf(t: Table, groups: seq<Group>) {
    && (forall i, j :: 0 <= i < j < |groups| ==> groups[i].state != groups[j].state)
    && (forall i :: 0 <= i < |groups| ==> groups[i].count == |WithState(t, groups[i].state)| > 0)
    && (forall id :: id in t ==> exists i :: 0 <= i < |groups| && groups[i].state == t[id].state)
  }

  function WithState(t: Table, s: JobState): set<JobId> {
    set id | id in t && t[id].state == s
  }

  ghost predicate SomeActive(t: Table) {
    exists id :: id in t && Active(t[id].state)
  }

  ghost predicate AllFinished(t: Table) {
    forall id :: id in t ==> t[id].state == Finished
  }

  /** The vote a non-empty build deserves. */
  ghost function Verdict(t: Table): Vote {
    if SomeActive(t) then Zero else if AllFinished(t) then Plus else Minus
  }

  lemma {:induction false} VerdictMeans(t: Table)
    ensures Verdict(t) == Plus <==> !SomeActive(t) && AllFinished(t)
    ensures Verdict(t) == Zero <==> SomeActive(t)
    ensures Verdict(t) == Minus <==> !SomeActive(t) && !AllFinished(t)
    ensures Verdict(t) != NoVote
    ensures SomeActive(t) <==> exists id :: id in t && t[id].state in {Queued, Scheduled, Running}
    ensures AllFinished(t) ==> !SomeActive(t)
  {
  }

  /** The vote computed from the groups, whatever their order, is the verdict on the build. */
  method ComputeVote(groups: seq<Group>, ghost t: Table) returns (vote: Vote)
    requires GroupsOf(t, groups) && t != map[]
    ensures vote == Verdict(t)
    ensures vote == Plus <==> forall id :: id in t ==> t[id].state == Finished
    ensures vote == Zero <==> exists id :: id in t && t[id].state in {Queued, Scheduled, Running}
    ensures vote == Minus <==>
      && (forall id :: id in t ==> t[id].state !in {Queued, Scheduled, Running})
      && (exists id :: id in t && t[id].state != Finished)
  {
    hide Verdict, GroupsOf;
    GroupsReflect(t, groups);
    VerdictMeans(t);
    vote := NoVote;
    if |groups| == 1 && groups[0].state == Finished {
      vote := Plus;
    } else {
      for i := 0 to |groups|
        invariant forall k :: 0 <= k < i ==> !Active(groups[k].state)
        invariant vote == Minus <==> exists k :: 0 <= k < i && groups[k].state != Finished
        invariant vote == NoVote || vote == Minus
      {
        if Active(groups[i].state) {
          vote := Zero;
          break;
        } else if groups[i].state != Finished {
          vote := Minus;
        }
      }
    }
  }

  lemma {:induction false} GroupInhabited(t: Table, groups: seq<Group>, i: nat) returns (id: JobId)
    requires GroupsOf(t, groups) && i < |groups|
    ensures id in t && t[id].state == groups[i].state
  {
    assert WithState(t, groups[i].state) != {};
    id :| id in WithState(t, groups[i].state);
  }

  lemma {:induction false} GroupsReflect(t: Table, groups: seq<Group>)
    requires GroupsOf(t, groups) && t != map[]
    ensures SomeActive(t) <==> exists i :: 0 <= i < |groups| && Active(groups[i].state)
    ensures AllFinished(t) <==> |groups| == 1 && groups[0].state == Finished
    ensures AllFinished(t) <==> forall i :: 0 <= i < |groups| ==> groups[i].state == Finished
  {
    if i :| 0 <= i < |groups| && Active(groups[i].state) {
      var id := GroupInhabited(t, groups, i);
    }
    GroupsFinished(t, groups);
  }

  lemma {:induction false} GroupsFinished(t: Table, groups: seq<Group>)
    requires GroupsOf(t, groups) && t != map[]
    ensures AllFinished(t) <==> |groups| == 1 && groups[0].state == Finished
    ensures AllFinished(t) <==> forall i :: 0 <= i < |groups| ==> groups[i].state == Finished
  {
    var some :| some in t;
    var g :| 0 <= g < |groups| && groups[g].state == t[some].state;
    if AllFinished(t) {
      forall i | 0 <= i < |groups|
        ensures groups[i].state == Finished
      {
        var id := GroupInhabited(t, groups, i);
      }
      assert groups[0].state == Finished && groups[|groups| - 1].state == Finished;
    }
  }

  /** A vote of -1 or +1 means that nothing is left to do. */
  lemma {:induction false} FinalVoteMeansComplete(t: Table)
    ensures Verdict(t) == Minus || Verdict(t) == Plus <==> Complete(t)
  {
    if Complete(t) {
      assert !SomeActive(t);
    }
  }

  /**
   The handler behind a job update.  It votes -1 or +1 exactly when the build is complete, whichever
   terminal job it is told about, and 0 only for the job that creates the others.
   */
  method HandleJobUpdate(jobName: string, jobState: JobState, groups: seq<Group>, ghost t: Table)
    returns (sent: Option<Vote>)
    requires GroupsOf(t, groups) && t != map[]
    ensures sent.Some? ==> sent.value == Verdict(t)
    ensures sent == Some(Minus) || sent == Some(Plus) <==> !Active(jobState) && Complete(t)
    ensures sent == Some(Plus) <==> !Active(jobState) && forall id :: id in t ==> t[id].state == Finished
    ensures sent == Some(Zero) <==> !Active(jobState) && !Complete(t) && jobName == "Create Jobs"
  {
    if Active(jobState) {
      return None;
    }
    var vote := ComputeVote(groups, t);
    FinalVoteMeansComplete(t);
    if (jobName == "Create Jobs" && vote == Zero) || vote == Minus || vote == Plus {
      return Some(vote);
    }
    sent := None;
  }

  /** A vote of -1 or +1 stays right until a job of the build is restarted. */
  lemma {:induction false} FinalVoteStays(s: System, es: seq<Event>, build: BuildId)
    requires IsRun(s, es) && forall i :: 0 <= i < |es| ==> !es[i].Restart?
    requires BuildRows(s.table, build) != map[] && Verdict(BuildRows(s.table, build)) != Zero
    ensures Verdict(BuildRows(After(s, es).table, build)) == Verdict(BuildRows(s.table, build))
  {
    FinalVoteMeansComplete(BuildRows(s.table, build));
    QuiescentBuildStays(s, es, build);
  }
}
