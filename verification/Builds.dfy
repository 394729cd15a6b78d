/** Build numbers and restart counters of one project. */
module Builds {
  import opened Base

  datatype Build = Build(number: nat, restartCounter: nat)

  function Numbers(builds: seq<Build>): set<nat> {
    set i | 0 <= i < |builds| :: builds[i].number
  }

  /** The numbers in use are exactly 1..n. */
  ghost predicate Dense(builds: seq<Build>, n: nat) {
    forall k: nat :: k in Numbers(builds) <==> 1 <= k <= n
  }

  /** `UNIQUE (project_id, build_number, restart_counter)` */
  ghost predicate UniquePairs(builds: seq<Build>) {
    NoDuplicates(builds)
  }

  /** The restart counters of each number start at 1 and have no gap. */
  ghost predicate Counted(builds: seq<Build>) {
    forall b :: b in builds ==>
      b.restartCounter >= 1 && (b.restartCounter > 1 ==> Build(b.number, b.restartCounter - 1) in builds)
  }

  ghost predicate Consistent(builds: seq<Build>) {
    UniquePairs(builds) && Counted(builds) && exists n :: Dense(builds, n)
  }

  lemma {:induction false} CountOneTo(s: set<nat>, n: nat)
    requires forall k: nat :: k in s <==> 1 <= k <= n
    ensures |s| == n
  {
    if n > 0 {
      CountOneTo(s - {n}, n - 1);
    } else {
      assert s == {};
    }
  }

  lemma {:induction false} NumbersSnoc(builds: seq<Build>, b: Build)
    ensures Numbers(builds + [b]) == Numbers(builds) + {b.number}
  {
    forall k
      ensures k in Numbers(builds + [b]) <==> k in Numbers(builds) + {b.number}
    {
      if k in Numbers(builds) {
        var i :| 0 <= i < |builds| && builds[i].number == k;
        assert (builds + [b])[i].number == k;
      }
      assert (builds + [b])[|builds|] == b;
    }
  }

  /** The three ways to get a build: trigger, upload, restart of a build. */
  class Project {
    var builds: seq<Build>

    constructor ()
      ensures builds == [] && Consistent(builds)
    {
      builds := [];
      new;
      assert Dense(builds, 0);
    }

    /** `SELECT max(build_number)`, or 0 if there is no build. */
    method MaxNumber() returns (m: nat)
      ensures forall i :: 0 <= i < |builds| ==> builds[i].number <= m
      ensures builds == [] ==> m == 0
      ensures builds != [] ==> m in Numbers(builds)
    {
      m := 0;
      for i := 0 to |builds|
        invariant forall k :: 0 <= k < i ==> builds[k].number <= m
        invariant i == 0 ==> m == 0
        invariant i > 0 ==> exists k :: 0 <= k < i && builds[k].number == m
      {
        if i == 0 || m < builds[i].number {
          m := builds[i].number;
        }
      }
    }

    /** `SELECT max(restart_counter) ... WHERE build_number = ...` */
    method MaxCounter(number: nat) returns (m: nat)
      ensures forall i :: 0 <= i < |builds| && builds[i].number == number ==> builds[i].restartCounter <= m
      ensures m > 0 ==> Build(number, m) in builds
    {
      m := 0;
      for i := 0 to |builds|
        invariant m > 0 ==> Build(number, m) in builds
        invariant forall k :: 0 <= k < i && builds[k].number == number ==> builds[k].restartCounter <= m
      {
        if builds[i].number == number && m < builds[i].restartCounter {
          m := builds[i].restartCounter;
          assert builds[i] == Build(number, m);
        }
      }
    }

    /** Trigger: the greatest number plus one, or 1. */
    method Trigger() returns (number: nat)
      requires Consistent(builds)
      modifies this
      ensures Consistent(builds) && builds == old(builds) + [Build(number, 1)]
      ensures number > 0 && Dense(old(builds), number - 1)
    {
      ghost var n :| Dense(builds, n);
      var m := MaxNumber();
      if builds == [] {
        number := 1;
      } else {
        number := m + 1;
      }
      MaxIsCount(builds, n, m);
      Append(builds, n, Build(number, 1));
      builds := builds + [Build(number, 1)];
    }

    /** Upload: the number of distinct numbers plus one. */
    method Upload() returns (number: nat)
      requires Consistent(builds)
      modifies this
      ensures Consistent(builds) && builds == old(builds) + [Build(number, 1)]
      ensures number > 0 && Dense(old(builds), number - 1)
    {
      ghost var n :| Dense(builds, n);
      number := |Numbers(builds)| + 1;
      CountOneTo(Numbers(builds), n);
      Append(builds, n, Build(number, 1));
      builds := builds + [Build(number, 1)];
    }

    /** Restart of the build at position `i`: the same number, the next counter. */
    method RestartBuild(i: nat) returns (counter: nat)
      requires Consistent(builds) && i < |builds|
      modifies this
      ensures Consistent(builds) && builds == old(builds) + [Build(old(builds)[i].number, counter)]
      ensures Numbers(builds) == Numbers(old(builds))
      ensures counter > 1 && Build(old(builds)[i].number, counter - 1) in old(builds)
    {
      ghost var n :| Dense(builds, n);
      var m := MaxCounter(builds[i].number);
      counter := m + 1;
      var b := Build(builds[i].number, counter);
      NumbersSnoc(builds, b);
      assert b.number in Numbers(builds);
      assert Dense(builds + [b], n);
      assert builds[i] in builds;
      builds := builds + [b];
    }
  }

  /** On a consistent history the formulas of trigger and upload agree. */
  lemma {:induction false} MaxIsCount(builds: seq<Build>, n: nat, m: nat)
    requires Dense(builds, n)
    requires forall i :: 0 <= i < |builds| ==> builds[i].number <= m
    requires builds == [] ==> m == 0
    requires builds != [] ==> m in Numbers(builds)
    ensures m == n == |Numbers(builds)|
  {
    CountOneTo(Numbers(builds), n);
    forall i | 0 <= i < |builds|
      ensures builds[i].number in Numbers(builds)
    {
    }
    if n > 0 {
      assert n in Numbers(builds);
    }
  }

  lemma {:induction false} Append(builds: seq<Build>, n: nat, b: Build)
    requires Dense(builds, n) && UniquePairs(builds) && Counted(builds) && b == Build(n + 1, 1)
    ensures Consistent(builds + [b])
  {
    NumbersSnoc(builds, b);
    assert Dense(builds + [b], n + 1);
    forall i | 0 <= i < |builds|
      ensures builds[i] != b
    {
      assert builds[i].number in Numbers(builds);
    }
  }
}
