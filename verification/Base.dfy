/** Types shared by the workflow compiler, the scheduler and the job API. */
module Base {

  datatype Option<+T> = None | Some(value: T)

  /** The outcome of a handler that may raise or abort instead of answering. */
  datatype Result<+T> = Ok(value: T) | Err(message: string)

  /** The states of a row of the `job` table. */
  datatype JobState =
    | Queued | Scheduled | Running
    | Finished | Failure | Error | Skipped | Killed

  /** A job that is still waiting for something or being worked on. */
  predicate Active(s: JobState) {
    s.Queued? || s.Scheduled? || s.Running?
  }

  predicate Terminal(s: JobState) {
    !Active(s)
  }

  /** What a runner may report about its own job. */
  predicate Outcome(s: JobState) {
    s.Finished? || s.Failure? || s.Error?
  }

  /** One entry of an `on` list: a state, the wildcard `*`, or some other text. */
  datatype OnValue = Is(state: JobState) | Star | Unknown(text: string)

  /** One entry of a `depends_on` list; a bare job name has no `on` list. */
  datatype DependsOn = DependsOn(job: string, on: Option<seq<OnValue>>)

  ghost predicate NoDuplicates<T>(s: seq<T>) {
    forall i, j :: 0 <= i < j < |s| ==> s[i] != s[j]
  }

  lemma {:induction false} NoDuplicatesSnoc<T>(s: seq<T>, x: T)
    requires NoDuplicates(s)
    requires x !in s
    ensures NoDuplicates(s + [x])
  {
  }

  /** A duplicate-free list is no longer than a finite set that holds its elements. */
  lemma {:induction false} NoDuplicatesFits<T>(s: seq<T>, all: set<T>)
    requires NoDuplicates(s)
    requires forall x :: x in s ==> x in all
    ensures |s| <= |all|
  {
    if s != [] {
      var n := |s| - 1;
      NoDuplicatesFits(s[..n], all - {s[n]});
    }
  }

  lemma {:induction false} MapPlusAssociative<K, V>(a: map<K, V>, b: map<K, V>, c: map<K, V>)
    ensures (a + b) + c == a + (b + c)
  {
  }

  lemma {:induction false} MapPlusUpdate<K, V>(a: map<K, V>, b: map<K, V>, k: K, v: V)
    ensures (a + b)[k := v] == a + b[k := v]
  {
  }
}
