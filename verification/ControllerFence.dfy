/** What must have happened before the controller creates anything: the finalizer update as a fence. */
module ControllerFence {
  import opened Base
  import opened Controller

  /** No sync starts and none is lost between the steps `r` and `n`. */
  ghost predicate SameSync(es: seq<Event>, r: nat, n: nat) {
    r < n <= |es| && es[r].Begin? && forall k :: r < k < n ==> !es[k].Begin? && !es[k].Crash?
  }

  /** The sync began at `r` with a copy that is neither deleting nor in error, and saw no batch job. */
  ghost predicate Opened(es: seq<Event>, r: nat, n: nat, copy: IBJob) {
    SameSync(es, r, n) && es[r] == Begin(Some(copy), Missing) && !copy.deleting && !copy.error
  }

  /**
   At step `m` of the sync the update of the finalizer succeeded, `copy` being the stored object at
   that moment and `held` the stored object right after it.
   */
  ghost predicate Fence(ws: seq<World>, es: seq<Event>, r: nat, m: nat, n: nat, copy: IBJob, held: IBJob)
    requires |ws| == |es| + 1
  {
    && Opened(es, r, n, copy)
    && r < m < n
    && es[m] == Call(Success) && ws[m].point == Adding(copy)
    && ws[m].stored == Some(copy)
    && ws[m + 1].stored == Some(held) && held.finalizer && held.services == copy.services
  }

  /** Between `m` and `n` the sync got the service with index `j` and found it ready. */
  ghost predicate SeenReady(ws: seq<World>, es: seq<Event>, m: nat, n: nat, held: IBJob, j: nat)
    requires |ws| == |es| + 1 && j < |held.services|
  {
    exists k :: m < k < n <= |es| && es[k] == Get(false) && ws[k].point.Probing? && ws[k].point.i == j &&
                held.services[j] in ws[k].services && ws[k].services[held.services[j]] == Ready
  }

  ghost predicate AllReady(ws: seq<World>, es: seq<Event>, m: nat, n: nat, held: IBJob, i: nat)
    requires |ws| == |es| + 1
  {
    i <= |held.services| && forall j :: 0 <= j < i ==> SeenReady(ws, es, m, n, held, j)
  }

  ghost predicate Passed(ws: seq<World>, es: seq<Event>, n: nat, copy: IBJob, held: IBJob, ready: bool, i: nat)
    requires |ws| == |es| + 1
  {
    exists r, m :: Fence(ws, es, r, m, n, copy, held) && (ready ==> AllReady(ws, es, m, n, held, i))
  }

  /** What the past holds for a sync that has reached the point of `ws[n]`. */
  ghost predicate Past(ws: seq<World>, es: seq<Event>, n: nat)
    requires |ws| == |es| + 1 && n < |ws|
  {
    match ws[n].point
    case Adding(copy) => exists r :: Opened(es, r, n, copy)
    case Probing(copy, held, i, ready) => Passed(ws, es, n, copy, held, ready, i)
    case Posting(copy, held, i, ready) => Passed(ws, es, n, copy, held, false, i)
    case BatchLookup(copy, held) => Passed(ws, es, n, copy, held, true, |held.services|)
    case BatchPosting(copy, held) => Passed(ws, es, n, copy, held, true, |held.services|)
    case _ => true
  }

  /** One more step that neither begins nor loses a sync. */
  lemma {:induction false} PassedStays(ws: seq<World>, es: seq<Event>, n: nat, copy: IBJob, held: IBJob, ready: bool,
      i: nat)
    requires |ws| == |es| + 1 && n < |es| && Passed(ws, es, n, copy, held, ready, i)
    requires !es[n].Begin? && !es[n].Crash?
    ensures Passed(ws, es, n + 1, copy, held, ready, i)
  {
    var r, m :| Fence(ws, es, r, m, n, copy, held) && (ready ==> AllReady(ws, es, m, n, held, i));
    var next := n + 1;
    assert Fence(ws, es, r, m, next, copy, held);
    if ready {
      forall j | 0 <= j < i
        ensures SeenReady(ws, es, m, next, held, j)
      {
        assert SeenReady(ws, es, m, n, held, j);
      }
      assert AllReady(ws, es, m, next, held, i);
    }
  }

  /** A get that finds the next service ready. */
  lemma {:induction false} PassedGrows(ws: seq<World>, es: seq<Event>, n: nat, copy: IBJob, held: IBJob, i: nat)
    requires |ws| == |es| + 1 && n < |es| && Passed(ws, es, n, copy, held, true, i)
    requires i < |held.services| && es[n] == Get(false) && ws[n].point.Probing? && ws[n].point.i == i
    requires held.services[i] in ws[n].services && ws[n].services[held.services[i]] == Ready
    ensures Passed(ws, es, n + 1, copy, held, true, i + 1)
  {
    var r, m :| Fence(ws, es, r, m, n, copy, held) && AllReady(ws, es, m, n, held, i);
    var next := n + 1;
    assert Fence(ws, es, r, m, next, copy, held);
    forall j | 0 <= j < i + 1
      ensures SeenReady(ws, es, m, next, held, j)
    {
      assert j < i ==> SeenReady(ws, es, m, n, held, j);
    }
    assert AllReady(ws, es, m, next, held, i + 1);
  }

  lemma {:induction false} PastAfterGet(ws: seq<World>, es: seq<Event>, n: nat)
    requires Behaviour(ws, es) && n < |es| && Past(ws, es, n) && es[n].Get?
    ensures Past(ws, es, n + 1)
  {
    var Probing(copy, held, i, ready) := ws[n].point;
    PassedStays(ws, es, n, copy, held, ready, i);
    if ready && !es[n].failed && held.services[i] in ws[n].services && ws[n].services[held.services[i]] == Ready {
      PassedGrows(ws, es, n, copy, held, i);
    }
  }

  /** The fence itself: the update of the finalizer succeeds. */
  lemma {:induction false} PastAfterUpdate(ws: seq<World>, es: seq<Event>, n: nat)
    requires Behaviour(ws, es) && n < |es| && Past(ws, es, n)
    requires es[n] == Call(Success) && ws[n].point.Adding?
    ensures Past(ws, es, n + 1)
  {
    var w, copy := ws[n], ws[n].point.copy;
    ReachableInv(ws, es, n);
    var r :| Opened(es, r, n, copy);
    WriteKeeps(w, copy.(finalizer := true));
    var held := ws[n + 1].stored.value;
    assert Fence(ws, es, r, n, n + 1, copy, held);
    assert AllReady(ws, es, n, n + 1, held, 0);
    assert Passed(ws, es, n + 1, copy, held, true, 0);
  }

  lemma {:induction false} PastAfterCall(ws: seq<World>, es: seq<Event>, n: nat)
    requires Behaviour(ws, es) && n < |es| && Past(ws, es, n) && es[n].Call?
    ensures Past(ws, es, n + 1)
  {
    if es[n] == Call(Success) && ws[n].point.Adding? {
      PastAfterUpdate(ws, es, n);
    } else if es[n] == Call(Success) && ws[n].point.Posting? {
      PassedStays(ws, es, n, ws[n].point.copy, ws[n].point.held, false, ws[n].point.i);
    }
  }

  /** A step of the environment, or of another point, leaves the sync where it is. */
  lemma {:induction false} PastStays(ws: seq<World>, es: seq<Event>, n: nat)
    requires |ws| == |es| + 1 && n < |es| && Past(ws, es, n) && ws[n + 1].point == ws[n].point
    requires !es[n].Begin? && !es[n].Crash?
    ensures Past(ws, es, n + 1)
  {
    match ws[n].point
    case Adding(copy) =>
      var r :| Opened(es, r, n, copy);
      assert Opened(es, r, n + 1, copy);
    case Probing(copy, held, i, ready) => PassedStays(ws, es, n, copy, held, ready, i);
    case Posting(copy, held, i, _) => PassedStays(ws, es, n, copy, held, false, i);
    case BatchLookup(copy, held) => PassedStays(ws, es, n, copy, held, true, |held.services|);
    case BatchPosting(copy, held) => PassedStays(ws, es, n, copy, held, true, |held.services|);
    case _ =>
  }

  lemma {:induction false} PastAfterAsk(ws: seq<World>, es: seq<Event>, n: nat)
    requires Behaviour(ws, es) && n < |es| && Past(ws, es, n) && es[n].Ask?
    ensures Past(ws, es, n + 1)
  {
    if ws[n].point.BatchLookup? {
      var BatchLookup(copy, held) := ws[n].point;
      PassedStays(ws, es, n, copy, held, true, |held.services|);
    }
  }

  lemma {:induction false} PastAfterBegin(ws: seq<World>, es: seq<Event>, n: nat)
    requires Behaviour(ws, es) && n < |es| && es[n].Begin?
    ensures Past(ws, es, n + 1)
  {
    if ws[n + 1].point.Adding? {
      assert Opened(es, n, n + 1, ws[n + 1].point.copy);
    }
  }

  lemma {:induction false} EnvironmentKeepsPoint(w: World, e: Event)
    requires Enabled(w, e) && !e.Begin? && !e.Call? && !e.Get? && !e.Ask? && !e.List? && !e.Crash?
    ensures Next(w, e).point == w.point
  {
  }

  lemma {:induction false} PastStep(ws: seq<World>, es: seq<Event>, n: nat)
    requires Behaviour(ws, es) && n < |es| && Past(ws, es, n)
    ensures Past(ws, es, n + 1)
  {
    match es[n]
    case Get(_) => PastAfterGet(ws, es, n);
    case Call(_) => PastAfterCall(ws, es, n);
    case Begin(_, _) => PastAfterBegin(ws, es, n);
    case Ask(_) => PastAfterAsk(ws, es, n);
    case List(_) =>
    case Crash =>
    case _ =>
      EnvironmentKeepsPoint(ws[n], es[n]);
      PastStays(ws, es, n);
  }

  lemma {:induction false} PastHolds(ws: seq<World>, es: seq<Event>, n: nat)
    requires Behaviour(ws, es) && n < |ws|
    ensures Past(ws, es, n)
  {
    if n > 0 {
      PastHolds(ws, es, n - 1);
      PastStep(ws, es, n - 1);
    }
  }

  /** Only a call at the posting point makes a service appear. */
  lemma {:induction false} ServiceAppears(w: World, e: Event, id: ServiceId)
    requires Enabled(w, e) && id !in w.services && id in Next(w, e).services
    ensures w.point.Posting? && w.point.i < |w.point.held.services| && w.point.held.services[w.point.i] == id
  {
    match e
    case Call(_) =>
    case _ =>
  }

  /**
   Main result, first half.  A service appears only in a sync whose finalizer update succeeded
   before, from an object that was stored at that moment, not deleting and not in error; and the
   service is one that this object lists.
   */
  lemma {:induction false} ServicesAreFenced(ws: seq<World>, es: seq<Event>, n: nat, id: ServiceId)
    requires Behaviour(ws, es) && n < |es|
    requires id !in ws[n].services && id in ws[n + 1].services
    ensures exists r, m, copy, held :: Fence(ws, es, r, m, n, copy, held) && id in copy.services
  {
    ServiceAppears(ws[n], es[n], id);
    PastHolds(ws, es, n);
    var Posting(copy, held, i, _) := ws[n].point;
    var r, m :| Fence(ws, es, r, m, n, copy, held);
    assert held.services == copy.services;
  }

  /**
   Main result, second half.  A batch job appears only in a sync that passed the same fence and,
   after it, found every service the object lists ready.
   */
  lemma {:induction false} BatchJobIsFenced(ws: seq<World>, es: seq<Event>, n: nat)
    requires Behaviour(ws, es) && n < |es|
    requires !ws[n].batch && ws[n + 1].batch
    ensures exists r, m, copy, held ::
      Fence(ws, es, r, m, n, copy, held) && AllReady(ws, es, m, n, held, |copy.services|)
  {
    PastHolds(ws, es, n);
    assert ws[n].point.BatchPosting?;
    var BatchPosting(copy, held) := ws[n].point;
    var r, m :| Fence(ws, es, r, m, n, copy, held) && AllReady(ws, es, m, n, held, |held.services|);
  }
}
