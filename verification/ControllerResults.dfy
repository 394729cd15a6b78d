/**
 What one sync achieves, told by the world before and after it and by the answers it gets.  A sync is
 over when the next one can begin.
 */
module ControllerResults {
  import opened Base
  import opened Controller
  import opened ControllerFence

  ghost predicate Run(w: World, es: seq<Event>)
    decreases |es|
  {
    es == [] || (Enabled(w, es[0]) && Run(Next(w, es[0]), es[1..]))
  }

  ghost function End(w: World, es: seq<Event>): World
    requires Run(w, es)
    decreases |es|
  {
    if es == [] then w else End(Next(w, es[0]), es[1..])
  }

  predicate Rested(w: World) {
    Enabled(w, Begin(None, Found))
  }

  lemma {:induction false} RunFirst(w: World, e: Event, es: seq<Event>)
    requires Enabled(w, e)
    ensures Run(w, [e] + es) <==> Run(Next(w, e), es)
    ensures Run(w, [e] + es) ==> End(w, [e] + es) == End(Next(w, e), es)
  {
    assert ([e] + es)[1..] == es;
  }

  /******* Deletion *******/

  /** Every call succeeds, the object is still listed, and the pods are listed. */
  predicate DeletesWell(e: Event) {
    e == Call(Success) || e == Ask(Found) || e == List(false)
  }

  ghost predicate DeletePhase(w0: World, copy: IBJob, w: World) {
    if w.point.Idle? then
      && !w.batch && w.pods == 0 && Dropped(w, copy, |copy.services|)
      && w.stored == if w0.pods == 0 then None else Some(copy)
    else
      && w.stored == Some(copy) && w.point.copy == copy
      && (w.point.DroppingPods? || w.pods == w0.pods)
      && match w.point
         case DroppingServices(_, i) => i < |copy.services| && Dropped(w, copy, i)
         case DroppingLookup(_, done) => done && Dropped(w, copy, |copy.services|)
         case DroppingBatch(_, done) => done && Dropped(w, copy, |copy.services|)
         case ListingPods(_, done) => done && Dropped(w, copy, |copy.services|) && !w.batch
         case DroppingPods(_, left) =>
           Dropped(w, copy, |copy.services|) && !w.batch && 0 < left == w.pods && w0.pods > 0
         case Releasing(_) => Dropped(w, copy, |copy.services|) && !w.batch && w.pods == 0
         case _ => false
  }

  /** How many answers a deletion still needs. */
  function DeleteLeft(w: World): nat {
    match w.point
    case DroppingServices(copy, i) => w.pods + 5 + if i < |copy.services| then |copy.services| - i else 0
    case DroppingLookup(_, _) => w.pods + 4
    case DroppingBatch(_, _) => w.pods + 3
    case ListingPods(_, _) => w.pods + 2
    case DroppingPods(_, left) => left
    case Releasing(_) => 1
    case _ => 0
  }

  lemma {:induction false} DeleteStep(w0: World, copy: IBJob, w: World, e: Event)
    requires copy.deleting && copy.finalizer && DeletePhase(w0, copy, w)
    requires Enabled(w, e) && DeletesWell(e)
    ensures DeletePhase(w0, copy, Next(w, e)) && DeleteLeft(Next(w, e)) < DeleteLeft(w)
  {
  }

  lemma {:induction false} DeleteGoesOn(w0: World, copy: IBJob, w: World) returns (e: Event)
    requires DeletePhase(w0, copy, w) && !w.point.Idle?
    ensures Enabled(w, e) && DeletesWell(e)
  {
    e := if w.point.DroppingLookup? then Ask(Found) else if w.point.ListingPods? then List(false) else Call(Success);
  }

  lemma {:induction false} DeleteRun(w0: World, copy: IBJob, w: World, es: seq<Event>)
    requires copy.deleting && copy.finalizer && DeletePhase(w0, copy, w)
    requires Run(w, es) && forall e :: e in es ==> DeletesWell(e)
    ensures DeletePhase(w0, copy, End(w, es))
    decreases |es|
  {
    if es != [] {
      DeleteStep(w0, copy, w, es[0]);
      DeleteRun(w0, copy, Next(w, es[0]), es[1..]);
    }
  }

  lemma {:induction false} DeleteEnds(w0: World, copy: IBJob, w: World) returns (es: seq<Event>)
    requires copy.deleting && copy.finalizer && DeletePhase(w0, copy, w)
    ensures Run(w, es) && Rested(End(w, es)) && forall e :: e in es ==> DeletesWell(e)
    decreases DeleteLeft(w)
  {
    if w.point.Idle? {
      es := [];
    } else {
      var e := DeleteGoesOn(w0, copy, w);
      DeleteStep(w0, copy, w, e);
      var rest := DeleteEnds(w0, copy, Next(w, e));
      RunFirst(w, e, rest);
      es := [e] + rest;
    }
  }

  /**
   Main result: a sync of the stored object, while it is being deleted, with every answer a good one,
   leaves no batch job, no pod and no listed service; and the object is gone if there were no pods.
   */
  lemma {:induction false} DeletingSyncCleansUp(w: World, copy: IBJob, seen: Lookup, es: seq<Event>)
    requires Inv(w) && w.stored == Some(copy) && copy.deleting
    requires Run(w, [Begin(Some(copy), seen)] + es) && forall e :: e in es ==> DeletesWell(e)
    requires Rested(End(w, [Begin(Some(copy), seen)] + es))
    ensures var u := End(w, [Begin(Some(copy), seen)] + es);
      && !u.batch && u.pods == 0 && u.services == map[]
      && u.stored == if w.pods == 0 then None else Some(copy)
  {
    var e := Begin(Some(copy), seen);
    RunFirst(w, e, es);
    DeleteRun(w, copy, Next(w, e), es);
    var u := End(w, [e] + es);
    RunKeeps(w, [e] + es);
    NothingListed(u, copy);
  }

  lemma {:induction false} RunKeeps(w: World, es: seq<Event>)
    requires Inv(w) && Run(w, es)
    ensures Inv(End(w, es))
    decreases |es|
  {
    if es != [] {
      StepKeeps(w, es[0]);
      RunKeeps(Next(w, es[0]), es[1..]);
    }
  }

  /** There is such a sync. */
  lemma {:induction false} DeletingSyncExists(w: World, copy: IBJob, seen: Lookup) returns (es: seq<Event>)
    requires Inv(w) && w.stored == Some(copy) && copy.deleting && Rested(w)
    ensures Run(w, [Begin(Some(copy), seen)] + es) && forall e :: e in es ==> DeletesWell(e)
    ensures Rested(End(w, [Begin(Some(copy), seen)] + es))
  {
    var e := Begin(Some(copy), seen);
    es := DeleteEnds(w, copy, Next(w, e));
    RunFirst(w, e, es);
  }

  /******* Nothing to do *******/

  predicate Answer(e: Event) {
    e.Call? || e.Get? || e.Ask? || e.List?
  }

  /** A sync of an object in error, or whose batch job is there, makes no call and changes nothing. */
  lemma {:induction false} NothingToDo(w: World, copy: IBJob, seen: Lookup, es: seq<Event>)
    requires !copy.deleting && (copy.error || seen == Found)
    requires Run(w, [Begin(Some(copy), seen)] + es) && forall e :: e in es ==> Answer(e)
    ensures es == [] && End(w, [Begin(Some(copy), seen)] + es) == w
  {
    var e := Begin(Some(copy), seen);
    RunFirst(w, e, es);
    assert es == [] || Answer(es[0]);
  }

  /******* Creation *******/

  /** Every call and get succeeds, and no batch job is seen. */
  predicate CreatesWell(e: Event) {
    e == Call(Success) || e == Get(false) || e == Ask(Missing)
  }

  predicate IsReady(w: World, id: ServiceId) {
    id in w.services && w.services[id] == Ready
  }

  predicate IsFaulty(w: World, id: ServiceId) {
    id in w.services && w.services[id] == Faulty
  }

  ghost predicate NoneFaulty(w: World, copy: IBJob, i: nat) {
    i <= |copy.services| && forall j :: 0 <= j < i ==> !IsFaulty(w, copy.services[j])
  }

  ghost predicate ReadyUpTo(w: World, copy: IBJob, i: nat) {
    i <= |copy.services| && forall j :: 0 <= j < i ==> IsReady(w, copy.services[j])
  }

  /** The first `i` listed services exist, as they were before or freshly posted. */
  ghost predicate PresentUpTo(w0: World, copy: IBJob, w: World, i: nat) {
    && i <= |copy.services|
    && (forall j :: 0 <= j < i ==> copy.services[j] in w.services)
    && (forall id :: id in w0.services ==> id in w.services && w.services[id] == w0.services[id])
    && (forall id :: id in w.services && id !in w0.services ==> w.services[id] == Pending)
  }

  /** The stored object after the finalizer was set; the same as before if it was set already. */
  ghost predicate Fenced(copy: IBJob, w: World) {
    && w.stored.Some?
    && var held := w.stored.value;
       && held.finalizer && !held.deleting && !held.error && held.services == copy.services
       && (copy.finalizer ==> held == copy)
  }

  ghost predicate CreatePhase(w0: World, copy: IBJob, w: World) {
    match w.point
    case Adding(c) => c == copy && w.stored == Some(copy) && w.services == w0.services && !w.batch
    case Probing(c, held, i, ready) =>
      && c == copy && Fenced(copy, w) && held == w.stored.value && !w.batch && i < |copy.services|
      && PresentUpTo(w0, copy, w, i) && NoneFaulty(w0, copy, i) && (ready <==> ReadyUpTo(w0, copy, i))
    case Posting(c, held, i, ready) =>
      && c == copy && Fenced(copy, w) && held == w.stored.value && !w.batch && i < |copy.services|
      && PresentUpTo(w0, copy, w, i) && NoneFaulty(w0, copy, i) && copy.services[i] !in w.services
    case BatchLookup(c, _) =>
      && c == copy && Fenced(copy, w) && !w.batch
      && PresentUpTo(w0, copy, w, |copy.services|) && ReadyUpTo(w0, copy, |copy.services|)
    case BatchPosting(c, _) =>
      && c == copy && Fenced(copy, w) && !w.batch
      && PresentUpTo(w0, copy, w, |copy.services|) && ReadyUpTo(w0, copy, |copy.services|)
    case Reporting(c) => c == copy && Fenced(copy, w) && !w.batch && !NoneFaulty(w0, copy, |copy.services|)
    case Idle =>
      if NoneFaulty(w0, copy, |copy.services|) then
        && Fenced(copy, w) && PresentUpTo(w0, copy, w, |copy.services|)
        && (w.batch <==> ReadyUpTo(w0, copy, |copy.services|))
      else !w.batch && w.stored.Some? && w.stored.value.error
    case _ => false
  }

  /** How many answers a creation still needs, at most. */
  function CreateLeft(w: World): nat {
    match w.point
    case Adding(copy) => 2 * |copy.services| + 5
    case Probing(copy, _, i, _) => if i < |copy.services| then 2 * (|copy.services| - i) + 3 else 3
    case Posting(copy, _, i, _) => if i < |copy.services| then 2 * (|copy.services| - i) + 2 else 2
    case BatchLookup(_, _) => 2
    case BatchPosting(_, _) => 1
    case Reporting(_) => 1
    case _ => 0
  }

  lemma {:induction false} AddingStep(w0: World, copy: IBJob, w: World)
    requires !copy.deleting && !copy.error && CreatePhase(w0, copy, w) && w.point.Adding?
    requires Enabled(w, Call(Success))
    ensures CreatePhase(w0, copy, Next(w, Call(Success))) && CreateLeft(Next(w, Call(Success))) < CreateLeft(w)
  {
  }

  lemma {:induction false} GetStep(w0: World, copy: IBJob, w: World)
    requires CreatePhase(w0, copy, w) && w.point.Probing?
    ensures Enabled(w, Get(false))
    ensures CreatePhase(w0, copy, Next(w, Get(false))) && CreateLeft(Next(w, Get(false))) < CreateLeft(w)
  {
    hide Fenced, PresentUpTo, NoneFaulty, ReadyUpTo, IsReady, IsFaulty;
    assert w.point.held.services == copy.services by {
      HeldServices(w0, copy, w);
    }
    ProbedService(w0, copy, w, w.point.i);
    PointDoesNotMatter(w0, copy, w, Next(w, Get(false)).point, w.point.i);
    PointDoesNotMatter(w0, copy, w, Next(w, Get(false)).point, w.point.i + 1);
  }

  lemma {:induction false} PointDoesNotMatter(w0: World, copy: IBJob, w: World, p: Point, i: nat)
    ensures PresentUpTo(w0, copy, w.(point := p), i) == PresentUpTo(w0, copy, w, i)
    ensures Fenced(copy, w.(point := p)) == Fenced(copy, w)
  {
  }

  lemma {:induction false} HeldServices(w0: World, copy: IBJob, w: World)
    requires CreatePhase(w0, copy, w) && w.point.Probing?
    ensures w.point.held.services == copy.services
  {
  }

  /** What the get of service `i` says about the services before the sync. */
  lemma {:induction false} ProbedService(w0: World, copy: IBJob, w: World, i: nat)
    requires PresentUpTo(w0, copy, w, i) && NoneFaulty(w0, copy, i) && i < |copy.services|
    ensures var id := copy.services[i];
      && (id in w.services ==> PresentUpTo(w0, copy, w, i + 1))
      && (id in w.services && w.services[id] != Faulty ==> NoneFaulty(w0, copy, i + 1))
      && (id in w.services && w.services[id] == Faulty ==> !NoneFaulty(w0, copy, |copy.services|))
      && (id in w.services && w.services[id] == Ready ==> (ReadyUpTo(w0, copy, i + 1) <==> ReadyUpTo(w0, copy, i)))
      && (id in w.services && w.services[id] == Pending ==> !ReadyUpTo(w0, copy, i + 1))
  {
    var id := copy.services[i];
    assert IsReady(w0, id) ==> w.services[id] == Ready;
    if id in w.services && w.services[id] == Faulty {
      assert IsFaulty(w0, copy.services[i]);
    }
  }

  lemma {:induction false} PostingStep(w0: World, copy: IBJob, w: World)
    requires CreatePhase(w0, copy, w) && w.point.Posting?
    ensures Enabled(w, Call(Success))
    ensures CreatePhase(w0, copy, Next(w, Call(Success))) && CreateLeft(Next(w, Call(Success))) < CreateLeft(w)
  {
    assert !IsReady(w0, copy.services[w.point.i]);
  }

  lemma {:induction false} CreateStep(w0: World, copy: IBJob, w: World, e: Event)
    requires !copy.deleting && !copy.error && CreatePhase(w0, copy, w)
    requires Enabled(w, e) && CreatesWell(e)
    ensures CreatePhase(w0, copy, Next(w, e)) && CreateLeft(Next(w, e)) < CreateLeft(w)
  {
    if w.point.Adding? {
      AddingStep(w0, copy, w);
    } else if w.point.Probing? {
      GetStep(w0, copy, w);
    } else if w.point.Posting? {
      PostingStep(w0, copy, w);
    }
  }

  lemma {:induction false} CreateRun(w0: World, copy: IBJob, w: World, es: seq<Event>)
    requires !copy.deleting && !copy.error && CreatePhase(w0, copy, w)
    requires Run(w, es) && forall e :: e in es ==> CreatesWell(e)
    ensures CreatePhase(w0, copy, End(w, es))
    decreases |es|
  {
    if es != [] {
      CreateStep(w0, copy, w, es[0]);
      CreateRun(w0, copy, Next(w, es[0]), es[1..]);
    }
  }

  /**
   Main result: a sync of the stored object, neither deleting nor in error, that sees no batch job and
   gets good answers only.  If no listed service is faulty, all of them exist afterwards, and the
   batch job exists if and only if all of them were ready.  Otherwise there is no batch job, and the
   object is in error.
   */
  lemma {:induction false} CreatingSyncBuildsUp(w: World, copy: IBJob, es: seq<Event>)
    requires w.stored == Some(copy) && !copy.deleting && !copy.error && !w.batch
    requires Run(w, [Begin(Some(copy), Missing)] + es) && forall e :: e in es ==> CreatesWell(e)
    requires Rested(End(w, [Begin(Some(copy), Missing)] + es))
    ensures var u := End(w, [Begin(Some(copy), Missing)] + es);
      var faulty := exists id :: id in copy.services && IsFaulty(w, id);
      && u.stored.Some?
      && (faulty ==> !u.batch && u.stored.value.error)
      && (!faulty ==>
            && (forall id :: id in copy.services ==> id in u.services)
            && (u.batch <==> forall id :: id in copy.services ==> IsReady(w, id))
            && u.stored.value == copy.(finalizer := true, version := u.stored.value.version))
  {
    var e := Begin(Some(copy), Missing);
    RunFirst(w, e, es);
    CreateRun(w, copy, Next(w, e), es);
    assert NoneFaulty(w, copy, |copy.services|) <==> !exists id :: id in copy.services && IsFaulty(w, id);
    assert ReadyUpTo(w, copy, |copy.services|) <==> forall id :: id in copy.services ==> IsReady(w, id);
  }

  lemma {:induction false} CreateGoesOn(w0: World, copy: IBJob, w: World) returns (e: Event)
    requires !copy.deleting && !copy.error && CreatePhase(w0, copy, w) && !w.point.Idle?
    requires NoneFaulty(w0, copy, |copy.services|) || copy.finalizer
    ensures Enabled(w, e) && CreatesWell(e)
  {
    e := if w.point.Probing? then Get(false) else if w.point.BatchLookup? then Ask(Missing) else Call(Success);
  }

  lemma {:induction false} CreateEnds(w0: World, copy: IBJob, w: World) returns (es: seq<Event>)
    requires !copy.deleting && !copy.error && CreatePhase(w0, copy, w)
    requires NoneFaulty(w0, copy, |copy.services|) || copy.finalizer
    ensures Run(w, es) && Rested(End(w, es)) && forall e :: e in es ==> CreatesWell(e)
    decreases CreateLeft(w)
  {
    if w.point.Idle? {
      es := [];
    } else {
      var e := CreateGoesOn(w0, copy, w);
      CreateStep(w0, copy, w, e);
      var rest := CreateEnds(w0, copy, Next(w, e));
      RunFirst(w, e, rest);
      es := [e] + rest;
    }
  }

  /** There is such a sync, unless a service is faulty and the finalizer is set in this sync. */
  lemma {:induction false} CreatingSyncExists(w: World, copy: IBJob) returns (es: seq<Event>)
    requires Inv(w) && w.stored == Some(copy) && !copy.deleting && !copy.error && !w.batch && Rested(w)
    requires copy.finalizer || forall id :: id in copy.services ==> !IsFaulty(w, id)
    ensures Run(w, [Begin(Some(copy), Missing)] + es) && forall e :: e in es ==> CreatesWell(e)
    ensures Rested(End(w, [Begin(Some(copy), Missing)] + es))
  {
    var e := Begin(Some(copy), Missing);
    es := CreateEnds(w, copy, Next(w, e));
    RunFirst(w, e, es);
  }

  /******* Failures *******/

  ghost predicate Asked(es: seq<Event>, r: nat, n: nat)
    requires n <= |es|
  {
    exists k :: r < k < n && es[k].Ask?
  }

  /**
   Answer `n` of the sync that began at `r` with `copy` is an error for it.  Deleting a service may
   fail: these are the calls of a deletion before the lister is asked.
   */
  ghost predicate Failing(es: seq<Event>, r: nat, n: nat, copy: IBJob)
    requires r <= n < |es|
  {
    match es[n]
    case Begin(_, seen) => n == r && seen == LookupError && !copy.deleting && !copy.error
    case Call(reply) => reply != Success && (copy.deleting ==> Asked(es, r, n))
    case Get(failed) => failed
    case Ask(answer) => answer == LookupError || (answer == Missing && copy.deleting)
    case List(failed) => failed
    case _ => false
  }

  /** The sync that began at `r` with `copy` has come to `n` without an error. */
  ghost predicate Smooth(ws: seq<World>, es: seq<Event>, r: nat, n: nat, copy: IBJob)
    requires |ws| == |es| + 1
  {
    && SameSync(es, r, n) && es[r].seen == Some(copy)
    && forall k :: r <= k < n ==> !Failing(es, r, k, copy) && forall id :: id in ws[k].services ==> !IsFaulty(ws[k], id)
  }

  /** Where such a sync can be. */
  ghost predicate SmoothPoint(p: Point, copy: IBJob, asked: bool) {
    p.Idle? ||
    (&& p.copy == copy
     && match p
        case Adding(_) => !copy.deleting
        case Probing(_, _, _, _) => !copy.deleting
        case Posting(_, _, _, _) => !copy.deleting
        case BatchLookup(_, _) => !copy.deleting
        case BatchPosting(_, _) => !copy.deleting
        case DroppingServices(_, _) => copy.deleting && !asked
        case DroppingLookup(_, _) => copy.deleting && !asked
        case Reporting(_) => false
        case _ => copy.deleting && asked)
  }

  lemma {:induction false} SmoothStep(w: World, e: Event, copy: IBJob, asked: bool)
    requires Enabled(w, e) && SmoothPoint(w.point, copy, asked)
    requires forall id :: id in w.services ==> !IsFaulty(w, id)
    requires !e.Begin? && !e.Crash? && e != Get(true) && e != List(true) && e != Ask(LookupError)
    requires e == Ask(Missing) ==> !copy.deleting
    requires e.Call? && e.reply != Success ==> copy.deleting && !asked
    ensures SmoothPoint(Next(w, e).point, copy, asked || e.Ask?)
  {
    match e
    case Call(_) =>
    case Get(_) =>
    case Ask(_) =>
    case List(_) =>
    case _ => EnvironmentKeepsPoint(w, e);
  }

  lemma {:induction false} FailingLeadsToReport(w: World, e: Event, copy: IBJob, asked: bool)
    requires Enabled(w, e) && SmoothPoint(w.point, copy, asked)
    requires
      || e == Get(true) || e == List(true) || e == Ask(LookupError)
      || (e == Ask(Missing) && copy.deleting)
      || (e.Call? && e.reply != Success && (copy.deleting ==> asked))
    ensures Next(w, e).point == Reporting(copy)
  {
    match e
    case Call(_) =>
    case Get(_) =>
    case Ask(_) =>
    case List(_) =>
  }

  lemma {:induction false} SmoothSync(ws: seq<World>, es: seq<Event>, r: nat, n: nat, copy: IBJob)
    requires Behaviour(ws, es) && Smooth(ws, es, r, n, copy)
    ensures SmoothPoint(ws[n].point, copy, Asked(es, r, n))
    decreases n
  {
    var m := n - 1;
    assert !Failing(es, r, m, copy);
    if m > r {
      SmoothSync(ws, es, r, m, copy);
      assert Asked(es, r, n) <==> Asked(es, r, m) || es[m].Ask?;
      SmoothStep(ws[m], es[m], copy, Asked(es, r, m));
    } else {
      assert !Asked(es, r, n);
    }
  }

  /**
   Main result: an error in a sync is not dropped.  After the first one the sync is not over, and
   what comes next is the update that marks the object; it succeeds if and only if the object stored
   is still the one the sync began with, ends the sync, and changes nothing but the mark.
   */
  lemma {:induction false} FailureIsReported(ws: seq<World>, es: seq<Event>, r: nat, n: nat, copy: IBJob)
    requires Behaviour(ws, es) && r <= n < |es| && es[r].Begin? && es[r].seen == Some(copy)
    requires n > r ==> Smooth(ws, es, r, n, copy)
    requires Failing(es, r, n, copy)
    ensures var w, mark := ws[n + 1], Call(Success);
      && !Rested(w)
      && (Enabled(w, mark) <==> w.stored == Some(copy))
      && (w.stored == Some(copy) ==>
            var u := Next(w, mark);
            && Rested(u) && u.stored.Some?
            && u.stored.value == copy.(error := true, version := u.stored.value.version)
            && u.services == w.services && u.batch == w.batch && u.pods == w.pods)
  {
    var w := ws[n + 1];
    if n > r {
      SmoothSync(ws, es, r, n, copy);
      FailingLeadsToReport(ws[n], es[n], copy, Asked(es, r, n));
    }
    assert w.point == Reporting(copy);
    ReachableInv(ws, es, n + 1);
    if w.stored == Some(copy) {
      MarkingSucceeds(w, copy);
    }
  }

  lemma {:induction false} MarkingSucceeds(w: World, copy: IBJob)
    requires Inv(w) && w.point == Reporting(copy) && w.stored == Some(copy)
    ensures var u := Next(w, Call(Success));
      && Rested(u) && u.stored.Some?
      && u.stored.value == copy.(error := true, version := u.stored.value.version)
      && u.services == w.services && u.batch == w.batch && u.pods == w.pods
  {
  }
}
