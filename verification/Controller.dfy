/**
 The IBJob controller: a reconcile loop that creates and deletes cluster objects under the
 protection of a finalizer.

 Between any two API calls the environment may act, any call may fail with or without effect, and
 the controller may crash.  The copy of the IBJob a sync works on may be any version that was ever
 stored.  `Point` is the place a worker has reached in the reconcile methods.
 */
module Controller {
  import opened Base

  type ServiceId = nat

  datatype ServiceStatus = Pending | Ready | Faulty

  datatype IBJob = IBJob(version: nat, deleting: bool, finalizer: bool, error: bool, services: seq<ServiceId>)

  /** How an API call ends for the controller. */
  datatype Reply = Success | Failed | FailedAfterEffect

  /** The answer of a lister. */
  datatype Lookup = Found | Missing | LookupError

  /** The next API call of the running sync; `copy` is the IBJob as read at its start. */
  datatype Point =
    | Idle
    | Adding(copy: IBJob)                                          // createJob: set the finalizer
    | Probing(copy: IBJob, held: IBJob, i: nat, ready: bool)       // createService: get service i
    | Posting(copy: IBJob, held: IBJob, i: nat, ready: bool)       // createService: post service i
    | BatchLookup(copy: IBJob, held: IBJob)                        // createBatchJob: ask the lister
    | BatchPosting(copy: IBJob, held: IBJob)                       // createBatchJob: create it
    | DroppingServices(copy: IBJob, i: nat)                        // deleteServices: delete service i
    | DroppingLookup(copy: IBJob, done: bool)                      // deleteBatchJob: ask the lister
    | DroppingBatch(copy: IBJob, done: bool)                       // deleteBatchJob: delete it
    | ListingPods(copy: IBJob, done: bool)                         // deletePods: list
    | DroppingPods(copy: IBJob, left: nat)                         // deletePods: delete the next pod
    | Releasing(copy: IBJob)                                       // deleteJob: remove the finalizer
    | Reporting(copy: IBJob)                                       // syncHandler: set the error status

  datatype World = World(
    stored: Option<IBJob>,                    // the IBJob in the API server
    nextVersion: nat,
    history: set<IBJob>,                      // all versions ever stored under this name
    services: map<ServiceId, ServiceStatus>,
    batch: bool,
    pods: nat,
    point: Point)

  datatype Event =
    // the environment
    | Submit(spec: seq<ServiceId>)
    | RequestDelete
    | PodStarts
    | PodEnds
    | ServiceChanges(id: ServiceId, status: ServiceStatus)
    | ServiceVanishes(id: ServiceId)
    | BatchVanishes
    | Crash
    // the controller
    | Begin(seen: Option<IBJob>, batchSeen: Lookup)
    | Call(reply: Reply)
    | Get(failed: bool)
    | Ask(answer: Lookup)
    | List(failed: bool)

  /******* The API server *******/

  /** An update is accepted only from the version that is stored. */
  predicate Current(w: World, obj: IBJob) {
    w.stored.Some? && w.stored.value.version == obj.version
  }

  /** Stores `obj`; without change nothing happens, and a deleting object without finalizer goes away. */
  function Put(w: World, obj: IBJob): World
    requires Current(w, obj)
  {
    var next := obj.(deleting := w.stored.value.deleting);
    if next == w.stored.value then w
    else if next.deleting && !next.finalizer then w.(stored := None)
    else Store(w, next)
  }

  function Store(w: World, obj: IBJob): World {
    var next := obj.(version := w.nextVersion);
    w.(stored := Some(next), nextVersion := w.nextVersion + 1, history := w.history + {next})
  }

  function Deleted(w: World): World
    requires w.stored.Some?
  {
    var obj := w.stored.value;
    if !obj.finalizer then w.(stored := None)
    else if obj.deleting then w
    else Store(w, obj.(deleting := true))
  }

  /******* The reconcile methods, call by call *******/

  /** syncHandlerImpl up to its first API call. */
  function Start(seen: Option<IBJob>, batchSeen: Lookup): Point {
    if seen.None? then Idle
    else if seen.value.deleting then NextDrop(seen.value, 0)
    else if seen.value.error then Idle
    else
      match batchSeen
      case Found => Idle
      case Missing => Adding(seen.value)
      case LookupError => Reporting(seen.value)
  }

  function NextDrop(copy: IBJob, i: nat): Point {
    if i < |copy.services| then DroppingServices(copy, i) else DroppingLookup(copy, true)
  }

  function NextProbe(copy: IBJob, held: IBJob, i: nat, ready: bool): Point {
    if i < |held.services| then Probing(copy, held, i, ready)
    else if ready then BatchLookup(copy, held)
    else Idle
  }

  predicate CallPoint(p: Point) {
    p.Adding? || p.Posting? || p.BatchPosting? || p.DroppingServices? || p.DroppingBatch? || p.DroppingPods? ||
    p.Releasing? || p.Reporting?
  }

  /** Can the call at the current point take effect? */
  predicate Possible(w: World) {
    match w.point
    case Adding(copy) => Current(w, copy)
    case Posting(_, held, i, _) => i < |held.services| && held.services[i] !in w.services
    case BatchPosting(_, _) => !w.batch
    case Releasing(copy) => Current(w, copy)
    case Reporting(copy) => Current(w, copy)
    case DroppingServices(copy, i) => i < |copy.services|
    case _ => true
  }

  /** The effect of the call at the current point. */
  function Effect(w: World): World
    requires Possible(w)
  {
    match w.point
    case Adding(copy) => Put(w, copy.(finalizer := true))
    case Posting(_, held, i, _) => w.(services := w.services[held.services[i] := Pending])
    case BatchPosting(_, _) => w.(batch := true)
    case DroppingServices(copy, i) => w.(services := w.services - {copy.services[i]})
    case DroppingBatch(_, _) => w.(batch := false)
    case DroppingPods(_, _) => w.(pods := if w.pods == 0 then 0 else w.pods - 1)
    case Releasing(copy) => Put(w, copy.(finalizer := false))
    case Reporting(copy) => Put(w, copy.(error := true))
    case _ => w
  }

  /** Where the sync continues after a successful call; `w` is the world after the effect. */
  function Proceed(w: World): Point {
    match w.point
    case Adding(copy) => if w.stored.Some? then NextProbe(copy, w.stored.value, 0, true) else Idle
    case Posting(copy, held, i, _) => NextProbe(copy, held, i + 1, false)
    case DroppingServices(copy, i) => NextDrop(copy, i + 1)
    case DroppingBatch(copy, done) => ListingPods(copy, done)
    case DroppingPods(copy, left) => if left <= 1 then Idle else DroppingPods(copy, left - 1)
    case _ => Idle
  }

  /** Where the sync continues after a failed call.  deleteServices swallows the error. */
  function Fail(p: Point): Point {
    match p
    case DroppingServices(copy, _) => DroppingLookup(copy, false)
    case Reporting(_) => Idle
    case Idle => Idle
    case _ => Reporting(p.copy)
  }

  /** createService after its get. */
  function Probe(w: World): Point
    requires w.point.Probing? && w.point.i < |w.point.held.services|
  {
    var Probing(copy, held, i, ready) := w.point;
    var id := held.services[i];
    if id !in w.services then Posting(copy, held, i, ready)
    else
      match w.services[id]
      case Ready => NextProbe(copy, held, i + 1, ready)
      case Pending => NextProbe(copy, held, i + 1, false)
      case Faulty => Reporting(copy)
  }

  /******* Steps *******/

  predicate Enabled(w: World, e: Event) {
    match e
    case Submit(_) => w.stored.None?
    case RequestDelete => w.stored.Some?
    case PodStarts => w.batch
    case PodEnds => w.pods > 0
    case ServiceChanges(id, _) => id in w.services
    case ServiceVanishes(_) => true
    case BatchVanishes => true
    case Crash => true
    case Begin(seen, _) => w.point.Idle? && (seen.Some? ==> seen.value in w.history)
    case Call(reply) => CallPoint(w.point) && (reply.Failed? || Possible(w))
    case Get(_) => w.point.Probing? && w.point.i < |w.point.held.services|
    case Ask(_) => w.point.BatchLookup? || w.point.DroppingLookup?
    case List(_) => w.point.ListingPods?
  }

  function Next(w: World, e: Event): World
    requires Enabled(w, e)
  {
    match e
    case Submit(spec) => Store(w, IBJob(0, false, false, false, spec))
    case RequestDelete => Deleted(w)
    case PodStarts => w.(pods := w.pods + 1)
    case PodEnds => w.(pods := w.pods - 1)
    case ServiceChanges(id, status) => w.(services := w.services[id := status])
    case ServiceVanishes(id) => w.(services := w.services - {id})
    case BatchVanishes => w.(batch := false)
    case Crash => w.(point := Idle)
    case Begin(seen, batchSeen) => w.(point := Start(seen, batchSeen))
    case Call(Success) => var u := Effect(w); u.(point := Proceed(u))
    case Call(Failed) => w.(point := Fail(w.point))
    case Call(FailedAfterEffect) => Effect(w).(point := Fail(w.point))
    case Get(failed) => w.(point := if failed then Reporting(w.point.copy) else Probe(w))
    case Ask(answer) =>
      if w.point.BatchLookup? then
        match answer
        case Found => w.(point := Idle)
        case Missing => w.(point := BatchPosting(w.point.copy, w.point.held))
        case LookupError => w.(point := Reporting(w.point.copy))
      else if answer.Found? then w.(point := DroppingBatch(w.point.copy, w.point.done))
      else w.(point := Reporting(w.point.copy))
    case List(failed) =>
      if failed then w.(point := Reporting(w.point.copy))
      else if w.pods > 0 then w.(point := DroppingPods(w.point.copy, w.pods))
      else if w.point.done then w.(point := Releasing(w.point.copy))
      else w.(point := Idle)
  }

  const NEW_WORLD := World(None, 0, {}, map[], false, 0, Idle)

  /******* The invariant *******/

  /** Versions identify contents, and an object that is being deleted is there for its finalizer. */
  ghost predicate Versioned(w: World) {
    && (w.stored.Some? ==> w.stored.value in w.history)
    && (w.stored.Some? && w.stored.value.deleting ==> w.stored.value.finalizer)
    && (forall c :: c in w.history ==> c.version < w.nextVersion)
    && (forall c :: c in w.history && Current(w, c) ==> c == w.stored.value)
  }

  /** Whatever exists in the cluster is listed in a stored IBJob that carries the finalizer. */
  ghost predicate Protected(w: World) {
    w.batch || w.pods > 0 || w.services != map[] ==>
      && w.stored.Some? && w.stored.value.finalizer
      && forall id :: id in w.services ==> id in w.stored.value.services
  }

  ghost predicate Held(w: World, held: IBJob) {
    w.stored.Some? && w.stored.value.finalizer && w.stored.value.services == held.services
  }

  ghost predicate Dropped(w: World, copy: IBJob, k: nat) {
    k <= |copy.services| && forall i :: 0 <= i < k ==> copy.services[i] !in w.services
  }

  /** What a sync knows at the point it has reached. */
  ghost predicate Knows(w: World) {
    (!w.point.Idle? ==> w.point.copy in w.history) &&
    match w.point
    case Idle => true
    case Adding(copy) => !copy.deleting && !copy.error
    case Probing(_, held, i, _) => Held(w, held) && i < |held.services|
    case Posting(_, held, i, _) => Held(w, held) && i < |held.services|
    case BatchLookup(_, held) => Held(w, held)
    case BatchPosting(_, held) => Held(w, held)
    case DroppingServices(copy, i) => copy.deleting && i < |copy.services| && Dropped(w, copy, i)
    case DroppingLookup(copy, done) => copy.deleting && (done ==> Dropped(w, copy, |copy.services|))
    case DroppingBatch(copy, done) => copy.deleting && (done ==> Dropped(w, copy, |copy.services|))
    case ListingPods(copy, done) => copy.deleting && !w.batch && (done ==> Dropped(w, copy, |copy.services|))
    case DroppingPods(copy, _) => copy.deleting
    case Releasing(copy) => copy.deleting && !w.batch && w.pods == 0 && Dropped(w, copy, |copy.services|)
    case Reporting(_) => true
  }

  ghost predicate Inv(w: World) {
    Versioned(w) && Protected(w) && Knows(w)
  }

  lemma {:induction false} StoreVersioned(w: World, obj: IBJob)
    requires Versioned(w) && (obj.deleting ==> obj.finalizer)
    ensures Versioned(Store(w, obj))
  {
  }

  lemma {:induction false} EnvironmentKeeps(w: World, e: Event)
    requires Inv(w) && Enabled(w, e)
    requires !e.Begin? && !e.Call? && !e.Get? && !e.Ask? && !e.List?
    ensures Inv(Next(w, e))
  {
    match e
    case Submit(spec) => StoreVersioned(w, IBJob(0, false, false, false, spec));
    case RequestDelete =>
      if w.stored.value.finalizer && !w.stored.value.deleting {
        StoreVersioned(w, w.stored.value.(deleting := true));
      }
    case _ =>
  }

  /** A service that is neither gone nor listed cannot exist. */
  lemma {:induction false} NothingListed(w: World, copy: IBJob)
    requires Dropped(w, copy, |copy.services|)
    requires forall id :: id in w.services ==> id in copy.services
    ensures w.services == map[]
  {
    assert forall id :: id !in w.services;
  }

  /** Setting the finalizer, and setting the error status from the copy the sync read. */
  lemma {:induction false} WriteKeeps(w: World, next: IBJob)
    requires Versioned(w) && Protected(w) && Current(w, next)
    requires next.services == w.stored.value.services
    requires w.stored.value.finalizer ==> next.finalizer
    ensures Versioned(Put(w, next)) && Protected(Put(w, next)) && w.history <= Put(w, next).history
    ensures next.finalizer ==> Put(w, next).stored.Some?
    ensures next.finalizer ==> Held(Put(w, next), next)
  {
    var obj := next.(deleting := w.stored.value.deleting);
    StoreVersioned(w, obj);
  }

  lemma {:induction false} AddingKeeps(w: World)
    requires Inv(w) && Possible(w) && w.point.Adding?
    ensures Inv(Next(w, Call(Success))) && Inv(Next(w, Call(FailedAfterEffect)))
  {
    WriteKeeps(w, w.point.copy.(finalizer := true));
  }

  lemma {:induction false} ReportingKeeps(w: World)
    requires Inv(w) && Possible(w) && w.point.Reporting?
    ensures Inv(Next(w, Call(Success))) && Inv(Next(w, Call(FailedAfterEffect)))
  {
    WriteKeeps(w, w.point.copy.(error := true));
  }

  lemma {:induction false} ReleasingKeeps(w: World)
    requires Inv(w) && Possible(w) && w.point.Releasing?
    ensures Inv(Next(w, Call(Success))) && Inv(Next(w, Call(FailedAfterEffect)))
  {
    var copy := w.point.copy;
    assert copy == w.stored.value;
    if w.services != map[] { NothingListed(w, copy); }
  }

  lemma {:induction false} PostingKeeps(w: World)
    requires Inv(w) && Possible(w) && (w.point.Posting? || w.point.BatchPosting?)
    ensures Inv(Next(w, Call(Success))) && Inv(Next(w, Call(FailedAfterEffect)))
  {
  }

  lemma {:induction false} DroppingKeeps(w: World)
    requires Inv(w) && Possible(w) && (w.point.DroppingServices? || w.point.DroppingBatch? || w.point.DroppingPods?)
    ensures Inv(Next(w, Call(Success))) && Inv(Next(w, Call(FailedAfterEffect)))
  {
  }

  lemma {:induction false} FailKeeps(w: World)
    requires Inv(w) && Enabled(w, Call(Failed))
    ensures Inv(Next(w, Call(Failed)))
  {
  }

  lemma {:induction false} CallKeeps(w: World, reply: Reply)
    requires Inv(w) && Enabled(w, Call(reply))
    ensures Inv(Next(w, Call(reply)))
  {
    if reply.Failed? {
      FailKeeps(w);
    } else if w.point.Adding? {
      AddingKeeps(w);
    } else if w.point.Reporting? {
      ReportingKeeps(w);
    } else if w.point.Releasing? {
      ReleasingKeeps(w);
    } else if w.point.Posting? || w.point.BatchPosting? {
      PostingKeeps(w);
    } else {
      DroppingKeeps(w);
    }
  }

  lemma {:induction false} BeginKeeps(w: World, seen: Option<IBJob>, batchSeen: Lookup)
    requires Inv(w) && Enabled(w, Begin(seen, batchSeen))
    ensures Inv(Next(w, Begin(seen, batchSeen)))
  {
  }

  lemma {:induction false} GetKeeps(w: World, failed: bool)
    requires Inv(w) && Enabled(w, Get(failed))
    ensures Inv(Next(w, Get(failed)))
  {
  }

  lemma {:induction false} AskKeeps(w: World, answer: Lookup)
    requires Inv(w) && Enabled(w, Ask(answer))
    ensures Inv(Next(w, Ask(answer)))
  {
  }

  lemma {:induction false} ListKeeps(w: World, failed: bool)
    requires Inv(w) && Enabled(w, List(failed))
    ensures Inv(Next(w, List(failed)))
  {
  }

  lemma {:induction false} StepKeeps(w: World, e: Event)
    requires Inv(w) && Enabled(w, e)
    ensures Inv(Next(w, e))
  {
    match e
    case Begin(seen, batchSeen) => BeginKeeps(w, seen, batchSeen);
    case Call(reply) => CallKeeps(w, reply);
    case Get(failed) => GetKeeps(w, failed);
    case Ask(answer) => AskKeeps(w, answer);
    case List(failed) => ListKeeps(w, failed);
    case _ => EnvironmentKeeps(w, e);
  }

  /******* Every reachable state *******/

  /** The states `ws` a world goes through with the events `es`. */
  ghost predicate Behaviour(ws: seq<World>, es: seq<Event>) {
    && |ws| == |es| + 1
    && ws[0] == NEW_WORLD
    && forall i :: 0 <= i < |es| ==> Enabled(ws[i], es[i]) && ws[i + 1] == Next(ws[i], es[i])
  }

  lemma {:induction false} ReachableInv(ws: seq<World>, es: seq<Event>, n: nat)
    requires Behaviour(ws, es) && n < |ws|
    ensures Inv(ws[n])
  {
    if n > 0 {
      ReachableInv(ws, es, n - 1);
      StepKeeps(ws[n - 1], es[n - 1]);
    }
  }

  /**
   Main result: nothing leaks.  In every reachable state, a batch job, pod or service that exists
   belongs to a stored IBJob that still carries the finalizer, and every such service is listed in it.
   */
  lemma {:induction false} NothingLeaks(ws: seq<World>, es: seq<Event>, n: nat)
    requires Behaviour(ws, es) && n < |ws|
    ensures (ws[n].batch || ws[n].pods > 0 || ws[n].services != map[]) ==> ws[n].stored.Some?
    ensures (ws[n].batch || ws[n].pods > 0 || ws[n].services != map[]) ==> ws[n].stored.value.finalizer
    ensures forall id :: id in ws[n].services ==> id in ws[n].stored.value.services
  {
    ReachableInv(ws, es, n);
  }

  /**
   The finalizer leaves last.  If a step takes a stored finalizer away, or the object with it, that
   step is the update at the end of deleteJob and nothing exists any more; in particular the error
   status written from the lister's copy never takes it away.
   */
  lemma {:induction false} FinalizerLeavesLast(ws: seq<World>, es: seq<Event>, n: nat)
    requires Behaviour(ws, es) && n < |es|
    requires ws[n].stored.Some? && ws[n].stored.value.finalizer
    requires ws[n + 1].stored.None? || !ws[n + 1].stored.value.finalizer
    ensures es[n].Call? && !es[n].reply.Failed? && ws[n].point.Releasing?
    ensures ws[n].stored.value.deleting && !ws[n].batch && ws[n].pods == 0 && ws[n].services == map[]
  {
    ReachableInv(ws, es, n);
    var w := ws[n];
    if w.point.Releasing? && w.services != map[] && Current(w, w.point.copy) {
      NothingListed(w, w.point.copy);
    }
  }
}
