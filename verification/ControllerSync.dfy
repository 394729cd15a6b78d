/**
 The reconcile methods as the controller runs them.  Every API call is one step of the machine in
 `Controller`, taken after the environment has done any number of steps of its own and answered in
 any way the machine allows.  `Valid` says that all of it is a behaviour of that machine, so what
 holds of every behaviour holds between any two statements of these methods; a crash cuts them short.
 */
module ControllerSync {
  import opened Base
  import opened Controller

  predicate Environment(e: Event) {
    || e.Submit? || e.RequestDelete? || e.PodStarts? || e.PodEnds?
    || e.ServiceChanges? || e.ServiceVanishes? || e.BatchVanishes?
  }

  class Worker {
    var world: World
    ghost var states: seq<World>
    ghost var events: seq<Event>

    ghost predicate Valid()
      reads this
    {
      Behaviour(states, events) && world == states[|events|]
    }

    constructor ()
      ensures Valid() && world == NEW_WORLD && events == []
    {
      world := NEW_WORLD;
      states := [NEW_WORLD];
      events := [];
    }

    /******* API calls *******/

    method Take(e: Event)
      requires Valid() && Enabled(world, e)
      modifies this
      ensures Valid() && world == Next(old(world), e)
      ensures events == old(events) + [e]
    {
      world := Next(world, e);
      states := states + [world];
      events := events + [e];
    }

    /** Whatever happens around the controller before its next call. */
    method Interfere()
      requires Valid()
      modifies this
      ensures Valid() && world.point == old(world.point) && old(events) <= events
    {
      var steps: int := *;
      while steps > 0
        invariant Valid() && world.point == old(world.point) && old(events) <= events
      {
        var e: Event := *;
        if Environment(e) && Enabled(world, e) {
          Take(e);
        }
        steps := steps - 1;
      }
    }

    /** One call that changes the cluster. */
    method Invoke() returns (err: bool)
      requires Valid() && CallPoint(world.point)
      modifies this
      ensures Valid() && old(events) < events
      ensures err ==> world.point == Fail(old(world.point))
      ensures !err ==> world.point == Proceed(world.(point := old(world.point)))
      ensures !err && old(world.point).Adding? ==> world.stored.Some?
    {
      Interfere();
      var reply: Reply := *;
      if !Possible(world) {
        reply := Failed;
      }
      Take(Call(reply));
      err := !reply.Success?;
    }

    /** IBJobs.Update.  The update must be the one the sync is at. */
    method Update(obj: IBJob) returns (err: bool, updated: IBJob)
      requires Valid()
      requires match world.point
               case Adding(copy) => obj == copy.(finalizer := true)
               case Releasing(copy) => obj == copy.(finalizer := false)
               case Reporting(copy) => obj == copy.(error := true)
               case _ => false
      modifies this
      ensures Valid() && old(events) < events
      ensures err ==> world.point == Fail(old(world.point))
      ensures !err && old(world.point).Adding? ==> world.point == NextProbe(old(world.point).copy, updated, 0, true)
      ensures !err && !old(world.point).Adding? ==> world.point == Idle
    {
      err := Invoke();
      updated := if world.stored.Some? then world.stored.value else obj;
    }

    /** The get of createService. */
    method GetService(id: ServiceId) returns (found: Result<Option<ServiceStatus>>)
      requires Valid() && world.point.Probing? && world.point.i < |world.point.held.services|
      requires id == world.point.held.services[world.point.i]
      modifies this
      ensures Valid() && old(events) < events
      ensures var p := old(world.point);
        world.point ==
        match found
        case Err(_) => Reporting(p.copy)
        case Ok(None) => Posting(p.copy, p.held, p.i, p.ready)
        case Ok(Some(Ready)) => NextProbe(p.copy, p.held, p.i + 1, p.ready)
        case Ok(Some(Pending)) => NextProbe(p.copy, p.held, p.i + 1, false)
        case Ok(Some(Faulty)) => Reporting(p.copy)
    {
      Interfere();
      var failed: bool := *;
      found :=
        if failed then Err("Could not get service")
        else if id in world.services then Ok(Some(world.services[id]))
        else Ok(None);
      Take(Get(failed));
    }

    /** A question to a lister, which may be behind. */
    method AskLister() returns (answer: Lookup)
      requires Valid() && (world.point.BatchLookup? || world.point.DroppingLookup?)
      modifies this
      ensures Valid() && old(events) < events
      ensures old(world.point).BatchLookup? && answer.Found? ==> world.point == Idle
      ensures old(world.point).BatchLookup? && answer.Missing? ==>
                world.point == BatchPosting(old(world.point).copy, old(world.point).held)
      ensures old(world.point).DroppingLookup? && answer.Found? ==>
                world.point == DroppingBatch(old(world.point).copy, old(world.point).done)
      ensures old(world.point).DroppingLookup? && !answer.Found? ==> world.point == Reporting(old(world.point).copy)
      ensures answer.LookupError? ==> world.point == Reporting(old(world.point).copy)
    {
      Interfere();
      answer := *;
      Take(Ask(answer));
    }

    method ListPods() returns (listed: Result<nat>)
      requires Valid() && world.point.ListingPods?
      modifies this
      ensures Valid() && old(events) < events
      ensures world.point ==
              match listed
              case Err(_) => Reporting(old(world.point).copy)
              case Ok(n) =>
                if n > 0 then DroppingPods(old(world.point).copy, n)
                else if old(world.point).done then Releasing(old(world.point).copy)
                else Idle
    {
      Interfere();
      var failed: bool := *;
      listed := if failed then Err("Failed to list pods") else Ok(world.pods);
      Take(List(failed));
    }

    /******* Creation *******/

    method CreateService(ghost copy: IBJob, held: IBJob, i: nat, ghost soFar: bool) returns (err: bool, ready: bool)
      requires Valid() && world.point == Probing(copy, held, i, soFar) && i < |held.services|
      modifies this
      ensures Valid() && old(events) < events
      ensures err ==> world.point == Reporting(copy)
      ensures !err ==> world.point == NextProbe(copy, held, i + 1, soFar && ready)
    {
      err, ready := false, false;
      var found := GetService(held.services[i]);
      match found
      case Err(_) => err := true;
      case Ok(Some(Ready)) => ready := true;
      case Ok(Some(Faulty)) => err := true;
      case Ok(Some(Pending)) =>
      case Ok(None) => err := Invoke();
    }

    method CreateServices(ghost copy: IBJob, held: IBJob) returns (err: bool, ready: bool)
      requires Valid() && world.point == NextProbe(copy, held, 0, true)
      modifies this
      ensures Valid() && old(events) <= events
      ensures err ==> world.point == Reporting(copy)
      ensures !err ==> world.point == if ready then BatchLookup(copy, held) else Idle
    {
      err, ready := false, true;
      for i := 0 to |held.services|
        invariant Valid() && old(events) <= events && !err
        invariant world.point == NextProbe(copy, held, i, ready)
      {
        var r;
        err, r := CreateService(copy, held, i, ready);
        if err {
          return true, false;
        }
        ready := ready && r;
      }
    }

    method CreateBatchJob(ghost copy: IBJob, held: IBJob) returns (err: bool)
      requires Valid() && world.point == BatchLookup(copy, held)
      modifies this
      ensures Valid() && old(events) < events
      ensures world.point == if err then Reporting(copy) else Idle
    {
      var answer := AskLister();
      if answer.LookupError? {
        return true;
      }
      if answer.Found? {
        return false;
      }
      err := Invoke();
    }

    method CreateJob(copy: IBJob) returns (err: bool)
      requires Valid() && world.point == Adding(copy)
      modifies this
      ensures Valid() && old(events) < events
      ensures world.point == if err then Reporting(copy) else Idle
    {
      var held;
      err, held := Update(copy.(finalizer := true));
      if err {
        return;
      }
      var ready;
      err, ready := CreateServices(copy, held);
      if err || !ready {
        return;
      }
      err := CreateBatchJob(copy, held);
    }

    /******* Deletion *******/

    /** The error of a failed delete is swallowed: the services just count as not deleted. */
    method DeleteServices(copy: IBJob) returns (ready: bool)
      requires Valid() && world.point == NextDrop(copy, 0)
      modifies this
      ensures Valid() && old(events) <= events
      ensures world.point == DroppingLookup(copy, ready)
    {
      for i := 0 to |copy.services|
        invariant Valid() && old(events) <= events
        invariant world.point == NextDrop(copy, i)
      {
        var err := Invoke();
        if err {
          return false;
        }
      }
      ready := true;
    }

    method DeleteBatchJob(ghost copy: IBJob, ghost done: bool) returns (err: bool)
      requires Valid() && world.point == DroppingLookup(copy, done)
      modifies this
      ensures Valid() && old(events) < events
      ensures world.point == if err then Reporting(copy) else ListingPods(copy, done)
    {
      var answer := AskLister();
      if !answer.Found? {
        return true;
      }
      err := Invoke();
    }

    method DeletePods(ghost copy: IBJob, ghost done: bool) returns (err: bool, gone: bool)
      requires Valid() && world.point == ListingPods(copy, done)
      modifies this
      ensures Valid() && old(events) < events
      ensures err ==> world.point == Reporting(copy)
      ensures !err ==> world.point == if gone && done then Releasing(copy) else Idle
    {
      var listed := ListPods();
      if listed.Err? {
        return true, false;
      }
      var left := listed.value;
      if left == 0 {
        return false, true;
      }
      err, gone := false, false;
      while left > 0
        invariant Valid() && old(events) < events && !err
        invariant world.point == if left > 0 then DroppingPods(copy, left) else Idle
      {
        err := Invoke();
        if err {
          return;
        }
        left := left - 1;
      }
    }

    method DeleteJob(copy: IBJob) returns (err: bool)
      requires Valid() && world.point == NextDrop(copy, 0)
      modifies this
      ensures Valid() && old(events) < events
      ensures world.point == if err then Reporting(copy) else Idle
    {
      var servicesDeleted := DeleteServices(copy);
      err := DeleteBatchJob(copy, servicesDeleted);
      if err {
        return;
      }
      var podsDeleted;
      err, podsDeleted := DeletePods(copy, servicesDeleted);
      if err || !servicesDeleted || !podsDeleted {
        return;
      }
      var updated;
      err, updated := Update(copy.(finalizer := false));
    }

    /******* One sync *******/

    method SyncHandlerImpl(copy: IBJob, batchSeen: Lookup) returns (err: bool)
      requires Valid() && world.point == Start(Some(copy), batchSeen)
      modifies this
      ensures Valid() && old(events) <= events
      ensures world.point == if err then Reporting(copy) else Idle
    {
      if copy.deleting {
        err := DeleteJob(copy);
        return;
      }
      if copy.error {
        return false;
      }
      match batchSeen
      case LookupError => err := true;
      case Found => err := false;
      case Missing => err := CreateJob(copy);
    }

    /**
     One sync.  `seen` is any version of the object the lister may hold.  The error status is written
     from that version, not from the object the finalizer update returned.
     */
    method SyncHandler(seen: Result<Option<IBJob>>, batchSeen: Lookup) returns (err: bool)
      requires Valid() && world.point.Idle?
      requires seen.Ok? && seen.value.Some? ==> seen.value.value in world.history
      modifies this
      ensures Valid() && world.point.Idle? && old(events) <= events
      ensures seen.Err? ==> err && events == old(events)
      ensures seen == Ok(None) ==> !err && events == old(events)
      ensures seen.Ok? && seen.value.Some? ==>
        |events| > |old(events)| && events[|old(events)|] == Begin(seen.value, batchSeen)
    {
      if seen.Err? {
        return true;
      }
      if seen.value.None? {
        return false;
      }
      var job := seen.value.value;
      Take(Begin(Some(job), batchSeen));
      err := SyncHandlerImpl(job, batchSeen);
      if err {
        var updated;
        err, updated := Update(job.(error := true));
      }
    }
  }
}
