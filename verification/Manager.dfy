/** Which partitions a checker owns, and the services it keeps running for them
    (src/check_config_provider/redis_config_provider.rs, src/manager.rs). */
module Manager {
  import opened Prelude
  import opened DivMod

  /** (first..total).step_by(step) */
  function StepBy(first: nat, total: nat, step: nat): (r: seq<nat>)
    requires step > 0
    decreases if first < total then total - first else 0
  {
    if first >= total then [] else [first] + StepBy(first + step, total, step)
  }

  /** None is the panic on a checker number that is out of range. */
  function DetermineOwnedPartitions(checker: nat, totalCheckers: nat, totalPartitions: nat): Option<set<nat>> {
    if checker >= totalCheckers then None
    else Some(set p | p in StepBy(checker, totalPartitions, totalCheckers))
  }

  lemma {:induction false} StepByIsAResidueClass(first: nat, total: nat, step: nat, p: nat)
    requires step > 0
    ensures p in StepBy(first, total, step) <==> first <= p < total && p % step == first % step
    decreases if first < total then total - first else 0
  {
    if first < total {
      StepByIsAResidueClass(first + step, total, step, p);
      assert first + step == step * (first / step + 1) + first % step;
      DivModUnique(first + step, step, first / step + 1, first % step);
      if p % step == first % step { SameRemainder(first, p, step); }
    }
  }

  /** Over a fleet with numbers 0 to n-1 every partition has exactly one owner, and nobody owns
      anything else. */
  lemma EveryPartitionHasOneOwner(totalCheckers: nat, totalPartitions: nat, p: nat) returns (owner: nat)
    requires totalCheckers > 0
    ensures owner == p % totalCheckers
    ensures forall c: nat :: c < totalCheckers ==>
      DetermineOwnedPartitions(c, totalCheckers, totalPartitions).Some?
      && (p in DetermineOwnedPartitions(c, totalCheckers, totalPartitions).value <==> p < totalPartitions && c == owner)
    ensures forall c: nat :: c >= totalCheckers ==>
      DetermineOwnedPartitions(c, totalCheckers, totalPartitions).None?
  {
    owner := p % totalCheckers;
    forall c: nat | c < totalCheckers
      ensures p in StepBy(c, totalPartitions, totalCheckers) <==> p < totalPartitions && c == owner
    {
      StepByIsAResidueClass(c, totalPartitions, totalCheckers, p);
      DivModUnique(c, totalCheckers, 0, c);
    }
  }

  /** A started partition service; serials tell successive services of one partition apart. */
  datatype Service = Service(partition: nat, serial: nat)

  class ServiceManager {
    var services: map<nat, Service>
    var shutdownQueue: seq<Service>
    var started: nat

    /** Every service ever started is either live or was sent to shutdown, once. */
    ghost predicate Valid()
      reads this
    {
      && (forall p :: p in services ==> services[p].partition == p)
      && (forall n :: 0 <= n < started ==> IsLive(n) != IsShutDown(n))
      && (forall p :: p in services ==> services[p].serial < started)
      && (forall i :: 0 <= i < |shutdownQueue| ==> shutdownQueue[i].serial < started)
      && (forall p, q :: p in services && q in services && p != q ==> services[p].serial != services[q].serial)
      && (forall i, j :: 0 <= i < j < |shutdownQueue| ==> shutdownQueue[i].serial != shutdownQueue[j].serial)
    }

    ghost predicate IsLive(n: nat)
      reads this
    {
      exists p :: p in services && services[p].serial == n
    }

    ghost predicate IsShutDown(n: nat)
      reads this
    {
      exists i :: 0 <= i < |shutdownQueue| && shutdownQueue[i].serial == n
    }

    constructor ()
      ensures Valid() && services == map[] && shutdownQueue == [] && started == 0
    {
      services, shutdownQueue, started := map[], [], 0;
    }

    /** An already registered partition is left alone. */
    method RegisterPartition(partition: nat)
      requires Valid()
      modifies this
      ensures Valid()
      ensures shutdownQueue == old(shutdownQueue)
      ensures partition in old(services) ==> services == old(services)
      ensures partition !in old(services) ==> services == old(services)[partition := Service(partition, old(started))]
      ensures started == old(started) + if partition in old(services) then 0 else 1
    {
      if partition in services { return; }
      services := services[partition := Service(partition, started)];
      started := started + 1;
      assert IsLive(started - 1) by { assert services[partition].serial == started - 1; }
      forall n | 0 <= n < started - 1
        ensures IsLive(n) <==> old(IsLive(n))
      {
        if old(IsLive(n)) {
          var p :| p in old(services) && old(services)[p].serial == n;
          assert services[p].serial == n;
        }
      }
    }

    /** An unknown partition is left alone. */
    method UnregisterPartition(partition: nat)
      requires Valid()
      modifies this
      ensures Valid()
      ensures started == old(started)
      ensures services == old(services) - {partition}
      ensures shutdownQueue ==
        if partition in old(services) then old(shutdownQueue) + [old(services)[partition]] else old(shutdownQueue)
    {
      if partition !in services {
        assert services - {partition} == services;
        return;
      }
      var service := services[partition];
      assert IsLive(service.serial);
      assert forall i :: 0 <= i < |shutdownQueue| ==> shutdownQueue[i].serial != service.serial;
      services := services - {partition};
      shutdownQueue := shutdownQueue + [service];
      forall n | 0 <= n < started
        ensures IsLive(n) != IsShutDown(n)
      {
        assert old(IsLive(n)) != old(IsShutDown(n));
        if n == service.serial {
          assert old(IsLive(n));
          assert shutdownQueue[|shutdownQueue| - 1].serial == n;
        } else {
          if old(IsLive(n)) {
            var p :| p in old(services) && old(services)[p].serial == n;
            assert p in services && services[p].serial == n;
          }
          if old(IsShutDown(n)) {
            var i :| 0 <= i < |old(shutdownQueue)| && old(shutdownQueue)[i].serial == n;
            assert shutdownQueue[i].serial == n;
          }
        }
      }
    }

    /** The loop that drops partitions this checker is no longer responsible for. */
    method UnregisterAll(partitions: set<nat>)
      requires Valid() && partitions <= services.Keys
      modifies this
      ensures Valid() && started == old(started)
      ensures services == old(services) - partitions
      ensures old(shutdownQueue) <= shutdownQueue
      ensures forall p :: p in partitions ==> old(services)[p] in shutdownQueue
    {
      var removed := partitions;
      while removed != {}
        invariant Valid() && removed <= partitions && started == old(started)
        invariant services == old(services) - (partitions - removed)
        invariant old(shutdownQueue) <= shutdownQueue
        invariant forall p :: p in partitions - removed ==> old(services)[p] in shutdownQueue
        decreases |removed|
      {
        var p :| p in removed;
        UnregisterPartition(p);
        removed := removed - {p};
      }
    }

    /** The loop that starts services for new partitions. */
    method RegisterAll(partitions: set<nat>) returns (ghost begun: map<nat, Service>)
      requires Valid() && partitions !! services.Keys
      modifies this
      ensures Valid() && shutdownQueue == old(shutdownQueue)
      ensures services == old(services) + begun && begun.Keys == partitions
      ensures forall p :: p in begun ==> begun[p].serial >= old(started)
    {
      begun := map[];
      var added := partitions;
      while added != {}
        invariant Valid() && shutdownQueue == old(shutdownQueue)
        invariant added <= partitions && started >= old(started)
        invariant services == old(services) + begun && begun.Keys == partitions - added
        invariant forall p :: p in begun ==> begun[p].serial >= old(started)
        decreases |added|
      {
        var p :| p in added;
        assert p !in services;
        assert (old(services) + begun)[p := Service(p, started)] == old(services) + begun[p := Service(p, started)];
        begun := begun[p := Service(p, started)];
        RegisterPartition(p);
        added := added - {p};
      }
    }

    /** update_partitions: exactly the requested partitions are served afterwards; those that were already
        served keep their service, the new ones get a service never seen before, and the dropped ones'
        services are sent to shutdown. */
    method UpdatePartitions(newPartitions: set<nat>)
      requires Valid()
      modifies this
      ensures Valid()
      ensures services.Keys == newPartitions
      ensures forall p :: p in newPartitions && p in old(services) ==> services[p] == old(services)[p]
      ensures forall p :: p in newPartitions && p !in old(services) ==> services[p].serial >= old(started)
      ensures old(shutdownQueue) <= shutdownQueue
      ensures forall p :: p in old(services) && p !in newPartitions ==> old(services)[p] in shutdownQueue
    {
      var known := services.Keys;
      UnregisterAll(known - newPartitions);
      ghost var begun := RegisterAll(newPartitions - known);
    }
  }
}
