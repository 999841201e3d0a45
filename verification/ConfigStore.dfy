/** The store of checks with its index of 3600 one-second buckets (src/config_store.rs). */
module ConfigStores {
  import opened Prelude
  import opened CheckConfigs

  /** The bucket of second s of the hour, read off the plain map of checks. */
  ghost function Bucket(configs: map<nat, CheckConfig>, v5: NewV5, s: nat): set<CheckConfig> {
    set id | id in configs && s in Slots(configs[id], v5) :: configs[id]
  }

  class ConfigStore {
    const v5: NewV5
    const tickBuckets: array<set<CheckConfig>>
    var configs: map<nat, CheckConfig>
    var lastUpdate: Option<nat>

    /** Ids are the keys, and every bucket agrees with the map. */
    ghost predicate Valid()
      reads this, tickBuckets
    {
      && tickBuckets.Length == MAX_CHECK_INTERVAL_SECS
      && (forall id :: id in configs ==> configs[id].subscriptionId == id)
      && forall s :: 0 <= s < MAX_CHECK_INTERVAL_SECS ==> tickBuckets[s] == Bucket(configs, v5, s)
    }

    constructor (v5: NewV5)
      ensures Valid() && fresh(tickBuckets)
      ensures configs == map[] && lastUpdate == None && this.v5 == v5
    {
      this.v5 := v5;
      tickBuckets := new set<CheckConfig>[MAX_CHECK_INTERVAL_SECS](_ => {});
      configs := map[];
      lastUpdate := None;
    }

    /** Replaces whatever was stored under the id, in the map and in every bucket. */
    method AddConfig(config: CheckConfig, now: nat)
      requires Valid()
      modifies this, tickBuckets
      ensures Valid()
      ensures configs == old(configs)[config.subscriptionId := config]
      ensures lastUpdate == Some(now)
    {
      if config.subscriptionId in configs {
        RemoveConfig(config.subscriptionId, now);
      }
      ghost var before := configs;
      configs := configs[config.subscriptionId := config];
      var slots := Slots(config, v5);
      SlotsAreAResidueClass(config, v5);
      for i := 0 to |slots|
        modifies tickBuckets
        invariant forall s :: 0 <= s < MAX_CHECK_INTERVAL_SECS ==>
          tickBuckets[s] == Bucket(if s in slots[..i] then configs else before, v5, s)
      {
        var s := slots[i];
        assert slots[..i + 1] == slots[..i] + [s];
        assert s !in slots[..i];
        BucketGains(before, config, v5, s);
        tickBuckets[s] := tickBuckets[s] + {config};
      }
      assert slots[..|slots|] == slots;
      forall s | 0 <= s < MAX_CHECK_INTERVAL_SECS && s !in slots
        ensures Bucket(before, v5, s) == Bucket(configs, v5, s)
      {
        BucketGains(before, config, v5, s);
      }
      lastUpdate := Some(now);
    }

    /** Forgets the id everywhere; an unknown id changes nothing. */
    method RemoveConfig(subscriptionId: nat, now: nat)
      requires Valid()
      modifies this, tickBuckets
      ensures Valid()
      ensures configs == old(configs) - {subscriptionId}
      ensures lastUpdate == if subscriptionId in old(configs) then Some(now) else old(lastUpdate)
    {
      if subscriptionId !in configs {
        assert configs - {subscriptionId} == configs;
        return;
      }
      var config := configs[subscriptionId];
      ghost var before := configs;
      configs := configs - {subscriptionId};
      assert before == configs[subscriptionId := config];
      var slots := Slots(config, v5);
      SlotsAreAResidueClass(config, v5);
      for i := 0 to |slots|
        modifies tickBuckets
        invariant forall s :: 0 <= s < MAX_CHECK_INTERVAL_SECS ==>
          tickBuckets[s] == Bucket(if s in slots[..i] then configs else before, v5, s)
      {
        var s := slots[i];
        assert slots[..i + 1] == slots[..i] + [s];
        assert s !in slots[..i];
        BucketGains(configs, config, v5, s);
        tickBuckets[s] := tickBuckets[s] - {config};
      }
      assert slots[..|slots|] == slots;
      forall s | 0 <= s < MAX_CHECK_INTERVAL_SECS && s !in slots
        ensures Bucket(before, v5, s) == Bucket(configs, v5, s)
      {
        BucketGains(configs, config, v5, s);
      }
      lastUpdate := Some(now);
    }

    /** The checks of a tick are exactly the stored ones whose interval comes round at it. */
    method GetConfigs(tick: Tick) returns (bucket: set<CheckConfig>)
      requires Valid() && tick.index < MAX_CHECK_INTERVAL_SECS
      ensures forall c :: c in bucket <==>
        c.subscriptionId in configs && configs[c.subscriptionId] == c
        && tick.index % c.interval.Secs() == FirstSlot(c, v5)
    {
      bucket := tickBuckets[tick.index];
      forall c
        ensures tick.index in Slots(c, v5) <==> tick.index % c.interval.Secs() == FirstSlot(c, v5)
      {
        SlotsAreAResidueClass(c, v5);
      }
    }
  }

  /** Adding a check under a free id adds it to exactly the buckets of its slots. */
  lemma BucketGains(configs: map<nat, CheckConfig>, c: CheckConfig, v5: NewV5, s: nat)
    requires c.subscriptionId !in configs
    requires forall id :: id in configs ==> configs[id].subscriptionId == id
    ensures Bucket(configs[c.subscriptionId := c], v5, s) ==
            Bucket(configs, v5, s) + (if s in Slots(c, v5) then {c} else {})
    ensures c !in Bucket(configs, v5, s)
  {
    var more := configs[c.subscriptionId := c];
    assert more[c.subscriptionId] == c;
    forall x | x in Bucket(configs, v5, s)
      ensures x in Bucket(more, v5, s)
    {
      assert x.subscriptionId in more && more[x.subscriptionId] == x;
    }
  }
}
