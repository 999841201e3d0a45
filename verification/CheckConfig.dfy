/** Slots of a check in the hour and the round robin over regions (src/types/check_config.rs). */
module CheckConfigs {
  import opened Prelude
  import opened DivMod

  const MAX_CHECK_INTERVAL_SECS: nat := 3600
  const SUBSCRIPTION_SLOT_NAMESPACE: nat := 134104732365955935133175004175948885464
  const SUBSCRIPTION_SHOULD_RUN_NAMESPACE: nat := 31415926535897932384626433832795

  const TWO_63: nat := 0x8000_0000_0000_0000
  const TWO_64: nat := 0x1_0000_0000_0000_0000
  const TWO_76: nat := 0x1000_0000_0000_0000_0000
  const TWO_128: nat := 0x1_0000_0000_0000_0000_0000_0000_0000_0000

  /** A version 5 UUID as a u128: bits 76 to 79 hold the version (section 5.5 of RFC 9562). */
  predicate IsVersion5(x: nat) { x < TWO_128 && (x / TWO_76) % 16 == 5 }

  type Uuid5 = x: nat | IsVersion5(x) witness 0x5000_0000_0000_0000_0000

  /** Uuid::new_v5 on a namespace and an id; SHA-1 itself is not part of this model. */
  type NewV5 = (nat, nat) -> Uuid5

  datatype CheckInterval = OneMinute | FiveMinutes | TenMinutes | TwentyMinutes | ThirtyMinutes | SixtyMinutes {
    function Secs(): (s: nat)
      ensures s > 0 && MAX_CHECK_INTERVAL_SECS % s == 0
    {
      match this
      case OneMinute => 60
      case FiveMinutes => 300
      case TenMinutes => 600
      case TwentyMinutes => 1200
      case ThirtyMinutes => 1800
      case SixtyMinutes => 3600
    }
  }

  /** A check; `rest` stands for the fields that scheduling does not look at. */
  datatype CheckConfig = CheckConfig(
    subscriptionId: nat,
    interval: CheckInterval,
    activeRegions: Option<seq<string>>,
    roundRobin: bool,
    rest: string)

  /** A second of wall-clock time with its place in the hour. */
  datatype Tick = Tick(index: nat, time: int)

  /** An i64 cast to usize. */
  function AsU64(x: int): int { if x < 0 then x + TWO_64 else x }

  /** An i64 cast to u128. */
  function AsU128(x: int): int { if x < 0 then x + TWO_128 else x }

  /** Integer division that truncates toward zero. */
  function TruncDiv(x: int, d: nat): int
    requires d > 0
  {
    if x < 0 then -(-x / d) else x / d
  }

  function FromTime(time: int): Tick { Tick(AsU64(time) % MAX_CHECK_INTERVAL_SECS, time) }

  function FirstSlot(c: CheckConfig, v5: NewV5): nat {
    v5(SUBSCRIPTION_SLOT_NAMESPACE, c.subscriptionId) % c.interval.Secs()
  }

  function Slots(c: CheckConfig, v5: NewV5): seq<nat> {
    seq(MAX_CHECK_INTERVAL_SECS / c.interval.Secs(), i => FirstSlot(c, v5) + c.interval.Secs() * i)
  }

  predicate Rotates(c: CheckConfig) {
    c.roundRobin && c.activeRegions.Some? && c.activeRegions.value != []
  }

  /** The position in the region list whose turn it is; the addition wraps at 128 bits. */
  function RunningIndex(c: CheckConfig, v5: NewV5, time: int): (i: nat)
    requires Rotates(c)
    ensures i < |c.activeRegions.value|
  {
    var counter := AsU128(TruncDiv(time, c.interval.Secs()));
    (counter + v5(SUBSCRIPTION_SHOULD_RUN_NAMESPACE, c.subscriptionId)) % TWO_128 % |c.activeRegions.value|
  }

  predicate ShouldRun(c: CheckConfig, v5: NewV5, tick: Tick, region: string) {
    !Rotates(c) || c.activeRegions.value[RunningIndex(c, v5, tick.time)] == region
  }

  // ---- Slots ---------------------------------------------------------------------------------

  /** The slots are the seconds of the hour congruent to the first one: in range, distinct,
      and as many as the interval fits in the hour. */
  lemma SlotsAreAResidueClass(c: CheckConfig, v5: NewV5)
    ensures |Slots(c, v5)| * c.interval.Secs() == 3600
    ensures forall i, j :: 0 <= i < j < |Slots(c, v5)| ==> Slots(c, v5)[i] < Slots(c, v5)[j]
    ensures forall s: nat :: s in Slots(c, v5) <==>
      s < 3600 && s % c.interval.Secs() == FirstSlot(c, v5)
  {
    var slots, secs, first := Slots(c, v5), c.interval.Secs(), FirstSlot(c, v5);
    match c.interval {
      case OneMinute =>
      case FiveMinutes =>
      case TenMinutes =>
      case TwentyMinutes =>
      case ThirtyMinutes =>
      case SixtyMinutes =>
    }
    forall s: nat
      ensures s in slots <==> s < MAX_CHECK_INTERVAL_SECS && s % secs == first
    {
      SlotIndex(s, secs, |slots|, first);
      if s < MAX_CHECK_INTERVAL_SECS && s % secs == first { assert slots[s / secs] == s; }
    }
  }

  /** How often a check of each interval comes round in an hour. */
  lemma SlotsPerHour(c: CheckConfig, v5: NewV5)
    ensures |Slots(c, v5)| ==
            match c.interval
            case OneMinute => 60
            case FiveMinutes => 12
            case TenMinutes => 6
            case TwentyMinutes => 3
            case ThirtyMinutes => 2
            case SixtyMinutes => 1
  {
  }

  /** Quotients below m are those of the numbers below d * m. */
  lemma SlotIndex(s: nat, d: nat, m: nat, first: nat)
    requires first < d
    ensures s < d * m ==> s / d < m
    ensures forall i :: 0 <= i < m && s == first + d * i ==> s < d * m && s % d == first
  {
    assert s == d * (s / d) + s % d;
    assert d * (s / d - m) == d * (s / d) - d * m;
    if s / d > m { MulAway(d, s / d - m); }
    forall i | 0 <= i < m && s == first + d * i
      ensures s < d * m && s % d == first
    {
      DivModUnique(s, d, i, first);
      assert d * (m - i) == d * m - d * i;
      MulAway(d, m - i);
    }
  }
}
