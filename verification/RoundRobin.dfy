/** Exactly-once scheduling across an interval and across regions (src/types/check_config.rs). */
module RoundRobin {
  import opened DivMod
  import opened CheckConfigs

  /** The check is in the bucket of this second. */
  predicate Appears(c: CheckConfig, v5: NewV5, time: int) {
    AsU64(time) % MAX_CHECK_INTERVAL_SECS in Slots(c, v5)
  }

  /** A checker in `region` schedules the check at this second. */
  predicate Runs(c: CheckConfig, v5: NewV5, time: int, region: string) {
    Appears(c, v5, time) && ShouldRun(c, v5, FromTime(time), region)
  }

  lemma RemainderInTheHour(time: nat, secs: nat, m: nat)
    requires secs > 0 && m > 0 && secs * m == MAX_CHECK_INTERVAL_SECS
    ensures time % MAX_CHECK_INTERVAL_SECS % secs == time % secs
  {
    var q, r := time / MAX_CHECK_INTERVAL_SECS, time % MAX_CHECK_INTERVAL_SECS;
    assert time == secs * m * q + r && r == secs * (r / secs) + r % secs;
    assert secs * m * q == secs * (m * q);
    DivModUnique(time, secs, m * q + r / secs, r % secs);
  }

  lemma AppearsOncePerResidue(c: CheckConfig, v5: NewV5, time: nat)
    ensures Appears(c, v5, time) <==> time % c.interval.Secs() == FirstSlot(c, v5)
  {
    SlotsAreAResidueClass(c, v5);
    RemainderInTheHour(time, c.interval.Secs(), |Slots(c, v5)|);
  }

  /** In any `interval` consecutive seconds there is exactly one appearance, and the next one is
      `interval` seconds later with the rotation counter up by one. */
  lemma AppearsExactlyOnce(c: CheckConfig, v5: NewV5, from: nat) returns (at: nat)
    ensures from <= at < from + c.interval.Secs() && Appears(c, v5, at)
    ensures forall t: nat :: from <= t < from + c.interval.Secs() && Appears(c, v5, t) ==> t == at
    ensures Appears(c, v5, at + c.interval.Secs())
    ensures TruncDiv(at + c.interval.Secs(), c.interval.Secs()) == TruncDiv(at, c.interval.Secs()) + 1
  {
    var secs, first := c.interval.Secs(), FirstSlot(c, v5);
    var q := from / secs;
    assert from == secs * q + from % secs;
    if secs * q + first < from { q := q + 1; }
    at := secs * q + first;
    DivModUnique(at, secs, q, first);
    assert secs * (q + 1) == secs * q + secs;
    DivModUnique(at + secs, secs, q + 1, first);
    AppearsOncePerResidue(c, v5, at);
    AppearsOncePerResidue(c, v5, at + secs);
    forall t: nat | from <= t < from + secs && Appears(c, v5, t)
      ensures t == at
    {
      AppearsOncePerResidue(c, v5, t);
      SameRemainder(t, at, secs);
    }
  }

  /** The 128-bit sum cannot wrap: the version nibble 5 leaves room for any i64 counter. */
  lemma RotationSumFits(seed: Uuid5, counter: nat)
    requires counter < TWO_63
    ensures counter + seed < TWO_128
  {
    assert IsVersion5(seed);
    var high := seed / TWO_76;
    assert high % 16 == 5 && high <= 0xF_FFFF_FFFF_FFF5;
    assert seed < TWO_76 * (high + 1);
  }

  /** The rotation without machine arithmetic: seconds counted in intervals, offset by a constant. */
  function Turn(c: CheckConfig, v5: NewV5, time: nat): nat {
    time / c.interval.Secs() + v5(SUBSCRIPTION_SHOULD_RUN_NAMESPACE, c.subscriptionId)
  }

  lemma RunningIndexIsTurn(c: CheckConfig, v5: NewV5, time: nat)
    requires Rotates(c) && time < TWO_63
    ensures RunningIndex(c, v5, time) == Turn(c, v5, time) % |c.activeRegions.value|
  {
    assert time / c.interval.Secs() <= time;
    RotationSumFits(v5(SUBSCRIPTION_SHOULD_RUN_NAMESPACE, c.subscriptionId), time / c.interval.Secs());
    assert Turn(c, v5, time) % TWO_128 == Turn(c, v5, time);
  }

  /** When and where a check runs, told from its fields: at the seconds congruent to a constant of its id,
      and while it rotates only in the region whose position is the count of intervals since the epoch,
      offset by another constant of its id. */
  lemma RunsExactly(c: CheckConfig, v5: NewV5, time: nat, region: string)
    requires time < 0x8000_0000_0000_0000
    ensures var secs := c.interval.Secs();
      Runs(c, v5, time, region) <==>
        && time % secs == v5(134104732365955935133175004175948885464, c.subscriptionId) % secs
        && (c.roundRobin && c.activeRegions.Some? && c.activeRegions.value != [] ==>
              var regions := c.activeRegions.value;
              var turn := time / secs + v5(31415926535897932384626433832795, c.subscriptionId);
              regions[turn % |regions|] == region)
  {
    AppearsOncePerResidue(c, v5, time);
    if c.roundRobin && c.activeRegions.Some? && c.activeRegions.value != [] { RunningIndexIsTurn(c, v5, time); }
  }

  // ---- A full rotation -----------------------------------------------------------------------

  /** The appearance, among the n that start at `at`, whose turn is list position j. */
  function TurnOf(c: CheckConfig, v5: NewV5, at: nat, j: nat): nat
    requires Rotates(c)
  {
    at + (j - Turn(c, v5, at)) % |c.activeRegions.value| * c.interval.Secs()
  }

  lemma TurnAdvances(c: CheckConfig, v5: NewV5, at: nat, k: nat)
    ensures Turn(c, v5, at + k * c.interval.Secs()) == Turn(c, v5, at) + k
    ensures Appears(c, v5, at) ==> Appears(c, v5, at + k * c.interval.Secs())
  {
    var secs := c.interval.Secs();
    assert at == secs * (at / secs) + at % secs && secs * (at / secs + k) == secs * (at / secs) + k * secs;
    DivModUnique(at + k * secs, secs, at / secs + k, at % secs);
    AppearsOncePerResidue(c, v5, at);
    AppearsOncePerResidue(c, v5, at + k * secs);
  }

  /** Stepping from b by (j - b) mod n lands on j modulo n. */
  lemma StepsToPosition(b: nat, j: nat, n: nat)
    requires j < n
    ensures (b + (j - b) % n) % n == j
  {
    var q := (j - b) / n;
    assert n * (-q) == -(n * q);
    DivModUnique(b + (j - b) % n, n, -q, j);
  }

  /** A step k below n is recovered from where it lands. */
  lemma StepFromPosition(b: nat, k: nat, n: nat)
    requires k < n
    ensures ((b + k) % n - b) % n == k
  {
    var q := (b + k) / n;
    assert n * (-q) == -(n * q);
    DivModUnique((b + k) % n - b, n, -q, k);
  }

  lemma MulLess(k: nat, n: nat, d: nat)
    requires d > 0
    ensures k < n <==> k * d < n * d
  {
    MulAway(d, n - k);
    assert d * (n - k) == n * d - k * d;
  }

  /** List position j has its turn at `TurnOf(j)` ... */
  lemma TurnOfIsItsTurn(c: CheckConfig, v5: NewV5, at: nat, j: nat)
    requires Rotates(c) && Appears(c, v5, at) && j < |c.activeRegions.value|
    ensures at <= TurnOf(c, v5, at, j) < at + |c.activeRegions.value| * c.interval.Secs()
    ensures Appears(c, v5, TurnOf(c, v5, at, j))
    ensures Turn(c, v5, TurnOf(c, v5, at, j)) % |c.activeRegions.value| == j
  {
    var n, secs := |c.activeRegions.value|, c.interval.Secs();
    var b := Turn(c, v5, at);
    TurnAdvances(c, v5, at, (j - b) % n);
    MulLess((j - b) % n, n, secs);
    StepsToPosition(b, j, n);
  }

  /** ... and at no other of the n appearances from `at` on. */
  lemma TurnIsUnique(c: CheckConfig, v5: NewV5, at: nat, time: nat)
    requires Rotates(c) && Appears(c, v5, at) && Appears(c, v5, time)
    requires at <= time < at + |c.activeRegions.value| * c.interval.Secs()
    ensures TurnOf(c, v5, at, Turn(c, v5, time) % |c.activeRegions.value|) == time
  {
    var n, secs := |c.activeRegions.value|, c.interval.Secs();
    AppearsOncePerResidue(c, v5, at);
    AppearsOncePerResidue(c, v5, time);
    SameRemainder(at, time, secs);
    var k := time / secs - at / secs;
    MulAway(secs, k);
    MulLess(k, n, secs);
    TurnAdvances(c, v5, at, k);
    StepFromPosition(Turn(c, v5, at), k, n);
  }

  /** A bijection keeps the size of a set. */
  lemma {:induction false} SameSize(a: set<nat>, b: set<nat>, f: nat -> nat)
    requires forall x, y :: x in a && y in a && f(x) == f(y) ==> x == y
    requires b == set x | x in a :: f(x)
    ensures |a| == |b|
  {
    if a != {} {
      var x :| x in a;
      var a', b' := a - {x}, b - {f(x)};
      assert b' == set y | y in a' :: f(y);
      SameSize(a', b', f);
    }
  }

  /** The seconds of the window at which a checker in `region` schedules the check. */
  function RunTimes(c: CheckConfig, v5: NewV5, from: nat, to: nat, region: string): set<nat> {
    set t: nat | from <= t < to && Runs(c, v5, t, region)
  }

  /** The places at which the region list names `region`. */
  function Places(regions: seq<string>, region: string): set<nat> {
    set j: nat | j < |regions| && regions[j] == region
  }

  lemma WindowShift(from: nat, at: nat, width: nat, time: nat, d: nat)
    requires d > 0 && from <= at < from + d && at % d == time % d == (at + width) % d
    ensures from <= time < from + width <==> at <= time < at + width
  {
    SameRemainder(at, time, d);
    SameRemainder(at + width, time, d);
  }

  lemma WindowFromFirstAppearance(c: CheckConfig, v5: NewV5, from: nat, at: nat, n: nat, time: nat)
    requires from <= at < from + c.interval.Secs() && Appears(c, v5, at) && Appears(c, v5, time)
    ensures from <= time < from + n * c.interval.Secs() <==> at <= time < at + n * c.interval.Secs()
  {
    AppearsOncePerResidue(c, v5, at);
    AppearsOncePerResidue(c, v5, time);
    TurnAdvances(c, v5, at, n);
    AppearsOncePerResidue(c, v5, at + n * c.interval.Secs());
    WindowShift(from, at, n * c.interval.Secs(), time, c.interval.Secs());
  }

  lemma PlaceHasARunTime(c: CheckConfig, v5: NewV5, from: nat, at: nat, region: string, j: nat)
    requires Rotates(c) && from + |c.activeRegions.value| * c.interval.Secs() <= TWO_63
    requires from <= at < from + c.interval.Secs() && Appears(c, v5, at)
    requires j in Places(c.activeRegions.value, region)
    ensures TurnOf(c, v5, at, j) in RunTimes(c, v5, from, from + |c.activeRegions.value| * c.interval.Secs(), region)
    ensures Turn(c, v5, TurnOf(c, v5, at, j)) % |c.activeRegions.value| == j
  {
    TurnOfIsItsTurn(c, v5, at, j);
    WindowFromFirstAppearance(c, v5, from, at, |c.activeRegions.value|, TurnOf(c, v5, at, j));
    RunningIndexIsTurn(c, v5, TurnOf(c, v5, at, j));
  }

  lemma RunTimeHasAPlace(c: CheckConfig, v5: NewV5, from: nat, at: nat, region: string, t: nat)
    requires Rotates(c) && from + |c.activeRegions.value| * c.interval.Secs() <= TWO_63
    requires from <= at < from + c.interval.Secs() && Appears(c, v5, at)
    requires t in RunTimes(c, v5, from, from + |c.activeRegions.value| * c.interval.Secs(), region)
    ensures Turn(c, v5, t) % |c.activeRegions.value| in Places(c.activeRegions.value, region)
    ensures TurnOf(c, v5, at, Turn(c, v5, t) % |c.activeRegions.value|) == t
  {
    WindowFromFirstAppearance(c, v5, from, at, |c.activeRegions.value|, t);
    TurnIsUnique(c, v5, at, t);
    RunningIndexIsTurn(c, v5, t);
  }

  /** Turns map the places one to one onto the run times. */
  lemma TurnsMatch(c: CheckConfig, v5: NewV5, from: nat, at: nat, region: string)
    requires Rotates(c) && from + |c.activeRegions.value| * c.interval.Secs() <= TWO_63
    requires from <= at < from + c.interval.Secs() && Appears(c, v5, at)
    ensures var times := RunTimes(c, v5, from, from + |c.activeRegions.value| * c.interval.Secs(), region);
      var places := Places(c.activeRegions.value, region);
      && (forall j, k :: j in places && k in places && TurnOf(c, v5, at, j) == TurnOf(c, v5, at, k) ==> j == k)
      && times == set j | j in places :: TurnOf(c, v5, at, j)
  {
    var n := |c.activeRegions.value|;
    var places := Places(c.activeRegions.value, region);
    var times := RunTimes(c, v5, from, from + n * c.interval.Secs(), region);
    forall j | j in places
      ensures TurnOf(c, v5, at, j) in times && Turn(c, v5, TurnOf(c, v5, at, j)) % n == j
    {
      PlaceHasARunTime(c, v5, from, at, region, j);
    }
    forall t | t in times
      ensures exists j :: j in places && TurnOf(c, v5, at, j) == t
    {
      RunTimeHasAPlace(c, v5, from, at, region, t);
    }
  }

  /** Over any n * interval consecutive seconds, n being the length of the region list, each region
      runs the check exactly as many times as the list names it. */
  lemma EachRegionTakesItsTurns(c: CheckConfig, v5: NewV5, from: nat, region: string)
    requires c.roundRobin && c.activeRegions.Some? && c.activeRegions.value != []
    requires from + |c.activeRegions.value| * c.interval.Secs() <= TWO_63
    ensures |RunTimes(c, v5, from, from + |c.activeRegions.value| * c.interval.Secs(), region)|
            == |Places(c.activeRegions.value, region)|
  {
    var at := AppearsExactlyOnce(c, v5, from);
    TurnsMatch(c, v5, from, at, region);
    var times := RunTimes(c, v5, from, from + |c.activeRegions.value| * c.interval.Secs(), region);
    SameSize(Places(c.activeRegions.value, region), times, (j: nat) => TurnOf(c, v5, at, j));
  }

  /** Without a rotation every region runs the check exactly once per interval. */
  lemma EveryRegionRunsOncePerInterval(c: CheckConfig, v5: NewV5, from: nat, region: string)
    requires !c.roundRobin || c.activeRegions.None? || c.activeRegions.value == []
    ensures |RunTimes(c, v5, from, from + c.interval.Secs(), region)| == 1
  {
    var at := AppearsExactlyOnce(c, v5, from);
    assert RunTimes(c, v5, from, from + c.interval.Secs(), region) == {at};
  }
}
