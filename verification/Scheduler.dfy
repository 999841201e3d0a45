/** Dispatching ticks and saving progress in order (src/scheduler.rs). */
module Scheduler {
  import opened Prelude
  import opened CheckConfigs
  import opened ConfigStores
  import opened RoundRobin

  const SECOND: nat := 1_000_000_000

  // ---- Dispatch ------------------------------------------------------------------------------

  /** schedule_checks: queue, once each, every stored check of the tick's bucket whose turn it is in
      this region. */
  method ScheduleChecks(store: ConfigStore, time: nat, region: string) returns (queued: seq<CheckConfig>)
    requires store.Valid()
    ensures forall c :: c in queued <==>
      c.subscriptionId in store.configs && store.configs[c.subscriptionId] == c && Runs(c, store.v5, time, region)
    ensures forall i, j :: 0 <= i < j < |queued| ==> queued[i] != queued[j]
  {
    var tick := FromTime(time);
    var configs := store.GetConfigs(tick);
    queued := QueueDue(configs, store.v5, tick, region);
    forall c: CheckConfig
      ensures Appears(c, store.v5, time) <==> tick.index % c.interval.Secs() == FirstSlot(c, store.v5)
    {
      SlotsAreAResidueClass(c, store.v5);
    }
  }

  /** Its loop over the bucket. */
  method QueueDue(configs: set<CheckConfig>, v5: NewV5, tick: Tick, region: string) returns (queued: seq<CheckConfig>)
    ensures forall c :: c in queued <==> c in configs && ShouldRun(c, v5, tick, region)
    ensures forall i, j :: 0 <= i < j < |queued| ==> queued[i] != queued[j]
  {
    queued := [];
    var rest := configs;
    while rest != {}
      invariant rest <= configs
      invariant forall c :: c in queued <==> c in configs - rest && ShouldRun(c, v5, tick, region)
      invariant forall i, j :: 0 <= i < j < |queued| ==> queued[i] != queued[j]
      decreases |rest|
    {
      var config :| config in rest;
      rest := rest - {config};
      if ShouldRun(config, v5, tick, region) {
        queued := queued + [config];
      }
    }
  }

  ghost predicate WasQueued(log: seq<seq<CheckConfig>>, from: nat, c: CheckConfig, t: nat) {
    from <= t < from + |log| && c in log[t - from]
  }

  /** The seconds at which a check was queued, given what was queued at each second from `from` on. */
  ghost function QueuedAt(log: seq<seq<CheckConfig>>, from: nat, c: CheckConfig): set<nat> {
    set t: nat | from <= t < from + |log| && WasQueued(log, from, c, t)
  }

  predicate Holds(configs: map<nat, CheckConfig>, c: CheckConfig) {
    c.subscriptionId in configs && configs[c.subscriptionId] == c
  }

  /** log[k] is what a store with these checks queues, each of them once, at second from + k. */
  ghost predicate Queues(log: seq<seq<CheckConfig>>, snapshots: seq<map<nat, CheckConfig>>, v5: NewV5,
                         from: nat, region: string) {
    && |log| == |snapshots|
    && (forall k, c :: 0 <= k < |log| ==>
         (c in log[k] <==> Holds(snapshots[k], c) && Runs(c, v5, from + k, region)))
    && forall k, i, j :: 0 <= k < |log| && 0 <= i < j < |log[k]| ==> log[k][i] != log[k][j]
  }

  /** A check that rotates is queued in one full rotation as often as its region list names this region, and
      one that does not is queued once in one interval. */
  ghost predicate QueuedAsItShould(log: seq<seq<CheckConfig>>, from: nat, region: string, c: CheckConfig) {
    if c.roundRobin && c.activeRegions.Some? && c.activeRegions.value != [] then
      |log| == |c.activeRegions.value| * c.interval.Secs() ==>
        |QueuedAt(log, from, c)| == |Places(c.activeRegions.value, region)|
    else
      |log| == c.interval.Secs() ==> |QueuedAt(log, from, c)| == 1
  }

  /** However the rest of the store changes from tick to tick, a check that is held throughout is queued as
      it should. */
  lemma ResidentIsQueuedExactly(log: seq<seq<CheckConfig>>, snapshots: seq<map<nat, CheckConfig>>, v5: NewV5,
                                from: nat, region: string, c: CheckConfig)
    requires Queues(log, snapshots, v5, from, region) && from + |log| <= TWO_63
    requires forall k :: 0 <= k < |snapshots| ==> Holds(snapshots[k], c)
    ensures QueuedAsItShould(log, from, region, c)
  {
    assert QueuedAt(log, from, c) == RunTimes(c, v5, from, from + |log|, region);
    if c.roundRobin && c.activeRegions.Some? && c.activeRegions.value != [] {
      if |log| == |c.activeRegions.value| * c.interval.Secs() { EachRegionTakesItsTurns(c, v5, from, region); }
    } else if |log| == c.interval.Secs() {
      EveryRegionRunsOncePerInterval(c, v5, from, region);
    }
  }

  /** What the config provider does to a store between two ticks. */
  datatype Change = Add(config: CheckConfig) | Remove(subscriptionId: nat)

  function Changed(configs: map<nat, CheckConfig>, changes: seq<Change>): map<nat, CheckConfig> {
    if changes == [] then configs
    else
      var before := Changed(configs, changes[..|changes| - 1]);
      match changes[|changes| - 1]
      case Add(c) => before[c.subscriptionId := c]
      case Remove(id) => before - {id}
  }

  predicate Touches(change: Change, id: nat) {
    match change
    case Add(c) => c.subscriptionId == id
    case Remove(i) => i == id
  }

  predicate TouchesLast(changes: seq<Change>, id: nat, i: nat) {
    && i < |changes| && Touches(changes[i], id)
    && forall j :: i < j < |changes| ==> !Touches(changes[j], id)
  }

  /** What is held under an id is settled by the last change that touches it, and left alone if none does. */
  lemma {:induction false} LastChangeDecides(configs: map<nat, CheckConfig>, changes: seq<Change>, id: nat, i: nat)
    ensures (forall j :: 0 <= j < |changes| ==> !Touches(changes[j], id)) ==>
      (id in Changed(configs, changes) <==> id in configs)
      && (id in configs ==> Changed(configs, changes)[id] == configs[id])
    ensures TouchesLast(changes, id, i) ==>
      match changes[i]
      case Add(c) => id in Changed(configs, changes) && Changed(configs, changes)[id] == c
      case Remove(_) => id !in Changed(configs, changes)
    decreases |changes|
  {
    if changes != [] {
      var before := changes[..|changes| - 1];
      assert forall j :: 0 <= j < |before| ==> before[j] == changes[j];
      assert TouchesLast(changes, id, i) && i < |before| ==> TouchesLast(before, id, i);
      LastChangeDecides(configs, before, id, i);
    }
  }

  /** What the store holds after the first n rounds of changes. */
  function AfterRounds(configs: map<nat, CheckConfig>, rounds: seq<seq<Change>>, n: nat): map<nat, CheckConfig>
    requires n <= |rounds|
  {
    if n == 0 then configs else Changed(AfterRounds(configs, rounds, n - 1), rounds[n - 1])
  }

  /** What the store holds at each tick: round k comes before tick k. */
  function Snapshots(configs: map<nat, CheckConfig>, rounds: seq<seq<Change>>): seq<map<nat, CheckConfig>> {
    seq(|rounds|, k requires 0 <= k < |rounds| => AfterRounds(configs, rounds, k + 1))
  }

  method ApplyChanges(store: ConfigStore, changes: seq<Change>, now: nat)
    requires store.Valid()
    modifies store, store.tickBuckets
    ensures store.Valid() && store.configs == Changed(old(store.configs), changes)
  {
    ghost var was := store.configs;
    for i := 0 to |changes|
      invariant store.Valid() && store.configs == Changed(was, changes[..i])
    {
      assert changes[..i + 1][..i] == changes[..i];
      match changes[i] {
        case Add(c) => store.AddConfig(c, now);
        case Remove(id) => store.RemoveConfig(id, now);
      }
    }
    assert changes[..|changes|] == changes;
  }

  lemma OneMoreTick(log: seq<seq<CheckConfig>>, queued: seq<CheckConfig>, snapshots: seq<map<nat, CheckConfig>>,
                    v5: NewV5, from: nat, region: string)
    requires |log| < |snapshots| && Queues(log, snapshots[..|log|], v5, from, region)
    requires forall c :: c in queued <==> Holds(snapshots[|log|], c) && Runs(c, v5, from + |log|, region)
    requires forall i, j :: 0 <= i < j < |queued| ==> queued[i] != queued[j]
    ensures Queues(log + [queued], snapshots[..|log| + 1], v5, from, region)
  {
  }

  /** The dispatch loop over consecutive seconds, one per round of changes to the store. Each tick queues
      what the store then holds and is due, so that `ResidentIsQueuedExactly` holds of every check that
      stays. */
  method DispatchTicks(store: ConfigStore, from: nat, rounds: seq<seq<Change>>, region: string)
    returns (log: seq<seq<CheckConfig>>)
    requires store.Valid() && from + |rounds| <= TWO_63
    modifies store, store.tickBuckets
    ensures store.Valid() && store.configs == AfterRounds(old(store.configs), rounds, |rounds|)
    ensures Queues(log, Snapshots(old(store.configs), rounds), store.v5, from, region)
    ensures forall c: CheckConfig ::
      (forall k :: 0 <= k < |rounds| ==> Holds(Snapshots(old(store.configs), rounds)[k], c)) ==>
      QueuedAsItShould(log, from, region, c)
  {
    ghost var was := store.configs;
    ghost var snapshots := Snapshots(was, rounds);
    log := [];
    for k := 0 to |rounds|
      invariant store.Valid() && store.configs == AfterRounds(was, rounds, k)
      invariant |log| == k && Queues(log, snapshots[..k], store.v5, from, region)
    {
      ApplyChanges(store, rounds[k], from + k);
      var queued := ScheduleChecks(store, from + k, region);
      OneMoreTick(log, queued, snapshots, store.v5, from, region);
      log := log + [queued];
    }
    assert snapshots[..|rounds|] == snapshots;
    forall c: CheckConfig | forall k :: 0 <= k < |rounds| ==> Holds(snapshots[k], c)
      ensures QueuedAsItShould(log, from, region, c)
    {
      ResidentIsQueuedExactly(log, snapshots, store.v5, from, region, c);
    }
  }

  // ---- The in-order tick processor -----------------------------------------------------------

  /** A dispatched tick (nanoseconds) with the answers of its checks: false where the executor
      dropped the answering channel. */
  datatype Bundle = Bundle(tick: int, answers: seq<bool>)

  datatype WriteReply = Written | TimedOut | ConnectionDropped | FatalError

  datatype ProcessorEnd = ChannelClosed | ExecutorDown | FatalWrite

  predicate Resolved(b: Bundle) { forall i :: 0 <= i < |b.answers| ==> b.answers[i] }

  /** How many bundles at the front of a batch are resolved. */
  function Leading(batch: seq<Bundle>): (n: nat)
    ensures n <= |batch|
    ensures forall i :: 0 <= i < n ==> Resolved(batch[i])
    ensures n < |batch| ==> !Resolved(batch[n])
  {
    if batch == [] || !Resolved(batch[0]) then 0 else 1 + Leading(batch[1..])
  }

  predicate Clean(batch: seq<Bundle>) { Leading(batch) == |batch| }

  /** timestamp_nanos_opt: the time fits an i64 of nanoseconds. */
  predicate FitsNanos(tick: int) { -0x8000_0000_0000_0000 <= tick < 0x8000_0000_0000_0000 }

  /** The tick a batch makes the processor save, if its first bundle resolves. */
  function LastTick(batch: seq<Bundle>): int
    requires Leading(batch) > 0
  {
    batch[Leading(batch) - 1].tick
  }

  predicate WantsWrite(batch: seq<Bundle>) { Leading(batch) > 0 && FitsNanos(LastTick(batch)) }

  /** Processing goes on after this batch. */
  predicate GoesOn(batch: seq<Bundle>, reply: WriteReply) {
    Leading(batch) > 0 && (WantsWrite(batch) ==> reply != FatalError)
  }

  predicate Reaches(batches: seq<seq<Bundle>>, replies: seq<WriteReply>, j: nat)
    requires j <= |batches| <= |replies|
  {
    forall i :: 0 <= i < j ==> GoesOn(batches[i], replies[i])
  }

  /** Batch j gets its last tick written. */
  predicate WritesAt(batches: seq<seq<Bundle>>, replies: seq<WriteReply>, j: nat)
    requires j < |batches| <= |replies|
  {
    Reaches(batches, replies, j) && WantsWrite(batches[j])
  }

  /** The watermark values sent for the first n batches. */
  function Writes(batches: seq<seq<Bundle>>, replies: seq<WriteReply>, n: nat): seq<int>
    requires n <= |batches| <= |replies|
  {
    if n == 0 then []
    else Writes(batches, replies, n - 1) +
         if WritesAt(batches, replies, n - 1) then [LastTick(batches[n - 1])] else []
  }

  /** One batch adds its last tick, or nothing. */
  lemma WritesStep(batches: seq<seq<Bundle>>, replies: seq<WriteReply>, n: nat)
    requires n < |batches| <= |replies|
    ensures WritesAt(batches, replies, n) ==>
      Writes(batches, replies, n + 1) == Writes(batches, replies, n) + [LastTick(batches[n])]
    ensures !WritesAt(batches, replies, n) ==> Writes(batches, replies, n + 1) == Writes(batches, replies, n)
    ensures forall w :: w in Writes(batches, replies, n) ==> w in Writes(batches, replies, n + 1)
  {
  }

  lemma {:induction false} NoMoreWrites(batches: seq<seq<Bundle>>, replies: seq<WriteReply>, k: nat, n: nat)
    requires k <= n <= |batches| <= |replies|
    requires forall j :: k <= j < n ==> !WritesAt(batches, replies, j)
    ensures Writes(batches, replies, n) == Writes(batches, replies, k)
    decreases n
  {
    if k < n { NoMoreWrites(batches, replies, k, n - 1); }
  }

  const HANDLE_BATCH_SIZE: nat := 1000

  /** recv_many hands out at least one bundle and at most a full batch, until the channel is closed. */
  predicate Received(batch: seq<Bundle>) { 0 < |batch| <= HANDLE_BATCH_SIZE }

  /** The loop over the answers of one bundle. */
  method AwaitChecks(answers: seq<bool>) returns (executorDone: bool)
    ensures executorDone <==> exists k :: 0 <= k < |answers| && !answers[k]
  {
    for k := 0 to |answers|
      invariant forall m :: 0 <= m < k ==> answers[m]
    {
      if !answers[k] { return true; }
    }
    return false;
  }

  /** The loop over one batch. `executorDone` is not remembered beyond it. */
  method AwaitBatch(batch: seq<Bundle>) returns (lastTick: Option<int>)
    ensures lastTick == if Leading(batch) == 0 then None else Some(LastTick(batch))
  {
    lastTick := None;
    for i := 0 to |batch|
      invariant i <= Leading(batch)
      invariant lastTick == if i == 0 then None else Some(batch[i - 1].tick)
    {
      var executorDone := AwaitChecks(batch[i].answers);
      if executorDone { break; }
      lastTick := Some(batch[i].tick);
    }
  }

  /** The processor's loop, for any way the channel's bundles fall into batches. */
  method ProcessTicks(batches: seq<seq<Bundle>>, replies: seq<WriteReply>) returns (sent: seq<int>, end: ProcessorEnd)
    requires |batches| <= |replies|
    requires forall j :: 0 <= j < |batches| ==> Received(batches[j])
    ensures sent == Writes(batches, replies, |batches|)
    ensures end == ChannelClosed <==> Reaches(batches, replies, |batches|)
    ensures end == ExecutorDown <==>
      exists j :: 0 <= j < |batches| && Reaches(batches, replies, j) && Leading(batches[j]) == 0
    ensures end == FatalWrite <==>
      exists j :: 0 <= j < |batches| && WritesAt(batches, replies, j) && replies[j] == FatalError
  {
    sent := [];
    for b := 0 to |batches|
      invariant Reaches(batches, replies, b)
      invariant sent == Writes(batches, replies, b)
    {
      var lastTick := AwaitBatch(batches[b]);
      if lastTick.None? {
        NoMoreWrites(batches, replies, b, |batches|);
        return sent, ExecutorDown;
      }
      if !FitsNanos(lastTick.value) { continue; }
      WritesStep(batches, replies, b);
      sent := sent + [lastTick.value];
      if replies[b] == FatalError {
        NoMoreWrites(batches, replies, b + 1, |batches|);
        return sent, FatalWrite;
      }
    }
    return sent, ChannelClosed;
  }

  // ---- What the written values mean ----------------------------------------------------------

  /** Ticks come in increasing order, within and across batches. */
  ghost predicate Ascending(batches: seq<seq<Bundle>>) {
    forall i, k, j, l ::
      (&& 0 <= i < |batches| && 0 <= k < |batches[i]| && 0 <= j < |batches| && 0 <= l < |batches[j]|
       && (i < j || (i == j && k < l)))
      ==> batches[i][k].tick < batches[j][l].tick
  }

  /** Everything dispatched up to this tick has been resolved. */
  ghost predicate ResolvedUpTo(batches: seq<seq<Bundle>>, tick: int) {
    forall i, k :: 0 <= i < |batches| && 0 <= k < |batches[i]| && batches[i][k].tick <= tick ==> Resolved(batches[i][k])
  }

  lemma CleanIsResolved(batch: seq<Bundle>)
    ensures Clean(batch) <==> forall k :: 0 <= k < |batch| ==> Resolved(batch[k])
  {
  }

  /** Up to and including the first batch with a failed receiver, a written tick and all before it
      are resolved; after it, no written tick is safe. */
  lemma WriteIsSafeExactlyWhenEarlierBatchesAreClean(batches: seq<seq<Bundle>>, replies: seq<WriteReply>, j: nat)
    requires j < |batches| <= |replies| && Ascending(batches) && WritesAt(batches, replies, j)
    ensures ResolvedUpTo(batches, LastTick(batches[j])) <==> forall i :: 0 <= i < j ==> Clean(batches[i])
  {
    var last := Leading(batches[j]) - 1;
    var w := batches[j][last].tick;
    assert forall i, k :: 0 <= i < |batches| && 0 <= k < |batches[i]| && (i > j || (i == j && k > last)) ==>
      w < batches[i][k].tick;
    if forall i :: 0 <= i < j ==> Clean(batches[i]) {
      forall i, k | 0 <= i < |batches| && 0 <= k < |batches[i]| && batches[i][k].tick <= w
        ensures Resolved(batches[i][k])
      {
        if i < j { CleanIsResolved(batches[i]); }
      }
    }
    if ResolvedUpTo(batches, w) {
      forall i | 0 <= i < j
        ensures Clean(batches[i])
      {
        forall k | 0 <= k < |batches[i]|
          ensures Resolved(batches[i][k])
        {
          assert batches[i][k].tick < batches[j][last].tick;
        }
        CleanIsResolved(batches[i]);
      }
    }
  }

  lemma {:induction false} WriteHasABatch(batches: seq<seq<Bundle>>, replies: seq<WriteReply>, n: nat, i: nat)
    returns (j: nat)
    requires n <= |batches| <= |replies| && i < |Writes(batches, replies, n)|
    ensures j < n && WritesAt(batches, replies, j)
    ensures Writes(batches, replies, n)[i] == LastTick(batches[j])
    ensures Writes(batches, replies, j) == Writes(batches, replies, n)[..i]
  {
    if i == |Writes(batches, replies, n - 1)| {
      j := n - 1;
    } else {
      j := WriteHasABatch(batches, replies, n - 1, i);
    }
  }

  lemma {:induction false} BatchHasItsWrite(batches: seq<seq<Bundle>>, replies: seq<WriteReply>, n: nat, j: nat)
    requires j < n <= |batches| <= |replies| && WritesAt(batches, replies, j)
    ensures LastTick(batches[j]) in Writes(batches, replies, n)
  {
    WritesStep(batches, replies, n - 1);
    if j < n - 1 { BatchHasItsWrite(batches, replies, n - 1, j); }
  }

  /** Watermark prefix safety: all values one run sends are safe if and only if no batch after one with a
      failed receiver gets to send anything. */
  lemma WatermarkIsSafe(batches: seq<seq<Bundle>>, replies: seq<WriteReply>)
    requires |batches| <= |replies| && Ascending(batches)
    ensures (forall w :: w in Writes(batches, replies, |batches|) ==> ResolvedUpTo(batches, w)) <==>
            forall i, j :: 0 <= i < j < |batches| && WritesAt(batches, replies, j) ==> Clean(batches[i])
  {
    var sent := Writes(batches, replies, |batches|);
    if forall w :: w in sent ==> ResolvedUpTo(batches, w) {
      forall i, j | 0 <= i < j < |batches| && WritesAt(batches, replies, j)
        ensures Clean(batches[i])
      {
        BatchHasItsWrite(batches, replies, |batches|, j);
        WriteIsSafeExactlyWhenEarlierBatchesAreClean(batches, replies, j);
      }
    }
    if forall i, j :: 0 <= i < j < |batches| && WritesAt(batches, replies, j) ==> Clean(batches[i]) {
      forall w | w in sent
        ensures ResolvedUpTo(batches, w)
      {
        var m :| 0 <= m < |sent| && sent[m] == w;
        var j := WriteHasABatch(batches, replies, |batches|, m);
        WriteIsSafeExactlyWhenEarlierBatchesAreClean(batches, replies, j);
      }
    }
  }

  /** Batch u is the first with a failed receiver, and processing gets to it. */
  ghost predicate FirstUnclean(batches: seq<seq<Bundle>>, replies: seq<WriteReply>, u: nat) {
    && u < |batches| <= |replies|
    && !Clean(batches[u])
    && forall i :: 0 <= i < u ==> Clean(batches[i]) && replies[i] != FatalError
  }

  /** Nothing is sent after batch u: it is the last one, processing ends with it because its first bundle
      failed or its write was fatal, or the first bundle of the next batch failed. */
  predicate LastToSend(batches: seq<seq<Bundle>>, replies: seq<WriteReply>, u: nat)
    requires u < |batches| <= |replies|
  {
    || u == |batches| - 1
    || Leading(batches[u]) == 0
    || replies[u] == FatalError
    || Leading(batches[u + 1]) == 0
  }

  /** All ticks fit an i64 of nanoseconds, and no batch is empty. */
  ghost predicate Plain(batches: seq<seq<Bundle>>) {
    && (forall i :: 0 <= i < |batches| ==> batches[i] != [])
    && forall i, k :: 0 <= i < |batches| && 0 <= k < |batches[i]| ==> FitsNanos(batches[i][k].tick)
  }

  lemma FirstUncleanSettlesIt(batches: seq<seq<Bundle>>, replies: seq<WriteReply>, u: nat)
    requires Plain(batches) && FirstUnclean(batches, replies, u) && !LastToSend(batches, replies, u)
    ensures WritesAt(batches, replies, u + 1)
  {
    assert forall i :: 0 <= i < |batches| ==> (Leading(batches[i]) > 0 <==> WantsWrite(batches[i]));
    assert forall i :: 0 <= i < u ==> GoesOn(batches[i], replies[i]);
  }

  lemma {:induction false} LeastUnclean(batches: seq<seq<Bundle>>, i: nat) returns (u: nat)
    requires i < |batches| && !Clean(batches[i])
    ensures u <= i && !Clean(batches[u])
    ensures forall k :: 0 <= k < u ==> Clean(batches[k])
  {
    if k: nat :| k < i && !Clean(batches[k]) {
      u := LeastUnclean(batches, k);
    } else {
      u := i;
    }
  }

  lemma SendingPassesUnclean(batches: seq<seq<Bundle>>, replies: seq<WriteReply>, i: nat, j: nat) returns (u: nat)
    requires i < j < |batches| <= |replies| && Plain(batches)
    requires WritesAt(batches, replies, j) && !Clean(batches[i])
    ensures FirstUnclean(batches, replies, u) && !LastToSend(batches, replies, u)
  {
    u := LeastUnclean(batches, i);
    forall k | 0 <= k < j
      ensures Leading(batches[k]) > 0 && replies[k] != FatalError
    {
      assert GoesOn(batches[k], replies[k]);
      assert FitsNanos(LastTick(batches[k]));
    }
  }

  /** The same told from the batches alone: a run is safe if and only if nothing is sent after the first
      batch with a failed receiver. */
  lemma SafetyFromTheFirstUncleanBatch(batches: seq<seq<Bundle>>, replies: seq<WriteReply>)
    requires |batches| <= |replies| && Ascending(batches) && Plain(batches)
    ensures (forall w :: w in Writes(batches, replies, |batches|) ==> ResolvedUpTo(batches, w)) <==>
            forall u: nat :: FirstUnclean(batches, replies, u) ==> LastToSend(batches, replies, u)
  {
    WatermarkIsSafe(batches, replies);
    forall u: nat | FirstUnclean(batches, replies, u) && !LastToSend(batches, replies, u)
      ensures WritesAt(batches, replies, u + 1)
    {
      FirstUncleanSettlesIt(batches, replies, u);
    }
    forall i, j | 0 <= i < j < |batches| && WritesAt(batches, replies, j) && !Clean(batches[i])
      ensures exists u: nat :: FirstUnclean(batches, replies, u) && !LastToSend(batches, replies, u)
    {
      var u := SendingPassesUnclean(batches, replies, i, j);
    }
  }

  /** A safe value is the tick of a resolved bundle. */
  lemma SafeWriteIsABundle(batches: seq<seq<Bundle>>, replies: seq<WriteReply>, w: int) returns (j: nat, l: nat)
    requires |batches| <= |replies| && Ascending(batches) && w in Writes(batches, replies, |batches|)
    requires forall i, j :: 0 <= i < j < |batches| && WritesAt(batches, replies, j) ==> Clean(batches[i])
    ensures j < |batches| && l < |batches[j]| && batches[j][l].tick == w
    ensures Resolved(batches[j][l]) && ResolvedUpTo(batches, w)
  {
    var sent := Writes(batches, replies, |batches|);
    var m :| 0 <= m < |sent| && sent[m] == w;
    j := WriteHasABatch(batches, replies, |batches|, m);
    l := Leading(batches[j]) - 1;
    WriteIsSafeExactlyWhenEarlierBatchesAreClean(batches, replies, j);
  }

  /** The values one run sends strictly increase, whatever the batches and the failed writes. */
  lemma WatermarkIncreases(batches: seq<seq<Bundle>>, replies: seq<WriteReply>, a: nat, b: nat)
    requires |batches| <= |replies| && Ascending(batches)
    requires a < b < |Writes(batches, replies, |batches|)|
    ensures Writes(batches, replies, |batches|)[a] < Writes(batches, replies, |batches|)[b]
  {
    var j := WriteHasABatch(batches, replies, |batches|, b);
    assert Writes(batches, replies, j)[a] == Writes(batches, replies, |batches|)[a];
    var i := WriteHasABatch(batches, replies, j, a);
    assert i < j;
    assert batches[i][Leading(batches[i]) - 1].tick < batches[j][Leading(batches[j]) - 1].tick;
  }

  /** Processing gets past every batch whose first bundle resolved and whose write was not fatal. */
  lemma BatchesAreReached(batches: seq<seq<Bundle>>, replies: seq<WriteReply>, j: nat)
    requires j <= |batches| <= |replies|
    requires forall i :: 0 <= i < j ==> batches[i] != [] && Resolved(batches[i][0]) && replies[i] != FatalError
    ensures Reaches(batches, replies, j)
  {
  }

  /** Nothing resolved is left unsaved: if processing gets to a batch and the bundles at its front up to k
      are resolved, then a value at least as late as bundle k's tick is sent. */
  lemma ResolvedTicksAreSaved(batches: seq<seq<Bundle>>, replies: seq<WriteReply>, j: nat, k: nat) returns (w: int)
    requires j < |batches| <= |replies| && k < |batches[j]| && Ascending(batches)
    requires Reaches(batches, replies, j) && forall i :: 0 <= i <= k ==> Resolved(batches[j][i])
    requires forall i :: 0 <= i < |batches[j]| ==> 0 <= batches[j][i].tick < 0x8000_0000_0000_0000
    ensures w in Writes(batches, replies, |batches|) && w >= batches[j][k].tick
  {
    assert Leading(batches[j]) > k;
    w := LastTick(batches[j]);
    assert w >= batches[j][k].tick;
    BatchHasItsWrite(batches, replies, |batches|, j);
  }

  /** Bundle k ends the resolved front of its batch. */
  predicate EndsResolvedFront(batch: seq<Bundle>, k: nat) {
    && k < |batch|
    && (forall i :: 0 <= i <= k ==> Resolved(batch[i]))
    && (k + 1 < |batch| ==> !Resolved(batch[k + 1]))
  }

  /** Every value sent fits 64 bits and is the tick that ends the resolved front of a batch to which
      processing gets. */
  lemma SentValuesEndResolvedFronts(batches: seq<seq<Bundle>>, replies: seq<WriteReply>, w: int)
    returns (j: nat, k: nat)
    requires |batches| <= |replies| && w in Writes(batches, replies, |batches|)
    ensures j < |batches| && Reaches(batches, replies, j) && EndsResolvedFront(batches[j], k)
    ensures w == batches[j][k].tick && -0x8000_0000_0000_0000 <= w < 0x8000_0000_0000_0000
  {
    var sent := Writes(batches, replies, |batches|);
    var m :| 0 <= m < |sent| && sent[m] == w;
    j := WriteHasABatch(batches, replies, |batches|, m);
    k := Leading(batches[j]) - 1;
  }

  /** While every check resolves and no write is fatal, the last value sent is the last tick dispatched,
      however the ticks were batched. */
  lemma ProgressIsComplete(batches: seq<seq<Bundle>>, replies: seq<WriteReply>)
    requires 0 < |batches| <= |replies|
    requires forall i :: 0 <= i < |batches| ==> batches[i] != [] && Clean(batches[i]) && replies[i] != FatalError
    requires FitsNanos(batches[|batches| - 1][|batches[|batches| - 1]| - 1].tick)
    ensures var sent := Writes(batches, replies, |batches|);
      && sent != []
      && sent[|sent| - 1] == batches[|batches| - 1][|batches[|batches| - 1]| - 1].tick
      && Reaches(batches, replies, |batches|)
  {
    assert WritesAt(batches, replies, |batches| - 1);
  }

  /** After a batch with a failed receiver the next batch can move the watermark past the failed tick. */
  lemma WatermarkCanPassAFailedTick()
    ensures var batches := [[Bundle(0, []), Bundle(SECOND, [false])], [Bundle(2 * SECOND, [])]];
      && Ascending(batches)
      && !ResolvedUpTo(batches, 2 * SECOND)
      && Writes(batches, [Written, Written], 2) == [0, 2 * SECOND]
  {
    var batches := [[Bundle(0, []), Bundle(SECOND, [false])], [Bundle(2 * SECOND, [])]];
    assert batches[0][1..] == [Bundle(SECOND, [false])] && batches[1][1..] == [];
    assert !Resolved(batches[0][1]) by { assert !batches[0][1].answers[0]; }
    assert Leading(batches[0][1..]) == 0;
    assert Leading(batches[0]) == 1 && Leading(batches[1]) == 1;
    assert WritesAt(batches, [Written, Written], 0) && WritesAt(batches, [Written, Written], 1);
    assert Writes(batches, [Written, Written], 1) == [0];
  }

  // ---- Where a run starts --------------------------------------------------------------------

  /** The tick a scheduler starts from, in nanoseconds: one second after the stored watermark, but not
      after the current second; the current second when there is none. */
  function StartTime(lastProgress: Option<int>, now: nat): int {
    var current := now - now % SECOND;
    match lastProgress
    case None => current
    case Some(w) => if w + SECOND <= current then w + SECOND else current
  }

  /** The same in whole seconds. */
  function StartSecond(watermark: Option<int>, now: nat): int {
    match watermark
    case None => now
    case Some(w) => if w + 1 <= now then w + 1 else now
  }

  function InSeconds(nanos: Option<int>): Option<int> {
    match nanos case None => None case Some(n) => Some(n / SECOND)
  }

  /** Counting in whole seconds loses nothing, even for a stored value between two seconds. */
  lemma SecondsAreEnough(lastProgress: Option<int>, now: nat)
    ensures StartTime(lastProgress, now) / SECOND == StartSecond(InSeconds(lastProgress), now / SECOND)
    ensures StartTime(lastProgress, now) <= now
    ensures lastProgress.Some? ==> StartTime(lastProgress, now) <= lastProgress.value + SECOND
  {
  }

  /** A run starts on a whole second, later than the stored watermark unless the clock is not yet past the
      second after it, never later than one second after it, and never after the current second. Without a
      watermark it starts at the current second. */
  lemma StartIsExact(w: int, now: nat)
    ensures StartTime(None, now) % 1_000_000_000 == 0
    ensures now - 1_000_000_000 < StartTime(None, now) <= now
    ensures StartTime(Some(w), now) <= StartTime(None, now)
    ensures StartTime(Some(w), now) <= w + 1_000_000_000
    ensures w + 1_000_000_000 <= StartTime(None, now) ==> StartTime(Some(w), now) == w + 1_000_000_000
    ensures w + 1_000_000_000 > StartTime(None, now) ==> StartTime(Some(w), now) == StartTime(None, now)
    ensures w + 1_000_000_000 <= now - now % 1_000_000_000 ==> StartTime(Some(w), now) > w
  {
  }

  /** A run does not start past a second that lies after an aligned watermark and is not in the future. */
  lemma StartLeavesNothingOut(w: int, s: int, now: nat)
    requires w % 1_000_000_000 == 0 && w < s * 1_000_000_000 <= now
    ensures w < StartTime(Some(w), now) <= s * 1_000_000_000
  {
    assert now - now % 1_000_000_000 >= s * 1_000_000_000;
    assert w + 1_000_000_000 <= s * 1_000_000_000;
  }
}
