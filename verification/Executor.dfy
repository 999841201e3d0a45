/** The check executor: bounded concurrency, retries through its own queue, two counters
    (src/check_executor.rs). The counters and the queue change in separate atomic steps. */
module Executor {
  import opened Prelude

  datatype Status = Success | Failure | MissedWindow | DisallowedByRobots

  datatype Kind = Uptime | Robots

  /** Where a check is; `Job` phases belong to the slot that runs it. */
  datatype Place =
    | Sending            // counted in queueSize, not yet in the channel
    | InChannel
    | Received           // taken from the channel, still counted
    | Uncounted          // subtracted from queueSize, not yet counted as running
    | Running(slot: nat)
    | MustRetry(slot: nat)
    | Published(slot: nat)
    | Answered

  /** `attempts` are the statuses of its completed attempts, `published` what went to the producer, and
      `answers` how often its oneshot channel was used. */
  datatype Check = Check(
    kind: Kind,
    retryCount: nat,
    place: Place,
    attempts: seq<Status>,
    published: seq<Status>,
    answers: nat)

  /** What a slot holds: a check, a task that is putting its check back for the given retry, or a finished
      task whose slot is not yet released. */
  datatype Slot = Busy(check: nat) | Requeuing(check: nat, retry: nat) | Done

  /** A concurrency of 0 sets no limit. */
  datatype Config = Config(concurrency: nat, failureRetries: nat) {
    predicate Allows(running: nat) { concurrency == 0 || running <= concurrency }
  }

  datatype State = State(
    queueSize: nat,
    numRunning: nat,
    checks: seq<Check>,
    sending: set<nat>,
    channel: seq<nat>,
    taking: Option<nat>,
    slots: map<nat, Slot>)

  datatype Event =
    | QueueCheck(kind: Kind)          // queue_check up to its fetch_add
    | Send(check: nat)                // the channel send of queue_check or queue_check_for_retry
    | Receive                         // the stream hands out the head of the channel
    | SubtractQueued
    | CountRunning(slot: nat)
    | Attempt(slot: nat, status: Status)
    | PassRobots(slot: nat)
    | Requeue(slot: nat)              // queue_check_for_retry up to its fetch_add
    | Answer(slot: nat)
    | Release(slot: nat)

  /** fetch_sub on an AtomicU64 wraps at zero. */
  function FetchSub(n: nat): nat { if n == 0 then 0xFFFF_FFFF_FFFF_FFFF else n - 1 }

  predicate Enabled(conf: Config, s: State, e: Event) {
    match e
    case QueueCheck(_) => true
    case Send(c) => c in s.sending && c < |s.checks|
    case Receive => s.taking.None? && s.channel != [] && s.channel[0] < |s.checks| && conf.Allows(|s.slots| + 1)
    case SubtractQueued => s.taking.Some? && s.taking.value < |s.checks| && s.checks[s.taking.value].place == Received
    case CountRunning(k) =>
      && s.taking.Some? && s.taking.value < |s.checks| && s.checks[s.taking.value].place == Uncounted
      && k !in s.slots
    case Attempt(k, _) => HasCheck(s, k) && s.checks[s.slots[k].check].place == Running(k)
    case PassRobots(k) =>
      HasCheck(s, k) && s.checks[s.slots[k].check].place == Running(k) && s.checks[s.slots[k].check].kind == Robots
    case Requeue(k) => HasCheck(s, k) && s.checks[s.slots[k].check].place == MustRetry(k)
    case Answer(k) => HasCheck(s, k) && s.checks[s.slots[k].check].place == Published(k)
    case Release(k) => k in s.slots && HasEnded(s, s.slots[k])
  }

  /** The slot's task is over; one that puts its check back ends with its send. */
  predicate HasEnded(s: State, slot: Slot) {
    match slot
    case Busy(_) => false
    case Requeuing(id, n) => !(id in s.sending && id < |s.checks| && s.checks[id].retryCount == n)
    case Done => true
  }

  predicate HasCheck(s: State, k: nat) {
    k in s.slots && s.slots[k].Busy? && s.slots[k].check < |s.checks|
  }

  predicate WillRetry(conf: Config, c: Check, status: Status) {
    status == Failure && c.retryCount < conf.failureRetries
  }

  /** The check an event is about. */
  function Target(s: State, e: Event): nat
    requires !e.QueueCheck? && !e.Release?
    requires e.Receive? ==> s.channel != []
    requires e.SubtractQueued? || e.CountRunning? ==> s.taking.Some?
    requires e.Attempt? || e.PassRobots? || e.Requeue? || e.Answer? ==> HasCheck(s, e.slot)
  {
    match e
    case Send(id) => id
    case Receive => s.channel[0]
    case SubtractQueued => s.taking.value
    case CountRunning(_) => s.taking.value
    case Attempt(k, _) => s.slots[k].check
    case PassRobots(k) => s.slots[k].check
    case Requeue(k) => s.slots[k].check
    case Answer(k) => s.slots[k].check
  }

  /** What an event does to its check. */
  function Touched(conf: Config, c: Check, e: Event): Check {
    match e
    case Send(_) => c.(place := InChannel)
    case Receive => c.(place := Received)
    case SubtractQueued => c.(place := Uncounted)
    case CountRunning(k) => c.(place := Running(k))
    case Attempt(k, status) =>
      var c' := c.(attempts := c.attempts + [status]);
      if WillRetry(conf, c, status) then c'.(place := MustRetry(k))
      else c'.(place := Published(k), published := c.published + [status])
    case PassRobots(_) => c.(place := Answered, answers := c.answers + 1)
    case Requeue(_) => c.(retryCount := c.retryCount + 1, place := Sending)
    case Answer(_) => c.(place := Answered, answers := c.answers + 1)
    case _ => c
  }

  function NextChecks(conf: Config, s: State, e: Event): seq<Check>
    requires Enabled(conf, s, e)
  {
    match e
    case QueueCheck(kind) => s.checks + [Check(kind, 0, Sending, [], [], 0)]
    case Release(_) => s.checks
    case _ => s.checks[Target(s, e) := Touched(conf, s.checks[Target(s, e)], e)]
  }

  function Step(conf: Config, s: State, e: Event): State
    requires Enabled(conf, s, e)
  {
    var t := s.(checks := NextChecks(conf, s, e));
    match e
    case QueueCheck(_) => t.(queueSize := s.queueSize + 1, sending := s.sending + {|s.checks|})
    case Send(id) => t.(sending := s.sending - {id}, channel := s.channel + [id])
    case Receive => t.(channel := s.channel[1..], taking := Some(s.channel[0]))
    case SubtractQueued => t.(queueSize := FetchSub(s.queueSize))
    case CountRunning(k) =>
      t.(numRunning := s.numRunning + 1, taking := None, slots := s.slots[k := Busy(s.taking.value)])
    case Attempt(_, _) => t
    case PassRobots(k) => t.(slots := s.slots[k := Done])
    case Requeue(k) =>
      var id := s.slots[k].check;
      t.(queueSize := s.queueSize + 1, sending := s.sending + {id},
         slots := s.slots[k := Requeuing(id, s.checks[id].retryCount + 1)])
    case Answer(k) => t.(slots := s.slots[k := Done])
    case Release(k) => t.(numRunning := FetchSub(s.numRunning), slots := s.slots - {k})
  }

  // ---- The invariant -------------------------------------------------------------------------

  /** Every check is in exactly the place its record names. */
  ghost predicate SendingPlaced(checks: seq<Check>, sending: set<nat>) {
    forall id: nat :: id in sending <==> id < |checks| && checks[id].place == Sending
  }

  ghost predicate ChannelPlaced(checks: seq<Check>, channel: seq<nat>) {
    && (forall id: nat :: id in channel <==> id < |checks| && checks[id].place == InChannel)
    && (forall i, j :: 0 <= i < j < |channel| ==> channel[i] != channel[j])
  }

  ghost predicate TakingPlaced(checks: seq<Check>, taking: Option<nat>) {
    forall id: nat :: taking == Some(id) <==>
      id < |checks| && (checks[id].place == Received || checks[id].place == Uncounted)
  }

  ghost predicate SlotsPlaced(checks: seq<Check>, slots: map<nat, Slot>) {
    forall k: nat, id: nat :: k in slots && slots[k] == Busy(id) <==> id < |checks| && InSlot(checks[id].place, k)
  }

  ghost predicate Placed(s: State) {
    && SendingPlaced(s.checks, s.sending)
    && ChannelPlaced(s.checks, s.channel)
    && TakingPlaced(s.checks, s.taking)
    && SlotsPlaced(s.checks, s.slots)
  }

  predicate InSlot(p: Place, k: nat) { p == Running(k) || p == MustRetry(k) || p == Published(k) }

  /** The attempt that `retryCount` numbers is over. */
  predicate HasAttempted(c: Check) {
    c.place.MustRetry? || c.place.Published? || (c.place.Answered? && c.published != [])
  }

  /** What the statuses of a check's attempts say about it. */
  ghost predicate Honest(conf: Config, c: Check) {
    && c.retryCount <= conf.failureRetries
    && |c.attempts| == c.retryCount + (if HasAttempted(c) then 1 else 0)
    && (forall i :: 0 <= i < |c.attempts| - (if c.published != [] then 1 else 0) ==> c.attempts[i] == Failure)
    && (c.place.MustRetry? ==> c.retryCount < conf.failureRetries)
    && (c.place.Published? ==> c.published != [])
    && (c.published != [] ==> (c.place.Published? || c.place.Answered?) && Final(conf, c))
    && (c.place.Answered? && c.published == [] ==> c.kind == Robots)
    && c.answers == (if c.place.Answered? then 1 else 0)
  }

  /** Published once: the last status, which is not a failure or ends the allowed retries. */
  ghost predicate Final(conf: Config, c: Check) {
    && |c.attempts| > 0
    && c.published == [c.attempts[|c.attempts| - 1]]
    && (c.attempts[|c.attempts| - 1] != Failure || |c.attempts| == conf.failureRetries + 1)
  }

  function Uncollected(s: State): nat {
    if s.taking.Some? && s.taking.value < |s.checks| && s.checks[s.taking.value].place == Received then 1 else 0
  }

  /** queueSize counts what is being sent, in the channel, or just received. */
  ghost predicate QueueCounted(s: State) { s.queueSize == |s.sending| + |s.channel| + Uncollected(s) }

  /** numRunning counts the slots. */
  ghost predicate RunningCounted(conf: Config, s: State) {
    && s.numRunning == |s.slots|
    && conf.Allows(|s.slots| + (if s.taking.Some? then 1 else 0))
  }

  ghost predicate Counted(conf: Config, s: State) { QueueCounted(s) && RunningCounted(conf, s) }

  ghost predicate Inv(conf: Config, s: State) {
    && Placed(s)
    && Counted(conf, s)
    && forall id :: 0 <= id < |s.checks| ==> Honest(conf, s.checks[id])
  }

  predicate Initial(s: State) { s == State(0, 0, [], {}, [], None, map[]) }

  /** The event fits the check's place. */
  ghost predicate Fits(c: Check, e: Event) {
    match e
    case Send(_) => c.place == Sending
    case Receive => c.place == InChannel
    case SubtractQueued => c.place == Received
    case CountRunning(_) => c.place == Uncounted
    case Attempt(k, _) => c.place == Running(k)
    case PassRobots(k) => c.place == Running(k) && c.kind == Robots
    case Requeue(k) => c.place == MustRetry(k)
    case Answer(k) => c.place == Published(k)
    case _ => true
  }

  lemma EventFits(conf: Config, s: State, e: Event)
    requires Placed(s) && Enabled(conf, s, e) && !e.QueueCheck? && !e.Release?
    ensures Fits(s.checks[Target(s, e)], e)
  {
    if e.Receive? { assert s.channel[0] in s.channel; }
  }

  lemma OccupiedSlotsCount(slots: map<nat, Slot>, k: nat)
    requires k in slots
    ensures |slots| > 0
  {
    assert k in slots.Keys;
  }

  lemma TouchKeepsHonest(conf: Config, c: Check, e: Event)
    requires Honest(conf, c) && Fits(c, e)
    ensures Honest(conf, Touched(conf, c, e))
  {
  }

  lemma StepKeepsHonest(conf: Config, s: State, e: Event)
    requires Inv(conf, s) && Enabled(conf, s, e)
    ensures forall id :: 0 <= id < |NextChecks(conf, s, e)| ==> Honest(conf, NextChecks(conf, s, e)[id])
  {
    if !e.QueueCheck? && !e.Release? {
      EventFits(conf, s, e);
      TouchKeepsHonest(conf, s.checks[Target(s, e)], e);
    }
  }

  lemma StepKeepsQueueCounted(conf: Config, s: State, e: Event)
    requires Placed(s) && QueueCounted(s) && Enabled(conf, s, e)
    ensures QueueCounted(Step(conf, s, e))
  {
    if !e.QueueCheck? && !e.Release? {
      EventFits(conf, s, e);
      StepKeepsUncollected(conf, s, e);
    }
  }

  /** Only taking a check and subtracting it change whether one is taken and not yet subtracted. */
  lemma StepKeepsUncollected(conf: Config, s: State, e: Event)
    requires TakingPlaced(s.checks, s.taking) && Enabled(conf, s, e) && !e.QueueCheck? && !e.Release?
    requires Fits(s.checks[Target(s, e)], e)
    ensures Uncollected(Step(conf, s, e)) ==
            if e.Receive? then 1 else if e.SubtractQueued? then 0 else Uncollected(s)
    ensures e.SubtractQueued? ==> Uncollected(s) == 1
    ensures e.Receive? ==> Uncollected(s) == 0
  {
  }

  lemma StepKeepsRunningCounted(conf: Config, s: State, e: Event)
    requires RunningCounted(conf, s) && Enabled(conf, s, e)
    ensures RunningCounted(conf, Step(conf, s, e))
  {
    if e.Release? {
      OccupiedSlotsCount(s.slots, e.slot);
      assert Step(conf, s, e).slots.Keys == s.slots.Keys - {e.slot};
    }
  }

  lemma StepKeepsSendingPlaced(conf: Config, s: State, e: Event)
    requires Placed(s) && Enabled(conf, s, e)
    ensures SendingPlaced(NextChecks(conf, s, e), Step(conf, s, e).sending)
  {
  }

  lemma StepKeepsTakingPlaced(conf: Config, s: State, e: Event)
    requires Placed(s) && Enabled(conf, s, e)
    ensures TakingPlaced(NextChecks(conf, s, e), Step(conf, s, e).taking)
  {
  }

  lemma ChannelGains(checks: seq<Check>, channel: seq<nat>, id: nat, c: Check)
    requires ChannelPlaced(checks, channel) && id < |checks| && checks[id].place != InChannel && c.place == InChannel
    ensures ChannelPlaced(checks[id := c], channel + [id])
  {
    assert forall x: nat :: x in channel + [id] <==> x in channel || x == id;
  }

  lemma ChannelLoses(checks: seq<Check>, channel: seq<nat>, c: Check)
    requires ChannelPlaced(checks, channel) && channel != [] && channel[0] < |checks| && c.place != InChannel
    ensures ChannelPlaced(checks[channel[0] := c], channel[1..])
  {
    assert forall j :: 0 <= j < |channel| - 1 ==> channel[1..][j] == channel[j + 1];
    assert forall x: nat :: x in channel <==> x == channel[0] || x in channel[1..];
    assert channel[0] !in channel[1..];
  }

  lemma ChannelStays(checks: seq<Check>, channel: seq<nat>, id: nat, c: Check)
    requires ChannelPlaced(checks, channel) && id < |checks| && checks[id].place != InChannel && c.place != InChannel
    ensures ChannelPlaced(checks[id := c], channel)
  {
  }

  lemma StepKeepsChannelPlaced(conf: Config, s: State, e: Event)
    requires Placed(s) && Enabled(conf, s, e)
    ensures ChannelPlaced(NextChecks(conf, s, e), Step(conf, s, e).channel)
  {
    match e
    case QueueCheck(_) =>
    case Release(_) =>
    case Send(id) => ChannelGains(s.checks, s.channel, id, Touched(conf, s.checks[id], e));
    case Receive => ChannelLoses(s.checks, s.channel, Touched(conf, s.checks[s.channel[0]], e));
    case _ => ChannelStays(s.checks, s.channel, Target(s, e), Touched(conf, s.checks[Target(s, e)], e));
  }

  ghost predicate NoSlot(c: Check) { forall k :: !InSlot(c.place, k) }

  lemma SlotGains(checks: seq<Check>, slots: map<nat, Slot>, k: nat, id: nat, c: Check)
    requires SlotsPlaced(checks, slots) && id < |checks| && k !in slots && NoSlot(checks[id]) && c.place == Running(k)
    ensures SlotsPlaced(checks[id := c], slots[k := Busy(id)])
  {
  }

  lemma SlotIsDone(checks: seq<Check>, slots: map<nat, Slot>, k: nat, id: nat, c: Check, next: Slot)
    requires SlotsPlaced(checks, slots) && k in slots && slots[k] == Busy(id) && NoSlot(c) && !next.Busy?
    ensures id < |checks| && SlotsPlaced(checks[id := c], slots[k := next])
  {
    assert InSlot(checks[id].place, k);
  }

  lemma SlotStays(checks: seq<Check>, slots: map<nat, Slot>, id: nat, c: Check)
    requires SlotsPlaced(checks, slots) && id < |checks|
    requires forall k :: InSlot(c.place, k) <==> InSlot(checks[id].place, k)
    ensures SlotsPlaced(checks[id := c], slots)
  {
  }

  lemma TouchMovesSlots(conf: Config, c: Check, e: Event)
    requires Fits(c, e) && !e.QueueCheck? && !e.Release?
    ensures e.PassRobots? || e.Requeue? || e.Answer? ==> NoSlot(Touched(conf, c, e))
    ensures e.CountRunning? ==> NoSlot(c) && Touched(conf, c, e).place == Running(e.slot)
    ensures e.Send? || e.Receive? || e.SubtractQueued? || e.Attempt? ==>
      forall k :: InSlot(Touched(conf, c, e).place, k) <==> InSlot(c.place, k)
  {
  }

  lemma StepKeepsSlotsPlaced(conf: Config, s: State, e: Event)
    requires Placed(s) && Enabled(conf, s, e)
    ensures SlotsPlaced(NextChecks(conf, s, e), Step(conf, s, e).slots)
  {
    match e
    case QueueCheck(kind) => SlotsIgnoreNewCheck(s.checks, s.slots, NextChecks(conf, s, e)[|s.checks|]);
    case Release(k) => SlotIsFreed(s.checks, s.slots, k);
    case _ =>
      EventFits(conf, s, e);
      TouchMovesSlots(conf, s.checks[Target(s, e)], e);
      TargetChangesSlots(conf, s, e);
  }

  lemma SlotsIgnoreNewCheck(checks: seq<Check>, slots: map<nat, Slot>, c: Check)
    requires SlotsPlaced(checks, slots) && NoSlot(c)
    ensures SlotsPlaced(checks + [c], slots)
  {
  }

  lemma SlotIsFreed(checks: seq<Check>, slots: map<nat, Slot>, k: nat)
    requires SlotsPlaced(checks, slots) && k in slots && !slots[k].Busy?
    ensures SlotsPlaced(checks, slots - {k})
  {
  }

  lemma TargetChangesSlots(conf: Config, s: State, e: Event)
    requires SlotsPlaced(s.checks, s.slots) && Enabled(conf, s, e) && !e.QueueCheck? && !e.Release?
    requires var c := s.checks[Target(s, e)];
      && (e.PassRobots? || e.Requeue? || e.Answer? ==> NoSlot(Touched(conf, c, e)))
      && (e.CountRunning? ==> NoSlot(c) && Touched(conf, c, e).place == Running(e.slot))
      && (e.Send? || e.Receive? || e.SubtractQueued? || e.Attempt? ==>
            forall k :: InSlot(Touched(conf, c, e).place, k) <==> InSlot(c.place, k))
    ensures SlotsPlaced(NextChecks(conf, s, e), Step(conf, s, e).slots)
  {
    var id := Target(s, e);
    var c := Touched(conf, s.checks[id], e);
    match e
    case CountRunning(k) => SlotGains(s.checks, s.slots, k, id, c);
    case PassRobots(k) => SlotIsDone(s.checks, s.slots, k, id, c, Done);
    case Requeue(k) => SlotIsDone(s.checks, s.slots, k, id, c, Requeuing(id, s.checks[id].retryCount + 1));
    case Answer(k) => SlotIsDone(s.checks, s.slots, k, id, c, Done);
    case _ => SlotStays(s.checks, s.slots, id, c);
  }

  /** Every reachable state satisfies the invariant. */
  lemma StepKeepsInv(conf: Config, s: State, e: Event)
    requires Inv(conf, s) && Enabled(conf, s, e)
    ensures Inv(conf, Step(conf, s, e))
  {
    StepKeepsHonest(conf, s, e);
    StepKeepsQueueCounted(conf, s, e);
    StepKeepsRunningCounted(conf, s, e);
    StepKeepsSendingPlaced(conf, s, e);
    StepKeepsChannelPlaced(conf, s, e);
    StepKeepsTakingPlaced(conf, s, e);
    StepKeepsSlotsPlaced(conf, s, e);
  }

  // ---- Runs ----------------------------------------------------------------------------------

  predicate Legal(conf: Config, s: State, es: seq<Event>)
    decreases es
  {
    es == [] || (Enabled(conf, s, es[0]) && Legal(conf, Step(conf, s, es[0]), es[1..]))
  }

  function After(conf: Config, s: State, es: seq<Event>): State
    requires Legal(conf, s, es)
    decreases es
  {
    if es == [] then s else After(conf, Step(conf, s, es[0]), es[1..])
  }

  lemma {:induction false} RunKeepsInv(conf: Config, s: State, es: seq<Event>)
    requires Inv(conf, s) && Legal(conf, s, es)
    ensures Inv(conf, After(conf, s, es))
    decreases es
  {
    if es != [] {
      StepKeepsInv(conf, s, es[0]);
      RunKeepsInv(conf, Step(conf, s, es[0]), es[1..]);
    }
  }

  /** In every run: the counters count what they are named for, at most `concurrency` checks run (unless
      that is 0, which sets no limit), and neither counter is ever subtracted from at zero. */
  lemma CountersAreExact(conf: Config, s: State, es: seq<Event>)
    requires Initial(s) && Legal(conf, s, es)
    ensures var t := After(conf, s, es);
      && t.queueSize == |t.sending| + |t.channel| + Uncollected(t)
      && t.numRunning == |t.slots|
      && (conf.concurrency >= 1 ==> t.numRunning <= conf.concurrency)
      && (Enabled(conf, t, SubtractQueued) ==> t.queueSize > 0)
      && (forall k :: Enabled(conf, t, Release(k)) ==> t.numRunning > 0)
  {
    RunKeepsInv(conf, s, es);
    var t := After(conf, s, es);
    forall k | Enabled(conf, t, Release(k))
      ensures t.numRunning > 0
    {
      OccupiedSlotsCount(t.slots, k);
    }
  }

  /** In every run, each check is answered at most once and attempted at most failureRetries + 1 times;
      it is published at most once, with its last status, which is its only one that is not a failure
      unless the retries are used up; and when answered it has been published, robots passes aside. */
  lemma ChecksAreSettledOnce(conf: Config, s: State, es: seq<Event>, id: nat)
    requires Initial(s) && Legal(conf, s, es) && id < |After(conf, s, es).checks|
    ensures var c := After(conf, s, es).checks[id];
      && c.answers == (if c.place.Answered? then 1 else 0)
      && |c.attempts| <= conf.failureRetries + 1
      && |c.published| <= 1
      && (forall i :: 0 <= i < |c.attempts| - 1 ==> c.attempts[i] == Failure)
      && (c.published != [] ==> Final(conf, c))
      && (c.place.Answered? && c.kind == Uptime ==> Final(conf, c))
      && (c.place.Answered? && c.published == [] ==> forall i :: 0 <= i < |c.attempts| ==> c.attempts[i] == Failure)
  {
    RunKeepsInv(conf, s, es);
    assert Honest(conf, After(conf, s, es).checks[id]);
  }

  // ---- Every check is answered ---------------------------------------------------------------

  /** Steps a check is still away from its answer, counting twice those after which a slot is taken. */
  function Distance(conf: Config, c: Check): nat {
    var left := if c.retryCount <= conf.failureRetries then conf.failureRetries - c.retryCount else 0;
    20 * left +
    match c.place
      case Sending => 16
      case InChannel => 14
      case Received => 12
      case Uncounted => 10
      case Running(_) => 6
      case MustRetry(_) => 4
      case Published(_) => 4
      case Answered => 0
  }

  function Total(conf: Config, checks: seq<Check>): nat {
    if checks == [] then 0 else Distance(conf, checks[0]) + Total(conf, checks[1..])
  }

  function Work(conf: Config, s: State): nat { Total(conf, s.checks) + |s.slots| }

  lemma {:induction false} TotalOfUpdate(conf: Config, checks: seq<Check>, id: nat, c: Check)
    requires id < |checks|
    ensures Total(conf, checks[id := c]) == Total(conf, checks) - Distance(conf, checks[id]) + Distance(conf, c)
  {
    if id == 0 {
      assert checks[0 := c][1..] == checks[1..];
    } else {
      assert checks[id := c][1..] == checks[1..][id - 1 := c];
      TotalOfUpdate(conf, checks[1..], id - 1, c);
    }
  }

  lemma TouchedIsCloser(conf: Config, c: Check, e: Event)
    requires Honest(conf, c) && Fits(c, e) && !e.QueueCheck? && !e.Release?
    ensures Distance(conf, Touched(conf, c, e)) + 1 < Distance(conf, c)
  {
  }

  lemma SlotsGrowSlowly(conf: Config, s: State, e: Event)
    requires Enabled(conf, s, e)
    ensures |Step(conf, s, e).slots| <= |s.slots| + 1
    ensures e.Release? ==> |Step(conf, s, e).slots| < |s.slots|
  {
    if e.Release? { assert Step(conf, s, e).slots.Keys == s.slots.Keys - {e.slot}; }
  }

  /** Every step but the arrival of a new check uses up work. */
  lemma StepUsesWork(conf: Config, s: State, e: Event)
    requires Inv(conf, s) && Enabled(conf, s, e) && !e.QueueCheck?
    ensures Work(conf, Step(conf, s, e)) < Work(conf, s)
  {
    SlotsGrowSlowly(conf, s, e);
    if !e.Release? {
      var id := Target(s, e);
      EventFits(conf, s, e);
      TouchedIsCloser(conf, s.checks[id], e);
      TotalOfUpdate(conf, s.checks, id, Touched(conf, s.checks[id], e));
    }
  }

  /** While a check is unanswered, something other than a new check can happen. */
  lemma ThereIsAStep(conf: Config, s: State, id: nat) returns (e: Event)
    requires Inv(conf, s)
    requires id < |s.checks| && !s.checks[id].place.Answered?
    ensures Enabled(conf, s, e) && !e.QueueCheck?
  {
    match s.checks[id].place
    case Sending => e := Send(id);
    case InChannel =>
      if s.taking.Some? {
        e := TakingStep(conf, s);
      } else if s.slots == map[] {
        assert s.channel[0] in s.channel;
        e := Receive;
      } else {
        var k :| k in s.slots;
        e := SlotStep(conf, s, k);
      }
    case Received => assert s.taking == Some(id); e := TakingStep(conf, s);
    case Uncounted => assert s.taking == Some(id); e := TakingStep(conf, s);
    case Running(k) => assert k in s.slots && s.slots[k] == Busy(id); e := Attempt(k, Success);
    case MustRetry(k) => assert k in s.slots && s.slots[k] == Busy(id); e := Requeue(k);
    case Published(k) => assert k in s.slots && s.slots[k] == Busy(id); e := Answer(k);
    case Answered => assert false;
  }

  lemma TakingStep(conf: Config, s: State) returns (e: Event)
    requires Inv(conf, s) && s.taking.Some?
    ensures Enabled(conf, s, e) && !e.QueueCheck?
  {
    if s.checks[s.taking.value].place == Received {
      e := SubtractQueued;
    } else {
      var k := FreeSlot(s.slots.Keys);
      e := CountRunning(k);
    }
  }

  lemma SlotStep(conf: Config, s: State, k: nat) returns (e: Event)
    requires Inv(conf, s) && k in s.slots
    ensures Enabled(conf, s, e) && !e.QueueCheck?
  {
    if HasEnded(s, s.slots[k]) {
      e := Release(k);
    } else if s.slots[k].Requeuing? {
      e := Send(s.slots[k].check);
    } else {
      var id := s.slots[k].check;
      assert s.slots[k] == Busy(id) && InSlot(s.checks[id].place, k);
      match s.checks[id].place
      case Running(_) => e := Attempt(k, Success);
      case MustRetry(_) => e := Requeue(k);
      case Published(_) => e := Answer(k);
      case _ => assert false;
    }
  }

  lemma {:induction false} FreeSlot(used: set<nat>) returns (k: nat)
    ensures k !in used
    ensures forall x :: x in used ==> x < k
  {
    if used == {} {
      k := 0;
    } else {
      var x :| x in used;
      var k' := FreeSlot(used - {x});
      assert used == (used - {x}) + {x};
      k := if x < k' then k' else x + 1;
    }
  }

  /** Once no new checks arrive, every maximal run is finite and ends with every check answered:
      a run of n steps leaves at most Work - n, and one that cannot go on has nothing unanswered. */
  lemma {:induction false} EveryCheckIsAnswered(conf: Config, s: State, es: seq<Event>)
    requires Inv(conf, s) && Legal(conf, s, es)
    requires forall i :: 0 <= i < |es| ==> !es[i].QueueCheck?
    ensures |es| <= Work(conf, s)
    ensures (forall e :: Enabled(conf, After(conf, s, es), e) ==> e.QueueCheck?) ==>
      var t := After(conf, s, es);
      && |t.checks| == |s.checks|
      && forall id :: 0 <= id < |t.checks| ==> t.checks[id].place.Answered?
    decreases es
  {
    if es == [] {
      if forall e :: Enabled(conf, s, e) ==> e.QueueCheck? {
        forall id | 0 <= id < |s.checks|
          ensures s.checks[id].place.Answered?
        {
          if !s.checks[id].place.Answered? { var e := ThereIsAStep(conf, s, id); }
        }
      }
    } else {
      StepKeepsInv(conf, s, es[0]);
      StepUsesWork(conf, s, es[0]);
      assert forall i :: 0 <= i < |es[1..]| ==> es[1..][i] == es[i + 1];
      EveryCheckIsAnswered(conf, Step(conf, s, es[0]), es[1..]);
    }
  }

  /** Nothing is refused: new checks can always come in, a running check can end in any status, and one of
      robots.txt can pass. */
  lemma AnyOutcomeIsPossible(conf: Config, s: State, id: nat, k: nat)
    requires Inv(conf, s) && id < |s.checks| && s.checks[id].place == Running(k)
    ensures forall kind :: Enabled(conf, s, QueueCheck(kind))
    ensures forall status :: Enabled(conf, s, Attempt(k, status)) && Target(s, Attempt(k, status)) == id
    ensures s.checks[id].kind == Robots ==> Enabled(conf, s, PassRobots(k))
  {
    assert k in s.slots && s.slots[k] == Busy(id);
  }

  // ---- All slots can be used -----------------------------------------------------------------

  /** n checks are running and nothing else is going on. */
  ghost predicate AllRunning(s: State, n: nat) {
    && s.queueSize == 0 && s.sending == {} && s.channel == [] && s.taking == None
    && s.numRunning == n && |s.checks| == n && |s.slots| == n
    && (forall i :: 0 <= i < n ==> s.checks[i].place.Running?)
    && forall k :: k in s.slots ==> k < n
  }

  /** Besides, check n is on its way to a slot. */
  ghost predicate OnItsWay(s: State, n: nat, p: Place) {
    && s.queueSize == (if p.Uncounted? then 0 else 1)
    && s.sending == (if p.Sending? then {n} else {})
    && s.channel == (if p.InChannel? then [n] else [])
    && s.taking == (if p.Received? || p.Uncounted? then Some(n) else None)
    && s.numRunning == n && |s.checks| == n + 1 && |s.slots| == n
    && (forall i :: 0 <= i < n ==> s.checks[i].place.Running?) && s.checks[n].place == p
    && forall k :: k in s.slots ==> k < n
  }

  lemma {:induction false} Joined(conf: Config, s: State, es: seq<Event>, more: seq<Event>)
    requires Legal(conf, s, es) && Legal(conf, After(conf, s, es), more)
    ensures Legal(conf, s, es + more)
    ensures After(conf, s, es + more) == After(conf, After(conf, s, es), more)
    decreases es
  {
    if es == [] {
      assert es + more == more;
    } else {
      assert (es + more)[1..] == es[1..] + more;
      Joined(conf, Step(conf, s, es[0]), es[1..], more);
    }
  }

  lemma TwoSteps(conf: Config, s: State, d: Event, e: Event)
    requires Enabled(conf, s, d) && Enabled(conf, Step(conf, s, d), e)
    ensures Legal(conf, s, [d, e]) && After(conf, s, [d, e]) == Step(conf, Step(conf, s, d), e)
  {
    var t := Step(conf, s, d);
    assert [d, e][1..] == [e] && [e][1..] == [];
    assert Legal(conf, Step(conf, t, e), []);
    assert Legal(conf, t, [e]) && After(conf, t, [e]) == Step(conf, t, e);
  }

  lemma NewCheckIsSent(conf: Config, s: State, n: nat) returns (es: seq<Event>)
    requires AllRunning(s, n)
    ensures Legal(conf, s, es) && OnItsWay(After(conf, s, es), n, InChannel)
  {
    var t := Step(conf, s, QueueCheck(Uptime));
    assert OnItsWay(t, n, Sending);
    es := [QueueCheck(Uptime), Send(n)];
    TwoSteps(conf, s, QueueCheck(Uptime), Send(n));
  }

  lemma SentCheckIsTaken(conf: Config, s: State, n: nat) returns (es: seq<Event>)
    requires OnItsWay(s, n, InChannel) && conf.Allows(n + 1)
    ensures Legal(conf, s, es) && OnItsWay(After(conf, s, es), n, Uncounted)
  {
    var t := Step(conf, s, Receive);
    assert OnItsWay(t, n, Received);
    es := [Receive, SubtractQueued];
    TwoSteps(conf, s, Receive, SubtractQueued);
  }

  lemma TakenCheckRuns(conf: Config, s: State, n: nat) returns (es: seq<Event>)
    requires OnItsWay(s, n, Uncounted)
    ensures Legal(conf, s, es) && AllRunning(After(conf, s, es), n + 1)
  {
    es := [CountRunning(n)];
    var t := Step(conf, s, CountRunning(n));
    assert es[1..] == [] && Legal(conf, t, es[1..]) && After(conf, s, es) == After(conf, t, es[1..]) == t;
  }

  lemma OneMoreRuns(conf: Config, s: State, n: nat) returns (es: seq<Event>)
    requires AllRunning(s, n) && conf.Allows(n + 1)
    ensures Legal(conf, s, es) && AllRunning(After(conf, s, es), n + 1)
  {
    es := NewCheckIsSent(conf, s, n);
    var taken := SentCheckIsTaken(conf, After(conf, s, es), n);
    Joined(conf, s, es, taken);
    es := es + taken;
    var counted := TakenCheckRuns(conf, After(conf, s, es), n);
    Joined(conf, s, es, counted);
    es := es + counted;
  }

  /** Every number of checks that the concurrency allows can run at once; with a concurrency of 0, any. */
  lemma {:induction false} AllSlotsCanBeUsed(conf: Config, s: State, n: nat) returns (es: seq<Event>)
    requires Initial(s) && (conf.concurrency == 0 || n <= conf.concurrency)
    ensures Legal(conf, s, es)
    ensures var t := After(conf, s, es);
      t.numRunning == n && |t.checks| == n && forall i :: 0 <= i < n ==> t.checks[i].place.Running?
    ensures AllRunning(After(conf, s, es), n)
  {
    if n == 0 {
      es := [];
    } else {
      var before := AllSlotsCanBeUsed(conf, s, n - 1);
      var more := OneMoreRuns(conf, After(conf, s, before), n - 1);
      Joined(conf, s, before, more);
      es := before + more;
    }
  }

  // ---- First in, first out -------------------------------------------------------------------

  /** The checks put into the channel by a run, in order. */
  function SentIds(es: seq<Event>): seq<nat> {
    if es == [] then [] else (if es[0].Send? then [es[0].check] else []) + SentIds(es[1..])
  }

  /** The checks handed out by the channel. */
  function ReceivedIds(conf: Config, s: State, es: seq<Event>): seq<nat>
    requires Legal(conf, s, es)
    decreases es
  {
    if es == [] then []
    else (if es[0].Receive? then [Target(s, es[0])] else []) + ReceivedIds(conf, Step(conf, s, es[0]), es[1..])
  }

  lemma ChannelStep(conf: Config, s: State, e: Event)
    requires Enabled(conf, s, e)
    ensures s.channel + (if e.Send? then [e.check] else []) ==
            (if e.Receive? then [Target(s, e)] else []) + Step(conf, s, e).channel
  {
  }

  lemma Regroup(a: seq<nat>, b: seq<nat>, c: seq<nat>, d: seq<nat>, e: seq<nat>, f: seq<nat>, g: seq<nat>)
    requires a + b == d + e && e + c == f + g
    ensures a + (b + c) == (d + f) + g
  {
    assert a + (b + c) == (a + b) + c == d + (e + c);
  }

  /** Over any run, what was in the channel and then sent is what was received and then is in the channel,
      in this order: checks, retries among them, are handed out as they were put in. */
  lemma {:induction false} FirstInFirstOut(conf: Config, s: State, es: seq<Event>)
    requires Legal(conf, s, es)
    ensures s.channel + SentIds(es) == ReceivedIds(conf, s, es) + After(conf, s, es).channel
    decreases es
  {
    if es != [] {
      var t := Step(conf, s, es[0]);
      FirstInFirstOut(conf, t, es[1..]);
      ChannelStep(conf, s, es[0]);
      var sent := if es[0].Send? then [es[0].check] else [];
      var received := if es[0].Receive? then [Target(s, es[0])] else [];
      var rest := ReceivedIds(conf, t, es[1..]);
      Regroup(s.channel, sent, SentIds(es[1..]), received, t.channel, rest, After(conf, t, es[1..]).channel);
    }
  }
}
