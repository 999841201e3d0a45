/** Schedulers that crash, restart and overlap on one progress key (src/scheduler.rs, src/redis.rs). */
module Restarts {
  import opened Prelude
  import opened Scheduler

  /** One scheduler, in whole seconds: it dispatches start, start + 1, ... below `next`. `inFlight` holds
      watermark writes that were sent and may still reach Redis, even after a timeout or a crash. */
  datatype Run = Run(start: int, next: int, resolved: set<int>, inFlight: set<int>, alive: bool)

  /** A written progress key lives for a day. */
  const WATERMARK_EXPIRY: nat := 24 * 60 * 60

  /** A scheduler first reads the progress key and only then, when the reply is there, the clock. */
  datatype Reader = Waiting(reply: Option<int>) | Started

  /** `first` is the first second this history answers for; `deadline` is when the key last written may
      disappear. */
  datatype System = System(
    now: nat,
    watermark: Option<int>,
    deadline: Option<int>,
    first: Option<int>,
    readers: seq<Reader>,
    runs: seq<Run>)

  datatype Event =
    | Pass(seconds: nat)
    | ReadKey
    | Boot(reader: nat)
    | Dispatch(run: nat)
    | Resolve(run: nat, tick: int)
    | Send(run: nat, tick: int)
    | Land(run: nat, tick: int)
    | Vanish(run: nat, tick: int)
    | Crash(run: nat)
    | Expire

  /** All ticks of the run up to this one are resolved: what the in-order processor waits for. */
  predicate ResolvedFrom(r: Run, tick: int) {
    forall t :: r.start <= t <= tick ==> t in r.resolved
  }

  predicate Enabled(s: System, e: Event) {
    match e
    case Pass(_) => true
    case ReadKey => true
    case Boot(i) => i < |s.readers| && s.readers[i].Waiting?
    case Dispatch(i) => i < |s.runs| && s.runs[i].alive && s.runs[i].next <= s.now
    case Resolve(i, t) => i < |s.runs| && s.runs[i].alive && s.runs[i].start <= t < s.runs[i].next
    case Send(i, t) =>
      i < |s.runs| && s.runs[i].alive && s.runs[i].start <= t < s.runs[i].next && ResolvedFrom(s.runs[i], t)
    case Land(i, t) => i < |s.runs| && t in s.runs[i].inFlight
    case Vanish(i, t) => i < |s.runs| && t in s.runs[i].inFlight
    case Crash(i) => i < |s.runs|
    case Expire => s.watermark.Some? && s.deadline.Some? && s.deadline.value <= s.now
  }

  function Step(s: System, e: Event): System
    requires Enabled(s, e)
  {
    match e
    case Pass(d) => s.(now := s.now + d)
    case ReadKey => s.(readers := s.readers + [Waiting(s.watermark)])
    case Boot(i) =>
      var start := StartSecond(s.readers[i].reply, s.now);
      s.(readers := s.readers[i := Started],
         runs := s.runs + [Run(start, start, {}, {}, true)],
         first := if s.first.None? then Some(start) else s.first)
    case Dispatch(i) => s.(runs := s.runs[i := s.runs[i].(next := s.runs[i].next + 1)])
    case Resolve(i, t) => s.(runs := s.runs[i := s.runs[i].(resolved := s.runs[i].resolved + {t})])
    case Send(i, t) => s.(runs := s.runs[i := s.runs[i].(inFlight := s.runs[i].inFlight + {t})])
    case Land(i, t) =>
      s.(watermark := Some(t), deadline := Some(s.now + WATERMARK_EXPIRY),
         runs := s.runs[i := s.runs[i].(inFlight := s.runs[i].inFlight - {t})])
    case Vanish(i, t) => s.(runs := s.runs[i := s.runs[i].(inFlight := s.runs[i].inFlight - {t})])
    case Crash(i) => s.(runs := s.runs[i := s.runs[i].(alive := false)])
    case Expire => s.(watermark := None)
  }

  /** No scheduler yet; a stored watermark means everything up to it was dealt with before. */
  predicate Initial(s: System) {
    && s.runs == [] && s.readers == []
    && match s.watermark
       case None => s.first == None && s.deadline == None
       case Some(w) => s.first == Some(w + 1) && s.deadline.Some?
  }

  predicate Legal(s: System, es: seq<Event>)
    decreases es
  {
    es == [] || (Enabled(s, es[0]) && Legal(Step(s, es[0]), es[1..]))
  }

  function After(s: System, es: seq<Event>): System
    requires Legal(s, es)
    decreases es
  {
    if es == [] then s else After(Step(s, es[0]), es[1..])
  }

  // ---- The invariant -------------------------------------------------------------------------

  /** Some run had every check of this second resolved. */
  ghost predicate Done(runs: seq<Run>, t: int) { exists i :: 0 <= i < |runs| && t in runs[i].resolved }

  /** Some run dispatched this second. */
  ghost predicate Scheduled(runs: seq<Run>, t: int) {
    exists i :: 0 <= i < |runs| && runs[i].start <= t < runs[i].next
  }

  /** The two things a stored watermark may vouch for. */
  datatype Claim = Resolution | Dispatching

  ghost predicate Covered(runs: seq<Run>, t: int, claim: Claim) {
    match claim
    case Resolution => Done(runs, t)
    case Dispatching => Scheduled(runs, t)
  }

  ghost predicate CoveredUpTo(s: System, tick: int, claim: Claim) {
    s.first.Some? ==> forall t :: s.first.value <= t <= tick ==> Covered(s.runs, t, claim)
  }

  ghost predicate RunInv(s: System, r: Run, claim: Claim) {
    && r.start <= r.next <= s.now + 1
    && r.start <= s.now
    && (forall t :: t in r.resolved ==> r.start <= t < r.next)
    && (forall t :: t in r.inFlight ==> ResolvedFrom(r, t))
    && CoveredUpTo(s, r.start - 1, claim)
  }

  /** What a key holds, or held when it was read, is covered; there is none before this history begins. */
  ghost predicate KeyInv(s: System, key: Option<int>, claim: Claim) {
    key.Some? ==> s.first.Some? && CoveredUpTo(s, key.value, claim)
  }

  ghost predicate Inv(s: System, claim: Claim) {
    && (s.first.None? ==> s.runs == [])
    && KeyInv(s, s.watermark, claim)
    && (forall i :: 0 <= i < |s.readers| && s.readers[i].Waiting? ==> KeyInv(s, s.readers[i].reply, claim))
    && forall i :: 0 <= i < |s.runs| ==> RunInv(s, s.runs[i], claim)
  }

  /** The event starts a scheduler that found no key, although this history has begun. */
  predicate StartsBlind(s: System, e: Event) {
    e.Boot? && e.reader < |s.readers| && s.readers[e.reader] == Waiting(None) && s.first.Some?
  }

  /** Such a scheduler needs everything before now covered. */
  ghost predicate StartIsCovered(s: System, e: Event, claim: Claim) {
    StartsBlind(s, e) ==> CoveredUpTo(s, s.now - 1, claim)
  }

  ghost predicate StartsAreCovered(s: System, es: seq<Event>, claim: Claim)
    requires Legal(s, es)
    decreases es
  {
    es == [] || (StartIsCovered(s, es[0], claim) && StartsAreCovered(Step(s, es[0]), es[1..], claim))
  }

  /** What is resolved was dispatched. */
  lemma DoneWasScheduled(s: System, t: int, claim: Claim)
    requires Inv(s, claim) && Covered(s.runs, t, claim)
    ensures Scheduled(s.runs, t)
  {
    if claim.Resolution? {
      var i :| 0 <= i < |s.runs| && t in s.runs[i].resolved;
      assert RunInv(s, s.runs[i], claim);
    }
  }

  /** A run's own ticks and those before its start make one stretch. */
  lemma OwnTicksExtend(s: System, i: nat, tick: int, claim: Claim)
    requires i < |s.runs| && RunInv(s, s.runs[i], claim) && ResolvedFrom(s.runs[i], tick)
    ensures CoveredUpTo(s, tick, claim)
  {
    if s.first.Some? {
      forall t | s.first.value <= t <= tick
        ensures Covered(s.runs, t, claim)
      {
        if t >= s.runs[i].start { assert t in s.runs[i].resolved && s.runs[i].start <= t < s.runs[i].next; }
      }
    }
  }

  lemma CoverIsKept(s: System, e: Event, tick: int, claim: Claim)
    requires Enabled(s, e) && s.first.Some? && CoveredUpTo(s, tick, claim)
    ensures CoveredUpTo(Step(s, e), tick, claim)
  {
    var s' := Step(s, e);
    forall t | s.first.value <= t <= tick
      ensures Covered(s'.runs, t, claim)
    {
      assert Covered(s.runs, t, claim);
      match claim
      case Resolution =>
        var i :| 0 <= i < |s.runs| && t in s.runs[i].resolved;
        assert t in s'.runs[i].resolved;
      case Dispatching =>
        var i :| 0 <= i < |s.runs| && s.runs[i].start <= t < s.runs[i].next;
        assert s'.runs[i].start <= t < s'.runs[i].next;
    }
  }

  lemma StepKeepsInv(s: System, e: Event, claim: Claim)
    requires Inv(s, claim) && Enabled(s, e) && StartIsCovered(s, e, claim)
    ensures Inv(Step(s, e), claim)
  {
    var s' := Step(s, e);
    if e.Land? { OwnTicksExtend(s, e.run, e.tick, claim); }
    if s'.watermark.Some? && s.first.Some? { CoverIsKept(s, e, s'.watermark.value, claim); }
    forall i | 0 <= i < |s'.readers| && s'.readers[i].Waiting? && s'.readers[i].reply.Some?
      ensures KeyInv(s', s'.readers[i].reply, claim)
    {
      CoverIsKept(s, e, s'.readers[i].reply.value, claim);
    }
    forall i | 0 <= i < |s'.runs|
      ensures RunInv(s', s'.runs[i], claim)
    {
      if i < |s.runs| {
        assert RunInv(s, s.runs[i], claim);
        CoverIsKept(s, e, s.runs[i].start - 1, claim);
        assert forall t :: ResolvedFrom(s.runs[i], t) ==> ResolvedFrom(s'.runs[i], t);
      } else if s.first.Some? {
        CoverIsKept(s, e, s'.runs[i].start - 1, claim);
      }
    }
  }

  lemma {:induction false} RunKeepsInv(s: System, es: seq<Event>, claim: Claim)
    requires Inv(s, claim) && Legal(s, es) && StartsAreCovered(s, es, claim)
    ensures Inv(After(s, es), claim)
    decreases es
  {
    if es != [] {
      StepKeepsInv(s, es[0], claim);
      RunKeepsInv(Step(s, es[0]), es[1..], claim);
    }
  }

  // ---- Nothing is skipped --------------------------------------------------------------------

  /** No second between the first and the newest dispatched one is missing. */
  ghost predicate NothingSkipped(s: System) {
    s.first.Some? ==>
      forall i, k :: 0 <= i < |s.runs| && s.first.value <= k < s.runs[i].next ==> Scheduled(s.runs, k)
  }

  lemma InvSkipsNothing(s: System, claim: Claim)
    requires Inv(s, claim)
    ensures NothingSkipped(s)
  {
    if s.first.Some? {
      forall i, k | 0 <= i < |s.runs| && s.first.value <= k < s.runs[i].next
        ensures Scheduled(s.runs, k)
      {
        assert RunInv(s, s.runs[i], claim);
        if k < s.runs[i].start { DoneWasScheduled(s, k, claim); }
      }
    }
  }

  /** Over every history of crashing, restarting and overlapping schedulers with late and lost writes, in
      which no scheduler finds the key absent unless all seconds before are resolved: the stored watermark
      vouches for every second up to it, no second between the first and the newest dispatched one is
      skipped, and no run starts or dispatches ahead of the clock. */
  lemma NothingIsSkipped(s: System, es: seq<Event>)
    requires Initial(s) && Legal(s, es) && StartsAreCovered(s, es, Resolution)
    ensures var t := After(s, es);
      && (t.watermark.Some? && t.first.Some? ==>
            forall k :: t.first.value <= k <= t.watermark.value ==> Done(t.runs, k))
      && NothingSkipped(t)
      && (forall i :: 0 <= i < |t.runs| ==> t.runs[i].start <= t.now && t.runs[i].next <= t.now + 1)
  {
    RunKeepsInv(s, es, Resolution);
    var t := After(s, es);
    InvSkipsNothing(t, Resolution);
    if t.watermark.Some? && t.first.Some? {
      forall k | t.first.value <= k <= t.watermark.value
        ensures Done(t.runs, k)
      {
        assert Covered(t.runs, k, Resolution);
      }
    }
  }

  /** Only schedulers that start a history start without a key. */
  predicate KeyStaysThere(s: System, es: seq<Event>)
    requires Legal(s, es)
    decreases es
  {
    es == [] || (!StartsBlind(s, es[0]) && KeyStaysThere(Step(s, es[0]), es[1..]))
  }

  lemma {:induction false} PresentKeyCoversStarts(s: System, es: seq<Event>, claim: Claim)
    requires Legal(s, es) && KeyStaysThere(s, es)
    ensures StartsAreCovered(s, es, claim)
    decreases es
  {
    if es != [] { PresentKeyCoversStarts(Step(s, es[0]), es[1..], claim); }
  }

  /** Whenever a scheduler reads the key, a write landed less than a day ago, or it is the very first one. */
  predicate RestartsArePrompt(s: System, es: seq<Event>)
    requires Legal(s, es)
    decreases es
  {
    es == [] || ((es[0].ReadKey? ==> (s.deadline.Some? && s.now < s.deadline.value)
                                     || (s.first.None? && s.readers == []))
                 && RestartsArePrompt(Step(s, es[0]), es[1..]))
  }

  /** A key lives up to its deadline, and only a first and single reader may wait without one. */
  predicate KeyLives(s: System) {
    && (s.first.None? ==> s.deadline.None? && s.runs == [] && |s.readers| <= 1)
    && (s.deadline.Some? && s.now < s.deadline.value ==> s.watermark.Some?)
    && (s.first.Some? ==> forall i :: 0 <= i < |s.readers| ==> s.readers[i] != Waiting(None))
  }

  /** Then the expiry of the key does no harm. */
  lemma {:induction false} PromptRestartsFindTheKey(s: System, es: seq<Event>)
    requires KeyLives(s) && Legal(s, es) && RestartsArePrompt(s, es)
    ensures KeyStaysThere(s, es)
    decreases es
  {
    if es != [] { PromptRestartsFindTheKey(Step(s, es[0]), es[1..]); }
  }

  /** A history begins in such a state. */
  lemma KeysLiveInitially(s: System)
    requires Initial(s)
    ensures KeyLives(s)
  {
  }

  /** A written key is there for at least a day. */
  lemma KeyLivesADay(s: System, e: Event, es: seq<Event>)
    requires e.Land? && Enabled(s, e) && Legal(Step(s, e), es)
    requires After(Step(s, e), es).now < s.now + 86400
    ensures After(Step(s, e), es).watermark.Some?
  {
    KeyLivesUntil(Step(s, e), es, s.now + 86400);
  }

  lemma {:induction false} KeyLivesUntil(s: System, es: seq<Event>, end: int)
    requires Legal(s, es) && After(s, es).now < end
    requires s.watermark.Some? && s.deadline.Some? && end <= s.deadline.value <= s.now + WATERMARK_EXPIRY
    ensures After(s, es).watermark.Some?
    decreases es
  {
    if es != [] {
      ClockRuns(Step(s, es[0]), es[1..]);
      KeyLivesUntil(Step(s, es[0]), es[1..], end);
    }
  }

  lemma {:induction false} ClockRuns(s: System, es: seq<Event>)
    requires Legal(s, es)
    ensures s.now <= After(s, es).now
    decreases es
  {
    if es != [] { ClockRuns(Step(s, es[0]), es[1..]); }
  }

  // ---- Nothing is done twice, and nothing waits ----------------------------------------------

  lemma {:induction false} RunsKeepTheirStart(s: System, es: seq<Event>, i: nat)
    requires Legal(s, es) && i < |s.runs|
    ensures i < |After(s, es).runs| && After(s, es).runs[i].start == s.runs[i].start
    decreases es
  {
    if es != [] { RunsKeepTheirStart(Step(s, es[0]), es[1..], i); }
  }

  predicate Dispatched(r: Run, t: int) { r.start <= t < r.next }

  /** A scheduler that read a watermark and starts once the clock is past it dispatches, however its history
      goes on, nothing at or below that watermark. */
  lemma NothingSavedIsRepeated(s: System, reader: nat, w: int, es: seq<Event>)
    requires reader < |s.readers| && s.readers[reader] == Waiting(Some(w)) && w < s.now
    requires Legal(Step(s, Boot(reader)), es)
    ensures var t := After(Step(s, Boot(reader)), es);
      && |s.runs| < |t.runs|
      && forall k :: Dispatched(t.runs[|s.runs|], k) ==> k > w
  {
    RunsKeepTheirStart(Step(s, Boot(reader)), es, |s.runs|);
  }

  /** A live scheduler can always dispatch everything up to the current second. */
  lemma {:induction false} CatchesUp(s: System, i: nat) returns (es: seq<Event>)
    requires i < |s.runs| && s.runs[i].alive && s.runs[i].next <= s.now + 1
    ensures Legal(s, es) && After(s, es).now == s.now
    ensures i < |After(s, es).runs| && After(s, es).runs[i].next == s.now + 1
    decreases s.now + 1 - s.runs[i].next
  {
    if s.runs[i].next == s.now + 1 {
      es := [];
    } else {
      var rest := CatchesUp(Step(s, Dispatch(i)), i);
      es := [Dispatch(i)] + rest;
      assert es[1..] == rest;
    }
  }

  // ---- Schedulers that find no key -----------------------------------------------------------

  /** A scheduler that finds no key, after this history has begun, does no harm if some run already
      dispatched the second before, or the history only begins now. */
  predicate LossIsHarmless(s: System, e: Event) {
    StartsBlind(s, e) ==>
      s.first.value >= s.now || exists i :: 0 <= i < |s.runs| && s.runs[i].next >= s.now
  }

  predicate LossesAreHarmless(s: System, es: seq<Event>)
    requires Legal(s, es)
    decreases es
  {
    es == [] || (LossIsHarmless(s, es[0]) && LossesAreHarmless(Step(s, es[0]), es[1..]))
  }

  ghost predicate NeverSkips(s: System, es: seq<Event>)
    requires Legal(s, es)
    decreases es
  {
    NothingSkipped(s) && (es != [] ==> NeverSkips(Step(s, es[0]), es[1..]))
  }

  lemma HarmlessMeansCovered(s: System, e: Event)
    requires Inv(s, Dispatching)
    ensures LossIsHarmless(s, e) <==> StartIsCovered(s, e, Dispatching)
  {
    InvSkipsNothing(s, Dispatching);
    if StartsBlind(s, e) && s.first.value < s.now {
      if CoveredUpTo(s, s.now - 1, Dispatching) {
        assert Covered(s.runs, s.now - 1, Dispatching);
        var i :| 0 <= i < |s.runs| && s.runs[i].start <= s.now - 1 < s.runs[i].next;
        assert s.runs[i].next >= s.now;
      }
    }
  }

  /** The scheduler that starts without a key shows its gap at once. */
  lemma BootSkipsNothingExactly(s: System, e: Event)
    requires Inv(s, Dispatching) && StartsBlind(s, e)
    ensures NothingSkipped(Step(s, e)) <==> StartIsCovered(s, e, Dispatching)
  {
    var t := Step(s, e);
    if StartIsCovered(s, e, Dispatching) {
      StepKeepsInv(s, e, Dispatching);
      InvSkipsNothing(t, Dispatching);
    }
    if NothingSkipped(t) {
      assert t.runs[|s.runs|].next == s.now;
      forall k | s.first.value <= k <= s.now - 1
        ensures Covered(s.runs, k, Dispatching)
      {
        assert Scheduled(t.runs, k);
        var i :| 0 <= i < |t.runs| && t.runs[i].start <= k < t.runs[i].next;
        assert t.runs[i] == s.runs[i];
      }
    }
  }

  lemma {:induction false} SkipsExactly(s: System, es: seq<Event>)
    requires Inv(s, Dispatching) && Legal(s, es)
    ensures NeverSkips(s, es) <==> LossesAreHarmless(s, es)
    ensures LossesAreHarmless(s, es) ==> StartsAreCovered(s, es, Dispatching)
    decreases es
  {
    InvSkipsNothing(s, Dispatching);
    if es != [] {
      HarmlessMeansCovered(s, es[0]);
      if StartIsCovered(s, es[0], Dispatching) {
        StepKeepsInv(s, es[0], Dispatching);
        SkipsExactly(Step(s, es[0]), es[1..]);
      } else {
        BootSkipsNothingExactly(s, es[0]);
      }
    }
  }

  /** Over every history whatever, with keys that expire any number of times and replies that come late: at no
      point is a second skipped if and only if no scheduler that found no key ever starts while the second
      before was not yet dispatched by any run. */
  lemma NothingIsSkippedExactly(s: System, es: seq<Event>)
    requires Initial(s) && Legal(s, es)
    ensures NeverSkips(s, es) <==> LossesAreHarmless(s, es)
  {
    SkipsExactly(s, es);
  }

  /** The same for one scheduler that starts without a key after a history without gaps, told from the
      ticks: once it has dispatched its first one, nothing is skipped up to the current second if and
      only if some run had already dispatched the second before, or the history only begins now. */
  lemma AbsentKeyIsHarmlessExactly(s: System, es: seq<Event>, e: Event)
    requires Initial(s) && Legal(s, es) && LossesAreHarmless(s, es) && StartsBlind(After(s, es), e)
    ensures var t := After(s, es);
      && Enabled(t, e) && Enabled(Step(t, e), Dispatch(|t.runs|))
      && var u := Step(Step(t, e), Dispatch(|t.runs|));
      && (forall k :: t.first.value <= k <= t.now ==> Scheduled(u.runs, k)) <==>
           (t.first.value >= t.now || exists i :: 0 <= i < |t.runs| && t.runs[i].next >= t.now)
  {
    SkipsExactly(s, es);
    RunKeepsInv(s, es, Dispatching);
    var t := After(s, es);
    HarmlessMeansCovered(t, e);
    var n := |t.runs|;
    var u := Step(Step(t, e), Dispatch(n));
    assert u.runs[n].start == t.now && u.runs[n].next == t.now + 1;
    assert forall i :: 0 <= i < n ==> u.runs[i] == t.runs[i];
    if StartIsCovered(t, e, Dispatching) {
      forall k | t.first.value <= k <= t.now
        ensures Scheduled(u.runs, k)
      {
        if k < t.now {
          assert Covered(t.runs, k, Dispatching);
          var i :| 0 <= i < n && t.runs[i].start <= k < t.runs[i].next;
          assert u.runs[i].start <= k < u.runs[i].next;
        }
      }
    }
    if t.first.value < t.now && forall k :: t.first.value <= k <= t.now ==> Scheduled(u.runs, k) {
      assert Scheduled(u.runs, t.now - 1);
      var i :| 0 <= i < |u.runs| && u.runs[i].start <= t.now - 1 < u.runs[i].next;
      assert t.runs[i].next >= t.now;
    }
  }

  // ---- The tick processor takes part ---------------------------------------------------------

  /** Some bundle is that of this second. */
  ghost predicate Bundled(batches: seq<seq<Bundle>>, t: int) {
    exists i, k :: 0 <= i < |batches| && 0 <= k < |batches[i]| && batches[i][k].tick / SECOND == t
  }

  /** The bundles are the first ones of this run: one per second from its start to the latest of them, a
      second counting as resolved when its bundle is. */
  ghost predicate BundlesOf(r: Run, batches: seq<seq<Bundle>>) {
    && (forall i, k, t :: 0 <= i < |batches| && 0 <= k < |batches[i]| && r.start <= t <= batches[i][k].tick / SECOND ==>
          Bundled(batches, t))
    && (forall i, k :: 0 <= i < |batches| && 0 <= k < |batches[i]| ==>
          r.start <= batches[i][k].tick / SECOND < r.next
          && (Resolved(batches[i][k]) ==> batches[i][k].tick / SECOND in r.resolved))
  }

  lemma ResolvedBundlesAreResolvedSeconds(r: Run, batches: seq<seq<Bundle>>, j: nat, l: nat)
    requires BundlesOf(r, batches) && j < |batches| && l < |batches[j]|
    requires Resolved(batches[j][l]) && ResolvedUpTo(batches, batches[j][l].tick)
    ensures r.start <= batches[j][l].tick / SECOND < r.next && ResolvedFrom(r, batches[j][l].tick / SECOND)
  {
    var w := batches[j][l].tick;
    forall t | r.start <= t <= w / SECOND
      ensures t in r.resolved
    {
      assert Bundled(batches, t);
      var i, k :| 0 <= i < |batches| && 0 <= k < |batches[i]| && batches[i][k].tick / SECOND == t;
      if t < w / SECOND { assert batches[i][k].tick <= w; }
    }
  }

  /** While no batch after one with a failed receiver sends anything, the tick processor of a live run only
      sends what the protocol lets it send. */
  lemma ProcessorFollowsTheProtocol(s: System, run: nat, batches: seq<seq<Bundle>>, replies: seq<WriteReply>, w: int)
    requires run < |s.runs| && s.runs[run].alive && BundlesOf(s.runs[run], batches)
    requires |batches| <= |replies| && Ascending(batches) && w in Writes(batches, replies, |batches|)
    requires forall i, j :: 0 <= i < j < |batches| && WritesAt(batches, replies, j) ==> Clean(batches[i])
    ensures Enabled(s, Send(run, w / SECOND))
  {
    var j, l := SafeWriteIsABundle(batches, replies, w);
    ResolvedBundlesAreResolvedSeconds(s.runs[run], batches, j, l);
  }

  /** Each value sent and then landed or lost. */
  function SendEvents(run: nat, ws: seq<int>, landed: seq<bool>): seq<Event>
    requires |ws| <= |landed|
  {
    if ws == [] then []
    else
      var t := ws[0] / SECOND;
      [Send(run, t), if landed[0] then Land(run, t) else Vanish(run, t)] + SendEvents(run, ws[1..], landed[1..])
  }

  /** Write i is the last one to land. */
  predicate LandsLast(ws: seq<int>, landed: seq<bool>, i: nat)
    requires |ws| <= |landed|
  {
    i < |ws| && landed[i] && forall j :: i < j < |ws| ==> !landed[j]
  }

  lemma {:induction false} SendsRun(s: System, run: nat, ws: seq<int>, landed: seq<bool>)
    requires |ws| <= |landed|
    requires forall i :: 0 <= i < |ws| ==> Enabled(s, Send(run, ws[i] / SECOND))
    ensures Legal(s, SendEvents(run, ws, landed))
    ensures var t := After(s, SendEvents(run, ws, landed));
      && (forall i: nat :: LandsLast(ws, landed, i) ==> t.watermark == Some(ws[i] / SECOND))
      && ((forall i :: 0 <= i < |ws| ==> !landed[i]) ==> t.watermark == s.watermark)
    decreases |ws|
  {
    if ws != [] {
      var es := SendEvents(run, ws, landed);
      var rest := SendEvents(run, ws[1..], landed[1..]);
      var u := Step(s, es[0]);
      var v := Step(u, es[1]);
      assert es[1..][0] == es[1] && es[1..][1..] == rest;
      assert forall i :: 0 <= i < |ws| - 1 ==> ws[1..][i] == ws[i + 1] && landed[1..][i] == landed[i + 1];
      forall i | 0 <= i < |ws| - 1
        ensures Enabled(v, Send(run, ws[1..][i] / SECOND))
      {
        assert Enabled(s, Send(run, ws[i + 1] / SECOND));
      }
      SendsRun(v, run, ws[1..], landed[1..]);
      assert Legal(u, es[1..]) && After(s, es) == After(v, rest);
      forall i: nat | LandsLast(ws, landed, i)
        ensures After(s, es).watermark == Some(ws[i] / SECOND)
      {
        if i > 0 {
          assert LandsLast(ws[1..], landed[1..], i - 1);
        } else {
          assert forall j :: 0 <= j < |ws| - 1 ==> !landed[1..][j];
        }
      }
    }
  }

  /** The values the processor sends in a safe run, each landed or lost, make a run of the protocol that
      leaves the last landed one as the watermark, and the first watermark if none lands; no value lands
      under an earlier one. */
  lemma ProcessorIsARun(s: System, run: nat, batches: seq<seq<Bundle>>, replies: seq<WriteReply>, landed: seq<bool>)
    requires run < |s.runs| && s.runs[run].alive && BundlesOf(s.runs[run], batches)
    requires |batches| <= |replies| && Ascending(batches) && |Writes(batches, replies, |batches|)| <= |landed|
    requires forall i, j :: 0 <= i < j < |batches| && WritesAt(batches, replies, j) ==> Clean(batches[i])
    ensures var ws := Writes(batches, replies, |batches|);
      var es := SendEvents(run, ws, landed);
      && Legal(s, es)
      && (forall i: nat :: LandsLast(ws, landed, i) ==> After(s, es).watermark == Some(ws[i] / SECOND))
      && ((forall i :: 0 <= i < |ws| ==> !landed[i]) ==> After(s, es).watermark == s.watermark)
      && (forall i, j :: 0 <= i < j < |ws| ==> ws[i] < ws[j])
  {
    var ws := Writes(batches, replies, |batches|);
    forall i | 0 <= i < |ws|
      ensures Enabled(s, Send(run, ws[i] / SECOND))
    {
      ProcessorFollowsTheProtocol(s, run, batches, replies, ws[i]);
    }
    forall i, j | 0 <= i < j < |ws|
      ensures ws[i] < ws[j]
    {
      WatermarkIncreases(batches, replies, i, j);
    }
    SendsRun(s, run, ws, landed);
  }

  // ---- Histories with a gap ------------------------------------------------------------------

  /** A history, given with the states it goes through. */
  ghost predicate Goes(states: seq<System>, es: seq<Event>) {
    && |states| == |es| + 1
    && forall i :: 0 <= i < |es| ==> Enabled(states[i], es[i]) && Step(states[i], es[i]) == states[i + 1]
  }

  lemma {:induction false} GoesIsARun(states: seq<System>, es: seq<Event>)
    requires Goes(states, es)
    ensures Legal(states[0], es) && After(states[0], es) == states[|es|]
    decreases es
  {
    if es != [] {
      assert forall i :: 0 <= i < |es[1..]| ==> es[1..][i] == es[i + 1] && states[1..][i] == states[i + 1];
      GoesIsARun(states[1..], es[1..]);
    }
  }

  lemma GoesFurther(states: seq<System>, es: seq<Event>, states': seq<System>, es': seq<Event>)
    requires Goes(states, es) && Goes(states', es') && states[|es|] == states'[0]
    ensures Goes(states[..|es|] + states', es + es')
  {
  }

  const Empty: System := System(0, None, None, None, [], [])
  const OneTickWritten: System :=
    System(0, Some(0), Some(WATERMARK_EXPIRY), Some(0), [Started], [Run(0, 1, {0}, {}, true)])

  /** A second scheduler finds no key, starts, and dispatches its first tick. */
  lemma StartWithoutKey(t: System, r: Run) returns (states: seq<System>, es: seq<Event>)
    requires t.watermark.None? && t.first.Some? && t.readers == [Started] && t.runs == [r]
    ensures Goes(states, es) && states[0] == t
    ensures states[|es|] == t.(readers := [Started, Started], runs := [r, Run(t.now, t.now + 1, {}, {}, true)])
  {
    es := [ReadKey, Boot(1), Dispatch(1)];
    var b := t.(readers := [Started, Started]);
    states := [
      t,
      t.(readers := [Started, Waiting(None)]),
      b.(runs := [r, Run(t.now, t.now, {}, {}, true)]),
      b.(runs := [r, Run(t.now, t.now + 1, {}, {}, true)])];
  }

  lemma FirstCrashes() returns (states: seq<System>, es: seq<Event>)
    ensures Goes(states, es) && states[0] == Empty
    ensures states[|es|] == System(5, None, None, Some(0), [Started], [Run(0, 0, {}, {}, false)])
  {
    es := [ReadKey, Boot(0), Crash(0), Pass(5)];
    var b := Empty.(first := Some(0), readers := [Started]);
    var crashed := b.(runs := [Run(0, 0, {}, {}, false)]);
    states := [
      Empty,
      Empty.(readers := [Waiting(None)]),
      b.(runs := [Run(0, 0, {}, {}, true)]),
      crashed,
      crashed.(now := 5)];
  }

  /** The first scheduler crashes before its first write; the next one finds no key and leaves a gap. */
  lemma AbsentKeyLeavesAGap() returns (s: System, es: seq<Event>)
    ensures Initial(s) && Legal(s, es)
    ensures var t := After(s, es);
      t.first == Some(0) && |t.runs| == 2 && t.runs[1].next > 5 && !Scheduled(t.runs, 3)
  {
    var states, early := FirstCrashes();
    var more, late := StartWithoutKey(states[|early|], Run(0, 0, {}, {}, false));
    GoesFurther(states, early, more, late);
    s, es := Empty, early + late;
    GoesIsARun(states[..|early|] + more, es);
  }

  lemma OneWriteLands() returns (states: seq<System>, es: seq<Event>)
    ensures Goes(states, es) && states[0] == Empty && states[|es|] == OneTickWritten
    ensures Land(0, 0) in es
  {
    es := [ReadKey, Boot(0), Dispatch(0), Resolve(0, 0), Send(0, 0), Land(0, 0)];
    var r := Run(0, 1, {0}, {}, true);
    var b := Empty.(first := Some(0), readers := [Started]);
    var sent := b.(runs := [r.(inFlight := {0})]);
    var resolved := b.(runs := [r]);
    assert ResolvedFrom(r, 0) && es[5] == Land(0, 0);
    assert Step(resolved, Send(0, 0)) == sent by {
      assert r.inFlight + {0} == {0} && [r][0 := r.(inFlight := {0})] == [r.(inFlight := {0})];
    }
    assert Step(sent, Land(0, 0)) == OneTickWritten by { assert {0} - {0} == {}; }
    states := [
      Empty,
      Empty.(readers := [Waiting(None)]),
      b.(runs := [Run(0, 0, {}, {}, true)]),
      b.(runs := [Run(0, 1, {}, {}, true)]),
      resolved,
      sent,
      OneTickWritten];
  }

  lemma KeyExpires() returns (states: seq<System>, es: seq<Event>)
    ensures Goes(states, es) && states[0] == OneTickWritten
    ensures states[|es|] ==
      OneTickWritten.(now := WATERMARK_EXPIRY, watermark := None, runs := [Run(0, 1, {0}, {}, false)])
  {
    es := [Crash(0), Pass(WATERMARK_EXPIRY), Expire];
    var crashed := OneTickWritten.(runs := [Run(0, 1, {0}, {}, false)]);
    var later := crashed.(now := WATERMARK_EXPIRY);
    states := [OneTickWritten, crashed, later, later.(watermark := None)];
  }

  /** A key that was written expires a day later; the next scheduler leaves a gap after the written tick. */
  lemma ExpiredKeyLeavesAGap() returns (s: System, es: seq<Event>)
    ensures Initial(s) && Legal(s, es) && Land(0, 0) in es
    ensures var t := After(s, es);
      && t.first == Some(0) && |t.runs| == 2 && t.now == 86400 && t.runs[1].next > t.now
      && Done(t.runs, 0) && !Scheduled(t.runs, 1)
  {
    var states, early := OneWriteLands();
    var expiry, middle := KeyExpires();
    GoesFurther(states, early, expiry, middle);
    states, early := states[..|early|] + expiry, early + middle;
    var more, late := StartWithoutKey(states[|early|], Run(0, 1, {0}, {}, false));
    GoesFurther(states, early, more, late);
    s, es := Empty, early + late;
    GoesIsARun(states[..|early|] + more, es);
    assert 0 in After(s, es).runs[0].resolved;
  }
}
