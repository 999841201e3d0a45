/** Keeping a partition's store in step with Redis while configs are being written
    (src/check_config_provider/redis_config_provider.rs, src/redis.rs). */
module ConfigSync {
  import opened Prelude
  import opened CheckConfigs
  import opened ConfigStores

  datatype Action = Upsert | Delete

  /** A value of the config hash; one that does not decode is skipped by readers. */
  datatype Payload = Readable(config: CheckConfig) | Unreadable

  /** Where the consumer is between two visits to the update hash. */
  datatype Consumer =
    | Booting
    | Idle
    | Applying(deletes: set<nat>, upserts: set<nat>)
    | Adding(payloads: map<nat, CheckConfig>)

  /** One partition, as one checker sees it. `pending` holds the writers that have changed the config hash
      and not yet the update hash; `lost` records the ids of updates that were taken, by a failed operation
      of this checker or by another checker, and not carried out here. */
  datatype State = State(
    hash: map<nat, Payload>,
    updates: map<nat, Action>,
    pending: map<nat, Action>,
    store: map<nat, CheckConfig>,
    consumer: Consumer,
    lost: set<nat>)

  function Decoded(hash: map<nat, Payload>): map<nat, CheckConfig> {
    map id | id in hash && hash[id].Readable? :: hash[id].config
  }

  function WithAction(updates: map<nat, Action>, a: Action): set<nat> {
    set id | id in updates && updates[id] == a
  }

  /** The readable payloads of the given ids; missing fields come back empty and do not decode. */
  function PayloadsOf(hash: map<nat, Payload>, ids: set<nat>): map<nat, CheckConfig> {
    map id | id in ids && id in hash && hash[id].Readable? :: hash[id].config
  }

  // ---- Atomic steps --------------------------------------------------------------------------

  datatype Event =
    | WriteHash(id: nat, payload: Payload)
    | DropHash(id: nat)
    | WriteUpdate(id: nat)
    | LoadInitialConfigs
    | ConsumeUpdates
    | LoseConsumedReply               // the transaction runs, its reply is lost
    | OtherTakesUpdates               // by a checker that overlaps with this one
    | RemoveOne(id: nat)
    | ReadPayloads
    | LoseRead
    | AddOne(id: nat)
    | FinishBatch
    | Restart

  predicate Enabled(s: State, e: Event) {
    match e
    case WriteHash(id, p) => id !in s.pending && (p.Readable? ==> p.config.subscriptionId == id)
    case DropHash(id) => id !in s.pending
    case WriteUpdate(id) => id in s.pending
    case LoadInitialConfigs => s.consumer.Booting?
    case ConsumeUpdates => s.consumer.Idle?
    case LoseConsumedReply => s.consumer.Idle?
    case OtherTakesUpdates => true
    case RemoveOne(id) => s.consumer.Applying? && id in s.consumer.deletes
    case ReadPayloads => s.consumer.Applying? && s.consumer.deletes == {}
    case LoseRead => s.consumer.Applying? && s.consumer.deletes == {} && s.consumer.upserts != {}
    case AddOne(id) => s.consumer.Adding? && id in s.consumer.payloads
    case FinishBatch => s.consumer.Adding? && s.consumer.payloads == map[]
    case Restart => true
  }

  function Step(s: State, e: Event): State
    requires Enabled(s, e)
  {
    match e
    case WriteHash(id, p) => s.(hash := s.hash[id := p], pending := s.pending[id := Upsert])
    case DropHash(id) => s.(hash := s.hash - {id}, pending := s.pending[id := Delete])
    case WriteUpdate(id) => s.(updates := s.updates[id := s.pending[id]], pending := s.pending - {id})
    case LoadInitialConfigs => s.(consumer := Adding(Decoded(s.hash)))
    case ConsumeUpdates =>
      s.(updates := map[], lost := s.lost - s.updates.Keys,
         consumer := Applying(WithAction(s.updates, Delete), WithAction(s.updates, Upsert)))
    case LoseConsumedReply => s.(updates := map[], lost := s.lost + s.updates.Keys)
    case OtherTakesUpdates => s.(updates := map[], lost := s.lost + s.updates.Keys)
    case RemoveOne(id) =>
      s.(store := s.store - {id}, consumer := s.consumer.(deletes := s.consumer.deletes - {id}))
    case ReadPayloads =>
      var skipped := set id | id in s.consumer.upserts && id in s.hash && s.hash[id].Unreadable?;
      s.(consumer := Adding(PayloadsOf(s.hash, s.consumer.upserts)), lost := s.lost + skipped)
    case LoseRead => s.(consumer := Idle, lost := s.lost + s.consumer.upserts)
    case AddOne(id) =>
      s.(store := s.store[id := s.consumer.payloads[id]],
         consumer := Adding(s.consumer.payloads - {id}))
    case FinishBatch => s.(consumer := Idle)
    case Restart => s.(consumer := Booting, store := map[], lost := {})
  }

  /** Nothing written yet, and the consumer about to load. */
  predicate Initial(s: State) {
    s.updates == map[] && s.pending == map[] && s.store == map[] && s.consumer == Booting && s.lost == {}
  }

  predicate Legal(s: State, es: seq<Event>)
    decreases es
  {
    es == [] || (Enabled(s, es[0]) && Legal(Step(s, es[0]), es[1..]))
  }

  function After(s: State, es: seq<Event>): State
    requires Legal(s, es)
    decreases es
  {
    if es == [] then s else After(Step(s, es[0]), es[1..])
  }

  // ---- The invariant -------------------------------------------------------------------------

  /** The store holds for this id what the config hash holds. */
  predicate Agrees(s: State, id: nat) {
    if id in s.hash && s.hash[id].Readable? then id in s.store && s.store[id] == s.hash[id].config
    else id !in s.store
  }

  /** The id has a writer or a message on the way to the consumer. */
  predicate Announced(s: State, id: nat) { id in s.pending || id in s.updates }

  /** The consumer's unapplied batch still has work to do for the id. */
  predicate InBatch(s: State, id: nat) {
    match s.consumer
    case Applying(d, u) => id in d || id in u
    case Adding(p) => id in p
    case _ => false
  }

  /** A batch that nobody has overtaken is right about the hash. */
  predicate BatchIsCurrent(s: State, id: nat) {
    match s.consumer
    case Applying(d, u) => (id in d ==> id !in s.hash) && (id in u ==> id in s.hash)
    case Adding(p) => id in p ==> id in s.hash && s.hash[id] == Readable(p[id])
    case _ => true
  }

  ghost predicate Inv(s: State) {
    && (forall id :: id in s.pending ==> (s.pending[id] == Upsert <==> id in s.hash))
    && (forall id :: id in s.updates && id !in s.pending ==> (s.updates[id] == Upsert <==> id in s.hash))
    && (s.consumer.Booting? ==> s.store == map[])
    && (s.consumer.Applying? ==> s.consumer.deletes !! s.consumer.upserts)
    && (!s.consumer.Booting? ==> forall id :: !Announced(s, id) && id !in s.lost ==>
          BatchIsCurrent(s, id) && (Agrees(s, id) || InBatch(s, id)))
  }

  lemma StepKeepsInv(s: State, e: Event)
    requires Inv(s) && Enabled(s, e)
    ensures Inv(Step(s, e))
  {
    var t := Step(s, e);
    if !t.consumer.Booting? {
      forall id | !Announced(t, id) && id !in t.lost
        ensures BatchIsCurrent(t, id) && (Agrees(t, id) || InBatch(t, id))
      {
        if !Announced(s, id) && id !in s.lost && !s.consumer.Booting? {
          assert BatchIsCurrent(s, id) && (Agrees(s, id) || InBatch(s, id));
        }
      }
    }
  }

  lemma {:induction false} RunKeepsInv(s: State, es: seq<Event>)
    requires Inv(s) && Legal(s, es)
    ensures Inv(After(s, es))
    decreases es
  {
    if es != [] {
      StepKeepsInv(s, es[0]);
      RunKeepsInv(Step(s, es[0]), es[1..]);
    }
  }

  /** At every point of every run: where a loaded store and the hash differ, a writer is still at it,
      the update hash says so, the consumer's batch says so, or a Redis failure dropped the message. */
  lemma DifferencesAreAccountedFor(s: State, es: seq<Event>, id: nat)
    requires Initial(s) && Legal(s, es)
    requires !After(s, es).consumer.Booting? && !Agrees(After(s, es), id)
    ensures var t := After(s, es); Announced(t, id) || InBatch(t, id) || id in t.lost
  {
    RunKeepsInv(s, es);
  }

  // ---- Convergence ---------------------------------------------------------------------------

  predicate LosesNothing(e: Event) {
    !e.LoseConsumedReply? && !e.OtherTakesUpdates? && !e.LoseRead? && (e.WriteHash? ==> e.payload.Readable?)
  }

  predicate AllReadable(s: State) { forall id :: id in s.hash ==> s.hash[id].Readable? }

  lemma {:induction false} NothingLost(s: State, es: seq<Event>)
    requires s.lost == {} && AllReadable(s) && Legal(s, es)
    requires forall i :: 0 <= i < |es| ==> LosesNothing(es[i])
    ensures After(s, es).lost == {} && AllReadable(After(s, es))
    decreases es
  {
    if es != [] {
      assert LosesNothing(es[0]);
      assert forall i :: 0 <= i < |es[1..]| ==> es[1..][i] == es[i + 1];
      NothingLost(Step(s, es[0]), es[1..]);
    }
  }

  predicate Quiet(s: State) { s.consumer.Idle? && s.pending == map[] && s.updates == map[] }

  lemma AgreementIsEquality(s: State)
    requires forall id :: Agrees(s, id)
    ensures s.store == Decoded(s.hash)
  {
    forall id
      ensures id in s.store <==> id in Decoded(s.hash)
      ensures id in s.store ==> s.store[id] == Decoded(s.hash)[id]
    {
      assert Agrees(s, id);
    }
  }

  /** When writers and consumer come to rest after a run without Redis failures, however they were
      interleaved and however often the checker restarted, the store is the decoded hash. */
  lemma QuietMeansInSync(s: State, es: seq<Event>)
    requires Initial(s) && AllReadable(s) && Legal(s, es)
    requires forall i :: 0 <= i < |es| ==> LosesNothing(es[i])
    requires Quiet(After(s, es))
    ensures After(s, es).store == Decoded(After(s, es).hash)
  {
    RunKeepsInv(s, es);
    NothingLost(s, es);
    AgreementIsEquality(After(s, es));
  }

  /** The store after one undisturbed visit to the update hash. */
  function AfterVisit(store: map<nat, CheckConfig>, hash: map<nat, Payload>, updates: map<nat, Action>)
    : map<nat, CheckConfig>
  {
    (store - WithAction(updates, Delete)) + PayloadsOf(hash, WithAction(updates, Upsert))
  }

  /** From wherever a run without Redis failures leaves an idle consumer, one visit with no writer
      at work brings the store in step. */
  lemma OneVisitCatchesUp(s: State, es: seq<Event>)
    requires Initial(s) && AllReadable(s) && Legal(s, es)
    requires forall i :: 0 <= i < |es| ==> LosesNothing(es[i])
    requires After(s, es).consumer.Idle? && After(s, es).pending == map[]
    ensures var t := After(s, es); AfterVisit(t.store, t.hash, t.updates) == Decoded(t.hash)
  {
    var t := After(s, es);
    RunKeepsInv(s, es);
    NothingLost(s, es);
    var u := t.(store := AfterVisit(t.store, t.hash, t.updates));
    forall id
      ensures Agrees(u, id)
    {
      if id !in t.updates { assert Agrees(t, id); }
    }
    AgreementIsEquality(u);
  }

  /** At rest after any run whatever, with any number of Redis failures, unreadable payloads and overlapping
      checkers: the store is the decoded hash if and only if it agrees with it on the lost ids. */
  lemma RestIsInSyncExactly(s: State, es: seq<Event>)
    requires Initial(s) && Legal(s, es) && Quiet(After(s, es))
    ensures var t := After(s, es);
      t.store == Decoded(t.hash) <==> forall id :: id in t.lost ==> Agrees(t, id)
  {
    RunKeepsInv(s, es);
    var t := After(s, es);
    if forall id :: id in t.lost ==> Agrees(t, id) {
      forall id
        ensures Agrees(t, id)
      {
        if id !in t.lost { assert !InBatch(t, id); }
      }
      AgreementIsEquality(t);
    }
    if t.store == Decoded(t.hash) {
      forall id
        ensures Agrees(t, id)
      {
        assert id in t.store <==> id in Decoded(t.hash);
      }
    }
  }

  lemma {:induction false} Joined(s: State, es: seq<Event>, more: seq<Event>)
    requires Legal(s, es) && Legal(After(s, es), more)
    ensures Legal(s, es + more) && After(s, es + more) == After(After(s, es), more)
    decreases es
  {
    if es == [] {
      assert es + more == more;
    } else {
      assert (es + more)[1..] == es[1..] + more;
      Joined(Step(s, es[0]), es[1..], more);
    }
  }

  lemma OneMore(s: State, es: seq<Event>, e: Event)
    requires Legal(s, es) && Enabled(After(s, es), e)
    ensures Legal(s, es + [e]) && After(s, es + [e]) == Step(After(s, es), e)
  {
    var t := After(s, es);
    assert [e][1..] == [];
    assert Legal(Step(t, e), []) && After(t, [e]) == After(Step(t, e), []);
    Joined(s, es, [e]);
  }

  /** In particular a payload read that fails drops its batch: with nothing else under way, the store is
      then in step if and only if it already held the current version of every config of the batch. */
  lemma FailedReadDropsTheBatch(s: State, es: seq<Event>)
    requires Initial(s) && AllReadable(s) && Legal(s, es)
    requires forall i :: 0 <= i < |es| ==> LosesNothing(es[i])
    requires Enabled(After(s, es), LoseRead) && After(s, es).pending == map[] && After(s, es).updates == map[]
    ensures var t := After(s, es);
      && Quiet(Step(t, LoseRead))
      && (Step(t, LoseRead).store == Decoded(t.hash) <==> forall id :: id in t.consumer.upserts ==> Agrees(t, id))
  {
    NothingLost(s, es);
    OneMore(s, es, LoseRead);
    RestIsInSyncExactly(s, es + [LoseRead]);
    var t := After(s, es);
    assert Step(t, LoseRead).lost == t.consumer.upserts;
    assert forall id :: Agrees(Step(t, LoseRead), id) <==> Agrees(t, id);
  }

  /** A run to the point where a config is in both hashes and the consumer is idle. */
  lemma AnnouncedRun(c: CheckConfig) returns (s: State, es: seq<Event>)
    ensures Initial(s) && AllReadable(s) && Legal(s, es)
    ensures var id := c.subscriptionId;
      After(s, es) == State(map[id := Readable(c)], map[id := Upsert], map[], map[], Idle, {})
    ensures forall i :: 0 <= i < |es| ==> LosesNothing(es[i])
  {
    var id := c.subscriptionId;
    s := State(map[], map[], map[], map[], Booting, {});
    es := [];
    OneMore(s, es, LoadInitialConfigs); es := es + [LoadInitialConfigs];
    assert After(s, es).consumer == Adding(map[]);
    OneMore(s, es, FinishBatch); es := es + [FinishBatch];
    OneMore(s, es, WriteHash(id, Readable(c))); es := es + [WriteHash(id, Readable(c))];
    OneMore(s, es, WriteUpdate(id)); es := es + [WriteUpdate(id)];
    assert After(s, es).updates == map[id := Upsert] && After(s, es).pending == map[];
  }

  /** Such runs exist: a config announced, taken and then lost stays missing at rest. */
  lemma FailedReadCanDiverge(c: CheckConfig) returns (s: State, es: seq<Event>)
    ensures Initial(s) && AllReadable(s) && Legal(s, es) && Quiet(After(s, es))
    ensures c.subscriptionId in Decoded(After(s, es).hash) && c.subscriptionId !in After(s, es).store
  {
    var id := c.subscriptionId;
    s, es := AnnouncedRun(c);
    OneMore(s, es, ConsumeUpdates); es := es + [ConsumeUpdates];
    assert After(s, es).consumer.deletes == {} && id in After(s, es).consumer.upserts;
    OneMore(s, es, LoseRead); es := es + [LoseRead];
  }

  /** So does one whose update is taken by a transaction whose reply is lost, or by another checker. */
  lemma LostUpdateCanDiverge(c: CheckConfig, e: Event) returns (s: State, es: seq<Event>)
    requires e == LoseConsumedReply || e == OtherTakesUpdates
    ensures Initial(s) && AllReadable(s) && Legal(s, es + [e]) && Quiet(After(s, es + [e]))
    ensures forall i :: 0 <= i < |es| ==> LosesNothing(es[i])
    ensures c.subscriptionId in Decoded(After(s, es + [e]).hash) && c.subscriptionId !in After(s, es + [e]).store
  {
    s, es := AnnouncedRun(c);
    OneMore(s, es, e);
  }

  /** A config overwritten with a payload that does not decode stays in the store in its old version. */
  lemma UnreadablePayloadCanDiverge(c: CheckConfig) returns (s: State, es: seq<Event>)
    ensures Initial(s) && AllReadable(s) && Legal(s, es) && Quiet(After(s, es))
    ensures c.subscriptionId !in Decoded(After(s, es).hash) && c.subscriptionId in After(s, es).store
  {
    var id := c.subscriptionId;
    s, es := AnnouncedRun(c);
    var first := VisitIsARun(After(s, es));
    Joined(s, es, first); es := es + first;
    assert After(s, es).store == map[id := c];
    OneMore(s, es, WriteHash(id, Unreadable)); es := es + [WriteHash(id, Unreadable)];
    OneMore(s, es, WriteUpdate(id)); es := es + [WriteUpdate(id)];
    assert After(s, es).updates == map[id := Upsert];
    var second := VisitIsARun(After(s, es));
    Joined(s, es, second); es := es + second;
  }

  lemma {:induction false} DeletesDrain(s: State) returns (es: seq<Event>)
    requires s.consumer.Applying?
    ensures Legal(s, es)
    ensures After(s, es) == s.(store := s.store - s.consumer.deletes, consumer := Applying({}, s.consumer.upserts))
    decreases |s.consumer.deletes|
  {
    if s.consumer.deletes == {} {
      es := [];
      assert s.store - {} == s.store;
    } else {
      var id :| id in s.consumer.deletes;
      var rest := DeletesDrain(Step(s, RemoveOne(id)));
      es := [RemoveOne(id)] + rest;
      assert es[1..] == rest;
      assert s.store - {id} - (s.consumer.deletes - {id}) == s.store - s.consumer.deletes;
    }
  }

  lemma MovingOne(store: map<nat, CheckConfig>, p: map<nat, CheckConfig>, id: nat)
    requires id in p
    ensures store[id := p[id]] + (p - {id}) == store + p
  {
  }

  lemma {:induction false} PayloadsDrain(s: State) returns (es: seq<Event>)
    requires s.consumer.Adding?
    ensures Legal(s, es)
    ensures After(s, es) == s.(store := s.store + s.consumer.payloads, consumer := Idle)
    decreases s.consumer.payloads.Keys
  {
    if s.consumer.payloads == map[] {
      es := [FinishBatch];
      assert es[1..] == [];
      assert s.store + map[] == s.store;
    } else {
      var id :| id in s.consumer.payloads;
      MovingOne(s.store, s.consumer.payloads, id);
      var next := Step(s, AddOne(id));
      var rest := PayloadsDrain(next);
      es := [AddOne(id)] + rest;
      assert es[1..] == rest;
      assert After(s, es) == After(next, rest);
    }
  }

  /** An undisturbed visit is a run of the atomic steps. */
  lemma VisitIsARun(s: State) returns (es: seq<Event>)
    requires s.consumer.Idle?
    ensures Legal(s, es)
    ensures var t := After(s, es);
      && t.store == AfterVisit(s.store, s.hash, s.updates)
      && t.hash == s.hash && t.updates == map[] && t.pending == s.pending && t.consumer.Idle?
  {
    OneMore(s, [], ConsumeUpdates);
    es := [] + [ConsumeUpdates];
    var deletes := DeletesDrain(After(s, es));
    Joined(s, es, deletes);
    es := es + deletes;
    OneMore(s, es, ReadPayloads);
    es := es + [ReadPayloads];
    var adds := PayloadsDrain(After(s, es));
    Joined(s, es, adds);
    es := es + adds;
  }

  /** So is the initial load. */
  lemma LoadIsARun(s: State) returns (es: seq<Event>)
    requires s.consumer.Booting?
    ensures Legal(s, es)
    ensures After(s, es) == s.(store := s.store + Decoded(s.hash), consumer := Idle)
  {
    OneMore(s, [], LoadInitialConfigs);
    es := [] + [LoadInitialConfigs];
    var adds := PayloadsDrain(After(s, es));
    Joined(s, es, adds);
    es := es + adds;
  }

  /** A change of a config, a new version or none, reaches an idle consumer through its two writes and one
      visit, whatever else is going on. */
  lemma AnnouncedChangeArrives(s: State, id: nat, version: Option<CheckConfig>) returns (es: seq<Event>)
    requires s.consumer.Idle? && id !in s.pending && (version.Some? ==> version.value.subscriptionId == id)
    ensures Legal(s, es)
    ensures var t := After(s, es);
      if version.Some? then
        id in t.store && t.store[id] == version.value && t.hash == s.hash[id := Readable(version.value)]
      else id !in t.store && t.hash == s.hash - {id}
  {
    var write := if version.Some? then WriteHash(id, Readable(version.value)) else DropHash(id);
    OneMore(s, [], write);
    es := [] + [write];
    OneMore(s, es, WriteUpdate(id));
    es := es + [WriteUpdate(id)];
    var u := After(s, es);
    assert u.updates[id] == (if version.Some? then Upsert else Delete);
    var visit := VisitIsARun(u);
    Joined(s, es, visit);
    es := es + visit;
  }

  /** A restart and the initial load bring the store in step with the hash, whatever was lost before. */
  lemma RestartHeals(s: State) returns (es: seq<Event>)
    ensures Legal(s, es) && After(s, es).store == Decoded(s.hash) && After(s, es).hash == s.hash
  {
    OneMore(s, [], Restart);
    es := [] + [Restart];
    var load := LoadIsARun(After(s, es));
    Joined(s, es, load);
    es := es + load;
    assert map[] + Decoded(s.hash) == Decoded(s.hash);
  }

  // ---- The consumer itself -------------------------------------------------------------------

  ghost function Elements(ids: seq<nat>): set<nat> { set id | id in ids }

  lemma ElementsGain(ids: seq<nat>, id: nat)
    ensures Elements(ids + [id]) == Elements(ids) + {id}
  {
  }

  /** `payloads` holds, position by position, what the hash holds under `ids`. */
  ghost predicate Answers(hash: map<nat, Payload>, ids: seq<nat>, payloads: seq<Option<Payload>>) {
    && |payloads| == |ids|
    && forall i :: 0 <= i < |ids| ==> payloads[i] == if ids[i] in hash then Some(hash[ids[i]]) else None
  }

  /** The two Redis keys of a partition. */
  class RedisPartition {
    var hash: map<nat, Payload>
    var updates: map<nat, Action>

    constructor (hash: map<nat, Payload>, updates: map<nat, Action>)
      ensures this.hash == hash && this.updates == updates
    {
      this.hash := hash;
      this.updates := updates;
    }

    /** HVALS and DEL in one transaction. */
    method ConsumeConfigUpdates() returns (upserts: seq<nat>, deletes: seq<nat>)
      modifies `updates
      ensures updates == map[]
      ensures Elements(upserts) == WithAction(old(updates), Upsert)
      ensures Elements(deletes) == WithAction(old(updates), Delete)
    {
      upserts, deletes := [], [];
      var rest := updates.Keys;
      while rest != {}
        invariant updates == old(updates) && rest <= updates.Keys
        invariant Elements(upserts) == WithAction(updates, Upsert) - rest
        invariant Elements(deletes) == WithAction(updates, Delete) - rest
        decreases |rest|
      {
        var id :| id in rest;
        ElementsGain(upserts, id);
        ElementsGain(deletes, id);
        match updates[id] {
          case Upsert => upserts := upserts + [id];
          case Delete => deletes := deletes + [id];
        }
        rest := rest - {id};
      }
      updates := map[];
    }

    /** HMGET: one value per requested field, empty when the field is missing. */
    method GetConfigKeyPayloads(ids: seq<nat>) returns (payloads: seq<Option<Payload>>)
      ensures Answers(hash, ids, payloads)
    {
      payloads := seq(|ids|, i requires 0 <= i < |ids| reads this =>
        if ids[i] in hash then Some(hash[ids[i]]) else None);
    }

    /** HVALS of the config hash, in an unspecified order of its fields. */
    method ReadConfigs() returns (payloads: seq<Option<Payload>>, ghost ids: seq<nat>)
      ensures Elements(ids) == hash.Keys && Answers(hash, ids, payloads)
      ensures |payloads| == |hash| && forall id :: id in hash ==> Some(hash[id]) in payloads
    {
      payloads, ids := [], [];
      var rest := hash.Keys;
      while rest != {}
        invariant rest <= hash.Keys
        invariant Elements(ids) == hash.Keys - rest && Answers(hash, ids, payloads)
        invariant |payloads| + |rest| == |hash.Keys|
        decreases |rest|
      {
        var id :| id in rest;
        ElementsGain(ids, id);
        payloads, ids := payloads + [Some(hash[id])], ids + [id];
        rest := rest - {id};
      }
      forall id | id in hash
        ensures Some(hash[id]) in payloads
      {
        assert id in Elements(ids);
        var i :| 0 <= i < |ids| && ids[i] == id;
        assert payloads[i] == Some(hash[id]);
      }
    }
  }

  ghost predicate KeyedById(hash: map<nat, Payload>) {
    forall id :: id in hash && hash[id].Readable? ==> hash[id].config.subscriptionId == id
  }

  method RemoveAll(store: ConfigStore, ids: seq<nat>, now: nat)
    requires store.Valid()
    modifies store, store.tickBuckets
    ensures store.Valid()
    ensures store.configs == old(store.configs) - Elements(ids)
  {
    for i := 0 to |ids|
      invariant store.Valid()
      invariant store.configs == old(store.configs) - Elements(ids[..i])
    {
      store.RemoveConfig(ids[i], now);
      assert ids[..i + 1] == ids[..i] + [ids[i]];
      ElementsGain(ids[..i], ids[i]);
    }
    assert ids[..|ids|] == ids;
  }

  ghost function Merged(store: map<nat, CheckConfig>, hash: map<nat, Payload>, ids: seq<nat>): map<nat, CheckConfig> {
    store + PayloadsOf(hash, Elements(ids))
  }

  lemma MergedGain(store: map<nat, CheckConfig>, hash: map<nat, Payload>, ids: seq<nat>, i: nat)
    requires i < |ids|
    ensures Merged(store, hash, ids[..i + 1]) ==
            if ids[i] in hash && hash[ids[i]].Readable?
            then Merged(store, hash, ids[..i])[ids[i] := hash[ids[i]].config]
            else Merged(store, hash, ids[..i])
  {
    var id := ids[i];
    assert ids[..i + 1] == ids[..i] + [id];
    ElementsGain(ids[..i], id);
    assert PayloadsOf(hash, Elements(ids[..i]) + {id}) ==
           if id in hash && hash[id].Readable? then PayloadsOf(hash, Elements(ids[..i]))[id := hash[id].config]
           else PayloadsOf(hash, Elements(ids[..i]));
  }

  /** The loop that stores every payload that decodes. */
  method AddAll(store: ConfigStore, payloads: seq<Option<Payload>>, now: nat,
                ghost hash: map<nat, Payload>, ghost ids: seq<nat>)
    requires store.Valid() && Answers(hash, ids, payloads) && KeyedById(hash)
    modifies store, store.tickBuckets
    ensures store.Valid()
    ensures store.configs == old(store.configs) + PayloadsOf(hash, Elements(ids))
  {
    ghost var was := store.configs;
    for i := 0 to |payloads|
      invariant store.Valid()
      invariant store.configs == Merged(was, hash, ids[..i])
    {
      MergedGain(was, hash, ids, i);
      if payloads[i].Some? && payloads[i].value.Readable? {
        assert payloads[i].value.config.subscriptionId == ids[i];
        store.AddConfig(payloads[i].value.config, now);
      }
    }
    assert ids[..|ids|] == ids;
  }

  /** The body of monitor_updates for one partition: take the updates, carry out the deletes,
      then read the configs again for the upserts. */
  method VisitPartition(redis: RedisPartition, store: ConfigStore, now: nat)
    requires store.Valid() && KeyedById(redis.hash)
    modifies redis`updates, store, store.tickBuckets
    ensures store.Valid()
    ensures redis.updates == map[]
    ensures store.configs == AfterVisit(old(store.configs), redis.hash, old(redis.updates))
  {
    var upserts, deletes := redis.ConsumeConfigUpdates();
    RemoveAll(store, deletes, now);
    if upserts == [] {
      assert Elements(upserts) == {};
      return;
    }
    var payloads := redis.GetConfigKeyPayloads(upserts);
    AddAll(store, payloads, now, redis.hash, upserts);
  }

  lemma AllPayloads(hash: map<nat, Payload>)
    ensures PayloadsOf(hash, hash.Keys) == Decoded(hash)
  {
  }

  /** load_initial_configs for one partition. */
  method LoadPartition(redis: RedisPartition, store: ConfigStore, now: nat)
    requires store.Valid() && KeyedById(redis.hash)
    modifies store, store.tickBuckets
    ensures store.Valid()
    ensures store.configs == old(store.configs) + Decoded(redis.hash)
  {
    var payloads, ids := redis.ReadConfigs();
    AddAll(store, payloads, now, redis.hash, ids);
    AllPayloads(redis.hash);
  }
}
