/** The cache of compiled assertions (src/assertions/cache.rs). */
module Cache {
  import opened Prelude
  import opened Assertions
  import opened Libraries
  import opened Compile

  /** Every entry is the code of its own, well-formed, key. */
  ghost predicate Right(lib: Library, entries: map<Op, Code>) {
    forall k :: k in entries ==> WellFormed(lib, k) && entries[k] == Lowered(lib, k)
  }

  /** All keys fit the limit, as they do while every call uses that limit. */
  ghost predicate Within(entries: map<Op, Code>, maxOps: nat) {
    forall k :: k in entries ==> NodeCount(k) <= maxOps
  }

  class AssertionCache {
    const lib: Library
    var entries: map<Op, Code>

    ghost predicate Valid()
      reads this
    {
      Right(lib, entries)
    }

    constructor (lib: Library)
      ensures Valid() && entries == map[] && this.lib == lib
    {
      this.lib := lib;
      entries := map[];
    }

    /** The section under the read lock. */
    method Lookup(key: Op) returns (hit: Option<Code>)
      requires Valid()
      ensures hit == if key in entries then Some(Lowered(lib, key)) else None
    {
      hit := if key in entries then Some(entries[key]) else None;
    }

    /** The section under the write lock; inserting may push out any other entries. */
    method Store(key: Op, code: Code, evicted: set<Op>)
      requires Valid() && WellFormed(lib, key) && code == Lowered(lib, key)
      modifies this
      ensures Valid()
      ensures entries == (old(entries) - evicted)[key := code]
    {
      entries := (entries - evicted)[key := code];
    }

    /** get_or_compile. Between its two sections other callers leave the entries as `meanwhile`, any right
        ones. The answer is what compiling answers, if and only if the key missed or fits this call's limit;
        so it always is while all calls use one limit. Errors are never stored. */
    method GetOrCompile(key: Op, maxOps: nat, meanwhile: map<Op, Code>, evicted: set<Op>)
      returns (r: Result<Code, CompilationError>)
      requires Valid() && Right(lib, meanwhile)
      modifies this
      ensures Valid()
      ensures r == if key in old(entries) then Ok(Lowered(lib, key)) else Compiled(lib, key, maxOps)
      ensures r == Compiled(lib, key, maxOps) <==> key !in old(entries) || NodeCount(key) <= maxOps
      ensures old(Within(entries, maxOps)) ==> r == Compiled(lib, key, maxOps)
      ensures old(Within(entries, maxOps)) && Within(meanwhile, maxOps) ==> Within(entries, maxOps)
      ensures key in old(entries) || r.Err? ==> entries == meanwhile
      ensures key !in old(entries) && r.Ok? ==> entries == (meanwhile - evicted)[key := r.value]
    {
      BudgetIsExact(lib, key, maxOps);
      var hit := Lookup(key);
      if hit.Some? {
        entries := meanwhile;
        return Ok(hit.value);
      }
      entries := meanwhile;
      r := CompileAssertion(lib, key, maxOps);
      if r.Ok? { Store(key, r.value, evicted); }
    }
  }

  // ---- Many calls at once --------------------------------------------------------------------

  /** A call before its first section, between its two sections, and after. */
  datatype Phase = Starting | Compiling | Answered(answer: Result<Code, CompilationError>, hit: bool)

  datatype Call = Call(key: Op, maxOps: nat, phase: Phase)

  datatype System = System(entries: map<Op, Code>, calls: seq<Call>)

  datatype Event =
    | Begin(key: Op, maxOps: nat)
    | Look(call: nat)                        // the section under the read lock
    | Insert(call: nat, evicted: set<Op>)    // the section under the write lock
    | Fail(call: nat)                        // a compilation error ends the call without that section

  /** What the call compiles to. */
  function Outcome(lib: Library, c: Call): Result<Code, CompilationError> { Compiled(lib, c.key, c.maxOps) }

  predicate Enabled(lib: Library, s: System, e: Event) {
    match e
    case Begin(_, _) => true
    case Look(i) => i < |s.calls| && s.calls[i].phase.Starting?
    case Insert(i, _) => i < |s.calls| && s.calls[i].phase.Compiling? && Outcome(lib, s.calls[i]).Ok?
    case Fail(i) => i < |s.calls| && s.calls[i].phase.Compiling? && Outcome(lib, s.calls[i]).Err?
  }

  function Step(lib: Library, s: System, e: Event): System
    requires Enabled(lib, s, e)
  {
    match e
    case Begin(key, maxOps) => s.(calls := s.calls + [Call(key, maxOps, Starting)])
    case Look(i) =>
      var c := s.calls[i];
      var phase := if c.key in s.entries then Answered(Ok(s.entries[c.key]), true) else Compiling;
      s.(calls := s.calls[i := c.(phase := phase)])
    case Insert(i, evicted) =>
      var c := s.calls[i];
      System((s.entries - evicted)[c.key := Outcome(lib, c).value],
             s.calls[i := c.(phase := Answered(Outcome(lib, c), false))])
    case Fail(i) =>
      s.(calls := s.calls[i := s.calls[i].(phase := Answered(Outcome(lib, s.calls[i]), false))])
  }

  predicate Initial(s: System) { s == System(map[], []) }

  predicate Legal(lib: Library, s: System, es: seq<Event>)
    decreases es
  {
    es == [] || (Enabled(lib, s, es[0]) && Legal(lib, Step(lib, s, es[0]), es[1..]))
  }

  function After(lib: Library, s: System, es: seq<Event>): System
    requires Legal(lib, s, es)
    decreases es
  {
    if es == [] then s else After(lib, Step(lib, s, es[0]), es[1..])
  }

  /** A hit answers with the code of the key, a miss with what the compiler says. */
  ghost predicate AnswersRight(lib: Library, c: Call) {
    c.phase.Answered? ==>
      if c.phase.hit then WellFormed(lib, c.key) && c.phase.answer == Ok(Lowered(lib, c.key))
      else c.phase.answer == Outcome(lib, c)
  }

  ghost predicate Inv(lib: Library, s: System) {
    Right(lib, s.entries) && forall i :: 0 <= i < |s.calls| ==> AnswersRight(lib, s.calls[i])
  }

  lemma StepKeepsInv(lib: Library, s: System, e: Event)
    requires Inv(lib, s) && Enabled(lib, s, e)
    ensures Inv(lib, Step(lib, s, e))
  {
    if e.Insert? { BudgetIsExact(lib, s.calls[e.call].key, s.calls[e.call].maxOps); }
  }

  lemma {:induction false} RunKeepsInv(lib: Library, s: System, es: seq<Event>)
    requires Inv(lib, s) && Legal(lib, s, es)
    ensures Inv(lib, After(lib, s, es))
    decreases es
  {
    if es != [] {
      StepKeepsInv(lib, s, es[0]);
      RunKeepsInv(lib, Step(lib, s, es[0]), es[1..]);
    }
  }

  /** In every run, whatever the limits, the interleaving and the evictions: an answer is the compiler's if
      and only if the call missed or its key fits the call's own limit. */
  lemma AnswersAreTheCompilersExactly(lib: Library, s: System, es: seq<Event>, i: nat)
    requires Initial(s) && Legal(lib, s, es) && i < |After(lib, s, es).calls|
    requires After(lib, s, es).calls[i].phase.Answered?
    ensures var c := After(lib, s, es).calls[i];
      c.phase.answer == Compiled(lib, c.key, c.maxOps) <==> !c.phase.hit || NodeCount(c.key) <= c.maxOps
  {
    RunKeepsInv(lib, s, es);
    var c := After(lib, s, es).calls[i];
    assert AnswersRight(lib, c);
    BudgetIsExact(lib, c.key, c.maxOps);
  }

  /** All calls use this limit. */
  predicate Under(es: seq<Event>, maxOps: nat) {
    forall i :: 0 <= i < |es| ==> es[i].Begin? ==> es[i].maxOps == maxOps
  }

  ghost predicate FitsLimit(s: System, maxOps: nat) {
    && Within(s.entries, maxOps)
    && forall i :: 0 <= i < |s.calls| ==>
         && s.calls[i].maxOps == maxOps
         && (s.calls[i].phase.Answered? && s.calls[i].phase.hit ==> NodeCount(s.calls[i].key) <= maxOps)
  }

  lemma {:induction false} OneLimitFits(lib: Library, s: System, es: seq<Event>, maxOps: nat)
    requires Inv(lib, s) && FitsLimit(s, maxOps) && Legal(lib, s, es) && Under(es, maxOps)
    ensures FitsLimit(After(lib, s, es), maxOps)
    decreases es
  {
    if es != [] {
      StepKeepsInv(lib, s, es[0]);
      if es[0].Insert? { BudgetIsExact(lib, s.calls[es[0].call].key, maxOps); }
      assert Under(es[1..], maxOps) by {
        assert forall i :: 0 <= i < |es[1..]| ==> es[1..][i] == es[i + 1];
      }
      OneLimitFits(lib, Step(lib, s, es[0]), es[1..], maxOps);
    }
  }

  /** Transparency: while all calls use one limit, in every run every answer is the compiler's, and
      everything stored is what the compiler answers for its key, so no error is ever stored. */
  lemma OneLimitIsTransparent(lib: Library, s: System, es: seq<Event>, maxOps: nat)
    requires Initial(s) && Legal(lib, s, es) && Under(es, maxOps)
    ensures var t := After(lib, s, es);
      && (forall i :: 0 <= i < |t.calls| && t.calls[i].phase.Answered? ==>
            t.calls[i].phase.answer == Compiled(lib, t.calls[i].key, maxOps))
      && forall k :: k in t.entries ==> Compiled(lib, k, maxOps) == Ok(t.entries[k])
  {
    RunKeepsInv(lib, s, es);
    OneLimitFits(lib, s, es, maxOps);
    var t := After(lib, s, es);
    forall i | 0 <= i < |t.calls| && t.calls[i].phase.Answered?
      ensures t.calls[i].phase.answer == Compiled(lib, t.calls[i].key, maxOps)
    {
      assert AnswersRight(lib, t.calls[i]);
      BudgetIsExact(lib, t.calls[i].key, maxOps);
    }
    forall k | k in t.entries
      ensures Compiled(lib, k, maxOps) == Ok(t.entries[k])
    {
      BudgetIsExact(lib, k, maxOps);
    }
  }

  lemma {:induction false} Joined(lib: Library, s: System, es: seq<Event>, more: seq<Event>)
    requires Legal(lib, s, es) && Legal(lib, After(lib, s, es), more)
    ensures Legal(lib, s, es + more) && After(lib, s, es + more) == After(lib, After(lib, s, es), more)
    decreases es
  {
    if es == [] {
      assert es + more == more;
    } else {
      assert (es + more)[1..] == es[1..] + more;
      Joined(lib, Step(lib, s, es[0]), es[1..], more);
    }
  }

  lemma OneMore(lib: Library, s: System, es: seq<Event>, e: Event)
    requires Legal(lib, s, es) && Enabled(lib, After(lib, s, es), e)
    ensures Legal(lib, s, es + [e]) && After(lib, s, es + [e]) == Step(lib, After(lib, s, es), e)
  {
    var t := After(lib, s, es);
    assert [e][1..] == [];
    assert Legal(lib, Step(lib, t, e), []) && After(lib, t, [e]) == After(lib, Step(lib, t, e), []);
    Joined(lib, s, es, [e]);
  }

  /** None of these events is a step of call c. */
  predicate OthersOnly(es: seq<Event>, c: nat) {
    forall i :: 0 <= i < |es| ==> es[i].Begin? || es[i].call != c
  }

  lemma {:induction false} OthersLeaveTheCall(lib: Library, s: System, es: seq<Event>, c: nat)
    requires Legal(lib, s, es) && c < |s.calls| && OthersOnly(es, c)
    ensures c < |After(lib, s, es).calls| && After(lib, s, es).calls[c] == s.calls[c]
    decreases es
  {
    if es != [] {
      assert es[0].Begin? || es[0].call != c;
      assert OthersOnly(es[1..], c) by {
        assert forall i :: 0 <= i < |es[1..]| ==> es[1..][i] == es[i + 1];
      }
      OthersLeaveTheCall(lib, Step(lib, s, es[0]), es[1..], c);
    }
  }

  /** One call from lookup to answer, with any steps of other calls between its sections: what they leave is
      right, and the answer and the new entries are those `GetOrCompile` promises for it. */
  lemma CallIsARun(lib: Library, s: System, key: Op, maxOps: nat, others: seq<Event>, evicted: set<Op>)
    returns (es: seq<Event>)
    requires Inv(lib, s)
    requires var t := Step(lib, Step(lib, s, Begin(key, maxOps)), Look(|s.calls|));
      Legal(lib, t, others) && OthersOnly(others, |s.calls|)
    ensures Legal(lib, s, es) && |s.calls| < |After(lib, s, es).calls|
    ensures var t := Step(lib, Step(lib, s, Begin(key, maxOps)), Look(|s.calls|));
      var meanwhile := After(lib, t, others).entries;
      var u := After(lib, s, es);
      var hit := key in s.entries;
      && Right(lib, meanwhile)
      && |u.calls| == |After(lib, t, others).calls|
      && u.calls[|s.calls|] ==
           Call(key, maxOps, Answered(if hit then Ok(s.entries[key]) else Compiled(lib, key, maxOps), hit))
      && u.entries ==
           if hit || Compiled(lib, key, maxOps).Err? then meanwhile
           else (meanwhile - evicted)[key := Compiled(lib, key, maxOps).value]
  {
    var c := |s.calls|;
    es := [Begin(key, maxOps)];
    OneMore(lib, s, [], es[0]);
    assert [] + es == es;
    StepKeepsInv(lib, s, es[0]);
    OneMore(lib, s, es, Look(c));
    StepKeepsInv(lib, After(lib, s, es), Look(c));
    es := es + [Look(c)];
    var t := After(lib, s, es);
    RunKeepsInv(lib, t, others);
    OthersLeaveTheCall(lib, t, others, c);
    Joined(lib, s, es, others);
    es := es + others;
    if key !in s.entries {
      var last := if Compiled(lib, key, maxOps).Ok? then Insert(c, evicted) else Fail(c);
      OneMore(lib, s, es, last);
      es := es + [last];
    }
  }

  /** A hit ignores a smaller limit: two calls for one key, the second of which should have failed. */
  lemma HitIgnoresTheLimit(lib: Library) returns (es: seq<Event>)
    ensures var s := System(map[], []);
      && Legal(lib, s, es) && |After(lib, s, es).calls| == 2
      && var c := After(lib, s, es).calls[1];
      && c.maxOps == 0 && Compiled(lib, c.key, c.maxOps).Err?
      && c.phase.Answered? && c.phase.answer.Ok?
  {
    var s := System(map[], []);
    var key := StatusCodeCheck(200, Equals);
    BudgetIsExact(lib, key, 1);
    BudgetIsExact(lib, key, 0);
    es := CallIsARun(lib, s, key, 1, [], {});
    var t := After(lib, s, es);
    RunKeepsInv(lib, s, es);
    var more := CallIsARun(lib, t, key, 0, [], {});
    Joined(lib, s, es, more);
    es := es + more;
  }
}
