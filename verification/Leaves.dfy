/** What the verdicts of JSONPath and header leaves say about the values and headers they go through
    (src/assertions/compiled.rs). */
module Leaves {
  import opened Prelude
  import opened Libraries
  import opened Assertions
  import opened Compile
  import opened Evaluate

  /** Results taken in order from position i on, as long as they are `on`. */
  function Settle(rs: seq<Costed<bool>>, on: bool, i: nat): Costed<bool>
    requires i <= |rs|
    decreases |rs| - i
  {
    if i == |rs| then Free(on)
    else if rs[i].res == Ok(on) then Settle(rs, on, i + 1).Plus(rs[i].cost)
    else rs[i]
  }

  /** Gas of the first n results. */
  function Spent(rs: seq<Costed<bool>>, n: nat): nat
    requires n <= |rs|
  {
    if n == 0 then 0 else Spent(rs, n - 1) + rs[n - 1].cost
  }

  /** `m` is the first result that is not `on`, which is rs[k], or `on` if there is none and k is the end;
      its gas is that of all results up to it. */
  ghost predicate SettledAt(rs: seq<Costed<bool>>, on: bool, k: nat, m: Costed<bool>) {
    && k <= |rs|
    && (forall j :: 0 <= j < k ==> rs[j].res == Ok(on))
    && (k < |rs| ==> rs[k].res != Ok(on) && m.res == rs[k].res && m.cost == Spent(rs, k + 1))
    && (k == |rs| ==> m == Costed(Spent(rs, k), Ok(on)))
  }

  lemma {:induction false} SettleEnds(rs: seq<Costed<bool>>, on: bool, i: nat) returns (k: nat)
    requires i <= |rs| && forall j :: 0 <= j < i ==> rs[j].res == Ok(on)
    ensures SettledAt(rs, on, k, Settle(rs, on, i).Plus(Spent(rs, i)))
    decreases |rs| - i
  {
    if i < |rs| && rs[i].res == Ok(on) {
      k := SettleEnds(rs, on, i + 1);
    } else {
      k := i;
    }
  }

  /** `scan` goes on after result i if that is `on`, and otherwise stops with it. */
  ghost predicate SettlesStep(rs: seq<Costed<bool>>, on: bool, scan: nat -> Costed<bool>, i: nat)
    requires i < |rs|
  {
    scan(i) == if rs[i].res == Ok(on) then scan(i + 1).Plus(rs[i].cost) else rs[i]
  }

  lemma {:induction false} SettlesByRecursion(rs: seq<Costed<bool>>, on: bool, scan: nat -> Costed<bool>, i: nat)
    requires i <= |rs| && scan(|rs|) == Free(on)
    requires forall j :: 0 <= j < |rs| ==> SettlesStep(rs, on, scan, j)
    ensures scan(i) == Settle(rs, on, i)
    decreases |rs| - i
  {
    if i < |rs| {
      assert SettlesStep(rs, on, scan, i);
      SettlesByRecursion(rs, on, scan, i + 1);
    }
  }

  function ValueTests(lib: Library, operand: JsonOperand, cmp: Comparison, vs: seq<Json>): seq<Costed<bool>> {
    seq(|vs|, j requires 0 <= j < |vs| => TestJson(lib, operand, cmp, vs[j]))
  }

  lemma {:induction false} AllPassSettles(lib: Library, operand: JsonOperand, cmp: Comparison, vs: seq<Json>, i: nat)
    requires i <= |vs|
    ensures AllPass(lib, operand, cmp, vs, i) == Settle(ValueTests(lib, operand, cmp, vs), true, i)
    decreases |vs| - i
  {
    if i < |vs| { AllPassSettles(lib, operand, cmp, vs, i + 1); }
  }

  /** The verdict on the values a query finds is true if and only if there is a value and all values pass.
      Otherwise it is that of the first value that does not pass, if there is any, and the gas is that of
      the values up to it. */
  lemma JsonVerdictIsForAll(lib: Library, operand: JsonOperand, cmp: Comparison, vs: seq<Json>) returns (k: nat)
    ensures var m := JsonVerdict(lib, operand, cmp, vs);
      && (m.res == Ok(true) <==>
            vs != [] && forall j :: 0 <= j < |vs| ==> TestJson(lib, operand, cmp, vs[j]).res == Ok(true))
      && (vs == [] ==> m == Free(false))
      && (vs != [] ==> SettledAt(ValueTests(lib, operand, cmp, vs), true, k, m))
  {
    var tests := ValueTests(lib, operand, cmp, vs);
    AllPassSettles(lib, operand, cmp, vs, 0);
    k := SettleEnds(tests, true, 0);
    assert forall j :: 0 <= j < |vs| ==> tests[j] == TestJson(lib, operand, cmp, vs[j]);
  }

  /** One header: its key, and if that passes and the value is readable, its value. */
  function HeaderTest(lib: Library, c: Code, h: Header): Costed<bool>
    requires c.CHeader?
  {
    var k := TestHeader(lib, c.keyOperand, c.keyOp, h.name);
    if k.res != Ok(true) then k
    else if h.value.None? then Costed(k.cost, Ok(false))
    else TestHeader(lib, c.valueOperand, c.valueOp, h.value.value).Plus(k.cost)
  }

  function HeaderTests(lib: Library, c: Code, hs: seq<Header>): seq<Costed<bool>>
    requires c.CHeader?
  {
    seq(|hs|, j requires 0 <= j < |hs| => HeaderTest(lib, c, hs[j]))
  }

  /** The scan is settled by header i, or goes on after it. */
  lemma AnyHeaderStep(lib: Library, c: Code, hs: seq<Header>, i: nat)
    requires c.CHeader? && i < |hs|
    ensures AnyHeader(lib, c, hs, i) ==
            if HeaderTest(lib, c, hs[i]).res == Ok(false)
            then AnyHeader(lib, c, hs, i + 1).Plus(HeaderTest(lib, c, hs[i]).cost)
            else HeaderTest(lib, c, hs[i])
  {
  }

  lemma AnyHeaderSettles(lib: Library, c: Code, hs: seq<Header>, i: nat)
    requires c.CHeader? && i <= |hs|
    ensures AnyHeader(lib, c, hs, i) == Settle(HeaderTests(lib, c, hs), false, i)
  {
    var scan := (j: nat) => if j <= |hs| then AnyHeader(lib, c, hs, j) else Free(false);
    forall j | 0 <= j < |hs|
      ensures SettlesStep(HeaderTests(lib, c, hs), false, scan, j)
    {
      AnyHeaderStep(lib, c, hs, j);
    }
    SettlesByRecursion(HeaderTests(lib, c, hs), false, scan, i);
  }

  /** Result j is true, and none before it is an error. */
  ghost predicate PassesUnhindered(rs: seq<Costed<bool>>, j: nat) {
    j < |rs| && rs[j].res == Ok(true) && forall l :: 0 <= l < j ==> rs[l].res.Ok?
  }

  lemma PassesExactly(rs: seq<Costed<bool>>, k: nat, m: Costed<bool>)
    requires SettledAt(rs, false, k, m)
    ensures m.res == Ok(true) <==> exists j: nat :: PassesUnhindered(rs, j)
    ensures m.res == Ok(false) <==> forall j :: 0 <= j < |rs| ==> rs[j].res == Ok(false)
  {
    if m.res == Ok(true) { assert PassesUnhindered(rs, k); }
    forall j: nat | PassesUnhindered(rs, j)
      ensures m.res == Ok(true)
    {
      assert k <= j && m.res.Ok? && m.res.value;
    }
  }

  /** The verdict on the headers is that of the first header that passes or errs, so it is true if and only
      if some header passes with none before it erring, and false if and only if none passes or errs. The
      gas is that of the headers up to it. */
  lemma HeaderVerdictIsExists(lib: Library, c: Code, hs: seq<Header>) returns (k: nat)
    requires c.CHeader?
    ensures var m := AnyHeader(lib, c, hs, 0);
      var tests := HeaderTests(lib, c, hs);
      && (m.res == Ok(true) <==> exists j: nat :: PassesUnhindered(tests, j))
      && (m.res == Ok(false) <==> forall j :: 0 <= j < |tests| ==> tests[j].res == Ok(false))
      && SettledAt(tests, false, k, m)
  {
    AnyHeaderSettles(lib, c, hs, 0);
    k := SettleEnds(HeaderTests(lib, c, hs), false, 0);
    PassesExactly(HeaderTests(lib, c, hs), k, AnyHeader(lib, c, hs, 0));
  }

  // ---- Leaves that report that they took too long --------------------------------------------

  predicate TookTooLongRes(r: Result<bool, RuntimeError>) { r == Err(TookTooLong([])) }

  /** Values found by a query, against a glob: one before position k is a string that passes, and the one
      at k is no string. */
  predicate TripsAt(lib: Library, p: Pattern, cmp: Comparison, vs: seq<Json>, k: nat) {
    && k < |vs| && vs[k].asStr.None?
    && forall j :: 0 <= j < k ==> vs[j].asStr.Some? && lib.matchGlob(p, vs[j].asStr.value) == (cmp == Equals)
  }

  /** The leaf compares with a glob for equality or inequality, the body parses, the query finds values,
      and the first of them that does not pass is no string. */
  ghost predicate Trips(env: Env, c: Code) {
    && c.CJson? && c.jsonOperand.JsonGlob? && (c.operator == Equals || c.operator == NotEqual)
    && env.lib.parseJson(env.resp.body).Ok?
    && var found := env.lib.runQuery(c.query, env.lib.parseJson(env.resp.body).value).found;
    && found.Ok?
    && exists k: nat :: TripsAt(env.lib, c.jsonOperand.pattern, c.operator, found.value, k)
  }

  lemma HeadersNeverTrip(lib: Library, c: Code, hs: seq<Header>)
    requires c.CHeader?
    ensures !TookTooLongRes(AnyHeader(lib, c, hs, 0).res)
  {
    var k := HeaderVerdictIsExists(lib, c, hs);
    if k < |hs| { assert HeaderTests(lib, c, hs)[k] == HeaderTest(lib, c, hs[k]); }
  }

  /** What one value does to a test that can trip, and that no other test does. */
  lemma ValueTest(lib: Library, operand: JsonOperand, cmp: Comparison, v: Json)
    ensures operand.JsonGlob? && (cmp == Equals || cmp == NotEqual) ==>
      TestJson(lib, operand, cmp, v).res ==
        if v.asStr.None? then Err(TookTooLong([]))
        else Ok(lib.matchGlob(operand.pattern, v.asStr.value) == (cmp == Equals))
    ensures TookTooLongRes(TestJson(lib, operand, cmp, v).res) ==>
      operand.JsonGlob? && (cmp == Equals || cmp == NotEqual)
  {
  }

  lemma ValuesTripExactly(lib: Library, operand: JsonOperand, cmp: Comparison, vs: seq<Json>)
    ensures TookTooLongRes(JsonVerdict(lib, operand, cmp, vs).res) <==>
            operand.JsonGlob? && (cmp == Equals || cmp == NotEqual)
            && exists k: nat :: TripsAt(lib, operand.pattern, cmp, vs, k)
  {
    var k := JsonVerdictIsForAll(lib, operand, cmp, vs);
    var tests := ValueTests(lib, operand, cmp, vs);
    forall j | 0 <= j < |vs|
      ensures tests[j] == TestJson(lib, operand, cmp, vs[j])
      ensures operand.JsonGlob? && (cmp == Equals || cmp == NotEqual) ==>
        tests[j].res == if vs[j].asStr.None? then Err(TookTooLong([]))
                        else Ok(lib.matchGlob(operand.pattern, vs[j].asStr.value) == (cmp == Equals))
      ensures TookTooLongRes(tests[j].res) ==> operand.JsonGlob? && (cmp == Equals || cmp == NotEqual)
    {
      ValueTest(lib, operand, cmp, vs[j]);
    }
    if TookTooLongRes(JsonVerdict(lib, operand, cmp, vs).res) {
      assert TripsAt(lib, operand.pattern, cmp, vs, k);
    }
    if operand.JsonGlob? && (cmp == Equals || cmp == NotEqual) {
      if m: nat :| TripsAt(lib, operand.pattern, cmp, vs, m) {
        assert tests[m].res == Err(TookTooLong([]));
        assert k == m;
      }
    }
  }

  /** Whatever the gas, a leaf reports `TookTooLong` if and only if it trips over a value that is no string. */
  lemma LeafTripsExactly(env: Env, c: Code)
    requires IsLeafCode(c)
    ensures LeafMeaning(env, c).res == Err(TookTooLong([])) <==> Trips(env, c)
  {
    match c
    case CStatus(_, _) =>
    case CHeader(_, _, _, _) => HeadersNeverTrip(env.lib, c, env.resp.headers);
    case CJson(q, cmp, operand) =>
      var json := env.lib.parseJson(env.resp.body);
      if json.Ok? {
        var found := env.lib.runQuery(q, json.value).found;
        if found.Ok? { ValuesTripExactly(env.lib, operand, cmp, found.value); }
      }
  }
}
