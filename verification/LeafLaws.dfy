/** What each kind of leaf tests, told from the source leaf and the response without the compiler's and the
    evaluator's own definitions (src/assertions/compiled.rs). */
module LeafLaws {
  import opened Prelude
  import opened Assertions
  import opened Libraries
  import opened Compile
  import opened Evaluate
  import opened Verdicts
  import opened Leaves

  // ---- The orders ----------------------------------------------------------------------------

  /** Doubles are ordered as the reals between the infinities, and NaN is neither below, above nor equal. */
  lemma DoublesAreOrdered(a: Float, b: Float)
    ensures a.Finite? && b.Finite? ==> (FloatLess(a, b) <==> a.value < b.value)
    ensures a.NegInfinity? ==> (FloatLess(a, b) <==> b.Finite? || b.PosInfinity?)
    ensures b.PosInfinity? ==> (FloatLess(a, b) <==> a.Finite? || a.NegInfinity?)
    ensures a.NaN? || b.NaN? ==> !FloatLess(a, b)
    ensures a.PosInfinity? || b.NegInfinity? ==> !FloatLess(a, b)
  {
  }

  /** The strings agree up to position k, and there the first one ends or has the smaller character. */
  predicate PartsAt(a: string, b: string, k: nat) {
    k <= |a| && k < |b| && a[..k] == b[..k] && (k == |a| || a[k] < b[k])
  }

  /** Strings are ordered lexicographically. */
  lemma {:induction false} StringsAreOrdered(a: string, b: string)
    ensures StringLess(a, b) <==> exists k: nat :: PartsAt(a, b, k)
  {
    if a == [] && b != [] {
      assert PartsAt(a, b, 0);
    } else if a != [] && b != [] {
      StringsAreOrdered(a[1..], b[1..]);
      if k: nat :| PartsAt(a, b, k) { PartsBelow(a, b, k); }
      if a[0] < b[0] {
        assert PartsAt(a, b, 0);
      } else if k: nat :| a[0] == b[0] && PartsAt(a[1..], b[1..], k) {
        PartsBelow(a, b, k);
        assert PartsAt(a, b, k + 1);
      }
    }
  }

  lemma PartsBelow(a: string, b: string, k: nat)
    requires a != [] && b != []
    ensures PartsAt(a, b, k) ==> if k == 0 then a[0] < b[0] else a[0] == b[0] && PartsAt(a[1..], b[1..], k - 1)
    ensures a[0] == b[0] && PartsAt(a[1..], b[1..], k) ==> PartsAt(a, b, k + 1)
  {
    if k > 0 && PartsAt(a, b, k) {
      assert a[..k][0] == b[..k][0];
      assert a[1..][..k - 1] == a[..k][1..] && b[1..][..k - 1] == b[..k][1..];
    }
    if a[0] == b[0] && PartsAt(a[1..], b[1..], k) {
      assert a[..k + 1] == [a[0]] + a[1..][..k] && b[..k + 1] == [b[0]] + b[1..][..k];
    }
  }

  // ---- The tests -----------------------------------------------------------------------------

  /** How a value of the response, first, and the value it is tested against are compared. */
  datatype Reading = Doubles(found: Float, test: Float) | Integers(i: int, j: int) | Texts(s: string, t: string)

  predicate IsLess(r: Reading) {
    match r
    case Doubles(a, b) => FloatLess(a, b)
    case Integers(a, b) => a < b
    case Texts(a, b) => StringLess(a, b)
  }

  predicate IsSame(r: Reading) {
    match r
    case Doubles(a, b) => a == b && !a.NaN?
    case Integers(a, b) => a == b
    case Texts(a, b) => a == b
  }

  function Swapped(r: Reading): Reading {
    match r
    case Doubles(a, b) => Doubles(b, a)
    case Integers(a, b) => Integers(b, a)
    case Texts(a, b) => Texts(b, a)
  }

  predicate Answer(cmp: Comparison, r: Reading) {
    match cmp
    case Always => true
    case Never => false
    case LessThan => IsLess(r)
    case GreaterThan => IsLess(Swapped(r))
    case Equals => IsSame(r)
    case NotEqual => !IsSame(r)
  }

  predicate IsEquality(cmp: Comparison) { cmp == Equals || cmp == NotEqual }

  /** A test without a literal to compare with: no operand equals nothing, and a glob is only matched. */
  function WithoutLiteral(lib: Library, cmp: Comparison, o: Operand, text: string): Costed<bool>
    requires !o.Literal?
  {
    if o.Glob? && lib.buildGlob(o.pattern).Ok? && IsEquality(cmp) then
      Costed(5, Ok(lib.matchGlob(lib.buildGlob(o.pattern).value, text) == (cmp == Equals)))
    else Free(o.NoOperand? && cmp == NotEqual)
  }

  /** A header's name or value against an operand: what the literal reads as decides how to read the header. */
  function HeaderTextTest(lib: Library, cmp: Comparison, o: Operand, text: string): Costed<bool> {
    if cmp == Always || cmp == Never then Free(cmp == Always)
    else if !o.Literal? then WithoutLiteral(lib, cmp, o, text)
    else if lib.parseF64(o.value).Ok? then
      match lib.parseF64(text)
      case Ok(a) => Costed(1, Ok(Answer(cmp, Doubles(a, lib.parseF64(o.value).value))))
      case Err(e) => Costed(0, Err(InvalidTypeComparison([], e)))
    else if lib.parseI64(o.value).Ok? then
      match lib.parseI64(text)
      case Ok(a) => Costed(1, Ok(Answer(cmp, Integers(a, lib.parseI64(o.value).value))))
      case Err(e) => Costed(0, Err(InvalidTypeComparison([], e)))
    else Costed(1, Ok(Answer(cmp, Texts(text, o.value))))
  }

  /** One header against the leaf: the key operand tests its name and the value operand its value. */
  function HeaderLeafTest(lib: Library, op: Op, h: Header): Costed<bool>
    requires op.HeaderCheck?
  {
    var name := HeaderTextTest(lib, op.keyOp, op.keyOperand, h.name);
    if name.res != Ok(true) then name
    else if h.value.None? then Costed(name.cost, Ok(false))
    else
      var value := HeaderTextTest(lib, op.valueOp, op.valueOperand, h.value.value);
      Costed(name.cost + value.cost, value.res)
  }

  /** A JSON value against the leaf's operand. */
  function JsonLeafTest(lib: Library, op: Op, v: Json): Costed<bool>
    requires op.JsonPath?
  {
    var cmp, o := op.operator, op.jsonOperand;
    if cmp == Always || cmp == Never then Free(cmp == Always)
    else if o.Glob? && IsEquality(cmp) && v.asStr.None? then Costed(5, Err(TookTooLong([])))
    else if !o.Literal? then WithoutLiteral(lib, cmp, o, if v.asStr.Some? then v.asStr.value else "")
    else if v.asF64.Some? && lib.parseF64(o.value).Ok? then
      Costed(1, Ok(Answer(cmp, Doubles(v.asF64.value, lib.parseF64(o.value).value))))
    else if v.asI64.Some? && lib.parseI64(o.value).Ok? then
      Costed(1, Ok(Answer(cmp, Integers(v.asI64.value, lib.parseI64(o.value).value))))
    else if v.asStr.Some? then Costed(1, Ok(Answer(cmp, Texts(v.asStr.value, o.value))))
    else Costed(0, Err(InvalidTypeComparison([], CoercionMessage(v, o.value))))
  }

  // ---- The leaves ----------------------------------------------------------------------------

  /** Compiled as a tree of its own and evaluated under any gas, the leaf takes m's gas and has m's outcome;
      the errors that carry a path carry that of the root. */
  ghost predicate EvaluatesTo(env: Env, op: Op, maxOps: nat, m: Costed<bool>) {
    && Compiled(env.lib, op, maxOps).Ok?
    && forall gas: nat :: Evaluated(env, Compiled(env.lib, op, maxOps).value, gas) ==
         if gas < m.cost then Err(TookTooLong([]))
         else match m.res
           case Ok(b) => Ok(EvalResult(Leaf, b))
           case Err(InvalidTypeComparison(_, msg)) => Err(InvalidTypeComparison([0], msg))
           case Err(InvalidJsonPath(_, msg)) => Err(RuntimeError.InvalidJsonPath([0], msg))
           case Err(e) => Err(e)
  }

  lemma LeafEvaluatesToItsOutcome(env: Env, op: Op, maxOps: nat)
    requires IsLeaf(op) && Compiled(env.lib, op, maxOps).Ok?
    ensures WellFormed(env.lib, op) && EvaluatesTo(env, op, maxOps, LeafOutcome(env, op))
  {
    BudgetIsExact(env.lib, op, maxOps);
    assert [0] + [] == [0];
  }

  /** A status leaf takes one unit and compares the response's status with the value. */
  lemma StatusLeaf(env: Env, value: nat, maxOps: nat)
    requires maxOps >= 1
    ensures EvaluatesTo(env, StatusCodeCheck(value, LessThan), maxOps, Costed(1, Ok(env.resp.status < value)))
    ensures EvaluatesTo(env, StatusCodeCheck(value, GreaterThan), maxOps, Costed(1, Ok(env.resp.status > value)))
    ensures EvaluatesTo(env, StatusCodeCheck(value, Equals), maxOps, Costed(1, Ok(env.resp.status == value)))
    ensures EvaluatesTo(env, StatusCodeCheck(value, NotEqual), maxOps, Costed(1, Ok(env.resp.status != value)))
    ensures EvaluatesTo(env, StatusCodeCheck(value, Always), maxOps, Costed(1, Ok(true)))
    ensures EvaluatesTo(env, StatusCodeCheck(value, Never), maxOps, Costed(1, Ok(false)))
  {
    forall cmp: Comparison
      ensures var op := StatusCodeCheck(value, cmp);
        WellFormed(env.lib, op) && EvaluatesTo(env, op, maxOps, LeafOutcome(env, op))
    {
      BudgetIsExact(env.lib, StatusCodeCheck(value, cmp), maxOps);
      LeafEvaluatesToItsOutcome(env, StatusCodeCheck(value, cmp), maxOps);
    }
  }

  lemma HeaderTextTestIsRight(lib: Library, cmp: Comparison, o: Operand, text: string)
    requires LowerHeader(lib, o).Ok?
    ensures TestHeader(lib, LowerHeader(lib, o).value, cmp, text) == HeaderTextTest(lib, cmp, o, text)
  {
  }

  lemma HeaderLeafTestIsRight(lib: Library, op: Op, h: Header)
    requires op.HeaderCheck? && LowerLeaf(lib, op).Ok?
    ensures HeaderTest(lib, LowerLeaf(lib, op).value, h) == HeaderLeafTest(lib, op, h)
  {
    HeaderTextTestIsRight(lib, op.keyOp, op.keyOperand, h.name);
    if h.value.Some? { HeaderTextTestIsRight(lib, op.valueOp, op.valueOperand, h.value.value); }
  }

  function HeaderLeafTests(env: Env, op: Op): seq<Costed<bool>>
    requires op.HeaderCheck?
  {
    seq(|env.resp.headers|, j requires 0 <= j < |env.resp.headers| => HeaderLeafTest(env.lib, op, env.resp.headers[j]))
  }

  /** A header leaf has the outcome of the first header that passes or errs, and is false if there is none;
      so it is true if and only if some header passes with none before it erring. */
  lemma HeaderLeaf(env: Env, op: Op, maxOps: nat) returns (k: nat, m: Costed<bool>)
    requires op.HeaderCheck? && Compiled(env.lib, op, maxOps).Ok?
    ensures EvaluatesTo(env, op, maxOps, m) && SettledAt(HeaderLeafTests(env, op), false, k, m)
    ensures m.res == Ok(true) <==> exists j: nat :: PassesUnhindered(HeaderLeafTests(env, op), j)
  {
    LeafEvaluatesToItsOutcome(env, op, maxOps);
    m := LeafOutcome(env, op);
    var c := Lowered(env.lib, op);
    k := HeaderVerdictIsExists(env.lib, c, env.resp.headers);
    forall j | 0 <= j < |env.resp.headers|
      ensures HeaderTests(env.lib, c, env.resp.headers)[j] == HeaderLeafTests(env, op)[j]
    {
      HeaderLeafTestIsRight(env.lib, op, env.resp.headers[j]);
    }
    assert HeaderTests(env.lib, c, env.resp.headers) == HeaderLeafTests(env, op);
  }

  lemma JsonLeafTestIsRight(lib: Library, op: Op, v: Json)
    requires op.JsonPath? && LowerLeaf(lib, op).Ok?
    ensures TestJson(lib, LowerLeaf(lib, op).value.jsonOperand, op.operator, v) == JsonLeafTest(lib, op, v)
  {
  }

  function JsonLeafTests(lib: Library, op: Op, vs: seq<Json>): seq<Costed<bool>>
    requires op.JsonPath?
  {
    seq(|vs|, j requires 0 <= j < |vs| => JsonLeafTest(lib, op, vs[j]))
  }

  /** A JSONPath leaf fails with the body or the query; it is false when the query finds nothing; otherwise it
      has the outcome of the first value that does not pass, and is true if all pass. */
  lemma JsonLeaf(env: Env, op: Op, maxOps: nat) returns (k: nat, m: Costed<bool>)
    requires op.JsonPath? && Compiled(env.lib, op, maxOps).Ok?
    ensures EvaluatesTo(env, op, maxOps, m)
    ensures env.lib.parseJsonPath(op.query).Ok?
    ensures match env.lib.parseJson(env.resp.body)
      case Err(e) => m == Costed(0, Err(InvalidJsonBody(e)))
      case Ok(json) =>
        var run := env.lib.runQuery(env.lib.parseJsonPath(op.query).value, json);
        match run.found
        case Err(msg) => m == Costed(run.cost, Err(RuntimeError.InvalidJsonPath([], msg)))
        case Ok(vs) =>
          if vs == [] then m == Costed(run.cost, Ok(false))
          else m.cost >= run.cost
               && SettledAt(JsonLeafTests(env.lib, op, vs), true, k, Costed(m.cost - run.cost, m.res))
  {
    LeafEvaluatesToItsOutcome(env, op, maxOps);
    m := LeafOutcome(env, op);
    k := 0;
    var c := Lowered(env.lib, op);
    var json := env.lib.parseJson(env.resp.body);
    if json.Ok? {
      var run := env.lib.runQuery(env.lib.parseJsonPath(op.query).value, json.value);
      if run.found.Ok? && run.found.value != [] {
        var vs := run.found.value;
        k := JsonVerdictIsForAll(env.lib, c.jsonOperand, op.operator, vs);
        forall j | 0 <= j < |vs|
          ensures ValueTests(env.lib, c.jsonOperand, op.operator, vs)[j] == JsonLeafTests(env.lib, op, vs)[j]
        {
          JsonLeafTestIsRight(env.lib, op, vs[j]);
        }
        assert ValueTests(env.lib, c.jsonOperand, op.operator, vs) == JsonLeafTests(env.lib, op, vs);
      }
    }
  }

  // ---- Leaves that do not compile ------------------------------------------------------------

  predicate BadGlobIn(lib: Library, o: Operand) { o.Glob? && lib.buildGlob(o.pattern).Err? }

  /** With an operation to spend, a leaf fails to compile if and only if its query does not parse or a glob of
      its does not build; the query comes first, then a header's key, then its value. */
  lemma LeafCompilesExactly(lib: Library, op: Op, maxOps: nat)
    requires IsLeaf(op)
    ensures maxOps == 0 ==> Compiled(lib, op, maxOps) == Err(TooManyOperations([0]))
    ensures maxOps >= 1 ==>
      match op
      case StatusCodeCheck(_, _) => Compiled(lib, op, maxOps).Ok?
      case HeaderCheck(_, key, _, value) =>
        if BadGlobIn(lib, key) then
          var e := lib.buildGlob(key.pattern).error; Compiled(lib, op, maxOps) == Err(InvalidGlob([0], e, e))
        else if BadGlobIn(lib, value) then
          var e := lib.buildGlob(value.pattern).error; Compiled(lib, op, maxOps) == Err(InvalidGlob([0], e, e))
        else Compiled(lib, op, maxOps).Ok?
      case JsonPath(query, _, o) =>
        match lib.parseJsonPath(query)
        case Err(PestError(msg, line, pos)) => Compiled(lib, op, maxOps) == Err(JsonPathParser([0], msg, line, pos))
        case Err(BadGlob(glob, reason)) => Compiled(lib, op, maxOps) == Err(InvalidGlob([0], glob, reason))
        case Err(OtherJsonPathError(msg)) =>
          Compiled(lib, op, maxOps) == Err(CompilationError.InvalidJsonPath([0], msg))
        case Ok(_) =>
          if BadGlobIn(lib, o) then
            var e := lib.buildGlob(o.pattern).error; Compiled(lib, op, maxOps) == Err(InvalidGlob([0], e, e))
          else Compiled(lib, op, maxOps).Ok?
  {
    assert Preorder(op, [0]) == [Site([0], op)];
    assert [Site([0], op)][1..] == [];
    if maxOps >= 1 { assert FirstFault(lib, [], maxOps - 1).None?; }
  }
}
