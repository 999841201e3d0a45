/** Evaluation of compiled assertions under a gas budget (src/assertions/compiled.rs). */
module Evaluate {
  import opened Prelude
  import opened Assertions
  import opened Libraries
  import opened Compile

  datatype RuntimeError =
    | InvalidJsonPath(assertPath: seq<nat>, msg: string)
    | TookTooLong(assertPath: seq<nat>)
    | InvalidJsonBody(body: string)
    | InvalidTypeComparison(assertPath: seq<nat>, msg: string)
  {
    /** Fills the path in for two of the kinds only: `TookTooLong` keeps the empty one. */
    function SetPath(path: seq<nat>): RuntimeError {
      match this
      case InvalidJsonPath(_, msg) => RuntimeError.InvalidJsonPath(path, msg)
      case InvalidTypeComparison(_, msg) => InvalidTypeComparison(path, msg)
      case _ => this
    }
  }

  /** Which part of a tree decided its verdict. */
  datatype EvalPath = Leaf | AllChildren | ChildIndex(index: nat, child: EvalPath)

  datatype EvalResult = EvalResult(reason: EvalPath, result: bool)

  datatype Env = Env(lib: Library, resp: Response)

  // ---- Meaning without a gas limit -----------------------------------------------------------

  /** An outcome and the gas it takes to reach it. */
  datatype Costed<+T> = Costed(cost: nat, res: Result<T, RuntimeError>) {
    function Plus(more: nat): Costed<T> { this.(cost := cost + more) }
  }

  function Free<T>(v: T): Costed<T> { Costed(0, Ok(v)) }

  function Negate(m: Costed<bool>): Costed<bool> {
    if m.res.Ok? then Costed(m.cost, Ok(!m.res.value)) else m
  }

  function CoercionMessage(v: Json, test: string): string {
    "could not coerce a comparison between " + v.text + " and " + test
  }

  /** A JSON value against a literal: as doubles, else as integers, else as strings, else not at all. */
  function CompareJson(lib: Library, o: Order, v: Json, test: string): Costed<bool> {
    if v.asF64.Some? && lib.parseF64(test).Ok? then
      Costed(1, Ok(HoldsFloat(o, v.asF64.value, lib.parseF64(test).value)))
    else if v.asI64.Some? && lib.parseI64(test).Ok? then
      Costed(1, Ok(HoldsInt(o, v.asI64.value, lib.parseI64(test).value)))
    else if v.asStr.Some? then
      Costed(1, Ok(HoldsString(o, v.asStr.value, test)))
    else
      Costed(0, Err(InvalidTypeComparison([], CoercionMessage(v, test))))
  }

  /** A glob costs 5 and only means something for equality; a non-string value then "took too long". */
  function CompareJsonOperand(lib: Library, o: Order, operand: JsonOperand, v: Json): Costed<bool> {
    match operand
    case NoJson => Free(false)
    case JsonLiteral(test) => CompareJson(lib, o, v, test)
    case JsonGlob(p) =>
      if o != Same then Free(false)
      else if v.asStr.Some? then Costed(5, Ok(lib.matchGlob(p, v.asStr.value)))
      else Costed(5, Err(TookTooLong([])))
  }

  function CompareHeader(lib: Library, o: Order, operand: HeaderOperand, h: string): Costed<bool> {
    match operand
    case NoHeader => Free(false)
    case HeaderLiteral(I64(i)) => (
      match lib.parseI64(h)
      case Ok(x) => Costed(1, Ok(HoldsInt(o, x, i)))
      case Err(e) => Costed(0, Err(InvalidTypeComparison([], e))))
    case HeaderLiteral(F64(f)) => (
      match lib.parseF64(h)
      case Ok(x) => Costed(1, Ok(HoldsFloat(o, x, f)))
      case Err(e) => Costed(0, Err(InvalidTypeComparison([], e))))
    case HeaderLiteral(Text(t)) => Costed(1, Ok(HoldsString(o, h, t)))
    case HeaderGlob(p) => if o == Same then Costed(5, Ok(lib.matchGlob(p, h))) else Free(false)
  }

  function TestJson(lib: Library, operand: JsonOperand, cmp: Comparison, v: Json): Costed<bool> {
    match cmp
    case Always => Free(true)
    case Never => Free(false)
    case LessThan => CompareJsonOperand(lib, Less, operand, v)
    case GreaterThan => CompareJsonOperand(lib, Greater, operand, v)
    case Equals => CompareJsonOperand(lib, Same, operand, v)
    case NotEqual => Negate(CompareJsonOperand(lib, Same, operand, v))
  }

  function TestHeader(lib: Library, operand: HeaderOperand, cmp: Comparison, h: string): Costed<bool> {
    match cmp
    case Always => Free(true)
    case Never => Free(false)
    case LessThan => CompareHeader(lib, Less, operand, h)
    case GreaterThan => CompareHeader(lib, Greater, operand, h)
    case Equals => CompareHeader(lib, Same, operand, h)
    case NotEqual => Negate(CompareHeader(lib, Same, operand, h))
  }

  /** Do the values from position i on all pass? The first that does not settles it. */
  function AllPass(lib: Library, operand: JsonOperand, cmp: Comparison, vs: seq<Json>, i: nat): Costed<bool>
    requires i <= |vs|
    decreases |vs| - i
  {
    if i == |vs| then Free(true)
    else
      var m := TestJson(lib, operand, cmp, vs[i]);
      if m.res == Ok(true) then AllPass(lib, operand, cmp, vs, i + 1).Plus(m.cost) else m
  }

  /** An empty query result fails every comparison, `Always` included. */
  function JsonVerdict(lib: Library, operand: JsonOperand, cmp: Comparison, vs: seq<Json>): Costed<bool> {
    if vs == [] then Free(false) else AllPass(lib, operand, cmp, vs, 0)
  }

  /** Is there a header from position i on whose key and then value pass? */
  function AnyHeader(lib: Library, c: Code, hs: seq<Header>, i: nat): Costed<bool>
    requires c.CHeader? && i <= |hs|
    decreases |hs| - i
  {
    if i == |hs| then Free(false)
    else
      var k := TestHeader(lib, c.keyOperand, c.keyOp, hs[i].name);
      if k.res.Err? then k
      else if !k.res.value || hs[i].value.None? then AnyHeader(lib, c, hs, i + 1).Plus(k.cost)
      else
        var v := TestHeader(lib, c.valueOperand, c.valueOp, hs[i].value.value);
        if v.res == Ok(false) then AnyHeader(lib, c, hs, i + 1).Plus(k.cost + v.cost)
        else v.Plus(k.cost)
  }

  predicate StatusHolds(cmp: Comparison, status: nat, value: nat) {
    match cmp
    case Always => true
    case Never => false
    case LessThan => status < value
    case GreaterThan => status > value
    case Equals => value == status
    case NotEqual => value != status
  }

  predicate IsLeafCode(c: Code) { c.CStatus? || c.CJson? || c.CHeader? }

  function LeafMeaning(env: Env, c: Code): Costed<bool>
    requires IsLeafCode(c)
  {
    match c
    case CStatus(v, cmp) => Costed(1, Ok(StatusHolds(cmp, env.resp.status, v)))
    case CHeader(_, _, _, _) => AnyHeader(env.lib, c, env.resp.headers, 0)
    case CJson(q, cmp, operand) =>
      match env.lib.parseJson(env.resp.body)
      case Err(e) => Costed(0, Err(InvalidJsonBody(e)))
      case Ok(json) =>
        var run := env.lib.runQuery(q, json);
        match run.found
        case Err(msg) => Costed(run.cost, Err(RuntimeError.InvalidJsonPath([], msg)))
        case Ok(vs) => JsonVerdict(env.lib, operand, cmp, vs).Plus(run.cost)
  }

  /** The gas-free outcome of a tree, the gas it takes, and on an error the path (relative to
      this tree) of the leaf that failed. */
  datatype Outcome = Outcome(cost: nat, res: Result<EvalResult, RuntimeError>, at: seq<nat>)

  function Meaning(env: Env, c: Code): Outcome
    decreases c
  {
    match c
    case CAnd(cs) => Scan(env, cs, 0, false)
    case COr(cs) => Scan(env, cs, 0, true)
    case CNot(o) => (
      var m := Meaning(env, o);
      match m.res
      case Err(e) => Outcome(m.cost, Err(e), [0] + m.at)
      case Ok(v) => Outcome(m.cost, Ok(EvalResult(ChildIndex(0, v.reason), !v.result)), []))
    case _ =>
      var m := LeafMeaning(env, c);
      match m.res
      case Err(e) => Outcome(m.cost, Err(e), [])
      case Ok(b) => Outcome(m.cost, Ok(EvalResult(Leaf, b)), [])
  }

  /** Children from position i on, left to right, until one evaluates to `stop`. */
  function Scan(env: Env, cs: seq<Code>, i: nat, stop: bool): Outcome
    requires i <= |cs|
    decreases cs, |cs| - i
  {
    if i == |cs| then Outcome(0, Ok(EvalResult(AllChildren, !stop)), [])
    else
      var m := Meaning(env, cs[i]);
      match m.res
      case Err(e) => Outcome(m.cost, Err(e), [i] + m.at)
      case Ok(v) =>
        if v.result == stop then Outcome(m.cost, Ok(EvalResult(ChildIndex(i, v.reason), stop)), [])
        else var rest := Scan(env, cs, i + 1, stop); rest.(cost := rest.cost + m.cost)
  }

  /** What `Assertion::eval` returns: the gas-free outcome if the gas suffices, else `TookTooLong`. */
  function Evaluated(env: Env, c: Code, gas: nat): Result<EvalResult, RuntimeError> {
    var m := Meaning(env, c);
    if gas < m.cost then Err(TookTooLong([]))
    else match m.res
      case Ok(v) => Ok(v)
      case Err(e) => Err(e.SetPath([0] + m.at))
  }

  // ---- The evaluator itself ------------------------------------------------------------------

  /** With `before` gas the outcome is the gas-free one, and its cost is paid, if `before` covers
      the cost; otherwise it is `TookTooLong`. */
  ghost predicate Metered<T>(before: nat, after: nat, r: Result<T, RuntimeError>, m: Costed<T>) {
    if m.cost <= before then r == m.res && (r.Ok? ==> after == before - m.cost)
    else r == Err(TookTooLong([]))
  }

  class Gas {
    var left: nat

    constructor (amount: nat)
      ensures left == amount
    {
      left := amount;
    }

    /** Refuses what it cannot cover, so the unsigned counter cannot wrap. */
    method Consume(amount: nat) returns (r: Result<(), RuntimeError>)
      modifies this
      ensures Metered(old(left), left, r, Costed(amount, Ok(())))
    {
      if amount > left { return Err(TookTooLong([])); }
      left := left - amount;
      return Ok(());
    }
  }

  method PayFor<T>(gas: Gas, amount: nat, res: Result<T, RuntimeError>) returns (r: Result<T, RuntimeError>)
    modifies gas
    ensures Metered(old(gas.left), gas.left, r, Costed(amount, res))
  {
    var paid := gas.Consume(amount);
    if paid.Err? { return Err(paid.error); }
    return res;
  }

  method CmpCoerceJson(lib: Library, o: Order, v: Json, test: string, gas: Gas) returns (r: Result<bool, RuntimeError>)
    modifies gas
    ensures Metered(old(gas.left), gas.left, r, CompareJson(lib, o, v, test))
  {
    if v.asF64.Some? {
      var tv := lib.parseF64(test);
      if tv.Ok? {
        r := PayFor(gas, 1, Ok(HoldsFloat(o, v.asF64.value, tv.value)));
        return;
      }
    }
    if v.asI64.Some? {
      var tv := lib.parseI64(test);
      if tv.Ok? {
        r := PayFor(gas, 1, Ok(HoldsInt(o, v.asI64.value, tv.value)));
        return;
      }
    }
    if v.asStr.Some? {
      r := PayFor(gas, 1, Ok(HoldsString(o, v.asStr.value, test)));
      return;
    }
    return Err(InvalidTypeComparison([], CoercionMessage(v, test)));
  }

  method CmpJsonOperand(lib: Library, o: Order, operand: JsonOperand, v: Json, gas: Gas)
    returns (r: Result<bool, RuntimeError>)
    modifies gas
    ensures Metered(old(gas.left), gas.left, r, CompareJsonOperand(lib, o, operand, v))
  {
    match operand {
      case NoJson => r := Ok(false);
      case JsonLiteral(test) => r := CmpCoerceJson(lib, o, v, test, gas);
      case JsonGlob(p) =>
        if o != Same { return Ok(false); }
        var paid := gas.Consume(5);
        if paid.Err? { return Err(paid.error); }
        if v.asStr.None? { return Err(TookTooLong([])); }
        r := Ok(lib.matchGlob(p, v.asStr.value));
    }
  }

  method CmpHeaderOperand(lib: Library, o: Order, operand: HeaderOperand, h: string, gas: Gas)
    returns (r: Result<bool, RuntimeError>)
    modifies gas
    ensures Metered(old(gas.left), gas.left, r, CompareHeader(lib, o, operand, h))
  {
    match operand {
      case NoHeader => r := Ok(false);
      case HeaderLiteral(value) =>
        match value {
          case I64(i) =>
            var x := lib.parseI64(h);
            if x.Err? { return Err(InvalidTypeComparison([], x.error)); }
            r := PayFor(gas, 1, Ok(HoldsInt(o, x.value, i)));
          case F64(f) =>
            var x := lib.parseF64(h);
            if x.Err? { return Err(InvalidTypeComparison([], x.error)); }
            r := PayFor(gas, 1, Ok(HoldsFloat(o, x.value, f)));
          case Text(t) =>
            r := PayFor(gas, 1, Ok(HoldsString(o, h, t)));
        }
      case HeaderGlob(p) =>
        if o != Same { return Ok(false); }
        r := PayFor(gas, 5, Ok(lib.matchGlob(p, h)));
    }
  }

  method EvalHeaderOperand(lib: Library, operand: HeaderOperand, cmp: Comparison, h: string, gas: Gas)
    returns (r: Result<bool, RuntimeError>)
    modifies gas
    ensures Metered(old(gas.left), gas.left, r, TestHeader(lib, operand, cmp, h))
  {
    match cmp {
      case Always => r := Ok(true);
      case Never => r := Ok(false);
      case LessThan => r := CmpHeaderOperand(lib, Less, operand, h, gas);
      case GreaterThan => r := CmpHeaderOperand(lib, Greater, operand, h, gas);
      case Equals => r := CmpHeaderOperand(lib, Same, operand, h, gas);
      case NotEqual =>
        r := CmpHeaderOperand(lib, Same, operand, h, gas);
        if r.Ok? { r := Ok(!r.value); }
    }
  }

  method EvalJsonOperand(lib: Library, operand: JsonOperand, cmp: Comparison, vs: seq<Json>, gas: Gas)
    returns (r: Result<bool, RuntimeError>)
    modifies gas
    ensures Metered(old(gas.left), gas.left, r, JsonVerdict(lib, operand, cmp, vs))
  {
    if vs == [] { return Ok(false); }
    ghost var whole := AllPass(lib, operand, cmp, vs, 0);
    for i := 0 to |vs|
      invariant gas.left <= old(gas.left)
      invariant whole == AllPass(lib, operand, cmp, vs, i).Plus(old(gas.left) - gas.left)
    {
      var pass: Result<bool, RuntimeError>;
      match cmp {
        case Always => pass := Ok(true);
        case Never => pass := Ok(false);
        case LessThan => pass := CmpJsonOperand(lib, Less, operand, vs[i], gas);
        case GreaterThan => pass := CmpJsonOperand(lib, Greater, operand, vs[i], gas);
        case Equals => pass := CmpJsonOperand(lib, Same, operand, vs[i], gas);
        case NotEqual =>
          pass := CmpJsonOperand(lib, Same, operand, vs[i], gas);
          if pass.Ok? { pass := Ok(!pass.value); }
      }
      if pass.Err? { return pass; }
      if !pass.value { return Ok(false); }
    }
    return Ok(true);
  }

  method EvalHeaders(env: Env, c: Code, gas: Gas) returns (r: Result<bool, RuntimeError>)
    requires c.CHeader?
    modifies gas
    ensures Metered(old(gas.left), gas.left, r, LeafMeaning(env, c))
  {
    var hs := env.resp.headers;
    ghost var whole := AnyHeader(env.lib, c, hs, 0);
    for i := 0 to |hs|
      invariant gas.left <= old(gas.left)
      invariant whole == AnyHeader(env.lib, c, hs, i).Plus(old(gas.left) - gas.left)
    {
      var key := EvalHeaderOperand(env.lib, c.keyOperand, c.keyOp, hs[i].name, gas);
      if key.Err? { return key; }
      if key.value && hs[i].value.Some? {
        var value := EvalHeaderOperand(env.lib, c.valueOperand, c.valueOp, hs[i].value.value, gas);
        if value.Err? || value.value { return value; }
      }
    }
    return Ok(false);
  }

  method EvalLeaf(env: Env, c: Code, gas: Gas) returns (r: Result<bool, RuntimeError>)
    requires IsLeafCode(c)
    modifies gas
    ensures Metered(old(gas.left), gas.left, r, LeafMeaning(env, c))
  {
    match c {
      case CStatus(v, cmp) => r := PayFor(gas, 1, Ok(StatusHolds(cmp, env.resp.status, v)));
      case CHeader(_, _, _, _) => r := EvalHeaders(env, c, gas);
      case CJson(q, cmp, operand) =>
        var json := env.lib.parseJson(env.resp.body);
        if json.Err? { return Err(InvalidJsonBody(json.error)); }
        var run := env.lib.runQuery(q, json.value);
        var paid := gas.Consume(run.cost);
        if paid.Err? { return Err(paid.error); }
        if run.found.Err? { return Err(RuntimeError.InvalidJsonPath([], run.found.error)); }
        r := EvalJsonOperand(env.lib, operand, cmp, run.found.value, gas);
    }
  }

  /** `Metered` for whole trees, with the path: restored on success, and on a gas-free error left
      pointing at the leaf that failed. */
  ghost predicate Walked(before: nat, after: nat, here: seq<nat>, p0: seq<nat>, p1: seq<nat>,
                         r: Result<EvalResult, RuntimeError>, m: Outcome) {
    && Metered(before, after, r, Costed(m.cost, m.res))
    && (r.Ok? ==> p1 == p0)
    && (m.cost <= before && r.Err? ==> p1 == here + m.at)
  }

  method EvalOp(env: Env, idx: nat, c: Code, gas: Gas, path: IndexPath) returns (r: Result<EvalResult, RuntimeError>)
    modifies gas, path
    ensures Walked(old(gas.left), gas.left, old(path.steps) + [idx], old(path.steps), path.steps, r, Meaning(env, c))
    decreases c
  {
    path.Push(idx);
    match c {
      case CAnd(children) =>
        r := EvalChildren(env, children, false, gas, path);
      case COr(children) =>
        r := EvalChildren(env, children, true, gas, path);
      case CNot(operand) =>
        r := EvalOp(env, 0, operand, gas, path);
        ghost var at := Meaning(env, operand).at;
        assert old(path.steps) + [idx] + [0] + at == old(path.steps) + [idx] + ([0] + at);
        if r.Ok? { r := Ok(EvalResult(ChildIndex(0, r.value.reason), !r.value.result)); }
      case _ =>
        var leaf := EvalLeaf(env, c, gas);
        if leaf.Err? {
          r := Err(leaf.error);
        } else {
          r := Ok(EvalResult(Leaf, leaf.value));
        }
    }
    if r.Err? { return r; }
    path.Pop();
  }

  /** The loop shared by the And and Or arms, which differ only in the verdict that stops them. */
  method EvalChildren(env: Env, cs: seq<Code>, stop: bool, gas: Gas, path: IndexPath)
    returns (r: Result<EvalResult, RuntimeError>)
    modifies gas, path
    ensures Walked(old(gas.left), gas.left, old(path.steps), old(path.steps), path.steps, r, Scan(env, cs, 0, stop))
    decreases cs
  {
    ghost var whole := Scan(env, cs, 0, stop);
    ghost var here := path.steps;
    for i := 0 to |cs|
      invariant path.steps == here
      invariant gas.left <= old(gas.left)
      invariant var rest := Scan(env, cs, i, stop); whole == rest.(cost := rest.cost + (old(gas.left) - gas.left))
    {
      var eval := EvalOp(env, i, cs[i], gas, path);
      if eval.Err? {
        assert here + [i] + Meaning(env, cs[i]).at == here + ([i] + Meaning(env, cs[i]).at);
        return eval;
      }
      if eval.value.result == stop {
        return Ok(EvalResult(ChildIndex(i, eval.value.reason), eval.value.result));
      }
    }
    return Ok(EvalResult(AllChildren, !stop));
  }

  /** Assertion::eval: fresh gas and path, and the leftover path reported with the error. */
  method EvalAssertion(env: Env, root: Code, complexity: nat) returns (r: Result<EvalResult, RuntimeError>)
    ensures r == Evaluated(env, root, complexity)
  {
    var path := new IndexPath();
    var gas := new Gas(complexity);
    assert path.steps + [0] == [0];
    r := EvalOp(env, 0, root, gas, path);
    if r.Err? {
      r := Err(r.error.SetPath(path.steps));
    }
  }
}
