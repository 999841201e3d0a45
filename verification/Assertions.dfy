/** The assertion tree as users write it (src/assertions/mod.rs), and the library calls it leans on. */
module Assertions {
  import opened Prelude

  datatype Comparison = Always | Never | LessThan | GreaterThan | Equals | NotEqual

  /** Header and JSONPath operands have the same three shapes in the source. */
  datatype Operand = NoOperand | Literal(value: string) | Glob(pattern: string)

  datatype Op =
    | And(children: seq<Op>)
    | Or(children: seq<Op>)
    | Not(operand: Op)
    | StatusCodeCheck(value: nat, operator: Comparison)
    | JsonPath(query: string, operator: Comparison, jsonOperand: Operand)
    | HeaderCheck(keyOp: Comparison, keyOperand: Operand, valueOp: Comparison, valueOperand: Operand)

  /** Does any leaf look at the response body? The download is skipped when none does. */
  predicate RequiresBody(op: Op) {
    match op
    case And(cs) => exists i :: 0 <= i < |cs| && RequiresBody(cs[i])
    case Or(cs) => exists i :: 0 <= i < |cs| && RequiresBody(cs[i])
    case Not(o) => RequiresBody(o)
    case StatusCodeCheck(_, _) => false
    case JsonPath(_, _, _) => true
    case HeaderCheck(_, _, _, _) => false
  }

  function NodeCount(op: Op): (n: nat)
    ensures n >= 1
  {
    match op
    case And(cs) => 1 + NodeCounts(cs, |cs|)
    case Or(cs) => 1 + NodeCounts(cs, |cs|)
    case Not(o) => 1 + NodeCount(o)
    case _ => 1
  }

  /** Nodes of the first n trees. */
  function NodeCounts(cs: seq<Op>, n: nat): nat
    requires n <= |cs|
    decreases cs, n
  {
    if n == 0 then 0 else NodeCounts(cs, n - 1) + NodeCount(cs[n - 1])
  }

  lemma {:induction false} NodeCountOfChild(cs: seq<Op>, n: nat, k: nat)
    requires k < n <= |cs|
    ensures NodeCount(cs[k]) <= NodeCounts(cs, n)
  {
    if k < n - 1 { NodeCountOfChild(cs, n - 1, k); }
  }

  /** The node an index path leads to. The first index of a reported path is that of the root
      and is always 0, so it is not part of this path. */
  function NodeAt(op: Op, path: seq<nat>): Option<Op> {
    if path == [] then Some(op)
    else match op
      case And(cs) => if path[0] < |cs| then NodeAt(cs[path[0]], path[1..]) else None
      case Or(cs) => if path[0] < |cs| then NodeAt(cs[path[0]], path[1..]) else None
      case Not(o) => if path[0] == 0 then NodeAt(o, path[1..]) else None
      case _ => None
  }
}

/** What the glob, JSON, JSONPath and number libraries compute. They are parameters of the model:
    every theorem holds for all of their behaviours. */
module Libraries {
  import opened Prelude

  /** IEEE doubles as comparisons see them. */
  datatype Float = NaN | NegInfinity | Finite(value: real) | PosInfinity

  /** A JSON value through its serialisation and the three accessors the source calls on it. */
  datatype Json = Json(text: string, asF64: Option<Float>, asI64: Option<int>, asStr: Option<string>)

  datatype JsonPathError =
    | PestError(message: string, line: string, pos: nat)
    | BadGlob(glob: string, reason: string)
    | OtherJsonPathError(message: string)

  /** Running a query costs gas and finds values or fails. */
  datatype QueryRun = QueryRun(cost: nat, found: Result<seq<Json>, string>)

  datatype Pattern = Pattern(text: string)
  datatype JpQuery = JpQuery(text: string)

  datatype Library = Library(
    buildGlob: string -> Result<Pattern, string>,
    matchGlob: (Pattern, string) -> bool,
    parseJsonPath: string -> Result<JpQuery, JsonPathError>,
    parseJson: seq<bv8> -> Result<Json, string>,
    runQuery: (JpQuery, Json) -> QueryRun,
    parseF64: string -> Result<Float, string>,
    parseI64: string -> Result<int, string>
  )

  datatype Header = Header(name: string, value: Option<string>)

  /** Everything an evaluation reads. A header whose bytes are not visible ASCII has value None. */
  datatype Response = Response(status: nat, headers: seq<Header>, body: seq<bv8>)

  datatype Order = Less | Greater | Same

  predicate FloatLess(a: Float, b: Float) {
    match (a, b)
    case (NaN, _) => false
    case (_, NaN) => false
    case (Finite(x), Finite(y)) => x < y
    case (NegInfinity, NegInfinity) => false
    case (NegInfinity, _) => true
    case (_, PosInfinity) => a != PosInfinity
    case _ => false
  }

  predicate StringLess(a: string, b: string) {
    if b == [] then false
    else if a == [] then true
    else if a[0] == b[0] then StringLess(a[1..], b[1..])
    else a[0] < b[0]
  }

  predicate HoldsFloat(o: Order, a: Float, b: Float) {
    match o
    case Less => FloatLess(a, b)
    case Greater => FloatLess(b, a)
    case Same => a == b && a != NaN
  }

  predicate HoldsInt(o: Order, a: int, b: int) {
    match o
    case Less => a < b
    case Greater => a > b
    case Same => a == b
  }

  predicate HoldsString(o: Order, a: string, b: string) {
    match o
    case Less => StringLess(a, b)
    case Greater => StringLess(b, a)
    case Same => a == b
  }
}
