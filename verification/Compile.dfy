/** Compilation under an operation budget (src/assertions/compiled.rs). */
module Compile {
  import opened Prelude
  import opened Assertions
  import opened Libraries

  datatype Value = I64(i64: int) | F64(f64: Float) | Text(text: string)

  datatype HeaderOperand = NoHeader | HeaderLiteral(value: Value) | HeaderGlob(glob: Pattern)

  datatype JsonOperand = NoJson | JsonLiteral(value: string) | JsonGlob(pattern: Pattern)

  datatype Code =
    | CAnd(children: seq<Code>)
    | COr(children: seq<Code>)
    | CNot(operand: Code)
    | CStatus(value: nat, operator: Comparison)
    | CJson(query: JpQuery, operator: Comparison, jsonOperand: JsonOperand)
    | CHeader(keyOp: Comparison, keyOperand: HeaderOperand, valueOp: Comparison, valueOperand: HeaderOperand)

  datatype CompilationError =
    | InvalidGlob(assertPath: seq<nat>, glob: string, msg: string)
    | JsonPathParser(assertPath: seq<nat>, msg: string, path: string, pos: nat)
    | InvalidJsonPath(assertPath: seq<nat>, msg: string)
    | TooManyOperations(assertPath: seq<nat>)
  {
    function SetPath(path: seq<nat>): CompilationError { this.(assertPath := path) }
  }

  // ---- Leaves --------------------------------------------------------------------------------

  function ParseValue(lib: Library, s: string): Value {
    match lib.parseF64(s)
    case Ok(f) => F64(f)
    case Err(_) => match lib.parseI64(s) case Ok(i) => I64(i) case Err(_) => Text(s)
  }

  function BuildGlob(lib: Library, pattern: string): Result<Pattern, CompilationError> {
    match lib.buildGlob(pattern)
    case Ok(p) => Ok(p)
    case Err(e) => Err(InvalidGlob([], e, e))
  }

  function LowerHeader(lib: Library, o: Operand): Result<HeaderOperand, CompilationError> {
    match o
    case NoOperand => Ok(NoHeader)
    case Literal(v) => Ok(HeaderLiteral(ParseValue(lib, v)))
    case Glob(p) => match BuildGlob(lib, p) case Ok(g) => Ok(HeaderGlob(g)) case Err(e) => Err(e)
  }

  function LowerJson(lib: Library, o: Operand): Result<JsonOperand, CompilationError> {
    match o
    case NoOperand => Ok(NoJson)
    case Literal(v) => Ok(JsonLiteral(v))
    case Glob(p) => match BuildGlob(lib, p) case Ok(g) => Ok(JsonGlob(g)) case Err(e) => Err(e)
  }

  function FromJsonPathError(e: JsonPathError): CompilationError {
    match e
    case PestError(msg, line, pos) => JsonPathParser([], msg, line, pos)
    case BadGlob(glob, reason) => InvalidGlob([], glob, reason)
    case OtherJsonPathError(msg) => InvalidJsonPath([], msg)
  }

  predicate IsLeaf(op: Op) { op.StatusCodeCheck? || op.JsonPath? || op.HeaderCheck? }

  function LowerLeaf(lib: Library, op: Op): Result<Code, CompilationError>
    requires IsLeaf(op)
  {
    match op
    case StatusCodeCheck(v, cmp) => Ok(CStatus(v, cmp))
    case HeaderCheck(kc, ko, vc, vo) => (
      match LowerHeader(lib, ko)
      case Err(e) => Err(e)
      case Ok(k) => match LowerHeader(lib, vo) case Err(e) => Err(e) case Ok(v) => Ok(CHeader(kc, k, vc, v)))
    case JsonPath(q, cmp, o) =>
      match lib.parseJsonPath(q)
      case Err(e) => Err(FromJsonPathError(e))
      case Ok(query) => match LowerJson(lib, o) case Err(e) => Err(e) case Ok(j) => Ok(CJson(query, cmp, j))
  }

  // ---- What compilation means ----------------------------------------------------------------

  predicate WellFormed(lib: Library, op: Op) {
    match op
    case And(cs) => forall i :: 0 <= i < |cs| ==> WellFormed(lib, cs[i])
    case Or(cs) => forall i :: 0 <= i < |cs| ==> WellFormed(lib, cs[i])
    case Not(o) => WellFormed(lib, o)
    case _ => LowerLeaf(lib, op).Ok?
  }

  /** The code of a well-formed tree: the same tree with its leaves lowered. */
  function Lowered(lib: Library, op: Op): Code
    requires WellFormed(lib, op)
  {
    match op
    case And(cs) => CAnd(LoweredAll(lib, cs))
    case Or(cs) => COr(LoweredAll(lib, cs))
    case Not(o) => CNot(Lowered(lib, o))
    case _ => LowerLeaf(lib, op).value
  }

  function LoweredAll(lib: Library, cs: seq<Op>): (r: seq<Code>)
    requires forall i :: 0 <= i < |cs| ==> WellFormed(lib, cs[i])
    ensures |r| == |cs|
    ensures forall i :: 0 <= i < |cs| ==> r[i] == Lowered(lib, cs[i])
  {
    seq(|cs|, i requires 0 <= i < |cs| => Lowered(lib, cs[i]))
  }

  /** A node together with the index path that leads to it. */
  datatype Site = Site(path: seq<nat>, op: Op)

  /** All nodes in the order they are compiled, parents before children, left before right. */
  function Preorder(op: Op, here: seq<nat>): (s: seq<Site>) {
    [Site(here, op)] +
    match op
      case And(cs) => PreorderAll(cs, |cs|, here)
      case Or(cs) => PreorderAll(cs, |cs|, here)
      case Not(o) => Preorder(o, here + [0])
      case _ => []
  }

  function PreorderAll(cs: seq<Op>, n: nat, here: seq<nat>): seq<Site>
    requires n <= |cs|
    decreases cs, n
  {
    if n == 0 then [] else PreorderAll(cs, n - 1, here) + Preorder(cs[n - 1], here + [n - 1])
  }

  datatype Fault = Fault(path: seq<nat>, error: CompilationError)

  predicate Malformed(lib: Library, op: Op) { IsLeaf(op) && LowerLeaf(lib, op).Err? }

  /** The first node that runs out of budget or is malformed, in compilation order. */
  function FirstFault(lib: Library, sites: seq<Site>, budget: nat): Option<Fault> {
    if sites == [] then None
    else if budget == 0 then Some(Fault(sites[0].path, TooManyOperations([])))
    else if Malformed(lib, sites[0].op) then Some(Fault(sites[0].path, LowerLeaf(lib, sites[0].op).error))
    else FirstFault(lib, sites[1..], budget - 1)
  }

  /** The outcome of compiling `op` under `budget`: the lowered tree when nothing faults,
      else the first fault with its path filled in. */
  function Compiled(lib: Library, op: Op, budget: nat): Result<Code, CompilationError> {
    match FirstFault(lib, Preorder(op, [0]), budget)
    case Some(f) => Err(f.error.SetPath(f.path))
    case None => NoFaultMeansWellFormed(lib, op, [0], budget); Ok(Lowered(lib, op))
  }

  // ---- Facts about the specification ---------------------------------------------------------

  lemma {:induction false} FirstFaultConcat(lib: Library, a: seq<Site>, b: seq<Site>, budget: nat)
    ensures FirstFault(lib, a, budget).None? ==> |a| <= budget
    ensures FirstFault(lib, a + b, budget) ==
            if FirstFault(lib, a, budget).Some? then FirstFault(lib, a, budget)
            else FirstFault(lib, b, budget - |a|)
  {
    if a == [] {
      assert a + b == b;
    } else {
      assert (a + b)[1..] == a[1..] + b;
      if budget > 0 { FirstFaultConcat(lib, a[1..], b, budget - 1); }
    }
  }

  /** The fault is the one at the smallest rank that is out of budget or malformed; running out
      of budget wins at equal rank. */
  lemma {:induction false} FaultRank(lib: Library, sites: seq<Site>, budget: nat) returns (rank: nat)
    ensures rank <= |sites| && rank <= budget
    ensures forall i :: 0 <= i < rank ==> !Malformed(lib, sites[i].op)
    ensures FirstFault(lib, sites, budget).None? <==> rank == |sites|
    ensures rank < |sites| ==> rank == budget || Malformed(lib, sites[rank].op)
    ensures rank < |sites| ==> FirstFault(lib, sites, budget) == Some(Fault(sites[rank].path,
        if rank == budget then TooManyOperations([]) else LowerLeaf(lib, sites[rank].op).error))
  {
    if sites == [] || budget == 0 || Malformed(lib, sites[0].op) {
      rank := 0;
    } else {
      var rest := sites[1..];
      var r := FaultRank(lib, rest, budget - 1);
      rank := r + 1;
      forall i | 0 <= i < rank
        ensures !Malformed(lib, sites[i].op)
      {
        if i > 0 { assert sites[i] == rest[i - 1]; }
      }
    }
  }

  lemma {:induction false} PreorderLength(op: Op, here: seq<nat>)
    ensures |Preorder(op, here)| == NodeCount(op)
    decreases op
  {
    match op
    case And(cs) => PreorderAllLength(cs, |cs|, here);
    case Or(cs) => PreorderAllLength(cs, |cs|, here);
    case Not(o) => PreorderLength(o, here + [0]);
    case _ =>
  }

  lemma {:induction false} PreorderAllLength(cs: seq<Op>, n: nat, here: seq<nat>)
    requires n <= |cs|
    ensures |PreorderAll(cs, n, here)| == NodeCounts(cs, n)
    decreases cs, n
  {
    if n > 0 {
      PreorderAllLength(cs, n - 1, here);
      PreorderLength(cs[n - 1], here + [n - 1]);
    }
  }

  predicate AllSound(lib: Library, sites: seq<Site>) {
    forall s :: s in sites ==> !Malformed(lib, s.op)
  }

  lemma {:induction false} FaultFree(lib: Library, sites: seq<Site>, budget: nat)
    ensures FirstFault(lib, sites, budget).None? <==> |sites| <= budget && AllSound(lib, sites)
  {
    if sites != [] && budget > 0 && !Malformed(lib, sites[0].op) {
      FaultFree(lib, sites[1..], budget - 1);
      assert forall s :: s in sites <==> s == sites[0] || s in sites[1..];
    }
  }

  lemma {:induction false} SoundIsWellFormed(lib: Library, op: Op, here: seq<nat>)
    ensures AllSound(lib, Preorder(op, here)) <==> WellFormed(lib, op)
    decreases op
  {
    var rest := Preorder(op, here)[1..];
    assert Preorder(op, here) == [Site(here, op)] + rest;
    match op
    case And(cs) => SoundIsWellFormedAll(lib, cs, |cs|, here);
    case Or(cs) => SoundIsWellFormedAll(lib, cs, |cs|, here);
    case Not(o) => SoundIsWellFormed(lib, o, here + [0]);
    case _ => assert Preorder(op, here)[0] == Site(here, op);
  }

  lemma {:induction false} SoundIsWellFormedAll(lib: Library, cs: seq<Op>, n: nat, here: seq<nat>)
    requires n <= |cs|
    ensures AllSound(lib, PreorderAll(cs, n, here)) <==> forall i :: 0 <= i < n ==> WellFormed(lib, cs[i])
    decreases cs, n
  {
    if n > 0 {
      SoundIsWellFormedAll(lib, cs, n - 1, here);
      SoundIsWellFormed(lib, cs[n - 1], here + [n - 1]);
    }
  }

  lemma NoFaultMeansWellFormed(lib: Library, op: Op, here: seq<nat>, budget: nat)
    ensures FirstFault(lib, Preorder(op, here), budget).None? <==> NodeCount(op) <= budget && WellFormed(lib, op)
  {
    FaultFree(lib, Preorder(op, here), budget);
    PreorderLength(op, here);
    SoundIsWellFormed(lib, op, here);
  }

  /** Compilation succeeds exactly on well-formed trees of at most `budget` nodes. */
  lemma BudgetIsExact(lib: Library, op: Op, budget: nat)
    ensures Compiled(lib, op, budget).Ok? <==> NodeCount(op) <= budget && WellFormed(lib, op)
    ensures Compiled(lib, op, budget).Ok? ==> Compiled(lib, op, budget).value == Lowered(lib, op)
  {
    NoFaultMeansWellFormed(lib, op, [0], budget);
  }

  /** Every site's path leads back to its node. */
  lemma {:induction false} SiteAddress(op: Op, here: seq<nat>, s: Site)
    requires s in Preorder(op, here)
    ensures here <= s.path && NodeAt(op, s.path[|here|..]) == Some(s.op)
    decreases op
  {
    if s == Site(here, op) {
      assert s.path[|here|..] == [];
    } else {
      match op
      case And(cs) => SiteAddressAll(op, cs, |cs|, here, s);
      case Or(cs) => SiteAddressAll(op, cs, |cs|, here, s);
      case Not(o) =>
        SiteAddress(o, here + [0], s);
        assert s.path[|here|..][1..] == s.path[|here + [0]|..];
      case _ => assert false;
    }
  }

  lemma {:induction false} SiteAddressAll(op: Op, cs: seq<Op>, n: nat, here: seq<nat>, s: Site)
    requires n <= |cs| && (op == And(cs) || op == Or(cs))
    requires s in PreorderAll(cs, n, here)
    ensures here <= s.path && NodeAt(op, s.path[|here|..]) == Some(s.op)
    decreases cs, n
  {
    if s in PreorderAll(cs, n - 1, here) {
      SiteAddressAll(op, cs, n - 1, here, s);
    } else {
      SiteAddress(cs[n - 1], here + [n - 1], s);
      assert s.path[|here|..][1..] == s.path[|here + [n - 1]|..];
    }
  }

  /** A path comes before those it is a prefix of, and before those further right where they part. */
  predicate Before(a: seq<nat>, b: seq<nat>) {
    b != [] && (a == [] || a[0] < b[0] || (a[0] == b[0] && Before(a[1..], b[1..])))
  }

  ghost predicate Sorted(sites: seq<Site>) {
    forall i, j :: 0 <= i < j < |sites| ==> Before(sites[i].path, sites[j].path)
  }

  lemma {:induction false} BeforeBelow(here: seq<nat>, a: seq<nat>, b: seq<nat>)
    requires Before(a, b)
    ensures Before(here + a, here + b)
  {
    if here == [] {
      assert here + a == a && here + b == b;
    } else {
      BeforeBelow(here[1..], a, b);
      assert (here + a)[1..] == here[1..] + a && (here + b)[1..] == here[1..] + b;
    }
  }

  /** Paths that part at |here| are ordered by the index there; `here` comes before all below it. */
  lemma BeforeWhereTheyPart(here: seq<nat>, a: seq<nat>, b: seq<nat>)
    requires here <= a && here < b && (a == here || a[|here|] < b[|here|])
    ensures Before(a, b)
  {
    assert a == here + a[|here|..] && b == here + b[|here|..];
    BeforeBelow(here, a[|here|..], b[|here|..]);
  }

  lemma SortedConcat(a: seq<Site>, b: seq<Site>)
    requires Sorted(a) && Sorted(b)
    requires forall s, t :: s in a && t in b ==> Before(s.path, t.path)
    ensures Sorted(a + b)
  {
    forall i, j | 0 <= i < j < |a + b|
      ensures Before((a + b)[i].path, (a + b)[j].path)
    {
      if i < |a| <= j { assert a[i] in a && b[j - |a|] in b; }
    }
  }

  /** All nodes are visited in the order of their paths ... */
  lemma {:induction false} PreorderIsSorted(op: Op, here: seq<nat>)
    ensures Sorted(Preorder(op, here))
    ensures forall s :: s in Preorder(op, here) ==> here <= s.path
    decreases op
  {
    match op
    case And(cs) => PreorderAllIsSorted(cs, |cs|, here); RootIsFirst(op, PreorderAll(cs, |cs|, here), here);
    case Or(cs) => PreorderAllIsSorted(cs, |cs|, here); RootIsFirst(op, PreorderAll(cs, |cs|, here), here);
    case Not(o) =>
      PreorderIsSorted(o, here + [0]);
      forall s | s in Preorder(o, here + [0])
        ensures here < s.path
      {
        assert here + [0] <= s.path;
      }
      RootIsFirst(op, Preorder(o, here + [0]), here);
    case _ =>
  }

  lemma RootIsFirst(op: Op, rest: seq<Site>, here: seq<nat>)
    requires Sorted(rest) && forall s :: s in rest ==> here < s.path
    ensures Sorted([Site(here, op)] + rest)
    ensures forall s :: s in [Site(here, op)] + rest ==> here <= s.path
  {
    forall s, t | s in [Site(here, op)] && t in rest
      ensures Before(s.path, t.path)
    {
      BeforeWhereTheyPart(here, s.path, t.path);
    }
    SortedConcat([Site(here, op)], rest);
  }

  lemma {:induction false} PreorderAllIsSorted(cs: seq<Op>, n: nat, here: seq<nat>)
    requires n <= |cs|
    ensures Sorted(PreorderAll(cs, n, here))
    ensures forall s :: s in PreorderAll(cs, n, here) ==> here < s.path && s.path[|here|] < n
    decreases cs, n
  {
    if n > 0 {
      var done, next := PreorderAll(cs, n - 1, here), Preorder(cs[n - 1], here + [n - 1]);
      PreorderAllIsSorted(cs, n - 1, here);
      PreorderIsSorted(cs[n - 1], here + [n - 1]);
      forall s | s in next
        ensures here < s.path && s.path[|here|] == n - 1
      {
        assert here + [n - 1] <= s.path;
      }
      forall s, t | s in done && t in next
        ensures Before(s.path, t.path)
      {
        BeforeWhereTheyPart(here, s.path, t.path);
      }
      SortedConcat(done, next);
    }
  }

  /** ... and none is left out. */
  lemma {:induction false} PreorderIsComplete(op: Op, here: seq<nat>, path: seq<nat>)
    requires NodeAt(op, path).Some?
    ensures Site(here + path, NodeAt(op, path).value) in Preorder(op, here)
    decreases path
  {
    if path == [] {
      assert here + path == here;
      assert Preorder(op, here)[0] == Site(here, op);
    } else {
      assert here + path == here + [path[0]] + path[1..];
      match op
      case And(cs) =>
        PreorderIsComplete(cs[path[0]], here + [path[0]], path[1..]);
        ChildSitesAreIncluded(cs, |cs|, path[0], here);
      case Or(cs) =>
        PreorderIsComplete(cs[path[0]], here + [path[0]], path[1..]);
        ChildSitesAreIncluded(cs, |cs|, path[0], here);
      case Not(o) => PreorderIsComplete(o, here + [0], path[1..]);
      case _ =>
    }
  }

  lemma {:induction false} ChildSitesAreIncluded(cs: seq<Op>, n: nat, k: nat, here: seq<nat>)
    requires k < n <= |cs|
    ensures forall s :: s in Preorder(cs[k], here + [k]) ==> s in PreorderAll(cs, n, here)
    decreases n
  {
    if k < n - 1 { ChildSitesAreIncluded(cs, n - 1, k, here); }
  }

  lemma LeavesDoNotRunOut(lib: Library, op: Op)
    requires Malformed(lib, op)
    ensures !LowerLeaf(lib, op).error.TooManyOperations?
  {
  }

  /** `FaultRank` for an error with its path filled in. */
  lemma ReportedFault(lib: Library, sites: seq<Site>, budget: nat) returns (rank: nat)
    requires FirstFault(lib, sites, budget).Some?
    ensures var f := FirstFault(lib, sites, budget).value;
      var e := f.error.SetPath(f.path);
      && rank < |sites| && rank <= budget
      && e.assertPath == sites[rank].path
      && (forall i :: 0 <= i < rank ==> !Malformed(lib, sites[i].op))
      && (e.TooManyOperations? <==> rank == budget)
      && (rank < budget ==>
            Malformed(lib, sites[rank].op) && e == LowerLeaf(lib, sites[rank].op).error.SetPath(sites[rank].path))
  {
    rank := FaultRank(lib, sites, budget);
    if rank < budget { LeavesDoNotRunOut(lib, sites[rank].op); }
  }

  /** From the root, whose own index is 0. */
  lemma RootSiteAddress(op: Op, s: Site)
    requires s in Preorder(op, [0])
    ensures |s.path| > 0 && s.path[0] == 0 && NodeAt(op, s.path[1..]) == Some(s.op)
  {
    SiteAddress(op, [0], s);
    assert |[0]| == 1;
  }

  /** A reported error sits at the node of smallest preorder rank that is out of budget or malformed,
      and its path addresses that node. `TooManyOperations` is reported exactly when that rank is the budget. */
  lemma ErrorAddressesFirstFault(lib: Library, op: Op, budget: nat) returns (rank: nat)
    requires Compiled(lib, op, budget).Err?
    ensures var e := Compiled(lib, op, budget).error;
      && |e.assertPath| > 0 && e.assertPath[0] == 0
      && rank < NodeCount(op) == |Preorder(op, [0])|
      && Preorder(op, [0])[rank].path == e.assertPath
      && NodeAt(op, e.assertPath[1..]) == Some(Preorder(op, [0])[rank].op)
      && rank <= budget
      && (forall i :: 0 <= i < rank ==> !Malformed(lib, Preorder(op, [0])[i].op))
      && (rank < budget ==> Malformed(lib, Preorder(op, [0])[rank].op))
      && (e.TooManyOperations? <==> rank == budget)
      && (rank < budget ==> e == LowerLeaf(lib, Preorder(op, [0])[rank].op).error.SetPath(e.assertPath))
  {
    var sites := Preorder(op, [0]);
    PreorderLength(op, [0]);
    rank := ReportedFault(lib, sites, budget);
    RootSiteAddress(op, sites[rank]);
  }

  // ---- The compiler itself -------------------------------------------------------------------

  /** A Vec<u32> behind a mutable reference. */
  class IndexPath {
    var steps: seq<nat>

    constructor ()
      ensures steps == []
    {
      steps := [];
    }

    method Push(idx: nat)
      modifies this
      ensures steps == old(steps) + [idx]
    {
      steps := steps + [idx];
    }

    method Pop()
      requires steps != []
      modifies this
      ensures steps == old(steps)[..|old(steps)| - 1]
    {
      steps := steps[..|steps| - 1];
    }
  }

  class OpBudget {
    var left: nat

    constructor (n: nat)
      ensures left == n
    {
      left := n;
    }

    /** dec_ops: refuses at zero, so the unsigned counter cannot wrap. */
    method Take() returns (r: Result<(), CompilationError>)
      modifies this
      ensures old(left) > 0 ==> r == Ok(()) && left == old(left) - 1
      ensures old(left) == 0 ==> r == Err(TooManyOperations([])) && left == 0
    {
      if left > 0 {
        left := left - 1;
        return Ok(());
      }
      return Err(TooManyOperations([]));
    }
  }

  /** What compiling the given sites does to the budget and the path: everything on success,
      the address of the fault on failure. */
  ghost predicate Advances<T>(lib: Library, sites: seq<Site>, n0: nat, n1: nat, p0: seq<nat>, p1: seq<nat>,
                              r: Result<T, CompilationError>) {
    match FirstFault(lib, sites, n0)
    case None => r.Ok? && n1 == n0 - |sites| && p1 == p0
    case Some(f) => r == Err(f.error) && p1 == f.path
  }

  method CompileOp(lib: Library, idx: nat, op: Op, numOps: OpBudget, path: IndexPath)
    returns (r: Result<Code, CompilationError>)
    modifies numOps, path
    ensures Advances(lib, Preorder(op, old(path.steps) + [idx]), old(numOps.left), numOps.left,
                     old(path.steps), path.steps, r)
    ensures r.Ok? ==> WellFormed(lib, op) && r.value == Lowered(lib, op)
    decreases op
  {
    ghost var here := path.steps + [idx];
    ghost var n0 := numOps.left;
    ghost var sites := Preorder(op, here);
    FirstFaultConcat(lib, [Site(here, op)], sites[1..], n0);
    assert sites == [Site(here, op)] + sites[1..];
    path.Push(idx);
    var taken := numOps.Take();
    if taken.Err? { return Err(taken.error); }
    match op {
      case And(children) =>
        var cs := VisitChildren(lib, children, numOps, path);
        if cs.Err? { return Err(cs.error); }
        PrefixIsAll(lib, children, cs.value);
        r := Ok(CAnd(cs.value));
      case Or(children) =>
        var cs := VisitChildren(lib, children, numOps, path);
        if cs.Err? { return Err(cs.error); }
        PrefixIsAll(lib, children, cs.value);
        r := Ok(COr(cs.value));
      case Not(operand) =>
        var c := CompileOp(lib, 0, operand, numOps, path);
        if c.Err? { return Err(c.error); }
        r := Ok(CNot(c.value));
      case _ =>
        r := LowerLeaf(lib, op);
        if r.Err? { return r; }
    }
    path.Pop();
  }

  /** `cs` is the code of the first n children. */
  ghost predicate LowersPrefix(lib: Library, children: seq<Op>, cs: seq<Code>, n: nat) {
    && |cs| == n <= |children|
    && forall j :: 0 <= j < n ==> WellFormed(lib, children[j]) && cs[j] == Lowered(lib, children[j])
  }

  method VisitChildren(lib: Library, children: seq<Op>, numOps: OpBudget, path: IndexPath)
    returns (r: Result<seq<Code>, CompilationError>)
    modifies numOps, path
    ensures Advances(lib, PreorderAll(children, |children|, old(path.steps)), old(numOps.left), numOps.left,
                     old(path.steps), path.steps, r)
    ensures r.Ok? ==> LowersPrefix(lib, children, r.value, |children|)
    decreases children
  {
    ghost var here := path.steps;
    ghost var n0 := numOps.left;
    var cs: seq<Code> := [];
    for i := 0 to |children|
      invariant LowersPrefix(lib, children, cs, i)
      invariant Advances(lib, PreorderAll(children, i, here), n0, numOps.left, here, path.steps, Ok(cs))
    {
      ghost var n1 := numOps.left;
      var c := CompileOp(lib, i, children[i], numOps, path);
      ChildAdvances(lib, children, cs, i, here, n0, n1, numOps.left, path.steps, c);
      if c.Err? { return Err(c.error); }
      PrefixGrows(lib, children, cs, i, c.value);
      cs := cs + [c.value];
    }
    return Ok(cs);
  }

  /** The outcome of child i takes the outcome of those before it further, or settles that of all. */
  lemma ChildAdvances(lib: Library, children: seq<Op>, cs: seq<Code>, i: nat, here: seq<nat>,
                      n0: nat, n1: nat, n2: nat, p2: seq<nat>, c: Result<Code, CompilationError>)
    requires i < |children| && Advances(lib, PreorderAll(children, i, here), n0, n1, here, here, Ok(cs))
    requires Advances(lib, Preorder(children[i], here + [i]), n1, n2, here, p2, c)
    ensures c.Ok? ==> Advances(lib, PreorderAll(children, i + 1, here), n0, n2, here, p2, Ok(cs + [c.value]))
    ensures c.Err? ==>
      var r: Result<seq<Code>, CompilationError> := Err(c.error);
      Advances(lib, PreorderAll(children, |children|, here), n0, n2, here, p2, r)
  {
    OneMoreChild(lib, children, i, here, n0);
    if c.Err? { FaultStays(lib, children, i + 1, here, n0); }
  }

  lemma PrefixGrows(lib: Library, children: seq<Op>, cs: seq<Code>, n: nat, c: Code)
    requires LowersPrefix(lib, children, cs, n) && n < |children|
    requires WellFormed(lib, children[n]) && c == Lowered(lib, children[n])
    ensures LowersPrefix(lib, children, cs + [c], n + 1)
  {
  }

  lemma PrefixIsAll(lib: Library, children: seq<Op>, cs: seq<Code>)
    requires LowersPrefix(lib, children, cs, |children|)
    ensures forall i :: 0 <= i < |children| ==> WellFormed(lib, children[i])
    ensures cs == LoweredAll(lib, children)
  {
  }

  /** With i children compiled, the next fault is the next child's. */
  lemma OneMoreChild(lib: Library, cs: seq<Op>, i: nat, here: seq<nat>, budget: nat)
    requires i < |cs| && FirstFault(lib, PreorderAll(cs, i, here), budget).None?
    ensures |PreorderAll(cs, i, here)| <= budget
    ensures FirstFault(lib, PreorderAll(cs, i + 1, here), budget) ==
            FirstFault(lib, Preorder(cs[i], here + [i]), budget - |PreorderAll(cs, i, here)|)
    ensures |PreorderAll(cs, i + 1, here)| == |PreorderAll(cs, i, here)| + |Preorder(cs[i], here + [i])|
  {
    var done, next := PreorderAll(cs, i, here), Preorder(cs[i], here + [i]);
    assert PreorderAll(cs, i + 1, here) == done + next;
    FirstFaultConcat(lib, done, next, budget);
  }

  /** A fault among the first n children is the fault of all of them. */
  lemma {:induction false} FaultStays(lib: Library, cs: seq<Op>, n: nat, here: seq<nat>, budget: nat)
    requires n <= |cs| && FirstFault(lib, PreorderAll(cs, n, here), budget).Some?
    ensures FirstFault(lib, PreorderAll(cs, |cs|, here), budget) == FirstFault(lib, PreorderAll(cs, n, here), budget)
    decreases |cs| - n
  {
    if n < |cs| {
      FirstFaultConcat(lib, PreorderAll(cs, n, here), Preorder(cs[n], here + [n]), budget);
      FaultStays(lib, cs, n + 1, here, budget);
    }
  }

  /** compile: a fresh budget and path, and the leftover path reported on failure. */
  method CompileAssertion(lib: Library, root: Op, maxAssertionOps: nat) returns (r: Result<Code, CompilationError>)
    ensures r == Compiled(lib, root, maxAssertionOps)
  {
    var numOps := new OpBudget(maxAssertionOps);
    var path := new IndexPath();
    assert path.steps + [0] == [0];
    r := CompileOp(lib, 0, root, numOps, path);
    if r.Err? {
      r := Err(r.error.SetPath(path.steps));
    }
  }
}
