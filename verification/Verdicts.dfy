/** What a verdict or a runtime error says about the source tree (src/assertions/compiled.rs, mod.rs). */
module Verdicts {
  import opened Prelude
  import opened Assertions
  import opened Compile
  import opened Evaluate

  function LeafOutcome(env: Env, op: Op): Costed<bool>
    requires IsLeaf(op) && WellFormed(env.lib, op)
  {
    LeafMeaning(env, Lowered(env.lib, op))
  }

  /** Classical truth of the source tree, where a leaf that fails has the value `guess` gives it. */
  predicate Truth(env: Env, op: Op, guess: Op -> bool)
    requires WellFormed(env.lib, op)
  {
    match op
    case And(cs) => forall i :: 0 <= i < |cs| ==> Truth(env, cs[i], guess)
    case Or(cs) => exists i :: 0 <= i < |cs| && Truth(env, cs[i], guess)
    case Not(o) => !Truth(env, o, guess)
    case _ =>
      var m := LeafOutcome(env, op);
      if m.res.Ok? then m.res.value else guess(op)
  }

  predicate NoLeafFails(env: Env, op: Op)
    requires WellFormed(env.lib, op)
  {
    match op
    case And(cs) => forall i :: 0 <= i < |cs| ==> NoLeafFails(env, cs[i])
    case Or(cs) => forall i :: 0 <= i < |cs| ==> NoLeafFails(env, cs[i])
    case Not(o) => NoLeafFails(env, o)
    case _ => LeafOutcome(env, op).res.Ok?
  }

  /** The three ways a left-to-right scan ends: it runs through, stops at k, or fails at k. */
  lemma {:induction false} ScanEnds(env: Env, cs: seq<Code>, i: nat, stop: bool) returns (k: nat)
    requires i <= |cs|
    ensures i <= k <= |cs|
    ensures forall j :: i <= j < k ==> Meaning(env, cs[j]).res.Ok? && Meaning(env, cs[j]).res.value.result != stop
    ensures var m := Scan(env, cs, i, stop);
      && (k == |cs| ==> m.res == Ok(EvalResult(AllChildren, !stop)))
      && (k < |cs| && Meaning(env, cs[k]).res.Ok? ==>
            && Meaning(env, cs[k]).res.value.result == stop
            && m.res == Ok(EvalResult(ChildIndex(k, Meaning(env, cs[k]).res.value.reason), stop)))
      && (k < |cs| && Meaning(env, cs[k]).res.Err? ==>
            m.res == Err(Meaning(env, cs[k]).res.error) && m.at == [k] + Meaning(env, cs[k]).at)
    decreases |cs| - i
  {
    if i < |cs| && Meaning(env, cs[i]).res.Ok? && Meaning(env, cs[i]).res.value.result != stop {
      k := ScanEnds(env, cs, i + 1, stop);
    } else {
      k := i;
    }
  }

  /** A verdict is the classical truth value of the source tree, whatever value the failing leaves
      that short-circuiting skipped are given. */
  lemma {:induction false} VerdictIsTruth(env: Env, op: Op, guess: Op -> bool)
    requires WellFormed(env.lib, op) && Meaning(env, Lowered(env.lib, op)).res.Ok?
    ensures Meaning(env, Lowered(env.lib, op)).res.value.result == Truth(env, op, guess)
    decreases op
  {
    match op
    case And(cs) => ScanIsTruth(env, cs, false, guess);
    case Or(cs) => ScanIsTruth(env, cs, true, guess);
    case Not(o) => VerdictIsTruth(env, o, guess);
    case _ =>
  }

  lemma {:induction false} ScanIsTruth(env: Env, cs: seq<Op>, stop: bool, guess: Op -> bool)
    requires forall i :: 0 <= i < |cs| ==> WellFormed(env.lib, cs[i])
    requires Scan(env, LoweredAll(env.lib, cs), 0, stop).res.Ok?
    ensures Scan(env, LoweredAll(env.lib, cs), 0, stop).res.value.result == stop <==>
            exists i :: 0 <= i < |cs| && Truth(env, cs[i], guess) == stop
    decreases cs
  {
    var k := ScanEnds(env, LoweredAll(env.lib, cs), 0, stop);
    forall j | 0 <= j <= k && j < |cs|
      ensures Truth(env, cs[j], guess) == Meaning(env, Lowered(env.lib, cs[j])).res.value.result
    {
      VerdictIsTruth(env, cs[j], guess);
    }
  }

  /** When no leaf fails there is a verdict. */
  lemma {:induction false} SoundLeavesGiveAVerdict(env: Env, op: Op)
    requires WellFormed(env.lib, op) && NoLeafFails(env, op)
    ensures Meaning(env, Lowered(env.lib, op)).res.Ok?
    decreases op
  {
    match op
    case And(cs) =>
      forall i | 0 <= i < |cs|
        ensures Meaning(env, Lowered(env.lib, cs[i])).res.Ok?
      {
        SoundLeavesGiveAVerdict(env, cs[i]);
      }
      var k := ScanEnds(env, LoweredAll(env.lib, cs), 0, false);
    case Or(cs) =>
      forall i | 0 <= i < |cs|
        ensures Meaning(env, Lowered(env.lib, cs[i])).res.Ok?
      {
        SoundLeavesGiveAVerdict(env, cs[i]);
      }
      var k := ScanEnds(env, LoweredAll(env.lib, cs), 0, true);
    case Not(o) => SoundLeavesGiveAVerdict(env, o);
    case _ =>
  }

  /** Compiling and evaluating refines the source tree: any verdict is its truth value, and with sound
      leaves and enough gas there is one. */
  lemma CompiledEvaluationRefinesSource(env: Env, op: Op, maxOps: nat, gas: nat, guess: Op -> bool)
    requires Compiled(env.lib, op, maxOps).Ok?
    ensures WellFormed(env.lib, op)
    ensures var r := Evaluated(env, Compiled(env.lib, op, maxOps).value, gas);
      && (r.Ok? ==> r.value.result == Truth(env, op, guess))
      && (NoLeafFails(env, op) && gas >= Meaning(env, Compiled(env.lib, op, maxOps).value).cost ==> r.Ok?)
  {
    BudgetIsExact(env.lib, op, maxOps);
    if Meaning(env, Lowered(env.lib, op)).res.Ok? { VerdictIsTruth(env, op, guess); }
    if NoLeafFails(env, op) { SoundLeavesGiveAVerdict(env, op); }
  }

  // ---- Where an error is reported ------------------------------------------------------------

  ghost predicate Passes(env: Env, op: Op, verdict: bool)
    requires WellFormed(env.lib, op)
  {
    var m := Meaning(env, Lowered(env.lib, op));
    m.res.Ok? && m.res.value.result == verdict
  }

  /** Short-circuit evaluation gets to the node at `path`: on the way down, every earlier sibling
      under an And is true and every earlier sibling under an Or is false. */
  ghost predicate Reached(env: Env, op: Op, path: seq<nat>)
    requires WellFormed(env.lib, op)
    decreases path
  {
    path == [] ||
    match op
    case And(cs) =>
      && path[0] < |cs|
      && (forall j :: 0 <= j < path[0] ==> Passes(env, cs[j], true))
      && Reached(env, cs[path[0]], path[1..])
    case Or(cs) =>
      && path[0] < |cs|
      && (forall j :: 0 <= j < path[0] ==> Passes(env, cs[j], false))
      && Reached(env, cs[path[0]], path[1..])
    case Not(o) => path[0] == 0 && Reached(env, o, path[1..])
    case _ => false
  }

  /** The node at `path` is a leaf that evaluation gets to and that fails with `e`. */
  ghost predicate FailsAt(env: Env, op: Op, path: seq<nat>, e: RuntimeError)
    requires WellFormed(env.lib, op)
  {
    && NodeAt(op, path).Some?
    && IsLeaf(NodeAt(op, path).value)
    && WellFormed(env.lib, NodeAt(op, path).value)
    && Reached(env, op, path)
    && LeafOutcome(env, NodeAt(op, path).value).res == Err(e)
  }

  /** An And scans its children for false, an Or for true. */
  predicate IsBranch(op: Op, cs: seq<Op>, stop: bool) { op == if stop then Or(cs) else And(cs) }

  // ---- Which part of the tree the reason names -----------------------------------------------

  /** The child indices along a reason. */
  function Indices(reason: EvalPath): seq<nat> {
    match reason
    case ChildIndex(i, child) => [i] + Indices(child)
    case _ => []
  }

  function EndOf(reason: EvalPath): EvalPath {
    match reason
    case ChildIndex(_, child) => EndOf(child)
    case _ => reason
  }

  /** The node at `path` decides the verdict. On the way to it every And goes to its first false child and
      every Or to its first true one; it is itself a leaf, an And of true children or an Or of false ones. */
  ghost predicate Decides(env: Env, op: Op, path: seq<nat>)
    requires WellFormed(env.lib, op)
    decreases path
  {
    if path == [] then
      match op
      case And(cs) => forall j :: 0 <= j < |cs| ==> Passes(env, cs[j], true)
      case Or(cs) => forall j :: 0 <= j < |cs| ==> Passes(env, cs[j], false)
      case Not(_) => false
      case _ => LeafOutcome(env, op).res.Ok?
    else
      match op
      case And(cs) => DecidesBelow(env, cs, false, path) && Decides(env, cs[path[0]], path[1..])
      case Or(cs) => DecidesBelow(env, cs, true, path) && Decides(env, cs[path[0]], path[1..])
      case Not(o) => path[0] == 0 && Decides(env, o, path[1..])
      case _ => false
  }

  ghost predicate DecidesBelow(env: Env, cs: seq<Op>, stop: bool, path: seq<nat>)
    requires path != [] && forall i :: 0 <= i < |cs| ==> WellFormed(env.lib, cs[i])
  {
    && path[0] < |cs|
    && (forall j :: 0 <= j < path[0] ==> Passes(env, cs[j], !stop))
    && Passes(env, cs[path[0]], stop)
  }

  /** Whenever there is a verdict, the node that its reason leads to is there and decides it, and the reason
      ends in `Leaf` exactly if that node is a leaf. */
  lemma {:induction false} ReasonDecides(env: Env, op: Op)
    requires WellFormed(env.lib, op) && Meaning(env, Lowered(env.lib, op)).res.Ok?
    ensures var reason := Meaning(env, Lowered(env.lib, op)).res.value.reason;
      && Decides(env, op, Indices(reason))
      && NodeAt(op, Indices(reason)).Some?
      && EndOf(reason) == if IsLeaf(NodeAt(op, Indices(reason)).value) then Leaf else AllChildren
    decreases op, 1
  {
    match op
    case And(cs) => ReasonDecidesInScan(env, op, cs, false);
    case Or(cs) => ReasonDecidesInScan(env, op, cs, true);
    case Not(o) =>
      ReasonDecides(env, o);
      var path := Indices(Meaning(env, Lowered(env.lib, op)).res.value.reason);
      assert path[1..] == Indices(Meaning(env, Lowered(env.lib, o)).res.value.reason);
    case _ =>
  }

  lemma {:induction false} ReasonDecidesInScan(env: Env, op: Op, cs: seq<Op>, stop: bool)
    requires IsBranch(op, cs, stop) && WellFormed(env.lib, op) && Meaning(env, Lowered(env.lib, op)).res.Ok?
    ensures var reason := Meaning(env, Lowered(env.lib, op)).res.value.reason;
      && Decides(env, op, Indices(reason))
      && NodeAt(op, Indices(reason)).Some?
      && EndOf(reason) == if IsLeaf(NodeAt(op, Indices(reason)).value) then Leaf else AllChildren
    decreases op, 0
  {
    var k := ScanEnds(env, LoweredAll(env.lib, cs), 0, stop);
    if k < |cs| {
      ReasonDecides(env, cs[k]);
      var path := Indices(Meaning(env, Lowered(env.lib, op)).res.value.reason);
      assert path[1..] == Indices(Meaning(env, Lowered(env.lib, cs[k])).res.value.reason);
    }
  }

  /** No other node decides: where one does, there is a verdict and its reason leads to that node. */
  lemma {:induction false} DeciderIsTheReason(env: Env, op: Op, path: seq<nat>)
    requires WellFormed(env.lib, op) && Decides(env, op, path)
    ensures Meaning(env, Lowered(env.lib, op)).res.Ok?
    ensures Indices(Meaning(env, Lowered(env.lib, op)).res.value.reason) == path
    decreases path, 1
  {
    match op
    case And(cs) => DeciderInScan(env, op, cs, false, path);
    case Or(cs) => DeciderInScan(env, op, cs, true, path);
    case Not(o) =>
      DeciderIsTheReason(env, o, path[1..]);
      assert path == [0] + path[1..];
    case _ =>
  }

  lemma {:induction false} DeciderInScan(env: Env, op: Op, cs: seq<Op>, stop: bool, path: seq<nat>)
    requires IsBranch(op, cs, stop) && WellFormed(env.lib, op) && Decides(env, op, path)
    ensures Meaning(env, Lowered(env.lib, op)).res.Ok?
    ensures Indices(Meaning(env, Lowered(env.lib, op)).res.value.reason) == path
    decreases path, 0
  {
    var k := ScanEnds(env, LoweredAll(env.lib, cs), 0, stop);
    if path == [] {
      assert forall j :: 0 <= j < |cs| ==> Passes(env, cs[j], !stop);
    } else {
      assert DecidesBelow(env, cs, stop, path);
      assert k == path[0];
      DeciderIsTheReason(env, cs[k], path[1..]);
      assert path == [k] + path[1..];
    }
  }

  // ---- The leaf that fails -------------------------------------------------------------------

  lemma {:induction false} FailureIsAReachedLeaf(env: Env, op: Op)
    requires WellFormed(env.lib, op) && Meaning(env, Lowered(env.lib, op)).res.Err?
    ensures FailsAt(env, op, Meaning(env, Lowered(env.lib, op)).at, Meaning(env, Lowered(env.lib, op)).res.error)
    decreases op, 1
  {
    match op
    case And(cs) => FailureInScan(env, op, cs, false);
    case Or(cs) => FailureInScan(env, op, cs, true);
    case Not(o) =>
      FailureIsAReachedLeaf(env, o);
      assert Meaning(env, Lowered(env.lib, op)).at[1..] == Meaning(env, Lowered(env.lib, o)).at;
    case _ =>
  }

  lemma {:induction false} FailureInScan(env: Env, op: Op, cs: seq<Op>, stop: bool)
    requires IsBranch(op, cs, stop) && WellFormed(env.lib, op) && Meaning(env, Lowered(env.lib, op)).res.Err?
    ensures FailsAt(env, op, Meaning(env, Lowered(env.lib, op)).at, Meaning(env, Lowered(env.lib, op)).res.error)
    decreases op, 0
  {
    var k := ScanEnds(env, LoweredAll(env.lib, cs), 0, stop);
    FailureIsAReachedLeaf(env, cs[k]);
    assert Meaning(env, Lowered(env.lib, op)).at[1..] == Meaning(env, Lowered(env.lib, cs[k])).at;
  }

  lemma {:induction false} ReachedFailureIsReported(env: Env, op: Op, path: seq<nat>, e: RuntimeError)
    requires WellFormed(env.lib, op) && FailsAt(env, op, path, e)
    ensures Meaning(env, Lowered(env.lib, op)).res == Err(e) && Meaning(env, Lowered(env.lib, op)).at == path
    decreases path, 1
  {
    if path != [] {
      match op
      case And(cs) => ReachedFailureInScan(env, op, cs, false, path, e);
      case Or(cs) => ReachedFailureInScan(env, op, cs, true, path, e);
      case Not(o) =>
        ReachedFailureIsReported(env, o, path[1..], e);
        assert path == [0] + path[1..];
      case _ =>
    }
  }

  lemma {:induction false} ReachedFailureInScan(env: Env, op: Op, cs: seq<Op>, stop: bool, path: seq<nat>,
                                                e: RuntimeError)
    requires IsBranch(op, cs, stop) && path != [] && WellFormed(env.lib, op) && FailsAt(env, op, path, e)
    ensures Meaning(env, Lowered(env.lib, op)).res == Err(e) && Meaning(env, Lowered(env.lib, op)).at == path
    decreases path, 0
  {
    ReachedFailureIsReported(env, cs[path[0]], path[1..], e);
    var k := ScanEnds(env, LoweredAll(env.lib, cs), 0, stop);
    assert k == path[0] && path == [k] + path[1..];
  }

  /** With enough gas, evaluation fails exactly when it gets to a leaf that fails; then the error is that
      leaf's, and the two kinds that carry a path carry that leaf's path. */
  lemma RuntimeErrorsAreLocated(env: Env, op: Op, gas: nat, path: seq<nat>, e: RuntimeError)
    requires WellFormed(env.lib, op) && gas >= Meaning(env, Lowered(env.lib, op)).cost
    ensures FailsAt(env, op, path, e) ==>
      Evaluated(env, Lowered(env.lib, op), gas) ==
        match e
        case InvalidTypeComparison(_, msg) => Err(InvalidTypeComparison([0] + path, msg))
        case InvalidJsonPath(_, msg) => Err(RuntimeError.InvalidJsonPath([0] + path, msg))
        case _ => Err(e)
    ensures Evaluated(env, Lowered(env.lib, op), gas).Err? ==>
      var m := Meaning(env, Lowered(env.lib, op));
      && FailsAt(env, op, m.at, m.res.error)
      && Evaluated(env, Lowered(env.lib, op), gas) == Err(m.res.error.SetPath([0] + m.at))
  {
    if FailsAt(env, op, path, e) { ReachedFailureIsReported(env, op, path, e); }
    if Meaning(env, Lowered(env.lib, op)).res.Err? { FailureIsAReachedLeaf(env, op); }
  }

  // ---- Responses without a body --------------------------------------------------------------

  function WithBody(env: Env, body: seq<bv8>): Env { Env(env.lib, env.resp.(body := body)) }

  lemma {:induction false} BodyIsNotRead(env: Env, op: Op, body: seq<bv8>)
    requires WellFormed(env.lib, op) && !RequiresBody(op)
    ensures Meaning(env, Lowered(env.lib, op)) == Meaning(WithBody(env, body), Lowered(env.lib, op))
    decreases op
  {
    match op
    case And(cs) => BodyIsNotScanned(env, cs, 0, false, body);
    case Or(cs) => BodyIsNotScanned(env, cs, 0, true, body);
    case Not(o) => BodyIsNotRead(env, o, body);
    case _ =>
  }

  lemma {:induction false} BodyIsNotScanned(env: Env, cs: seq<Op>, i: nat, stop: bool, body: seq<bv8>)
    requires i <= |cs| && forall j :: 0 <= j < |cs| ==> WellFormed(env.lib, cs[j]) && !RequiresBody(cs[j])
    ensures Scan(env, LoweredAll(env.lib, cs), i, stop) == Scan(WithBody(env, body), LoweredAll(env.lib, cs), i, stop)
    decreases cs, |cs| - i
  {
    if i < |cs| {
      BodyIsNotRead(env, cs[i], body);
      BodyIsNotScanned(env, cs, i + 1, stop, body);
    }
  }

  /** Skipping the download is safe: without a leaf that reads it, the body changes neither the outcome nor the gas. */
  lemma BodyCanBeSkipped(env: Env, op: Op, maxOps: nat, gas: nat, body: seq<bv8>)
    requires Compiled(env.lib, op, maxOps).Ok? && !RequiresBody(op)
    ensures var code := Compiled(env.lib, op, maxOps).value;
      && Meaning(env, code).cost == Meaning(WithBody(env, body), code).cost
      && Evaluated(env, code, gas) == Evaluated(WithBody(env, body), code, gas)
  {
    BudgetIsExact(env.lib, op, maxOps);
    BodyIsNotRead(env, op, body);
  }

  lemma {:induction false} BodyIsRequiredBelow(cs: seq<Op>, n: nat, here: seq<nat>)
    requires n <= |cs|
    ensures (exists s :: s in PreorderAll(cs, n, here) && s.op.JsonPath?) <==>
            exists i :: 0 <= i < n && RequiresBody(cs[i])
    decreases cs, n
  {
    if n > 0 {
      BodyIsRequiredBelow(cs, n - 1, here);
      BodyIsRequiredExactly(cs[n - 1], here + [n - 1]);
    }
  }

  /** The body is required exactly when some node of the tree is a JSONPath leaf. */
  lemma {:induction false} BodyIsRequiredExactly(op: Op, here: seq<nat>)
    ensures RequiresBody(op) <==> exists s :: s in Preorder(op, here) && s.op.JsonPath?
    decreases op
  {
    var rest := Preorder(op, here)[1..];
    assert Preorder(op, here) == [Site(here, op)] + rest;
    match op
    case And(cs) => BodyIsRequiredBelow(cs, |cs|, here);
    case Or(cs) => BodyIsRequiredBelow(cs, |cs|, here);
    case Not(o) => BodyIsRequiredExactly(o, here + [0]);
    case _ => assert Site(here, op) in Preorder(op, here);
  }
}
