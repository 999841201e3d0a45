/** What pruning an assertion to the reason for its verdict keeps (src/assertions/compiled.rs). */
module Pruning {
  import opened Prelude
  import opened Assertions
  import opened Libraries
  import opened Compile
  import opened Evaluate
  import opened Verdicts

  /** The part of a source tree that a reason path, found on its compiled tree, points at.
      None stands for the two panics: a child index out of bounds and a leaf with a child. */
  function ExtractFailureData(path: EvalPath, op: Op): Option<Op>
    decreases path
  {
    match path
    case Leaf => Some(op)
    case AllChildren => Some(op)
    case ChildIndex(i, child) =>
      match op
      case And(cs) => (
        if i >= |cs| then None
        else match ExtractFailureData(child, cs[i]) case None => None case Some(p) => Some(And([p])))
      case Or(cs) => (
        if i >= |cs| then None
        else match ExtractFailureData(child, cs[i]) case None => None case Some(p) => Some(Or([p])))
      case Not(o) => (
        match ExtractFailureData(child, o) case None => None case Some(p) => Some(Not(p)))
      case _ => None
  }

  /** The child at which a scan stops accounts for its verdict and for part of its cost. */
  lemma {:induction false} ScanStopsAt(env: Env, cs: seq<Code>, i: nat, stop: bool)
    requires i <= |cs| && Scan(env, cs, i, stop).res.Ok?
    ensures var v := Scan(env, cs, i, stop).res.value;
      || v == EvalResult(AllChildren, !stop)
      || (&& v.reason.ChildIndex? && v.result == stop && i <= v.reason.index < |cs|
          && Meaning(env, cs[v.reason.index]).res == Ok(EvalResult(v.reason.child, stop))
          && Meaning(env, cs[v.reason.index]).cost <= Scan(env, cs, i, stop).cost)
    decreases |cs| - i
  {
    if i < |cs| {
      var m := Meaning(env, cs[i]);
      if m.res.Ok? && m.res.value.result != stop { ScanStopsAt(env, cs, i + 1, stop); }
    }
  }

  /** A one-child scan that stops at its child. */
  lemma ScanOfOne(env: Env, c: Code, stop: bool)
    requires Meaning(env, c).res.Ok? && Meaning(env, c).res.value.result == stop
    ensures Scan(env, [c], 0, stop) ==
            Outcome(Meaning(env, c).cost, Ok(EvalResult(ChildIndex(0, Meaning(env, c).res.value.reason), stop)), [])
  {
  }

  /** Everything pruning promises, for one tree and one response. */
  ghost predicate PrunesWell(env: Env, op: Op)
    requires WellFormed(env.lib, op) && Meaning(env, Lowered(env.lib, op)).res.Ok?
  {
    var m := Meaning(env, Lowered(env.lib, op));
    match ExtractFailureData(m.res.value.reason, op)
    case None => false
    case Some(p) =>
      && NodeCount(p) <= NodeCount(op)
      && WellFormed(env.lib, p)
      && var m' := Meaning(env, Lowered(env.lib, p));
      && m'.cost <= m.cost
      && m'.res.Ok?
      && m'.res.value.result == m.res.value.result
      && ExtractFailureData(m'.res.value.reason, p) == Some(p)
  }

  lemma {:induction false} PruneInduction(env: Env, op: Op)
    requires WellFormed(env.lib, op) && Meaning(env, Lowered(env.lib, op)).res.Ok?
    ensures PrunesWell(env, op)
    decreases op
  {
    var v := Meaning(env, Lowered(env.lib, op)).res.value;
    match op
    case And(cs) =>
      ScanStopsAt(env, LoweredAll(env.lib, cs), 0, false);
      if v.reason.ChildIndex? { PruneChild(env, op, cs, v.reason.index, false); }
    case Or(cs) =>
      ScanStopsAt(env, LoweredAll(env.lib, cs), 0, true);
      if v.reason.ChildIndex? { PruneChild(env, op, cs, v.reason.index, true); }
    case Not(o) =>
      PruneInduction(env, o);
    case _ =>
  }

  lemma {:induction false} PruneChild(env: Env, op: Op, cs: seq<Op>, k: nat, stop: bool)
    requires op == (if stop then Or(cs) else And(cs)) && WellFormed(env.lib, op) && k < |cs|
    requires var m := Meaning(env, Lowered(env.lib, op));
      && m.res.Ok? && m.res.value.result == stop && m.res.value.reason.ChildIndex? && m.res.value.reason.index == k
      && Meaning(env, Lowered(env.lib, cs[k])).res == Ok(EvalResult(m.res.value.reason.child, stop))
      && Meaning(env, Lowered(env.lib, cs[k])).cost <= m.cost
    ensures PrunesWell(env, op)
    decreases op, 0
  {
    PruneInduction(env, cs[k]);
    var p := ExtractFailureData(Meaning(env, Lowered(env.lib, cs[k])).res.value.reason, cs[k]).value;
    var pruned := if stop then Or([p]) else And([p]);
    NodeCountOfChild(cs, |cs|, k);
    assert NodeCounts([p], 1) == NodeCounts([p], 0) + NodeCount(p);
    assert LoweredAll(env.lib, [p]) == [Lowered(env.lib, p)];
    ScanOfOne(env, Lowered(env.lib, p), stop);
  }

  /** If a tree compiles and evaluates, then pruning it by its reason path is total; the pruned tree
      compiles under the same budget and, on the same response and gas, has the same verdict for no
      more gas; and pruning again changes nothing. */
  lemma PruningKeepsTheVerdict(env: Env, op: Op, maxOps: nat, gas: nat)
    requires Compiled(env.lib, op, maxOps).Ok?
    requires Evaluated(env, Compiled(env.lib, op, maxOps).value, gas).Ok?
    ensures var code := Compiled(env.lib, op, maxOps).value;
      var v := Evaluated(env, code, gas).value;
      var pruned := ExtractFailureData(v.reason, op);
      && pruned.Some?
      && NodeCount(pruned.value) <= NodeCount(op)
      && Compiled(env.lib, pruned.value, maxOps).Ok?
      && var code' := Compiled(env.lib, pruned.value, maxOps).value;
      && Meaning(env, code').cost <= Meaning(env, code).cost <= gas
      && Evaluated(env, code', gas).Ok?
      && Evaluated(env, code', gas).value.result == v.result
      && ExtractFailureData(Evaluated(env, code', gas).value.reason, pruned.value) == pruned
  {
    BudgetIsExact(env.lib, op, maxOps);
    PruneInduction(env, op);
    var p := ExtractFailureData(Meaning(env, Lowered(env.lib, op)).res.value.reason, op).value;
    BudgetIsExact(env.lib, p, maxOps);
  }

  // ---- The pruned tree explains the verdict --------------------------------------------------

  /** If some child evaluates to `stop` on this response and the scan does not fail, it stops. */
  lemma {:induction false} ScanMustStop(env: Env, cs: seq<Code>, i: nat, stop: bool, k: nat)
    requires i <= k < |cs| && Scan(env, cs, i, stop).res.Ok?
    requires Meaning(env, cs[k]).res.Ok? ==> Meaning(env, cs[k]).res.value.result == stop
    ensures Scan(env, cs, i, stop).res.value.result == stop
    decreases |cs| - i
  {
    var m := Meaning(env, cs[i]);
    if m.res.value.result != stop { ScanMustStop(env, cs, i + 1, stop, k); }
  }

  /** The pruned tree is a sufficient reason: on ANY other response on which it has the verdict it was
      extracted for, the whole tree has that verdict too (unless evaluating the whole tree fails). */
  lemma {:induction false} PrunedTreeIsSufficient(env: Env, op: Op, other: Response)
    requires WellFormed(env.lib, op) && Meaning(env, Lowered(env.lib, op)).res.Ok?
    requires PrunesWell(env, op)
    requires var v := Meaning(env, Lowered(env.lib, op)).res.value;
      var p := ExtractFailureData(v.reason, op).value;
      var m := Meaning(Env(env.lib, other), Lowered(env.lib, p));
      m.res.Ok? && m.res.value.result == v.result
    requires Meaning(Env(env.lib, other), Lowered(env.lib, op)).res.Ok?
    ensures Meaning(Env(env.lib, other), Lowered(env.lib, op)).res.value.result ==
            Meaning(env, Lowered(env.lib, op)).res.value.result
    decreases op
  {
    var v := Meaning(env, Lowered(env.lib, op)).res.value;
    match op
    case And(cs) =>
      ScanStopsAt(env, LoweredAll(env.lib, cs), 0, false);
      if v.reason.ChildIndex? { SufficientChild(env, op, cs, v.reason.index, false, other); }
    case Or(cs) =>
      ScanStopsAt(env, LoweredAll(env.lib, cs), 0, true);
      if v.reason.ChildIndex? { SufficientChild(env, op, cs, v.reason.index, true, other); }
    case Not(o) =>
      PruneInduction(env, o);
      PrunedTreeIsSufficient(env, o, other);
    case _ =>
  }

  lemma {:induction false} SufficientChild(env: Env, op: Op, cs: seq<Op>, k: nat, stop: bool, other: Response)
    requires op == (if stop then Or(cs) else And(cs)) && WellFormed(env.lib, op) && k < |cs|
    requires var m := Meaning(env, Lowered(env.lib, op));
      && m.res.Ok? && m.res.value.result == stop && m.res.value.reason.ChildIndex? && m.res.value.reason.index == k
      && Meaning(env, Lowered(env.lib, cs[k])).res == Ok(EvalResult(m.res.value.reason.child, stop))
    requires PrunesWell(env, op)
    requires var p := ExtractFailureData(Meaning(env, Lowered(env.lib, op)).res.value.reason, op).value;
      var m := Meaning(Env(env.lib, other), Lowered(env.lib, p));
      m.res.Ok? && m.res.value.result == stop
    requires Meaning(Env(env.lib, other), Lowered(env.lib, op)).res.Ok?
    ensures Meaning(Env(env.lib, other), Lowered(env.lib, op)).res.value.result == stop
    decreases op, 0
  {
    var env' := Env(env.lib, other);
    PruneInduction(env, cs[k]);
    var p := ExtractFailureData(Meaning(env, Lowered(env.lib, cs[k])).res.value.reason, cs[k]).value;
    assert LoweredAll(env.lib, [p]) == [Lowered(env.lib, p)];
    ScanStopsAt(env', [Lowered(env.lib, p)], 0, stop);
    if Meaning(env', Lowered(env.lib, cs[k])).res.Ok? {
      PrunedTreeIsSufficient(env, cs[k], other);
    }
    ScanMustStop(env', LoweredAll(env.lib, cs), 0, stop, k);
  }

  /** `PrunedTreeIsSufficient` for the calls a checker makes, each under its own gas limit. */
  lemma PruningExplainsTheVerdict(env: Env, op: Op, maxOps: nat, gas: nat, other: Response, gas': nat, gas'': nat)
    requires Compiled(env.lib, op, maxOps).Ok?
    requires Evaluated(env, Compiled(env.lib, op, maxOps).value, gas).Ok?
    requires var reason := Evaluated(env, Compiled(env.lib, op, maxOps).value, gas).value.reason;
      var pruned := ExtractFailureData(reason, op);
      && pruned.Some? && Compiled(env.lib, pruned.value, maxOps).Ok?
      && var on := Evaluated(Env(env.lib, other), Compiled(env.lib, pruned.value, maxOps).value, gas');
      on.Ok? && on.value.result == Evaluated(env, Compiled(env.lib, op, maxOps).value, gas).value.result
    requires Evaluated(Env(env.lib, other), Compiled(env.lib, op, maxOps).value, gas'').Ok?
    ensures Evaluated(Env(env.lib, other), Compiled(env.lib, op, maxOps).value, gas'').value.result ==
            Evaluated(env, Compiled(env.lib, op, maxOps).value, gas).value.result
  {
    BudgetIsExact(env.lib, op, maxOps);
    PruneInduction(env, op);
    var p := ExtractFailureData(Meaning(env, Lowered(env.lib, op)).res.value.reason, op).value;
    BudgetIsExact(env.lib, p, maxOps);
    PrunedTreeIsSufficient(env, op, other);
  }

  // ---- What is cut away ----------------------------------------------------------------------

  /** `pruned` is `op` with every node on the way along `path` left with a single child, the one on the way,
      and the node at the end left whole. */
  predicate CutAlong(op: Op, path: seq<nat>, pruned: Op) {
    if path == [] then pruned == op
    else
      match op
      case And(cs) =>
        pruned.And? && |pruned.children| == 1 && path[0] < |cs| && CutAlong(cs[path[0]], path[1..], pruned.children[0])
      case Or(cs) =>
        pruned.Or? && |pruned.children| == 1 && path[0] < |cs| && CutAlong(cs[path[0]], path[1..], pruned.children[0])
      case Not(o) => pruned.Not? && path[0] == 0 && CutAlong(o, path[1..], pruned.operand)
      case _ => false
  }

  /** Pruning along a reason that leads to a node cuts away everything off the way to it. */
  lemma {:induction false} PruningCutsAlong(op: Op, reason: EvalPath)
    requires NodeAt(op, Indices(reason)).Some?
    ensures ExtractFailureData(reason, op).Some?
    ensures CutAlong(op, Indices(reason), ExtractFailureData(reason, op).value)
    decreases reason
  {
    if reason.ChildIndex? {
      assert Indices(reason)[1..] == Indices(reason.child);
      match op
      case And(cs) => PruningCutsAlong(cs[reason.index], reason.child);
      case Or(cs) => PruningCutsAlong(cs[reason.index], reason.child);
      case Not(o) => PruningCutsAlong(o, reason.child);
    }
  }

  function Zeros(n: nat): seq<nat> { seq(n, _ => 0) }

  lemma FirstOfZeros(n: nat)
    requires n > 0
    ensures Zeros(n)[0] == 0 && Zeros(n)[1..] == Zeros(n - 1)
  {
  }

  lemma NodeCountOfOne(op: Op)
    ensures NodeCounts([op], 1) == NodeCount(op)
  {
    assert NodeCounts([op], 1) == NodeCounts([op], 0) + NodeCount(op);
  }

  /** Then the node at the end is the one in the whole tree, and besides it only the way to it is left. */
  lemma {:induction false} CutLeavesTheWay(op: Op, path: seq<nat>, pruned: Op)
    requires CutAlong(op, path, pruned)
    ensures NodeAt(op, path).Some?
    ensures NodeAt(pruned, Zeros(|path|)) == NodeAt(op, path)
    ensures NodeCount(pruned) == |path| + NodeCount(NodeAt(op, path).value)
    decreases path
  {
    if path != [] {
      FirstOfZeros(|path|);
      match op
      case And(cs) => CutLeavesTheWayBelow(cs[path[0]], path, pruned, pruned.children);
      case Or(cs) => CutLeavesTheWayBelow(cs[path[0]], path, pruned, pruned.children);
      case Not(o) => CutLeavesTheWay(o, path[1..], pruned.operand);
    }
  }

  lemma {:induction false} CutLeavesTheWayBelow(child: Op, path: seq<nat>, pruned: Op, rest: seq<Op>)
    requires path != [] && |rest| == 1 && (pruned == And(rest) || pruned == Or(rest))
    requires CutAlong(child, path[1..], rest[0])
    ensures NodeAt(child, path[1..]).Some?
    ensures NodeAt(pruned, Zeros(|path|)) == NodeAt(child, path[1..])
    ensures NodeCount(pruned) == |path| + NodeCount(NodeAt(child, path[1..]).value)
    decreases path, 0
  {
    FirstOfZeros(|path|);
    CutLeavesTheWay(child, path[1..], rest[0]);
    NodeCountOfOne(rest[0]);
    assert rest == [rest[0]];
  }

  /** For a tree that compiles and evaluates: of the tree, exactly the node that decides the verdict and the
      way to it remain. */
  lemma PrunedTreeIsTheDecider(env: Env, op: Op, maxOps: nat, gas: nat)
    requires Compiled(env.lib, op, maxOps).Ok?
    requires Evaluated(env, Compiled(env.lib, op, maxOps).value, gas).Ok?
    ensures var reason := Evaluated(env, Compiled(env.lib, op, maxOps).value, gas).value.reason;
      var path := Indices(reason);
      && WellFormed(env.lib, op) && Decides(env, op, path) && NodeAt(op, path).Some?
      && ExtractFailureData(reason, op).Some?
      && var pruned := ExtractFailureData(reason, op).value;
      && CutAlong(op, path, pruned)
      && NodeAt(pruned, Zeros(|path|)) == NodeAt(op, path)
      && NodeCount(pruned) == |path| + NodeCount(NodeAt(op, path).value)
  {
    BudgetIsExact(env.lib, op, maxOps);
    ReasonDecides(env, op);
    var reason := Meaning(env, Lowered(env.lib, op)).res.value.reason;
    PruningCutsAlong(op, reason);
    CutLeavesTheWay(op, Indices(reason), ExtractFailureData(reason, op).value);
  }
}
