/** What the gas of an evaluation pays for (src/assertions/compiled.rs). */
module Costs {
  import opened Prelude
  import opened Assertions
  import opened Libraries
  import opened Compile
  import opened Evaluate
  import opened Verdicts
  import opened Leaves

  /** The cost of a site's leaf if evaluation of `root` gets to it; the site's path is relative to
      `root` from position n on. */
  ghost function Weight(env: Env, root: Op, s: Site, n: nat): nat
    requires WellFormed(env.lib, root)
  {
    if n <= |s.path| && IsLeaf(s.op) && WellFormed(env.lib, s.op) && Reached(env, root, s.path[n..])
    then LeafOutcome(env, s.op).cost
    else 0
  }

  ghost function WeightSum(env: Env, root: Op, sites: seq<Site>, n: nat): nat
    requires WellFormed(env.lib, root)
  {
    if sites == [] then 0 else Weight(env, root, sites[0], n) + WeightSum(env, root, sites[1..], n)
  }

  lemma {:induction false} WeightSumConcat(env: Env, root: Op, a: seq<Site>, b: seq<Site>, n: nat)
    requires WellFormed(env.lib, root)
    ensures WeightSum(env, root, a + b, n) == WeightSum(env, root, a, n) + WeightSum(env, root, b, n)
  {
    if a == [] {
      assert a + b == b;
    } else {
      assert (a + b)[1..] == a[1..] + b;
      WeightSumConcat(env, root, a[1..], b, n);
    }
  }

  /** Evaluation gets to child k: no earlier child failed or stopped the scan. */
  ghost predicate GetsTo(env: Env, cs: seq<Code>, stop: bool, k: nat)
    requires k <= |cs|
  {
    forall j :: 0 <= j < k ==> Meaning(env, cs[j]).res.Ok? && Meaning(env, cs[j]).res.value.result == !stop
  }

  lemma {:induction false} ChildWeights(env: Env, op: Op, cs: seq<Op>, stop: bool, k: nat, sites: seq<Site>, n: nat)
    requires WellFormed(env.lib, op) && IsBranch(op, cs, stop) && k < |cs|
    requires forall s :: s in sites ==> n < |s.path| && s.path[n] == k
    ensures WeightSum(env, op, sites, n) ==
            if GetsTo(env, LoweredAll(env.lib, cs), stop, k) then WeightSum(env, cs[k], sites, n + 1) else 0
  {
    if sites != [] {
      var s := sites[0];
      assert s.path[n..][0] == k && s.path[n..][1..] == s.path[n + 1..];
      ChildWeights(env, op, cs, stop, k, sites[1..], n);
    }
  }

  lemma {:induction false} OperandWeights(env: Env, o: Op, sites: seq<Site>, n: nat)
    requires WellFormed(env.lib, o)
    requires forall s :: s in sites ==> n < |s.path| && s.path[n] == 0
    ensures WeightSum(env, Not(o), sites, n) == WeightSum(env, o, sites, n + 1)
  {
    if sites != [] {
      var s := sites[0];
      assert s.path[n..][0] == 0 && s.path[n..][1..] == s.path[n + 1..];
      OperandWeights(env, o, sites[1..], n);
    }
  }

  /** What the first m children cost, as far as evaluation gets to them. */
  ghost function Spent(env: Env, cs: seq<Code>, stop: bool, m: nat): nat
    requires m <= |cs|
  {
    if m == 0 then 0
    else Spent(env, cs, stop, m - 1) + if GetsTo(env, cs, stop, m - 1) then Meaning(env, cs[m - 1]).cost else 0
  }

  lemma {:induction false} NothingSpentAfterTheEnd(env: Env, cs: seq<Code>, stop: bool, k: nat, m: nat)
    requires k <= m <= |cs| && !GetsTo(env, cs, stop, k)
    ensures Spent(env, cs, stop, m) == Spent(env, cs, stop, k)
    decreases m
  {
    if k < m { NothingSpentAfterTheEnd(env, cs, stop, k, m - 1); }
  }

  lemma {:induction false} ScanCost(env: Env, cs: seq<Code>, stop: bool, i: nat)
    requires i <= |cs| && GetsTo(env, cs, stop, i)
    ensures Spent(env, cs, stop, i) + Scan(env, cs, i, stop).cost == Spent(env, cs, stop, |cs|)
    decreases |cs| - i
  {
    if i < |cs| {
      if GetsTo(env, cs, stop, i + 1) {
        ScanCost(env, cs, stop, i + 1);
      } else {
        NothingSpentAfterTheEnd(env, cs, stop, i + 1, |cs|);
      }
    }
  }

  lemma TopWeight(env: Env, op: Op, here: seq<nat>)
    requires WellFormed(env.lib, op)
    ensures WeightSum(env, op, Preorder(op, here), |here|) ==
            (if IsLeaf(op) then LeafOutcome(env, op).cost else 0) + WeightSum(env, op, Preorder(op, here)[1..], |here|)
  {
    assert Preorder(op, here)[0] == Site(here, op);
    assert here[|here|..] == [];
  }

  lemma PathsBelow(op: Op, here: seq<nat>, k: nat)
    ensures forall s :: s in Preorder(op, here + [k]) ==> |here| < |s.path| && s.path[|here|] == k
  {
    forall s | s in Preorder(op, here + [k])
      ensures |here| < |s.path| && s.path[|here|] == k
    {
      SiteAddress(op, here + [k], s);
    }
  }

  /** The weights of child k sum up to its cost, if evaluation gets to it. */
  ghost predicate ChildPays(env: Env, op: Op, cs: seq<Op>, stop: bool, k: nat, here: seq<nat>)
    requires WellFormed(env.lib, op) && IsBranch(op, cs, stop) && k < |cs|
  {
    WeightSum(env, op, Preorder(cs[k], here + [k]), |here|) ==
    if GetsTo(env, LoweredAll(env.lib, cs), stop, k) then Meaning(env, Lowered(env.lib, cs[k])).cost else 0
  }

  lemma NextChildPays(env: Env, op: Op, cs: seq<Op>, stop: bool, m: nat, here: seq<nat>)
    requires WellFormed(env.lib, op) && IsBranch(op, cs, stop) && m < |cs| && ChildPays(env, op, cs, stop, m, here)
    requires WeightSum(env, op, PreorderAll(cs, m, here), |here|) == Spent(env, LoweredAll(env.lib, cs), stop, m)
    ensures WeightSum(env, op, PreorderAll(cs, m + 1, here), |here|) ==
            Spent(env, LoweredAll(env.lib, cs), stop, m + 1)
  {
    var before, next := PreorderAll(cs, m, here), Preorder(cs[m], here + [m]);
    assert PreorderAll(cs, m + 1, here) == before + next;
    WeightSumConcat(env, op, before, next, |here|);
  }

  lemma {:induction false} ChildrenCost(env: Env, op: Op, cs: seq<Op>, stop: bool, m: nat, here: seq<nat>)
    requires WellFormed(env.lib, op) && IsBranch(op, cs, stop) && m <= |cs|
    requires forall k :: 0 <= k < |cs| ==> ChildPays(env, op, cs, stop, k, here)
    ensures WeightSum(env, op, PreorderAll(cs, m, here), |here|) == Spent(env, LoweredAll(env.lib, cs), stop, m)
    decreases m
  {
    if m > 0 {
      ChildrenCost(env, op, cs, stop, m - 1, here);
      NextChildPays(env, op, cs, stop, m - 1, here);
    }
  }

  lemma NotWeight(env: Env, o: Op, here: seq<nat>)
    requires WellFormed(env.lib, o)
    ensures WeightSum(env, Not(o), Preorder(Not(o), here), |here|) ==
            WeightSum(env, o, Preorder(o, here + [0]), |here| + 1)
  {
    TopWeight(env, Not(o), here);
    PathsBelow(o, here, 0);
    OperandWeights(env, o, Preorder(o, here + [0]), |here|);
    assert Preorder(Not(o), here)[1..] == Preorder(o, here + [0]);
  }

  lemma NotMeaning(env: Env, o: Op)
    requires WellFormed(env.lib, o)
    ensures Meaning(env, Lowered(env.lib, Not(o))).cost == Meaning(env, Lowered(env.lib, o)).cost
  {
  }

  lemma LeafWeight(env: Env, op: Op, here: seq<nat>)
    requires WellFormed(env.lib, op) && IsLeaf(op)
    ensures WeightSum(env, op, Preorder(op, here), |here|) == LeafOutcome(env, op).cost
  {
    TopWeight(env, op, here);
    assert Preorder(op, here)[1..] == [];
  }

  lemma LeafCost(env: Env, op: Op)
    requires WellFormed(env.lib, op) && IsLeaf(op)
    ensures Meaning(env, Lowered(env.lib, op)).cost == LeafOutcome(env, op).cost
  {
  }

  /** The gas a tree takes is the sum, over the leaves that short-circuit evaluation gets to, of what each
      of them takes: nothing is charged for inner nodes or for leaves that are skipped. */
  lemma {:induction false} GasPaysForReachedLeaves(env: Env, op: Op, here: seq<nat>)
    requires WellFormed(env.lib, op)
    ensures WeightSum(env, op, Preorder(op, here), |here|) == Meaning(env, Lowered(env.lib, op)).cost
    decreases op, 2
  {
    match op
    case And(cs) => BranchCost(env, op, cs, false, here);
    case Or(cs) => BranchCost(env, op, cs, true, here);
    case Not(o) =>
      GasPaysForReachedLeaves(env, o, here + [0]);
      NotWeight(env, o, here);
      NotMeaning(env, o);
    case _ =>
      LeafWeight(env, op, here);
      LeafCost(env, op);
  }

  lemma {:induction false} BranchCost(env: Env, op: Op, cs: seq<Op>, stop: bool, here: seq<nat>)
    requires WellFormed(env.lib, op) && IsBranch(op, cs, stop)
    ensures WeightSum(env, op, Preorder(op, here), |here|) == Meaning(env, Lowered(env.lib, op)).cost
    decreases op, 1
  {
    forall k | 0 <= k < |cs|
      ensures ChildPays(env, op, cs, stop, k, here)
    {
      ChildCost(env, op, cs, stop, k, here);
    }
    ChildrenCost(env, op, cs, stop, |cs|, here);
    ScanCost(env, LoweredAll(env.lib, cs), stop, 0);
    TopWeight(env, op, here);
    assert Preorder(op, here)[1..] == PreorderAll(cs, |cs|, here);
  }

  lemma {:induction false} ChildCost(env: Env, op: Op, cs: seq<Op>, stop: bool, k: nat, here: seq<nat>)
    requires WellFormed(env.lib, op) && IsBranch(op, cs, stop) && k < |cs|
    ensures ChildPays(env, op, cs, stop, k, here)
    decreases op, 0
  {
    PathsBelow(cs[k], here, k);
    ChildWeights(env, op, cs, stop, k, Preorder(cs[k], here + [k]), |here|);
    GasPaysForReachedLeaves(env, cs[k], here + [k]);
  }

  /** The gas limit is a threshold: below what the reached leaves take every evaluation ends in
      `TookTooLong`, from there on the limit does not matter, and so raising it never changes an outcome
      that is not `TookTooLong`. */
  lemma GasIsAThreshold(env: Env, op: Op, gas: nat, gas': nat)
    requires WellFormed(env.lib, op) && gas <= gas'
    ensures var code := Lowered(env.lib, op);
      var needed := WeightSum(env, op, Preorder(op, [0]), 1);
      && (gas < needed ==> Evaluated(env, code, gas) == Err(TookTooLong([])))
      && (gas >= needed ==> Evaluated(env, code, gas) == Evaluated(env, code, gas'))
      && (Evaluated(env, code, gas) != Err(TookTooLong([])) ==> Evaluated(env, code, gas') == Evaluated(env, code, gas))
  {
    GasPaysForReachedLeaves(env, op, [0]);
  }

  // ---- What `TookTooLong` means --------------------------------------------------------------

  /** An evaluation reports `TookTooLong` if and only if its gas is below what the reached leaves take, or
      it reaches a leaf that trips over a value that is no string. */
  lemma TookTooLongExactly(env: Env, op: Op, gas: nat)
    requires WellFormed(env.lib, op)
    ensures Evaluated(env, Lowered(env.lib, op), gas) == Err(TookTooLong([])) <==>
            || gas < WeightSum(env, op, Preorder(op, [0]), 1)
            || exists path :: FailsAt(env, op, path, TookTooLong([]))
  {
    GasPaysForReachedLeaves(env, op, [0]);
    var m := Meaning(env, Lowered(env.lib, op));
    if m.res.Err? { FailureIsAReachedLeaf(env, op); }
    if path :| FailsAt(env, op, path, TookTooLong([])) {
      ReachedFailureIsReported(env, op, path, TookTooLong([]));
    }
  }

  /** The leaf at the end of such a path, told from the tree and the response. */
  lemma FailsByTrippingExactly(env: Env, op: Op, path: seq<nat>)
    requires WellFormed(env.lib, op) && NodeAt(op, path).Some?
    requires IsLeaf(NodeAt(op, path).value) && WellFormed(env.lib, NodeAt(op, path).value)
    ensures FailsAt(env, op, path, TookTooLong([])) <==>
            Reached(env, op, path) && Trips(env, Lowered(env.lib, NodeAt(op, path).value))
  {
    LeafTripsExactly(env, Lowered(env.lib, NodeAt(op, path).value));
  }

  /** A tree and a response for which no gas is enough: a number compared with a glob. */
  lemma NoGasIsEnough() returns (env: Env, op: Op)
    ensures WellFormed(env.lib, op)
    ensures forall gas :: Evaluated(env, Lowered(env.lib, op), gas) == Err(TookTooLong([]))
  {
    var one := Json("1", Some(Finite(1.0)), Some(1), None);
    var lib := Library(
      s => Ok(Pattern(s)),
      (_, _) => true,
      s => Ok(JpQuery(s)),
      _ => Ok(one),
      (_, _) => QueryRun(1, Ok([one])),
      _ => Err("no number"),
      _ => Err("no number"));
    env := Env(lib, Response(200, [], []));
    op := JsonPath("$", Equals, Glob("*"));
    assert TripsAt(lib, Pattern("*"), Equals, [one], 0);
    LeafTripsExactly(env, Lowered(lib, op));
  }
}
