/** The tree labeller that lgeng.l emits: bottom-up dynamic programming with chain rules. */
module Labeller {

  /** What the costs start from, and what no recorded cost exceeds. */
  const LIMIT: nat := 0x7FFF

  datatype Pattern = Var(n: nat) | Op(op: nat, kids: seq<Pattern>)

  /** packed numbers the rules of one left-hand side. A rule whose pattern is a variable is a chain rule. */
  datatype Rule = Rule(lhs: nat, pattern: Pattern, cost: nat, packed: nat)

  /** terms lists the operators that are declared. For each of them, terminals lists the rules with that operator at the
      root of their pattern; chain lists the chain rules by their variable. */
  datatype RawSpec = RawSpec(nts: nat, rules: seq<Rule>, terms: seq<nat>, terminals: map<nat, seq<nat>>, chain: seq<seq<nat>>)

  datatype Tree = Tree(op: nat, kids: seq<Tree>)

  ghost predicate SpecOk(g: RawSpec)
  {
    && |g.chain| == g.nts && (forall op: nat :: op in g.terminals <==> op in g.terms)
    && (forall r :: 0 <= r < |g.rules| ==> g.rules[r].lhs < g.nts && PatternOk(g, g.rules[r].pattern))
    && (forall op: nat, r: nat :: ListsOp(g, op, r) <==> r < |g.rules| && g.rules[r].pattern.Op? && g.rules[r].pattern.op == op)
    && (forall p: nat, r: nat :: ListsChain(g, p, r) <==> r < |g.rules| && g.rules[r].pattern == Var(p))
  }

  ghost predicate ListsOp(g: RawSpec, op: nat, r: nat)
  {
    op in g.terminals && r in g.terminals[op]
  }

  ghost predicate ListsChain(g: RawSpec, p: nat, r: nat)
  {
    p < |g.chain| && r in g.chain[p]
  }

  /** A pattern is made of the variables and of operators that are declared. */
  ghost predicate PatternOk(g: RawSpec, p: Pattern)
    decreases p
  {
    match p
    case Var(n) => n < g.nts
    case Op(op, kids) => op in g.terminals && forall k :: 0 <= k < |kids| ==> PatternOk(g, kids[k])
  }

  type Spec = g: RawSpec | SpecOk(g) witness RawSpec(0, [], [], map[], [])

  // ---------------------------------------------------------------------------------
  // Derivations: the ways to cover a tree from a variable.

  predicate Match(p: Pattern, t: Tree)
  {
    match p
    case Var(_) => true
    case Op(op, kids) => t.op == op && MatchAll(kids, t.kids)
  }

  predicate MatchAll(ps: seq<Pattern>, ts: seq<Tree>)
  {
    |ps| == |ts| && (ps == [] || (Match(ps[0], ts[0]) && MatchAll(ps[1..], ts[1..])))
  }

  /** The variables at the leaves of a matching pattern, each with the subtree that it has to cover. */
  ghost function Leaves(p: Pattern, t: Tree): seq<(nat, Tree)>
  {
    match p
    case Var(n) => [(n, t)]
    case Op(_, kids) => LeavesAll(kids, t.kids)
  }

  ghost function LeavesAll(ps: seq<Pattern>, ts: seq<Tree>): seq<(nat, Tree)>
  {
    if ps == [] || ts == [] then [] else Leaves(ps[0], ts[0]) + LeavesAll(ps[1..], ts[1..])
  }

  /** The variables of a pattern, from left to right. */
  ghost function Vars(p: Pattern): (vars: seq<nat>)
  {
    match p
    case Var(n) => [n]
    case Op(_, kids) => VarsAll(kids)
  }

  ghost function VarsAll(ps: seq<Pattern>): (vars: seq<nat>)
  {
    if ps == [] then [] else Vars(ps[0]) + VarsAll(ps[1..])
  }

  /** The pattern with trees in the places of its variables. */
  ghost function Fill(p: Pattern, ts: seq<Tree>): (t: Tree)
    requires |ts| == |Vars(p)|
  {
    match p
    case Var(_) => ts[0]
    case Op(op, kids) => Tree(op, FillAll(kids, ts))
  }

  ghost function FillAll(ps: seq<Pattern>, ts: seq<Tree>): (filled: seq<Tree>)
    requires |ts| == |VarsAll(ps)|
  {
    if ps == [] then [] else [Fill(ps[0], ts[..|Vars(ps[0])|])] + FillAll(ps[1..], ts[|Vars(ps[0])|..])
  }

  ghost function Trees(leaves: seq<(nat, Tree)>): (ts: seq<Tree>)
    ensures |ts| == |leaves|
  {
    seq(|leaves|, k requires 0 <= k < |leaves| => leaves[k].1)
  }

  ghost function Pairs(vars: seq<nat>, ts: seq<Tree>): (leaves: seq<(nat, Tree)>)
    requires |vars| == |ts|
    ensures |leaves| == |ts|
  {
    seq(|ts|, k requires 0 <= k < |ts| => (vars[k], ts[k]))
  }

  /** A tree that matches is the pattern filled with the trees at the leaves, which go to its variables in order. */
  lemma {:induction false} MatchFills(p: Pattern, t: Tree)
    requires Match(p, t)
    ensures |Leaves(p, t)| == |Vars(p)| && Fill(p, Trees(Leaves(p, t))) == t
    ensures Leaves(p, t) == Pairs(Vars(p), Trees(Leaves(p, t)))
    decreases p
  {
    if p.Op? {
      MatchAllFills(p.kids, t.kids);
    }
  }

  lemma {:induction false} MatchAllFills(ps: seq<Pattern>, ts: seq<Tree>)
    requires MatchAll(ps, ts)
    ensures |LeavesAll(ps, ts)| == |VarsAll(ps)| && FillAll(ps, Trees(LeavesAll(ps, ts))) == ts
    ensures LeavesAll(ps, ts) == Pairs(VarsAll(ps), Trees(LeavesAll(ps, ts)))
    decreases ps
  {
    if ps != [] {
      MatchFills(ps[0], ts[0]);
      MatchAllFills(ps[1..], ts[1..]);
      var all, m := Trees(LeavesAll(ps, ts)), |Vars(ps[0])|;
      assert all[..m] == Trees(Leaves(ps[0], ts[0])) && all[m..] == Trees(LeavesAll(ps[1..], ts[1..]));
      assert ts == [ts[0]] + ts[1..];
    }
  }

  /** A pattern filled with trees matches, and has them at its leaves. */
  lemma {:induction false} FillMatches(p: Pattern, ts: seq<Tree>)
    requires |ts| == |Vars(p)|
    ensures Match(p, Fill(p, ts)) && Leaves(p, Fill(p, ts)) == Pairs(Vars(p), ts)
    decreases p
  {
    if p.Op? {
      FillAllMatches(p.kids, ts);
    }
  }

  lemma {:induction false} FillAllMatches(ps: seq<Pattern>, ts: seq<Tree>)
    requires |ts| == |VarsAll(ps)|
    ensures MatchAll(ps, FillAll(ps, ts)) && LeavesAll(ps, FillAll(ps, ts)) == Pairs(VarsAll(ps), ts)
    decreases ps
  {
    if ps != [] {
      var m, filled := |Vars(ps[0])|, FillAll(ps, ts);
      FillMatches(ps[0], ts[..m]);
      FillAllMatches(ps[1..], ts[m..]);
      assert filled[1..] == FillAll(ps[1..], ts[m..]);
      assert ts == ts[..m] + ts[m..];
    }
  }

  /** The emitted test finds exactly the trees that the pattern stands for, and the emitted costs are taken from the trees in
      the places of its variables. */
  lemma MatchIsFill(p: Pattern, t: Tree)
    ensures Match(p, t) <==> exists ts: seq<Tree> :: |ts| == |Vars(p)| && Fill(p, ts) == t
    ensures forall ts: seq<Tree> :: |ts| == |Vars(p)| && Fill(p, ts) == t ==> Leaves(p, t) == Pairs(Vars(p), ts)
  {
    if Match(p, t) {
      MatchFills(p, t);
    }
    forall ts: seq<Tree> | |ts| == |Vars(p)| && Fill(p, ts) == t ensures Match(p, t) && Leaves(p, t) == Pairs(Vars(p), ts) {
      FillMatches(p, ts);
    }
  }

  /** A rule, and a derivation for every leaf of its pattern. */
  datatype Deriv = Deriv(rule: nat, kids: seq<Deriv>)

  /** d derives tree t from variable n. */
  ghost predicate Derives(g: Spec, d: Deriv, n: nat, t: Tree)
    decreases d, 0
  {
    && d.rule < |g.rules| && g.rules[d.rule].lhs == n && Match(g.rules[d.rule].pattern, t)
    && DerivesAll(g, d.kids, Leaves(g.rules[d.rule].pattern, t))
  }

  ghost predicate DerivesAll(g: Spec, ds: seq<Deriv>, leaves: seq<(nat, Tree)>)
    decreases ds, 1
  {
    |ds| == |leaves| && forall k :: 0 <= k < |ds| ==> Derives(g, ds[k], leaves[k].0, leaves[k].1)
  }

  ghost function Cost(g: Spec, d: Deriv): nat
    decreases d, 0
  {
    (if d.rule < |g.rules| then g.rules[d.rule].cost else 0) + CostAll(g, d.kids)
  }

  ghost function CostAll(g: Spec, ds: seq<Deriv>): nat
    decreases ds, 1
  {
    if ds == [] then 0 else Cost(g, ds[0]) + CostAll(g, ds[1..])
  }

  /** What a derivation derives, without any matching: the pattern of its rule, filled with what its kids derive. */
  ghost predicate Builds(g: Spec, d: Deriv, t: Tree)
    decreases d, 0
  {
    && d.rule < |g.rules| && |d.kids| == |Vars(g.rules[d.rule].pattern)|
    && exists ts: seq<Tree> :: |ts| == |d.kids| && Fill(g.rules[d.rule].pattern, ts) == t && BuildsAll(g, d, ts)
  }

  /** Every kid is by a rule for the variable in whose place it stands. */
  ghost predicate BuildsAll(g: Spec, d: Deriv, ts: seq<Tree>)
    requires d.rule < |g.rules| && |d.kids| == |Vars(g.rules[d.rule].pattern)| == |ts|
    decreases d, 0, 0
  {
    forall k :: 0 <= k < |d.kids| ==>
      && d.kids[k].rule < |g.rules| && g.rules[d.kids[k].rule].lhs == Vars(g.rules[d.rule].pattern)[k]
      && Builds(g, d.kids[k], ts[k])
  }

  lemma {:induction false} DerivesIsBuilds(g: Spec, d: Deriv, n: nat, t: Tree)
    ensures Derives(g, d, n, t) <==> d.rule < |g.rules| && g.rules[d.rule].lhs == n && Builds(g, d, t)
    decreases d
  {
    if d.rule < |g.rules| && g.rules[d.rule].lhs == n {
      var p := g.rules[d.rule].pattern;
      MatchIsFill(p, t);
      if Derives(g, d, n, t) {
        MatchFills(p, t);
        assert DerivesAll(g, d.kids, Leaves(p, t));
        var ts := Trees(Leaves(p, t));
        forall k | 0 <= k < |d.kids| ensures Builds(g, d.kids[k], ts[k]) {
          assert Derives(g, d.kids[k], Leaves(p, t)[k].0, Leaves(p, t)[k].1);
          DerivesIsBuilds(g, d.kids[k], Vars(p)[k], ts[k]);
        }
        assert BuildsAll(g, d, ts);
      }
      if Builds(g, d, t) {
        var ts :| |ts| == |d.kids| && Fill(p, ts) == t && BuildsAll(g, d, ts);
        forall k | 0 <= k < |d.kids| ensures Derives(g, d.kids[k], Leaves(p, t)[k].0, Leaves(p, t)[k].1) {
          DerivesIsBuilds(g, d.kids[k], Vars(p)[k], ts[k]);
        }
      }
    }
  }

  lemma {:induction false} CostSplit(g: Spec, ds: seq<Deriv>, es: seq<Deriv>)
    ensures CostAll(g, ds + es) == CostAll(g, ds) + CostAll(g, es)
  {
    if ds == [] {
      assert ds + es == es;
    } else {
      assert (ds + es)[1..] == ds[1..] + es;
      CostSplit(g, ds[1..], es);
    }
  }

  // ---------------------------------------------------------------------------------
  // Labelled trees.

  datatype Labelled = Labelled(tree: Tree, cost: seq<nat>, rule: seq<nat>, kids: seq<Labelled>)

  /** The cost that a variable has is that of a derivation by the recorded rule, unless it is still the limit. */
  ghost predicate Attained(g: Spec, t: Tree, n: nat, cost: nat, rule: nat)
  {
    cost < LIMIT ==> exists d :: Derives(g, d, n, t) && Cost(g, d) == cost && g.rules[d.rule].packed == rule
  }

  /** No derivation is cheaper. */
  ghost predicate Cheapest(g: Spec, t: Tree, n: nat, cost: nat)
  {
    cost <= LIMIT && forall d :: Derives(g, d, n, t) ==> cost <= Cost(g, d)
  }

  ghost predicate BestAt(g: Spec, t: Tree, cost: seq<nat>, rule: seq<nat>)
  {
    && |cost| == |rule| == g.nts
    && forall n: nat :: n < g.nts ==> Attained(g, t, n, cost[n], rule[n]) && Cheapest(g, t, n, cost[n])
  }

  /** Every labelled node has the best costs. Below an operator that is not declared nothing is labelled, and nothing needs
      to be. */
  ghost predicate Best(g: Spec, l: Labelled)
  {
    && BestAt(g, l.tree, l.cost, l.rule)
    && if l.tree.op in g.terminals then
         |l.kids| == |l.tree.kids|
         && forall k :: 0 <= k < |l.kids| ==> l.kids[k].tree == l.tree.kids[k] && Best(g, l.kids[k])
       else l.kids == []
  }

  ghost predicate BestAll(g: Spec, ls: seq<Labelled>, ts: seq<Tree>)
  {
    |ls| == |ts| && forall k :: 0 <= k < |ls| ==> ls[k].tree == ts[k] && Best(g, ls[k])
  }

  /** lgeng.l, emitcost: the costs recorded for the variables at the leaves of the pattern. */
  function LeafCosts(p: Pattern, l: Labelled): nat
  {
    match p
    case Var(n) => if n < |l.cost| then l.cost[n] else 0
    case Op(_, kids) => LeafCostsAll(kids, l.kids)
  }

  function LeafCostsAll(ps: seq<Pattern>, ls: seq<Labelled>): nat
  {
    if ps == [] || ls == [] then 0 else LeafCosts(ps[0], ls[0]) + LeafCostsAll(ps[1..], ls[1..])
  }

  /** Derivations for the leaves cost no less than what is recorded there. */
  lemma {:induction false} LeavesCheapest(g: Spec, p: Pattern, l: Labelled, ds: seq<Deriv>)
    requires Best(g, l) && PatternOk(g, p) && Match(p, l.tree) && DerivesAll(g, ds, Leaves(p, l.tree))
    ensures LeafCosts(p, l) <= CostAll(g, ds)
    decreases p
  {
    match p
    case Var(n) =>
      assert Derives(g, ds[0], n, l.tree);
      assert Cheapest(g, l.tree, n, l.cost[n]);
      assert ds[1..] == [];
    case Op(_, kids) =>
      LeavesAllCheapest(g, kids, l.kids, l.tree.kids, ds);
  }

  lemma {:induction false} LeavesAllCheapest(g: Spec, ps: seq<Pattern>, ls: seq<Labelled>, ts: seq<Tree>, ds: seq<Deriv>)
    requires BestAll(g, ls, ts) && (forall k :: 0 <= k < |ps| ==> PatternOk(g, ps[k])) && MatchAll(ps, ts)
    requires DerivesAll(g, ds, LeavesAll(ps, ts))
    ensures LeafCostsAll(ps, ls) <= CostAll(g, ds)
    decreases ps
  {
    if ps != [] {
      var m := |Leaves(ps[0], ts[0])|;
      assert ds == ds[..m] + ds[m..];
      CostSplit(g, ds[..m], ds[m..]);
      LeavesCheapest(g, ps[0], ls[0], ds[..m]);
      DerivesRest(g, ds, Leaves(ps[0], ts[0]), LeavesAll(ps[1..], ts[1..]));
      LeavesAllCheapest(g, ps[1..], ls[1..], ts[1..], ds[m..]);
    }
  }

  lemma DerivesRest(g: Spec, ds: seq<Deriv>, xs: seq<(nat, Tree)>, ys: seq<(nat, Tree)>)
    requires DerivesAll(g, ds, xs + ys)
    ensures DerivesAll(g, ds[..|xs|], xs) && DerivesAll(g, ds[|xs|..], ys)
  {
    var rest := ds[|xs|..];
    forall k | 0 <= k < |rest| ensures Derives(g, rest[k], ys[k].0, ys[k].1) {
      assert (xs + ys)[|xs| + k] == ys[k] && rest[k] == ds[|xs| + k];
    }
    forall k | 0 <= k < |xs| ensures Derives(g, ds[..|xs|][k], xs[k].0, xs[k].1) {
      assert (xs + ys)[k] == xs[k];
    }
  }

  /** If what is recorded at the leaves adds up to less than the limit, there are derivations of just that cost. */
  lemma {:induction false} LeavesAttained(g: Spec, p: Pattern, l: Labelled) returns (ds: seq<Deriv>)
    requires Best(g, l) && PatternOk(g, p) && Match(p, l.tree) && LeafCosts(p, l) < LIMIT
    ensures DerivesAll(g, ds, Leaves(p, l.tree)) && CostAll(g, ds) == LeafCosts(p, l)
    decreases p
  {
    match p
    case Var(n) =>
      assert Attained(g, l.tree, n, l.cost[n], l.rule[n]);
      var d :| Derives(g, d, n, l.tree) && Cost(g, d) == l.cost[n] && g.rules[d.rule].packed == l.rule[n];
      ds := [d];
      assert ds[1..] == [];
    case Op(_, kids) =>
      ds := LeavesAllAttained(g, kids, l.kids, l.tree.kids);
  }

  lemma {:induction false} LeavesAllAttained(g: Spec, ps: seq<Pattern>, ls: seq<Labelled>,
      ts: seq<Tree>) returns (ds: seq<Deriv>)
    requires BestAll(g, ls, ts) && (forall k :: 0 <= k < |ps| ==> PatternOk(g, ps[k])) && MatchAll(ps, ts)
    requires LeafCostsAll(ps, ls) < LIMIT
    ensures DerivesAll(g, ds, LeavesAll(ps, ts)) && CostAll(g, ds) == LeafCostsAll(ps, ls)
    decreases ps
  {
    if ps == [] {
      ds := [];
    } else {
      var es := LeavesAttained(g, ps[0], ls[0]);
      var fs := LeavesAllAttained(g, ps[1..], ls[1..], ts[1..]);
      ds := es + fs;
      CostSplit(g, es, fs);
      DerivesBoth(g, es, fs, Leaves(ps[0], ts[0]), LeavesAll(ps[1..], ts[1..]));
    }
  }

  lemma DerivesBoth(g: Spec, es: seq<Deriv>, fs: seq<Deriv>, xs: seq<(nat, Tree)>, ys: seq<(nat, Tree)>)
    requires DerivesAll(g, es, xs) && DerivesAll(g, fs, ys)
    ensures DerivesAll(g, es + fs, xs + ys)
  {
    var ds, zs: seq<(nat, Tree)> := es + fs, xs + ys;
    forall k | 0 <= k < |ds| ensures Derives(g, ds[k], zs[k].0, zs[k].1) {
      if k >= |xs| {
        var m := k - |xs|;
        assert Derives(g, fs[m], ys[m].0, ys[m].1);
      }
    }
  }

  // ---------------------------------------------------------------------------------
  // The costs of one node while its rules are tried.

  ghost function Sum(cost: seq<nat>): nat
  {
    if cost == [] then 0 else Sum(cost[..|cost|-1]) + cost[|cost|-1]
  }

  lemma {:induction false} SumLess(cost: seq<nat>, cost': seq<nat>)
    requires |cost| == |cost'| && forall n :: 0 <= n < |cost| ==> cost'[n] <= cost[n]
    ensures Sum(cost') <= Sum(cost)
    ensures (exists n :: 0 <= n < |cost| && cost'[n] < cost[n]) ==> Sum(cost') < Sum(cost)
  {
    if cost != [] {
      var front, front' := cost[..|cost|-1], cost'[..|cost|-1];
      SumLess(front, front');
      if n :| 0 <= n < |cost| && cost'[n] < cost[n] {
        assert n < |cost| - 1 ==> front'[n] < front[n];
      }
    }
  }

  ghost predicate AllAttained(g: Spec, t: Tree, cost: seq<nat>, rule: seq<nat>)
  {
    && |cost| == |rule| == g.nts
    && forall n: nat :: n < g.nts ==> cost[n] <= LIMIT && Attained(g, t, n, cost[n], rule[n])
  }

  /** No chain rule from n would lower a cost. */
  ghost predicate Closed(g: Spec, cost: seq<nat>, n: nat)
    requires |cost| == g.nts && n < g.nts
  {
    forall r: nat :: ListsChain(g, n, r) ==> cost[g.rules[r].lhs] <= cost[n] + g.rules[r].cost
  }

  /** Costs only sink, not below the floor, and what sinks or was closed is closed. */
  ghost predicate Sunk(g: Spec, cost: seq<nat>, cost': seq<nat>, floor: nat)
  {
    && |cost| == |cost'| == g.nts
    && (forall n: nat :: n < g.nts ==> cost'[n] <= cost[n] && (cost'[n] == cost[n] || floor <= cost'[n]))
    && forall n: nat :: n < g.nts && (Closed(g, cost, n) || cost'[n] != cost[n]) ==> Closed(g, cost', n)
  }

  lemma SunkThen(g: Spec, cost: seq<nat>, cost1: seq<nat>, cost2: seq<nat>, floor: nat, floor2: nat)
    requires Sunk(g, cost, cost1, floor) && Sunk(g, cost1, cost2, floor2) && floor <= floor2
    ensures Sunk(g, cost, cost2, floor)
  {
    hide Closed;
  }

  /** Recording v for q and then closing q. */
  lemma SunkRecord(g: Spec, cost: seq<nat>, q: nat, v: nat, cost2: seq<nat>)
    requires |cost| == g.nts && q < g.nts && v < cost[q]
    requires Sunk(g, cost[q := v], cost2, v) && Closed(g, cost2, q)
    ensures Sunk(g, cost, cost2, v)
  {
    var cost1 := cost[q := v];
    forall n: nat | n < g.nts && n != q && Closed(g, cost, n) ensures Closed(g, cost1, n) {
    }
    hide Closed;
  }

  ghost predicate HasDerivation(g: Spec, t: Tree, r: nat, cost: nat)
  {
    r < |g.rules| && exists d: Deriv :: d.rule == r && Derives(g, d, g.rules[r].lhs, t) && Cost(g, d) == cost
  }

  /** A chain rule extends a derivation by one step. */
  lemma ChainDerivation(g: Spec, t: Tree, p: nat, r: nat, d: Deriv)
    requires ListsChain(g, p, r) && Derives(g, d, p, t)
    ensures HasDerivation(g, t, r, Cost(g, d) + g.rules[r].cost)
  {
    var e := Deriv(r, [d]);
    assert [d][1..] == [] && CostAll(g, [d]) == Cost(g, d) + CostAll(g, []);
    assert Derives(g, e, g.rules[r].lhs, t);
  }

  lemma ChainRule(g: Spec, p: nat, k: nat)
    requires p < |g.chain| && k < |g.chain[p]|
    ensures ListsChain(g, p, g.chain[p][k])
    ensures g.chain[p][k] < |g.rules| && g.rules[g.chain[p][k]].pattern == Var(p) && g.rules[g.chain[p][k]].lhs < g.nts
  {
    assert ListsChain(g, p, g.chain[p][k]);
  }

  /** The State object of a node. */
  class State {
    const g: Spec
    const cost: array<nat>
    const rule: array<nat>

    ghost predicate Valid(t: Tree)
      reads this, cost, rule
    {
      cost != rule && AllAttained(g, t, cost[..], rule[..])
    }

    constructor (g: Spec, ghost t: Tree)
      ensures this.g == g && fresh(cost) && fresh(rule) && Valid(t)
      ensures forall n: nat :: n < g.nts ==> Closed(g, cost[..], n)
    {
      this.g := g;
      cost := new nat[g.nts](_ => LIMIT);
      rule := new nat[g.nts](_ => 0);
      new;
      forall n: nat, r: nat | n < g.nts && ListsChain(g, n, r) ensures g.rules[r].lhs < g.nts {
      }
    }

    /** lgeng.l, emitrecord: record a match of rule r if it is cheaper, and follow the chain rules. */
    method Record(ghost t: Tree, r: nat, c: nat)
      requires Valid(t) && r < |g.rules| && (c < LIMIT ==> HasDerivation(g, t, r, c))
      modifies cost, rule
      ensures Valid(t) && Sunk(g, old(cost[..]), cost[..], c)
      ensures cost[g.rules[r].lhs] <= c
      decreases Sum(cost[..]), 0
    {
      ghost var was := cost[..];
      var lhs := g.rules[r].lhs;
      if c < cost[lhs] {
        SumLess(was, was[lhs := c]);
        cost[lhs] := c;
        rule[lhs] := g.rules[r].packed;
        assert cost[..] == was[lhs := c];
        ghost var d: Deriv :| d.rule == r && Derives(g, d, lhs, t) && Cost(g, d) == c;
        Closure(t, lhs, c);
        SunkRecord(g, was, lhs, c, cost[..]);
      }
    }

    /** lgeng.l, emitclosure. */
    method Closure(ghost t: Tree, p: nat, c: nat)
      requires Valid(t) && p < g.nts && cost[p] == c < LIMIT
      modifies cost, rule
      ensures Valid(t) && Sunk(g, old(cost[..]), cost[..], c) && Closed(g, cost[..], p) && cost[p] == c
      decreases Sum(cost[..]), 1
    {
      hide Closed, Derives, Cost, Sum, Attained, AllAttained, Sunk, CheapRule, ListsChain;
      ghost var was := cost[..];
      AttainedSizes(g, t, cost[..], rule[..]);
      assert was[p] == c;
      ghost var d := DerivationOf(g, t, cost[..], rule[..], p);
      SunkRefl(g, was, c);
      var k := 0;
      while k < |g.chain[p]|
        invariant k <= |g.chain[p]| && Valid(t) && cost[p] == c && Sunk(g, was, cost[..], c)
        invariant forall l: nat :: l < k ==> CheapRule(g, cost[..], g.chain[p][l], c)
      {
        var r := g.chain[p][k];
        ChainRule(g, p, k);
        ChainDerivation(g, t, p, r, d);
        SumSunk(g, was, cost[..], c);
        ghost var before := cost[..];
        Record(t, r, c + g.rules[r].cost);
        SunkKeeps(g, before, cost[..], p, c + g.rules[r].cost);
        SunkThen(g, was, before, cost[..], c, c + g.rules[r].cost);
        CheapStays(g, before, cost[..], p, k, c, c + g.rules[r].cost);
        CheapNow(g, cost[..], r, c);
        k := k + 1;
      }
      AllCheap(g, cost[..], p, c);
    }
  }

  lemma AttainedSizes(g: Spec, t: Tree, cost: seq<nat>, rule: seq<nat>)
    requires AllAttained(g, t, cost, rule)
    ensures |cost| == |rule| == g.nts
  {
  }

  /** The derivation behind a cost. */
  lemma DerivationOf(g: Spec, t: Tree, cost: seq<nat>, rule: seq<nat>, p: nat) returns (d: Deriv)
    requires AllAttained(g, t, cost, rule) && p < g.nts && cost[p] < LIMIT
    ensures Derives(g, d, p, t) && Cost(g, d) == cost[p]
  {
    hide Derives, Cost;
    assert Attained(g, t, p, cost[p], rule[p]);
    d :| Derives(g, d, p, t) && Cost(g, d) == cost[p];
  }

  lemma SumSunk(g: Spec, cost: seq<nat>, cost': seq<nat>, floor: nat)
    requires Sunk(g, cost, cost', floor)
    ensures Sum(cost') <= Sum(cost)
  {
    hide Closed;
    SumLess(cost, cost');
  }

  /** Costs up to the floor stay. */
  lemma SunkKeeps(g: Spec, cost: seq<nat>, cost': seq<nat>, p: nat, floor: nat)
    requires Sunk(g, cost, cost', floor) && p < g.nts && cost[p] <= floor
    ensures |cost'| == g.nts && cost'[p] == cost[p]
  {
    hide Closed;
  }

  lemma CheapNow(g: Spec, cost: seq<nat>, r: nat, c: nat)
    requires r < |g.rules| && g.rules[r].lhs < |cost| && cost[g.rules[r].lhs] <= c + g.rules[r].cost
    ensures CheapRule(g, cost, r, c)
  {
  }

  lemma SunkRefl(g: Spec, cost: seq<nat>, floor: nat)
    requires |cost| == g.nts
    ensures Sunk(g, cost, cost, floor)
  {
  }

  ghost predicate CheapRule(g: Spec, cost: seq<nat>, r: nat, c: nat)
  {
    r < |g.rules| && g.rules[r].lhs < |cost| && cost[g.rules[r].lhs] <= c + g.rules[r].cost
  }

  lemma CheapStays(g: Spec, cost: seq<nat>, cost': seq<nat>, p: nat, k: nat, c: nat, floor: nat)
    requires p < |g.chain| && k <= |g.chain[p]| && Sunk(g, cost, cost', floor)
    requires forall l: nat :: l < k ==> CheapRule(g, cost, g.chain[p][l], c)
    ensures forall l: nat :: l < k ==> CheapRule(g, cost', g.chain[p][l], c)
  {
    forall l: nat | l < k ensures CheapRule(g, cost', g.chain[p][l], c) {
      assert CheapRule(g, cost, g.chain[p][l], c);
    }
  }

  lemma AllCheap(g: Spec, cost: seq<nat>, p: nat, c: nat)
    requires |cost| == g.nts && p < g.nts && cost[p] == c
    requires forall l: nat :: l < |g.chain[p]| ==> CheapRule(g, cost, g.chain[p][l], c)
    ensures Closed(g, cost, p)
  {
    forall r: nat | ListsChain(g, p, r) ensures cost[g.rules[r].lhs] <= cost[p] + g.rules[r].cost {
      var l: nat :| l < |g.chain[p]| && g.chain[p][l] == r;
      assert CheapRule(g, cost, g.chain[p][l], c);
    }
  }

  // ---------------------------------------------------------------------------------

  /** The rules of the operator that were tried left no cheaper match. */
  ghost predicate Tried(g: Spec, t: Tree, cost: seq<nat>, kids: seq<Labelled>, r: nat)
  {
    r < |g.rules| && g.rules[r].pattern.Op? && g.rules[r].lhs < |cost|
    && (Match(g.rules[r].pattern, t) ==> cost[g.rules[r].lhs] <= LeafCostsAll(g.rules[r].pattern.kids, kids) + g.rules[r].cost)
  }

  /** Costs that are closed under the chain rules and under the rules of the operator are the cheapest. */
  lemma {:induction false} ClosedIsCheapest(g: Spec, t: Tree, cost: seq<nat>, kids: seq<Labelled>, n: nat, d: Deriv)
    requires |cost| == g.nts && n < g.nts && Derives(g, d, n, t) && (t.op in g.terminals ==> BestAll(g, kids, t.kids))
    requires forall p: nat :: p < g.nts ==> Closed(g, cost, p)
    requires forall r: nat :: ListsOp(g, t.op, r) ==> Tried(g, t, cost, kids, r)
    ensures cost[n] <= Cost(g, d)
    decreases d
  {
    var r := d.rule;
    match g.rules[r].pattern
    case Var(p) =>
      var e := d.kids[0];
      assert Derives(g, e, p, t);
      ClosedIsCheapest(g, t, cost, kids, p, e);
      assert ListsChain(g, p, r) && Closed(g, cost, p);
      assert d.kids == [e] && [e][1..] == [];
      assert CostAll(g, [e]) == Cost(g, e) + CostAll(g, []);
      assert Cost(g, d) == g.rules[r].cost + CostAll(g, d.kids);
    case Op(op, ps) =>
      assert ListsOp(g, t.op, r);
      LeavesAllCheapest(g, ps, kids, t.kids, d.kids);
  }

  /** A match of a rule of the operator has a derivation, if it costs less than the limit. */
  lemma MatchDerivation(g: Spec, t: Tree, kids: seq<Labelled>, r: nat)
    requires r < |g.rules| && g.rules[r].pattern.Op? && Match(g.rules[r].pattern, t) && BestAll(g, kids, t.kids)
    requires LeafCostsAll(g.rules[r].pattern.kids, kids) < LIMIT
    ensures HasDerivation(g, t, r, LeafCostsAll(g.rules[r].pattern.kids, kids) + g.rules[r].cost)
  {
    var ds := LeavesAllAttained(g, g.rules[r].pattern.kids, kids, t.kids);
    var d := Deriv(r, ds);
    assert Derives(g, d, g.rules[r].lhs, t);
  }

  lemma OpRule(g: Spec, op: nat, k: nat)
    requires op in g.terminals && k < |g.terminals[op]|
    ensures g.terminals[op][k] < |g.rules| && g.rules[g.terminals[op][k]].pattern.Op?
    ensures g.rules[g.terminals[op][k]].lhs < g.nts
  {
    assert ListsOp(g, op, g.terminals[op][k]);
  }

  lemma TriedStays(g: Spec, t: Tree, cost: seq<nat>, cost': seq<nat>, kids: seq<Labelled>, r: nat, floor: nat)
    requires Tried(g, t, cost, kids, r) && Sunk(g, cost, cost', floor)
    ensures Tried(g, t, cost', kids, r)
  {
  }

  lemma SunkClosed(g: Spec, cost: seq<nat>, cost': seq<nat>, floor: nat)
    requires Sunk(g, cost, cost', floor) && forall n: nat :: n < g.nts ==> Closed(g, cost, n)
    ensures forall n: nat :: n < g.nts ==> Closed(g, cost', n)
  {
    hide Closed;
  }

  // ---------------------------------------------------------------------------------
  // The dispatch over the label functions, each of which handles SPLIT operators.

  const SPLIT: nat := 50

  /** label_n handles the operators from n * SPLIT on; there is one for every n with n * SPLIT below count. */
  ghost predicate HandledBy(count: nat, n: nat, op: nat)
  {
    n * SPLIT < count && n * SPLIT <= op < (n + 1) * SPLIT
  }

  /** Some label function handles the operator. */
  ghost predicate Reached(count: nat, op: nat)
  {
    exists n: nat :: HandledBy(count, n, op)
  }

  /** The function that the chain of tests ends at. */
  function Picked(count: nat, op: nat): nat
  {
    if op < count then op / SPLIT else if count == 0 then 0 else (count - 1) / SPLIT
  }

  /** The chain of tests in label: if any function handles the operator, the right one is called. */
  method Dispatch(count: nat, op: nat) returns (n: nat)
    ensures n == Picked(count, op)
    ensures HandledBy(count, n, op) <==> Reached(count, op)
  {
    n := 0;
    var i := SPLIT;
    while i < count && op >= i
      invariant i == (n + 1) * SPLIT && n * SPLIT <= op && (n == 0 || n * SPLIT < count)
    {
      i := i + SPLIT;
      n := n + 1;
    }
    forall m: nat | HandledBy(count, m, op) ensures m == n {
      OneHandler(count, op, n, m);
    }
  }

  lemma OneHandler(count: nat, op: nat, n: nat, m: nat)
    requires HandledBy(count, m, op)
    requires n * SPLIT <= op && (op < (n + 1) * SPLIT || (n + 1) * SPLIT >= count)
    ensures n == m
  {
  }

  /** Every operator up to the highest is handled exactly if the highest one is not a multiple of SPLIT. */
  lemma DispatchHandles(count: nat)
    ensures (forall op: nat :: op <= count ==> Reached(count, op)) <==> count % SPLIT != 0
  {
    if count % SPLIT != 0 {
      forall op: nat | op <= count ensures Reached(count, op) {
        assert HandledBy(count, op / SPLIT, op);
      }
    } else {
      assert !Reached(count, count);
    }
  }

  /** lgeng.l, emitlabel: the highest operator. */
  method Highest(terms: seq<nat>) returns (count: nat)
    ensures IsHighest(terms, count)
  {
    count := 0;
    var k := 0;
    while k < |terms|
      invariant k <= |terms| && (count == 0 || count in terms[..k]) && forall l :: 0 <= l < k ==> terms[l] <= count
    {
      if terms[k] >= count {
        count := terms[k];
      }
      k := k + 1;
    }
  }

  ghost predicate IsHighest(terms: seq<nat>, count: nat)
  {
    (count == 0 || count in terms) && forall op :: op in terms ==> op <= count
  }

  /** The highest operator with a case in label function n, or 0. */
  method LastCase(terms: seq<nat>, n: nat) returns (last: nat)
    ensures last == 0 || (last in terms && n * SPLIT <= last < (n + 1) * SPLIT)
    ensures forall op :: op in terms && n * SPLIT <= op < (n + 1) * SPLIT ==> op <= last
  {
    last := 0;
    var k := 0;
    while k < |terms|
      invariant k <= |terms| && (last == 0 || (last in terms && n * SPLIT <= last < (n + 1) * SPLIT))
      invariant forall l :: 0 <= l < k && n * SPLIT <= terms[l] < (n + 1) * SPLIT ==> terms[l] <= last
    {
      if n * SPLIT <= terms[k] < (n + 1) * SPLIT && terms[k] > last {
        last := terms[k];
      }
      k := k + 1;
    }
  }

  /** The function that is called for the operator has a case for it. */
  ghost predicate HasCase(g: Spec, count: nat, op: nat)
  {
    op in g.terminals && HandledBy(count, Picked(count, op), op)
  }

  /** The function that is called for the operator throws: it has no case for it, nor for any above it. */
  ghost predicate BadTerminal(g: Spec, count: nat, op: nat)
  {
    && !HasCase(g, count, op) && op > 0
    && forall e :: e in g.terms && Picked(count, op) * SPLIT <= e < (Picked(count, op) + 1) * SPLIT ==> e < op
  }

  /** Labelling throws at the root, or below an operator with a case. */
  ghost predicate Throws(g: Spec, count: nat, t: Tree)
  {
    BadTerminal(g, count, t.op) || (HasCase(g, count, t.op) && exists k :: 0 <= k < |t.kids| && Throws(g, count, t.kids[k]))
  }

  /** The function that is called has no case for the operator, but one for an operator that is not below it. */
  lemma Undeclared(g: Spec, count: nat, op: nat, last: nat)
    requires IsHighest(g.terms, count) && count > 0 && !HasCase(g, count, op) && op <= last
    requires last == 0 || (last in g.terms && Picked(count, op) * SPLIT <= last < (Picked(count, op) + 1) * SPLIT)
    ensures op !in g.terminals && !BadTerminal(g, count, op)
  {
    if op in g.terminals && op > 0 {
      NoCaseIsBad(g, count, op);
    }
  }

  /** A declared operator that has no case is bad: it is the highest one, and a multiple of SPLIT. */
  lemma NoCaseIsBad(g: Spec, count: nat, op: nat)
    requires IsHighest(g.terms, count) && op in g.terms && op > 0
    ensures !HasCase(g, count, op) <==> op == count && count % SPLIT == 0
    ensures !HasCase(g, count, op) ==> BadTerminal(g, count, op)
  {
  }

  /** All operators of the tree are declared. */
  ghost predicate Declared(g: Spec, t: Tree)
  {
    t.op in g.terms && forall k :: 0 <= k < |t.kids| ==> Declared(g, t.kids[k])
  }

  lemma {:induction false} DeclaredHasCases(g: Spec, count: nat, t: Tree)
    requires IsHighest(g.terms, count) && count % SPLIT != 0 && Declared(g, t)
    ensures !Throws(g, count, t)
    decreases t
  {
    hide SpecOk;
    if t.op > 0 { NoCaseIsBad(g, count, t.op); }
    forall k | 0 <= k < |t.kids| ensures !Throws(g, count, t.kids[k]) {
      DeclaredHasCases(g, count, t.kids[k]);
    }
  }

  /** Labelling fails on no tree of declared operators exactly if the highest operator is not a multiple of SPLIT. */
  lemma LabelsAllDeclared(g: Spec, count: nat)
    requires IsHighest(g.terms, count) && count > 0
    ensures (forall t :: Declared(g, t) ==> !Throws(g, count, t)) <==> count % SPLIT != 0
  {
    if count % SPLIT != 0 {
      forall t | Declared(g, t) ensures !Throws(g, count, t) {
        DeclaredHasCases(g, count, t);
      }
    } else {
      NoCaseIsBad(g, count, count);
      assert Declared(g, Tree(count, [])) && Throws(g, count, Tree(count, []));
    }
  }

  // ---------------------------------------------------------------------------------

  /** The kids of a node, labelled first. */
  method LabelKids(g: Spec, t: Tree, count: nat) returns (ok: bool, kids: seq<Labelled>)
    requires IsHighest(g.terms, count) && count > 0
    ensures ok <==> forall k :: 0 <= k < |t.kids| ==> !Throws(g, count, t.kids[k])
    ensures ok ==> BestAll(g, kids, t.kids)
    decreases t, 0
  {
    ok, kids := true, [];
    var k := 0;
    while k < |t.kids|
      invariant k <= |t.kids| && |kids| == k
      invariant forall l :: 0 <= l < k ==> !Throws(g, count, t.kids[l]) && kids[l].tree == t.kids[l] && Best(g, kids[l])
    {
      var kid;
      ok, kid := Label(g, t.kids[k], count);
      if !ok {
        return;
      }
      kids := kids + [kid];
      k := k + 1;
    }
  }

  /** lgeng.l, emitlabel and emitcase: the costs of a tree are those of its cheapest derivations. It fails where the
      emitted code throws. With no operator above 0 there is no label function to call. */
  method Label(g: Spec, t: Tree, count: nat) returns (ok: bool, l: Labelled)
    requires IsHighest(g.terms, count) && count > 0
    ensures ok <==> !Throws(g, count, t)
    ensures ok ==> l.tree == t && Best(g, l)
    decreases t, 1
  {
    hide Match, LeafCostsAll, Closed, Sunk, Tried, Best, SpecOk, HasDerivation, IsHighest;
    var p := new State(g, t);
    ok, l := false, Labelled(t, [], [], []);
    var n := Dispatch(count, t.op);
    if t.op in g.terminals && n * SPLIT < count && n * SPLIT <= t.op < (n + 1) * SPLIT {
      var kids;
      ok, kids := LabelKids(g, t, count);
      if ok {
        TryRules(g, t, p, kids);
        l := Labelled(t, p.cost[..], p.rule[..], kids);
        AllTriedBest(g, l, g.terminals[t.op]);
      }
    } else {
      var last := LastCase(g.terms, n);
      if t.op <= last {
        ok, l := true, Labelled(t, p.cost[..], p.rule[..], []);
        Undeclared(g, count, t.op, last);
        AllTriedBest(g, l, []);
      }
    }
  }

  /** lgeng.l, emitlabel, and a call of the label that it emits: the highest operator is found first. Without one above 0
      there is no label function to call. Unless it is a multiple of SPLIT, every tree of declared operators is labelled. */
  method LabelTree(g: Spec, t: Tree) returns (count: nat, ok: bool, l: Labelled)
    ensures IsHighest(g.terms, count) && (ok <==> count > 0 && !Throws(g, count, t))
    ensures ok ==> l.tree == t && Best(g, l)
    ensures count % SPLIT != 0 && Declared(g, t) ==> ok
  {
    hide Best, SpecOk, Throws, Declared;
    count := Highest(g.terms);
    ok, l := false, Labelled(t, [], [], []);
    if count > 0 {
      ok, l := Label(g, t, count);
      if count % SPLIT != 0 && Declared(g, t) { DeclaredHasCases(g, count, t); }
    }
  }

  /** The case of the operator: its rules in order. */
  method TryRules(g: Spec, t: Tree, p: State, kids: seq<Labelled>)
    requires p.g == g && p.Valid(t) && t.op in g.terminals && BestAll(g, kids, t.kids)
    requires forall n: nat :: n < g.nts ==> p.cost.Length == g.nts && Closed(g, p.cost[..], n)
    modifies p.cost, p.rule
    ensures p.Valid(t)
    ensures forall n: nat :: n < g.nts ==> p.cost.Length == g.nts && Closed(g, p.cost[..], n)
    ensures forall m: nat :: m < |g.terminals[t.op]| ==> Tried(g, t, p.cost[..], kids, g.terminals[t.op][m])
  {
    hide Match, LeafCostsAll, Closed, Sunk, Tried, Best, SpecOk, HasDerivation;
    var list := g.terminals[t.op];
    var k := 0;
    while k < |list|
      invariant k <= |list| && p.Valid(t)
      invariant forall n: nat :: n < g.nts ==> Closed(g, p.cost[..], n)
      invariant forall m: nat :: m < k ==> Tried(g, t, p.cost[..], kids, list[m])
    {
      OpRule(g, t.op, k);
      var r := list[k];
      ghost var was := p.cost[..];
      if Match(g.rules[r].pattern, t) {
        var c := LeafCostsAll(g.rules[r].pattern.kids, kids) + g.rules[r].cost;
        if c < LIMIT {
          MatchDerivation(g, t, kids, r);
        }
        p.Record(t, r, c);
        SunkClosed(g, was, p.cost[..], c);
        forall m: nat | m < k ensures Tried(g, t, p.cost[..], kids, list[m]) {
          TriedStays(g, t, was, p.cost[..], kids, list[m], c);
        }
      }
      TriedNow(g, t, p.cost[..], kids, r);
      k := k + 1;
    }
  }

  lemma TriedNow(g: Spec, t: Tree, cost: seq<nat>, kids: seq<Labelled>, r: nat)
    requires r < |g.rules| && g.rules[r].pattern.Op? && g.rules[r].lhs < |cost|
    requires Match(g.rules[r].pattern, t) ==> cost[g.rules[r].lhs] <= LeafCostsAll(g.rules[r].pattern.kids, kids) + g.rules[r].cost
    ensures Tried(g, t, cost, kids, r)
  {
  }

  lemma AllTriedBest(g: Spec, l: Labelled, list: seq<nat>)
    requires (if l.tree.op in g.terminals then BestAll(g, l.kids, l.tree.kids) else l.kids == [])
    requires AllAttained(g, l.tree, l.cost, l.rule)
    requires forall n: nat :: n < g.nts ==> Closed(g, l.cost, n)
    requires list == if l.tree.op in g.terminals then g.terminals[l.tree.op] else []
    requires forall m: nat :: m < |list| ==> Tried(g, l.tree, l.cost, l.kids, list[m])
    ensures Best(g, l)
  {
    hide Tried, Closed, Derives, SpecOk, Cost;
    forall r: nat | ListsOp(g, l.tree.op, r) ensures Tried(g, l.tree, l.cost, l.kids, r) {
      var m: nat :| m < |list| && list[m] == r;
    }
    forall n: nat, d | n < g.nts && Derives(g, d, n, l.tree) ensures l.cost[n] <= Cost(g, d) {
      ClosedIsCheapest(g, l.tree, l.cost, l.kids, n, d);
    }
  }

  // ---------------------------------------------------------------------------------

  /** v: Op(1), Op(2, Op(1)), Op(2, v) or Op(4, v, v), and w: v. */
  const ExampleSpec := RawSpec(2,
    [Rule(0, Op(1, []), 1, 1), Rule(0, Op(2, [Op(1, [])]), 1, 2), Rule(0, Op(2, [Var(0)]), 2, 3),
     Rule(0, Op(4, [Var(0), Var(0)]), 3, 4), Rule(1, Var(0), 4, 1)],
    [1, 2, 4], map[1 := [0], 2 := [1, 2], 4 := [3]], [[4], []])

  lemma ExampleOk()
    ensures SpecOk(ExampleSpec)
  {
    var g := ExampleSpec;
    forall op: nat, r: nat ensures ListsOp(g, op, r) <==> r < |g.rules| && g.rules[r].pattern.Op? && g.rules[r].pattern.op == op {
    }
    forall p: nat, r: nat ensures ListsChain(g, p, r) <==> r < |g.rules| && g.rules[r].pattern == Var(p) {
    }
    forall r | 0 <= r < |g.rules| ensures PatternOk(g, g.rules[r].pattern) {
    }
  }

  const Op1 := Tree(1, [])
  const Op21 := Tree(2, [Op1])
  const ExampleTree := Tree(4, [Op21, Op1])

  /** Op(4, Op(2, Op(1)), Op(1)) costs 5 as a v, by the rule with two operators below the first kid, and 9 as a w. */
  method LabelExample() returns (ok: bool, l: Labelled)
    ensures ok && l.tree == ExampleTree && l.cost == [5, 9] && l.rule == [4, 1]
    ensures |l.kids| == 2 && l.kids[0].cost == [1, 5] && l.kids[0].rule == [2, 1] && l.kids[1].cost == [1, 5]
  {
    ExampleOk();
    var g: Spec := ExampleSpec;
    var count;
    count, ok, l := LabelTree(g, ExampleTree);
    assert 4 in g.terms && 2 in g.terms && 1 in g.terms;
    assert count == 4;
    ExampleDeclared(g);
    ExampleBest(g, l);
  }

  lemma ExampleDeclared(g: Spec)
    requires g == ExampleSpec
    ensures Declared(g, ExampleTree)
  {
  }

  /** v costs c on the tree, by rules that are number r of v. */
  ghost predicate CostsOn(g: Spec, t: Tree, c: nat, r: nat)
  {
    && (exists d :: Derives(g, d, 0, t) && Cost(g, d) == c)
    && forall d :: Derives(g, d, 0, t) ==> d.rule < |g.rules| && c <= Cost(g, d) && (Cost(g, d) == c ==> g.rules[d.rule].packed == r)
  }

  lemma CostOne(g: Spec, d: Deriv)
    ensures CostAll(g, []) == 0 && CostAll(g, [d]) == Cost(g, d)
  {
    hide SpecOk, Cost;
    assert [d][1..] == [];
  }

  lemma CostTwo(g: Spec, d: Deriv, e: Deriv)
    ensures CostAll(g, [d, e]) == Cost(g, d) + Cost(g, e)
  {
    hide SpecOk, Cost;
    assert [d, e][1..] == [e];
    CostOne(g, e);
  }

  lemma KidsOf(g: Spec, d: Deriv, n: nat, t: Tree)
    requires Derives(g, d, n, t)
    ensures d.rule < |g.rules| && g.rules[d.rule].lhs == n && Match(g.rules[d.rule].pattern, t)
    ensures DerivesAll(g, d.kids, Leaves(g.rules[d.rule].pattern, t)) && Cost(g, d) == g.rules[d.rule].cost + CostAll(g, d.kids)
  {
    hide SpecOk, Match, Leaves, CostAll;
  }

  lemma FromKids(g: Spec, r: nat, ds: seq<Deriv>, t: Tree)
    requires r < |g.rules| && Match(g.rules[r].pattern, t) && DerivesAll(g, ds, Leaves(g.rules[r].pattern, t))
    ensures Derives(g, Deriv(r, ds), g.rules[r].lhs, t) && Cost(g, Deriv(r, ds)) == g.rules[r].cost + CostAll(g, ds)
  {
    hide SpecOk, Match, Leaves, CostAll;
  }

  lemma OneKid(p: Pattern, t: Tree)
    ensures MatchAll([p], [t]) == Match(p, t) && LeavesAll([p], [t]) == Leaves(p, t)
  {
    assert [p][1..] == [] && [t][1..] == [];
    assert LeavesAll([p][1..], [t][1..]) == [];
  }

  lemma TwoKids(p: Pattern, q: Pattern, t: Tree, u: Tree)
    ensures MatchAll([p, q], [t, u]) <==> Match(p, t) && Match(q, u)
    ensures LeavesAll([p, q], [t, u]) == Leaves(p, t) + Leaves(q, u)
  {
    assert [p, q][1..] == [q] && [t, u][1..] == [u];
    OneKid(q, u);
  }

  /** Which patterns match which trees. */
  lemma ExampleMatches()
    ensures Leaves(Op(1, []), Op1) == [] && Leaves(Op(2, [Op(1, [])]), Op21) == [] && Leaves(Op(2, [Var(0)]), Op21) == [(0, Op1)]
    ensures Match(Op(1, []), Op1) && Match(Op(2, [Op(1, [])]), Op21)
    ensures Match(Op(4, [Var(0), Var(0)]), ExampleTree) && Leaves(Op(4, [Var(0), Var(0)]), ExampleTree) == [(0, Op21), (0, Op1)]
  {
    OneKid(Op(1, []), Op1);
    OneKid(Var(0), Op1);
    TwoKids(Var(0), Var(0), Op21, Op1);
  }

  lemma ExampleRules(d: Deriv, g: Spec, t: Tree)
    requires g == ExampleSpec && Derives(g, d, 0, t)
    ensures t.op == 1 ==> d.rule == 0
    ensures t.op == 2 ==> d.rule == 1 || d.rule == 2
    ensures t.op == 4 ==> d.rule == 3
  {
    hide SpecOk, DerivesAll, MatchAll;
    KidsOf(g, d, 0, t);
  }

  lemma OnOp1(g: Spec)
    requires g == ExampleSpec
    ensures CostsOn(g, Op1, 1, 1)
  {
    hide SpecOk, Derives, Cost, CostAll, Match, Leaves;
    ExampleMatches();
    CostOne(g, Deriv(0, []));
    FromKids(g, 0, [], Op1);
    forall d | Derives(g, d, 0, Op1) ensures Cost(g, d) == 1 && d.rule == 0 {
      ExampleRules(d, g, Op1);
      KidsOf(g, d, 0, Op1);
      assert d.kids == [];
    }
  }

  lemma OnOp21(g: Spec)
    requires g == ExampleSpec
    ensures CostsOn(g, Op21, 1, 2)
  {
    hide SpecOk, Derives, Cost, CostAll, Match, Leaves;
    ExampleMatches();
    CostOne(g, Deriv(0, []));
    FromKids(g, 1, [], Op21);
    forall d | Derives(g, d, 0, Op21) ensures (d.rule == 1 && Cost(g, d) == 1) || (d.rule == 2 && Cost(g, d) >= 2) {
      ExampleRules(d, g, Op21);
      KidsOf(g, d, 0, Op21);
      assert d.rule == 1 ==> d.kids == [];
    }
  }

  lemma OnExample(g: Spec)
    requires g == ExampleSpec
    ensures CostsOn(g, ExampleTree, 5, 4)
  {
    hide SpecOk, Derives, Cost, CostAll, Match, Leaves;
    ExampleMatches();
    OnOp1(g);
    OnOp21(g);
    var d1: Deriv :| Derives(g, d1, 0, Op21) && Cost(g, d1) == 1;
    var d2: Deriv :| Derives(g, d2, 0, Op1) && Cost(g, d2) == 1;
    CostTwo(g, d1, d2);
    FromKids(g, 3, [d1, d2], ExampleTree);
    forall d | Derives(g, d, 0, ExampleTree) ensures d.rule == 3 && Cost(g, d) >= 5 {
      ExampleRules(d, g, ExampleTree);
      KidsOf(g, d, 0, ExampleTree);
      assert d.kids == [d.kids[0], d.kids[1]];
      CostTwo(g, d.kids[0], d.kids[1]);
    }
  }

  /** The chain rule is the only rule for w. */
  lemma ChainOnly(g: Spec, t: Tree, e: Deriv)
    requires g == ExampleSpec && Derives(g, e, 1, t)
    ensures e.rule == 4 && |e.kids| == 1 && Derives(g, e.kids[0], 0, t) && Cost(g, e) == 4 + Cost(g, e.kids[0])
  {
    hide SpecOk, Cost, CostAll;
    KidsOf(g, e, 1, t);
    assert e.rule == 4 && Leaves(Var(0), t) == [(0, t)];
    assert e.kids == [e.kids[0]];
    CostOne(g, e.kids[0]);
  }

  /** With the chain rule, w costs 4 more. */
  lemma BestIs(g: Spec, t: Tree, cost: seq<nat>, rule: seq<nat>, c: nat, r: nat)
    requires g == ExampleSpec && BestAt(g, t, cost, rule) && CostsOn(g, t, c, r) && c + 4 < LIMIT
    ensures cost == [c, c + 4] && rule == [r, 1]
  {
    hide SpecOk, DerivesAll, Match, Leaves, Cost;
    var d: Deriv :| Derives(g, d, 0, t) && Cost(g, d) == c;
    assert Attained(g, t, 0, cost[0], rule[0]) && Cheapest(g, t, 0, cost[0]);
    assert ListsChain(g, 0, 4);
    ChainDerivation(g, t, 0, 4, d);
    assert Attained(g, t, 1, cost[1], rule[1]) && Cheapest(g, t, 1, cost[1]);
    var f: Deriv :| Derives(g, f, 1, t) && Cost(g, f) == cost[1] && g.rules[f.rule].packed == rule[1];
    ChainOnly(g, t, f);
  }

  lemma ExampleBest(g: Spec, l: Labelled)
    requires g == ExampleSpec && l.tree == ExampleTree && Best(g, l)
    ensures l.cost == [5, 9] && l.rule == [4, 1]
    ensures |l.kids| == 2 && l.kids[0].cost == [1, 5] && l.kids[0].rule == [2, 1] && l.kids[1].cost == [1, 5]
  {
    hide CostsOn, BestAt, SpecOk;
    OnOp1(g);
    OnOp21(g);
    OnExample(g);
    BestIs(g, ExampleTree, l.cost, l.rule, 5, 4);
    assert Best(g, l.kids[0]) && Best(g, l.kids[1]);
    BestIs(g, Op21, l.kids[0].cost, l.kids[0].rule, 1, 2);
    BestIs(g, Op1, l.kids[1].cost, l.kids[1].rule, 1, 1);
  }
}
