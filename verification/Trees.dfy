/** Parse trees: what the language of a grammar is. */
module Trees {
  import opened Grammars
  import opened Automata
  import opened Lookaheads

  datatype Tree = Leaf(token: int) | Node(rule: nat, children: seq<Tree>)

  ghost function Root(g: Grammar, t: Tree): int
  {
    match t
    case Leaf(token) => token
    case Node(r, _) => if g.IsRule(r) then g.rlhs[r] else 0
  }

  ghost function Roots(g: Grammar, ts: seq<Tree>): (roots: seq<int>)
    ensures |roots| == |ts|
  {
    seq(|ts|, i requires 0 <= i < |ts| => Root(g, ts[i]))
  }

  ghost function Yield(t: Tree): seq<int>
  {
    match t
    case Leaf(token) => [token]
    case Node(_, children) => YieldAll(children)
  }

  ghost function YieldAll(ts: seq<Tree>): seq<int>
  {
    if ts == [] then [] else YieldAll(ts[..|ts|-1]) + Yield(ts[|ts|-1])
  }

  lemma FirstTree(ts: seq<Tree>)
    requires ts != []
    ensures YieldAll(ts) == Yield(ts[0]) + YieldAll(ts[1..])
  {
    hide Yield, YieldAll;
    YieldFrom(ts, 0);
    assert ts[0..] == ts;
  }

  /** Every inner node expands a rule of the user, every leaf is a token. */
  ghost predicate TreeOk(g: Grammar, t: Tree)
  {
    match t
    case Leaf(token) => 0 < token < g.ntokens
    case Node(r, children) =>
      && 3 <= r && g.IsRule(r) && Roots(g, children) == RhsOf(g, r)
      && forall k :: 0 <= k < |children| ==> TreeOk(g, children[k])
  }

  ghost predicate ForestOk(g: Grammar, ts: seq<Tree>)
  {
    forall k :: 0 <= k < |ts| ==> TreeOk(g, ts[k])
  }

  /** The tokens are a sentence of the grammar. */
  ghost predicate Sentence(g: Grammar, tokens: seq<int>)
  {
    exists t :: IsParse(g, t, tokens)
  }

  ghost predicate IsParse(g: Grammar, t: Tree, tokens: seq<int>)
  {
    TreeOk(g, t) && Root(g, t) == g.ntokens + 1 && Yield(t) == tokens
  }

  lemma {:induction false} YieldSplit(ts: seq<Tree>, us: seq<Tree>)
    ensures YieldAll(ts + us) == YieldAll(ts) + YieldAll(us)
    decreases |us|
  {
    if us == [] {
      assert ts + us == ts;
    } else {
      var front, last := us[..|us|-1], us[|us|-1];
      assert (ts + us)[..|ts + us| - 1] == ts + front;
      YieldSplit(ts, front);
    }
  }

  lemma YieldOne(t: Tree)
    ensures YieldAll([t]) == Yield(t)
  {
    assert [t][..0] == [];
  }

  /** The yield of the trees from k on. */
  lemma YieldFrom(ts: seq<Tree>, k: nat)
    requires k < |ts|
    ensures YieldAll(ts[k..]) == Yield(ts[k]) + YieldAll(ts[k+1..])
  {
    assert ts[k..] == [ts[k]] + ts[k+1..];
    YieldSplit([ts[k]], ts[k+1..]);
    YieldOne(ts[k]);
  }

  /** The trees fit the rest of rule r from position k on. */
  ghost predicate Fits(g: Grammar, r: nat, k: nat, ts: seq<Tree>)
  {
    && 3 <= r && r < |g.rrhs| && g.IsRule(r) && ForestOk(g, ts)
    && g.rrhs[r] + k + |ts| + 1 == g.rrhs[r+1] <= |g.ritem|
    && forall i: nat :: i < |ts| ==> Root(g, ts[i]) == g.ritem[g.rrhs[r] + k + i]
  }

  lemma NodeFits(g: Grammar, t: Tree)
    requires TreeOk(g, t) && t.Node?
    ensures Fits(g, t.rule, 0, t.children)
  {
    RuleShape(g, t.rule);
    var word := Roots(g, t.children);
    assert word == g.ritem[g.rrhs[t.rule]..g.rrhs[t.rule+1]-1];
    forall i: nat | i < |t.children| ensures Root(g, t.children[i]) == g.ritem[g.rrhs[t.rule] + i] {
      assert word[i] == Root(g, t.children[i]);
    }
  }

  lemma FitsRest(g: Grammar, r: nat, k: nat, ts: seq<Tree>)
    requires Fits(g, r, k, ts) && ts != []
    ensures Fits(g, r, k + 1, ts[1..]) && TreeOk(g, ts[0]) && Root(g, ts[0]) == g.ritem[g.rrhs[r] + k]
    ensures InRule(g, r, g.rrhs[r] + k) && InRule(g, r, g.rrhs[r] + k + 1)
    ensures r < |g.rrhs| && g.rrhs[r] + k < |g.ritem|
  {
    RuleShape(g, r);
    var rest := ts[1..];
    forall i: nat | i < |rest| ensures Root(g, rest[i]) == g.ritem[g.rrhs[r] + k + 1 + i] {
      var j := i + 1;
      assert rest[i] == ts[j];
    }
  }

  /** A tree without leaves makes its root nullable. */
  lemma {:induction false} EmptyTree(g: Grammar, t: Tree)
    requires TreeOk(g, t) && Yield(t) == []
    ensures Nullable(g, Root(g, t))
    decreases t
  {
    NodeFits(g, t);
    EmptyForest(g, t.rule, 0, t.children);
    EmptyRule(g, t.rule);
  }

  /** Trees without leaves make the rest of the rule nullable. */
  lemma {:induction false} EmptyForest(g: Grammar, r: nat, k: nat, ts: seq<Tree>)
    requires Fits(g, r, k, ts) && YieldAll(ts) == []
    ensures NullableSuffix(g, g.rrhs[r] + k)
    decreases ts
  {
    hide RawGrammar.Valid, Fits, TreeOk, ForestOk, Yield, YieldAll, NullableSuffix, Root;
    FitsShape(g, r, k, ts);
    if ts == [] {
      NothingLeft(g, r, k);
    } else {
      FitsRest(g, r, k, ts);
      FirstTree(ts);
      EmptyTree(g, ts[0]);
      EmptyForest(g, r, k + 1, ts[1..]);
      NullableMore(g, g.rrhs[r] + k);
    }
  }

  lemma FitsShape(g: Grammar, r: nat, k: nat, ts: seq<Tree>)
    requires Fits(g, r, k, ts)
    ensures 3 <= r && r + 1 < |g.rrhs| && g.IsRule(r)
    ensures ts == [] ==> InRule(g, r, g.rrhs[r] + k) && g.rrhs[r] + k < |g.ritem| && g.rrhs[r] + k + 1 == g.rrhs[r+1]
  {
    RuleShape(g, r);
  }

  /** At the end of the rule. */
  lemma NothingLeft(g: Grammar, r: nat, k: nat)
    requires g.IsRule(r) && r + 1 < |g.rrhs| && InRule(g, r, g.rrhs[r] + k) && g.rrhs[r] + k + 1 == g.rrhs[r+1]
    ensures NullableSuffix(g, g.rrhs[r] + k)
  {
    EndOfRule(g, r, g.rrhs[r] + k);
  }

  /** The first leaf of the rest of a rule is in its FIRST set. */
  lemma {:induction false} FirstLeaf(g: Grammar, r: nat, k: nat, ts: seq<Tree>)
    requires Fits(g, r, k, ts) && YieldAll(ts) != []
    ensures First(g, g.rrhs[r] + k, YieldAll(ts)[0])
    decreases ts
  {
    hide FirstAt, First, Nullable, NullableAt, NullableSuffix, RawGrammar.Valid, TreeOk, ForestOk, Fits, InRule, YieldAll;
    NoTreesLeft(ts);
    FitsRest(g, r, k, ts);
    FirstTree(ts);
    RootPositive(g, ts[0]);
    var t, i := YieldAll(ts)[0], g.rrhs[r] + k;
    if Yield(ts[0]) == [] {
      EmptyTree(g, ts[0]);
      FirstLeaf(g, r, k + 1, ts[1..]);
      FirstSkip(g, i, t);
    } else {
      match ts[0]
      case Leaf(token) =>
        FirstToken(g, i);
      case Node(s, children) =>
        NodeFits(g, ts[0]);
        FirstLeaf(g, s, 0, children);
        FirstExpand(g, i, s, t);
    }
  }

  lemma NoTreesLeft(ts: seq<Tree>)
    requires YieldAll(ts) != []
    ensures ts != []
  {
  }

  lemma FirstToken(g: Grammar, i: nat)
    requires i < |g.ritem| && g.ritem[i] >= 0 && !g.IsVar(g.ritem[i])
    ensures First(g, i, g.ritem[i])
  {
    assert FirstAt(g, 0, i, g.ritem[i]);
  }

  lemma RootPositive(g: Grammar, t: Tree)
    requires TreeOk(g, t)
    ensures Root(g, t) > 0
    ensures t.Node? ==> g.IsVar(Root(g, t)) && g.ntokens < Root(g, t) < g.nsyms
    ensures t.Leaf? ==> !g.IsVar(Root(g, t))
  {
    if t.Node? {
      assert g.UserRule(t.rule);
    }
  }
}
