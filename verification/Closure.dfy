/** The closure of an LR(0) kernel, by one pass over precomputed rule sets (jay/closure.c). */
module Closures {
  import opened Relation
  import opened Words
  import opened Grammars
  import opened Preparation
  import opened Warshall

  /** Variable w starts a right-hand side of variable v; variables are numbered from start_symbol. */
  ghost predicate StartsWith(g: Grammar, v: nat, w: nat)
  {
    exists r: nat :: g.IsRule(r) && g.rlhs[r] == g.ntokens + v && StartVar(g, r, w)
  }

  ghost predicate StartVar(g: Grammar, r: nat, w: nat)
  {
    g.IsRule(r) && g.rrhs[r] < |g.ritem| && g.ritem[g.rrhs[r]] == g.ntokens + w
  }

  ghost function LeftCorner(g: Grammar): Edges
  {
    (v: nat, w: nat) => StartsWith(g, v, w)
  }

  /** What first_derives holds for variable v: the rules that a dot before v brings in. */
  ghost predicate FirstDerives(g: Grammar, v: nat, r: nat)
  {
    g.IsRule(r) && g.rlhs[r] >= g.ntokens && Reach(LeftCorner(g), v, g.rlhs[r] - g.ntokens)
  }

  /** A rule brought in by v whose right-hand side starts with the variable of rule s brings in s. */
  lemma FirstDerivesStep(g: Grammar, v: nat, r: nat, s: nat)
    requires FirstDerives(g, v, r) && g.Expands(g.rrhs[r], s)
    ensures FirstDerives(g, v, s)
  {
    var u, w := g.rlhs[r] - g.ntokens, g.rlhs[s] - g.ntokens;
    assert StartVar(g, r, w);
    assert StartsWith(g, u, w);
    ReachSnoc(LeftCorner(g), v, u, w);
  }

  /** Item i is k itself or the start of a rule that v brings in. */
  ghost predicate KernelOrDerived(g: Grammar, k: nat, v: nat, i: nat)
  {
    i == k || exists r: nat :: FirstDerives(g, v, r) && i == g.rrhs[r]
  }

  /** The items that a kernel item with its dot before a variable brings in are the starts of its first_derives rules. */
  lemma ReachIsFirstDerives(g: Grammar, k: nat, i: nat)
    requires k < |g.ritem| && i != k && Reach(Closes(g), k, i)
    ensures g.IsVar(g.ritem[k]) && exists r: nat :: FirstDerives(g, g.ritem[k] - g.ntokens, r) && i == g.rrhs[r]
  {
    ReachHead(Closes(g), k, i);
    var c: nat :| Closes(g)(k, c);
    var v := g.ritem[k] - g.ntokens;
    forall x: nat, y: nat | KernelOrDerived(g, k, v, x) && Closes(g)(x, y) ensures KernelOrDerived(g, k, v, y) {
      var s: nat :| g.Expands(x, s) && y == g.rrhs[s];
      if x == k {
        ReachRefl(LeftCorner(g), v);
        assert FirstDerives(g, v, s);
      } else {
        var r: nat :| FirstDerives(g, v, r) && x == g.rrhs[r];
        FirstDerivesStep(g, v, r, s);
      }
    }
    ReachInvariant(Closes(g), k, i, (x: nat) => KernelOrDerived(g, k, v, x));
  }

  lemma FirstDerivesIsReach(g: Grammar, k: nat, r: nat)
    requires k < |g.ritem| && g.IsVar(g.ritem[k]) && FirstDerives(g, g.ritem[k] - g.ntokens, r)
    ensures Reach(Closes(g), k, g.rrhs[r])
  {
    var v := g.ritem[k] - g.ntokens;
    var inv := (w: nat) => forall s: nat :: g.IsRule(s) && g.rlhs[s] == g.ntokens + w ==> Reach(Closes(g), k, g.rrhs[s]);
    forall s: nat | g.IsRule(s) && g.rlhs[s] == g.ntokens + v ensures Reach(Closes(g), k, g.rrhs[s]) {
      assert g.Expands(k, s);
      ReachEdge(Closes(g), k, g.rrhs[s]);
    }
    forall x: nat, y: nat | inv(x) && LeftCorner(g)(x, y) ensures inv(y) {
      var q: nat :| g.IsRule(q) && g.rlhs[q] == g.ntokens + x && StartVar(g, q, y);
      forall s: nat | g.IsRule(s) && g.rlhs[s] == g.ntokens + y ensures Reach(Closes(g), k, g.rrhs[s]) {
        assert g.Expands(g.rrhs[q], s);
        ReachSnoc(Closes(g), k, g.rrhs[q], g.rrhs[s]);
      }
    }
    ReachInvariant(LeftCorner(g), v, g.rlhs[r] - g.ntokens, inv);
  }

  /** Rule r is brought in by some item of the nucleus. */
  ghost predicate Brought(g: Grammar, nucleus: seq<nat>, r: nat)
  {
    exists k :: k in nucleus && BroughtBy(g, k, r)
  }

  ghost predicate BroughtBy(g: Grammar, k: nat, r: nat)
  {
    k < |g.ritem| && g.IsVar(g.ritem[k]) && FirstDerives(g, g.ritem[k] - g.ntokens, r)
  }

  /** The closure is the nucleus and the starts of the rules that it brings in. */
  lemma ClosureIsOnePass(g: Grammar, nucleus: seq<nat>, i: nat)
    requires forall k :: k in nucleus ==> g.IsItem(k)
    ensures InClosure(g, nucleus, i) <==> i in nucleus || exists r: nat :: Brought(g, nucleus, r) && i == g.rrhs[r]
  {
    if InClosure(g, nucleus, i) && i !in nucleus {
      var k :| k in nucleus && Reach(Closes(g), k, i);
      ReachIsFirstDerives(g, k, i);
      var r: nat :| FirstDerives(g, g.ritem[k] - g.ntokens, r) && i == g.rrhs[r];
      assert BroughtBy(g, k, r);
      assert Brought(g, nucleus, r);
    }
    if i in nucleus {
      ReachRefl(Closes(g), i);
    }
    if r: nat :| Brought(g, nucleus, r) && i == g.rrhs[r] {
      var k :| k in nucleus && BroughtBy(g, k, r);
      FirstDerivesIsReach(g, k, r);
    }
  }

  ghost predicate DerivesOk(g: Grammar, derives: seq<seq<nat>>)
  {
    |derives| == g.nsyms && forall s :: g.ntokens <= s < g.nsyms ==> derives[s] == RulesOf(g, s, |g.rlhs|)
  }

  lemma StartsWithBound(g: Grammar, v: nat, w: nat)
    requires StartsWith(g, v, w)
    ensures v < g.nsyms - g.ntokens && w < g.nsyms - g.ntokens
  {
    var r: nat :| g.IsRule(r) && g.rlhs[r] == g.ntokens + v && StartVar(g, r, w);
    RuleShape(g, r);
    assert r >= 3 ==> g.UserRule(r);
  }

  /** The bits of EFF when variables below i are done, and of variable i the first c rules. */
  ghost predicate EffBelow(g: Grammar, derives: seq<seq<nat>>, eff: seq<bv32>, i: nat, c: nat)
  {
    var nvars := g.nsyms - g.ntokens;
    && DerivesOk(g, derives) && |eff| == RowOf(nvars, nvars)
    && forall v: nat, w: nat :: v < nvars && w < nvars ==>
         (Bit(eff, RowOf(v, nvars), w) <==> EffBit(g, derives, i, c, v, w))
  }

  /** One of the first c rules starts with variable w. */
  ghost predicate SomeStarts(g: Grammar, rules: seq<nat>, c: nat, w: nat)
  {
    exists d :: 0 <= d < c && d < |rules| && StartVar(g, rules[d], w)
  }

  ghost predicate EffBit(g: Grammar, derives: seq<seq<nat>>, i: nat, c: nat, v: nat, w: nat)
    requires DerivesOk(g, derives)
  {
    || (v < i && StartsWith(g, v, w))
    || (v == i && g.ntokens + i < g.nsyms
        && SomeStarts(g, derives[g.ntokens + i], c, w))
  }

  /** The right-hand side of rule r starts with the symbol (or is empty, and the symbol is negative). */
  ghost predicate StartSymbol(g: Grammar, r: nat, symbol: int)
  {
    g.IsRule(r) && g.rrhs[r] < |g.ritem| && g.ritem[g.rrhs[r]] == symbol
  }

  lemma EffNextRule(g: Grammar, derives: seq<seq<nat>>, was: seq<bv32>, now: seq<bv32>, i: nat, c: nat, symbol: int)
    requires EffBelow(g, derives, was, i, c) && g.ntokens + i < g.nsyms && c < |derives[g.ntokens + i]|
    requires StartSymbol(g, derives[g.ntokens + i][c], symbol)
    requires if g.IsVar(symbol)
             then symbol < g.nsyms && BitSet(was, now, RowOf(i, g.nsyms - g.ntokens), symbol - g.ntokens)
             else now == was
    ensures EffBelow(g, derives, now, i, c + 1)
  {
    hide Bit, BitSet, SomeStarts, WORDSIZE, RowOf, StartsWith, RawGrammar.Valid;
    var nvars := g.nsyms - g.ntokens;
    var rules := derives[g.ntokens + i];
    if g.IsVar(symbol) { BitSetSize(was, now, RowOf(i, nvars), symbol - g.ntokens); }
    forall v: nat, w: nat | v < nvars && w < nvars
      ensures Bit(now, RowOf(v, nvars), w) <==> EffBit(g, derives, i, c + 1, v, w)
    {
      assert Bit(was, RowOf(v, nvars), w) <==> EffBit(g, derives, i, c, v, w);
      SomeStartsMore(g, rules, c, w);
      if g.IsVar(symbol) {
        EffBitSet(was, now, nvars, i, symbol - g.ntokens, v, w);
      }
    }
  }

  lemma BitSetSize(was: seq<bv32>, now: seq<bv32>, row: nat, c: nat)
    requires BitSet(was, now, row, c)
    ensures |now| == |was|
  {
  }

  lemma SomeStartsMore(g: Grammar, rules: seq<nat>, c: nat, w: nat)
    requires c < |rules|
    ensures SomeStarts(g, rules, c + 1, w) <==> SomeStarts(g, rules, c, w) || StartVar(g, rules[c], w)
  {
  }

  lemma EffBitSet(was: seq<bv32>, now: seq<bv32>, nvars: nat, i: nat, u: nat, v: nat, w: nat)
    requires u < nvars && w < nvars && BitSet(was, now, RowOf(i, nvars), u)
    ensures Bit(now, RowOf(v, nvars), w) <==> Bit(was, RowOf(v, nvars), w) || (v == i && w == u)
  {
    ColumnInside(w, nvars);
    ColumnInside(u, nvars);
    MatrixBitSet(was, now, nvars, i, u, v, w);
  }

  lemma EffNextVar(g: Grammar, derives: seq<seq<nat>>, eff: seq<bv32>, i: nat)
    requires g.ntokens + i < g.nsyms && DerivesOk(g, derives)
    requires EffBelow(g, derives, eff, i, |derives[g.ntokens + i]|)
    ensures EffBelow(g, derives, eff, i + 1, 0)
  {
    var nvars := g.nsyms - g.ntokens;
    var rules := derives[g.ntokens + i];
    forall v: nat, w: nat | v < nvars && w < nvars
      ensures EffBit(g, derives, i, |rules|, v, w) <==> EffBit(g, derives, i + 1, 0, v, w)
    {
      if v == i && StartsWith(g, v, w) {
        var r: nat :| g.IsRule(r) && g.rlhs[r] == g.ntokens + v && StartVar(g, r, w);
        assert r in rules;
      }
    }
  }

  /** The rules of a variable are numbered from 2 on. */
  lemma DerivesRule(g: Grammar, derives: seq<seq<nat>>, s: nat, c: nat)
    requires DerivesOk(g, derives) && g.ntokens <= s < g.nsyms && c < |derives[s]|
    ensures g.IsRule(derives[s][c]) && g.rlhs[derives[s][c]] == s
  {
    assert derives[s][c] in derives[s];
  }

  /** Row v of EFF holds the variables that words of variable v can start with, and v. */
  ghost predicate EffRow(g: Grammar, eff: seq<bv32>, v: nat)
  {
    forall w: nat :: w < g.nsyms - g.ntokens ==>
      (Bit(eff, RowOf(v, g.nsyms - g.ntokens), w) <==> Reach(LeftCorner(g), v, w))
  }

  method SetEff(g: Grammar, derives: seq<seq<nat>>) returns (EFF: array<bv32>)
    requires DerivesOk(g, derives)
    ensures fresh(EFF)
    ensures EFF.Length == RowOf(g.nsyms - g.ntokens, g.nsyms - g.ntokens)
    ensures forall v: nat :: v < g.nsyms - g.ntokens ==> EffRow(g, EFF[..], v)
  {
    var nvars := g.nsyms - g.ntokens;
    var rowsize := WORDSIZE(nvars);
    EFF := new bv32[RowOf(nvars, nvars)](_ => 0);
    var i, row := 0, 0;
    EffStart(g, derives, EFF[..]);
    hide EffBelow, EffRow, IsReflexiveClosure;
    while i < nvars
      invariant i <= nvars && row == RowOf(i, nvars)
      invariant EffBelow(g, derives, EFF[..], i, 0)
    {
      MarkStarts(g, derives, EFF, i, row);
      i, row := i + 1, row + rowsize;
    }
    ghost var was := EFF[..];
    ReflexiveTransitiveClosure(EFF, nvars);
    EffDone(g, derives, was, EFF[..]);
  }

  /** The loop over the rules of a variable that marks the variables their right-hand sides start with. */
  method MarkStarts(g: Grammar, derives: seq<seq<nat>>, EFF: array<bv32>, i: nat, row: nat)
    requires DerivesOk(g, derives) && i < g.nsyms - g.ntokens && row == RowOf(i, g.nsyms - g.ntokens)
    requires EFF.Length == RowOf(g.nsyms - g.ntokens, g.nsyms - g.ntokens)
    requires EffBelow(g, derives, EFF[..], i, 0)
    modifies EFF
    ensures EffBelow(g, derives, EFF[..], i + 1, 0)
  {
    var nvars := g.nsyms - g.ntokens;
    var sp := derives[g.ntokens + i];
    hide EffBelow;
    var c := 0;
    while c < |sp|
      invariant c <= |sp|
      invariant EffBelow(g, derives, EFF[..], i, c)
    {
      MarkStart(g, derives, EFF, i, row, c);
      c := c + 1;
    }
    EffNextVar(g, derives, EFF[..], i);
  }

  lemma StartFacts(g: Grammar, derives: seq<seq<nat>>, i: nat, c: nat)
    requires DerivesOk(g, derives) && i < g.nsyms - g.ntokens && c < |derives[g.ntokens + i]|
    ensures g.ntokens + i < |derives| == g.nsyms
    ensures var rule := derives[g.ntokens + i][c]; var nvars := g.nsyms - g.ntokens;
            && rule < |g.rrhs| && g.rrhs[rule] < |g.ritem| && g.ritem[g.rrhs[rule]] < g.nsyms
            && StartSymbol(g, rule, g.ritem[g.rrhs[rule]])
            && (g.ritem[g.rrhs[rule]] >= g.ntokens ==>
                  RowOf(i, nvars) + (g.ritem[g.rrhs[rule]] - g.ntokens) / 32 < RowOf(nvars, nvars))
  {
    var rule := derives[g.ntokens + i][c];
    DerivesRule(g, derives, g.ntokens + i, c);
    RuleShape(g, rule);
    EndOfRule(g, rule, g.rrhs[rule]);
    var symbol, nvars := g.ritem[g.rrhs[rule]], g.nsyms - g.ntokens;
    hide RawGrammar.Valid, DerivesOk;
    if symbol >= g.ntokens {
      ColumnInside(symbol - g.ntokens, nvars);
      RowInside(i, nvars, nvars);
    }
  }

  /** Mark the variable that rule number c of a variable starts with, if it starts with one. */
  method MarkStart(g: Grammar, derives: seq<seq<nat>>, EFF: array<bv32>, i: nat, row: nat, c: nat)
    requires DerivesOk(g, derives) && i < g.nsyms - g.ntokens && row == RowOf(i, g.nsyms - g.ntokens)
    requires c < |derives[g.ntokens + i]| && EFF.Length == RowOf(g.nsyms - g.ntokens, g.nsyms - g.ntokens)
    requires EffBelow(g, derives, EFF[..], i, c)
    modifies EFF
    ensures EffBelow(g, derives, EFF[..], i, c + 1)
  {
    hide EffBelow, DerivesOk, StartSymbol, BitSet, RowOf, RawGrammar.Valid;
    StartFacts(g, derives, i, c);
    var rule := derives[g.ntokens + i][c];
    var symbol := g.ritem[g.rrhs[rule]];
    ghost var was := EFF[..];
    if symbol >= g.ntokens {
      SETBIT(EFF, row, symbol - g.ntokens);
      EffNextRule(g, derives, was, EFF[..], i, c, symbol);
    } else {
      EffNextRule(g, derives, was, was, i, c, symbol);
    }
  }

  lemma EffStart(g: Grammar, derives: seq<seq<nat>>, eff: seq<bv32>)
    requires DerivesOk(g, derives) && |eff| == RowOf(g.nsyms - g.ntokens, g.nsyms - g.ntokens)
    requires forall w :: 0 <= w < |eff| ==> eff[w] == 0
    ensures EffBelow(g, derives, eff, 0, 0)
  {
    forall row: nat, c: nat ensures !Bit(eff, row, c) {
      NoBit(c % 32);
    }
  }

  lemma EffDone(g: Grammar, derives: seq<seq<nat>>, was: seq<bv32>, now: seq<bv32>)
    requires EffBelow(g, derives, was, g.nsyms - g.ntokens, 0)
    requires IsReflexiveClosure(was, now, g.nsyms - g.ntokens)
    ensures forall v: nat :: v < g.nsyms - g.ntokens ==> EffRow(g, now, v)
  {
    var nvars := g.nsyms - g.ntokens;
    forall v: nat, w: nat ensures BitEdges(was, nvars)(v, w) == LeftCorner(g)(v, w) {
      if StartsWith(g, v, w) {
        StartsWithBound(g, v, w);
      }
    }
    forall v: nat | v < nvars ensures EffRow(g, now, v) {
      forall w: nat | w < nvars ensures Bit(now, RowOf(v, nvars), w) <==> Reach(LeftCorner(g), v, w) {
        ReachSame(BitEdges(was, nvars), LeftCorner(g), v, w);
      }
    }
  }

  // ---------------------------------------------------------------------------------
  // first_derives.

  /** What the row of variable v holds when the variables below j have been looked at, and of j the first c rules. */
  ghost predicate DerivesBit(g: Grammar, v: nat, j: nat, rules: seq<nat>, c: nat, r: nat)
  {
    FirstDerives(g, v, r) && (g.rlhs[r] < g.ntokens + j || (g.rlhs[r] == g.ntokens + j && r in rules[..if c < |rules| then c else |rules|]))
  }

  ghost predicate RowDerives(g: Grammar, words: seq<bv32>, v: nat, j: nat, rules: seq<nat>, c: nat)
  {
    forall r: nat :: r / 32 < WORDSIZE(|g.rlhs|) ==>
      (Bit(words, RowOf(v, |g.rlhs|), r) <==> DerivesBit(g, v, j, rules, c, r))
  }

  /** Rows below v are complete, row v is under way, and later rows are empty. */
  ghost predicate DerivesBelow(g: Grammar, words: seq<bv32>, v: nat, j: nat, rules: seq<nat>, c: nat)
  {
    && |words| == RowOf(g.nsyms - g.ntokens, |g.rlhs|)
    && forall u: nat :: u < g.nsyms - g.ntokens ==> DerivesRow(g, words, v, j, rules, c, u)
  }

  ghost predicate DerivesRow(g: Grammar, words: seq<bv32>, v: nat, j: nat, rules: seq<nat>, c: nat, u: nat)
  {
    if u < v then RowDerives(g, words, u, g.nsyms - g.ntokens, [], 0)
    else if u == v then RowDerives(g, words, u, j, rules, c)
    else RowDerives(g, words, u, 0, [], 0)
  }

  lemma DerivesNextRule(g: Grammar, was: seq<bv32>, now: seq<bv32>, v: nat, j: nat, rules: seq<nat>, c: nat)
    requires DerivesBelow(g, was, v, j, rules, c) && v < g.nsyms - g.ntokens && c < |rules|
    requires FirstDerives(g, v, rules[c]) && g.rlhs[rules[c]] == g.ntokens + j
    requires BitSet(was, now, RowOf(v, |g.rlhs|), rules[c])
    ensures DerivesBelow(g, now, v, j, rules, c + 1)
  {
    var d := c + 1;
    assert rules[..d] == rules[..c] + [rules[c]];
    ColumnInside(rules[c], |g.rlhs|);
    forall u: nat | u < g.nsyms - g.ntokens ensures DerivesRow(g, now, v, j, rules, d, u) {
      assert DerivesRow(g, was, v, j, rules, c, u);
      forall r: nat | r / 32 < WORDSIZE(|g.rlhs|)
        ensures Bit(now, RowOf(u, |g.rlhs|), r) <==> Bit(was, RowOf(u, |g.rlhs|), r) || (u == v && r == rules[c])
      {
        MatrixBitSet(was, now, |g.rlhs|, v, rules[c], u, r);
      }
    }
  }

  /** Nothing changes at a variable that v does not lead to. */
  lemma DerivesSkip(g: Grammar, words: seq<bv32>, v: nat, j: nat, rules: seq<nat>, c: nat)
    requires DerivesBelow(g, words, v, j, rules, c) && v < g.nsyms - g.ntokens && g.ntokens + j < g.nsyms
    requires Reach(LeftCorner(g), v, j) ==> c == |rules| && rules == RulesOf(g, g.ntokens + j, |g.rlhs|)
    ensures DerivesBelow(g, words, v, j + 1, [], 0)
  {
    var next := j + 1;
    forall u: nat | u < g.nsyms - g.ntokens ensures DerivesRow(g, words, v, next, [], 0, u) {
      assert DerivesRow(g, words, v, j, rules, c, u);
      forall r: nat ensures u == v ==> DerivesBit(g, u, j, rules, c, r) == DerivesBit(g, u, next, [], 0, r) {
        assert c == |rules| ==> rules[..c] == rules;
      }
    }
  }

  lemma DerivesNextVar(g: Grammar, words: seq<bv32>, v: nat)
    requires DerivesBelow(g, words, v, g.nsyms - g.ntokens, [], 0) && v < g.nsyms - g.ntokens
    ensures DerivesBelow(g, words, v + 1, 0, [], 0)
  {
    var next := v + 1;
    forall u: nat | u < g.nsyms - g.ntokens ensures DerivesRow(g, words, next, 0, [], 0, u) {
      assert DerivesRow(g, words, v, g.nsyms - g.ntokens, [], 0, u);
    }
  }

  lemma DerivesStart(g: Grammar, words: seq<bv32>)
    requires |words| == RowOf(g.nsyms - g.ntokens, |g.rlhs|)
    requires forall w :: 0 <= w < |words| ==> words[w] == 0
    ensures DerivesBelow(g, words, 0, 0, [], 0)
  {
    forall row: nat, c: nat ensures !Bit(words, row, c) {
      NoBit(c % 32);
    }
    forall u: nat | u < g.nsyms - g.ntokens ensures DerivesRow(g, words, 0, 0, [], 0, u) {
    }
  }

  lemma DerivesDone(g: Grammar, words: seq<bv32>)
    requires DerivesBelow(g, words, g.nsyms - g.ntokens, 0, [], 0)
    ensures FirstDerivesTable(g, words)
  {
    var nvars := g.nsyms - g.ntokens;
    forall v: nat, r: nat | v < nvars && r / 32 < WORDSIZE(|g.rlhs|)
      ensures Bit(words, RowOf(v, |g.rlhs|), r) <==> FirstDerives(g, v, r)
    {
      assert DerivesRow(g, words, nvars, 0, [], 0, v);
      if FirstDerives(g, v, r) {
        assert r >= 3 ==> g.UserRule(r);
      }
    }
  }

  /** Row v of the table holds the rules that a dot before variable v brings in. */
  ghost predicate FirstDerivesTable(g: Grammar, words: seq<bv32>)
  {
    && |words| == RowOf(g.nsyms - g.ntokens, |g.rlhs|)
    && forall v: nat, r: nat :: v < g.nsyms - g.ntokens && r / 32 < WORDSIZE(|g.rlhs|) ==>
         (Bit(words, RowOf(v, |g.rlhs|), r) <==> FirstDerives(g, v, r))
  }

  method SetFirstDerives(g: Grammar, derives: seq<seq<nat>>) returns (firstDerives: array<bv32>)
    requires DerivesOk(g, derives)
    ensures fresh(firstDerives) && FirstDerivesTable(g, firstDerives[..])
  {
    var nvars := g.nsyms - g.ntokens;
    var rulesetsize, varsetsize := WORDSIZE(|g.rlhs|), WORDSIZE(nvars);
    firstDerives := new bv32[RowOf(nvars, |g.rlhs|)](_ => 0);
    var EFF := SetEff(g, derives);
    DerivesStart(g, firstDerives[..]);
    hide DerivesBelow, WORDSIZE, FirstDerivesTable, EffRow;
    var i, rrow, vrow := 0, 0, 0;
    while i < nvars
      invariant i <= nvars && rrow == RowOf(i, |g.rlhs|) && vrow == RowOf(i, nvars)
      invariant forall v: nat :: v < nvars ==> EffRow(g, EFF[..], v)
      invariant DerivesBelow(g, firstDerives[..], i, 0, [], 0)
    {
      DeriveVar(g, derives, EFF, firstDerives, i, rrow, vrow);
      DerivesNextVar(g, firstDerives[..], i);
      i, rrow, vrow := i + 1, rrow + rulesetsize, vrow + varsetsize;
    }
    DerivesDone(g, firstDerives[..]);
  }

  /** The loop over the row of EFF that fills the row of first_derives for variable i. */
  method DeriveVar(g: Grammar, derives: seq<seq<nat>>, EFF: array<bv32>, firstDerives: array<bv32>,
                   i: nat, rrow: nat, vrow: nat)
    requires DerivesOk(g, derives) && EFF != firstDerives && i < g.nsyms - g.ntokens
    requires rrow == RowOf(i, |g.rlhs|) && vrow == RowOf(i, g.nsyms - g.ntokens)
    requires EFF.Length == RowOf(g.nsyms - g.ntokens, g.nsyms - g.ntokens)
    requires EffRow(g, EFF[..], i)
    requires DerivesBelow(g, firstDerives[..], i, 0, [], 0)
    modifies firstDerives
    ensures DerivesBelow(g, firstDerives[..], i, g.nsyms - g.ntokens, [], 0)
  {
    hide DerivesBelow, WordBit, Reach;
    var nvars := g.nsyms - g.ntokens;
    var j := 0;
    while j < nvars
      invariant j <= nvars
      invariant DerivesBelow(g, firstDerives[..], i, j, [], 0)
    {
      ColumnInside(j, nvars);
      RowInside(i, nvars, nvars);
      assert Bit(EFF[..], vrow, j) <==> WordBit(EFF[vrow + j / 32], j % 32);
      if WordBit(EFF[vrow + j / 32], j % 32) {
        AddRules(g, firstDerives, i, j, rrow, derives[g.ntokens + j]);
      } else {
        DerivesSkip(g, firstDerives[..], i, j, [], 0);
      }
      j := j + 1;
    }
  }

  /** The loop over the rules of a variable that the variable of the row leads to. */
  method AddRules(g: Grammar, firstDerives: array<bv32>, i: nat, j: nat, rrow: nat, rules: seq<nat>)
    requires i < g.nsyms - g.ntokens && j < g.nsyms - g.ntokens && rrow == RowOf(i, |g.rlhs|)
    requires rules == RulesOf(g, g.ntokens + j, |g.rlhs|) && Reach(LeftCorner(g), i, j)
    requires DerivesBelow(g, firstDerives[..], i, j, [], 0)
    modifies firstDerives
    ensures DerivesBelow(g, firstDerives[..], i, j + 1, [], 0)
  {
    var c := 0;
    NoRulesYet(g, firstDerives[..], i, j, rules);
    while c < |rules|
      invariant c <= |rules| && firstDerives.Length == RowOf(g.nsyms - g.ntokens, |g.rlhs|)
      invariant DerivesBelow(g, firstDerives[..], i, j, rules, c)
    {
      hide DerivesBelow;
      ghost var was := firstDerives[..];
      assert rules[c] in rules;
      ColumnInside(rules[c], |g.rlhs|);
      RowInside(i, g.nsyms - g.ntokens, |g.rlhs|);
      SETBIT(firstDerives, rrow, rules[c]);
      DerivesNextRule(g, was, firstDerives[..], i, j, rules, c);
      c := c + 1;
    }
    DerivesSkip(g, firstDerives[..], i, j, rules, c);
  }

  lemma NoRulesYet(g: Grammar, words: seq<bv32>, v: nat, j: nat, rules: seq<nat>)
    requires DerivesBelow(g, words, v, j, [], 0)
    ensures DerivesBelow(g, words, v, j, rules, 0)
  {
    forall u: nat | u < g.nsyms - g.ntokens ensures DerivesRow(g, words, v, j, rules, 0, u) {
      assert DerivesRow(g, words, v, j, [], 0, u);
    }
  }

  // ---------------------------------------------------------------------------------
  // closure.

  ghost predicate Ascending(s: seq<nat>)
  {
    forall k, l :: 0 <= k < l < |s| ==> s[k] < s[l]
  }

  ghost predicate BroughtBelow(g: Grammar, nucleus: seq<nat>, r: nat, x: nat)
  {
    exists q: nat :: q < r && Brought(g, nucleus, q) && g.rrhs[q] == x
  }

  /** The merge of the nucleus and the starts of the rules brought in has dealt with the first c items of the
      nucleus and the rules below r. */
  ghost predicate Merging(g: Grammar, nucleus: seq<nat>, out: seq<nat>, c: nat, r: nat)
  {
    && KernelLike(g, nucleus) && KernelLike(g, out) && c <= |nucleus|
    && (forall x :: x in out <==> x in nucleus[..c] || BroughtBelow(g, nucleus, r, x))
    && (forall x, k :: x in out && c <= k < |nucleus| ==> x < nucleus[k])
    && (forall x, q: nat :: x in out && q >= r && g.IsRule(q) ==> x < g.rrhs[q])
  }

  ghost predicate KernelLike(g: Grammar, s: seq<nat>)
  {
    Ascending(s) && forall x :: x in s ==> g.IsItem(x)
  }

  lemma AscendingBelow(s: seq<nat>, n: nat)
    requires Ascending(s) && forall x :: x in s ==> x < n
    ensures |s| <= n
  {
    if s != [] {
      var last := s[|s|-1];
      AscendingAt(s, |s| - 1);
      assert last in s;
    }
  }

  lemma {:induction false} AscendingAt(s: seq<nat>, k: nat)
    requires Ascending(s) && k < |s|
    ensures k <= s[k]
  {
    if k > 0 {
      AscendingAt(s, k - 1);
    }
  }

  /** There is room for one more item. */
  lemma RoomLeft(g: Grammar, s: seq<nat>, x: nat)
    requires KernelLike(g, s) && g.IsItem(x) && forall y :: y in s ==> y < x
    ensures |s| < |g.ritem| && KernelLike(g, s + [x])
  {
    forall y | y in s + [x] ensures g.IsItem(y) {}
    forall k | 0 <= k < |s| ensures s[k] < x { assert s[k] in s; }
    AscendingBelow(s + [x], |g.ritem|);
  }

  lemma MergeNucleus(g: Grammar, nucleus: seq<nat>, out: seq<nat>, c: nat, r: nat)
    requires Merging(g, nucleus, out, c, r) && c < |nucleus|
    requires forall q: nat :: q >= r && g.IsRule(q) ==> nucleus[c] < g.rrhs[q]
    ensures |out| < |g.ritem| && Merging(g, nucleus, out + [nucleus[c]], c + 1, r)
  {
    RoomLeft(g, out, nucleus[c]);
    assert nucleus[..c+1] == nucleus[..c] + [nucleus[c]];
  }

  /** Rule r is brought in and its start is pushed; an equal item of the nucleus may be skipped. */
  lemma MergeRule(g: Grammar, nucleus: seq<nat>, out: seq<nat>, c: nat, c': nat, r: nat)
    requires Merging(g, nucleus, out, c, r) && Brought(g, nucleus, r)
    requires c <= c' <= |nucleus| && c' <= c + 1
    requires c < c' ==> nucleus[c] == g.rrhs[r]
    requires c' < |nucleus| ==> nucleus[c'] > g.rrhs[r]
    ensures Merging(g, nucleus, out + [g.rrhs[r]], c', r + 1)
  {
    var x := g.rrhs[r];
    RuleShape(g, r);
    RoomLeft(g, out, x);
    if c < c' {
      assert nucleus[..c'] == nucleus[..c] + [nucleus[c]];
    }
    forall y ensures y in out + [x] <==> y in nucleus[..c'] || BroughtBelow(g, nucleus, r + 1, y) {
    }
    forall q: nat | q >= r + 1 && g.IsRule(q) ensures x < g.rrhs[q] {
      RulesAscend(g, r, q);
    }
  }

  lemma MergeSkip(g: Grammar, nucleus: seq<nat>, out: seq<nat>, c: nat, r: nat, r': nat)
    requires Merging(g, nucleus, out, c, r) && r <= r'
    requires forall q: nat :: r <= q < r' ==> !Brought(g, nucleus, q)
    ensures Merging(g, nucleus, out, c, r')
  {
    forall x ensures BroughtBelow(g, nucleus, r, x) <==> BroughtBelow(g, nucleus, r', x) {
      if BroughtBelow(g, nucleus, r', x) {
        var q: nat :| q < r' && Brought(g, nucleus, q) && g.rrhs[q] == x;
      }
    }
  }

  lemma MergeDone(g: Grammar, nucleus: seq<nat>, out: seq<nat>, r: nat)
    requires Merging(g, nucleus, out, |nucleus|, r) && r >= |g.rlhs|
    ensures IsClosure(g, nucleus, out)
  {
    assert nucleus[..|nucleus|] == nucleus;
    forall i: nat ensures i in out <==> InClosure(g, nucleus, i) {
      ClosureIsOnePass(g, nucleus, i);
      if q: nat :| Brought(g, nucleus, q) && i == g.rrhs[q] {
        assert BroughtBelow(g, nucleus, r, i);
      }
    }
  }

  /** The items of the closure of the nucleus, each once, ascending. */
  ghost predicate IsClosure(g: Grammar, nucleus: seq<nat>, items: seq<nat>)
  {
    KernelLike(g, items) && forall i: nat :: i in items <==> InClosure(g, nucleus, i)
  }

  /** The tables and buffers of closure.c. */
  class ClosureTables {
    const g: Grammar
    const firstDerives: array<bv32>
    const ruleset: array<bv32>
    const itemset: array<nat>
    var itemsetend: nat
    ghost var items: seq<nat>

    ghost predicate Valid()
      reads this, firstDerives, ruleset, itemset
    {
      Tables() && Stored()
    }

    ghost predicate Tables()
      reads firstDerives, ruleset
    {
      && firstDerives != ruleset && itemset as object != ruleset && itemset as object != firstDerives
      && FirstDerivesTable(g, firstDerives[..])
      && ruleset.Length == WORDSIZE(|g.rlhs|)
    }

    ghost predicate Stored()
      reads this, itemset
    {
      itemset.Length == |g.ritem| && itemsetend == |items| <= itemset.Length && itemset[..itemsetend] == items
    }

    constructor (g: Grammar, derives: seq<seq<nat>>)
      requires DerivesOk(g, derives)
      ensures Valid() && this.g == g && fresh(firstDerives) && fresh(ruleset) && fresh(itemset)
    {
      var fd := SetFirstDerives(g, derives);
      this.g := g;
      firstDerives := fd;
      ruleset := new bv32[WORDSIZE(|g.rlhs|)](_ => 0);
      itemset := new nat[|g.ritem|](_ => 0);
      itemsetend := 0;
      items := [];
    }

    method PushItem(x: nat)
      requires Stored() && |items| < |g.ritem|
      modifies this`itemsetend, this`items, itemset
      ensures Stored() && items == old(items) + [x]
    {
      itemset[itemsetend] := x;
      itemsetend := itemsetend + 1;
      items := items + [x];
    }

    /** ruleset becomes the set of the rules that the nucleus brings in. */
    method CollectRules(nucleus: seq<nat>)
      requires Tables() && KernelLike(g, nucleus)
      modifies ruleset
      ensures Tables()
      ensures forall r: nat :: r / 32 < ruleset.Length ==> (Bit(ruleset[..], 0, r) <==> Brought(g, nucleus, r))
    {
      var w := 0;
      while w < ruleset.Length
        invariant w <= ruleset.Length
        invariant forall k :: 0 <= k < w ==> ruleset[k] == 0
        invariant FirstDerivesTable(g, firstDerives[..])
      {
        ruleset[w] := 0;
        w := w + 1;
      }
      forall r: nat ensures !Bit(ruleset[..], 0, r) { NoBit(r % 32); }
      var c := 0;
      while c < |nucleus|
        invariant c <= |nucleus| && Tables()
        invariant forall r: nat :: r / 32 < ruleset.Length ==> (Bit(ruleset[..], 0, r) <==> Brought(g, nucleus[..c], r))
      {
        assert nucleus[c] in nucleus;
        ghost var was := ruleset[..];
        AddBrought(nucleus[c]);
        forall r: nat | r / 32 < ruleset.Length ensures Bit(ruleset[..], 0, r) <==> Brought(g, nucleus[..c+1], r) {
          BroughtMore(g, nucleus, c, r);
        }
        c := c + 1;
      }
      assert nucleus[..c] == nucleus;
    }

    method AddBrought(k: nat)
      requires Tables() && g.IsItem(k)
      modifies ruleset
      ensures Tables()
      ensures forall r: nat :: r / 32 < ruleset.Length ==>
                (Bit(ruleset[..], 0, r) <==> Bit(old(ruleset[..]), 0, r) || BroughtBy(g, k, r))
    {
      var symbol := g.ritem[k];
      if symbol >= g.ntokens {
        ghost var s := RuleOfItem(g, k);
        RuleShape(g, s);
        EndOfRule(g, s, k);
        var row := RowOf(symbol - g.ntokens, |g.rlhs|);
        ghost var was := ruleset[..];
        RowInside(symbol - g.ntokens, g.nsyms - g.ntokens, |g.rlhs|);
        OrFrom(ruleset, firstDerives, row);
        forall r: nat | r / 32 < ruleset.Length
          ensures Bit(ruleset[..], 0, r) <==> Bit(was, 0, r) || BroughtBy(g, k, r)
        {
          RowOrBits(was, ruleset[..], 0, firstDerives[..], row, ruleset.Length, r);
        }
      }
    }

    /** Build the closure of the nucleus in itemset. */
    method Closure(nucleus: seq<nat>)
      requires Valid() && KernelLike(g, nucleus)
      modifies this`itemsetend, this`items, itemset, ruleset
      ensures Valid() && IsClosure(g, nucleus, items)
    {
      CollectRules(nucleus);
      itemsetend, items := 0, [];
      assert Merging(g, nucleus, [], 0, 0);
      MergeAll(nucleus);
    }

    /** The loop over the words of the rule set. */
    method MergeAll(nucleus: seq<nat>)
      requires Valid() && Merging(g, nucleus, items, 0, 0)
      requires forall r: nat :: r / 32 < ruleset.Length ==> (Bit(ruleset[..], 0, r) <==> Brought(g, nucleus, r))
      modifies this`itemsetend, this`items, itemset
      ensures Valid() && IsClosure(g, nucleus, items)
    {
      hide Merging, IsClosure, FirstDerivesTable, Brought, RawGrammar.Valid;
      var csp: nat, ruleno: nat, rsp: nat := 0, 0, 0;
      while rsp < ruleset.Length
        invariant rsp <= ruleset.Length && ruleno == 32 * rsp && csp <= |nucleus| && Stored()
        invariant Merging(g, nucleus, items, csp, ruleno)
      {
        csp := MergeWord(nucleus, csp, ruleno, rsp);
        ruleno, rsp := ruleno + 32, rsp + 1;
      }
      PushRest(nucleus, csp, ruleno);
      MergeDone(g, nucleus, items, ruleno);
    }

    /** One word of the rule set. */
    method MergeWord(nucleus: seq<nat>, csp0: nat, ruleno: nat, rsp: nat) returns (csp: nat)
      requires Valid() && csp0 <= |nucleus| && Merging(g, nucleus, items, csp0, ruleno)
      requires rsp < ruleset.Length && ruleno == 32 * rsp
      requires forall r: nat :: r / 32 < ruleset.Length ==> (Bit(ruleset[..], 0, r) <==> Brought(g, nucleus, r))
      modifies this`itemsetend, this`items, itemset
      ensures Stored() && csp <= |nucleus| && Merging(g, nucleus, items, csp, ruleno + 32)
    {
      hide Merging, FirstDerivesTable;
      var word := ruleset[rsp];
      hide WordBit, Bit, Brought;
      forall i: nat | i < 32 ensures WordBit(word, i) <==> Brought(g, nucleus, ruleno + i) {
        BitOfWord(ruleset[..], rsp, i);
        assert Bit(ruleset[..], 0, ruleno + i) <==> Brought(g, nucleus, ruleno + i);
      }
      if word != 0 {
        csp := MergeBits(nucleus, csp0, ruleno, word);
      } else {
        csp := csp0;
        forall q: nat | ruleno <= q < ruleno + 32 ensures !Brought(g, nucleus, q) {
          NoWordBit(q - ruleno);
        }
        MergeSkip(g, nucleus, items, csp, ruleno, ruleno + 32);
      }
    }

    /** The loop over the bits of one word of the rule set. */
    method MergeBits(nucleus: seq<nat>, csp0: nat, ruleno: nat, word: bv32) returns (csp: nat)
      requires Stored() && csp0 <= |nucleus| && Merging(g, nucleus, items, csp0, ruleno)
      requires forall i: nat :: i < 32 ==> (WordBit(word, i) <==> Brought(g, nucleus, ruleno + i))
      modifies this`itemsetend, this`items, itemset
      ensures Stored() && csp <= |nucleus| && Merging(g, nucleus, items, csp, ruleno + 32)
    {
      hide Merging;
      csp := csp0;
      var i := 0;
      while i < 32
        invariant i <= 32 && csp <= |nucleus| && Stored()
        invariant Merging(g, nucleus, items, csp, ruleno + i)
      {
        if WordBit(word, i) {
          csp := MergeStart(nucleus, csp, ruleno + i);
        } else {
          assert !Brought(g, nucleus, ruleno + i);
          MergeSkip(g, nucleus, items, csp, ruleno + i, ruleno + i + 1);
        }
        i := i + 1;
      }
    }

    /** Push the start of rule r after the smaller items of the nucleus, and skip an equal one. */
    method MergeStart(nucleus: seq<nat>, csp0: nat, r: nat) returns (csp: nat)
      requires Stored() && csp0 <= |nucleus| && Merging(g, nucleus, items, csp0, r) && Brought(g, nucleus, r)
      modifies this`itemsetend, this`items, itemset
      ensures Stored() && csp <= |nucleus| && Merging(g, nucleus, items, csp, r + 1)
    {
      BroughtRule(g, nucleus, r);
      var itemno := g.rrhs[r];
      csp := csp0;
      while csp < |nucleus| && nucleus[csp] < itemno
        invariant csp <= |nucleus| && Stored() && Merging(g, nucleus, items, csp, r)
      {
        forall q: nat | q >= r && g.IsRule(q) ensures nucleus[csp] < g.rrhs[q] { RulesAscend(g, r, q); }
        MergeNucleus(g, nucleus, items, csp, r);
        PushItem(nucleus[csp]);
        csp := csp + 1;
      }
      ghost var csp1 := csp;
      RoomForRule(g, nucleus, items, csp, r);
      ghost var before := items;
      PushItem(itemno);
      while csp < |nucleus| && nucleus[csp] == itemno
        invariant csp1 <= csp <= |nucleus| && csp <= csp1 + 1 && Stored() && items == before + [itemno]
        invariant csp1 < csp ==> nucleus[csp1] == itemno
      {
        csp := csp + 1;
      }
      MergeRule(g, nucleus, before, csp1, csp, r);
    }

    method PushRest(nucleus: seq<nat>, csp0: nat, r: nat)
      requires Stored() && csp0 <= |nucleus| && Merging(g, nucleus, items, csp0, r) && r >= |g.rlhs|
      modifies this`itemsetend, this`items, itemset
      ensures Stored() && Merging(g, nucleus, items, |nucleus|, r)
    {
      hide Merging;
      var csp := csp0;
      while csp < |nucleus|
        invariant csp <= |nucleus| && Stored() && Merging(g, nucleus, items, csp, r)
      {
        MergeNucleus(g, nucleus, items, csp, r);
        PushItem(nucleus[csp]);
        csp := csp + 1;
      }
    }
  }

  lemma BroughtRule(g: Grammar, nucleus: seq<nat>, r: nat)
    requires Brought(g, nucleus, r)
    ensures g.IsRule(r)
  {
  }

  lemma RoomForRule(g: Grammar, nucleus: seq<nat>, out: seq<nat>, c: nat, r: nat)
    requires Merging(g, nucleus, out, c, r) && g.IsRule(r)
    ensures |out| < |g.ritem|
  {
    RuleShape(g, r);
    RoomLeft(g, out, g.rrhs[r]);
  }

  lemma BroughtMore(g: Grammar, nucleus: seq<nat>, c: nat, r: nat)
    requires c < |nucleus|
    ensures Brought(g, nucleus[..c+1], r) <==> Brought(g, nucleus[..c], r) || BroughtBy(g, nucleus[c], r)
  {
    assert nucleus[..c+1] == nucleus[..c] + [nucleus[c]];
  }
}
