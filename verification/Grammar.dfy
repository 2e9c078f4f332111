/** The packed grammar that jay's reader leaves behind (jay/reader.c, pack_symbols and pack_grammar). */
module Grammars {
  import opened Relation

  /** ritem holds the right-hand sides one after the other, each closed by minus its rule number; rrhs says where
      each right-hand side starts and rlhs what its left-hand side is. Symbols below ntokens are tokens. */
  datatype RawGrammar = RawGrammar(ntokens: nat, nsyms: nat, ritem: seq<int>, rlhs: seq<nat>, rrhs: seq<nat>) {

    ghost predicate IsVar(symbol: int) { symbol >= ntokens }

    /** Rule 2 is $accept: goal $end; rules 0 and 1 do not exist, and the rules of the user start at 3. */
    ghost predicate Header()
    {
      && 1 <= ntokens && ntokens + 1 < nsyms
      && |rlhs| >= 3 && |rrhs| == |rlhs| + 1 && |ritem| >= 4
      && ritem[0] == -1 && ritem[1] == ntokens + 1 && ritem[2] == 0 && ritem[3] == -2
      && rlhs[0] == 0 && rlhs[1] == 0 && rlhs[2] == ntokens
      && rrhs[0] == 0 && rrhs[1] == 0 && rrhs[2] == 1 && rrhs[3] == 4
      && rrhs[|rlhs|] == |ritem|
    }

    ghost predicate IsRule(r: int) { 2 <= r < |rlhs| }

    ghost predicate UserRule(r: nat)
      requires Header() && r < |rlhs|
    {
      && ntokens < rlhs[r] < nsyms
      && rrhs[r] < rrhs[r+1] <= |ritem|
      && ritem[rrhs[r+1]-1] + r == 0
      && forall k :: rrhs[r] <= k < rrhs[r+1] - 1 ==> 0 < ritem[k] < nsyms && ritem[k] != ntokens
    }

    ghost predicate Valid()
    {
      Header() && forall r :: 3 <= r < |rlhs| ==> UserRule(r)
    }

    ghost predicate IsItem(i: nat) { 1 <= i < |ritem| }

    /** Rule r expands the symbol after the dot of item i. */
    ghost predicate Expands(i: nat, r: nat)
    {
      i < |ritem| && IsRule(r) && IsVar(ritem[i]) && rlhs[r] == ritem[i]
    }
  }

  /** The packed form of the grammar whose goal only derives the empty word. */
  const SmallestGrammar := RawGrammar(1, 3, [-1, 2, 0, -2, -3], [0, 0, 1, 2], [0, 0, 1, 4, 5])

  type Grammar = g: RawGrammar | g.Valid() ghost witness SmallestGrammar

  /** Item i lies in rule r, its dot before ritem[i]. */
  ghost predicate InRule(g: Grammar, r: nat, i: nat)
  {
    g.IsRule(r) && g.rrhs[r] <= i < g.rrhs[r+1] && i < |g.ritem|
  }

  /** The dot before a variable adds the initial items of its rules. */
  ghost function Closes(g: Grammar): Edges
  {
    (i: nat, j: nat) => exists r: nat :: g.Expands(i, r) && j == g.rrhs[r]
  }

  /** i belongs to the closure of the kernel. */
  ghost predicate InClosure(g: Grammar, kernel: seq<nat>, i: nat)
  {
    exists k :: k in kernel && Reach(Closes(g), k, i)
  }

  lemma RuleShape(g: Grammar, r: nat)
    requires g.IsRule(r)
    ensures 1 <= g.rrhs[r] < g.rrhs[r+1] <= |g.ritem|
    ensures g.ritem[g.rrhs[r+1]-1] + r == 0
    ensures forall k :: g.rrhs[r] <= k < g.rrhs[r+1] - 1 ==> 0 <= g.ritem[k] < g.nsyms
    ensures r >= 3 ==> g.rrhs[r] >= 4
  {
    if r >= 3 {
      assert g.UserRule(r);
      RulesAscend(g, 3, r);
    }
  }

  lemma {:induction false} RulesAscend(g: Grammar, r: nat, s: nat)
    requires 2 <= r <= s <= |g.rlhs|
    ensures g.rrhs[r] <= g.rrhs[s]
    ensures r < s ==> g.rrhs[r] < g.rrhs[s]
    decreases s - r
  {
    if r < s {
      assert r >= 3 ==> g.UserRule(r);
      RulesAscend(g, r + 1, s);
    }
  }

  /** Every item lies in exactly one rule. */
  lemma RuleOfItem(g: Grammar, i: nat) returns (r: nat)
    requires g.IsItem(i)
    ensures InRule(g, r, i)
  {
    r := 2;
    while g.rrhs[r+1] <= i
      invariant g.IsRule(r) && g.rrhs[r] <= i
      decreases |g.rlhs| - r
    {
      r := r + 1;
    }
  }

  lemma RuleIsUnique(g: Grammar, r: nat, s: nat, i: nat)
    requires InRule(g, r, i) && InRule(g, s, i)
    ensures r == s
  {
    if r < s { RulesAscend(g, r + 1, s); }
    if s < r { RulesAscend(g, s + 1, r); }
  }

  /** The dot is at the end of rule r exactly at the last item of the rule. */
  lemma EndOfRule(g: Grammar, r: nat, i: nat)
    requires InRule(g, r, i)
    ensures g.ritem[i] < 0 <==> i == g.rrhs[r+1] - 1
    ensures g.ritem[i] < 0 ==> g.ritem[i] + r == 0
  {
    RuleShape(g, r);
  }

  lemma NextItem(g: Grammar, i: nat)
    requires g.IsItem(i) && g.ritem[i] >= 0
    ensures g.IsItem(i + 1)
    ensures forall r :: InRule(g, r, i) ==> InRule(g, r, i + 1)
  {
    var r := RuleOfItem(g, i);
    RuleShape(g, r);
    forall s | InRule(g, s, i) ensures InRule(g, s, i + 1) {
      RuleShape(g, s);
    }
  }

  // ---------------------------------------------------------------------------------
  // Nullable symbols and FIRST sets, as least fixpoints built in stages.

  ghost predicate NullableAt(g: Grammar, n: nat, symbol: int)
    decreases n, 0
  {
    n > 0 && g.IsVar(symbol) && exists r: nat :: NullableRule(g, n - 1, r) && g.rlhs[r] == symbol
  }

  /** Every symbol on the right-hand side of rule r is nullable in n stages. */
  ghost predicate NullableRule(g: Grammar, n: nat, r: nat)
    decreases n, 1
  {
    g.IsRule(r) && forall k: nat :: InRule(g, r, k) && g.ritem[k] >= 0 ==> NullableAt(g, n, g.ritem[k])
  }

  ghost predicate Nullable(g: Grammar, symbol: int)
  {
    exists n: nat :: NullableAt(g, n, symbol)
  }

  /** Everything from item i to the end of its rule is nullable. */
  ghost predicate NullableSuffix(g: Grammar, i: nat)
    decreases |g.ritem| - i
  {
    i < |g.ritem| && (g.ritem[i] < 0 || (Nullable(g, g.ritem[i]) && NullableSuffix(g, i + 1)))
  }

  lemma {:induction false} NullableGrows(g: Grammar, m: nat, n: nat, symbol: int)
    requires m <= n && NullableAt(g, m, symbol)
    ensures NullableAt(g, n, symbol)
    decreases m
  {
    var r: nat :| NullableRule(g, m - 1, r) && g.rlhs[r] == symbol;
    forall k: nat | InRule(g, r, k) && g.ritem[k] >= 0 ensures NullableAt(g, n - 1, g.ritem[k]) {
      NullableGrows(g, m - 1, n - 1, g.ritem[k]);
    }
    assert NullableRule(g, n - 1, r);
  }

  /** Symbols that are nullable one by one are nullable in a common number of stages. */
  lemma {:induction false} CommonStage(g: Grammar, r: nat, i: nat) returns (n: nat)
    requires g.IsRule(r) && g.rrhs[r] <= i <= g.rrhs[r+1]
    requires forall k: nat :: InRule(g, r, k) && k < i && g.ritem[k] >= 0 ==> Nullable(g, g.ritem[k])
    ensures forall k: nat :: InRule(g, r, k) && k < i && g.ritem[k] >= 0 ==> NullableAt(g, n, g.ritem[k])
    decreases i
  {
    n := 0;
    if i > g.rrhs[r] {
      var m := CommonStage(g, r, i - 1);
      n := m;
      RuleShape(g, r);
      if g.ritem[i-1] >= 0 {
        var l: nat :| NullableAt(g, l, g.ritem[i-1]);
        n := if l > m then l else m;
        NullableGrows(g, l, n, g.ritem[i-1]);
      }
      forall k: nat | InRule(g, r, k) && k < i - 1 && g.ritem[k] >= 0 ensures NullableAt(g, n, g.ritem[k]) {
        NullableGrows(g, m, n, g.ritem[k]);
      }
    }
  }

  lemma RuleIsNullable(g: Grammar, r: nat)
    requires g.IsRule(r) && forall k: nat :: InRule(g, r, k) && g.ritem[k] >= 0 ==> Nullable(g, g.ritem[k])
    ensures Nullable(g, g.rlhs[r])
  {
    assert r >= 3 ==> g.UserRule(r);
    RuleShape(g, r);
    var n := CommonStage(g, r, g.rrhs[r+1]);
    assert NullableRule(g, n, r);
    assert NullableAt(g, n + 1, g.rlhs[r]);
  }

  lemma NullableMore(g: Grammar, i: nat)
    requires i < |g.ritem| && NullableSuffix(g, i + 1) && Nullable(g, g.ritem[i])
    ensures NullableSuffix(g, i)
  {
  }

  lemma {:induction false} SuffixIsNullable(g: Grammar, r: nat, i: nat)
    requires InRule(g, r, i) && NullableSuffix(g, i)
    ensures forall k: nat :: InRule(g, r, k) && i <= k && g.ritem[k] >= 0 ==> Nullable(g, g.ritem[k])
    decreases |g.ritem| - i
  {
    if g.ritem[i] < 0 {
      EndOfRule(g, r, i);
    } else {
      NextItem(g, i);
      SuffixIsNullable(g, r, i + 1);
    }
  }

  /** A rule of which everything is nullable makes its left-hand side nullable. */
  lemma EmptyRule(g: Grammar, r: nat)
    requires g.IsRule(r) && r < |g.rrhs| && NullableSuffix(g, g.rrhs[r])
    ensures Nullable(g, g.rlhs[r])
  {
    RuleShape(g, r);
    SuffixIsNullable(g, r, g.rrhs[r]);
    RuleIsNullable(g, r);
  }

  /** Token t starts a string derived from what follows the dot of item i, found in n stages. */
  ghost predicate FirstAt(g: Grammar, n: nat, i: nat, t: int)
    decreases n
  {
    && i < |g.ritem| && g.ritem[i] >= 0
    && (|| (!g.IsVar(g.ritem[i]) && t == g.ritem[i])
        || (n > 0 && exists r: nat :: g.Expands(i, r) && FirstAt(g, n - 1, g.rrhs[r], t))
        || (n > 0 && Nullable(g, g.ritem[i]) && FirstAt(g, n - 1, i + 1, t)))
  }

  ghost predicate First(g: Grammar, i: nat, t: int)
  {
    exists n: nat :: FirstAt(g, n, i, t)
  }

  /** t is in FIRST of the rest of the rule from item i on, followed by a. */
  ghost predicate FirstOrAfter(g: Grammar, i: nat, a: int, t: int)
  {
    First(g, i, t) || (NullableSuffix(g, i) && t == a)
  }

  lemma {:induction false} FirstIsToken(g: Grammar, n: nat, i: nat, t: int)
    requires FirstAt(g, n, i, t)
    ensures 0 <= t < g.ntokens
  {
    if g.IsVar(g.ritem[i]) || t != g.ritem[i] {
      if exists r: nat :: g.Expands(i, r) && FirstAt(g, n - 1, g.rrhs[r], t) {
        var r: nat :| g.Expands(i, r) && FirstAt(g, n - 1, g.rrhs[r], t);
        FirstIsToken(g, n - 1, g.rrhs[r], t);
      } else {
        FirstIsToken(g, n - 1, i + 1, t);
      }
    }
  }
}
