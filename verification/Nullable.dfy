/** The two passes over the packed grammar that come before the automaton (jay/lr0.c, set_derives and set_nullable). */
module Preparation {
  import opened Grammars

  /** The rules below number `upto` whose left-hand side is the symbol, ascending. */
  function RulesOf(g: Grammar, symbol: nat, upto: nat): (rules: seq<nat>)
    requires upto <= |g.rlhs|
    ensures forall r: nat :: r in rules <==> r < upto && g.rlhs[r] == symbol
    ensures forall k :: 0 <= k < |rules| ==> rules[k] < upto
    ensures forall k, l :: 0 <= k < l < |rules| ==> rules[k] < rules[l]
  {
    if upto == 0 then []
    else if g.rlhs[upto-1] == symbol then RulesOf(g, symbol, upto - 1) + [upto - 1]
    else RulesOf(g, symbol, upto - 1)
  }

  method SetDerives(g: Grammar) returns (derives: seq<seq<nat>>)
    ensures |derives| == g.nsyms
    ensures forall s :: g.ntokens <= s < g.nsyms ==> derives[s] == RulesOf(g, s, |g.rlhs|)
  {
    derives := seq(g.nsyms, _ => []);
    var lhs := g.ntokens;
    while lhs < g.nsyms
      invariant g.ntokens <= lhs <= g.nsyms && |derives| == g.nsyms
      invariant forall s :: g.ntokens <= s < lhs ==> derives[s] == RulesOf(g, s, |g.rlhs|)
    {
      var rules := [];
      var i := 0;
      while i < |g.rlhs|
        invariant i <= |g.rlhs| && rules == RulesOf(g, lhs, i)
      {
        if g.rlhs[i] == lhs {
          rules := rules + [i];
        }
        i := i + 1;
      }
      derives := derives[lhs := rules];
      lhs := lhs + 1;
    }
  }

  // ---------------------------------------------------------------------------------

  /** Only nullable symbols are marked. */
  ghost predicate MarkedSound(g: Grammar, marked: seq<bool>)
  {
    |marked| == g.nsyms && forall s :: 0 <= s < g.nsyms && marked[s] ==> Nullable(g, s)
  }

  /** Rule r has a marked left-hand side if its right-hand side is marked throughout. */
  ghost predicate RuleClosed(g: Grammar, marked: seq<bool>, r: nat)
    requires |marked| == g.nsyms
  {
    g.IsRule(r) && AllMarked(g, marked, r, g.rrhs[r+1]) ==> g.rlhs[r] < g.nsyms && marked[g.rlhs[r]]
  }

  /** The symbols of rule r before item i are marked. */
  ghost predicate AllMarked(g: Grammar, marked: seq<bool>, r: nat, i: nat)
    requires |marked| == g.nsyms && g.IsRule(r)
  {
    forall k: nat :: InRule(g, r, k) && k < i && 0 <= g.ritem[k] < g.nsyms ==> marked[g.ritem[k]]
  }

  lemma MarkedRule(g: Grammar, marked: seq<bool>, r: nat)
    requires MarkedSound(g, marked) && g.IsRule(r) && AllMarked(g, marked, r, g.rrhs[r+1])
    ensures g.ntokens <= g.rlhs[r] < g.nsyms && Nullable(g, g.rlhs[r])
  {
    assert r >= 3 ==> g.UserRule(r);
    RuleShape(g, r);
    forall k: nat | InRule(g, r, k) && g.ritem[k] >= 0 ensures Nullable(g, g.ritem[k]) {
      EndOfRule(g, r, k);
    }
    RuleIsNullable(g, r);
  }

  /** A marking that is closed under the rules holds every nullable symbol. */
  lemma {:induction false} ClosedHolds(g: Grammar, marked: seq<bool>, n: nat, symbol: nat)
    requires |marked| == g.nsyms && symbol < g.nsyms && NullableAt(g, n, symbol)
    requires forall r: nat :: r < |g.rlhs| ==> RuleClosed(g, marked, r)
    ensures marked[symbol]
    decreases n
  {
    var r: nat :| NullableRule(g, n - 1, r) && g.rlhs[r] == symbol;
    forall k: nat | InRule(g, r, k) && k < g.rrhs[r+1] && 0 <= g.ritem[k] < g.nsyms ensures marked[g.ritem[k]] {
      ClosedHolds(g, marked, n - 1, g.ritem[k]);
    }
    assert RuleClosed(g, marked, r);
  }

  ghost function Unmarked(marked: seq<bool>): set<nat>
  {
    set s: nat | s < |marked| && !marked[s]
  }

  method SetNullable(g: Grammar) returns (nullable: array<bool>)
    ensures fresh(nullable) && nullable.Length == g.nsyms
    ensures forall s :: 0 <= s < g.nsyms ==> (nullable[s] <==> Nullable(g, s))
  {
    nullable := new bool[g.nsyms](_ => false);
    var done := false;
    while !done
      invariant MarkedSound(g, nullable[..])
      invariant done ==> forall r: nat :: r < |g.rlhs| ==> RuleClosed(g, nullable[..], r)
      decreases Unmarked(nullable[..]), !done
    {
      done := MarkOnce(g, nullable);
    }
    forall s | 0 <= s < g.nsyms && Nullable(g, s) ensures nullable[s] {
      var n: nat :| NullableAt(g, n, s);
      ClosedHolds(g, nullable[..], n, s);
    }
  }

  /** One pass over ritem; done says that nothing was marked. */
  method MarkOnce(g: Grammar, nullable: array<bool>) returns (done: bool)
    requires MarkedSound(g, nullable[..])
    modifies nullable
    ensures MarkedSound(g, nullable[..])
    ensures done ==> nullable[..] == old(nullable[..]) && forall r: nat :: r < |g.rlhs| ==> RuleClosed(g, nullable[..], r)
    ensures !done ==> Unmarked(nullable[..]) < Unmarked(old(nullable[..]))
  {
    done := true;
    var i := 1;
    ghost var r := 2;
    while i < |g.ritem|
      invariant 2 <= r <= |g.rlhs| && i == g.rrhs[r]
      invariant MarkedSound(g, nullable[..])
      invariant done ==> nullable[..] == old(nullable[..]) && forall s: nat :: s < r ==> RuleClosed(g, nullable[..], s)
      invariant !done ==> Unmarked(nullable[..]) < Unmarked(old(nullable[..]))
      decreases |g.ritem| - i
    {
      RuleShape(g, r);
      var empty := true;
      ghost var marked := nullable[..];
      while g.ritem[i] >= 0
        invariant g.IsRule(r) && g.rrhs[r] <= i < g.rrhs[r+1]
        invariant nullable[..] == marked && (empty <==> AllMarked(g, marked, r, i))
        decreases |g.ritem| - i
      {
        EndOfRule(g, r, i);
        if !nullable[g.ritem[i]] {
          empty := false;
          assert InRule(g, r, i);
        }
        i := i + 1;
      }
      EndOfRule(g, r, i);
      assert empty <==> AllMarked(g, nullable[..], r, g.rrhs[r+1]);
      var lhs := g.rlhs[-g.ritem[i]];
      if empty {
        MarkedRule(g, nullable[..], r);
        if !nullable[lhs] {
          nullable[lhs] := true;
          done := false;
          assert lhs in Unmarked(marked) && lhs !in Unmarked(nullable[..]);
          assert Unmarked(nullable[..]) <= Unmarked(marked);
        }
      }
      i := i + 1;
      r := r + 1;
    }
    if r < |g.rlhs| {
      RuleShape(g, r);
    }
  }
}
