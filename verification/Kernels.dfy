/** Successor kernels, the room set aside for them, and how many there can be (jay/lr0.c). */
module Kernels {
  import opened Counting
  import opened Grammars
  import opened Automata
  import opened Closures

  /** The items of the list whose dot is before the symbol, with the dot moved over it, in order. */
  ghost function Moved(g: Grammar, items: seq<nat>, symbol: nat): (moved: seq<nat>)
    ensures forall j :: j in moved <==> 1 <= j <= |g.ritem| && j - 1 in items && g.ritem[j-1] == symbol
    ensures |moved| <= |items|
  {
    if items == [] then []
    else
      var i := items[|items|-1];
      assert items == items[..|items|-1] + [i];
      if i < |g.ritem| && g.ritem[i] == symbol then Moved(g, items[..|items|-1], symbol) + [i + 1]
      else Moved(g, items[..|items|-1], symbol)
  }

  lemma {:induction false} MovedAscends(g: Grammar, items: seq<nat>, symbol: nat)
    requires Ascending(items)
    ensures Ascending(Moved(g, items, symbol))
  {
    if items != [] {
      var front, i := items[..|items|-1], items[|items|-1];
      MovedAscends(g, front, symbol);
      forall j | j in Moved(g, front, symbol) ensures j < i + 1 {
        assert j - 1 in front;
      }
      var m := Moved(g, front, symbol);
      forall k | 0 <= k < |m| ensures m[k] < i + 1 { assert m[k] in m; }
    }
  }

  lemma MovedStep(g: Grammar, items: seq<nat>, c: nat, symbol: nat)
    requires c < |items|
    ensures Moved(g, items[..c+1], symbol) ==
            if items[c] < |g.ritem| && g.ritem[items[c]] == symbol then Moved(g, items[..c], symbol) + [items[c] + 1]
            else Moved(g, items[..c], symbol)
  {
    assert items[..c+1][..c] == items[..c];
  }

  lemma AscendingFront(s: seq<nat>, x: nat)
    requires Ascending(s) && s != [] && x in s[..|s|-1]
    ensures x in s && x < s[|s|-1]
  {
    var k :| 0 <= k < |s| - 1 && s[..|s|-1][k] == x;
    assert s[k] == x;
  }

  /** The kernel that a state reaches by the symbol. */
  lemma MovedIsKernel(g: Grammar, kernel: seq<nat>, items: seq<nat>, symbol: nat)
    requires KernelOk(g, kernel) && IsClosure(g, kernel, items) && symbol > 0
    ensures KernelOk(g, Moved(g, items, symbol)) && IsSuccessor(g, kernel, symbol, Moved(g, items, symbol))
  {
    var moved := Moved(g, items, symbol);
    MovedAscends(g, items, symbol);
    forall j | j in moved ensures g.IsItem(j) {
      NextItem(g, j - 1);
    }
    forall j: nat ensures j in moved <==> Moves(g, kernel, symbol, j) {
      if Moves(g, kernel, symbol, j) {
        assert j - 1 in items;
      }
      if j in moved {
        assert g.IsItem(j);
      }
    }
  }

  // ---------------------------------------------------------------------------------
  // The regions of kernel_items.

  /** How often the symbol occurs among the first n entries of ritem. */
  function Occurrences(g: Grammar, symbol: nat, n: nat): nat
    requires n <= |g.ritem|
  {
    if n == 0 then 0
    else Occurrences(g, symbol, n - 1) + (if g.ritem[n-1] == symbol then 1 else 0)
  }

  /** Where the region of the symbol starts: behind those of all smaller symbols. */
  function RegionBase(g: Grammar, symbol: nat): nat
  {
    if symbol == 0 then 0 else RegionBase(g, symbol - 1) + Occurrences(g, symbol - 1, |g.ritem|)
  }

  lemma {:induction false} RegionsAscend(g: Grammar, s: nat, t: nat)
    requires s < t
    ensures RegionBase(g, s) + Occurrences(g, s, |g.ritem|) <= RegionBase(g, t)
    decreases t
  {
    if s < t - 1 {
      RegionsAscend(g, s, t - 1);
    }
  }

  /** An ascending list of moved items below n is no longer than the number of places they can come from. */
  lemma {:induction false} MovedFits(g: Grammar, moved: seq<nat>, symbol: nat, n: nat)
    requires n <= |g.ritem| && Ascending(moved)
    requires forall j :: j in moved ==> 1 <= j <= n && g.ritem[j-1] == symbol
    ensures |moved| <= Occurrences(g, symbol, n)
    decreases n
  {
    if moved != [] {
      var front, last := moved[..|moved|-1], moved[|moved|-1];
      assert last in moved;
      forall j | j in front ensures j in moved && j < last {
        AscendingFront(moved, j);
      }
      if last == n {
        MovedFits(g, front, symbol, n - 1);
      } else {
        forall j | j in moved ensures j <= n - 1 { assert j in front || j == last; }
        MovedFits(g, moved, symbol, n - 1);
      }
    }
  }

  lemma MovedRoom(g: Grammar, items: seq<nat>, symbol: nat)
    requires Ascending(items)
    ensures |Moved(g, items, symbol)| <= Occurrences(g, symbol, |g.ritem|)
  {
    MovedAscends(g, items, symbol);
    MovedFits(g, Moved(g, items, symbol), symbol, |g.ritem|);
  }

  // ---------------------------------------------------------------------------------
  // There are finitely many kernels.

  function Pow2(n: nat): (p: nat)
    ensures p > 0
  {
    if n == 0 then 1 else 2 * Pow2(n - 1)
  }

  lemma {:induction false} Pow2Ascends(m: nat, n: nat)
    requires m <= n
    ensures Pow2(m) <= Pow2(n)
    decreases n
  {
    if m < n {
      Pow2Ascends(m, n - 1);
    }
  }

  /** A kernel as a number: the sum of the powers of two of its items. */
  ghost function Code(s: seq<nat>): nat
  {
    if s == [] then 0 else Code(s[..|s|-1]) + Pow2(s[|s|-1])
  }

  lemma {:induction false} CodeBelow(s: seq<nat>, n: nat)
    requires Ascending(s) && forall x :: x in s ==> x < n
    ensures Code(s) < Pow2(n)
    decreases |s|
  {
    if s != [] {
      var last := s[|s|-1];
      assert last in s;
      var front := s[..|s|-1];
      forall x | x in front ensures x < last {
        AscendingFront(s, x);
      }
      CodeBelow(s[..|s|-1], last);
      Pow2Ascends(last + 1, n);
    }
  }

  lemma CodePositive(s: seq<nat>)
    ensures s == [] <==> Code(s) == 0
  {
  }

  lemma {:induction false} CodeIsInjective(s: seq<nat>, t: seq<nat>)
    requires Ascending(s) && Ascending(t) && Code(s) == Code(t)
    ensures s == t
    decreases |s|
  {
    CodePositive(s);
    CodePositive(t);
    if s != [] {
      LastOfCode(s, t);
      LastOfCode(t, s);
      CodeIsInjective(s[..|s|-1], t[..|t|-1]);
      assert s == s[..|s|-1] + [s[|s|-1]];
      assert t == t[..|t|-1] + [t[|t|-1]];
    }
  }

  lemma LastOfCode(s: seq<nat>, t: seq<nat>)
    requires s != [] && t != [] && Ascending(s) && Ascending(t) && Code(s) == Code(t)
    ensures s[|s|-1] <= t[|t|-1]
  {
    var a, b := s[|s|-1], t[|t|-1];
    if a > b {
      forall x | x in t ensures x < b + 1 {
        var k :| 0 <= k < |t| && t[k] == x;
      }
      CodeBelow(t, b + 1);
      Pow2Ascends(b + 1, a);
    }
  }

  /** Distinct kernels are at most as many as there are sets of items. */
  lemma KernelCount(g: Grammar, kernels: seq<seq<nat>>)
    requires Distinct(kernels) && forall p :: 0 <= p < |kernels| ==> KernelOk(g, kernels[p])
    ensures |kernels| <= Pow2(|g.ritem|)
  {
    var codes := seq(|kernels|, p requires 0 <= p < |kernels| => Code(kernels[p]));
    var n := Pow2(|g.ritem|);
    forall p | 0 <= p < |codes| ensures codes[p] < n {
      CodeBelow(kernels[p], |g.ritem|);
    }
    forall p, q | 0 <= p < q < |codes| ensures codes[p] != codes[q] {
      if codes[p] == codes[q] {
        CodeIsInjective(kernels[p], kernels[q]);
      }
    }
    DistinctCount(codes);
    SubsetCount(Elements(codes), Range(n));
  }
}
