/** Numbering the symbols (jay/reader.c, pack_symbols). */
module Numbering {

  datatype Class = Term | Nonterm

  /** The symbols in the order in which they were met; the first is the token `error`. */
  ghost predicate SymbolsOk(symbols: seq<Class>, goal: nat)
  {
    goal < |symbols| && symbols[0] == Term && symbols[goal] == Nonterm
  }

  /** How many of the first n symbols are of a class. */
  ghost function Rank(symbols: seq<Class>, cls: Class, n: nat): nat
    requires n <= |symbols|
  {
    if n == 0 then 0 else Rank(symbols, cls, n - 1) + if symbols[n-1] == cls then 1 else 0
  }

  lemma {:induction false} RankGrows(symbols: seq<Class>, cls: Class, m: nat, n: nat)
    requires m <= n <= |symbols|
    ensures Rank(symbols, cls, m) <= Rank(symbols, cls, n)
    ensures m < n && symbols[m] == cls ==> Rank(symbols, cls, m) < Rank(symbols, cls, n)
    decreases n
  {
    if m < n { RankGrows(symbols, cls, m, n - 1); }
  }

  lemma {:induction false} RankSizes(symbols: seq<Class>, n: nat)
    requires n <= |symbols|
    ensures Rank(symbols, Term, n) + Rank(symbols, Nonterm, n) == n
  {
    if n > 0 { RankSizes(symbols, n - 1); }
  }

  /** Every rank belongs to a symbol. */
  lemma {:induction false} RankOwner(symbols: seq<Class>, cls: Class, n: nat, k: nat) returns (b: nat)
    requires n <= |symbols| && k < Rank(symbols, cls, n)
    ensures b < n && symbols[b] == cls && Rank(symbols, cls, b) == k
  {
    b := n - 1;
    if Rank(symbols, cls, n - 1) != k || symbols[n-1] != cls {
      b := RankOwner(symbols, cls, n - 1, k);
    }
  }

  lemma RankIsInjective(symbols: seq<Class>, cls: Class, b: nat, c: nat)
    requires b < |symbols| && c < |symbols| && symbols[b] == cls == symbols[c]
    ensures b < c <==> Rank(symbols, cls, b) < Rank(symbols, cls, c)
  {
    if b < c { RankGrows(symbols, cls, b, c); }
    if c < b { RankGrows(symbols, cls, c, b); }
  }

  ghost function Ntokens(symbols: seq<Class>): nat
  {
    1 + Rank(symbols, Term, |symbols|)
  }

  /** Tokens are numbered from 1 as they were met; behind $accept comes the goal, then the other variables. */
  ghost function Number(symbols: seq<Class>, goal: nat, b: nat): nat
    requires b < |symbols|
  {
    if symbols[b] == Term then 1 + Rank(symbols, Term, b)
    else if b == goal then Ntokens(symbols) + 1
    else Ntokens(symbols) + Rank(symbols, Nonterm, b) + if goal < b then 1 else 2
  }

  ghost predicate IsNumbering(symbols: seq<Class>, goal: nat, index: seq<nat>)
  {
    |index| == |symbols| && forall b: nat :: b < |symbols| ==> index[b] == Number(symbols, goal, b)
  }

  lemma NumberBounds(symbols: seq<Class>, goal: nat, b: nat)
    requires SymbolsOk(symbols, goal) && b < |symbols|
    ensures if symbols[b] == Term then 1 <= Number(symbols, goal, b) < Ntokens(symbols)
            else Ntokens(symbols) < Number(symbols, goal, b) < |symbols| + 2
    ensures symbols[b] == Nonterm && b != goal ==> Number(symbols, goal, b) > Ntokens(symbols) + 1
  {
    RankGrows(symbols, symbols[b], b, |symbols|);
    RankGrows(symbols, Nonterm, goal, |symbols|);
    RankSizes(symbols, |symbols|);
    if symbols[b] == Nonterm && b != goal {
      RankIsInjective(symbols, Nonterm, b, goal);
      RankIsInjective(symbols, Nonterm, goal, b);
    }
  }

  lemma NumberIsInjective(symbols: seq<Class>, goal: nat, b: nat, c: nat)
    requires SymbolsOk(symbols, goal) && b < |symbols| && c < |symbols| && b != c
    ensures Number(symbols, goal, b) != Number(symbols, goal, c)
  {
    NumberBounds(symbols, goal, b);
    NumberBounds(symbols, goal, c);
    if symbols[b] == symbols[c] {
      RankIsInjective(symbols, symbols[b], b, c);
      RankIsInjective(symbols, symbols[b], c, b);
      if symbols[b] == Nonterm {
        RankIsInjective(symbols, Nonterm, b, goal);
        RankIsInjective(symbols, Nonterm, goal, b);
        RankIsInjective(symbols, Nonterm, c, goal);
        RankIsInjective(symbols, Nonterm, goal, c);
      }
    }
  }

  lemma NumberOwner(symbols: seq<Class>, goal: nat, s: nat) returns (b: nat)
    requires SymbolsOk(symbols, goal) && 1 <= s < |symbols| + 2 && s != Ntokens(symbols)
    ensures b < |symbols| && Number(symbols, goal, b) == s
  {
    RankSizes(symbols, |symbols|);
    RankGrows(symbols, Nonterm, goal, |symbols|);
    if s < Ntokens(symbols) {
      b := RankOwner(symbols, Term, |symbols|, s - 1);
    } else if s == Ntokens(symbols) + 1 {
      b := goal;
    } else if s - Ntokens(symbols) - 2 < Rank(symbols, Nonterm, goal) {
      b := RankOwner(symbols, Nonterm, |symbols|, s - Ntokens(symbols) - 2);
      RankIsInjective(symbols, Nonterm, b, goal);
    } else {
      b := RankOwner(symbols, Nonterm, |symbols|, s - Ntokens(symbols) - 1);
      RankIsInjective(symbols, Nonterm, goal, b);
    }
  }

  /** Every number but those of $end and $accept goes to exactly one symbol, and the tokens get the low ones. */
  lemma NumberingIsBijective(symbols: seq<Class>, goal: nat, index: seq<nat>)
    requires SymbolsOk(symbols, goal) && IsNumbering(symbols, goal, index)
    ensures forall b: nat :: b < |symbols| ==>
              if symbols[b] == Term then 1 <= index[b] < Ntokens(symbols) else Ntokens(symbols) < index[b] < |symbols| + 2
    ensures forall b: nat, c: nat :: b < |symbols| && c < |symbols| && b != c ==> index[b] != index[c]
    ensures forall s: nat :: 1 <= s < |symbols| + 2 && s != Ntokens(symbols) ==> s in index
  {
    hide Number, Ntokens;
    forall b: nat | b < |symbols|
      ensures if symbols[b] == Term then 1 <= index[b] < Ntokens(symbols) else Ntokens(symbols) < index[b] < |symbols| + 2
    {
      NumberBounds(symbols, goal, b);
    }
    forall b: nat, c: nat | b < |symbols| && c < |symbols| && b != c ensures index[b] != index[c] {
      NumberIsInjective(symbols, goal, b, c);
    }
    forall s: nat | 1 <= s < |symbols| + 2 && s != Ntokens(symbols) ensures s in index {
      var b := NumberOwner(symbols, goal, s);
      assert index[b] == s;
    }
  }

  /** Tokens keep their order of appearance. So do the variables, but the goal comes first. */
  lemma NumberingKeepsOrder(symbols: seq<Class>, goal: nat, index: seq<nat>)
    requires SymbolsOk(symbols, goal) && IsNumbering(symbols, goal, index)
    ensures forall b: nat, c: nat :: b < c < |symbols| && symbols[b] == symbols[c] && c != goal ==> index[b] < index[c]
    ensures index[0] == 1 && index[goal] == Ntokens(symbols) + 1
    ensures forall b: nat :: b < |symbols| && b != goal && symbols[b] == Nonterm ==> index[b] > index[goal]
  {
    hide Ntokens;
    assert Rank(symbols, Term, 0) == 0;
    hide Rank;
    forall b: nat, c: nat | b < c < |symbols| && symbols[b] == symbols[c] && c != goal ensures index[b] < index[c] {
      NumberGrows(symbols, goal, b, c);
    }
    forall b: nat | b < |symbols| && b != goal && symbols[b] == Nonterm ensures index[b] > index[goal] {
      NumberBounds(symbols, goal, b);
    }
  }

  lemma NumberGrows(symbols: seq<Class>, goal: nat, b: nat, c: nat)
    requires SymbolsOk(symbols, goal) && b < c < |symbols| && symbols[b] == symbols[c] && c != goal
    ensures Number(symbols, goal, b) < Number(symbols, goal, c)
  {
    hide Ntokens;
    NumberBounds(symbols, goal, c);
    RankGrows(symbols, symbols[b], b, c);
    if symbols[b] == Nonterm && b < goal < c {
      RankGrows(symbols, Nonterm, goal, c);
      RankGrows(symbols, Nonterm, b, goal);
    }
  }

  // ---------------------------------------------------------------------------------

  /** Where a symbol is in the list v: the tokens from 1 on, and the variables behind $accept. */
  ghost function Slot(symbols: seq<Class>, b: nat): nat
    requires b < |symbols|
  {
    if symbols[b] == Term then 1 + Rank(symbols, Term, b) else Ntokens(symbols) + 1 + Rank(symbols, Nonterm, b)
  }

  ghost predicate IsListed(symbols: seq<Class>, v: seq<nat>, n: nat)
    requires n <= |symbols|
  {
    |v| == |symbols| + 2 && forall b: nat :: b < n ==> Slot(symbols, b) < |v| && v[Slot(symbols, b)] == b
  }

  lemma SlotFacts(symbols: seq<Class>, b: nat, c: nat)
    requires b < |symbols| && c < |symbols|
    ensures if symbols[b] == Term then Slot(symbols, b) < Ntokens(symbols) else Ntokens(symbols) < Slot(symbols, b)
    ensures Slot(symbols, b) < |symbols| + 2
    ensures b != c ==> Slot(symbols, b) != Slot(symbols, c)
  {
    RankGrows(symbols, symbols[b], b, |symbols|);
    RankGrows(symbols, symbols[c], c, |symbols|);
    RankSizes(symbols, |symbols|);
    if symbols[b] == symbols[c] {
      RankIsInjective(symbols, symbols[b], b, c);
      RankIsInjective(symbols, symbols[b], c, b);
    }
  }

  method CountTokens(symbols: seq<Class>) returns (ntokens: nat)
    ensures ntokens == Ntokens(symbols)
  {
    ntokens := 1;
    for b := 0 to |symbols|
      invariant ntokens == 1 + Rank(symbols, Term, b)
    {
      if symbols[b] == Term {
        ntokens := ntokens + 1;
      }
    }
  }

  method ListSymbols(symbols: seq<Class>, ntokens: nat) returns (v: array<nat>)
    requires ntokens == Ntokens(symbols)
    ensures fresh(v) && IsListed(symbols, v[..], |symbols|)
  {
    hide Rank, Ntokens;
    v := new nat[|symbols| + 2](_ => 0);
    var i, j := 1, ntokens + 1;
    ListStart(symbols);
    for b := 0 to |symbols|
      invariant i == 1 + Rank(symbols, Term, b) && j == ntokens + 1 + Rank(symbols, Nonterm, b)
      invariant IsListed(symbols, v[..], b)
    {
      forall c: nat | c < |symbols|
        ensures c != b ==> Slot(symbols, c) != Slot(symbols, b)
        ensures Slot(symbols, b) < |symbols| + 2
      {
        SlotFacts(symbols, b, c);
      }
      SlotFacts(symbols, b, b);
      RankNext(symbols, b);
      if symbols[b] == Term {
        v[i] := b;
        i := i + 1;
      } else {
        v[j] := b;
        j := j + 1;
      }
    }
  }

  lemma ListStart(symbols: seq<Class>)
    ensures Rank(symbols, Term, 0) == Rank(symbols, Nonterm, 0) == 0
  {
  }

  lemma RankNext(symbols: seq<Class>, b: nat)
    requires b < |symbols|
    ensures Rank(symbols, Term, b + 1) == Rank(symbols, Term, b) + if symbols[b] == Term then 1 else 0
    ensures Rank(symbols, Nonterm, b + 1) == Rank(symbols, Nonterm, b) + if symbols[b] == Term then 0 else 1
  {
  }

  /** The symbol in a slot of the list. */
  lemma SlotOwner(symbols: seq<Class>, v: seq<nat>, i: nat)
    requires IsListed(symbols, v, |symbols|) && 1 <= i < |v| && i != Ntokens(symbols)
    ensures v[i] < |symbols| && Slot(symbols, v[i]) == i && (symbols[v[i]] == Term <==> i < Ntokens(symbols))
  {
    RankSizes(symbols, |symbols|);
    if i < Ntokens(symbols) {
      var b := RankOwner(symbols, Term, |symbols|, i - 1);
      assert Slot(symbols, b) == i;
    } else {
      var b := RankOwner(symbols, Nonterm, |symbols|, i - Ntokens(symbols) - 1);
      assert Slot(symbols, b) == i;
    }
  }

  /** The symbols in the slots before i have their numbers. */
  ghost predicate NumberedTo(symbols: seq<Class>, goal: nat, index: seq<nat>, i: nat)
  {
    && |index| == |symbols|
    && forall b: nat :: b < |symbols| && (Slot(symbols, b) < i || (b == goal && i > Ntokens(symbols))) ==>
         index[b] == Number(symbols, goal, b)
  }

  lemma NumberedNext(symbols: seq<Class>, goal: nat, index: seq<nat>, index': seq<nat>, b: nat)
    requires goal < |symbols| && b < |symbols| && NumberedTo(symbols, goal, index, Slot(symbols, b))
    requires |index'| == |index| && index'[b] == Number(symbols, goal, b) && forall c :: 0 <= c < |index| && c != b ==> index'[c] == index[c]
    requires symbols[goal] == Nonterm && (b == goal ==> index' == index)
    ensures NumberedTo(symbols, goal, index', Slot(symbols, b) + 1)
  {
    SlotFacts(symbols, b, goal);
    forall c: nat | c < |symbols| && c != b ensures Slot(symbols, c) != Slot(symbols, b) {
      SlotFacts(symbols, b, c);
    }
    hide Slot, Number;
  }

  /** The number of the variable in slot i. */
  lemma NumberOfSlot(symbols: seq<Class>, goal: nat, b: nat)
    requires goal < |symbols| && b < |symbols| && symbols[goal] == symbols[b] == Nonterm && b != goal
    ensures Number(symbols, goal, b) == Slot(symbols, b) + if Slot(symbols, goal) < Slot(symbols, b) then 0 else 1
  {
    RankIsInjective(symbols, Nonterm, goal, b);
    RankIsInjective(symbols, Nonterm, b, goal);
  }

  method NumberTokens(symbols: seq<Class>, goal: nat, ntokens: nat, v: array<nat>, index: array<nat>)
    requires SymbolsOk(symbols, goal) && ntokens == Ntokens(symbols) && IsListed(symbols, v[..], |symbols|)
    requires index.Length == |symbols| && index != v
    modifies index
    ensures NumberedTo(symbols, goal, index[..], ntokens)
  {
    hide Rank, Ntokens, IsListed, NumberedTo;
    NothingNumbered(symbols, goal, index[..]);
    ListBounds(symbols, v[..]);
    for i := 1 to ntokens
      invariant NumberedTo(symbols, goal, index[..], i)
    {
      SlotOwner(symbols, v[..], i);
      ghost var was := index[..];
      index[v[i]] := i;
      NumberedNext(symbols, goal, was, index[..], v[i]);
    }
  }

  lemma NothingNumbered(symbols: seq<Class>, goal: nat, index: seq<nat>)
    requires |index| == |symbols|
    ensures Ntokens(symbols) >= 1 && NumberedTo(symbols, goal, index, 1)
  {
  }

  method NumberSymbols(symbols: seq<Class>, goal: nat, ntokens: nat, v: array<nat>) returns (index: array<nat>)
    requires SymbolsOk(symbols, goal) && ntokens == Ntokens(symbols) && IsListed(symbols, v[..], |symbols|)
    ensures fresh(index) && IsNumbering(symbols, goal, index[..])
  {
    hide Rank, Ntokens, IsListed, NumberedTo, Slot, Number;
    ListBounds(symbols, v[..]);
    index := new nat[|symbols|](_ => 0);
    NumberTokens(symbols, goal, ntokens, v, index);
    GoalNumbered(symbols, goal, index[..]);
    index[goal] := ntokens + 1;
    var k, i := ntokens + 2, ntokens + 1;
    while i < v.Length
      invariant ntokens + 1 <= i <= v.Length && k == i + (if Slot(symbols, goal) < i then 0 else 1)
      invariant NumberedTo(symbols, goal, index[..], i)
    {
      SlotOwner(symbols, v[..], i);
      var b := v[i];
      ghost var was := index[..];
      OneSlot(symbols, goal, b);
      if b != goal {
        NumberOfSlot(symbols, goal, b);
        index[b] := k;
        k := k + 1;
      } else {
        GoalNumber(symbols, goal, index[..], i);
      }
      NumberedNext(symbols, goal, was, index[..], b);
      i := i + 1;
    }
    AllNumbered(symbols, goal, index[..]);
  }

  lemma ListBounds(symbols: seq<Class>, v: seq<nat>)
    requires IsListed(symbols, v, |symbols|)
    ensures |v| == |symbols| + 2 && Ntokens(symbols) < |v|
  {
    RankSizes(symbols, |symbols|);
  }

  lemma OneSlot(symbols: seq<Class>, goal: nat, b: nat)
    requires SymbolsOk(symbols, goal) && b < |symbols|
    ensures Slot(symbols, b) == Slot(symbols, goal) <==> b == goal
    ensures Slot(symbols, goal) > Ntokens(symbols)
  {
    SlotFacts(symbols, goal, b);
  }

  /** Between the tokens and the variables the goal is numbered. */
  lemma GoalNumbered(symbols: seq<Class>, goal: nat, index: seq<nat>)
    requires SymbolsOk(symbols, goal) && NumberedTo(symbols, goal, index, Ntokens(symbols))
    ensures |index| == |symbols| && NumberedTo(symbols, goal, index[goal := Ntokens(symbols) + 1], Ntokens(symbols) + 1)
    ensures Slot(symbols, goal) > Ntokens(symbols)
  {
    hide Rank, Ntokens;
    forall b: nat | b < |symbols| ensures Slot(symbols, b) != Ntokens(symbols) {
      SlotFacts(symbols, b, b);
    }
    SlotFacts(symbols, goal, goal);
  }

  lemma GoalNumber(symbols: seq<Class>, goal: nat, index: seq<nat>, i: nat)
    requires goal < |symbols| && NumberedTo(symbols, goal, index, i) && i > Ntokens(symbols)
    ensures |index| == |symbols| && index[goal] == Number(symbols, goal, goal)
  {
  }

  lemma AllNumbered(symbols: seq<Class>, goal: nat, index: seq<nat>)
    requires NumberedTo(symbols, goal, index, |symbols| + 2)
    ensures IsNumbering(symbols, goal, index)
  {
    hide Rank, Ntokens;
    forall b: nat | b < |symbols| ensures Slot(symbols, b) < |symbols| + 2 {
      SlotFacts(symbols, b, b);
    }
  }
}
