/** The symbol tables that the later passes work on (jay/reader.c, pack_symbols as a whole). */
module PackedSymbols {
  import opened Grammars
  import opened Actions
  import opened Numbering
  import opened TokenNumbers
  import opened PackedGrammars
  import opened TokenRows
  import opened Output

  /** The declared values, by the numbers of the tokens; $end has 0. */
  ghost predicate IsDeclared(symbols: seq<Sym>, goal: nat, declared: seq<int>)
  {
    && |declared| == Ntokens(Classes(symbols)) && declared[0] == 0
    && forall b: nat :: b < |symbols| && symbols[b].cls == Term ==>
         Number(Classes(symbols), goal, b) < |declared| && declared[Number(Classes(symbols), goal, b)] == symbols[b].value
  }

  /** Every symbol has its value, precedence and associativity at its number. */
  ghost predicate FilledAt(symbols: seq<Sym>, goal: nat, value: seq<int>, b: nat, symbolValue: seq<int>,
                           symbolPrec: seq<int>, symbolAssoc: seq<Assoc>)
    requires b < |symbols| == |value| && |symbolValue| == |symbolPrec| == |symbolAssoc| == |symbols| + 2
  {
    var s := Number(Classes(symbols), goal, b);
    s < |symbolValue| && symbolValue[s] == value[b] && symbolPrec[s] == symbols[b].prec && symbolAssoc[s] == symbols[b].assoc
  }

  ghost predicate FilledTo(symbols: seq<Sym>, goal: nat, value: seq<int>, i: nat, symbolValue: seq<int>,
                           symbolPrec: seq<int>, symbolAssoc: seq<Assoc>)
  {
    && |symbols| == |value| && |symbolValue| == |symbolPrec| == |symbolAssoc| == |symbols| + 2
    && forall b: nat :: b < |symbols| && Slot(Classes(symbols), b) < i ==>
         FilledAt(symbols, goal, value, b, symbolValue, symbolPrec, symbolAssoc)
  }

  lemma FilledNext(symbols: seq<Sym>, goal: nat, value: seq<int>, b: nat, sv: seq<int>, sp: seq<int>, sa: seq<Assoc>,
                   sv': seq<int>, sp': seq<int>, sa': seq<Assoc>)
    requires SymbolsOk(Classes(symbols), goal) && b < |symbols|
    requires FilledTo(symbols, goal, value, Slot(Classes(symbols), b), sv, sp, sa)
    requires var s := Number(Classes(symbols), goal, b);
             s < |sv| && sv' == sv[s := value[b]] && sp' == sp[s := symbols[b].prec] && sa' == sa[s := symbols[b].assoc]
    ensures FilledTo(symbols, goal, value, Slot(Classes(symbols), b) + 1, sv', sp', sa')
  {
    hide Slot, Number, SymbolsOk;
    var cs := Classes(symbols);
    forall c: nat | c < |symbols| && Slot(cs, c) < Slot(cs, b) + 1 ensures FilledAt(symbols, goal, value, c, sv', sp', sa') {
      if c != b {
        SlotFacts(cs, b, c);
        NumberIsInjective(cs, goal, b, c);
        assert FilledAt(symbols, goal, value, c, sv, sp, sa);
      }
    }
  }

  lemma FilledSkip(symbols: seq<Sym>, goal: nat, value: seq<int>, sv: seq<int>, sp: seq<int>, sa: seq<Assoc>, sv': seq<int>)
    requires SymbolsOk(Classes(symbols), goal) && FilledTo(symbols, goal, value, Ntokens(Classes(symbols)), sv, sp, sa)
    requires Ntokens(Classes(symbols)) < |sv| && sv' == sv[Ntokens(Classes(symbols)) := -1]
    ensures FilledTo(symbols, goal, value, Ntokens(Classes(symbols)) + 1, sv', sp, sa)
  {
    hide Slot, Number, SymbolsOk, Ntokens;
    var cs := Classes(symbols);
    forall c: nat | c < |symbols| && Slot(cs, c) < Ntokens(cs) + 1 ensures FilledAt(symbols, goal, value, c, sv', sp, sa) {
      SlotFacts(cs, c, c);
      NumberBounds(cs, goal, c);
      assert FilledAt(symbols, goal, value, c, sv, sp, sa);
    }
  }

  /** A stretch of the list v: what its symbols are goes to their numbers. */
  method FillSlots(symbols: seq<Sym>, ghost goal: nat, v: array<nat>, index: array<nat>, value: array<int>, from: nat,
                   to: nat,
                   symbolValue: array<int>, symbolPrec: array<int>, symbolAssoc: array<Assoc>)
    requires SymbolsOk(Classes(symbols), goal) && IsListed(Classes(symbols), v[..], |symbols|)
    requires IsNumbering(Classes(symbols), goal, index[..]) && symbolValue != symbolPrec
    requires value != symbolValue && value != symbolPrec && value.Length == |symbols|
    requires 1 <= from <= to <= v.Length && (to <= Ntokens(Classes(symbols)) || from > Ntokens(Classes(symbols)))
    requires FilledTo(symbols, goal, value[..], from, symbolValue[..], symbolPrec[..], symbolAssoc[..])
    modifies symbolValue, symbolPrec, symbolAssoc
    ensures FilledTo(symbols, goal, value[..], to, symbolValue[..], symbolPrec[..], symbolAssoc[..])
    ensures symbolValue.Length > 0 && symbolValue[0] == old(symbolValue[..])[0]
    ensures from > Ntokens(Classes(symbols)) ==> symbolValue[Ntokens(Classes(symbols))] == old(symbolValue[..])[Ntokens(Classes(symbols))]
  {
    hide Slot, Number, SymbolsOk, Ntokens, FilledTo, IsListed, IsNumbering;
    FilledSizes(symbols, goal, value[..], from, symbolValue[..], symbolPrec[..], symbolAssoc[..], v[..]);
    for i := from to to
      invariant FilledTo(symbols, goal, value[..], i, symbolValue[..], symbolPrec[..], symbolAssoc[..])
      invariant symbolValue[0] == old(symbolValue[..])[0]
      invariant from > Ntokens(Classes(symbols)) ==> symbolValue[Ntokens(Classes(symbols))] == old(symbolValue[..])[Ntokens(Classes(symbols))]
    {
      SlotOwner(Classes(symbols), v[..], i);
      var b := v[i];
      NumberAtSlot(Classes(symbols), goal, index[..], b);
      var k := index[b];
      ghost var sv, sp, sa := symbolValue[..], symbolPrec[..], symbolAssoc[..];
      symbolValue[k] := value[b];
      symbolPrec[k] := symbols[b].prec;
      symbolAssoc[k] := symbols[b].assoc;
      FilledNext(symbols, goal, value[..], b, sv, sp, sa, symbolValue[..], symbolPrec[..], symbolAssoc[..]);
    }
  }

  lemma FilledSizes(symbols: seq<Sym>, goal: nat, value: seq<int>, i: nat, sv: seq<int>, sp: seq<int>, sa: seq<Assoc>,
                    v: seq<nat>)
    requires FilledTo(symbols, goal, value, i, sv, sp, sa) && IsListed(Classes(symbols), v, |symbols|)
    ensures |sv| == |sp| == |sa| == |v| == |symbols| + 2 && |value| == |symbols| && Ntokens(Classes(symbols)) < |v|
  {
    ListBounds(Classes(symbols), v);
  }

  lemma NumberAtSlot(symbols: seq<Class>, goal: nat, index: seq<nat>, b: nat)
    requires SymbolsOk(symbols, goal) && IsNumbering(symbols, goal, index) && b < |symbols|
    ensures |index| == |symbols| && index[b] == Number(symbols, goal, b) && 1 <= index[b] < |symbols| + 2 && index[b] != Ntokens(symbols)
  {
    NumberBounds(symbols, goal, b);
    RankSizes(symbols, |symbols|);
  }

  // ---------------------------------------------------------------------------------
  // The values of the variables and of the tokens, symbol by symbol.

  ghost predicate VariablesValued(symbols: seq<Sym>, goal: nat, value: seq<int>, i: nat)
  {
    && |value| == |symbols|
    && forall b: nat :: b < |symbols| && symbols[b].cls == Nonterm && (Slot(Classes(symbols), b) < i || b == goal) ==>
         value[b] == Number(Classes(symbols), goal, b) - Ntokens(Classes(symbols)) - 1
  }

  lemma VariableNext(symbols: seq<Sym>, goal: nat, value: seq<int>, value': seq<int>, b: nat)
    requires SymbolsOk(Classes(symbols), goal) && b < |symbols| && symbols[b].cls == Nonterm
    requires VariablesValued(symbols, goal, value, Slot(Classes(symbols), b))
    requires if b == goal then value' == value
             else value' == value[b := Number(Classes(symbols), goal, b) - Ntokens(Classes(symbols)) - 1]
    ensures VariablesValued(symbols, goal, value', Slot(Classes(symbols), b) + 1)
  {
    hide Slot, Number, Ntokens, SymbolsOk;
    forall c: nat | c < |symbols| && c != b ensures Slot(Classes(symbols), c) != Slot(Classes(symbols), b) {
      SlotFacts(Classes(symbols), b, c);
    }
  }

  /** The goal has value 0, and the other variables count up from 1. */
  method VariableValues(symbols: seq<Sym>, goal: nat, ntokens: nat, v: array<nat>, value: array<int>)
    requires SymbolsOk(Classes(symbols), goal) && ntokens == Ntokens(Classes(symbols)) && IsListed(Classes(symbols), v[..], |symbols|)
    requires value.Length == |symbols|
    modifies value
    ensures VariablesValued(symbols, goal, value[..], |symbols| + 2)
    ensures forall b :: 0 <= b < |symbols| && symbols[b].cls == Term ==> value[b] == old(value[..])[b]
  {
    hide Rank, Ntokens, IsListed, Slot, Number;
    ListBounds(Classes(symbols), v[..]);
    GoalFirst(symbols, goal);
    value[goal] := 0;
    var k := 1;
    for i := ntokens + 1 to v.Length
      invariant VariablesValued(symbols, goal, value[..], i)
      invariant k == i - ntokens - 1 + (if Slot(Classes(symbols), goal) < i then 0 else 1)
      invariant forall b :: 0 <= b < |symbols| && symbols[b].cls == Term ==> value[b] == old(value[..])[b]
    {
      SlotOwner(Classes(symbols), v[..], i);
      var b := v[i];
      ghost var was := value[..];
      OneSlot(Classes(symbols), goal, b);
      if b != goal {
        NumberOfSlot(Classes(symbols), goal, b);
        value[b] := k;
        k := k + 1;
      }
      VariableNext(symbols, goal, was, value[..], b);
    }
  }

  lemma GoalFirst(symbols: seq<Sym>, goal: nat)
    requires SymbolsOk(Classes(symbols), goal)
    ensures Number(Classes(symbols), goal, goal) == Ntokens(Classes(symbols)) + 1
    ensures forall b: nat :: b < |symbols| && symbols[b].cls == Nonterm ==> Slot(Classes(symbols), b) > Ntokens(Classes(symbols))
  {
    forall b: nat | b < |symbols| && symbols[b].cls == Nonterm ensures Slot(Classes(symbols), b) > Ntokens(Classes(symbols)) {
      SlotFacts(Classes(symbols), b, b);
    }
  }

  /** The tokens in the slots before i have what the list gives them. */
  ghost predicate TokensValued(symbols: seq<Sym>, goal: nat, values: seq<int>, value: seq<int>, i: nat)
  {
    && |value| == |symbols|
    && forall b: nat :: b < |symbols| && symbols[b].cls == Term && Slot(Classes(symbols), b) < i ==>
         Number(Classes(symbols), goal, b) < |values| && value[b] == values[Number(Classes(symbols), goal, b)]
  }

  method DeclaredValues(symbols: seq<Sym>, ghost goal: nat, ntokens: nat, v: array<nat>) returns (declared: seq<int>)
    requires SymbolsOk(Classes(symbols), goal) && ntokens == Ntokens(Classes(symbols)) && IsListed(Classes(symbols), v[..], |symbols|)
    ensures IsDeclared(symbols, goal, declared)
    ensures forall t :: 1 <= t < ntokens ==> exists b :: 0 <= b < |symbols| && declared[t] == symbols[b].value
  {
    hide Rank, Ntokens, IsListed, Slot, Number;
    ListBounds(Classes(symbols), v[..]);
    ManyTokens(Classes(symbols), goal);
    declared := [0];
    for i := 1 to ntokens
      invariant |declared| == i && declared[0] == 0
      invariant forall t :: 1 <= t < i ==> v[t] < |symbols| && declared[t] == symbols[v[t]].value
    {
      SlotOwner(Classes(symbols), v[..], i);
      declared := declared + [symbols[v[i]].value];
    }
    forall b: nat | b < |symbols| && symbols[b].cls == Term
      ensures Number(Classes(symbols), goal, b) < |declared| && declared[Number(Classes(symbols), goal, b)] == symbols[b].value
    {
      TokenSlot(Classes(symbols), goal, v[..], b);
    }
  }

  lemma ManyTokens(symbols: seq<Class>, goal: nat)
    requires SymbolsOk(symbols, goal)
    ensures 2 <= Ntokens(symbols) <= |symbols|
  {
    RankGrows(symbols, Term, 0, |symbols|);
    RankGrows(symbols, Nonterm, goal, |symbols|);
    RankSizes(symbols, |symbols|);
  }

  lemma TokenSlot(symbols: seq<Class>, goal: nat, v: seq<nat>, b: nat)
    requires IsListed(symbols, v, |symbols|) && b < |symbols| && symbols[b] == Term
    ensures 1 <= Number(symbols, goal, b) == Slot(symbols, b) < Ntokens(symbols) < |v| && v[Slot(symbols, b)] == b
  {
    SlotFacts(symbols, b, b);
    ListBounds(symbols, v);
  }

  method TokenValuesOf(symbols: seq<Sym>, ghost goal: nat, ntokens: nat, v: array<nat>, value: array<int>)
      returns (ghost declared: seq<int>, ghost values: seq<int>)
    requires SymbolsOk(Classes(symbols), goal) && ntokens == Ntokens(Classes(symbols)) && IsListed(Classes(symbols), v[..], |symbols|)
    requires value.Length == |symbols| && forall b :: 0 <= b < |symbols| ==> symbols[b].value >= UNDEFINED
    modifies value
    ensures IsDeclared(symbols, goal, declared) && DeclaredOk(declared) && |values| == |declared| && ValuesGiven(declared, values, |declared|)
    ensures forall t :: 0 <= t < |declared| && declared[t] == UNDEFINED ==> values[t] <= 256 + |declared|
    ensures TokensValued(symbols, goal, values, value[..], ntokens)
    ensures forall b :: 0 <= b < |symbols| && symbols[b].cls == Nonterm ==> value[b] == old(value[..])[b]
  {
    hide Rank, Ntokens, IsListed, Slot, Number, ValuesGiven;
    ListBounds(Classes(symbols), v[..]);
    ManyTokens(Classes(symbols), goal);
    var list := DeclaredValues(symbols, goal, ntokens, v);
    var given := GiveValues(list);
    declared, values := list, given[..];
    for i := 1 to ntokens
      invariant forall t :: 1 <= t < i ==> v[t] < |symbols| && value[v[t]] == values[t]
      invariant forall b :: 0 <= b < |symbols| && symbols[b].cls == Nonterm ==> value[b] == old(value[..])[b]
      invariant given[..] == values
    {
      forall t | 1 <= t <= i ensures v[t] < |symbols| && Slot(Classes(symbols), v[t]) == t && symbols[v[t]].cls == Term {
        SlotOwner(Classes(symbols), v[..], t);
      }
      value[v[i]] := given[i];
    }
    forall b: nat | b < |symbols| && symbols[b].cls == Term
      ensures Number(Classes(symbols), goal, b) < |values| && value[b] == values[Number(Classes(symbols), goal, b)]
    {
      TokenSlot(Classes(symbols), goal, v[..], b);
    }
  }

  // ---------------------------------------------------------------------------------

  /** What pack_symbols leaves behind. */
  ghost predicate IsPacked(symbols: seq<Sym>, goal: nat, declared: seq<int>, symbolValue: seq<int>,
                           symbolPrec: seq<int>, symbolAssoc: seq<Assoc>)
  {
    var n := Ntokens(Classes(symbols));
    && IsDeclared(symbols, goal, declared) && DeclaredOk(declared) && n <= |symbolValue| == |symbolPrec| == |symbolAssoc| == |symbols| + 2
    && ValuesGiven(declared, symbolValue[..n], n)
    && (forall t :: 0 <= t < n && declared[t] == UNDEFINED ==> symbolValue[t] <= 256 + n)
    && (forall s :: n <= s < |symbolValue| ==> symbolValue[s] == s - n - 1)
    && forall b: nat :: b < |symbols| ==>
         && Number(Classes(symbols), goal, b) < |symbolPrec|
         && symbolPrec[Number(Classes(symbols), goal, b)] == symbols[b].prec
         && symbolAssoc[Number(Classes(symbols), goal, b)] == symbols[b].assoc
  }

  method PackSymbols(symbols: seq<Sym>, goal: nat)
      returns (ntokens: nat, index: array<nat>, symbolValue: array<int>, symbolPrec: array<int>,
               symbolAssoc: array<Assoc>, ghost declared: seq<int>)
    requires SymbolsOk(Classes(symbols), goal) && forall b :: 0 <= b < |symbols| ==> symbols[b].value >= UNDEFINED
    ensures ntokens == Ntokens(Classes(symbols)) && IsNumbering(Classes(symbols), goal, index[..])
    ensures IsPacked(symbols, goal, declared, symbolValue[..], symbolPrec[..], symbolAssoc[..])
  {
    hide Rank, Ntokens, IsListed, Slot, Number, SymbolsOk, IsDeclared, FilledTo, VariablesValued, TokensValued,
      ValuesGiven, DeclaredOk, IsPacked;
    var classes := ClassList(symbols);
    ntokens := CountTokens(classes);
    var v := ListSymbols(classes, ntokens);
    index := NumberSymbols(classes, goal, ntokens, v);
    ListBounds(classes, v[..]);
    var nsyms := |symbols| + 2;
    var value := new int[|symbols|](_ => 0);
    VariableValues(symbols, goal, ntokens, v, value);
    ghost var values, was := [], value[..];
    declared, values := TokenValuesOf(symbols, goal, ntokens, v, value);
    VariablesStay(symbols, goal, was, value[..]);
    symbolValue, symbolPrec, symbolAssoc := new int[nsyms](_ => 0), new int[nsyms](_ => 0), new Assoc[nsyms](_ => TokenAssoc);
    NothingFilled(symbols, goal, value[..], symbolValue[..], symbolPrec[..], symbolAssoc[..]);
    FillSlots(symbols, goal, v, index, value, 1, ntokens, symbolValue, symbolPrec, symbolAssoc);
    FilledSizes(symbols, goal, value[..], ntokens, symbolValue[..], symbolPrec[..], symbolAssoc[..], v[..]);
    FilledSkip(symbols, goal, value[..], symbolValue[..], symbolPrec[..], symbolAssoc[..], symbolValue[..][ntokens := -1]);
    symbolValue[ntokens] := -1;
    FillSlots(symbols, goal, v, index, value, ntokens + 1, nsyms, symbolValue, symbolPrec, symbolAssoc);
    AllPacked(symbols, goal, declared, values, value[..], symbolValue[..], symbolPrec[..], symbolAssoc[..]);
  }

  method ClassList(symbols: seq<Sym>) returns (classes: seq<Class>)
    ensures classes == Classes(symbols)
  {
    classes := seq(|symbols|, b requires 0 <= b < |symbols| => symbols[b].cls);
  }

  lemma VariablesStay(symbols: seq<Sym>, goal: nat, was: seq<int>, value: seq<int>)
    requires VariablesValued(symbols, goal, was, |symbols| + 2) && |value| == |symbols|
    requires forall b :: 0 <= b < |symbols| && symbols[b].cls == Nonterm ==> value[b] == was[b]
    ensures VariablesValued(symbols, goal, value, |symbols| + 2)
  {
  }

  lemma NothingFilled(symbols: seq<Sym>, goal: nat, value: seq<int>, sv: seq<int>, sp: seq<int>, sa: seq<Assoc>)
    requires |value| == |symbols| && |sv| == |sp| == |sa| == |symbols| + 2
    ensures FilledTo(symbols, goal, value, 1, sv, sp, sa) && Ntokens(Classes(symbols)) >= 1
  {
  }

  lemma AllPacked(symbols: seq<Sym>, goal: nat, declared: seq<int>, values: seq<int>, value: seq<int>,
                  sv: seq<int>, sp: seq<int>, sa: seq<Assoc>)
    requires SymbolsOk(Classes(symbols), goal) && FilledTo(symbols, goal, value, |symbols| + 2, sv, sp, sa)
    requires IsDeclared(symbols, goal, declared) && DeclaredOk(declared) && |values| == |declared| && ValuesGiven(declared, values, |declared|)
    requires forall t :: 0 <= t < |declared| && declared[t] == UNDEFINED ==> values[t] <= 256 + |declared|
    requires TokensValued(symbols, goal, values, value, Ntokens(Classes(symbols))) && VariablesValued(symbols, goal, value, |symbols| + 2)
    requires sv != [] && sv[0] == 0 && Ntokens(Classes(symbols)) < |sv| && sv[Ntokens(Classes(symbols))] == -1
    ensures IsPacked(symbols, goal, declared, sv, sp, sa)
  {
    hide Rank, Ntokens, Slot, Number, SymbolsOk, ValuesGiven;
    var cs, n := Classes(symbols), Ntokens(Classes(symbols));
    ManyTokens(cs, goal);
    forall b: nat | b < |symbols|
      ensures Number(cs, goal, b) < |sp| && sp[Number(cs, goal, b)] == symbols[b].prec && sa[Number(cs, goal, b)] == symbols[b].assoc
    {
      SlotFacts(cs, b, b);
      assert FilledAt(symbols, goal, value, b, sv, sp, sa);
    }
    forall s: nat | s < n ensures sv[s] == values[s] {
      if s == 0 {
        FirstValue(declared, values);
      } else {
        var b := NumberOwner(cs, goal, s);
        TokenOfNumber(cs, goal, b);
        SlotFacts(cs, b, b);
        assert FilledAt(symbols, goal, value, b, sv, sp, sa);
      }
    }
    assert sv[..n] == values;
    forall s: nat | n < s < |sv| ensures sv[s] == s - n - 1 {
      var b := NumberOwner(cs, goal, s);
      TokenOfNumber(cs, goal, b);
      SlotFacts(cs, b, b);
      assert FilledAt(symbols, goal, value, b, sv, sp, sa);
    }
  }

  lemma FirstValue(declared: seq<int>, values: seq<int>)
    requires DeclaredOk(declared) && ValuesGiven(declared, values, |declared|)
    ensures |values| == |declared| && values[0] == 0
  {
  }

  lemma TokenOfNumber(symbols: seq<Class>, goal: nat, b: nat)
    requires SymbolsOk(symbols, goal) && b < |symbols|
    ensures symbols[b] == Term <==> Number(symbols, goal, b) < Ntokens(symbols)
    ensures symbols[b] == Term ==> Slot(symbols, b) < Ntokens(symbols)
  {
    NumberBounds(symbols, goal, b);
    SlotFacts(symbols, b, b);
  }

  /** The values suit the packed tables exactly if no two tokens clash in what was declared for them. */
  lemma ValuesSuit(g: Grammar, symbols: seq<Sym>, goal: nat, declared: seq<int>, symbolValue: seq<int>,
                   symbolPrec: seq<int>, symbolAssoc: seq<Assoc>)
    requires g.ntokens == Ntokens(Classes(symbols)) && g.nsyms == |symbols| + 2
    requires IsPacked(symbols, goal, declared, symbolValue, symbolPrec, symbolAssoc)
    requires 256 + g.ntokens <= MAXSHORT && forall t :: 0 <= t < |declared| ==> declared[t] <= MAXSHORT
    ensures SymbolValues(g, symbolValue) <==> NoClash(declared)
  {
    hide Rank, Ntokens, Number, LeastUnused;
    var n := g.ntokens;
    var values := symbolValue[..n];
    DistinctValues(declared, values);
    forall t | 0 <= t < n ensures 0 <= symbolValue[t] <= MAXSHORT {
      ValueBound(declared, values, t);
      assert values[t] == symbolValue[t];
    }
    if SymbolValues(g, symbolValue) {
      forall j, k | 0 <= j < k < n ensures values[j] != values[k] {
        assert symbolValue[j] != symbolValue[k];
      }
    }
    if NoClash(declared) {
      forall j, k | 0 <= j < k < n ensures symbolValue[j] != symbolValue[k] {
        assert values[j] != values[k];
      }
    }
  }

  lemma ValueBound(declared: seq<int>, values: seq<int>, t: nat)
    requires DeclaredOk(declared) && ValuesGiven(declared, values, |declared|) && t < |declared|
    ensures values[t] >= 0 && (declared[t] != UNDEFINED ==> values[t] == declared[t])
  {
    if declared[t] == UNDEFINED && t >= 2 {
      assert LeastUnused(declared, values, t, values[t]);
    }
  }
}
