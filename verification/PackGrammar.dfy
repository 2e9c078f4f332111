/** The packed grammar that the later passes work on (jay/reader.c, pack_grammar). */
module PackedGrammars {
  import opened Grammars
  import opened Actions
  import opened Numbering
  import opened TokenNumbers

  /** A symbol as the reader collects it. */
  datatype Sym = Sym(cls: Class, value: int, prec: int, assoc: Assoc)

  /** A rule as it was written; prec is UNDEFINED if there was no %prec. */
  datatype Production = Production(lhs: nat, rhs: seq<nat>, prec: int, assoc: Assoc)

  /** What separates the right-hand sides in pitem. */
  const NULL := -1

  ghost function Classes(symbols: seq<Sym>): (s: seq<Class>)
    ensures |s| == |symbols| && forall b :: 0 <= b < |symbols| ==> s[b] == symbols[b].cls
  {
    seq(|symbols|, b requires 0 <= b < |symbols| => symbols[b].cls)
  }

  ghost predicate ProductionsOk(symbols: seq<Sym>, prods: seq<Production>)
  {
    forall n :: 0 <= n < |prods| ==>
      && prods[n].lhs < |symbols| && symbols[prods[n].lhs].cls == Nonterm
      && forall k :: 0 <= k < |prods[n].rhs| ==> prods[n].rhs[k] < |symbols|
  }

  /** pitem behind the first n rules: four unused places, then the right-hand sides, each closed by NULL. */
  ghost function Items(prods: seq<Production>, n: nat): seq<int>
    requires n <= |prods|
    decreases n
  {
    if n == 0 then [NULL, NULL, NULL, NULL] else Items(prods, n - 1) + prods[n-1].rhs + [NULL]
  }

  /** What the reader leaves in pitem. */
  ghost function Collected(prods: seq<Production>): seq<int>
  {
    Items(prods, |prods|)
  }

  ghost function Renamed(index: seq<nat>, rhs: seq<nat>): (s: seq<int>)
    ensures |s| == |rhs|
  {
    seq(|rhs|, k requires 0 <= k < |rhs| => NumberAt(index, rhs[k]))
  }

  ghost function NumberAt(index: seq<nat>, b: nat): nat
  {
    if b < |index| then index[b] else 0
  }

  /** ritem behind the first n rules of the user. */
  ghost function Packed(index: seq<nat>, ntokens: nat, prods: seq<Production>, n: nat): (s: seq<int>)
    requires n <= |prods|
    ensures |s| == |Items(prods, n)|
  {
    if n == 0 then [-1, ntokens + 1, 0, -2]
    else Packed(index, ntokens, prods, n - 1) + Renamed(index, prods[n-1].rhs) + [0 - (n + 2)]
  }

  lemma {:induction false} ItemsPrefix(prods: seq<Production>, m: nat, n: nat)
    requires m <= n <= |prods|
    ensures Items(prods, m) <= Items(prods, n)
    decreases n
  {
    if m < n { ItemsPrefix(prods, m, n - 1); }
  }

  lemma {:induction false} PackedPrefix(index: seq<nat>, ntokens: nat, prods: seq<Production>, m: nat, n: nat)
    requires m <= n <= |prods|
    ensures Packed(index, ntokens, prods, m) <= Packed(index, ntokens, prods, n)
    decreases n
  {
    if m < n { PackedPrefix(index, ntokens, prods, m, n - 1); }
  }

  /** Where rule n of the user lies in pitem. */
  lemma ItemsOfRule(prods: seq<Production>, n: nat)
    requires n < |prods|
    ensures var base, all, rhs := |Items(prods, n)|, Items(prods, |prods|), prods[n].rhs;
            && base + |rhs| + 1 == |Items(prods, n + 1)| <= |all| && all[base + |rhs|] == NULL
            && forall k :: 0 <= k < |rhs| ==> all[base + k] == rhs[k]
  {
    ItemsPrefix(prods, n + 1, |prods|);
    var base, part, rhs := |Items(prods, n)|, Items(prods, n + 1), prods[n].rhs;
    assert part[base + |rhs|] == NULL;
    forall k | 0 <= k < |rhs| ensures part[base + k] == rhs[k] {
    }
  }

  lemma PackedRule(index: seq<nat>, ntokens: nat, prods: seq<Production>, n: nat)
    requires n < |prods|
    ensures var base, all, rhs := |Packed(index, ntokens, prods, n)|, Packed(index, ntokens, prods, |prods|), prods[n].rhs;
            && base + |rhs| + 1 == |Packed(index, ntokens, prods, n + 1)| <= |all| && all[base + |rhs|] == 0 - (n + 3)
            && forall k :: 0 <= k < |rhs| ==> all[base + k] == NumberAt(index, rhs[k])
  {
    hide Items, Packed;
    PackedPrefix(index, ntokens, prods, n + 1, |prods|);
    var before, renamed, part := Packed(index, ntokens, prods, n), Renamed(index, prods[n].rhs), Packed(index, ntokens, prods, n + 1);
    PackedStep(index, ntokens, prods, n);
    forall k | 0 <= k < |renamed| ensures part[|before| + k] == NumberAt(index, prods[n].rhs[k]) {
      assert part[|before| + k] == renamed[k];
    }
  }

  lemma PackedStep(index: seq<nat>, ntokens: nat, prods: seq<Production>, n: nat)
    requires n < |prods|
    ensures Packed(index, ntokens, prods, n + 1) == Packed(index, ntokens, prods, n) + Renamed(index, prods[n].rhs) + [0 - (n + 3)]
  {
  }

  /** Of the first n symbols, the last one that is a token has the precedence; without a token there is none. */
  ghost predicate LastToken(symbols: seq<Sym>, rhs: seq<nat>, n: nat, prec: int, assoc: Assoc)
    requires n <= |rhs| && forall k :: 0 <= k < |rhs| ==> rhs[k] < |symbols|
  {
    || (exists k :: 0 <= k < n && symbols[rhs[k]].cls == Term && prec == symbols[rhs[k]].prec && assoc == symbols[rhs[k]].assoc
                    && forall l :: k < l < n ==> symbols[rhs[l]].cls == Nonterm)
    || ((forall l :: 0 <= l < n ==> symbols[rhs[l]].cls == Nonterm) && prec == 0 && assoc == TokenAssoc)
  }

  /** A declared precedence stays, and a rule without one has that of its last token. */
  ghost predicate RulePrecedence(symbols: seq<Sym>, p: Production, prec: int, assoc: Assoc)
    requires forall k :: 0 <= k < |p.rhs| ==> p.rhs[k] < |symbols|
  {
    if p.prec == UNDEFINED then LastToken(symbols, p.rhs, |p.rhs|, prec, assoc) else prec == p.prec && assoc == p.assoc
  }

  /** The rules of the user up to the n-th are in place. */
  ghost predicate PlacedTo(index: seq<nat>, ntokens: nat, prods: seq<Production>, n: nat, ritem: seq<int>,
                           rlhs: seq<nat>, rrhs: seq<nat>)
  {
    && n <= |prods| && |rlhs| == |prods| + 3 && |rrhs| == |prods| + 4 && |ritem| == |Items(prods, |prods|)|
    && |Items(prods, n)| <= |ritem| && ritem[..|Items(prods, n)|] == Packed(index, ntokens, prods, n)
    && rlhs[0] == 0 && rlhs[1] == 0 && rlhs[2] == ntokens && rrhs[0] == 0 && rrhs[1] == 0 && rrhs[2] == 1
    && forall m :: 0 <= m < n ==> rlhs[m + 3] == NumberAt(index, prods[m].lhs) && rrhs[m + 3] == |Items(prods, m)|
  }

  /** The packed form holds just the rules of the user, behind the rule $accept: goal $end. */
  ghost predicate Holds(g: Grammar, index: seq<nat>, prods: seq<Production>)
  {
    && |g.rlhs| == |prods| + 3
    && forall n: nat :: n < |prods| ==> HoldsRule(g, index, prods[n], n + 3)
  }

  ghost predicate HoldsRule(g: Grammar, index: seq<nat>, p: Production, r: nat)
  {
    && g.IsRule(r) && g.rlhs[r] == NumberAt(index, p.lhs) && g.rrhs[r] + |p.rhs| + 1 == g.rrhs[r+1] <= |g.ritem|
    && forall k :: 0 <= k < |p.rhs| ==> g.ritem[g.rrhs[r] + k] == NumberAt(index, p.rhs[k])
  }

  lemma PlacedRule(symbols: seq<Sym>, goal: nat, index: seq<nat>, ntokens: nat, prods: seq<Production>,
                   ritem: seq<int>, rlhs: seq<nat>, rrhs: seq<nat>, n: nat)
    requires SymbolsOk(Classes(symbols), goal) && IsNumbering(Classes(symbols), goal, index) && ntokens == Ntokens(Classes(symbols))
    requires ProductionsOk(symbols, prods) && PlacedTo(index, ntokens, prods, |prods|, ritem, rlhs, rrhs)
    requires rrhs[|prods| + 3] == |ritem| && n < |prods|
    ensures var g := RawGrammar(ntokens, |symbols| + 2, ritem, rlhs, rrhs);
            g.Header() && g.UserRule(n + 3)
    ensures rlhs[n + 3] == NumberAt(index, prods[n].lhs) && rrhs[n + 3] + |prods[n].rhs| + 1 == rrhs[n + 4] <= |ritem|
    ensures forall k :: 0 <= k < |prods[n].rhs| ==> ritem[rrhs[n + 3] + k] == NumberAt(index, prods[n].rhs[k])
  {
    hide Rank, Number, Ntokens, IsNumbering, Packed, Items;
    PlacedHeader(symbols, goal, index, ntokens, prods, ritem, rlhs, rrhs);
    PackedRule(index, ntokens, prods, n);
    assert ritem[..|ritem|] == ritem;
    NumberingIsBijective(Classes(symbols), goal, index);
    NumberingSize(Classes(symbols), goal, index);
    RuleEnd(index, ntokens, prods, ritem, rlhs, rrhs, n);
    var start, rhs := rrhs[n + 3], prods[n].rhs;
    forall k | start <= k < start + |rhs| ensures 0 < ritem[k] < |symbols| + 2 && ritem[k] != ntokens {
      var b := rhs[k - start];
      assert ritem[start + (k - start)] == NumberAt(index, b) && b < |symbols|;
    }
  }

  lemma NumberingSize(symbols: seq<Class>, goal: nat, index: seq<nat>)
    requires IsNumbering(symbols, goal, index)
    ensures |index| == |symbols|
  {
  }

  lemma RuleEnd(index: seq<nat>, ntokens: nat, prods: seq<Production>, ritem: seq<int>, rlhs: seq<nat>,
                rrhs: seq<nat>, n: nat)
    requires PlacedTo(index, ntokens, prods, |prods|, ritem, rlhs, rrhs) && rrhs[|prods| + 3] == |ritem| && n < |prods|
    ensures rrhs[n + 3] == |Items(prods, n)| && rrhs[n + 4] == |Items(prods, n + 1)|
  {
    hide Items, Packed;
    var m := n + 1;
    if m < |prods| {
      RuleStart(index, ntokens, prods, ritem, rlhs, rrhs, m);
    }
  }

  lemma RuleStart(index: seq<nat>, ntokens: nat, prods: seq<Production>, ritem: seq<int>, rlhs: seq<nat>,
                  rrhs: seq<nat>, m: nat)
    requires PlacedTo(index, ntokens, prods, |prods|, ritem, rlhs, rrhs) && m < |prods|
    ensures |rrhs| == |prods| + 4 && rrhs[m + 3] == |Items(prods, m)|
  {
    hide Items, Packed;
  }

  lemma PlacedHeader(symbols: seq<Sym>, goal: nat, index: seq<nat>, ntokens: nat, prods: seq<Production>,
                     ritem: seq<int>, rlhs: seq<nat>, rrhs: seq<nat>)
    requires SymbolsOk(Classes(symbols), goal) && ntokens == Ntokens(Classes(symbols))
    requires PlacedTo(index, ntokens, prods, |prods|, ritem, rlhs, rrhs) && rrhs[|prods| + 3] == |ritem|
    ensures RawGrammar(ntokens, |symbols| + 2, ritem, rlhs, rrhs).Header()
    ensures ritem == Packed(index, ntokens, prods, |prods|)
  {
    hide Items, Rank;
    PackedPrefix(index, ntokens, prods, 0, |prods|);
    assert ritem[..|ritem|] == ritem;
    RankSizes(Classes(symbols), |symbols|);
    RankGrows(Classes(symbols), Nonterm, goal, |symbols|);
    ItemsStart(index, ntokens, prods);
    if |prods| > 0 {
      RuleStart(index, ntokens, prods, ritem, rlhs, rrhs, 0);
    }
  }

  lemma PlacedIsGrammar(symbols: seq<Sym>, goal: nat, index: seq<nat>, ntokens: nat, prods: seq<Production>,
                        ritem: seq<int>, rlhs: seq<nat>, rrhs: seq<nat>)
    requires SymbolsOk(Classes(symbols), goal) && IsNumbering(Classes(symbols), goal, index) && ntokens == Ntokens(Classes(symbols))
    requires ProductionsOk(symbols, prods) && PlacedTo(index, ntokens, prods, |prods|, ritem, rlhs, rrhs)
    requires rrhs[|prods| + 3] == |ritem|
    ensures var g := RawGrammar(ntokens, |symbols| + 2, ritem, rlhs, rrhs); g.Valid() && Holds(g, index, prods)
  {
    hide Rank, Number, Ntokens, IsNumbering, PlacedTo, RawGrammar.UserRule;
    PlacedHeader(symbols, goal, index, ntokens, prods, ritem, rlhs, rrhs);
    var g := RawGrammar(ntokens, |symbols| + 2, ritem, rlhs, rrhs);
    PlacedLengths(index, ntokens, prods, ritem, rlhs, rrhs);
    forall r | 3 <= r < |rlhs| ensures g.UserRule(r) {
      PlacedRule(symbols, goal, index, ntokens, prods, ritem, rlhs, rrhs, r - 3);
    }
    forall n: nat | n < |prods| ensures HoldsRule(g, index, prods[n], n + 3) {
      PlacedRule(symbols, goal, index, ntokens, prods, ritem, rlhs, rrhs, n);
    }
  }

  lemma PlacedLengths(index: seq<nat>, ntokens: nat, prods: seq<Production>, ritem: seq<int>, rlhs: seq<nat>, rrhs: seq<nat>)
    requires PlacedTo(index, ntokens, prods, |prods|, ritem, rlhs, rrhs)
    ensures |rlhs| == |prods| + 3 && |rrhs| == |prods| + 4
  {
  }

  // ---------------------------------------------------------------------------------

  /** One right-hand side: its symbols are renamed, and the precedence of its last token is found. */
  method PackRule(symbols: seq<Sym>, index: seq<nat>, pitem: seq<int>, ritem: array<int>, start: nat, ghost rhs: seq<nat>)
      returns (j: nat, prec: int, assoc: Assoc)
    requires |index| == |symbols| && start + |rhs| < |pitem| == ritem.Length && pitem[start + |rhs|] == NULL
    requires forall k :: 0 <= k < |rhs| ==> pitem[start + k] == rhs[k] && rhs[k] < |symbols|
    modifies ritem
    ensures j == start + |rhs| && ritem[..j] == old(ritem[..start]) + Renamed(index, rhs)
    ensures LastToken(symbols, rhs, |rhs|, prec, assoc)
    ensures || (exists k :: 0 <= k < |rhs| && symbols[rhs[k]].cls == Term
                            && prec == symbols[rhs[k]].prec && assoc == symbols[rhs[k]].assoc
                            && forall l :: k < l < |rhs| ==> symbols[rhs[l]].cls == Nonterm)
            || ((forall l :: 0 <= l < |rhs| ==> symbols[rhs[l]].cls == Nonterm) && prec == 0 && assoc == TokenAssoc)
  {
    hide LastToken;
    LastTokenNone(symbols, rhs);
    ghost var was := ritem[..start];
    ghost var m := 0;
    j, prec, assoc := start, 0, TokenAssoc;
    while pitem[j] != NULL
      invariant m <= |rhs| && j == start + m && (m < |rhs| ==> pitem[j] == rhs[m]) && ritem[..j] == was + Renamed(index, rhs)[..m]
      invariant LastToken(symbols, rhs, m, prec, assoc)
      decreases |rhs| - m
    {
      var b := pitem[j];
      LastTokenNext(symbols, rhs, m, prec, assoc);
      ritem[j] := index[b];
      if symbols[b].cls == Term {
        prec := symbols[b].prec;
        assoc := symbols[b].assoc;
      }
      j := j + 1;
      m := m + 1;
      assert ritem[..j] == was + Renamed(index, rhs)[..m];
    }
    assert Renamed(index, rhs)[..|rhs|] == Renamed(index, rhs);
    LastTokenIs(symbols, rhs, prec, assoc);
  }

  lemma LastTokenNone(symbols: seq<Sym>, rhs: seq<nat>)
    requires forall k :: 0 <= k < |rhs| ==> rhs[k] < |symbols|
    ensures LastToken(symbols, rhs, 0, 0, TokenAssoc)
  {
  }

  lemma LastTokenNext(symbols: seq<Sym>, rhs: seq<nat>, n: nat, prec: int, assoc: Assoc)
    requires n < |rhs| && forall k :: 0 <= k < |rhs| ==> rhs[k] < |symbols|
    requires LastToken(symbols, rhs, n, prec, assoc)
    ensures var b := symbols[rhs[n]];
            if b.cls == Term then LastToken(symbols, rhs, n + 1, b.prec, b.assoc) else LastToken(symbols, rhs, n + 1, prec, assoc)
  {
  }

  lemma LastTokenIs(symbols: seq<Sym>, rhs: seq<nat>, prec: int, assoc: Assoc)
    requires forall k :: 0 <= k < |rhs| ==> rhs[k] < |symbols|
    requires LastToken(symbols, rhs, |rhs|, prec, assoc)
    ensures || (exists k :: 0 <= k < |rhs| && symbols[rhs[k]].cls == Term
                            && prec == symbols[rhs[k]].prec && assoc == symbols[rhs[k]].assoc
                            && forall l :: k < l < |rhs| ==> symbols[rhs[l]].cls == Nonterm)
            || ((forall l :: 0 <= l < |rhs| ==> symbols[rhs[l]].cls == Nonterm) && prec == 0 && assoc == TokenAssoc)
  {
  }

  method PackGrammar(symbols: seq<Sym>, ghost goal: nat, index: seq<nat>, ntokens: nat, goalIndex: nat,
                     plhs: seq<nat>, pitem: seq<int>,
                      prec: seq<int>, assoc: seq<Assoc>, ghost prods: seq<Production>)
      returns (ritem: array<int>, rlhs: array<nat>, rrhs: array<nat>, rprec: array<int>, rassoc: array<Assoc>)
    requires SymbolsOk(Classes(symbols), goal) && IsNumbering(Classes(symbols), goal, index) && ntokens == Ntokens(Classes(symbols))
    requires goalIndex == ntokens + 1
    requires ProductionsOk(symbols, prods) && pitem == Collected(prods) && |plhs| == |prec| == |assoc| == |prods| + 3
    requires forall n :: 0 <= n < |prods| ==> plhs[n + 3] == prods[n].lhs && prec[n + 3] == prods[n].prec && assoc[n + 3] == prods[n].assoc
    ensures rlhs.Length == rprec.Length == rassoc.Length == |prods| + 3
    ensures var g := RawGrammar(ntokens, |symbols| + 2, ritem[..], rlhs[..], rrhs[..]); g.Valid() && Holds(g, index, prods)
    ensures forall n :: 0 <= n < |prods| && prods[n].prec != UNDEFINED ==>
              rprec[n + 3] == prods[n].prec && rassoc[n + 3] == prods[n].assoc
    ensures forall n :: 0 <= n < |prods| && prods[n].prec == UNDEFINED ==>
              var rhs := prods[n].rhs;
              || (exists k :: 0 <= k < |rhs| && symbols[rhs[k]].cls == Term
                              && rprec[n + 3] == symbols[rhs[k]].prec && rassoc[n + 3] == symbols[rhs[k]].assoc
                              && forall l :: k < l < |rhs| ==> symbols[rhs[l]].cls == Nonterm)
              || ((forall l :: 0 <= l < |rhs| ==> symbols[rhs[l]].cls == Nonterm) && rprec[n + 3] == 0 && rassoc[n + 3] == TokenAssoc)
  {
    hide Rank, Number, Ntokens, IsNumbering, Items, Packed, PlacedTo, RulePrecedence, PrecedencesTo, LastToken,
      RawGrammar.Valid, Holds, SymbolsOk;
    NumberingSize(Classes(symbols), goal, index);
    var nrules := |plhs|;
    ritem, rlhs, rrhs := StartTables(index, ntokens, goalIndex, nrules, |pitem|, prods);
    rprec, rassoc := new int[nrules](i requires 0 <= i < nrules => prec[i]), new Assoc[nrules](i requires 0 <= i < nrules => assoc[i]);
    assert rprec[..] == prec && rassoc[..] == assoc;
    NoPrecedenceYet(symbols, prods, prec, assoc);
    var j: nat := 4;
    for i := 3 to nrules
      invariant j == |Items(prods, i - 3)|
      invariant PlacedTo(index, ntokens, prods, i - 3, ritem[..], rlhs[..], rrhs[..])
      invariant PrecedencesTo(symbols, prods, i - 3, rprec[..], rassoc[..])
    {
      RuleAt(symbols, prods, plhs, i, rprec[..], rassoc[..]);
      var p, s;
      j, p, s := PackOne(symbols, index, ntokens, plhs, pitem, i, j, ritem, rlhs, rrhs, prods);
      ghost var precWas, assocWas := rprec[..], rassoc[..];
      if rprec[i] == UNDEFINED {
        rprec[i] := p;
        rassoc[i] := s;
      }
      PrecedenceNow(symbols, prods, i - 3, p, s, precWas, assocWas, rprec[..], rassoc[..]);
    }
    LastRule(index, ntokens, prods, ritem[..], rlhs[..], rrhs[..], j);
    rrhs[nrules] := j;
    PlacedIsGrammar(symbols, goal, index, ntokens, prods, ritem[..], rlhs[..], rrhs[..]);
    AllPrecedences(symbols, prods, rprec[..], rassoc[..]);
  }

  /** The rules before n have their precedences; the others still have what was declared. */
  ghost predicate PrecedencesTo(symbols: seq<Sym>, prods: seq<Production>, n: nat, rprec: seq<int>, rassoc: seq<Assoc>)
    requires ProductionsOk(symbols, prods)
  {
    && n <= |prods| && |rprec| == |rassoc| == |prods| + 3
    && (forall m :: 0 <= m < n ==> RulePrecedence(symbols, prods[m], rprec[m + 3], rassoc[m + 3]))
    && forall m :: n <= m < |prods| ==> rprec[m + 3] == prods[m].prec && rassoc[m + 3] == prods[m].assoc
  }

  lemma NoPrecedenceYet(symbols: seq<Sym>, prods: seq<Production>, prec: seq<int>, assoc: seq<Assoc>)
    requires ProductionsOk(symbols, prods) && |prec| == |assoc| == |prods| + 3
    requires forall n :: 0 <= n < |prods| ==> prec[n + 3] == prods[n].prec && assoc[n + 3] == prods[n].assoc
    ensures PrecedencesTo(symbols, prods, 0, prec, assoc)
  {
  }

  lemma RuleAt(symbols: seq<Sym>, prods: seq<Production>, plhs: seq<nat>, i: nat, rprec: seq<int>, rassoc: seq<Assoc>)
    requires ProductionsOk(symbols, prods) && 3 <= i < |plhs| == |prods| + 3 && PrecedencesTo(symbols, prods, i - 3, rprec, rassoc)
    requires forall n :: 0 <= n < |prods| ==> plhs[n + 3] == prods[n].lhs
    ensures plhs[i] == prods[i-3].lhs && i < |rprec| == |rassoc|
  {
    var n := i - 3;
    assert plhs[n + 3] == prods[n].lhs;
  }

  lemma PrecedenceNow(symbols: seq<Sym>, prods: seq<Production>, n: nat, p: int, s: Assoc, precWas: seq<int>,
                      assocWas: seq<Assoc>,
                      rprec: seq<int>, rassoc: seq<Assoc>)
    requires ProductionsOk(symbols, prods) && n < |prods| && PrecedencesTo(symbols, prods, n, precWas, assocWas)
    requires LastToken(symbols, prods[n].rhs, |prods[n].rhs|, p, s)
    requires rprec == if precWas[n + 3] == UNDEFINED then precWas[n + 3 := p] else precWas
    requires rassoc == if precWas[n + 3] == UNDEFINED then assocWas[n + 3 := s] else assocWas
    ensures PrecedencesTo(symbols, prods, n + 1, rprec, rassoc)
  {
    hide LastToken;
    assert precWas[n + 3] == prods[n].prec && assocWas[n + 3] == prods[n].assoc;
  }

  lemma AllPrecedences(symbols: seq<Sym>, prods: seq<Production>, rprec: seq<int>, rassoc: seq<Assoc>)
    requires ProductionsOk(symbols, prods) && PrecedencesTo(symbols, prods, |prods|, rprec, rassoc)
    ensures |rprec| == |rassoc| == |prods| + 3
    ensures forall n :: 0 <= n < |prods| && prods[n].prec != UNDEFINED ==>
              rprec[n + 3] == prods[n].prec && rassoc[n + 3] == prods[n].assoc
    ensures forall n :: 0 <= n < |prods| && prods[n].prec == UNDEFINED ==>
              var rhs := prods[n].rhs;
              || (exists k :: 0 <= k < |rhs| && symbols[rhs[k]].cls == Term
                              && rprec[n + 3] == symbols[rhs[k]].prec && rassoc[n + 3] == symbols[rhs[k]].assoc
                              && forall l :: k < l < |rhs| ==> symbols[rhs[l]].cls == Nonterm)
              || ((forall l :: 0 <= l < |rhs| ==> symbols[rhs[l]].cls == Nonterm) && rprec[n + 3] == 0 && rassoc[n + 3] == TokenAssoc)
  {
    forall n | 0 <= n < |prods| ensures RulePrecedence(symbols, prods[n], rprec[n + 3], rassoc[n + 3]) {
    }
  }

  /** Space for the tables, with the rule $accept: goal $end. */
  method StartTables(ghost index: seq<nat>, ntokens: nat, goalIndex: nat, nrules: nat, nitems: nat,
                     ghost prods: seq<Production>)
      returns (ritem: array<int>, rlhs: array<nat>, rrhs: array<nat>)
    requires goalIndex == ntokens + 1 && nrules == |prods| + 3 && nitems == |Items(prods, |prods|)|
    ensures fresh(ritem) && fresh(rlhs) && fresh(rrhs) && rlhs != rrhs
    ensures PlacedTo(index, ntokens, prods, 0, ritem[..], rlhs[..], rrhs[..]) && |Items(prods, 0)| == 4
    ensures rlhs.Length == nrules && rrhs.Length == nrules + 1
  {
    hide Items, Packed, PlacedTo;
    ItemsStart(index, ntokens, prods);
    ritem, rlhs, rrhs := new int[nitems](_ => 0), new nat[nrules](_ => 0), new nat[nrules + 1](_ => 0);
    ritem[0], ritem[1], ritem[2], ritem[3] := -1, goalIndex, 0, -2;
    rlhs[2], rrhs[2] := ntokens, 1;
    assert ritem[..][..4] == [-1, ntokens + 1, 0, -2];
    NothingPlaced(index, ntokens, prods, ritem[..], rlhs[..], rrhs[..]);
  }

  /** One rule: its entries in rlhs and rrhs, and its right-hand side with the mark at the end. */
  method PackOne(symbols: seq<Sym>, index: seq<nat>, ghost ntokens: nat, plhs: seq<nat>, pitem: seq<int>, i: nat, j0: nat,
                 ritem: array<int>, rlhs: array<nat>, rrhs: array<nat>, ghost prods: seq<Production>)
      returns (j: nat, prec: int, assoc: Assoc)
    requires |index| == |symbols| && ProductionsOk(symbols, prods) && pitem == Items(prods, |prods|)
    requires 3 <= i < |prods| + 3 == |plhs| && plhs[i] == prods[i-3].lhs && rlhs != rrhs
    requires j0 == |Items(prods, i - 3)| && PlacedTo(index, ntokens, prods, i - 3, ritem[..], rlhs[..], rrhs[..])
    modifies ritem, rlhs, rrhs
    ensures j == |Items(prods, i - 2)| && PlacedTo(index, ntokens, prods, i - 2, ritem[..], rlhs[..], rrhs[..])
    ensures LastToken(symbols, prods[i-3].rhs, |prods[i-3].rhs|, prec, assoc)
  {
    hide Items, Packed;
    ghost var n := i - 3;
    ghost var lhsWas, rhsWas := rlhs[..], rrhs[..];
    ItemsOfRule(prods, n);
    rlhs[i] := index[plhs[i]];
    rrhs[i] := j0;
    j, prec, assoc := PackRule(symbols, index, pitem, ritem, j0, prods[n].rhs);
    ritem[j] := -(i as int);
    ghost var start := j;
    j := j + 1;
    assert ritem[..start] == Packed(index, ntokens, prods, n) + Renamed(index, prods[n].rhs);
    PackedNext(index, ntokens, prods, n, ritem[..]);
    PlacedNext(index, ntokens, prods, n, ritem[..], lhsWas, rhsWas, rlhs[..], rrhs[..]);
  }

  lemma PlacedNext(index: seq<nat>, ntokens: nat, prods: seq<Production>, n: nat, ritem: seq<int>,
                   lhsWas: seq<nat>, rhsWas: seq<nat>, rlhs: seq<nat>, rrhs: seq<nat>)
    requires n < |prods| && |lhsWas| == |prods| + 3 && |rhsWas| == |prods| + 4 && |ritem| == |Items(prods, |prods|)|
    requires lhsWas[0] == 0 && lhsWas[1] == 0 && lhsWas[2] == ntokens && rhsWas[0] == 0 && rhsWas[1] == 0 && rhsWas[2] == 1
    requires forall m :: 0 <= m < n ==> lhsWas[m + 3] == NumberAt(index, prods[m].lhs) && rhsWas[m + 3] == |Items(prods, m)|
    requires rlhs == lhsWas[n + 3 := NumberAt(index, prods[n].lhs)] && rrhs == rhsWas[n + 3 := |Items(prods, n)|]
    requires |Items(prods, n + 1)| <= |ritem| && ritem[..|Items(prods, n + 1)|] == Packed(index, ntokens, prods, n + 1)
    ensures PlacedTo(index, ntokens, prods, n + 1, ritem, rlhs, rrhs)
  {
    hide Items, Packed;
  }

  lemma NothingPlaced(index: seq<nat>, ntokens: nat, prods: seq<Production>, ritem: seq<int>, rlhs: seq<nat>, rrhs: seq<nat>)
    requires |rlhs| == |prods| + 3 && |rrhs| == |prods| + 4 && |ritem| == |Items(prods, |prods|)| >= 4
    requires rlhs[0] == 0 && rlhs[1] == 0 && rlhs[2] == ntokens && rrhs[0] == 0 && rrhs[1] == 0 && rrhs[2] == 1
    requires ritem[..4] == [-1, ntokens + 1, 0, -2]
    ensures PlacedTo(index, ntokens, prods, 0, ritem, rlhs, rrhs)
  {
  }

  lemma LastRule(index: seq<nat>, ntokens: nat, prods: seq<Production>, ritem: seq<int>, rlhs: seq<nat>,
                 rrhs: seq<nat>, j: nat)
    requires PlacedTo(index, ntokens, prods, |prods|, ritem, rlhs, rrhs) && j == |Items(prods, |prods|)|
    ensures |rrhs| == |prods| + 4 && |ritem| == j
    ensures PlacedTo(index, ntokens, prods, |prods|, ritem, rlhs, rrhs[|prods| + 3 := j])
  {
    hide Items, Packed;
  }

  lemma ItemsStart(index: seq<nat>, ntokens: nat, prods: seq<Production>)
    ensures |Items(prods, 0)| == 4 <= |Items(prods, |prods|)| && Packed(index, ntokens, prods, 0) == [-1, ntokens + 1, 0, -2]
  {
    ItemsPrefix(prods, 0, |prods|);
  }

  lemma PackedNext(index: seq<nat>, ntokens: nat, prods: seq<Production>, n: nat, ritem: seq<int>)
    requires n < |prods| && |Items(prods, n)| + |prods[n].rhs| < |ritem|
    requires ritem[..|Items(prods, n)| + |prods[n].rhs|] == Packed(index, ntokens, prods, n) + Renamed(index, prods[n].rhs)
    requires ritem[|Items(prods, n)| + |prods[n].rhs|] == 0 - (n + 3)
    ensures |Items(prods, n + 1)| == |Items(prods, n)| + |prods[n].rhs| + 1
    ensures ritem[..|Items(prods, n + 1)|] == Packed(index, ntokens, prods, n + 1)
  {
  }
}
