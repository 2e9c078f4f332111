/** The lookups of the generated parser (skeleton-k, yyparse) give back the actions and the gotos. */
module Decode {
  import opened Grammars
  import opened Automata
  import opened GotoMap
  import opened Actions
  import opened Conflicts
  import opened MkPar
  import opened Packing
  import opened TokenRows
  import opened Columns
  import opened Output

  /** What the parser does in a state on a token; rules are numbered as in the generated tables. ErrorThen reports a
      syntax error and goes on as if the number it has at hand were that of a rule. */
  datatype Move = ShiftTo(state: int) | ReduceBy(rule: int) | ErrorThen(rule: int)

  /** First the default reduction, then the shift of the token, then its reduction. A state without a row of reductions
      goes on as if rule 0 were to be reduced; one with such a row that has nothing for the token goes on, after the report,
      with the sum of base and token value. */
  function TokenMove(t: Tables, nstates: nat, p: nat, value: nat): Move
    requires p < nstates && 2 * nstates <= |t.base| && p < |t.yydefred| && |t.table| == |t.check| > t.high
  {
    if t.yydefred[p] != 0 then ReduceBy(t.yydefred[p])
    else if Lookup(t.base[p], t.table, t.check, t.high, value) != -1 then
      ShiftTo(Lookup(t.base[p], t.table, t.check, t.high, value))
    else if Lookup(t.base[nstates + p], t.table, t.check, t.high, value) != -1 then
      ReduceBy(Lookup(t.base[nstates + p], t.table, t.check, t.high, value))
    else if t.base[nstates + p] == 0 then ReduceBy(0)
    else ErrorThen(t.base[nstates + p] + value)
  }

  /** After a reduction: the entry of the variable's column for the uncovered state, or its default. */
  function GotoMove(t: Tables, nstates: nat, p: nat, k: nat): int
    requires 2 * nstates + k < |t.base| && k < |t.dgoto| && |t.table| == |t.check| > t.high
  {
    if Lookup(t.base[2 * nstates + k], t.table, t.check, t.high, p) != -1 then
      Lookup(t.base[2 * nstates + k], t.table, t.check, t.high, p)
    else t.dgoto[k]
  }

  /** What an action tells the parser to do. */
  function MoveOf(e: Action): Move
  {
    if e.code == Shift then ShiftTo(e.number) else ReduceBy(e.number - 2)
  }

  // ---------------------------------------------------------------------------------

  /** After conflict resolution, a list is decided. */
  lemma ResolvedDecided(a: Automaton, prec: Precedence, lookaheads: seq<nat>, rows: seq<set<int>>, p: nat, final: bool,
                        raw: seq<Action>, list: seq<Action>)
    requires IsRawList(a, prec, lookaheads, rows, p, raw) && Resolved(raw, final, |raw|, list)
    ensures Decided(list, a.g.ntokens)
  {
    hide IsLr0, IsAction, Outcome, Fresh;
    forall e | e in list ensures e.symbol < a.g.ntokens && e.number > 0 {
      var k: nat :| k < |list| && list[k] == e;
      assert Same(raw[k], list[k]) && raw[k] in raw;
      ActionFacts(a, prec, lookaheads, rows, p, raw[k]);
      ActionNumber(a, prec, p, raw[k]);
    }
    forall k, l | 0 <= k < l < |list| && list[k].suppressed == 0 && list[l].suppressed == 0
      ensures list[k].symbol != list[l].symbol
    {
      assert Same(raw[k], list[k]) && Same(raw[l], list[l]);
      if raw[k].symbol == raw[l].symbol {
        OneStays(raw, final, k, l);
      }
    }
  }

  lemma ActionNumber(a: Automaton, prec: Precedence, p: nat, e: Action)
    requires e.code == Shift ==> IsShift(a, prec, p, e)
    ensures e.code == Shift ==> e.number > 0
  {
    if e.code == Shift {
      TransSymbol(a, p, e.symbol, e.number);
    }
  }

  // ---------------------------------------------------------------------------------

  /** Looking up the value of a token at the base of one of the vectors of a state. */
  lemma HalfLookup(vs: Vectors, t: Tables, v: nat, half: seq<nat>, values: seq<nat>, less: nat, j: nat)
    requires TableOk(vs, t.base, t.table, t.check, t.high) && v < |vs.froms| && TokenValues(values) && j < |half| == |values|
    requires VectorOf(half, values, less, |half|, vs.froms[v], vs.tos[v])
    ensures |t.base| == |vs.froms| && |t.table| == |t.check| > t.high
    ensures Lookup(t.base[v], t.table, t.check, t.high, values[j]) == if half[j] != 0 then half[j] - less else -1
  {
    hide Lookup;
    VectorEntry(half, values, less, vs.froms[v], vs.tos[v], j);
    LookupIsEntry(vs, t.base, t.table, t.check, t.high, v, values[j]);
    if half[j] != 0 {
      var k: nat :| k < |vs.froms[v]| && vs.froms[v][k] == values[j];
    }
  }

  /** The slots of token j in the action row. */
  lemma RowSlots(list: seq<Action>, ntokens: nat, defred: nat, row: seq<nat>, j: nat)
    requires Decided(list, ntokens) && RowOk(list, ntokens, defred, |list|, row) && j < ntokens
    ensures |row| == 2 * ntokens
    ensures forall e :: Live(list, e) && e.symbol == j ==>
              && row[j] == (if e.code == Shift then e.number else 0)
              && row[ntokens + j] == if e.code == Reduce && e.number != defred then e.number else 0
    ensures (forall e :: !(Live(list, e) && e.symbol == j)) ==> row[j] == 0 && row[ntokens + j] == 0
  {
    assert list[..|list|] == list;
    assert SlotOk(list, ntokens, defred, |list|, j, row[j]);
    assert SlotOk(list, ntokens, defred, |list|, ntokens + j, row[ntokens + j]);
    forall e, f | Live(list, e) && Live(list, f) && e.symbol == f.symbol ensures e == f {
      LiveIsOne(list, ntokens, e, f);
    }
    if row[j] != 0 {
      var f :| WrittenAt(list, ntokens, defred, |list|, j, f) && f.number == row[j];
      assert Live(list, f);
    }
    if row[ntokens + j] != 0 {
      var f :| WrittenAt(list, ntokens, defred, |list|, ntokens + j, f) && f.number == row[ntokens + j];
      assert Live(list, f);
    }
    forall e | Live(list, e) && e.symbol == j
      ensures row[j] == (if e.code == Shift then e.number else 0)
      ensures row[ntokens + j] == if e.code == Reduce && e.number != defred then e.number else 0
    {
      if e.code == Shift {
        assert WrittenAt(list, ntokens, defred, |list|, j, e);
      } else if e.number != defred {
        assert WrittenAt(list, ntokens, defred, |list|, ntokens + j, e);
      }
    }
  }

  lemma LiveIsOne(list: seq<Action>, ntokens: nat, e: Action, f: Action)
    requires Decided(list, ntokens) && Live(list, e) && Live(list, f) && e.symbol == f.symbol
    ensures e == f
  {
    var k :| 0 <= k < |list| && list[k] == e;
    var l :| 0 <= l < |list| && list[l] == f;
  }

  /** The two lookups of a token in a state. */
  lemma TokenLookups(a: Automaton, gotoMap: seq<nat>, fromState: seq<nat>, toState: seq<nat>, parser: seq<seq<Action>>,
                     defred: seq<nat>, values: seq<nat>, vs: Vectors, t: Tables, p: nat, j: nat) returns (row: seq<nat>)
    requires IsTables(a, gotoMap, fromState, toState, parser, defred, values, vs, t)
    requires p < |parser| && |values| == a.g.ntokens && TokenValues(values) && j < a.g.ntokens
    ensures |t.base| == |vs.froms| == 2 * |parser| + Nvars(a.g) && |t.table| == |t.check| > t.high && |defred| == |parser| == |t.yydefred|
    ensures RowOk(parser[p], a.g.ntokens, defred[p], |parser[p]|, row) && |row| == 2 * a.g.ntokens
    ensures Lookup(t.base[p], t.table, t.check, t.high, values[j]) == if row[j] != 0 then row[j] else -1
    ensures Lookup(t.base[|parser| + p], t.table, t.check, t.high, values[j])
         == if row[a.g.ntokens + j] != 0 then row[a.g.ntokens + j] as int - 2 else -1
  {
    hide IsLr0, RawGrammar.Valid, ColumnsDone, VectorsOk, VectorOf, TokenValues, Lookup;
    var n, ntokens := |parser|, a.g.ntokens;
    assert RowVectors(parser[p], ntokens, defred[p], values, vs.froms[..vs.rows][p], vs.tos[..vs.rows][p],
                      vs.froms[..vs.rows][n + p], vs.tos[..vs.rows][n + p]);
    row :| RowsOf(parser[p], ntokens, defred[p], values, vs.froms[p], vs.tos[p], vs.froms[n + p], vs.tos[n + p], row);
    RowLength(parser[p], ntokens, defred[p], |parser[p]|, row);
    HalfLookup(vs, t, p, row[..ntokens], values, 0, j);
    HalfLookup(vs, t, n + p, row[ntokens..], values, 2, j);
  }

  /** Every action that stayed is what the parser does. */
  lemma MoveIsAction(a: Automaton, gotoMap: seq<nat>, fromState: seq<nat>, toState: seq<nat>, parser: seq<seq<Action>>,
                     defred: seq<nat>, values: seq<nat>, vs: Vectors, t: Tables, p: nat, e: Action)
    requires IsTables(a, gotoMap, fromState, toState, parser, defred, values, vs, t) && IsDefred(parser, defred)
    requires p < |parser| && |values| == a.g.ntokens && TokenValues(values) && Decided(parser[p], a.g.ntokens)
    requires forall f :: f in parser[p] && f.code == Reduce ==> f.number >= 3
    requires Live(parser[p], e)
    ensures e.symbol < a.g.ntokens
    ensures 2 * |parser| <= |t.base| && p < |t.yydefred| && |t.table| == |t.check| > t.high
    ensures TokenMove(t, |parser|, p, values[e.symbol]) == MoveOf(e)
  {
    hide IsLr0, RawGrammar.Valid, RowsDone, ColumnsDone, VectorsOk, TableOk, Lookup, TokenValues, RowOk;
    LiveFacts(parser[p], a.g.ntokens, e);
    var row := TokenLookups(a, gotoMap, fromState, toState, parser, defred, values, vs, t, p, e.symbol);
    RowSlots(parser[p], a.g.ntokens, defred[p], row, e.symbol);
    if defred[p] > 0 {
      DefaultRule(parser[p], defred[p]);
    }
  }

  lemma LiveFacts(list: seq<Action>, ntokens: nat, e: Action)
    requires Decided(list, ntokens) && Live(list, e)
    ensures e.symbol < ntokens && e.number > 0
  {
  }

  lemma DefaultRule(list: seq<Action>, r: nat)
    requires SoleIs(list, r) && forall f :: f in list && f.code == Reduce ==> f.number >= 3
    ensures r >= 3 && forall e :: Live(list, e) ==> e.code == Reduce && e.number == r
  {
    var e :| e in list && e.suppressed == 0 && e.symbol != 1;
  }

  /** On any other token the parser reduces by the sole reduction of the state. If there is none, it reports an error and
      goes on with the sum of base and value, unless the state has no row of reductions, where it goes on with rule 0. */
  lemma MoveWithoutAction(a: Automaton, gotoMap: seq<nat>, fromState: seq<nat>, toState: seq<nat>, parser: seq<seq<Action>>,
                          defred: seq<nat>, values: seq<nat>, vs: Vectors, t: Tables, p: nat, j: nat)
    requires IsTables(a, gotoMap, fromState, toState, parser, defred, values, vs, t) && IsDefred(parser, defred)
    requires p < |parser| && |values| == a.g.ntokens && TokenValues(values) && Decided(parser[p], a.g.ntokens)
    requires forall f :: f in parser[p] && f.code == Reduce ==> f.number >= 3
    requires j < a.g.ntokens && forall e :: !(Live(parser[p], e) && e.symbol == j)
    ensures 2 * |parser| <= |t.base| && p < |t.yydefred| && |t.table| == |t.check| > t.high && |defred| == |parser|
    ensures TokenMove(t, |parser|, p, values[j]) == if defred[p] > 0 then ReduceBy(defred[p] - 2)
                                                        else if t.base[|parser| + p] == 0 then ReduceBy(0)
                                                        else ErrorThen(t.base[|parser| + p] + values[j])
  {
    hide IsLr0, RawGrammar.Valid, RowsDone, ColumnsDone, VectorsOk, TableOk, Lookup, TokenValues, RowOk;
    var row := TokenLookups(a, gotoMap, fromState, toState, parser, defred, values, vs, t, p, j);
    RowSlots(parser[p], a.g.ntokens, defred[p], row, j);
    if defred[p] > 0 {
      DefaultRule(parser[p], defred[p]);
    }
  }

  /** Some reduction that stayed is not the default of the state. */
  ghost predicate HasReductions(list: seq<Action>, defred: nat)
  {
    exists e :: Live(list, e) && e.code == Reduce && e.number != defred
  }

  lemma HalfIsEmpty(half: seq<nat>, values: seq<nat>, less: nat, from: seq<nat>, to: seq<int>)
    requires VectorOf(half, values, less, |half|, from, to)
    ensures from == [] <==> forall j :: 0 <= j < |half| ==> half[j] == 0
  {
    if from != [] {
      assert EntryOf(half, values, less, |half|, from[0], to[0]);
    }
  }

  lemma ReductionSlots(list: seq<Action>, ntokens: nat, defred: nat, row: seq<nat>)
    requires Decided(list, ntokens) && RowOk(list, ntokens, defred, |list|, row)
    ensures |row| == 2 * ntokens
    ensures (forall j :: 0 <= j < ntokens ==> row[ntokens..][j] == 0) <==> !HasReductions(list, defred)
  {
    hide RowOk, Decided;
    RowLength(list, ntokens, defred, |list|, row);
    if e :| Live(list, e) && e.code == Reduce && e.number != defred {
      LiveFacts(list, ntokens, e);
      RowSlots(list, ntokens, defred, row, e.symbol);
      assert row[ntokens..][e.symbol] == row[ntokens + e.symbol];
    }
    if j: nat :| j < ntokens && row[ntokens..][j] != 0 {
      RowSlots(list, ntokens, defred, row, j);
      assert row[ntokens..][j] == row[ntokens + j];
      var e :| Live(list, e) && e.symbol == j;
    }
  }

  /** A state has a row of reductions exactly if some reduction that stayed is not its default. */
  lemma ReductionRow(a: Automaton, gotoMap: seq<nat>, fromState: seq<nat>, toState: seq<nat>, parser: seq<seq<Action>>,
                     defred: seq<nat>, values: seq<nat>, vs: Vectors, t: Tables, p: nat)
    requires IsTables(a, gotoMap, fromState, toState, parser, defred, values, vs, t)
    requires p < |parser| && |values| == a.g.ntokens && TokenValues(values) && Decided(parser[p], a.g.ntokens)
    ensures 2 * |parser| <= |t.base| && |defred| == |parser|
    ensures t.base[|parser| + p] != 0 <==> HasReductions(parser[p], defred[p])
  {
    hide IsLr0, RawGrammar.Valid, ColumnsDone, VectorsOk, VectorOf, TokenValues, Decided, HasReductions;
    var n, ntokens := |parser|, a.g.ntokens;
    assert RowVectors(parser[p], ntokens, defred[p], values, vs.froms[..vs.rows][p], vs.tos[..vs.rows][p],
                      vs.froms[..vs.rows][n + p], vs.tos[..vs.rows][n + p]);
    var row :| RowsOf(parser[p], ntokens, defred[p], values, vs.froms[p], vs.tos[p], vs.froms[n + p], vs.tos[n + p], row);
    ReductionSlots(parser[p], ntokens, defred[p], row);
    HalfIsEmpty(row[ntokens..], values, 2, vs.froms[n + p], vs.tos[n + p]);
  }

  /** Every transition on a variable is where the parser goes. */
  lemma GotoIsTrans(a: Automaton, gotoMap: seq<nat>, fromState: seq<nat>, toState: seq<nat>, parser: seq<seq<Action>>,
                    defred: seq<nat>, values: seq<nat>, vs: Vectors, t: Tables, p: nat, k: nat, q: nat)
    requires IsGotoMap(a, gotoMap, fromState, toState)
    requires IsTables(a, gotoMap, fromState, toState, parser, defred, values, vs, t)
    requires Trans(a, p, a.g.ntokens + 1 + k, q)
    ensures 2 * |parser| + k < |t.base| && k < |t.dgoto| && |t.table| == |t.check| > t.high
    ensures GotoMove(t, |parser|, p, k) == q
  {
    hide IsLr0, RawGrammar.Valid, RowsDone, VectorsOk, IsGotoMap, TableOk, Trans, Lookup, ColumnOf, IsDefault, DefRed;
    TransSymbol(a, p, a.g.ntokens + 1 + k, q);
    TableSizes(vs, t.base, t.table, t.check, t.high);
    var i := MapHas(a, gotoMap, fromState, toState, k + 1, p, q);
    GotoSlice(a, gotoMap, fromState, toState, k + 1);
    var m, n, v := gotoMap[k+1], gotoMap[k+2], vs.rows + k;
    assert ColumnDone(gotoMap, fromState, toState, k + 1, t.dgoto[k], vs.froms[v], vs.tos[v]);
    ColumnHas(fromState[m..n], toState[m..n], t.dgoto[k], vs.froms[v], vs.tos[v], i - m);
    LookupIsEntry(vs, t.base, t.table, t.check, t.high, v, p);
    if p in vs.froms[v] {
      var l: nat :| l < |vs.froms[v]| && vs.froms[v][l] == p;
    }
  }

  /** Whatever the uncovered state is, looking up a variable finds the number of a state. */
  lemma GotoIsState(a: Automaton, gotoMap: seq<nat>, fromState: seq<nat>, toState: seq<nat>, parser: seq<seq<Action>>,
                    defred: seq<nat>, values: seq<nat>, vs: Vectors, t: Tables, p: nat, k: nat)
    requires IsTables(a, gotoMap, fromState, toState, parser, defred, values, vs, t) && k + 1 < Nvars(a.g)
    ensures 2 * |parser| + k < |t.base| && k < |t.dgoto| && |t.table| == |t.check| > t.high
    ensures GotoMove(t, |parser|, p, k) >= 0
  {
    hide IsLr0, RawGrammar.Valid, RowsDone, VectorsOk, IsGotoMap, TableOk, Trans, Lookup, IsDefault, DefRed;
    TableSizes(vs, t.base, t.table, t.check, t.high);
    var v := vs.rows + k;
    assert ColumnDone(gotoMap, fromState, toState, k + 1, t.dgoto[k], vs.froms[v], vs.tos[v]);
    LookupIsEntry(vs, t.base, t.table, t.check, t.high, v, p);
    if p in vs.froms[v] {
      var l: nat :| l < |vs.froms[v]| && vs.froms[v][l] == p;
      assert vs.tos[v][l] >= 0;
    }
  }

  lemma TableSizes(vs: Vectors, base: seq<int>, table: seq<int>, check: seq<int>, high: nat)
    requires TableOk(vs, base, table, check, high)
    ensures |base| == |vs.froms| && |table| == |check| > high
  {
  }
}
