/** The tables of the generated parser, and what its lookups in them find (jay/output.c; skeleton-k). */
module Output {
  import opened Grammars
  import opened Automata
  import opened GotoMap
  import opened Actions
  import opened Packing
  import opened Room
  import opened TokenRows
  import opened Columns

  /** What the reader knows about the numbering of the symbols: tokens have distinct values that are shorts, and the
      variables are numbered from -1 for $accept (jay/reader.c, pack_symbols). */
  ghost predicate SymbolValues(g: Grammar, symbolValue: seq<int>)
  {
    && |symbolValue| == g.nsyms
    && (forall j :: 0 <= j < g.ntokens ==> 0 <= symbolValue[j] <= MAXSHORT)
    && (forall j, k :: 0 <= j < k < g.ntokens ==> symbolValue[j] != symbolValue[k])
    && (forall s :: g.ntokens <= s < g.nsyms ==> symbolValue[s] == s - g.ntokens - 1)
  }

  function Values(ntokens: nat, symbolValue: seq<int>): (values: seq<nat>)
    requires ntokens <= |symbolValue| && forall j :: 0 <= j < ntokens ==> symbolValue[j] >= 0
    ensures |values| == ntokens
  {
    seq(ntokens, j requires 0 <= j < ntokens <= |symbolValue| && symbolValue[j] >= 0 => symbolValue[j])
  }

  lemma ValuesOk(g: Grammar, symbolValue: seq<int>)
    requires SymbolValues(g, symbolValue)
    ensures g.ntokens <= |symbolValue| && forall j :: 0 <= j < g.ntokens ==> symbolValue[j] >= 0
    ensures TokenValues(Values(g.ntokens, symbolValue))
  {
  }

  // ---------------------------------------------------------------------------------
  // The vectors.

  function Put(vs: Vectors, v: nat, from: seq<nat>, to: seq<int>, w: nat): Vectors
    requires v < |vs.froms| == |vs.tos| == |vs.tally| == |vs.width|
  {
    Vectors(vs.rows, vs.froms[v := from], vs.tos[v := to], vs.tally[v := |from|], vs.width[v := w])
  }

  lemma PutOk(vs: Vectors, v: nat, from: seq<nat>, to: seq<int>, w: nat)
    requires VectorsOk(vs) && v < |vs.froms| && |from| == |to| && from != [] && w == Width(from)
    requires forall k, l :: 0 <= k < l < |from| ==> from[k] != from[l]
    ensures VectorsOk(Put(vs, v, from, to, w))
  {
    hide Width;
    var vs' := Put(vs, v, from, to, w);
    forall u | 0 <= u < |vs'.froms| ensures VectorOk(vs', u) {
      assert VectorOk(vs, u);
    }
  }

  /** The arrays froms, tos, tally and width. */
  class VectorTable {
    const rows: nat
    const froms: array<seq<nat>>
    const tos: array<seq<int>>
    const tally: array<nat>
    const width: array<nat>

    ghost predicate Valid()
      reads this, froms, tos, tally, width
    {
      && froms.Length == tos.Length == tally.Length == width.Length && tally != width
      && VectorsOk(Value())
    }

    function Value(): Vectors
      reads this, froms, tos, tally, width
    {
      Vectors(rows, froms[..], tos[..], tally[..], width[..])
    }

    constructor (nvectors: nat, rows: nat)
      ensures Valid() && fresh(froms) && fresh(tos) && fresh(tally) && fresh(width)
      ensures this.rows == rows && froms.Length == nvectors
      ensures forall v: nat :: v < nvectors ==> froms[v] == [] && tos[v] == []
    {
      this.rows := rows;
      froms := new seq<nat>[nvectors](_ => []);
      tos := new seq<int>[nvectors](_ => []);
      tally := new nat[nvectors](_ => 0);
      width := new nat[nvectors](_ => 0);
    }

    method Save(v: nat, from: seq<nat>, to: seq<int>, w: nat)
      requires Valid() && v < froms.Length && |from| == |to| && from != [] && w == Width(from)
      requires forall k, l :: 0 <= k < l < |from| ==> from[k] != from[l]
      modifies froms, tos, tally, width
      ensures Valid() && froms[..] == old(froms[..])[v := from] && tos[..] == old(tos[..])[v := to]
    {
      hide VectorsOk, Width;
      PutOk(Value(), v, from, to, w);
      ghost var was := Value();
      froms[v], tos[v], tally[v], width[v] := from, to, |from|, w;
      assert Value() == Put(was, v, from, to, w);
    }
  }

  /** The two token vectors of a state agree with its action list. */
  ghost predicate RowVectors(list: seq<Action>, ntokens: nat, defred: nat, values: seq<nat>,
                             sf: seq<nat>, st: seq<int>, rf: seq<nat>, rt: seq<int>)
  {
    exists row: seq<nat> :: RowsOf(list, ntokens, defred, values, sf, st, rf, rt, row)
  }

  ghost predicate RowsOf(list: seq<Action>, ntokens: nat, defred: nat, values: seq<nat>,
                         sf: seq<nat>, st: seq<int>, rf: seq<nat>, rt: seq<int>, row: seq<nat>)
  {
    && RowOk(list, ntokens, defred, |list|, row)
    && VectorOf(row[..ntokens], values, 0, ntokens, sf, st)
    && VectorOf(row[ntokens..], values, 2, ntokens, rf, rt)
  }

  lemma {:induction false} NoVector(row: seq<nat>, values: seq<nat>, less: nat, n: nat)
    requires n <= |row| == |values| && Nonzero(row[..n]) == 0
    ensures VectorOf(row, values, less, n, [], [])
    decreases n
  {
    if n > 0 {
      assert row[..n][..n-1] == row[..n-1];
      NoVector(row, values, less, n - 1);
    }
  }

  lemma VectorDistinct(row: seq<nat>, values: seq<nat>, less: nat, n: nat, from: seq<nat>, to: seq<int>)
    requires VectorOf(row, values, less, n, from, to)
    ensures |from| == |to| && forall k, l :: 0 <= k < l < |from| ==> from[k] != from[l]
  {
  }

  /** The vector of one half of an action row, saved if it has entries. */
  method SaveHalf(vt: VectorTable, v: nat, row: seq<nat>, values: seq<nat>, less: nat, count: nat)
    requires vt.Valid() && v < vt.froms.Length && |row| == |values| && TokenValues(values) && count == Nonzero(row)
    requires vt.froms[v] == [] && vt.tos[v] == []
    modifies vt.froms, vt.tos, vt.tally, vt.width
    ensures vt.Valid() && VectorOf(row, values, less, |row|, vt.froms[v], vt.tos[v])
    ensures forall u: nat :: u < vt.froms.Length && u != v ==> vt.froms[u] == old(vt.froms[u]) && vt.tos[u] == old(vt.tos[u])
  {
    hide Nonzero, VectorOf, VectorsOk, Width;
    if count > 0 {
      var from, to, w := TokenVector(row, values, less, count);
      VectorDistinct(row, values, less, |row|, from, to);
      vt.Save(v, from, to, w);
    } else {
      assert row[..|row|] == row;
      NoVector(row, values, less, |row|);
    }
  }

  /** The vectors of the states below n are done, those from n on still empty. */
  ghost predicate RowsDone(parser: seq<seq<Action>>, ntokens: nat, defred: seq<nat>, values: seq<nat>, n: nat,
                           froms: seq<seq<nat>>, tos: seq<seq<int>>)
  {
    && |defred| == |parser| && 2 * |parser| <= |froms| == |tos| && n <= |parser|
    && (forall p: nat :: p < n ==>
          RowVectors(parser[p], ntokens, defred[p], values, froms[p], tos[p], froms[|parser| + p], tos[|parser| + p]))
    && (forall v: nat :: (n <= v < |parser| || |parser| + n <= v < |froms|) ==> froms[v] == [] && tos[v] == [])
  }

  method TokenActionsOf(vt: VectorTable, parser: seq<seq<Action>>, ntokens: nat, defred: seq<nat>, values: seq<nat>, i: nat)
    requires vt.Valid() && i < |parser| && Decided(parser[i], ntokens) && |values| == ntokens && TokenValues(values)
    requires RowsDone(parser, ntokens, defred, values, i, vt.froms[..], vt.tos[..])
    modifies vt.froms, vt.tos, vt.tally, vt.width
    ensures vt.Valid() && RowsDone(parser, ntokens, defred, values, i + 1, vt.froms[..], vt.tos[..])
  {
    hide Nonzero, VectorOf, VectorsOk, Width, RowOk, Decided;
    ghost var froms0, tos0 := vt.froms[..], vt.tos[..];
    var nstates := |parser|;
    assert vt.froms[i] == froms0[i] && vt.froms[nstates + i] == froms0[nstates + i];
    assert vt.tos[i] == tos0[i] && vt.tos[nstates + i] == tos0[nstates + i];
    var actionrow, shiftcount, reducecount := ActionRow(parser[i], ntokens, defred[i]);
    RowLength(parser[i], ntokens, defred[i], |parser[i]|, actionrow);
    SaveHalf(vt, i, actionrow[..ntokens], values, 0, shiftcount);
    SaveHalf(vt, nstates + i, actionrow[ntokens..], values, 2, reducecount);
    RowsNext(parser, ntokens, defred, values, i, froms0, tos0, vt.froms[..], vt.tos[..], actionrow);
  }

  lemma RowLength(list: seq<Action>, ntokens: nat, defred: nat, n: nat, row: seq<nat>)
    requires RowOk(list, ntokens, defred, n, row)
    ensures |row| == 2 * ntokens
  {
  }

  lemma RowsNext(parser: seq<seq<Action>>, ntokens: nat, defred: seq<nat>, values: seq<nat>, i: nat,
                 froms0: seq<seq<nat>>, tos0: seq<seq<int>>, froms: seq<seq<nat>>, tos: seq<seq<int>>, row: seq<nat>)
    requires RowsDone(parser, ntokens, defred, values, i, froms0, tos0) && i < |parser|
    requires |froms| == |froms0| && |tos| == |tos0|
    requires forall u: nat :: u < |froms| && u != i && u != |parser| + i ==> froms[u] == froms0[u] && tos[u] == tos0[u]
    requires RowsOf(parser[i], ntokens, defred[i], values, froms[i], tos[i], froms[|parser| + i], tos[|parser| + i], row)
    ensures RowsDone(parser, ntokens, defred, values, i + 1, froms, tos)
  {
    hide RowsOf;
    var next := i + 1;
    forall p: nat | p < next
      ensures RowVectors(parser[p], ntokens, defred[p], values, froms[p], tos[p], froms[|parser| + p], tos[|parser| + p])
    {
      if p < i {
        assert froms[|parser| + p] == froms0[|parser| + p] && tos[|parser| + p] == tos0[|parser| + p];
      }
    }
  }

  method TokenActions(vt: VectorTable, parser: seq<seq<Action>>, ntokens: nat, defred: seq<nat>, values: seq<nat>)
    requires vt.Valid() && |values| == ntokens && TokenValues(values) && |defred| == |parser|
    requires forall p: nat :: p < |parser| ==> Decided(parser[p], ntokens)
    requires 2 * |parser| <= vt.froms.Length && forall v: nat :: v < vt.froms.Length ==> vt.froms[v] == [] && vt.tos[v] == []
    modifies vt.froms, vt.tos, vt.tally, vt.width
    ensures vt.Valid() && RowsDone(parser, ntokens, defred, values, |parser|, vt.froms[..], vt.tos[..])
  {
    hide VectorsOk, RowVectors, Decided;
    var i: nat := 0;
    while i < |parser|
      invariant i <= |parser| && vt.Valid() && RowsDone(parser, ntokens, defred, values, i, vt.froms[..], vt.tos[..])
    {
      TokenActionsOf(vt, parser, ntokens, defred, values, i);
      i := i + 1;
    }
  }

  // ---------------------------------------------------------------------------------
  // The columns.

  /** The column of variable ntokens + v, and the default that goes with it. */
  ghost predicate ColumnDone(gotoMap: seq<nat>, fromState: seq<nat>, toState: seq<nat>, v: nat, dgoto: nat,
                             from: seq<nat>, to: seq<int>)
  {
    && v + 1 < |gotoMap| && gotoMap[v] <= gotoMap[v+1] <= |fromState| == |toState|
    && IsDefault(toState[gotoMap[v]..gotoMap[v+1]], dgoto)
    && ColumnOf(fromState[gotoMap[v]..gotoMap[v+1]], toState[gotoMap[v]..gotoMap[v+1]], dgoto,
                gotoMap[v+1] - gotoMap[v], from, to)
  }

  /** The columns of the first n variables behind $accept are done; column k belongs to variable ntokens + 1 + k. */
  ghost predicate ColumnsDone(gotoMap: seq<nat>, fromState: seq<nat>, toState: seq<nat>, rows: nat, n: nat, dgoto: seq<nat>,
                              froms: seq<seq<nat>>, tos: seq<seq<int>>)
  {
    && n <= |dgoto| && rows + n <= |froms| == |tos|
    && (forall k: nat :: k < n ==>
          ColumnDone(gotoMap, fromState, toState, k + 1, dgoto[k], froms[rows + k], tos[rows + k]))
    && (forall v: nat :: rows + n <= v < |froms| ==> froms[v] == [] && tos[v] == [])
  }

  /** The transitions of a variable stand together, by ascending source. */
  lemma GotoSlice(a: Automaton, gotoMap: seq<nat>, fromState: seq<nat>, toState: seq<nat>, v: nat)
    requires IsGotoMap(a, gotoMap, fromState, toState) && v < Nvars(a.g)
    ensures v + 1 < |gotoMap| && gotoMap[v] <= gotoMap[v+1] <= |fromState| == |toState|
    ensures Columns.Ascending(fromState[gotoMap[v]..gotoMap[v+1]])
    ensures forall k :: gotoMap[v] <= k < gotoMap[v+1] ==> 0 < toState[k] < |a.kernels|
  {
    hide IsLr0, Trans, Layout.Laid;
    SameSizes(a);
    BasedRoom(a, gotoMap, v);
    if gotoMap[v] < gotoMap[v+1] {
      MapEntry(a, gotoMap, fromState, toState, v, gotoMap[v+1] - 1);
    } else {
      GotoEnd(a, gotoMap, fromState, toState, v);
    }
    hide IsGotoMap;
    var slice := fromState[gotoMap[v]..gotoMap[v+1]];
    forall k, l | 0 <= k < l < |slice| ensures slice[k] < slice[l] {
      MapEntry(a, gotoMap, fromState, toState, v, gotoMap[v] + l);
      assert fromState[gotoMap[v] + k] < fromState[gotoMap[v] + l];
    }
    forall k: nat | gotoMap[v] <= k < gotoMap[v+1] ensures 0 < toState[k] < |a.kernels| {
      MapEntry(a, gotoMap, fromState, toState, v, k);
      TransSymbol(a, fromState[k], a.g.ntokens + v, toState[k]);
    }
  }

  lemma GotoEnd(a: Automaton, gotoMap: seq<nat>, fromState: seq<nat>, toState: seq<nat>, v: nat)
    requires IsGotoMap(a, gotoMap, fromState, toState) && v < Nvars(a.g)
    ensures |gotoMap| == Nvars(a.g) + 1 && gotoMap[v+1] <= |fromState| == |toState|
  {
    Layout.BasesAscend(Pairs(fromState, toState), gotoMap, GotosBelow(a, |a.kernels|), v + 1, Nvars(a.g));
  }

  method GotoColumn(a: Automaton, gotoMap: seq<nat>, fromState: seq<nat>, toState: seq<nat>, vt: VectorTable, k: nat)
      returns (defaultState: nat)
    requires IsGotoMap(a, gotoMap, fromState, toState) && vt.Valid() && k + 1 < Nvars(a.g)
    requires vt.rows + k < vt.froms.Length && vt.froms[vt.rows + k] == [] && vt.tos[vt.rows + k] == []
    modifies vt.froms, vt.tos, vt.tally, vt.width
    ensures vt.Valid()
    ensures ColumnDone(gotoMap, fromState, toState, k + 1, defaultState, vt.froms[vt.rows + k], vt.tos[vt.rows + k])
    ensures forall u: nat :: u < vt.froms.Length && u != vt.rows + k ==> vt.froms[u] == old(vt.froms[u]) && vt.tos[u] == old(vt.tos[u])
  {
    hide IsLr0, RawGrammar.Valid, IsGotoMap, VectorsOk, Width, ColumnOf, IsDefault;
    GotoSlice(a, gotoMap, fromState, toState, k + 1);
    var m, n := gotoMap[k+1], gotoMap[k+2];
    defaultState := DefaultGoto(toState[m..n], |a.kernels|);
    var from, to, w := SaveColumn(fromState[m..n], toState[m..n], defaultState);
    ColumnAscends(fromState[m..n], toState[m..n], defaultState, from, to);
    if |from| > 0 {
      vt.Save(vt.rows + k, from, to, w);
    }
  }

  method GotoActions(a: Automaton, gotoMap: seq<nat>, fromState: seq<nat>, toState: seq<nat>, vt: VectorTable)
      returns (dgoto: seq<nat>)
    requires IsGotoMap(a, gotoMap, fromState, toState) && vt.Valid() && vt.froms.Length == vt.rows + Nvars(a.g)
    requires forall v: nat :: vt.rows <= v < vt.froms.Length ==> vt.froms[v] == [] && vt.tos[v] == []
    modifies vt.froms, vt.tos, vt.tally, vt.width
    ensures vt.Valid() && |dgoto| + 1 == Nvars(a.g)
    ensures ColumnsDone(gotoMap, fromState, toState, vt.rows, |dgoto|, dgoto, vt.froms[..], vt.tos[..])
    ensures forall u: nat :: u < vt.rows ==> vt.froms[u] == old(vt.froms[u]) && vt.tos[u] == old(vt.tos[u])
  {
    hide IsLr0, RawGrammar.Valid, IsGotoMap, VectorsOk, ColumnDone, Nvars;
    NvarsPositive(a.g);
    dgoto := [];
    var k: nat := 0;
    while k + 1 < Nvars(a.g)
      invariant k < Nvars(a.g) && |dgoto| == k && vt.Valid()
      invariant ColumnsDone(gotoMap, fromState, toState, vt.rows, k, dgoto, vt.froms[..], vt.tos[..])
      invariant forall u: nat :: u < vt.rows ==> vt.froms[u] == old(vt.froms[u]) && vt.tos[u] == old(vt.tos[u])
    {
      ghost var froms0, tos0 := vt.froms[..], vt.tos[..];
      assert vt.froms[vt.rows + k] == froms0[vt.rows + k] && vt.tos[vt.rows + k] == tos0[vt.rows + k];
      var d := GotoColumn(a, gotoMap, fromState, toState, vt, k);
      ColumnsNext(gotoMap, fromState, toState, vt.rows, k, dgoto, d, froms0, tos0, vt.froms[..], vt.tos[..]);
      dgoto := dgoto + [d];
      k := k + 1;
    }
  }

  lemma NvarsPositive(g: Grammar)
    ensures Nvars(g) >= 2
  {
  }

  lemma ColumnsNext(gotoMap: seq<nat>, fromState: seq<nat>, toState: seq<nat>, rows: nat, k: nat, dgoto: seq<nat>, d: nat,
                    froms0: seq<seq<nat>>, tos0: seq<seq<int>>, froms: seq<seq<nat>>, tos: seq<seq<int>>)
    requires ColumnsDone(gotoMap, fromState, toState, rows, k, dgoto, froms0, tos0) && |dgoto| == k
    requires rows + k < |froms| == |froms0| && |tos| == |tos0|
    requires forall u: nat :: u < |froms| && u != rows + k ==> froms[u] == froms0[u] && tos[u] == tos0[u]
    requires ColumnDone(gotoMap, fromState, toState, k + 1, d, froms[rows + k], tos[rows + k])
    ensures ColumnsDone(gotoMap, fromState, toState, rows, k + 1, dgoto + [d], froms, tos)
  {
    hide ColumnDone;
    var next, dgoto' := k + 1, dgoto + [d];
    forall l: nat | l < next
      ensures ColumnDone(gotoMap, fromState, toState, l + 1, dgoto'[l], froms[rows + l], tos[rows + l])
    {
      if l < k {
        assert ColumnDone(gotoMap, fromState, toState, l + 1, dgoto[l], froms0[rows + l], tos0[rows + l]);
        assert froms[rows + l] == froms0[rows + l] && tos[rows + l] == tos0[rows + l];
      }
    }
  }

  // ---------------------------------------------------------------------------------
  // All tables.

  /** What output() writes: the bases of the vectors (yySindex, yyRindex, yyGindex one after the other), the default
      gotos, the default reductions, and the table with its check column up to its highest entry. */
  datatype Tables = Tables(base: seq<int>, dgoto: seq<nat>, yydefred: seq<nat>, table: seq<int>, check: seq<int>, high: nat)

  /** jay/output.c, output_yydefred: rules are numbered from 1 in the generated parser, and 0 means none. */
  function DefRed(d: nat): (r: nat)
    ensures d >= 3 ==> r > 0 && r + 2 == d
    ensures d == 0 ==> r == 0
  {
    if d > 2 then d - 2 else 0
  }

  method OutputDefred(defred: seq<nat>) returns (yydefred: seq<nat>)
    ensures |yydefred| == |defred| && forall p: nat :: p < |defred| ==> yydefred[p] == DefRed(defred[p])
  {
    yydefred := [];
    for i := 0 to |defred|
      invariant |yydefred| == i && forall p: nat :: p < i ==> yydefred[p] == DefRed(defred[p])
    {
      yydefred := yydefred + [DefRed(defred[i])];
    }
  }

  /** vs holds the rows of all states and the columns of all variables. */
  ghost predicate AreVectors(a: Automaton, gotoMap: seq<nat>, fromState: seq<nat>, toState: seq<nat>,
                             parser: seq<seq<Action>>,
                             defred: seq<nat>, values: seq<nat>, vs: Vectors, dgoto: seq<nat>)
  {
    && |parser| == |a.kernels| && vs.rows == 2 * |parser| && |vs.froms| == vs.rows + Nvars(a.g)
    && VectorsOk(vs)
    && RowsDone(parser, a.g.ntokens, defred, values, |parser|, vs.froms[..vs.rows], vs.tos[..vs.rows])
    && |dgoto| + 1 == Nvars(a.g)
    && ColumnsDone(gotoMap, fromState, toState, vs.rows, |dgoto|, dgoto, vs.froms, vs.tos)
  }

  /** Packing them in order comes to a vector that finds no room. */
  ghost predicate Overflows(vs: Vectors)
  {
    exists order, pos :: IsOrder(vs, |vs.froms|, order) && Stuck(vs, order, pos)
  }

  ghost predicate IsTables(a: Automaton, gotoMap: seq<nat>, fromState: seq<nat>, toState: seq<nat>, parser: seq<seq<Action>>,
                           defred: seq<nat>, values: seq<nat>, vs: Vectors, t: Tables)
  {
    && AreVectors(a, gotoMap, fromState, toState, parser, defred, values, vs, t.dgoto)
    && |t.yydefred| == |defred| && (forall p: nat :: p < |defred| ==> t.yydefred[p] == DefRed(defred[p]))
    && TableOk(vs, t.base, t.table, t.check, t.high)
  }

  lemma RowsPrefix(parser: seq<seq<Action>>, ntokens: nat, defred: seq<nat>, values: seq<nat>,
                   froms: seq<seq<nat>>, tos: seq<seq<int>>, froms': seq<seq<nat>>, tos': seq<seq<int>>)
    requires RowsDone(parser, ntokens, defred, values, |parser|, froms, tos)
    requires 2 * |parser| == |froms'| == |tos'| <= |froms|
    requires forall u: nat :: u < |froms'| ==> froms'[u] == froms[u] && tos'[u] == tos[u]
    ensures RowsDone(parser, ntokens, defred, values, |parser|, froms', tos')
  {
    hide RowVectors;
    forall p: nat | p < |parser|
      ensures RowVectors(parser[p], ntokens, defred[p], values, froms'[p], tos'[p], froms'[|parser| + p], tos'[|parser| + p])
    {
      assert froms'[|parser| + p] == froms[|parser| + p] && tos'[|parser| + p] == tos[|parser| + p];
    }
  }

  method OutputActions(a: Automaton, gotoMap: seq<nat>, fromState: seq<nat>, toState: seq<nat>, parser: seq<seq<Action>>,
                        defred: seq<nat>, values: seq<nat>) returns (ok: bool, vs: Vectors, t: Tables)
    requires IsGotoMap(a, gotoMap, fromState, toState) && |parser| == |a.kernels| == |defred|
    requires |values| == a.g.ntokens && TokenValues(values)
    requires forall p: nat :: p < |parser| ==> Decided(parser[p], a.g.ntokens)
    ensures AreVectors(a, gotoMap, fromState, toState, parser, defred, values, vs, t.dgoto)
    ensures if ok then IsTables(a, gotoMap, fromState, toState, parser, defred, values, vs, t) else Overflows(vs)
    ensures Roomy(vs) ==> ok
  {
    hide IsLr0, RawGrammar.Valid, IsGotoMap, VectorsOk, IsOrder, Packed, Stuck, BasesOk, FullBelow, RowVectors,
      ColumnDone, Nvars, Decided, TableOk, Roomy;
    var nstates := |parser|;
    var vt := new VectorTable(2 * nstates + Nvars(a.g), 2 * nstates);
    TokenActions(vt, parser, a.g.ntokens, defred, values);
    ghost var froms0, tos0 := vt.froms[..], vt.tos[..];
    assert forall v: nat :: v < |froms0| ==> vt.froms[v] == froms0[v] && vt.tos[v] == tos0[v];
    var dgoto := GotoActions(a, gotoMap, fromState, toState, vt);
    vs := vt.Value();
    RowsPrefix(parser, a.g.ntokens, defred, values, froms0, tos0, vs.froms[..vs.rows], vs.tos[..vs.rows]);
    var yydefred := OutputDefred(defred);
    var order := SortActions(vs);
    var packer := new Packer(vs, order);
    ok := packer.PackTable();
    t := Tables(packer.base, dgoto, yydefred, packer.table, packer.check, packer.high);
    if ok {
      PackedIsTable(vs, order, packer.pos, packer.base, packer.table, packer.check, packer.high);
    } else {
      RoomyPacks(vs, order, packer.pos);
    }
  }
}
