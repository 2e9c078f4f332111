/** The rows of token actions (jay/output.c, token_actions). */
module TokenRows {
  import opened Actions
  import opened Packing

  const MAXSHORT: nat := 32767

  /** Action e is taken: it was not suppressed. */
  ghost predicate Live(list: seq<Action>, e: Action)
  {
    e in list && e.suppressed == 0
  }

  /** A list of which at most one action per token is taken, with numbers that are not 0. */
  ghost predicate Decided(list: seq<Action>, ntokens: nat)
  {
    && (forall e :: e in list ==> e.symbol < ntokens && e.number > 0)
    && (forall k, l :: 0 <= k < l < |list| && list[k].suppressed == 0 && list[l].suppressed == 0 ==>
          list[k].symbol != list[l].symbol)
  }

  /** Action e is taken and is written to slot j of the action row. */
  ghost predicate IsSlot(e: Action, ntokens: nat, defred: nat, j: nat)
  {
    e.suppressed == 0 && if e.code == Shift then j == e.symbol else e.number != defred && j == e.symbol + ntokens
  }

  /** e is one of the first n actions and belongs into slot j. */
  ghost predicate WrittenAt(list: seq<Action>, ntokens: nat, defred: nat, n: nat, j: nat, e: Action)
  {
    n <= |list| && e in list[..n] && IsSlot(e, ntokens, defred, j)
  }

  lemma WrittenMore(list: seq<Action>, ntokens: nat, defred: nat, n: nat, j: nat, e: Action)
    requires n < |list|
    ensures WrittenAt(list, ntokens, defred, n + 1, j, e) <==>
              WrittenAt(list, ntokens, defred, n, j, e) || (e == list[n] && IsSlot(e, ntokens, defred, j))
  {
    assert list[..n+1] == list[..n] + [list[n]];
  }

  ghost predicate RowOk(list: seq<Action>, ntokens: nat, defred: nat, n: nat, row: seq<nat>)
  {
    && |row| == 2 * ntokens
    && forall j: nat :: j < |row| ==> SlotOk(list, ntokens, defred, n, j, row[j])
  }

  /** The slot holds the number of the action written there, or 0. */
  ghost predicate SlotOk(list: seq<Action>, ntokens: nat, defred: nat, n: nat, j: nat, x: nat)
  {
    if x == 0 then forall e :: !WrittenAt(list, ntokens, defred, n, j, e)
    else exists e :: WrittenAt(list, ntokens, defred, n, j, e) && e.number == x
  }

  ghost function Nonzero(s: seq<nat>): (n: nat)
    ensures n <= |s|
  {
    if s == [] then 0 else Nonzero(s[..|s|-1]) + if s[|s|-1] != 0 then 1 else 0
  }

  lemma {:induction false} NonzeroUpdate(s: seq<nat>, k: nat, x: nat)
    requires k < |s| && s[k] == 0 && x != 0
    ensures Nonzero(s[k := x]) == Nonzero(s) + 1
    decreases |s|
  {
    var front := s[..|s|-1];
    if k < |s| - 1 {
      NonzeroUpdate(front, k, x);
      assert s[k := x][..|s|-1] == front[k := x];
    } else {
      assert s[k := x][..|s|-1] == front;
    }
  }

  lemma {:induction false} NonzeroNone(s: seq<nat>)
    requires forall k :: 0 <= k < |s| ==> s[k] == 0
    ensures Nonzero(s) == 0
  {
    if s != [] { NonzeroNone(s[..|s|-1]); }
  }

  /** Action n is taken: its slot was free. */
  lemma RowNext(list: seq<Action>, ntokens: nat, defred: nat, n: nat, row: seq<nat>, j: nat)
    requires Decided(list, ntokens) && n < |list| && RowOk(list, ntokens, defred, n, row)
    requires IsSlot(list[n], ntokens, defred, j)
    ensures j < |row| && row[j] == 0 && RowOk(list, ntokens, defred, n + 1, row[j := list[n].number])
  {
    hide SlotOk;
    DecidedBound(list, ntokens, n);
    SlotWasFree(list, ntokens, defred, n, j, row[j]);
    var row', next := row[j := list[n].number], n + 1;
    forall i: nat | i < |row'| ensures SlotOk(list, ntokens, defred, next, i, row'[i]) {
      assert SlotOk(list, ntokens, defred, n, i, row[i]);
      SlotNext(list, ntokens, defred, n, i, row[i], row'[i]);
    }
  }

  lemma SlotWasFree(list: seq<Action>, ntokens: nat, defred: nat, n: nat, j: nat, x: nat)
    requires Decided(list, ntokens) && n < |list| && SlotOk(list, ntokens, defred, n, j, x)
    requires IsSlot(list[n], ntokens, defred, j)
    ensures x == 0
  {
    forall f ensures !WrittenAt(list, ntokens, defred, n, j, f) {
      NotWritten(list, ntokens, defred, n, j, f);
    }
  }

  lemma NotWritten(list: seq<Action>, ntokens: nat, defred: nat, n: nat, j: nat, f: Action)
    requires Decided(list, ntokens) && n < |list| && IsSlot(list[n], ntokens, defred, j)
    ensures !WrittenAt(list, ntokens, defred, n, j, f)
  {
    if f in list[..n] {
      var k :| 0 <= k < n && list[k] == f;
      DecidedBound(list, ntokens, k);
      DecidedBound(list, ntokens, n);
    }
  }

  lemma SlotNext(list: seq<Action>, ntokens: nat, defred: nat, n: nat, i: nat, x: nat, y: nat)
    requires n < |list| && SlotOk(list, ntokens, defred, n, i, x)
    requires if IsSlot(list[n], ntokens, defred, i) then y == list[n].number > 0 else y == x
    ensures SlotOk(list, ntokens, defred, n + 1, i, y)
  {
    hide IsSlot;
    forall f ensures WrittenAt(list, ntokens, defred, n + 1, i, f) <==>
      WrittenAt(list, ntokens, defred, n, i, f) || (f == list[n] && IsSlot(f, ntokens, defred, i))
    {
      WrittenMore(list, ntokens, defred, n, i, f);
    }
    hide WrittenAt;
  }

  /** Action n is not written. */
  lemma RowSkip(list: seq<Action>, ntokens: nat, defred: nat, n: nat, row: seq<nat>)
    requires n < |list| && RowOk(list, ntokens, defred, n, row)
    requires list[n].suppressed != 0 || (list[n].code == Reduce && list[n].number == defred)
    ensures RowOk(list, ntokens, defred, n + 1, row)
  {
    hide SlotOk;
    var next := n + 1;
    forall j: nat | j < |row| ensures SlotOk(list, ntokens, defred, next, j, row[j]) {
      assert SlotOk(list, ntokens, defred, n, j, row[j]);
      SlotNext(list, ntokens, defred, n, j, row[j], row[j]);
    }
  }

  lemma RowEmpty(list: seq<Action>, ntokens: nat, defred: nat, row: seq<nat>)
    requires |row| == 2 * ntokens && forall j :: 0 <= j < |row| ==> row[j] == 0
    ensures RowOk(list, ntokens, defred, 0, row)
  {
  }

  /** The action row of one state, and how many shifts and reductions it holds. */
  method ActionRow(list: seq<Action>, ntokens: nat, defred: nat) returns (actionrow: seq<nat>, shiftcount: nat,
                   reducecount: nat)
    requires Decided(list, ntokens)
    ensures RowOk(list, ntokens, defred, |list|, actionrow)
    ensures shiftcount == Nonzero(actionrow[..ntokens]) && reducecount == Nonzero(actionrow[ntokens..])
  {
    hide Decided, RowOk, Nonzero;
    var row := new nat[2 * ntokens](_ => 0);
    shiftcount, reducecount := 0, 0;
    RowEmpty(list, ntokens, defred, row[..]);
    NonzeroNone(row[..][..ntokens]);
    NonzeroNone(row[..][ntokens..]);
    var p: nat := 0;
    while p < |list|
      invariant p <= |list| && RowOk(list, ntokens, defred, p, row[..])
      invariant shiftcount == Nonzero(row[..][..ntokens]) && reducecount == Nonzero(row[..][ntokens..])
    {
      ghost var was := row[..];
      if list[p].suppressed == 0 {
        if list[p].code == Shift {
          DecidedBound(list, ntokens, p);
          RowNext(list, ntokens, defred, p, was, list[p].symbol);
          NonzeroUpdate(was[..ntokens], list[p].symbol, list[p].number);
          shiftcount := shiftcount + 1;
          row[list[p].symbol] := list[p].number;
          assert row[..][..ntokens] == was[..ntokens][list[p].symbol := list[p].number] && row[..][ntokens..] == was[ntokens..];
        } else if list[p].number != defred {
          DecidedBound(list, ntokens, p);
          RowNext(list, ntokens, defred, p, was, list[p].symbol + ntokens);
          NonzeroUpdate(was[ntokens..], list[p].symbol, list[p].number);
          reducecount := reducecount + 1;
          row[list[p].symbol + ntokens] := list[p].number;
          assert row[..][ntokens..] == was[ntokens..][list[p].symbol := list[p].number] && row[..][..ntokens] == was[..ntokens];
        } else {
          RowSkip(list, ntokens, defred, p, was);
        }
      } else {
        RowSkip(list, ntokens, defred, p, was);
      }
      p := p + 1;
    }
    actionrow := row[..];
  }

  lemma DecidedBound(list: seq<Action>, ntokens: nat, p: nat)
    requires Decided(list, ntokens) && p < |list|
    ensures list[p].symbol < ntokens && list[p].number > 0
  {
    assert list[p] in list;
  }

  // ---------------------------------------------------------------------------------

  /** The token values are distinct shorts. */
  ghost predicate TokenValues(values: seq<nat>)
  {
    && (forall j :: 0 <= j < |values| ==> values[j] <= MAXSHORT)
    && (forall j, k :: 0 <= j < k < |values| ==> values[j] != values[k])
  }

  /** The vector of a half row: the values of the tokens whose slot is not 0, and the slots less `less`. */
  ghost predicate VectorOf(row: seq<nat>, values: seq<nat>, less: nat, n: nat, from: seq<nat>, to: seq<int>)
  {
    && n <= |row| == |values| && |from| == |to| == Nonzero(row[..n])
    && (forall k :: 0 <= k < |from| ==> EntryOf(row, values, less, n, from[k], to[k]))
    && (forall j :: 0 <= j < n && row[j] != 0 ==> values[j] in from)
    && (forall k, l :: 0 <= k < l < |from| ==> from[k] != from[l])
  }

  ghost predicate EntryOf(row: seq<nat>, values: seq<nat>, less: nat, n: nat, c: nat, x: int)
  {
    exists j :: 0 <= j < n && j < |row| && j < |values| && row[j] != 0 && values[j] == c && x == row[j] - less
  }

  lemma VectorNext(row: seq<nat>, values: seq<nat>, less: nat, n: nat, from: seq<nat>, to: seq<int>)
    requires TokenValues(values) && VectorOf(row, values, less, n, from, to) && n < |row|
    ensures if row[n] != 0 then VectorOf(row, values, less, n + 1, from + [values[n]], to + [row[n] - less])
            else VectorOf(row, values, less, n + 1, from, to)
  {
    assert row[..n+1][..n] == row[..n];
    var from' := if row[n] != 0 then from + [values[n]] else from;
    var to': seq<int> := if row[n] != 0 then to + [row[n] - less] else to;
    forall k | 0 <= k < |from'| ensures EntryOf(row, values, less, n + 1, from'[k], to'[k]) {
      if k < |from| {
        assert EntryOf(row, values, less, n, from[k], to[k]);
      }
    }
    forall k | 0 <= k < |from| ensures from[k] != values[n] {
      assert EntryOf(row, values, less, n, from[k], to[k]);
    }
  }

  lemma {:induction false} LeastNext(s: seq<nat>, x: nat)
    ensures Least(s + [x]) == if s == [] || x < Least(s) then x else Least(s)
    ensures Greatest(s + [x]) == if s == [] || x > Greatest(s) then x else Greatest(s)
  {
    assert (s + [x])[..|s|] == s;
  }

  /** Collect the vector of a half row, with its width. */
  method TokenVector(row: seq<nat>, values: seq<nat>, less: nat, count: nat) returns (from: seq<nat>, to: seq<int>,
                     width: nat)
    requires |row| == |values| && TokenValues(values) && count == Nonzero(row) > 0
    ensures VectorOf(row, values, less, |row|, from, to) && |from| == count
    ensures from != [] && width == Width(from)
  {
    hide Nonzero, VectorOf, Least, Greatest;
    from, to := [], [];
    var min: nat, max: nat := MAXSHORT, 0;
    VectorNone(row, values, less);
    var j: nat := 0;
    while j < |row|
      invariant j <= |row| && VectorOf(row, values, less, j, from, to)
      invariant from == [] ==> min == MAXSHORT && max == 0
      invariant from != [] ==> min == Least(from) && max == Greatest(from) && min <= max
    {
      VectorNext(row, values, less, j, from, to);
      if row[j] != 0 {
        if min > values[j] { min := values[j]; }
        if max < values[j] { max := values[j]; }
        LeastNext(from, values[j]);
        from := from + [values[j]];
        to := to + [row[j] - less];
      }
      j := j + 1;
    }
    VectorSize(row, values, less, from, to);
    width := max - min + 1;
  }

  lemma VectorNone(row: seq<nat>, values: seq<nat>, less: nat)
    requires |row| == |values|
    ensures VectorOf(row, values, less, 0, [], [])
  {
  }

  lemma VectorSize(row: seq<nat>, values: seq<nat>, less: nat, from: seq<nat>, to: seq<int>)
    requires VectorOf(row, values, less, |row|, from, to)
    ensures |from| == |to| == Nonzero(row)
  {
    assert row[..|row|] == row;
  }

  /** Looking for the value of token j in the vector. */
  lemma VectorEntry(row: seq<nat>, values: seq<nat>, less: nat, from: seq<nat>, to: seq<int>, j: nat)
    requires TokenValues(values) && VectorOf(row, values, less, |row|, from, to) && j < |row|
    ensures values[j] in from <==> row[j] != 0
    ensures forall k :: 0 <= k < |from| && from[k] == values[j] ==> to[k] == row[j] - less
  {
    forall k | 0 <= k < |from| && from[k] == values[j] ensures to[k] == row[j] - less && row[j] != 0 {
      assert EntryOf(row, values, less, |row|, from[k], to[k]);
    }
  }
}
