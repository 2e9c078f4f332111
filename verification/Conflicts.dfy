/** Conflict resolution (jay/mkpar.c, remove_conflicts, sole_reduction). */
module Conflicts {
  import opened Actions

  /** Who wins between a shift and a reduction on one symbol, by their precedences. */
  datatype Verdict = Unknown | ShiftWins | ReduceWins | Neither

  /** The rule of the POSIX yacc utility: without two precedences nothing is known; the higher one wins; on a tie,
      left associativity reduces, right associativity shifts, and otherwise the symbol is an error. */
  ghost function Contest(shift: Action, reduce: Action): Verdict
  {
    if shift.prec <= 0 || reduce.prec <= 0 then Unknown
    else if shift.prec < reduce.prec then ReduceWins
    else if shift.prec > reduce.prec then ShiftWins
    else if shift.assoc == Left then ReduceWins
    else if shift.assoc == Right then ShiftWins
    else Neither
  }

  /** A list as parse_actions leaves it: sorted, with at most one shift per symbol and nothing suppressed. */
  ghost predicate Fresh(list: seq<Action>)
  {
    && Sorted(list)
    && (forall k, l :: 0 <= k < l < |list| && list[k].symbol == list[l].symbol ==> list[l].code == Reduce)
    && (forall k :: 0 <= k < |list| ==> list[k].suppressed == 0)
  }

  /** The first action of the list on the symbol of action k. */
  ghost function Lead(list: seq<Action>, k: nat): (s: nat)
    requires k < |list|
    ensures s <= k && list[s].symbol == list[k].symbol && (s == 0 || list[s-1].symbol != list[s].symbol)
    ensures forall l :: s <= l <= k ==> list[l].symbol == list[k].symbol
  {
    if k == 0 || list[k-1].symbol != list[k].symbol then k else Lead(list, k - 1)
  }

  /** Among the actions behind s and below n, one wins against the shift s, or draws. */
  ghost predicate Won(list: seq<Action>, s: nat, n: nat)
  {
    exists r :: s < r < n && r < |list| && Beats(list, s, r, ReduceWins)
  }

  ghost predicate Drew(list: seq<Action>, s: nat, n: nat)
  {
    exists r :: s < r < n && r < |list| && Beats(list, s, r, Neither)
  }

  ghost predicate Beats(list: seq<Action>, s: nat, r: nat, verdict: Verdict)
  {
    s < |list| && r < |list| && list[r].symbol == list[s].symbol && Contest(list[s], list[r]) == verdict
  }

  /** What becomes of action k when the actions below n have been looked at. */
  ghost function Outcome(list: seq<Action>, final: bool, k: nat, n: nat): nat
    requires k < |list|
  {
    var s := Lead(list, k);
    if (final && list[k].symbol == 0) || list[s].code == Reduce then (if k == s then 0 else 1)
    else if k == s then (if Won(list, s, n) || Drew(list, s, n) then 2 else 0)
    else if Won(list, s, k) then 1
    else
      match Contest(list[s], list[k])
      case Unknown => 1
      case ReduceWins => 0
      case ShiftWins => 2
      case Neither => 2
  }

  /** Nothing but the suppression differs. */
  ghost predicate Same(e: Action, e': Action)
  {
    e'.(suppressed := 0) == e.(suppressed := 0)
  }

  /** The list with its conflicts resolved. */
  ghost predicate Resolved(list: seq<Action>, final: bool, n: nat, list': seq<Action>)
  {
    && |list'| == |list| && n <= |list|
    && forall k: nat :: k < |list| ==>
         Same(list[k], list'[k]) && list'[k].suppressed == if k < n then Outcome(list, final, k, n) else 0
  }

  /** The number of actions that lost a conflict that is reported. */
  ghost function Reported(list: seq<Action>): nat
  {
    if list == [] then 0 else Reported(list[..|list|-1]) + if list[|list|-1].suppressed == 1 then 1 else 0
  }

  lemma {:induction false} ReportedUpdate(list: seq<Action>, k: nat, e: Action)
    requires k < |list|
    ensures Reported(list[k := e]) + (if list[k].suppressed == 1 then 1 else 0)
         == Reported(list) + (if e.suppressed == 1 then 1 else 0)
    decreases |list|
  {
    var front := list[..|list|-1];
    if k < |list| - 1 {
      ReportedUpdate(front, k, e);
      assert list[k := e][..|list|-1] == front[k := e];
    } else {
      assert list[k := e][..|list|-1] == front;
    }
  }

  lemma {:induction false} ReportedNone(list: seq<Action>)
    requires forall k :: 0 <= k < |list| ==> list[k].suppressed == 0
    ensures Reported(list) == 0
  {
    if list != [] {
      ReportedNone(list[..|list|-1]);
    }
  }

  // ---------------------------------------------------------------------------------
  // What the outcome means.

  lemma LeadIsFirst(list: seq<Action>, k: nat, l: nat)
    requires Fresh(list) && k < |list| && l < |list| && list[k].symbol == list[l].symbol
    ensures Lead(list, k) == Lead(list, l)
    ensures Lead(list, k) != l ==> list[l].code == Reduce
  {
    LeadBelow(list, Lead(list, k), l);
    LeadBelow(list, Lead(list, l), k);
  }

  lemma SymbolsAscend(list: seq<Action>, k: nat, l: nat)
    requires Fresh(list) && k <= l < |list|
    ensures list[k].symbol <= list[l].symbol
  {
    assert k < l ==> Less(list[k], list[l]);
  }

  lemma SmallerBelow(list: seq<Action>, l: nat, s: nat)
    requires Fresh(list) && l < s < |list| && list[s-1].symbol != list[s].symbol
    ensures list[l].symbol < list[s].symbol
  {
    SymbolsAscend(list, l, s - 1);
    SymbolsAscend(list, s - 1, s);
  }

  lemma {:induction false} LeadReaches(list: seq<Action>, s: nat, l: nat)
    requires Fresh(list) && s <= l < |list| && list[s].symbol == list[l].symbol
    ensures Lead(list, l) <= s
    decreases l
  {
    hide Fresh;
    if s < l {
      SymbolsAscend(list, s, l - 1);
      SymbolsAscend(list, l - 1, l);
      LeadReaches(list, s, l - 1);
    }
  }

  lemma LeadBelow(list: seq<Action>, s: nat, l: nat)
    requires Fresh(list) && s < |list| && l < |list| && list[s].symbol == list[l].symbol
    requires s == 0 || list[s-1].symbol != list[s].symbol
    ensures s <= l && s == Lead(list, l)
  {
    hide Fresh;
    if l < s {
      SmallerBelow(list, l, s);
    }
    LeadReaches(list, s, l);
  }

  /** At most one action on a symbol stays. */
  lemma OneStays(list: seq<Action>, final: bool, k: nat, l: nat)
    requires Fresh(list) && k < l < |list| && list[k].symbol == list[l].symbol
    ensures Outcome(list, final, k, |list|) != 0 || Outcome(list, final, l, |list|) != 0
  {
    LeadIsFirst(list, k, l);
    var s := Lead(list, k);
    if Contest(list[s], list[k]) == ReduceWins && s < k {
      assert Beats(list, s, k, ReduceWins);
    }
    if Contest(list[s], list[l]) == ReduceWins {
      assert Beats(list, s, l, ReduceWins);
    }
  }

  /** The first reduction that wins against the shift s. */
  lemma {:induction false} FirstWinner(list: seq<Action>, s: nat, n: nat) returns (r: nat)
    requires Won(list, s, n)
    ensures s < r < n && r < |list| && Beats(list, s, r, ReduceWins) && !Won(list, s, r)
    decreases n
  {
    r :| s < r < n && r < |list| && Beats(list, s, r, ReduceWins);
    if Won(list, s, r) {
      r := FirstWinner(list, s, r);
    }
  }

  /** The shift s decides about its symbol, and nobody is left. */
  ghost predicate Stalemate(list: seq<Action>, final: bool, s: nat)
    requires s < |list|
  {
    !(final && list[s].symbol == 0) && list[s].code == Shift && Drew(list, s, |list|) && !Won(list, s, |list|)
  }

  lemma StalemateLoses(list: seq<Action>, final: bool, l: nat)
    requires Fresh(list) && l < |list| && Stalemate(list, final, Lead(list, l))
    ensures Outcome(list, final, l, |list|) != 0
  {
    var s := Lead(list, l);
    assert s < l ==> Beats(list, s, l, Contest(list[s], list[l]));
  }

  lemma SomeoneStays(list: seq<Action>, final: bool, s: nat) returns (l: nat)
    requires Fresh(list) && s < |list| && s == Lead(list, s) && !Stalemate(list, final, s)
    ensures l < |list| && list[l].symbol == list[s].symbol && Outcome(list, final, l, |list|) == 0
  {
    hide Fresh, Drew;
    l := s;
    if !(final && list[s].symbol == 0) && list[s].code == Shift && Won(list, s, |list|) {
      l := FirstWinner(list, s, |list|);
      SameLead(list, s, l);
    }
  }

  lemma SameLead(list: seq<Action>, k: nat, l: nat)
    requires Fresh(list) && k < |list| && l < |list| && list[k].symbol == list[l].symbol
    ensures Lead(list, k) == Lead(list, l)
  {
    LeadIsFirst(list, k, l);
  }

  /** No action on the symbol of action k stays exactly if its shift drew against a reduction and lost to none. */
  lemma NoneStays(list: seq<Action>, final: bool, k: nat)
    requires Fresh(list) && k < |list|
    ensures Stalemate(list, final, Lead(list, k)) <==>
              forall l :: 0 <= l < |list| && list[l].symbol == list[k].symbol ==> Outcome(list, final, l, |list|) != 0
  {
    hide Fresh, Outcome, Stalemate;
    var s := Lead(list, k);
    if Stalemate(list, final, s) {
      forall l | 0 <= l < |list| && list[l].symbol == list[k].symbol ensures Outcome(list, final, l, |list|) != 0 {
        SameLead(list, k, l);
        StalemateLoses(list, final, l);
      }
    } else {
      SameLead(list, k, s);
      var l := SomeoneStays(list, final, s);
      assert Outcome(list, final, l, |list|) == 0;
    }
  }

  lemma ShiftIsLead(list: seq<Action>, s: nat)
    requires Fresh(list) && s < |list| && list[s].code == Shift
    ensures forall r :: 0 <= r < |list| && list[r].symbol == list[s].symbol ==> s <= r && Lead(list, r) == s
    ensures forall r :: 0 <= r < |list| && r != s && list[r].symbol == list[s].symbol ==> list[r].code == Reduce
  {
    forall r | 0 <= r < |list| && list[r].symbol == list[s].symbol ensures s <= r && Lead(list, r) == s {
      LeadIsFirst(list, r, s);
    }
  }

  /** What the verdicts come to in precedences. */
  lemma Verdicts(shift: Action, reduce: Action)
    ensures Contest(shift, reduce) == Unknown <==> shift.prec <= 0 || reduce.prec <= 0
    ensures Contest(shift, reduce) == ReduceWins <==>
              shift.prec > 0 && reduce.prec > 0
              && (reduce.prec > shift.prec || (reduce.prec == shift.prec && shift.assoc == Left))
    ensures Contest(shift, reduce) in {Unknown, ShiftWins} <==>
              shift.prec <= 0 || reduce.prec <= 0 || shift.prec > reduce.prec
              || (shift.prec == reduce.prec && shift.assoc == Right)
  {
  }

  lemma ShiftOutcome(list: seq<Action>, final: bool, s: nat)
    requires Fresh(list) && s < |list| && list[s].code == Shift && !(final && list[s].symbol == 0)
    ensures Outcome(list, final, s, |list|) == if Won(list, s, |list|) || Drew(list, s, |list|) then 2 else 0
  {
    hide Fresh, Contest, Won, Drew;
    ShiftIsLead(list, s);
  }

  /** A shift stays exactly if every reduction on its token has no known precedence, or a lower one, or an equal one when the
      token is right associative. It is never reported. */
  lemma ShiftStays(list: seq<Action>, final: bool, s: nat)
    requires Fresh(list) && s < |list| && list[s].code == Shift && !(final && list[s].symbol == 0)
    ensures Outcome(list, final, s, |list|) == 0 <==>
              forall r :: 0 <= r < |list| && list[r].symbol == list[s].symbol && list[r].code == Reduce ==>
                list[s].prec <= 0 || list[r].prec <= 0 || list[s].prec > list[r].prec
                || (list[s].prec == list[r].prec && list[s].assoc == Right)
    ensures Outcome(list, final, s, |list|) != 1
  {
    hide Fresh, Contest, Outcome, Lead;
    ShiftIsLead(list, s);
    ShiftOutcome(list, final, s);
    forall r | 0 <= r < |list| && list[r].symbol == list[s].symbol && list[r].code == Reduce
      ensures Beats(list, s, r, ReduceWins) || Beats(list, s, r, Neither) <==>
              !(list[s].prec <= 0 || list[r].prec <= 0 || list[s].prec > list[r].prec
                || (list[s].prec == list[r].prec && list[s].assoc == Right))
    {
      Verdicts(list[s], list[r]);
    }
    forall r | s < r < |list| && (Beats(list, s, r, ReduceWins) || Beats(list, s, r, Neither)) ensures list[r].code == Reduce {
    }
  }

  lemma ReductionOutcome(list: seq<Action>, final: bool, s: nat, k: nat)
    requires Fresh(list) && s < |list| && list[s].code == Shift && !(final && list[s].symbol == 0)
    requires k < |list| && list[k].symbol == list[s].symbol && list[k].code == Reduce
    ensures Outcome(list, final, k, |list|) == 0 <==> !Won(list, s, k) && Contest(list[s], list[k]) == ReduceWins
    ensures Outcome(list, final, k, |list|) == 1 <==> Won(list, s, k) || Contest(list[s], list[k]) == Unknown
  {
    hide Fresh, Contest, Won, Drew;
    ShiftIsLead(list, s);
  }

  /** Where there is a shift, a reduction stays exactly if it has the higher precedence, or the same and the token is left
      associative, and is the first rule of which that is true. It is reported exactly if such a rule comes before it, or a
      precedence is missing. */
  lemma ReduceStays(list: seq<Action>, final: bool, s: nat, k: nat)
    requires Fresh(list) && s < |list| && list[s].code == Shift && !(final && list[s].symbol == 0)
    requires k < |list| && list[k].symbol == list[s].symbol && list[k].code == Reduce
    ensures var won := exists r :: 0 <= r < |list| && list[r].symbol == list[s].symbol && list[r].code == Reduce
                                   && list[r].number < list[k].number && list[s].prec > 0 && list[r].prec > 0
                                   && (list[r].prec > list[s].prec || (list[r].prec == list[s].prec && list[s].assoc == Left));
            && (Outcome(list, final, k, |list|) == 0 <==>
                  !won && list[s].prec > 0 && list[k].prec > 0
                  && (list[k].prec > list[s].prec || (list[k].prec == list[s].prec && list[s].assoc == Left)))
            && (Outcome(list, final, k, |list|) == 1 <==> won || list[s].prec <= 0 || list[k].prec <= 0)
  {
    hide Fresh, Contest, Outcome, Lead;
    ShiftIsLead(list, s);
    ReductionOutcome(list, final, s, k);
    Verdicts(list[s], list[k]);
    forall r | s < r < |list| && list[r].symbol == list[s].symbol
      ensures list[r].code == Reduce && (list[r].number < list[k].number <==> r < k)
      ensures Beats(list, s, r, ReduceWins) <==>
                list[s].prec > 0 && list[r].prec > 0
                && (list[r].prec > list[s].prec || (list[r].prec == list[s].prec && list[s].assoc == Left))
    {
      ByNumber(list, r, k);
      Verdicts(list[s], list[r]);
    }
  }

  lemma ByNumber(list: seq<Action>, r: nat, k: nat)
    requires Fresh(list) && r < |list| && k < |list| && list[r].symbol == list[k].symbol
    requires list[r].code == Reduce && list[k].code == Reduce
    ensures list[r].number < list[k].number <==> r < k
  {
    assert r < k ==> Less(list[r], list[k]);
    assert k < r ==> Less(list[k], list[r]);
  }

  /** Where there is no shift, the reduction by the first rule stays, and the others are reported. */
  lemma FirstRuleStays(list: seq<Action>, final: bool, k: nat)
    requires Fresh(list) && k < |list|
    requires forall l :: 0 <= l < |list| && list[l].symbol == list[k].symbol ==> list[l].code == Reduce
    ensures Outcome(list, final, k, |list|) ==
              if forall l :: 0 <= l < |list| && list[l].symbol == list[k].symbol ==> list[k].number <= list[l].number then 0 else 1
  {
    var s := Lead(list, k);
    LeadIsFirst(list, k, k);
    ByNumber(list, s, k);
    forall l | 0 <= l < |list| && list[l].symbol == list[k].symbol ensures list[s].number <= list[l].number {
      LeadIsFirst(list, k, l);
      ByNumber(list, s, l);
      ByNumber(list, l, s);
    }
    assert list[s].symbol == list[k].symbol;
    ByNumber(list, k, s);
  }

  // What the resolution of conflicts is to do, in precedences, associativities and rule numbers, token by token. Suppressed
  // means 1 for an action that is reported and 2 for one that precedences took away.

  /** A shift stays exactly if every reduction on its token has no known precedence, or a lower one, or an equal one when the
      token is right associative. It is never reported. */
  ghost predicate ShiftsByPrecedence(list: seq<Action>, final: bool, list': seq<Action>)
    requires |list'| == |list|
  {
    forall s: nat :: s < |list| && list[s].code == Shift && !(final && list[s].symbol == 0) ==>
      && list'[s].suppressed != 1
      && (list'[s].suppressed == 0 <==>
            forall r :: 0 <= r < |list| && list[r].symbol == list[s].symbol && list[r].code == Reduce ==>
              list[s].prec <= 0 || list[r].prec <= 0 || list[s].prec > list[r].prec
              || (list[s].prec == list[r].prec && list[s].assoc == Right))
  }

  /** Against a shift, a reduction stays exactly if it has the higher precedence, or the same and the token is left
      associative, and no rule before it has. It is reported exactly if a rule before it has, or a precedence is missing. */
  ghost predicate ReductionsByPrecedence(list: seq<Action>, final: bool, list': seq<Action>)
    requires |list'| == |list|
  {
    forall s: nat, k: nat :: s < |list| && list[s].code == Shift && !(final && list[s].symbol == 0)
                             && k < |list| && list[k].code == Reduce && list[k].symbol == list[s].symbol ==>
      var won := exists r :: 0 <= r < |list| && list[r].symbol == list[s].symbol && list[r].code == Reduce
                             && list[r].number < list[k].number && list[s].prec > 0 && list[r].prec > 0
                             && (list[r].prec > list[s].prec || (list[r].prec == list[s].prec && list[s].assoc == Left));
      && (list'[k].suppressed == 0 <==>
            !won && list[s].prec > 0 && list[k].prec > 0
            && (list[k].prec > list[s].prec || (list[k].prec == list[s].prec && list[s].assoc == Left)))
      && (list'[k].suppressed == 1 <==> won || list[s].prec <= 0 || list[k].prec <= 0)
  }

  /** Without a shift, the reduction by the first rule stays, and every other is reported. */
  ghost predicate FirstRules(list: seq<Action>, list': seq<Action>)
    requires |list'| == |list|
  {
    forall k: nat :: k < |list| && (forall l :: 0 <= l < |list| && list[l].symbol == list[k].symbol ==> list[l].code == Reduce) ==>
      list'[k].suppressed ==
        if forall l :: 0 <= l < |list| && list[l].symbol == list[k].symbol ==> list[k].number <= list[l].number then 0 else 1
  }

  /** At the end of the input in the final state, a shift stays whatever the precedences, and every reduction is reported. */
  ghost predicate EndIsShifted(list: seq<Action>, final: bool, list': seq<Action>)
    requires |list'| == |list|
  {
    final ==> forall s: nat, k: nat :: s < |list| && list[s].code == Shift && list[s].symbol == 0
                                       && k < |list| && list[k].symbol == 0 ==>
      list'[k].suppressed == if list[k].code == Shift then 0 else 1
  }

  ghost predicate ByPrecedence(list: seq<Action>, final: bool, list': seq<Action>)
  {
    && |list'| == |list| && (forall k :: 0 <= k < |list| ==> list'[k] == list[k].(suppressed := list'[k].suppressed))
    && ShiftsByPrecedence(list, final, list') && ReductionsByPrecedence(list, final, list') && FirstRules(list, list')
    && EndIsShifted(list, final, list')
  }

  lemma ResolvedAt(list: seq<Action>, final: bool, list': seq<Action>)
    requires Resolved(list, final, |list|, list')
    ensures |list'| == |list| && forall k :: 0 <= k < |list| ==> list'[k] == list[k].(suppressed := list'[k].suppressed)
    ensures forall k: nat :: k < |list| ==> list'[k].suppressed == Outcome(list, final, k, |list|)
  {
    hide Outcome;
    forall k: nat | k < |list| ensures list'[k] == list[k].(suppressed := list'[k].suppressed) {
      assert Same(list[k], list'[k]);
    }
  }

  lemma PrecedenceDecides(list: seq<Action>, final: bool, list': seq<Action>)
    requires Fresh(list) && Resolved(list, final, |list|, list')
    ensures ByPrecedence(list, final, list')
  {
    hide Fresh, Resolved, Outcome, ShiftsByPrecedence, ReductionsByPrecedence, FirstRules, EndIsShifted;
    ResolvedAt(list, final, list');
    ShiftsDecided(list, final, list');
    ReductionsDecided(list, final, list');
    FirstRulesDecided(list, final, list');
    EndDecided(list, final, list');
  }

  lemma EndDecided(list: seq<Action>, final: bool, list': seq<Action>)
    requires Fresh(list) && Resolved(list, final, |list|, list') && |list'| == |list|
    ensures EndIsShifted(list, final, list')
  {
    hide Fresh, Resolved, Outcome;
    ResolvedAt(list, final, list');
    forall s: nat, k: nat | final && s < |list| && list[s].code == Shift && list[s].symbol == 0
                            && k < |list| && list[k].symbol == 0
    {
      EndStays(list, s, k);
    }
  }

  lemma EndStays(list: seq<Action>, s: nat, k: nat)
    requires Fresh(list) && s < |list| && k < |list| && list[s].code == Shift && list[s].symbol == 0 == list[k].symbol
    ensures Outcome(list, true, k, |list|) == if list[k].code == Shift then 0 else 1
  {
    hide Fresh, Won, Drew, Contest;
    ShiftIsLead(list, s);
  }

  lemma ShiftsDecided(list: seq<Action>, final: bool, list': seq<Action>)
    requires Fresh(list) && Resolved(list, final, |list|, list') && |list'| == |list|
    ensures ShiftsByPrecedence(list, final, list')
  {
    hide Fresh, Resolved, Outcome;
    ResolvedAt(list, final, list');
    forall s: nat | s < |list| && list[s].code == Shift && !(final && list[s].symbol == 0) {
      ShiftStays(list, final, s);
    }
  }

  lemma ReductionsDecided(list: seq<Action>, final: bool, list': seq<Action>)
    requires Fresh(list) && Resolved(list, final, |list|, list') && |list'| == |list|
    ensures ReductionsByPrecedence(list, final, list')
  {
    hide Fresh, Resolved, Outcome;
    ResolvedAt(list, final, list');
    forall s: nat, k: nat | s < |list| && list[s].code == Shift && !(final && list[s].symbol == 0)
                            && k < |list| && list[k].code == Reduce && list[k].symbol == list[s].symbol
    {
      ReduceStays(list, final, s, k);
    }
  }

  lemma FirstRulesDecided(list: seq<Action>, final: bool, list': seq<Action>)
    requires Fresh(list) && Resolved(list, final, |list|, list') && |list'| == |list|
    ensures FirstRules(list, list')
  {
    hide Fresh, Resolved, Outcome;
    ResolvedAt(list, final, list');
    forall k: nat | k < |list| && (forall l :: 0 <= l < |list| && list[l].symbol == list[k].symbol ==> list[l].code == Reduce) {
      FirstRuleStays(list, final, k);
    }
  }

  // ---------------------------------------------------------------------------------
  // The pass over one list.

  /** Action k lost to a shift for want of precedences, or to the acceptance at the end of the input. */
  ghost predicate LostToShift(list: seq<Action>, final: bool, k: nat)
    requires k < |list|
  {
    var s := Lead(list, k);
    && s != k
    && ((final && list[k].symbol == 0) || (list[s].code == Shift && !Won(list, s, k) && Contest(list[s], list[k]) == Unknown))
  }

  /** Action k lost to a reduction. */
  ghost predicate LostToReduce(list: seq<Action>, final: bool, k: nat)
    requires k < |list|
  {
    var s := Lead(list, k);
    s != k && !(final && list[k].symbol == 0) && (list[s].code == Reduce || Won(list, s, k))
  }

  ghost function ShiftReduce(list: seq<Action>, final: bool, n: nat): nat
    requires n <= |list|
  {
    if n == 0 then 0 else ShiftReduce(list, final, n - 1) + if LostToShift(list, final, n - 1) then 1 else 0
  }

  ghost function ReduceReduce(list: seq<Action>, final: bool, n: nat): nat
    requires n <= |list|
  {
    if n == 0 then 0 else ReduceReduce(list, final, n - 1) + if LostToReduce(list, final, n - 1) then 1 else 0
  }

  lemma OneMore(a: set<nat>, b: set<nat>, x: nat, more: bool)
    requires x !in a && forall y :: y in b <==> y in a || (more && y == x)
    ensures |b| == |a| + if more then 1 else 0
  {
    assert b == if more then a + {x} else a;
  }

  /** The two counts, by what became of the list: an action that is reported has lost to a reduction if one by an earlier rule
      stays on its token, and to a shift or to the acceptance of the input else. */
  lemma {:induction false} CountsAre(list: seq<Action>, final: bool, list': seq<Action>, n: nat)
    requires Fresh(list) && Resolved(list, final, |list|, list') && |list'| == |list| && n <= |list|
    ensures ReduceReduce(list, final, n) == |set k: nat | k < n && RuleBefore(list', final, k)|
    ensures ShiftReduce(list, final, n) == |set k: nat | k < n && NoRuleBefore(list', final, k)|
  {
    hide Fresh, Resolved, LostToShift, LostToReduce, RuleBefore, NoRuleBefore;
    if n > 0 {
      var last: nat := n - 1;
      CountsAre(list, final, list', last);
      LossesAre(list, final, list', last);
      OneMore((set k: nat | k < last && RuleBefore(list', final, k)), (set k: nat | k < n && RuleBefore(list', final, k)),
              last, RuleBefore(list', final, last));
      OneMore((set k: nat | k < last && NoRuleBefore(list', final, k)),
              (set k: nat | k < n && NoRuleBefore(list', final, k)), last, NoRuleBefore(list', final, last));
    }
  }

  ghost predicate NoRuleBefore(list': seq<Action>, final: bool, k: nat)
    requires k < |list'|
  {
    list'[k].suppressed == 1 && !RuleBefore(list', final, k)
  }

  ghost predicate RuleBefore(list': seq<Action>, final: bool, k: nat)
    requires k < |list'|
  {
    && list'[k].suppressed == 1 && !(final && list'[k].symbol == 0)
    && exists r :: 0 <= r < |list'| && list'[r].symbol == list'[k].symbol && list'[r].code == Reduce
                   && list'[r].number < list'[k].number && list'[r].suppressed == 0
  }

  /** The conflicts of a resolved list that count as shift/reduce, and those that count as reduce/reduce. */
  ghost function ShiftLosses(list': seq<Action>, final: bool): nat
  {
    |set k: nat | k < |list'| && NoRuleBefore(list', final, k)|
  }

  ghost function RuleLosses(list': seq<Action>, final: bool): nat
  {
    |set k: nat | k < |list'| && RuleBefore(list', final, k)|
  }

  lemma LossesAre(list: seq<Action>, final: bool, list': seq<Action>, k: nat)
    requires Fresh(list) && Resolved(list, final, |list|, list') && |list'| == |list| && k < |list|
    ensures LostToReduce(list, final, k) <==> RuleBefore(list', final, k)
    ensures LostToShift(list, final, k) <==> NoRuleBefore(list', final, k)
  {
    hide Fresh, Resolved, Contest, Won, Drew;
    ResolvedAt(list, final, list');
    var s := Lead(list, k);
    SameLead(list, k, s);
    if !(final && list[k].symbol == 0) {
      if list[s].code == Shift {
        LossesToShift(list, final, list', s, k);
      } else {
        LossesToRule(list, final, list', s, k);
      }
    }
  }

  lemma LossesToShift(list: seq<Action>, final: bool, list': seq<Action>, s: nat, k: nat)
    requires Fresh(list) && Resolved(list, final, |list|, list') && |list'| == |list| && k < |list|
    requires s == Lead(list, k) && list[s].code == Shift && !(final && list[k].symbol == 0)
    ensures LostToReduce(list, final, k) <==> RuleBefore(list', final, k)
    ensures LostToShift(list, final, k) <==> NoRuleBefore(list', final, k)
  {
    hide Fresh, Resolved, Contest, Outcome, Drew;
    ResolvedAt(list, final, list');
    ShiftIsLead(list, s);
    if k == s {
      ShiftOutcome(list, final, s);
    } else {
      ReductionOutcome(list, final, s, k);
      if Won(list, s, k) {
        var r := FirstWinner(list, s, k);
        ReductionOutcome(list, final, s, r);
        ByNumber(list, r, k);
      }
      if r :| 0 <= r < |list'| && list'[r].symbol == list'[k].symbol && list'[r].code == Reduce
              && list'[r].number < list'[k].number && list'[r].suppressed == 0 {
        ReductionOutcome(list, final, s, r);
        ByNumber(list, r, k);
        assert Beats(list, s, r, ReduceWins);
      }
    }
  }

  lemma LossesToRule(list: seq<Action>, final: bool, list': seq<Action>, s: nat, k: nat)
    requires Fresh(list) && Resolved(list, final, |list|, list') && |list'| == |list| && k < |list|
    requires s == Lead(list, k) && list[s].code == Reduce && !(final && list[k].symbol == 0)
    ensures LostToReduce(list, final, k) <==> RuleBefore(list', final, k)
    ensures LostToShift(list, final, k) <==> NoRuleBefore(list', final, k)
  {
    hide Fresh, Resolved, Contest, Won, Drew;
    ResolvedAt(list, final, list');
    SameLead(list, k, s);
    if s != k {
      LaterCode(list, k, s);
      ByNumber(list, s, k);
    }
  }

  /** pref is the action that the next one on its symbol will be measured against. */
  ghost predicate Prefers(list: seq<Action>, final: bool, n: nat, pref: nat)
  {
    n > 0 ==>
      && n <= |list| && pref < n
      && var s := Lead(list, n - 1);
         if (final && list[n-1].symbol == 0) || list[s].code == Reduce then pref == s
         else if Won(list, s, n) then
           s < pref && Beats(list, s, pref, ReduceWins) && !Won(list, s, pref) && list[pref].code == Reduce
         else pref == s
  }

  lemma WonNext(list: seq<Action>, s: nat, n: nat)
    requires s < n < |list|
    ensures Won(list, s, n + 1) <==> Won(list, s, n) || Beats(list, s, n, ReduceWins)
    ensures Drew(list, s, n + 1) <==> Drew(list, s, n) || Beats(list, s, n, Neither)
  {
  }

  /** Looking at action n changes nothing for the actions below it, except for the shift it is measured against. */
  lemma OutcomeNext(list: seq<Action>, final: bool, n: nat, k: nat)
    requires Fresh(list) && k < n < |list|
    ensures var s := Lead(list, n);
            Outcome(list, final, k, n + 1) ==
              if k == s && list[s].code == Shift && !(final && list[s].symbol == 0)
                 && Contest(list[s], list[n]) in {ReduceWins, Neither}
              then 2 else Outcome(list, final, k, n)
  {
    hide Fresh, Contest, Won, Drew;
    var t := Lead(list, k);
    SameLeadOf(list, k, n);
    if k == t {
      WonNext(list, t, n);
    }
  }

  lemma SameLeadOf(list: seq<Action>, k: nat, n: nat)
    requires Fresh(list) && k < |list| && n < |list|
    ensures list[k].symbol == list[n].symbol <==> Lead(list, k) == Lead(list, n)
  {
    if list[k].symbol == list[n].symbol { SameLead(list, k, n); }
  }

  /** Action n is the first on its symbol. */
  lemma FirstOutcome(list: seq<Action>, final: bool, n: nat, list': seq<Action>)
    requires Fresh(list) && n < |list| && Resolved(list, final, n, list')
    requires n > 0 ==> list[n-1].symbol != list[n].symbol
    ensures Resolved(list, final, n + 1, list') && Prefers(list, final, n + 1, n)
    ensures !LostToShift(list, final, n) && !LostToReduce(list, final, n)
  {
    hide Fresh, Contest, Outcome, Won, Drew;
    LeadOutcome(list, final, n);
    forall k: nat | k < n ensures Outcome(list, final, k, n + 1) == Outcome(list, final, k, n) {
      EarlierOutcome(list, final, n, k);
    }
  }

  lemma LeadOutcome(list: seq<Action>, final: bool, n: nat)
    requires n < |list| && (n > 0 ==> list[n-1].symbol != list[n].symbol)
    ensures Lead(list, n) == n && Outcome(list, final, n, n + 1) == 0 && !Won(list, n, n + 1)
  {
  }

  lemma EarlierOutcome(list: seq<Action>, final: bool, n: nat, k: nat)
    requires Fresh(list) && k < n < |list| && list[n-1].symbol != list[n].symbol
    ensures Outcome(list, final, k, n + 1) == Outcome(list, final, k, n)
  {
    LeadOutcome(list, final, n);
    OutcomeNext(list, final, n, k);
  }

  /** Action n is measured against pref. */
  lemma LaterOutcome(list: seq<Action>, final: bool, n: nat, pref: nat)
    requires Fresh(list) && 0 < n < |list| && Prefers(list, final, n, pref)
    requires list[n-1].symbol == list[n].symbol
    ensures pref < n && Outcome(list, final, pref, n) != 1
    ensures var open := !(final && list[n].symbol == 0) && list[pref].code == Shift; var verdict := Contest(list[pref], list[n]);
            && Outcome(list, final, n, n + 1) == (if !open || verdict == Unknown then 1 else if verdict == ReduceWins then 0 else 2)
            && (forall k: nat :: k < n ==>
                  Outcome(list, final, k, n + 1) ==
                    if k == pref && open && verdict in {ReduceWins, Neither} then 2 else Outcome(list, final, k, n))
            && Prefers(list, final, n + 1, if open && verdict == ReduceWins then n else pref)
            && (LostToShift(list, final, n) <==> (final && list[n].symbol == 0) || (open && verdict == Unknown))
            && (LostToReduce(list, final, n) <==> !(final && list[n].symbol == 0) && !open)
  {
    hide Fresh, Contest;
    var s := Lead(list, n);
    SameLead(list, n - 1, n);
    SameLead(list, s, n);
    LaterCode(list, n, s);
    WonNext(list, s, n);
    hide Won, Drew;
    PrefOutcome(list, final, n, pref);
    forall k: nat | k < n
      ensures Outcome(list, final, k, n + 1) ==
              if k == s && list[s].code == Shift && !(final && list[s].symbol == 0)
                 && Contest(list[s], list[n]) in {ReduceWins, Neither}
              then 2 else Outcome(list, final, k, n)
    {
      OutcomeNext(list, final, n, k);
    }
  }

  lemma LaterCode(list: seq<Action>, n: nat, s: nat)
    requires Fresh(list) && s < n < |list| && list[s].symbol == list[n].symbol
    ensures list[n].code == Reduce
  {
  }

  lemma PrefOutcome(list: seq<Action>, final: bool, n: nat, pref: nat)
    requires Fresh(list) && 0 < n < |list| && Prefers(list, final, n, pref)
    ensures pref < n && Outcome(list, final, pref, n) != 1 && list[pref].symbol == list[n-1].symbol
    ensures list[pref].code == Shift && !(final && list[n-1].symbol == 0) ==> pref == Lead(list, n - 1) && !Won(list, pref, n)
  {
    hide Fresh, Contest, Drew;
    var s := Lead(list, n - 1);
    SameLead(list, s, n - 1);
    if s != pref {
      SameLead(list, s, pref);
    }
  }

  /** The verdict as the program finds it, given two precedences. */
  method Compare(pref: Action, p: Action) returns (verdict: Verdict)
    requires pref.prec > 0 && p.prec > 0
    ensures verdict == Contest(pref, p)
  {
    if pref.prec < p.prec {
      verdict := ReduceWins;
    } else if pref.prec > p.prec {
      verdict := ShiftWins;
    } else if pref.assoc == Left {
      verdict := ReduceWins;
    } else if pref.assoc == Right {
      verdict := ShiftWins;
    } else {
      verdict := Neither;
    }
  }

  /** A later action on the symbol, measured against pref. */
  method ResolveLater(ghost list: seq<Action>, final: bool, n: nat, actions: seq<Action>, pref: nat)
      returns (actions': seq<Action>, pref': nat, SR: nat, RR: nat)
    requires Fresh(list) && 0 < n < |list| && Resolved(list, final, n, actions) && Prefers(list, final, n, pref)
    requires list[n-1].symbol == list[n].symbol
    ensures Resolved(list, final, n + 1, actions') && Prefers(list, final, n + 1, pref')
    ensures SR + RR + Reported(actions) == Reported(actions')
    ensures SR == (if LostToShift(list, final, n) then 1 else 0) && RR == (if LostToReduce(list, final, n) then 1 else 0)
  {
    hide Fresh, Prefers, Outcome, Reported, LostToShift, LostToReduce;
    LaterOutcome(list, final, n, pref);
    actions', pref', SR, RR := actions, pref, 0, 0;
    ghost var shift, p := list[pref], list[n];
    SameContest(shift, actions[pref], p, actions[n]);
    if final && actions[n].symbol == 0 {
      SR := 1;
      ReportedUpdate(actions, n, actions[n].(suppressed := 1));
      actions' := actions[n := actions[n].(suppressed := 1)];
    } else if actions[pref].code == Shift {
      if actions[pref].prec > 0 && actions[n].prec > 0 {
        var verdict := Compare(actions[pref], actions[n]);
        if verdict == ReduceWins || verdict == Neither {
          ReportedUpdate(actions', pref, actions'[pref].(suppressed := 2));
          actions' := actions'[pref := actions'[pref].(suppressed := 2)];
        }
        if verdict == ShiftWins || verdict == Neither {
          ReportedUpdate(actions', n, actions'[n].(suppressed := 2));
          actions' := actions'[n := actions'[n].(suppressed := 2)];
        }
        if verdict == ReduceWins {
          pref' := n;
        }
      } else {
        SR := 1;
        ReportedUpdate(actions, n, actions[n].(suppressed := 1));
        actions' := actions[n := actions[n].(suppressed := 1)];
      }
    } else {
      RR := 1;
      ReportedUpdate(actions, n, actions[n].(suppressed := 1));
      actions' := actions[n := actions[n].(suppressed := 1)];
    }
  }

  lemma SameContest(shift: Action, shift': Action, reduce: Action, reduce': Action)
    requires Same(shift, shift') && Same(reduce, reduce')
    ensures Contest(shift, reduce) == Contest(shift', reduce')
    ensures shift.prec <= 0 || reduce.prec <= 0 <==> Contest(shift, reduce) == Unknown
  {
  }

  /** The loop of remove_conflicts over the actions of one state. */
  method ResolveList(list: seq<Action>, final: bool) returns (actions: seq<Action>, SRcount: nat, RRcount: nat)
    requires Fresh(list)
    ensures Resolved(list, final, |list|, actions)
    ensures ByPrecedence(list, final, actions)
    ensures SRcount == ShiftLosses(actions, final) && RRcount == RuleLosses(actions, final)
    ensures SRcount + RRcount == Reported(actions)
  {
    hide Fresh, Prefers, Outcome, Reported, LostToShift, LostToReduce;
    FreshFacts(list);
    ReportedNone(list);
    actions, SRcount, RRcount := list, 0, 0;
    var symbol: int := -1;
    var pref: nat := 0;
    var n: nat := 0;
    PrefersNone(list, final);
    while n < |list|
      invariant n <= |list| == |actions| && Resolved(list, final, n, actions) && Prefers(list, final, n, pref)
      invariant if n == 0 then symbol == -1 else symbol == list[n-1].symbol
      invariant SRcount == ShiftReduce(list, final, n) && RRcount == ReduceReduce(list, final, n)
      invariant SRcount + RRcount == Reported(actions)
    {
      if actions[n].symbol != symbol {
        FirstOutcome(list, final, n, actions);
        pref := n;
        symbol := actions[n].symbol;
      } else {
        var SR, RR;
        actions, pref, SR, RR := ResolveLater(list, final, n, actions, pref);
        SRcount, RRcount := SRcount + SR, RRcount + RR;
      }
      n := n + 1;
    }
    PrecedenceDecides(list, final, actions);
    CountsAre(list, final, actions, |list|);
  }

  lemma FreshFacts(list: seq<Action>)
    requires Fresh(list)
    ensures forall k :: 0 <= k < |list| ==> list[k].suppressed == 0
  {
  }

  lemma PrefersNone(list: seq<Action>, final: bool)
    ensures Prefers(list, final, 0, 0)
  {
  }
}
