/** Interface slots by graph colouring (container.l, buildInterfaceTablesColor and allocateInterfaceSlotsColor). */
module Coloring {
  import opened Counting
  import opened Sorting

  /** The interfaces are numbered in sorted order; classes lists, for every class, the interfaces it implements, and
      counts how many methods of each interface need a slot. */
  ghost predicate ClassesOk(n: nat, classes: seq<seq<nat>>)
  {
    forall c, k :: 0 <= c < |classes| && 0 <= k < |classes[c]| ==> classes[c][k] < n
  }

  /** Some class implements both. */
  ghost predicate Together(classes: seq<seq<nat>>, m: nat, i: nat, j: nat)
  {
    i != j && exists c :: 0 <= c < m && c < |classes| && i in classes[c] && j in classes[c]
  }

  ghost predicate IsMatrix(matrix: seq<seq<bool>>, n: nat)
  {
    |matrix| == n && forall i :: 0 <= i < n ==> |matrix[i]| == n
  }

  /** The matrix marks exactly the pairs that some class implements together. */
  ghost predicate Interferes(matrix: seq<seq<bool>>, n: nat, classes: seq<seq<nat>>, m: nat)
  {
    IsMatrix(matrix, n) && forall i: nat, j: nat :: i < n && j < n ==> (matrix[i][j] <==> Together(classes, m, i, j))
  }

  /** Of one class, the pairs (list[a], list[b]) before position (k, l) are marked, either way round. */
  ghost predicate Marked(was: seq<seq<bool>>, matrix: seq<seq<bool>>, n: nat, list: seq<nat>, k: nat, l: nat)
  {
    && IsMatrix(matrix, n) && IsMatrix(was, n)
    && forall i: nat, j: nat :: i < n && j < n ==>
         (matrix[i][j] <==> was[i][j] || MarkedPair(list, k, l, i, j) || MarkedPair(list, k, l, j, i))
  }

  ghost predicate MarkedPair(list: seq<nat>, k: nat, l: nat, i: nat, j: nat)
  {
    i != j && exists a, b :: 0 <= a < |list| && 0 <= b < |list| && (a < k || (a == k && b < l)) && list[a] == i && list[b] == j
  }

  method MarkClass(matrix0: seq<seq<bool>>, n: nat, list: seq<nat>) returns (matrix: seq<seq<bool>>)
    requires IsMatrix(matrix0, n) && forall k :: 0 <= k < |list| ==> list[k] < n
    ensures Marked(matrix0, matrix, n, list, |list|, 0)
  {
    matrix := matrix0;
    var k := 0;
    while k < |list|
      invariant k <= |list| && Marked(matrix0, matrix, n, list, k, 0)
    {
      var l := 0;
      while l < |list|
        invariant l <= |list| && Marked(matrix0, matrix, n, list, k, l)
      {
        var ai, aj := list[k], list[l];
        ghost var before := matrix;
        if ai != aj {
          matrix := matrix[ai := matrix[ai][aj := true]];
          matrix := matrix[aj := matrix[aj][ai := true]];
        }
        MarkNext(matrix0, before, matrix, n, list, k, l);
        l := l + 1;
      }
      MarkRow(matrix0, matrix, n, list, k);
      k := k + 1;
    }
  }

  lemma MarkedPairNext(list: seq<nat>, k: nat, l: nat, i: nat, j: nat)
    requires k < |list| && l < |list|
    ensures MarkedPair(list, k, l + 1, i, j) <==> MarkedPair(list, k, l, i, j) || (i != j && list[k] == i && list[l] == j)
    ensures MarkedPair(list, k + 1, 0, i, j) <==> MarkedPair(list, k, |list|, i, j)
  {
    if MarkedPair(list, k, l + 1, i, j) {
      var a, b :| 0 <= a < |list| && 0 <= b < |list| && (a < k || (a == k && b < l + 1)) && list[a] == i && list[b] == j;
    }
  }

  lemma MarkNext(was: seq<seq<bool>>, matrix: seq<seq<bool>>, matrix': seq<seq<bool>>, n: nat, list: seq<nat>, k: nat,
                 l: nat)
    requires Marked(was, matrix, n, list, k, l) && k < |list| && l < |list| && list[k] < n && list[l] < n
    requires IsMatrix(matrix', n)
    requires forall i: nat, j: nat :: i < n && j < n ==>
               (matrix'[i][j] <==> matrix[i][j] || (list[k] != list[l] && ((i == list[k] && j == list[l]) || (i == list[l] && j == list[k]))))
    ensures Marked(was, matrix', n, list, k, l + 1)
  {
    hide MarkedPair;
    var next := l + 1;
    forall i: nat, j: nat | i < n && j < n
      ensures matrix'[i][j] <==> was[i][j] || MarkedPair(list, k, next, i, j) || MarkedPair(list, k, next, j, i)
    {
      MarkedPairNext(list, k, l, i, j);
      MarkedPairNext(list, k, l, j, i);
    }
  }

  lemma MarkRow(was: seq<seq<bool>>, matrix: seq<seq<bool>>, n: nat, list: seq<nat>, k: nat)
    requires Marked(was, matrix, n, list, k, |list|) && k < |list|
    ensures Marked(was, matrix, n, list, k + 1, 0)
  {
    hide MarkedPair;
    forall i: nat, j: nat ensures MarkedPair(list, k + 1, 0, i, j) <==> MarkedPair(list, k, |list|, i, j) {
      MarkedPairNext(list, k, 0, i, j);
    }
  }

  /** A class without an implements list of its own implements nothing, or just what an ancestor does that has one. */
  ghost predicate Covered<T>(classes: seq<seq<T>>, own: seq<bool>)
  {
    && |own| == |classes|
    && forall c :: 0 <= c < |classes| && !own[c] && classes[c] != [] ==>
         exists d :: 0 <= d < |classes| && own[d] && classes[d] == classes[c]
  }

  /** The lists of the classes before c that have their own. */
  ghost predicate ListsOf(lists: seq<seq<nat>>, classes: seq<seq<nat>>, own: seq<bool>, c: nat)
    requires c <= |classes| == |own|
  {
    && (forall d :: 0 <= d < c && own[d] ==> classes[d] in lists)
    && forall list :: list in lists ==> list in classes
  }

  /** container.l, buildInterfaceTablesColor: the interference of the interfaces. Classes without an implements list of
      their own are skipped. */
  method BuildInterference(n: nat, classes: seq<seq<nat>>, own: seq<bool>) returns (matrix: seq<seq<bool>>)
    requires ClassesOk(n, classes) && Covered(classes, own)
    ensures Interferes(matrix, n, classes, |classes|)
  {
    matrix := seq(n, _ => seq(n, _ => false));
    ghost var lists: seq<seq<nat>> := [];
    var c := 0;
    while c < |classes|
      invariant c <= |classes| && Interferes(matrix, n, lists, |lists|) && ListsOf(lists, classes, own, c)
    {
      if own[c] {
        ghost var was := matrix;
        matrix := MarkClass(matrix, n, classes[c]);
        ListAdded(was, n, lists, classes[c]);
        lists := lists + [classes[c]];
        ClassDone(was, matrix, n, lists, |lists| - 1);
      }
      c := c + 1;
    }
    AllCovered(matrix, n, lists, classes, own);
  }

  lemma ListAdded(matrix: seq<seq<bool>>, n: nat, lists: seq<seq<nat>>, list: seq<nat>)
    requires Interferes(matrix, n, lists, |lists|)
    ensures Interferes(matrix, n, lists + [list], |lists|)
  {
    var more := lists + [list];
    forall i: nat, j: nat ensures Together(more, |lists|, i, j) <==> Together(lists, |lists|, i, j) {
      if Together(more, |lists|, i, j) {
        var c :| 0 <= c < |lists| && i in more[c] && j in more[c];
        assert lists[c] == more[c];
      }
      if Together(lists, |lists|, i, j) {
        var c :| 0 <= c < |lists| && i in lists[c] && j in lists[c];
        assert lists[c] == more[c];
      }
    }
  }

  lemma AllCovered(matrix: seq<seq<bool>>, n: nat, lists: seq<seq<nat>>, classes: seq<seq<nat>>, own: seq<bool>)
    requires Covered(classes, own) && Interferes(matrix, n, lists, |lists|) && ListsOf(lists, classes, own, |classes|)
    ensures Interferes(matrix, n, classes, |classes|)
  {
    hide Together;
    forall i: nat, j: nat ensures Together(classes, |classes|, i, j) <==> Together(lists, |lists|, i, j) {
      SameTogether(classes, lists, i, j);
      SameTogether(lists, classes, i, j);
    }
  }

  /** Only which interfaces the classes implement matters. */
  lemma SameTogether(classes: seq<seq<nat>>, classes': seq<seq<nat>>, i: nat, j: nat)
    requires forall list :: list in classes && list != [] ==> list in classes'
    ensures Together(classes, |classes|, i, j) ==> Together(classes', |classes'|, i, j)
  {
    if Together(classes, |classes|, i, j) {
      var c :| 0 <= c < |classes| && i in classes[c] && j in classes[c];
      assert classes[c] in classes';
    }
  }

  lemma ClassDone(was: seq<seq<bool>>, matrix: seq<seq<bool>>, n: nat, classes: seq<seq<nat>>, c: nat)
    requires c < |classes| && Interferes(was, n, classes, c) && Marked(was, matrix, n, classes[c], |classes[c]|, 0)
    ensures Interferes(matrix, n, classes, c + 1)
  {
    var list, next := classes[c], c + 1;
    forall i: nat, j: nat ensures MarkedPair(list, |list|, 0, i, j) <==> i != j && i in list && j in list {
      if i != j && i in list && j in list {
        var a :| 0 <= a < |list| && list[a] == i;
        var b :| 0 <= b < |list| && list[b] == j;
      }
    }
    forall i: nat, j: nat ensures Together(classes, next, i, j) <==> Together(classes, c, i, j) || (i != j && i in list && j in list) {
      if Together(classes, next, i, j) {
        var d :| 0 <= d < next && d < |classes| && i in classes[d] && j in classes[d];
        assert d < c ==> Together(classes, c, i, j);
      }
    }
  }

  // ---------------------------------------------------------------------------------

  /** slots[s] lists the interfaces that own a method in slot s; given[i] lists the slots of the methods of i. */
  ghost predicate Allocated(matrix: seq<seq<bool>>, n: nat, slots: seq<seq<nat>>, given: seq<seq<nat>>)
  {
    && IsMatrix(matrix, n) && |given| <= n
    && (forall s, k :: 0 <= s < |slots| && 0 <= k < |slots[s]| ==> slots[s][k] < |given| && s in given[slots[s][k]])
    && (forall i, k :: 0 <= i < |given| && 0 <= k < |given[i]| ==> given[i][k] < |slots| && i in slots[given[i][k]])
    && (forall i, k, l :: 0 <= i < |given| && 0 <= k < l < |given[i]| ==> given[i][k] < given[i][l])
    && (forall i, j, s :: 0 <= i < |given| && 0 <= j < |given| && matrix[i][j] && s in given[i] ==> s !in given[j])
  }

  /** No interface in the slot interferes with ii. */
  ghost predicate Free(matrix: seq<seq<bool>>, slot: seq<nat>, ii: nat)
    requires ii < |matrix|
  {
    forall k :: 0 <= k < |slot| ==> slot[k] < |matrix[ii]| && (slot[k] == ii || !matrix[ii][slot[k]])
  }

  /** The search for a free slot behind slot_index. */
  method NextSlot(matrix: seq<seq<bool>>, n: nat, slots0: seq<seq<nat>>, ii: nat,
                  start: nat) returns (slots: seq<seq<nat>>, slotIndex: nat)
    requires IsMatrix(matrix, n) && ii < n && start <= |slots0|
    requires forall s, k :: 0 <= s < |slots0| && 0 <= k < |slots0[s]| ==> slots0[s][k] < n
    ensures start <= slotIndex < |slots| && (slots == slots0 || (slots == slots0 + [[]] && slotIndex == |slots0|))
    ensures Free(matrix, slots[slotIndex], ii)
    ensures forall s :: start <= s < slotIndex ==> !Free(matrix, slots[s], ii)
  {
    slots, slotIndex := slots0, start;
    while slotIndex < |slots|
      invariant start <= slotIndex <= |slots| && slots == slots0
      invariant forall s :: start <= s < slotIndex ==> !Free(matrix, slots[s], ii)
    {
      var foundFree := true;
      var k := 0;
      while foundFree && k < |slots[slotIndex]|
        invariant k <= |slots[slotIndex]|
        invariant foundFree ==> forall l :: 0 <= l < k ==> slots[slotIndex][l] == ii || !matrix[ii][slots[slotIndex][l]]
        invariant !foundFree ==> !Free(matrix, slots[slotIndex], ii)
      {
        var j := slots[slotIndex][k];
        if j != ii && matrix[ii][j] {
          foundFree := false;
        }
        k := k + 1;
      }
      if foundFree {
        return;
      }
      slotIndex := slotIndex + 1;
    }
    slots := slots + [[]];
  }

  ghost predicate Symmetric(matrix: seq<seq<bool>>, n: nat)
  {
    && IsMatrix(matrix, n)
    && forall i: nat, j: nat :: i < n && j < n ==> matrix[i][j] == matrix[j][i] && (i == j ==> !matrix[i][j])
  }

  lemma InterferenceIsSymmetric(matrix: seq<seq<bool>>, n: nat, classes: seq<seq<nat>>, m: nat)
    requires Interferes(matrix, n, classes, m)
    ensures Symmetric(matrix, n)
  {
    forall i: nat, j: nat ensures Together(classes, m, i, j) == Together(classes, m, j, i) {
      if Together(classes, m, i, j) {
        var c :| 0 <= c < m && c < |classes| && i in classes[c] && j in classes[c];
        assert j in classes[c] && i in classes[c];
      }
      if Together(classes, m, j, i) {
        var c :| 0 <= c < m && c < |classes| && j in classes[c] && i in classes[c];
        assert i in classes[c] && j in classes[c];
      }
    }
  }

  lemma AllocateStep(matrix: seq<seq<bool>>, n: nat, slots: seq<seq<nat>>, given: seq<seq<nat>>, ii: nat, slot: nat)
    requires Symmetric(matrix, n) && Allocated(matrix, n, slots, given) && ii < |given| && slot < |slots|
    requires Free(matrix, slots[slot], ii) && forall k :: 0 <= k < |given[ii]| ==> given[ii][k] < slot
    ensures Allocated(matrix, n, slots[slot := slots[slot] + [ii]], given[ii := given[ii] + [slot]])
  {
    var slots', given' := slots[slot := slots[slot] + [ii]], given[ii := given[ii] + [slot]];
    forall s, k | 0 <= s < |slots'| && 0 <= k < |slots'[s]| ensures slots'[s][k] < |given'| && s in given'[slots'[s][k]] {
      if s != slot || k < |slots[slot]| {
        var i := slots[s][k];
        assert s in given[i];
      }
    }
    forall i, k | 0 <= i < |given'| && 0 <= k < |given'[i]| ensures given'[i][k] < |slots'| && i in slots'[given'[i][k]] {
      if i != ii || k < |given[ii]| {
        assert i in slots[given[i][k]];
      }
    }
    forall i, j, s | 0 <= i < |given'| && 0 <= j < |given'| && matrix[i][j] && s in given'[i] ensures s !in given'[j] {
      FreeOfOthers(matrix, n, slots, given, ii, slot);
    }
  }

  lemma FreeOfOthers(matrix: seq<seq<bool>>, n: nat, slots: seq<seq<nat>>, given: seq<seq<nat>>, ii: nat, slot: nat)
    requires Symmetric(matrix, n) && Allocated(matrix, n, slots, given) && ii < |given| && slot < |slots|
    requires Free(matrix, slots[slot], ii)
    ensures forall j :: 0 <= j < |given| && j != ii && slot in given[j] ==> !matrix[ii][j] && !matrix[j][ii]
  {
    forall j | 0 <= j < |given| && j != ii && slot in given[j] ensures !matrix[ii][j] && !matrix[j][ii] {
      var k :| 0 <= k < |given[j]| && given[j][k] == slot;
      assert j in slots[given[j][k]];
      var l :| 0 <= l < |slots[slot]| && slots[slot][l] == j;
    }
  }

  /** No interface before ii that some class implements together with ii has a method in the slot. */
  ghost predicate Open(classes: seq<seq<nat>>, given: seq<seq<nat>>, ii: nat, slot: nat)
  {
    forall j: nat :: j < ii && j < |given| && Together(classes, |classes|, ii, j) ==> slot !in given[j]
  }

  /** The least open slot behind a given one. */
  ghost predicate LeastOpen(classes: seq<seq<nat>>, given: seq<seq<nat>>, ii: nat, behind: int, slot: nat)
  {
    behind < slot && Open(classes, given, ii, slot) && forall s: nat :: behind < s < slot ==> !Open(classes, given, ii, s)
  }

  /** Every method of ii has the least open slot behind that of the method before it. */
  ghost predicate FirstFit(classes: seq<seq<nat>>, given: seq<seq<nat>>, ii: nat, mine: seq<nat>)
  {
    forall k: nat :: k < |mine| ==> FitsAt(classes, given, ii, mine, k)
  }

  ghost predicate FitsAt(classes: seq<seq<nat>>, given: seq<seq<nat>>, ii: nat, mine: seq<nat>, k: nat)
    requires k < |mine|
  {
    LeastOpen(classes, given, ii, Behind(mine, k), mine[k])
  }

  /** The slot behind which the search for the slot of method k starts. */
  function Behind(mine: seq<nat>, k: nat): int
    requires k < |mine|
  {
    if k == 0 then -1 else mine[k-1]
  }

  lemma FitsMore(classes: seq<seq<nat>>, given: seq<seq<nat>>, ii: nat, mine: seq<nat>, slot: nat)
    requires FirstFit(classes, given, ii, mine)
    requires LeastOpen(classes, given, ii, if mine == [] then -1 else mine[|mine|-1], slot)
    ensures FirstFit(classes, given, ii, mine + [slot])
  {
    hide LeastOpen;
    var more := mine + [slot];
    forall k: nat | k < |more| ensures FitsAt(classes, given, ii, more, k) {
      if k < |mine| {
        assert FitsAt(classes, given, ii, mine, k) && Behind(more, k) == Behind(mine, k);
      }
    }
  }

  /** First fit depends on which slots are open only. */
  lemma FitsAlike(classes: seq<seq<nat>>, classes': seq<seq<nat>>, given: seq<seq<nat>>, given': seq<seq<nat>>, ii: nat,
                  mine: seq<nat>)
    requires forall s: nat :: Open(classes, given, ii, s) <==> Open(classes', given', ii, s)
    requires FirstFit(classes', given', ii, mine)
    ensures FirstFit(classes, given, ii, mine)
  {
    hide Open;
    forall k: nat | k < |mine| ensures FitsAt(classes, given, ii, mine, k) {
      assert FitsAt(classes', given', ii, mine, k);
    }
  }

  /** What the search tests, though it looks at the owners of the slot only. */
  lemma FreeIsOpen(matrix: seq<seq<bool>>, n: nat, classes: seq<seq<nat>>, slots: seq<seq<nat>>, given: seq<seq<nat>>,
                   mine: seq<nat>, s: nat)
    requires Interferes(matrix, n, classes, |classes|) && |given| < n && Allocated(matrix, n, slots, given + [mine])
    requires s < |slots|
    ensures Free(matrix, slots[s], |given|) <==> Open(classes, given, |given|, s)
  {
    hide Together, Symmetric;
    var ii := |given|;
    if Free(matrix, slots[s], ii) {
      forall j: nat | j < ii && s in given[j] ensures !Together(classes, |classes|, ii, j) {
        var k :| 0 <= k < |given[j]| && given[j][k] == s;
        assert (given + [mine])[j][k] == s;
        var l :| 0 <= l < |slots[s]| && slots[s][l] == j;
        assert !matrix[ii][j];
      }
    }
    if Open(classes, given, ii, s) {
      forall k | 0 <= k < |slots[s]| ensures slots[s][k] < |matrix[ii]| && (slots[s][k] == ii || !matrix[ii][slots[s][k]]) {
        var j := slots[s][k];
        assert s in (given + [mine])[j];
      }
    }
  }

  /** A slot that nobody uses is open. */
  lemma NewIsOpen(matrix: seq<seq<bool>>, n: nat, classes: seq<seq<nat>>, slots: seq<seq<nat>>, given: seq<seq<nat>>,
                  mine: seq<nat>, ii: nat)
    requires Allocated(matrix, n, slots, given + [mine]) && ii <= |given|
    ensures Open(classes, given, ii, |slots|)
  {
    forall j: nat | j < ii ensures |slots| !in given[j] {
      assert (given + [mine])[j] == given[j];
      assert forall k :: 0 <= k < |given[j]| ==> given[j][k] < |slots|;
    }
  }

  /** The search finds the least open slot. */
  lemma NextIsLeast(matrix: seq<seq<bool>>, n: nat, classes: seq<seq<nat>>, slots0: seq<seq<nat>>,
                    slots: seq<seq<nat>>, given: seq<seq<nat>>,
                    mine: seq<nat>, behind: int, slot: nat)
    requires Interferes(matrix, n, classes, |classes|) && |given| < n && Allocated(matrix, n, slots0, given + [mine])
    requires -1 <= behind < slot < |slots| && (slots == slots0 || (slots == slots0 + [[]] && slot == |slots0|))
    requires Free(matrix, slots[slot], |given|) && forall s :: behind < s < slot ==> !Free(matrix, slots[s], |given|)
    ensures LeastOpen(classes, given, |given|, behind, slot)
  {
    hide Open, Free, Interferes, Allocated;
    if slot < |slots0| {
      FreeIsOpen(matrix, n, classes, slots0, given, mine, slot);
    } else {
      NewIsOpen(matrix, n, classes, slots0, given, mine, |given|);
    }
    forall s: nat | behind < s < slot ensures !Open(classes, given, |given|, s) {
      assert slots[s] == slots0[s];
      FreeIsOpen(matrix, n, classes, slots0, given, mine, s);
    }
  }

  /** The slots for the methods of interface ii. */
  method AllocateInterface(matrix: seq<seq<bool>>, n: nat, ghost classes: seq<seq<nat>>, slots0: seq<seq<nat>>,
                           ghost given0: seq<seq<nat>>,
                           ii: nat, count: nat)
      returns (slots: seq<seq<nat>>, mine: seq<nat>)
    requires Interferes(matrix, n, classes, |classes|) && ii < n && |given0| == ii && Allocated(matrix, n, slots0, given0)
    ensures |mine| == count && Allocated(matrix, n, slots, given0 + [mine]) && FirstFit(classes, given0, ii, mine)
  {
    hide Interferes, Allocated, LeastOpen, Free, FirstFit;
    FitsNone(classes, given0, ii);
    InterferenceIsSymmetric(matrix, n, classes, |classes|);
    slots, mine := slots0, [];
    StartInterface(matrix, n, slots0, given0);
    var slotIndex: int := -1;
    var m := 0;
    while m < count
      invariant m <= count && |mine| == m && Allocated(matrix, n, slots, given0 + [mine])
      invariant -1 <= slotIndex < |slots| && forall k :: 0 <= k < m ==> mine[k] <= slotIndex
      invariant slotIndex == (if m == 0 then -1 else mine[m-1]) && FirstFit(classes, given0, ii, mine)
    {
      ghost var was := slots;
      ghost var behind := slotIndex;
      OwnersBelow(matrix, n, slots, given0 + [mine]);
      slots, slotIndex := NextSlot(matrix, n, slots, ii, slotIndex + 1);
      NextIsLeast(matrix, n, classes, was, slots, given0, mine, behind, slotIndex);
      SlotAdded(matrix, n, was, slots, given0 + [mine]);
      AllocateStep(matrix, n, slots, given0 + [mine], ii, slotIndex);
      assert (given0 + [mine])[ii := (given0 + [mine])[ii] + [slotIndex]] == given0 + [mine + [slotIndex]];
      slots := slots[slotIndex := slots[slotIndex] + [ii]];
      FitsMore(classes, given0, ii, mine, slotIndex);
      mine := mine + [slotIndex];
      m := m + 1;
    }
  }

  lemma FitsNone(classes: seq<seq<nat>>, given: seq<seq<nat>>, ii: nat)
    ensures FirstFit(classes, given, ii, [])
  {
  }

  lemma OwnersBelow(matrix: seq<seq<bool>>, n: nat, slots: seq<seq<nat>>, given: seq<seq<nat>>)
    requires Allocated(matrix, n, slots, given)
    ensures forall s, k :: 0 <= s < |slots| && 0 <= k < |slots[s]| ==> slots[s][k] < n
  {
  }

  lemma StartInterface(matrix: seq<seq<bool>>, n: nat, slots: seq<seq<nat>>, given: seq<seq<nat>>)
    requires Allocated(matrix, n, slots, given) && |given| < n
    ensures Allocated(matrix, n, slots, given + [[]])
  {
    var given' := given + [[]];
    assert forall i :: 0 <= i < |given| ==> given'[i] == given[i];
  }

  lemma SlotAdded(matrix: seq<seq<bool>>, n: nat, slots: seq<seq<nat>>, slots': seq<seq<nat>>, given: seq<seq<nat>>)
    requires Allocated(matrix, n, slots, given) && (slots' == slots || slots' == slots + [[]])
    ensures Allocated(matrix, n, slots', given)
  {
  }

  /** container.l, allocateInterfaceSlotsColor, for all interfaces in their sorted order. */
  method AllocateSlots(n: nat, counts: seq<nat>, classes: seq<seq<nat>>, own: seq<bool>) returns (given: seq<seq<nat>>)
    requires |counts| == n && ClassesOk(n, classes) && Covered(classes, own)
    ensures |given| == n && forall i :: 0 <= i < n ==> |given[i]| == counts[i]
    ensures forall i, k, l :: 0 <= i < n && 0 <= k < l < counts[i] ==> given[i][k] != given[i][l]
    ensures forall i: nat, j: nat, k, l :: i < n && j < n && 0 <= k < counts[i] && 0 <= l < counts[j] && Together(classes, |classes|, i, j) ==>
              given[i][k] != given[j][l]
    ensures forall i :: 0 <= i < n ==> FirstFit(classes, given, i, given[i])
  {
    hide Interferes, Allocated, FirstFit, Together, Covered;
    var matrix := BuildInterference(n, classes, own);
    NothingAllocated(matrix, n, classes);
    var slots: seq<seq<nat>> := [];
    given := [];
    var ii := 0;
    while ii < n
      invariant ii <= n && |given| == ii && Allocated(matrix, n, slots, given)
      invariant forall i :: 0 <= i < ii ==> |given[i]| == counts[i] && FirstFit(classes, given, i, given[i])
    {
      var mine;
      slots, mine := AllocateInterface(matrix, n, classes, slots, given, ii, counts[ii]);
      forall i | 0 <= i <= ii ensures FirstFit(classes, given + [mine], i, (given + [mine])[i]) {
        FirstFitStays(classes, given, mine, i, (given + [mine])[i]);
      }
      given := given + [mine];
      ii := ii + 1;
    }
    NoClash(matrix, n, slots, given, classes);
  }

  lemma NoClash(matrix: seq<seq<bool>>, n: nat, slots: seq<seq<nat>>, given: seq<seq<nat>>, classes: seq<seq<nat>>)
    requires Allocated(matrix, n, slots, given) && |given| == n && Interferes(matrix, n, classes, |classes|)
    ensures forall i, k, l :: 0 <= i < n && 0 <= k < l < |given[i]| ==> given[i][k] != given[i][l]
    ensures forall i: nat, j: nat, k, l :: i < n && j < n && 0 <= k < |given[i]| && 0 <= l < |given[j]| && Together(classes, |classes|, i, j) ==>
              given[i][k] != given[j][l]
  {
    hide Together;
    forall i: nat, j: nat, k, l | i < n && j < n && 0 <= k < |given[i]| && 0 <= l < |given[j]| && Together(classes, |classes|, i, j)
      ensures given[i][k] != given[j][l]
    {
      assert matrix[i][j] && given[i][k] in given[i] && given[j][l] in given[j];
    }
  }

  lemma NothingAllocated(matrix: seq<seq<bool>>, n: nat, classes: seq<seq<nat>>)
    requires Interferes(matrix, n, classes, |classes|)
    ensures Allocated(matrix, n, [], [])
  {
  }

  /** Only the interfaces before i matter. */
  lemma FirstFitStays(classes: seq<seq<nat>>, given: seq<seq<nat>>, more: seq<nat>, i: nat, mine: seq<nat>)
    requires i <= |given| && FirstFit(classes, given, i, mine)
    ensures FirstFit(classes, given + [more], i, mine)
  {
    hide Together, FirstFit;
    forall s: nat ensures Open(classes, given + [more], i, s) <==> Open(classes, given, i, s) {
      assert forall j: nat :: j < i ==> (given + [more])[j] == given[j];
    }
    FitsAlike(classes, classes, given + [more], given, i, mine);
  }

  // ---------------------------------------------------------------------------------
  // The result does not depend on the order of the interfaces and of the classes.

  lemma {:induction false} SameFit(classes: seq<seq<nat>>, given: seq<seq<nat>>, ii: nat, mine: seq<nat>,
                                   mine': seq<nat>, m: nat)
    requires m <= |mine| == |mine'| && FirstFit(classes, given, ii, mine) && FirstFit(classes, given, ii, mine')
    ensures mine[..m] == mine'[..m]
  {
    hide Open;
    if m > 0 {
      var k := m - 1;
      SameFit(classes, given, ii, mine, mine', k);
      assert k > 0 ==> mine[k-1] == mine[..k][k-1] == mine'[..k][k-1] == mine'[k-1];
      assert Behind(mine, k) == Behind(mine', k) && FitsAt(classes, given, ii, mine, k) && FitsAt(classes, given, ii, mine', k);
      assert mine[..m] == mine[..k] + [mine[k]] && mine'[..m] == mine'[..k] + [mine'[k]];
    }
  }

  lemma FitOverSame(classes: seq<seq<nat>>, classes': seq<seq<nat>>, given: seq<seq<nat>>, given': seq<seq<nat>>,
                    i: nat, mine: seq<nat>)
    requires SameSet(classes, classes') && i <= |given| == |given'| && given[..i] == given'[..i] && FirstFit(classes', given', i, mine)
    ensures FirstFit(classes, given, i, mine)
  {
    hide Together, FirstFit;
    forall j: nat | j < i ensures Together(classes, |classes|, i, j) <==> Together(classes', |classes'|, i, j) {
      SameTogether(classes, classes', i, j);
      SameTogether(classes', classes, i, j);
    }
    forall s: nat ensures Open(classes, given, i, s) <==> Open(classes', given', i, s) {
      assert forall j: nat :: j < i ==> given[j] == given[..i][j] && given'[j] == given'[..i][j];
    }
    FitsAlike(classes, classes', given, given', i, mine);
  }

  ghost predicate SameSet<T(!new)>(classes: seq<seq<T>>, classes': seq<seq<T>>)
  {
    forall list :: list in classes <==> list in classes'
  }

  /** Two allocations for the same interfaces and the same classes, listed in any order, give the same slots. */
  lemma {:induction false} OrderDoesNotMatter(counts: seq<nat>, classes: seq<seq<nat>>, classes': seq<seq<nat>>,
                                              given: seq<seq<nat>>, given': seq<seq<nat>>, n: nat)
    requires SameSet(classes, classes') && n <= |given| == |given'| == |counts|
    requires forall i :: 0 <= i < |given| ==> |given[i]| == |given'[i]| == counts[i]
    requires forall i :: 0 <= i < |given| ==> FirstFit(classes, given, i, given[i]) && FirstFit(classes', given', i, given'[i])
    ensures given[..n] == given'[..n]
  {
    hide FirstFit, SameSet;
    if n > 0 {
      OrderDoesNotMatter(counts, classes, classes', given, given', n - 1);
      FitOverSame(classes, classes', given, given', n - 1, given'[n-1]);
      SameFit(classes, given, n - 1, given[n-1], given'[n-1], counts[n-1]);
      assert given[n-1][..counts[n-1]] == given[n-1] && given'[n-1][..counts[n-1]] == given'[n-1];
      assert given[..n] == given[..n-1] + [given[n-1]] && given'[..n] == given'[..n-1] + [given'[n-1]];
    }
  }

  // ---------------------------------------------------------------------------------
  // Interfaces under their decorated names, which are ordered like numbers.

  function IndexOf(order: seq<int>, name: int): (i: nat)
    requires name in order
    ensures i < |order| && order[i] == name
  {
    if order[0] == name then 0 else IndexOf(order[1..], name) + 1
  }

  lemma {:induction false} IndexIs(order: seq<int>, i: nat)
    requires i < |order| && forall k, l :: 0 <= k < l < |order| ==> order[k] != order[l]
    ensures IndexOf(order, order[i]) == i
  {
    if i > 0 { IndexIs(order[1..], i - 1); }
  }

  ghost predicate NamesOk(order: seq<int>, list: seq<int>)
  {
    forall k :: 0 <= k < |list| ==> list[k] in order
  }

  ghost predicate AllNamesOk(order: seq<int>, classes: seq<seq<int>>)
  {
    forall c :: 0 <= c < |classes| ==> NamesOk(order, classes[c])
  }

  function NumberedList(order: seq<int>, list: seq<int>): (r: seq<nat>)
    requires NamesOk(order, list)
  {
    seq(|list|, k requires 0 <= k < |list| => IndexOf(order, list[k]))
  }

  function Numbered(order: seq<int>, classes: seq<seq<int>>): (r: seq<seq<nat>>)
    requires AllNamesOk(order, classes)
    ensures |r| == |classes|
  {
    seq(|classes|, c requires 0 <= c < |classes| => NumberedList(order, classes[c]))
  }

  /** Some class implements both. */
  ghost predicate BothIn(classes: seq<seq<int>>, x: int, y: int)
  {
    exists c :: 0 <= c < |classes| && x in classes[c] && y in classes[c]
  }

  lemma NumberedHas(order: seq<int>, list: seq<int>, i: nat)
    requires Distinct(order) && NamesOk(order, list) && i < |order|
    ensures i in NumberedList(order, list) <==> order[i] in list
  {
    var r := NumberedList(order, list);
    if i in r {
      var k :| 0 <= k < |r| && r[k] == i;
      assert order[i] == list[k];
    }
    if order[i] in list {
      var k :| 0 <= k < |list| && list[k] == order[i];
      IndexIs(order, i);
      assert r[k] == i;
    }
  }

  lemma NumberedTogether(order: seq<int>, classes: seq<seq<int>>, i: nat, j: nat)
    requires Distinct(order) && AllNamesOk(order, classes) && i < |order| && j < |order|
    ensures Together(Numbered(order, classes), |classes|, i, j) <==> i != j && BothIn(classes, order[i], order[j])
  {
    hide Distinct, NamesOk, NumberedList;
    var numbered := Numbered(order, classes);
    forall c | 0 <= c < |classes|
      ensures i in numbered[c] <==> order[i] in classes[c]
      ensures j in numbered[c] <==> order[j] in classes[c]
    {
      assert NamesOk(order, classes[c]);
      NumberedHas(order, classes[c], i);
      NumberedHas(order, classes[c], j);
    }
  }

  lemma NumberedCovered(order: seq<int>, classes: seq<seq<int>>, own: seq<bool>)
    requires AllNamesOk(order, classes) && Covered(classes, own)
    ensures ClassesOk(|order|, Numbered(order, classes)) && Covered(Numbered(order, classes), own)
  {
    var numbered := Numbered(order, classes);
    forall c | 0 <= c < |classes| && !own[c] && numbered[c] != []
      ensures exists d :: 0 <= d < |classes| && own[d] && numbered[d] == numbered[c]
    {
      assert classes[c] != [];
      var d :| 0 <= d < |classes| && own[d] && classes[d] == classes[c];
      assert numbered[d] == numbered[c];
    }
  }

  lemma NumberedSame(order: seq<int>, classes: seq<seq<int>>, classes': seq<seq<int>>)
    requires AllNamesOk(order, classes) && AllNamesOk(order, classes') && SameSet(classes, classes')
    ensures SameSet(Numbered(order, classes), Numbered(order, classes'))
  {
    hide NumberedList;
    forall list ensures list in Numbered(order, classes) <==> list in Numbered(order, classes') {
      NumberedIn(order, classes, classes', list);
      NumberedIn(order, classes', classes, list);
    }
  }

  lemma NumberedIn(order: seq<int>, classes: seq<seq<int>>, classes': seq<seq<int>>, list: seq<nat>)
    requires AllNamesOk(order, classes) && AllNamesOk(order, classes') && SameSet(classes, classes')
    ensures list in Numbered(order, classes) ==> list in Numbered(order, classes')
  {
    hide NumberedList;
    if list in Numbered(order, classes) {
      var c :| 0 <= c < |classes| && Numbered(order, classes)[c] == list;
      assert classes[c] in classes';
      var d :| 0 <= d < |classes'| && classes'[d] == classes[c];
      assert Numbered(order, classes')[d] == list;
    }
  }

  /** The slots given to the methods of the interfaces in sorted order. */
  ghost predicate Colored(names: seq<int>, count: map<int, nat>, classes: seq<seq<int>>, order: seq<int>, given: seq<seq<nat>>)
  {
    && Sorted(order) && multiset(order) == multiset(names) && AllNamesOk(order, classes) && |given| == |order|
    && (forall i :: 0 <= i < |order| ==> order[i] in count && |given[i]| == count[order[i]])
    && forall i :: 0 <= i < |order| ==> FirstFit(Numbered(order, classes), given, i, given[i])
  }

  /** No two methods that some class implements both share a slot. */
  ghost predicate ClashFree(classes: seq<seq<int>>, order: seq<int>, given: seq<seq<nat>>)
    requires |order| == |given|
  {
    && (forall i, k, l :: 0 <= i < |order| && 0 <= k < l < |given[i]| ==> given[i][k] != given[i][l])
    && forall i: nat, j: nat, k, l ::
         i < |order| && j < |order| && 0 <= k < |given[i]| && 0 <= l < |given[j]| && i != j && BothIn(classes, order[i], order[j]) ==>
           given[i][k] != given[j][l]
  }

  ghost predicate Addresses(order: seq<int>, address: map<int, nat>)
  {
    forall i :: 0 <= i < |order| ==> order[i] in address && address[order[i]] == IndexOf(order, order[i])
  }

  /** The number of an interface is its place. */
  method NumberInterfaces(order: seq<int>) returns (address: map<int, nat>)
    requires Distinct(order)
    ensures Addresses(order, address)
  {
    address := map[];
    var j := 0;
    while j < |order|
      invariant j <= |order| && forall k: nat :: k < j ==> order[k] in address && address[order[k]] == k
    {
      address := address[order[j] := j];
      j := j + 1;
    }
    forall i | 0 <= i < |order| ensures order[i] in address && address[order[i]] == IndexOf(order, order[i]) {
      IndexIs(order, i);
    }
  }

  method NumberClasses(order: seq<int>, address: map<int, nat>, classes: seq<seq<int>>) returns (numbered: seq<seq<nat>>)
    requires AllNamesOk(order, classes) && Addresses(order, address)
    ensures numbered == Numbered(order, classes)
  {
    numbered := [];
    var c := 0;
    while c < |classes|
      invariant c <= |classes| == |Numbered(order, classes)| && numbered == Numbered(order, classes)[..c]
    {
      var list := classes[c];
      assert NamesOk(order, list);
      forall k | 0 <= k < |list| ensures list[k] in address && address[list[k]] == IndexOf(order, list[k]) {
        assert order[IndexOf(order, list[k])] == list[k];
      }
      numbered := numbered + [seq(|list|, k requires 0 <= k < |list| => address[list[k]])];
      assert numbered[c] == Numbered(order, classes)[c];
      c := c + 1;
    }
  }

  // ---------------------------------------------------------------------------------

  const ExampleClasses: seq<seq<nat>> := [[0, 2], [1]]

  /** Of three interfaces a class implements the first and the third, and the second is implemented by itself: it starts
      over at slot 0, and the third one goes behind the first. */
  method AllocateExample() returns (given: seq<seq<nat>>)
    ensures given == [[0, 1], [0], [2, 3]]
  {
    hide Open, FirstFit, Together;
    var counts := [2, 1, 2];
    given := AllocateSlots(3, counts, ExampleClasses, [true, true]);
    assert |given[0]| == 2 && |given[1]| == 1 && |given[2]| == 2;
    forall slot: nat ensures Open(ExampleClasses, given, 0, slot) && Open(ExampleClasses, given, 1, slot) {
      ExampleOpen(given, slot);
    }
    ExampleMine(given, 0);
    ExampleMine(given, 1);
    forall slot: nat ensures Open(ExampleClasses, given, 2, slot) <==> slot !in given[0] {
      ExampleOpen(given, slot);
    }
    ExampleLast(given);
    assert given[1] == [0] && given == [given[0], given[1], given[2]];
  }

  lemma ExampleOpen(given: seq<seq<nat>>, slot: nat)
    requires |given| == 3
    ensures Open(ExampleClasses, given, 0, slot) && Open(ExampleClasses, given, 1, slot)
    ensures Open(ExampleClasses, given, 2, slot) <==> slot !in given[0]
  {
    var list := ExampleClasses[0];
    assert list[0] == 0 && list[1] == 2;
    assert Together(ExampleClasses, 2, 2, 0) && !Together(ExampleClasses, 2, 1, 0) && !Together(ExampleClasses, 2, 2, 1);
  }

  lemma ExampleMine(given: seq<seq<nat>>, i: nat)
    requires i < |given| && FirstFit(ExampleClasses, given, i, given[i])
    requires forall slot: nat :: Open(ExampleClasses, given, i, slot)
    ensures |given[i]| >= 1 ==> given[i][0] == 0
    ensures |given[i]| >= 2 ==> given[i][1] == 1
  {
    hide Open;
    assert |given[i]| >= 1 ==> FitsAt(ExampleClasses, given, i, given[i], 0) && Open(ExampleClasses, given, i, 0);
    assert |given[i]| >= 2 ==> FitsAt(ExampleClasses, given, i, given[i], 1) && Open(ExampleClasses, given, i, 1);
  }

  lemma ExampleLast(given: seq<seq<nat>>)
    requires |given| == 3 && given[0] == [0, 1] && |given[2]| == 2 && FirstFit(ExampleClasses, given, 2, given[2])
    requires forall slot: nat :: Open(ExampleClasses, given, 2, slot) <==> slot !in given[0]
    ensures given[2] == [2, 3]
  {
    hide Open;
    assert FitsAt(ExampleClasses, given, 2, given[2], 0) && FitsAt(ExampleClasses, given, 2, given[2], 1);
    assert Open(ExampleClasses, given, 2, 2) && Open(ExampleClasses, given, 2, 3);
  }

  /** container.l, buildInterfaceTablesColor: the interfaces come in the order in which the set lists them. */
  method BuildInterfaceTables(names: seq<int>, count: map<int, nat>, classes: seq<seq<int>>, own: seq<bool>)
      returns (order: seq<int>, given: seq<seq<nat>>)
    requires Distinct(names) && (forall x :: x in names ==> x in count) && AllNamesOk(names, classes) && Covered(classes, own)
    ensures Colored(names, count, classes, order, given) && ClashFree(classes, order, given)
  {
    hide Covered, FirstFit, Together, BothIn, ClassesOk, NamesOk;
    var interfaces := new int[|names|](i requires 0 <= i < |names| => names[i]);
    assert interfaces[..] == names;
    Sort(interfaces);
    order := interfaces[..];
    SameNames(names, order, classes);
    var address := NumberInterfaces(order);
    var numbered := NumberClasses(order, address, classes);
    forall i | 0 <= i < |order| ensures order[i] in count {
      assert order[i] in order;
    }
    var counts := seq(|order|, i requires 0 <= i < |order| => count[order[i]]);
    NumberedCovered(order, classes, own);
    given := AllocateSlots(|order|, counts, numbered, own);
    forall i: nat, j: nat | i < |order| && j < |order|
      ensures Together(numbered, |numbered|, i, j) <==> i != j && BothIn(classes, order[i], order[j])
    {
      NumberedTogether(order, classes, i, j);
    }
  }

  lemma {:induction false} DistinctOnce(order: seq<int>, x: int)
    requires Distinct(order)
    ensures multiset(order)[x] <= 1
  {
    if order != [] {
      var n := |order| - 1;
      assert order == order[..n] + [order[n]] && order[n] !in order[..n];
      DistinctOnce(order[..n], x);
    }
  }

  lemma TwiceIsTwo(order: seq<int>, k: nat, l: nat)
    requires k < l < |order| && order[k] == order[l]
    ensures multiset(order)[order[k]] >= 2
  {
    assert order == order[..l] + [order[l]] + order[l+1..];
    assert order[..l][k] in order[..l];
  }

  lemma SameNames(names: seq<int>, order: seq<int>, classes: seq<seq<int>>)
    requires multiset(order) == multiset(names) && Distinct(names) && AllNamesOk(names, classes)
    ensures Distinct(order) && AllNamesOk(order, classes) && |order| == |names| && forall x :: x in order <==> x in names
  {
    assert |multiset(order)| == |multiset(names)|;
    forall x ensures x in order <==> x in names {
      assert x in order <==> x in multiset(order);
      assert x in names <==> x in multiset(names);
    }
    forall k, l | 0 <= k < l < |order| ensures order[k] != order[l] {
      DistinctOnce(names, order[k]);
      if order[k] == order[l] { TwiceIsTwo(order, k, l); }
    }
    forall c | 0 <= c < |classes| ensures NamesOk(order, classes[c]) {
      assert NamesOk(names, classes[c]);
    }
  }

  /** The slots of the methods do not depend on the order in which the interfaces and the classes were met. */
  lemma AnyOrder(names: seq<int>, names': seq<int>, count: map<int, nat>, classes: seq<seq<int>>, classes': seq<seq<int>>,
                 order: seq<int>, order': seq<int>, given: seq<seq<nat>>, given': seq<seq<nat>>)
    requires multiset(names) == multiset(names') && SameSet(classes, classes')
    requires Colored(names, count, classes, order, given) && Colored(names', count, classes', order', given')
    ensures order == order' && given == given'
  {
    hide FirstFit, Sorted, AllNamesOk, SameSet;
    SortedIsUnique(order, order');
    var counts := seq(|order|, i requires 0 <= i < |order| => count[order[i]]);
    NumberedSame(order, classes, classes');
    OrderDoesNotMatter(counts, Numbered(order, classes), Numbered(order, classes'), given, given', |order|);
    assert given[..|order|] == given && given'[..|order|] == given';
  }
}
