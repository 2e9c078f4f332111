/** Bit rows packed into 32-bit words (jay/defs.h). */
module Words {

  const BITS_PER_WORD := 32

  /** The number of words that hold n bits. */
  function WORDSIZE(n: nat): nat
  {
    (n + BITS_PER_WORD - 1) / BITS_PER_WORD
  }

  function Mask(i: nat): bv32
    requires i < 32
  {
    1 << i
  }

  predicate Meets(word: bv32, mask: bv32)
  {
    word & mask != 0
  }

  predicate WordBit(word: bv32, i: nat)
  {
    i < 32 && Meets(word, Mask(i))
  }

  function SetWordBit(word: bv32, i: nat): bv32
    requires i < 32
  {
    word | (1 << i)
  }

  function Or(a: bv32, b: bv32): bv32
  {
    a | b
  }

  /** Bit c of the row that starts at `row`. */
  predicate Bit(words: seq<bv32>, row: nat, c: nat)
  {
    row + c / 32 < |words| && WordBit(words[row + c / 32], c % 32)
  }

  lemma BitOfWord(words: seq<bv32>, w: nat, i: nat)
    requires w < |words| && i < 32
    ensures Bit(words, 0, 32 * w + i) <==> WordBit(words[w], i)
  {
    hide WordBit;
    assert (32 * w + i) / 32 == w && (32 * w + i) % 32 == i;
  }

  lemma NoWordBit(i: nat)
    ensures !WordBit(0, i)
  {
    if i < 32 { NoBit(i); }
  }

  /** Storing a word with one more bit set changes that bit of the row and no other. */
  lemma SetBitEffect(a: bv32, b: nat, c: nat)
    requires b < 32 && c < 32
    ensures (a | (1 << b)) & (1 << c) != 0 <==> a & (1 << c) != 0 || b == c
  {
    OrBit(a, 1 << b, 1 << c);
    if b == c {
      OneBit(b);
    } else {
      OtherBit(b, c);
    }
  }

  lemma SetWordBitEffect(a: bv32, b: nat, c: nat)
    requires b < 32 && c < 32
    ensures WordBit(SetWordBit(a, b), c) <==> WordBit(a, c) || b == c
  {
    SetBitEffect(a, b, c);
  }

  lemma OrBit(a: bv32, b: bv32, m: bv32)
    ensures (a | b) & m != 0 <==> a & m != 0 || b & m != 0
  {
  }

  lemma JoinMeets(a: bv32, b: bv32, m: bv32)
    ensures Meets(a | b, m) <==> Meets(a, m) || Meets(b, m)
  {
    OrBit(a, b, m);
  }

  lemma OrMeets(a: bv32, b: bv32, m: bv32)
    ensures Meets(Or(a, b), m) <==> Meets(a, m) || Meets(b, m)
  {
    hide Meets;
    JoinMeets(a, b, m);
  }

  lemma OrWordBit(a: bv32, b: bv32, i: nat)
    ensures WordBit(Or(a, b), i) <==> WordBit(a, i) || WordBit(b, i)
  {
    hide Meets, Mask, Or;
    if i < 32 { OrMeets(a, b, Mask(i)); }
  }

  lemma OneBit(b: nat)
    requires b < 32
    ensures ((1 as bv32) << b) & (1 << b) != 0
  {
  }

  lemma OtherBit(b: nat, c: nat)
    requires b < 32 && c < 32 && b != c
    ensures ((1 as bv32) << b) & (1 << c) == 0
  {
  }

  lemma NoBit(c: nat)
    requires c < 32
    ensures (0 as bv32) & (1 << c) == 0
  {
  }

  /** Where row i starts in a matrix of rows of `width` bits: i * WORDSIZE(width). */
  function RowOf(i: nat, width: nat): (row: nat)
  {
    if i == 0 then 0 else RowOf(i - 1, width) + WORDSIZE(width)
  }

  lemma {:induction false} RowsAscend(i: nat, j: nat, width: nat)
    requires i < j
    ensures RowOf(i, width) + WORDSIZE(width) <= RowOf(j, width)
    decreases j
  {
    if i < j - 1 {
      RowsAscend(i, j - 1, width);
    }
  }

  /** Row i of a matrix of n rows lies inside the matrix. */
  lemma RowInside(i: nat, n: nat, width: nat)
    requires i < n
    ensures RowOf(i, width) + WORDSIZE(width) <= RowOf(n, width)
  {
    RowsAscend(i, n, width);
  }

  lemma ColumnInside(c: nat, n: nat)
    requires c < n
    ensures c / 32 < WORDSIZE(n)
  {
  }

  /** Two rows share no words. */
  lemma RowsApart(i: nat, j: nat, width: nat)
    requires i != j
    ensures RowOf(i, width) + WORDSIZE(width) <= RowOf(j, width) || RowOf(j, width) + WORDSIZE(width) <= RowOf(i, width)
  {
    if i < j {
      RowsAscend(i, j, width);
    } else {
      RowsAscend(j, i, width);
    }
  }

  /** now is was with bit c of the row at `row` set. */
  ghost predicate BitSet(was: seq<bv32>, now: seq<bv32>, row: nat, c: nat)
  {
    row + c / 32 < |was| && now == was[row + c / 32 := SetWordBit(was[row + c / 32], c % 32)]
  }

  /** SETBIT changes bit c of its row and no other bit of that row. */
  lemma BitSetSameRow(was: seq<bv32>, now: seq<bv32>, row: nat, c: nat, d: nat)
    requires BitSet(was, now, row, c)
    ensures Bit(now, row, d) <==> Bit(was, row, d) || d == c
  {
    hide WordBit, SetWordBit, Or;
    SameColumn(c, d);
    var w, x := row + c / 32, row + d / 32;
    assert w == x <==> c / 32 == d / 32;
    if x < |was| {
      WordSet(was, now, w, c % 32, x, d % 32);
    }
  }

  lemma WordSet(was: seq<bv32>, now: seq<bv32>, w: nat, b: nat, x: nat, c: nat)
    requires w < |was| && x < |was| && b < 32 && c < 32 && now == was[w := SetWordBit(was[w], b)]
    ensures WordBit(now[x], c) <==> WordBit(was[x], c) || (x == w && b == c)
  {
    hide WordBit, SetWordBit, Or;
    if x == w {
      SetWordBitEffect(was[w], b, c);
    }
  }

  lemma SameColumn(c: nat, d: nat)
    ensures c == d <==> c / 32 == d / 32 && c % 32 == d % 32
  {
    assert c == 32 * (c / 32) + c % 32 && d == 32 * (d / 32) + d % 32;
  }

  /** In a matrix of rows of equal size, setting bit c of row d changes no other bit. */
  lemma MatrixBitSet(was: seq<bv32>, now: seq<bv32>, width: nat, d: nat, c: nat, i: nat, j: nat)
    requires c / 32 < WORDSIZE(width) && j / 32 < WORDSIZE(width) && BitSet(was, now, RowOf(d, width), c)
    ensures Bit(now, RowOf(i, width), j) <==> Bit(was, RowOf(i, width), j) || (i == d && j == c)
  {
    if i == d {
      BitSetSameRow(was, now, RowOf(d, width), c, j);
    } else {
      RowsApart(d, i, width);
    }
  }

  /** SETBIT: set bit c of the row that starts at `row`. */
  method SETBIT(r: array<bv32>, row: nat, c: nat)
    requires row + c / 32 < r.Length
    modifies r
    ensures BitSet(old(r[..]), r[..], row, c)
  {
    r[row + c / 32] := SetWordBit(r[row + c / 32], c % 32);
  }

  /** The row of `now` is the row of `was` with the row of `other` added, word by word. */
  ghost predicate RowOr(was: seq<bv32>, now: seq<bv32>, row: nat, other: seq<bv32>, row': nat, size: nat)
  {
    && row + size <= |was| == |now| && row' + size <= |other|
    && forall k: nat :: k < size ==> WordOr(was, now, row, other, row', k)
  }

  ghost predicate WordOr(was: seq<bv32>, now: seq<bv32>, row: nat, other: seq<bv32>, row': nat, k: nat)
  {
    row + k < |was| && row + k < |now| && row' + k < |other| && now[row + k] == Or(was[row + k], other[row' + k])
  }

  lemma RowOrNext(was: seq<bv32>, now: seq<bv32>, row: nat, other: seq<bv32>, row': nat, size: nat)
    requires RowOr(was, now, row, other, row', size) && row + size < |was| && row' + size < |other|
    requires now[row + size] == was[row + size]
    ensures RowOr(was, now[row + size := Or(was[row + size], other[row' + size])], row, other, row', size + 1)
  {
    var now' := now[row + size := Or(was[row + size], other[row' + size])];
    forall k: nat | k < size ensures WordOr(was, now', row, other, row', k) {
      assert WordOr(was, now, row, other, row', k);
    }
  }

  lemma RowOrBits(was: seq<bv32>, now: seq<bv32>, row: nat, other: seq<bv32>, row': nat, size: nat, c: nat)
    requires RowOr(was, now, row, other, row', size) && c / 32 < size
    ensures Bit(now, row, c) <==> Bit(was, row, c) || Bit(other, row', c)
  {
    hide WordBit, SetWordBit, Or;
    assert WordOr(was, now, row, other, row', c / 32);
    OrWordBit(was[row + c / 32], other[row' + c / 32], c % 32);
  }

  /** The word loop that adds the row at src to the row at dst. */
  method OrRow(r: array<bv32>, dst: nat, src: nat, size: nat)
    requires dst + size <= r.Length && src + size <= r.Length
    requires dst == src || dst + size <= src || src + size <= dst
    modifies r
    ensures forall k :: 0 <= k < r.Length && !(dst <= k < dst + size) ==> r[k] == old(r[k])
    ensures RowOr(old(r[..]), r[..], dst, old(r[..]), src, size)
  {
    hide Or, WordOr;
    ghost var was := r[..];
    var k := 0;
    while k < size
      invariant k <= size && RowOr(was, r[..], dst, was, src, k)
      invariant forall w :: 0 <= w < r.Length && !(dst <= w < dst + k) ==> r[w] == was[w]
    {
      RowOrNext(was, r[..], dst, was, src, k);
      r[dst + k] := Or(r[dst + k], r[src + k]);
      k := k + 1;
    }
  }

  /** The word loop that adds the row of src at `row` to the words of dst. */
  method OrFrom(dst: array<bv32>, src: array<bv32>, row: nat)
    requires dst != src && row + dst.Length <= src.Length
    modifies dst
    ensures RowOr(old(dst[..]), dst[..], 0, src[..], row, dst.Length)
  {
    hide Or, WordOr;
    ghost var was := dst[..];
    var k := 0;
    while k < dst.Length
      invariant k <= dst.Length && RowOr(was, dst[..], 0, src[..], row, k)
      invariant forall w :: k <= w < dst.Length ==> dst[w] == was[w]
    {
      RowOrNext(was, dst[..], 0, src[..], row, k);
      dst[k] := Or(dst[k], src[row + k]);
      k := k + 1;
    }
  }
}
