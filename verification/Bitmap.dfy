/**
 The allocation bitmap (easy-fs/src/bitmap.rs): blocks of 64 words of 64
 bits.  `alloc` takes the lowest free bit, `dealloc` clears a set one, and no
 other bit changes.
 */
module Bitmap {
  import opened Wrappers

  const BLOCK_BITS := 4096
  /** `u64::MAX`. */
  const FULL := 0xffff_ffff_ffff_ffff

  type u64 = x: int | 0 <= x <= FULL
  type BitmapBlock = b: seq<u64> | |b| == 64 witness ZeroWords()

  function ZeroWords(): seq<u64> { seq(64, _ => 0) }

  // ----- bits of a word -----

  function Pow2(k: nat): (r: nat)
    ensures r > 0
  {
    if k == 0 then 1 else 2 * Pow2(k - 1)
  }

  predicate Bit(w: nat, k: nat) { if k == 0 then w % 2 == 1 else Bit(w / 2, k - 1) }

  /** `w | 1 << k`. */
  function SetBit(w: nat, k: nat): nat {
    if k == 0 then w / 2 * 2 + 1 else 2 * SetBit(w / 2, k - 1) + w % 2
  }

  /** `trailing_ones`. */
  function TrailingOnes(w: nat): (n: nat)
    ensures !Bit(w, n) && forall j :: 0 <= j < n ==> Bit(w, j)
  {
    if w % 2 == 0 then 0
    else
      var n := TrailingOnes(w / 2);
      assert forall j :: 0 < j < n + 1 ==> Bit(w, j) == Bit(w / 2, j - 1);
      n + 1
  }

  lemma {:induction false} SetBitBits(w: nat, k: nat, j: nat)
    ensures Bit(SetBit(w, k), j) == (j == k || Bit(w, j))
  {
    if k > 0 && j > 0 { SetBitBits(w / 2, k - 1, j - 1); }
  }

  /** Subtracting `1 << k` from a word with bit `k` set borrows from no other bit. */
  lemma {:induction false} ClearBitBits(w: nat, k: nat, j: nat)
    requires Bit(w, k)
    ensures Pow2(k) <= w && Bit(w - Pow2(k), j) == (j != k && Bit(w, j))
  {
    if k > 0 {
      ClearBitBits(w / 2, k - 1, if j > 0 then j - 1 else 0);
      assert (w - Pow2(k)) / 2 == w / 2 - Pow2(k - 1);
    }
  }

  /** Only the all-ones word of `n` bits has no free bit below `n`. */
  lemma {:induction false} FreeBit(w: nat, n: nat)
    requires w < Pow2(n)
    ensures TrailingOnes(w) <= n && (TrailingOnes(w) == n <==> w == Pow2(n) - 1)
  {
    if n > 0 { FreeBit(w / 2, n - 1); }
  }

  lemma {:induction false} SetBitBound(w: nat, k: nat, n: nat)
    requires w < Pow2(n) && k < n
    ensures SetBit(w, k) < Pow2(n)
  {
    if k > 0 { SetBitBound(w / 2, k - 1, n - 1); }
  }

  lemma {:induction false} HighBits(w: nat, n: nat, k: nat)
    requires w < Pow2(n) && n <= k
    ensures !Bit(w, k)
  {
    if k > 0 { HighBits(w / 2, if n > 0 then n - 1 else 0, k - 1); }
  }

  lemma Pow64()
    ensures Pow2(64) == FULL + 1
  {
    hide Pow2;
    assert Pow2(4) == 16 by { PowSmall(); }
    Pow2Add(4, 4);
    Pow2Add(8, 8);
    Pow2Add(16, 16);
    Pow2Add(32, 32);
  }

  lemma PowSmall()
    ensures Pow2(4) == 16
  {
    assert Pow2(2) == 4;
  }

  lemma {:induction false} Pow2Add(a: nat, b: nat)
    ensures Pow2(a + b) == Pow2(a) * Pow2(b)
  {
    if a > 0 {
      Pow2Add(a - 1, b);
      assert Pow2(a + b) == 2 * (Pow2(a - 1) * Pow2(b));
    }
  }

  // ----- bits of the bitmap -----

  /** `decomposition`. */
  function Decomposition(bit: nat): (r: (nat, nat, nat))
    ensures r.0 * BLOCK_BITS + r.1 * 64 + r.2 == bit && r.1 < 64 && r.2 < 64
  {
    (bit / BLOCK_BITS, bit % BLOCK_BITS / 64, bit % BLOCK_BITS % 64)
  }

  lemma DecompositionUnique(block: nat, word: nat, inner: nat)
    requires word < 64 && inner < 64
    ensures Decomposition(block * BLOCK_BITS + word * 64 + inner) == (block, word, inner)
  {
  }

  predicate Marked(blocks: seq<BitmapBlock>, bit: nat)
    requires bit < |blocks| * BLOCK_BITS
  {
    var (b, w, i) := Decomposition(bit);
    Bit(blocks[b][w], i)
  }

  function WithWord(blocks: seq<BitmapBlock>, b: nat, w: nat, x: u64): seq<BitmapBlock>
    requires b < |blocks| && w < 64
  {
    blocks[b := blocks[b][w := x]]
  }

  /** A word that differs from the old one in bit `i` only. */
  lemma OneBitChanges(blocks: seq<BitmapBlock>, b: nat, w: nat, i: nat, x: u64, value: bool)
    requires b < |blocks| && w < 64 && i < 64
    requires forall j: nat :: Bit(x, j) == if j == i then value else Bit(blocks[b][w], j)
    ensures forall bit: nat :: bit < |blocks| * BLOCK_BITS ==>
              Marked(WithWord(blocks, b, w, x), bit) ==
              if bit == b * BLOCK_BITS + w * 64 + i then value else Marked(blocks, bit)
  {
    forall bit: nat | bit < |blocks| * BLOCK_BITS
      ensures Marked(WithWord(blocks, b, w, x), bit) == if bit == b * BLOCK_BITS + w * 64 + i then value
              else Marked(blocks, bit)
    {
      hide Bit, Decomposition;
      DecompositionUnique(b, w, i);
      var (b1, w1, i1) := Decomposition(bit);
      if b1 == b && w1 == w { assert Bit(x, i1) == if i1 == i then value else Bit(blocks[b][w], i1); }
    }
  }

  class Bitmap {
    /** The bitmap's blocks on the device, in order. */
    var blocks: seq<BitmapBlock>

    constructor (count: nat)
      ensures |blocks| == count && forall bit: nat :: bit < count * BLOCK_BITS ==> !Marked(blocks, bit)
    {
      blocks := seq(count, _ => ZeroWords());
      new;
      forall bit: nat | bit < count * BLOCK_BITS ensures !Marked(blocks, bit) {
        HighBits(0, 0, Decomposition(bit).2);
      }
    }

    /** `alloc`: the lowest free bit, or none exactly when all are marked. */
    method Alloc() returns (pos: Option<nat>)
      modifies this
      ensures |blocks| == |old(blocks)|
      ensures pos.None? ==> blocks == old(blocks) && forall bit: nat :: bit < |blocks| * BLOCK_BITS ==>
              Marked(blocks, bit)
      ensures pos.Some? ==>
                && pos.value < |blocks| * BLOCK_BITS && !Marked(old(blocks), pos.value)
                && (forall bit: nat :: bit < pos.value ==> Marked(old(blocks), bit))
                && forall bit: nat :: bit < |blocks| * BLOCK_BITS ==>
                     Marked(blocks, bit) == (bit == pos.value || Marked(old(blocks), bit))
    {
      hide Bit, SetBit, TrailingOnes;
      var b := 0;
      while b < |blocks|
        invariant 0 <= b <= |blocks| && blocks == old(blocks)
        invariant forall bit: nat :: bit < b * BLOCK_BITS ==> Marked(blocks, bit)
      {
        var w := FirstFree(blocks[b]);
        LowerWords(blocks, b, w);
        if w < 64 {
          Pow64();
          var inner := TrailingOnes(blocks[b][w]);
          FreeBit(blocks[b][w], 64);
          SetBitBound(blocks[b][w], inner, 64);
          LowerBits(blocks, b, w, inner);
          var x := SetBit(blocks[b][w], inner);
          forall j: nat ensures Bit(x, j) == if j == inner then true else Bit(blocks[b][w], j) {
            SetBitBits(blocks[b][w], inner, j);
          }
          OneBitChanges(blocks, b, w, inner, x, true);
          DecompositionUnique(b, w, inner);
          blocks := WithWord(blocks, b, w, x);
          return Some(b * BLOCK_BITS + w * 64 + inner);
        }
        b := b + 1;
      }
      pos := None;
    }

    /** `dealloc`: `ok` is false where the assertion fails. */
    method Dealloc(bit: nat) returns (ok: bool)
      requires bit < |blocks| * BLOCK_BITS
      modifies this
      ensures |blocks| == |old(blocks)| && ok == old(Marked(blocks, bit))
      ensures !ok ==> blocks == old(blocks)
      ensures ok ==> forall j: nat :: j < |blocks| * BLOCK_BITS ==>
              Marked(blocks, j) == (j != bit && Marked(old(blocks), j))
    {
      hide Bit;
      var (b, w, i) := Decomposition(bit);
      if !Bit(blocks[b][w], i) { return false; }
      forall j: nat
        ensures Pow2(i) <= blocks[b][w]
        ensures Bit(blocks[b][w] - Pow2(i), j) == if j == i then false else Bit(blocks[b][w], j)
      {
        ClearBitBits(blocks[b][w], i, j);
      }
      ClearBitBits(blocks[b][w], i, 0);
      OneBitChanges(blocks, b, w, i, blocks[b][w] - Pow2(i), false);
      blocks := WithWord(blocks, b, w, blocks[b][w] - Pow2(i));
      ok := true;
    }
  }

  /** The first word with a free bit, or 64. */
  method FirstFree(block: BitmapBlock) returns (w: nat)
    ensures w <= 64 && (w < 64 ==> block[w] != FULL)
    ensures forall j :: 0 <= j < w ==> block[j] == FULL
  {
    w := 0;
    while w < 64 && block[w] == FULL
      invariant w <= 64 && forall j :: 0 <= j < w ==> block[j] == FULL
    {
      w := w + 1;
    }
  }

  lemma FullWord(k: nat)
    requires k < 64
    ensures Bit(FULL, k)
  {
    Pow64();
    FreeBit(FULL, 64);
  }

  /** Full words before `w` and full blocks before `b`: every bit below them is marked. */
  lemma LowerWords(blocks: seq<BitmapBlock>, b: nat, w: nat)
    requires b < |blocks| && w <= 64 && forall j :: 0 <= j < w ==> blocks[b][j] == FULL
    requires forall bit: nat :: bit < b * BLOCK_BITS ==> Marked(blocks, bit)
    ensures forall bit: nat :: bit < b * BLOCK_BITS + w * 64 ==> Marked(blocks, bit)
  {
    forall bit: nat | b * BLOCK_BITS <= bit < b * BLOCK_BITS + w * 64 ensures Marked(blocks, bit) {
      hide Bit, Decomposition;
      var (b1, w1, i1) := Decomposition(bit);
      assert b1 == b && w1 < w;
      FullWord(i1);
    }
  }

  lemma LowerBits(blocks: seq<BitmapBlock>, b: nat, w: nat, i: nat)
    requires b < |blocks| && w < 64 && i < 64 && i == TrailingOnes(blocks[b][w])
    requires forall bit: nat :: bit < b * BLOCK_BITS + w * 64 ==> Marked(blocks, bit)
    ensures forall bit: nat :: bit < b * BLOCK_BITS + w * 64 + i ==> Marked(blocks, bit)
    ensures !Marked(blocks, b * BLOCK_BITS + w * 64 + i)
  {
    hide Bit, Decomposition;
    DecompositionUnique(b, w, i);
    forall bit: nat | b * BLOCK_BITS + w * 64 <= bit < b * BLOCK_BITS + w * 64 + i ensures Marked(blocks, bit) {
      DecompositionUnique(b, w, bit - b * BLOCK_BITS - w * 64);
    }
  }
}
