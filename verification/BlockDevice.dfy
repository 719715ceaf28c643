/**
 Blocks of 512 bytes, as every layer above the block cache sees them.  A
 32-bit word of an index block is four little-endian bytes of it.
 */
module BlockDevice {
  type byte = x: int | 0 <= x < 256
  type u32 = x: int | 0 <= x < 0x1_0000_0000

  const BLOCK_SZ := 512

  type Block = b: seq<byte> | |b| == BLOCK_SZ witness Zeros(BLOCK_SZ)
  type Blocks = map<u32, Block>

  function Zeros(n: nat): (s: seq<byte>)
    ensures |s| == n && forall i :: 0 <= i < n ==> s[i] == 0
  {
    seq(n, _ => 0)
  }

  const ZeroBlock: Block := Zeros(BLOCK_SZ)

  function Join(b0: byte, b1: byte, b2: byte, b3: byte): u32 { b0 + 0x100 * b1 + 0x1_0000 * b2 + 0x100_0000 * b3 }

  /** `index[k]` of an index block. */
  function Word(b: Block, k: nat): u32
    requires k < 128
  {
    Join(b[4 * k], b[4 * k + 1], b[4 * k + 2], b[4 * k + 3])
  }

  /** The block after `index[k] = x`. */
  function WithWord(b: Block, k: nat, x: u32): Block
    requires k < 128
  {
    b[4 * k := Digit(x, 0)][4 * k + 1 := Digit(x, 1)][4 * k + 2 := Digit(x, 2)][4 * k + 3 := Digit(x, 3)]
  }

  /** Byte `i` of a word, lowest first. */
  function Digit(x: nat, i: nat): byte { if i == 0 then x % 0x100 else Digit(x / 0x100, i - 1) }

  lemma JoinSplit(x: u32)
    ensures Join(Digit(x, 0), Digit(x, 1), Digit(x, 2), Digit(x, 3)) == x
  {
    var a := x / 0x100;
    var b := a / 0x100;
    var c := b / 0x100;
    assert x == 0x100 * a + Digit(x, 0) && a < 0x100_0000;
    assert a == 0x100 * b + Digit(a, 0) && b < 0x1_0000;
    assert b == 0x100 * c + Digit(b, 0) && c < 0x100;
    assert Digit(x, 1) == Digit(a, 0) && Digit(x, 2) == Digit(a, 1) == Digit(b, 0);
    assert Digit(x, 3) == Digit(a, 2) == Digit(b, 1) == Digit(c, 0) == c;
  }

  /** One word changes, no other does. */
  lemma WordAfter(b: Block, k: nat, x: u32, j: nat)
    requires k < 128 && j < 128
    ensures Word(WithWord(b, k, x), j) == if j == k then x else Word(b, j)
  {
    hide Join, Digit;
    JoinSplit(x);
  }

  /** Words are little-endian: byte `4 * k + i` of the block is byte `i` of word `k`, and no other byte changes. */
  lemma WordBytes(b: Block, k: nat, x: u32, j: nat)
    requires k < 128 && j < 512
    ensures WithWord(b, k, x)[j] ==
            if j == 4 * k then x % 0x100
            else if j == 4 * k + 1 then x / 0x100 % 0x100
            else if j == 4 * k + 2 then x / 0x1_0000 % 0x100
            else if j == 4 * k + 3 then x / 0x100_0000
            else b[j]
    ensures var at := (i: nat) => if i < 4 then b[4 * k + i] as int else 0;
            Word(b, k) as int == at(0) + 0x100 * at(1) + 0x1_0000 * at(2) + 0x100_0000 * at(3)
  {
    DigitsAre(x);
    hide Digit;
  }

  lemma DigitsAre(x: u32)
    ensures Digit(x, 0) == x % 0x100 && Digit(x, 1) == x / 0x100 % 0x100
    ensures Digit(x, 2) == x / 0x1_0000 % 0x100 && Digit(x, 3) == x / 0x100_0000
  {
    var a := x / 0x100;
    var b := a / 0x100;
    var c := b / 0x100;
    DividedTwice(x);
    DividedAgain(x);
    assert Digit(x, 1) == Digit(a, 0) && Digit(x, 2) == Digit(a, 1) == Digit(b, 0);
    assert Digit(x, 3) == Digit(a, 2) == Digit(b, 1) == Digit(c, 0) && c < 0x100;
  }

  lemma DividedTwice(x: nat)
    ensures x / 0x100 / 0x100 == x / 0x1_0000
  {
    var q := x / 0x100;
    var r := q / 0x100;
    var rest := 0x100 * (q % 0x100) + x % 0x100;
    assert x == 0x1_0000 * r + rest && rest < 0x1_0000;
  }

  lemma DividedAgain(x: nat)
    ensures x / 0x1_0000 / 0x100 == x / 0x100_0000
  {
    var q := x / 0x1_0000;
    var r := q / 0x100;
    var rest := 0x1_0000 * (q % 0x100) + x % 0x1_0000;
    assert x == 0x100_0000 * r + rest && rest < 0x100_0000;
  }

  /** The device shared by all inodes; every access goes through the cache, whose view this is. */
  class Disk {
    var blocks: Blocks
  }
}
