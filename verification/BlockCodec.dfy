/** How fs.c reads integers and bits out of a block of bytes. */
module BlockCodec {

  /** Bytes are integers from 0 to 255. */
  type Bytes = seq<int>

  ghost predicate AreBytes(b: Bytes) {
    forall k :: 0 <= k < |b| ==> 0 <= b[k] < 256
  }

  // ---------------------------------------------------------------- 32-bit words, least significant byte first

  function Word(b: Bytes, i: nat): int
    requires 4 * i + 4 <= |b|
  {
    b[4 * i] + 0x100 * b[4 * i + 1] + 0x1_0000 * b[4 * i + 2] + 0x100_0000 * b[4 * i + 3]
  }

  function SetWord(b: Bytes, i: nat, v: int): (r: Bytes)
    requires 4 * i + 4 <= |b|
    ensures |r| == |b|
  {
    b[4 * i := v % 0x100][4 * i + 1 := (v / 0x100) % 0x100][4 * i + 2 := (v / 0x1_0000) % 0x100]
     [4 * i + 3 := (v / 0x100_0000) % 0x100]
  }

  lemma {:induction false} FourBytes(v: int)
    requires 0 <= v < 0x1_0000_0000
    ensures v == v % 0x100 + 0x100 * ((v / 0x100) % 0x100) + 0x1_0000 * ((v / 0x1_0000) % 0x100) + 0x100_0000 * ((v / 0x100_0000) % 0x100)
  {
    var a := v / 0x100;
    var c := a / 0x100;
    assert v / 0x1_0000 == c;
    assert v / 0x100_0000 == c / 0x100;
  }

  /** Writing a word changes that word and no other. */
  lemma {:induction false} WordSet(b: Bytes, i: nat, v: int, j: nat)
    requires 4 * i + 4 <= |b| && 4 * j + 4 <= |b| && 0 <= v < 0x1_0000_0000
    ensures Word(SetWord(b, i, v), j) == if j == i then v else Word(b, j)
  {
    FourBytes(v);
  }

  lemma {:induction false} WordSetBytes(b: Bytes, i: nat, v: int)
    requires 4 * i + 4 <= |b| && AreBytes(b)
    ensures AreBytes(SetWord(b, i, v))
  {
  }

  function Zeros(n: nat): (r: Bytes)
    ensures |r| == n && AreBytes(r)
  {
    seq(n, _ => 0)
  }

  lemma {:induction false} WordZero(n: nat, i: nat)
    requires 4 * i + 4 <= n
    ensures Word(Zeros(n), i) == 0
  {
  }

  // ---------------------------------------------------------------- bits

  /** 1 << k. */
  function Mask(k: nat): (m: int)
    ensures m > 0
  {
    if k == 0 then 1 else 2 * Mask(k - 1)
  }

  /** (x & (1 << k)) != 0. */
  predicate Bit(x: int, k: nat)
    decreases k
  {
    if k == 0 then x % 2 == 1 else Bit(x / 2, k - 1)
  }

  /** x |= 1 << k for a bit that is clear: the mask is added, and no other bit changes. */
  lemma {:induction false} BitSet(x: int, k: nat, j: nat)
    requires 0 <= x && !Bit(x, k)
    ensures Bit(x + Mask(k), j) == (j == k || Bit(x, j))
    decreases k
  {
    if k == 0 {
      assert (x + 1) / 2 == x / 2;
    } else {
      assert (x + Mask(k)) / 2 == x / 2 + Mask(k - 1);
      if j > 0 { BitSet(x / 2, k - 1, j - 1); }
    }
  }

  /** x &= ~(1 << k) for a bit that is set: the mask is subtracted, and no other bit changes. */
  lemma {:induction false} BitCleared(x: int, k: nat, j: nat)
    requires 0 <= x && Bit(x, k)
    ensures x - Mask(k) >= 0 && !Bit(x - Mask(k), k) && Bit(x - Mask(k), j) == (j != k && Bit(x, j))
    decreases k
  {
    if k == 0 {
      assert (x - 1) / 2 == x / 2;
    } else {
      BitCleared(x / 2, k - 1, if j > 0 then j - 1 else 0);
      assert (x - Mask(k)) / 2 == x / 2 - Mask(k - 1);
    }
  }

  /** Setting a clear bit of an n-bit number stays within n bits. */
  lemma {:induction false} BitSetBound(x: int, k: nat, n: nat)
    requires 0 <= x < Mask(n) && k < n && !Bit(x, k)
    ensures x + Mask(k) < Mask(n)
    decreases n
  {
    if k > 0 { BitSetBound(x / 2, k - 1, n - 1); }
  }

  lemma {:induction false} MaskByte()
    ensures Mask(8) == 256
  {
    assert Mask(4) == 16;
    assert Mask(6) == 64;
  }
}
