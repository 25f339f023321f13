/** How a block of bytes holds little-endian 32-bit words and the bits of the free map. */
module Words {
  import opened Basics
  import opened Params

  type Bytes = seq<int>

  ghost predicate IsBlock(b: Bytes) {
    |b| == BSIZE && forall i :: 0 <= i < BSIZE ==> 0 <= b[i] < 256
  }

  function Zeros(): (b: Bytes)
    ensures IsBlock(b)
  {
    seq(BSIZE, _ => 0)
  }

  // --- words ---

  function Word(b: Bytes, i: nat): int
    requires 4 * i + 4 <= |b|
  {
    b[4 * i] + 0x100 * b[4 * i + 1] + 0x1_0000 * b[4 * i + 2] + 0x100_0000 * b[4 * i + 3]
  }

  function SetWord(b: Bytes, i: nat, v: int): Bytes
    requires 4 * i + 4 <= |b|
  {
    b[4 * i := v % 0x100][4 * i + 1 := v / 0x100 % 0x100]
     [4 * i + 2 := v / 0x1_0000 % 0x100][4 * i + 3 := v / 0x100_0000]
  }

  lemma SetWordBlock(b: Bytes, i: nat, v: int)
    requires IsBlock(b) && 4 * i + 4 <= BSIZE && 0 <= v < UINT32
    ensures IsBlock(SetWord(b, i, v))
  {
  }

  lemma Digits(v: nat)
    requires v < UINT32
    ensures 0 <= v / 0x100_0000 < 0x100
    ensures v == v % 0x100 + 0x100 * (v / 0x100 % 0x100) + 0x1_0000 * (v / 0x1_0000 % 0x100) + 0x100_0000 * (v / 0x100_0000)
  {
    var b, c := v / 0x100, v / 0x1_0000;
    assert c == b / 0x100 && v / 0x100_0000 == c / 0x100;
    assert v == 0x100 * b + v % 0x100 && b == 0x100 * c + b % 0x100 && c == 0x100 * (c / 0x100) + c % 0x100;
  }

  lemma SetWordAt(b: Bytes, i: nat, v: int, k: nat)
    requires IsBlock(b) && 4 * i + 4 <= BSIZE && k < BSIZE && 0 <= v
    ensures SetWord(b, i, v)[k] == if k == 4 * i then v % 0x100
                                   else if k == 4 * i + 1 then v / 0x100 % 0x100
                                   else if k == 4 * i + 2 then v / 0x1_0000 % 0x100
                                   else if k == 4 * i + 3 then v / 0x100_0000
                                   else b[k]
  {
  }

  lemma WordOfSet(b: Bytes, i: nat, v: int, j: nat)
    requires IsBlock(b) && 4 * i + 4 <= BSIZE && 4 * j + 4 <= BSIZE && 0 <= v < UINT32
    ensures Word(SetWord(b, i, v), j) == if i == j then v else Word(b, j)
  {
    forall k | 4 * j <= k < 4 * j + 4
      ensures SetWord(b, i, v)[k] == if i != j then b[k] else SetWord(b, j, v)[k]
    {
      SetWordAt(b, i, v, k);
    }
    if i == j {
      SetWordAt(b, i, v, 4 * i);
      SetWordAt(b, i, v, 4 * i + 1);
      SetWordAt(b, i, v, 4 * i + 2);
      SetWordAt(b, i, v, 4 * i + 3);
    }
    hide SetWord;
    Digits(v);
  }

  // --- bits ---

  // 1 << k
  function Mask(k: nat): (m: nat)
    ensures m >= 1
  {
    if k == 0 then 1 else 2 * Mask(k - 1)
  }

  // x >> k & 1
  predicate Test(x: nat, k: nat) {
    if k == 0 then x % 2 == 1 else Test(x / 2, k - 1)
  }

  // data[k / 8] & (1 << (k % 8)) != 0
  predicate Bit(b: Bytes, k: nat)
    requires IsBlock(b) && k / 8 < |b|
  {
    Test(b[k / 8], k % 8)
  }

  // data[k / 8] |= 1 << (k % 8)
  function SetBit(b: Bytes, k: nat): Bytes
    requires IsBlock(b) && k / 8 < |b|
  {
    if Bit(b, k) then b else b[k / 8 := b[k / 8] + Mask(k % 8)]
  }

  // data[k / 8] &= ~(1 << (k % 8))
  function ClearBit(b: Bytes, k: nat): Bytes
    requires IsBlock(b) && k / 8 < |b|
  {
    if Bit(b, k) then b[k / 8 := b[k / 8] - Mask(k % 8)] else b
  }

  lemma Halve(x: nat, y: nat)
    ensures (x + 2 * y) / 2 == x / 2 + y && (x + 2 * y) % 2 == x % 2
  {
  }

  lemma {:induction false} ByteSet(x: nat, n: nat, j: nat, k: nat)
    requires x < Mask(n) && j < n && !Test(x, j)
    ensures x + Mask(j) < Mask(n)
    ensures Test(x + Mask(j), k) <==> k == j || Test(x, k)
    decreases j
  {
    assert Mask(n) == 2 * Mask(n - 1);
    if j == 0 {
      assert (x + 1) / 2 == x / 2;
    } else {
      var y := Mask(j - 1);
      Halve(x, y);
      ByteSet(x / 2, n - 1, j - 1, if k == 0 then 0 else k - 1);
      assert Mask(j) == 2 * y;
    }
  }

  lemma {:induction false} ByteClear(x: nat, j: nat, k: nat)
    requires Test(x, j)
    ensures x >= Mask(j)
    ensures Test(x - Mask(j), k) <==> k != j && Test(x, k)
    decreases j
  {
    if j == 0 {
      assert (x - 1) / 2 == x / 2;
    } else {
      var y := Mask(j - 1);
      ByteClear(x / 2, j - 1, if k == 0 then 0 else k - 1);
      assert Mask(j) == 2 * y && x >= 2 * y;
      Halve(x - 2 * y, y);
    }
  }

  lemma Mask8()
    ensures Mask(8) == 256
  {
    assert Mask(4) == 16;
  }

  lemma BitOfSet(b: Bytes, k: nat, j: nat)
    requires IsBlock(b) && k / 8 < BSIZE && j / 8 < BSIZE
    ensures IsBlock(SetBit(b, k)) && (Bit(SetBit(b, k), j) <==> j == k || Bit(b, j))
  {
    if !Bit(b, k) {
      Mask8();
      ByteSet(b[k / 8], 8, k % 8, j % 8);
    }
  }

  lemma BitOfClear(b: Bytes, k: nat, j: nat)
    requires IsBlock(b) && k / 8 < BSIZE && j / 8 < BSIZE
    ensures IsBlock(ClearBit(b, k)) && (Bit(ClearBit(b, k), j) <==> j != k && Bit(b, j))
  {
    if Bit(b, k) { ByteClear(b[k / 8], k % 8, j % 8); }
  }
}
