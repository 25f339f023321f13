/** Physical memory as pages of bytes, and the 64-bit words stored in them. */
module Memory {
  const PGSIZE: nat := 4096
  const UINT64: nat := 0x1_0000_0000_0000_0000

  type Mem = seq<seq<int>>

  predicate IsPage(b: seq<int>) {
    |b| == PGSIZE && forall i :: 0 <= i < |b| ==> 0 <= b[i] < 256
  }

  predicate MemOk(mem: Mem) { forall p :: 0 <= p < |mem| ==> IsPage(mem[p]) }

  // --- little-endian numbers ---

  function Dec(b: seq<int>): int {
    if |b| == 0 then 0 else b[0] + 256 * Dec(b[1..])
  }

  function Enc(v: nat, n: nat): (b: seq<int>)
    ensures |b| == n && forall i :: 0 <= i < n ==> 0 <= b[i] < 256
  {
    if n == 0 then [] else [v % 256] + Enc(v / 256, n - 1)
  }

  function Pow256(n: nat): nat { if n == 0 then 1 else 256 * Pow256(n - 1) }

  lemma Pow256Of8()
    ensures Pow256(8) == UINT64
  {
    assert Pow256(2) == 0x1_0000;
    assert Pow256(4) == 0x1_0000_0000;
    assert Pow256(6) == 0x1_0000_0000_0000;
  }

  lemma {:induction false} DecEnc(v: nat, n: nat)
    requires v < Pow256(n)
    ensures Dec(Enc(v, n)) == v
  {
    if n > 0 {
      DecEnc(v / 256, n - 1);
      assert Enc(v, n)[1..] == Enc(v / 256, n - 1);
    }
  }

  lemma {:induction false} DecBounds(b: seq<int>)
    requires forall i :: 0 <= i < |b| ==> 0 <= b[i] < 256
    ensures 0 <= Dec(b) < Pow256(|b|)
  {
    if |b| > 0 { DecBounds(b[1..]); }
  }

  // --- words in memory ---

  function Piece(b: seq<int>, i: nat): seq<int>
    requires 8 * i + 8 <= |b|
  {
    b[8 * i..8 * i + 8]
  }

  function Word(mem: Mem, p: nat, i: nat): (v: nat)
    requires MemOk(mem) && p < |mem| && i < 512
    ensures v < UINT64
  {
    assert IsPage(mem[p]);
    DecBounds(Piece(mem[p], i));
    Pow256Of8();
    Dec(Piece(mem[p], i))
  }

  function SetWord(mem: Mem, p: nat, i: nat, v: nat): (m: Mem)
    requires MemOk(mem) && p < |mem| && i < 512
    ensures |m| == |mem| && MemOk(m) && forall q :: 0 <= q < |mem| && q != p ==> m[q] == mem[q]
  {
    assert IsPage(mem[p]);
    var page := mem[p][..8 * i] + Enc(v, 8) + mem[p][8 * i + 8..];
    assert IsPage(page);
    mem[p := page]
  }

  // A word reads back as written and the other words are as they were.
  lemma WordOfSet(mem: Mem, p: nat, i: nat, v: nat, q: nat, j: nat)
    requires MemOk(mem) && p < |mem| && i < 512 && v < UINT64 && q < |mem| && j < 512
    ensures Word(SetWord(mem, p, i, v), q, j) == if q == p && j == i then v else Word(mem, q, j)
  {
    var m := SetWord(mem, p, i, v);
    assert IsPage(mem[p]) && IsPage(m[p]);
    if q == p {
      if j == i {
        assert Piece(m[p], i) == Enc(v, 8);
        Pow256Of8();
        DecEnc(v, 8);
      } else {
        assert Piece(m[p], j) == Piece(mem[p], j);
      }
    }
  }

  lemma WordsOfSet(mem: Mem, p: nat, i: nat, v: nat)
    requires MemOk(mem) && p < |mem| && i < 512 && v < UINT64
    ensures forall q, j :: 0 <= q < |mem| && 0 <= j < 512 ==>
              Word(SetWord(mem, p, i, v), q, j) == if q == p && j == i then v else Word(mem, q, j)
  {
    forall q, j | 0 <= q < |mem| && 0 <= j < 512
      ensures Word(SetWord(mem, p, i, v), q, j) == if q == p && j == i then v else Word(mem, q, j)
    {
      WordOfSet(mem, p, i, v, q, j);
    }
  }

  // --- memset ---

  function Filled(c: int): (b: seq<int>)
    requires 0 <= c < 256
    ensures IsPage(b) && forall i :: 0 <= i < PGSIZE ==> b[i] == c
  {
    seq(PGSIZE, _ => c)
  }

  function Fill(mem: Mem, p: nat, c: int): (m: Mem)
    requires MemOk(mem) && p < |mem| && 0 <= c < 256
    ensures |m| == |mem| && MemOk(m) && m[p] == Filled(c) && forall q :: 0 <= q < |mem| && q != p ==> m[q] == mem[q]
  {
    mem[p := Filled(c)]
  }

  function Zeros(n: nat): (b: seq<int>)
    ensures |b| == n && forall i :: 0 <= i < n ==> b[i] == 0
  {
    seq(n, _ => 0)
  }

  lemma {:induction false} EncZero(n: nat)
    ensures Enc(0, n) == Zeros(n)
  {
    if n > 0 { EncZero(n - 1); }
  }

  lemma ZeroWord(mem: Mem, p: nat, i: nat)
    requires MemOk(mem) && p < |mem| && i < 512 && mem[p] == Filled(0)
    ensures Word(mem, p, i) == 0
  {
    Pow256Of8();
    DecEnc(0, 8);
    assert Piece(mem[p], i) == Zeros(8) == Enc(0, 8) by { EncZero(8); }
  }

  // Words look at one page only.
  lemma WordFrame(mem: Mem, m: Mem, p: nat, i: nat)
    requires MemOk(mem) && MemOk(m) && p < |mem| && p < |m| && i < 512 && mem[p] == m[p]
    ensures Word(mem, p, i) == Word(m, p, i)
  {
  }
}
