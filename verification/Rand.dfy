/** do_rand of user/grind.c: Schrage's way to multiply modulo 2^31 - 1. */
module Rand {
  const M: int := 0x7fff_ffff      // 2^31 - 1
  const A: int := 16807
  const Q: int := 127773           // M / A
  const R: int := 2836             // M % A
  const LIMIT: int := 0x8000_0000

  // The generator: a step of x -> A * x mod M on [1, M - 1], moved to [0, M - 2].
  function Step(ctx: nat): int { A * (ctx % (M - 1) + 1) % M - 1 }

  // Every intermediate value is below 2^31 in size.
  method DoRand(ctx: nat) returns (x: int)
    ensures x == Step(ctx) && 0 <= x <= M - 2
  {
    x := ctx % (M - 1) + 1;
    ghost var x0 := x;
    var hi, lo := x / Q, x % Q;
    Schrage(x);
    assert 0 <= A * lo < LIMIT && 0 <= R * hi < LIMIT;
    x := A * lo - R * hi;
    assert -LIMIT < x < LIMIT;
    if x < 0 {
      x := x + M;
    }
    NotZero(x0);
    assert x == A * x0 % M && 0 < x < LIMIT;
    x := x - 1;
  }

  // A * (x % Q) - R * (x / Q) differs from A * x by a multiple of M, and lies within M of 0.
  lemma Schrage(x: int)
    requires 1 <= x <= M - 1
    ensures var d := A * (x % Q) - R * (x / Q);
            && 0 <= A * (x % Q) < M && 0 <= R * (x / Q) < M && -M < d < M
            && A * x % M == if d < 0 then d + M else d
  {
    var hi, lo := x / Q, x % Q;
    assert x == Q * hi + lo && 0 <= lo < Q && 0 <= hi <= 16807;
    var d := A * lo - R * hi;
    assert M == A * Q + R;
    assert A * x == M * hi + d;
    if d < 0 { Remainder(A * x, hi - 1, d + M); } else { Remainder(A * x, hi, d); }
  }

  lemma Remainder(y: int, k: int, r: int)
    requires y == M * k + r && 0 <= r < M
    ensures y % M == r
  {
  }

  // A has an inverse modulo M.
  const INVERSE: int := 1407677000

  lemma Inverse()
    ensures A * INVERSE == 11017 * M + 1
  {
  }

  // What A times x leaves determines x.
  lemma Undo(x: int)
    requires 0 <= x < M
    ensures INVERSE * (A * x % M) % M == x
  {
    var y, k := A * x % M, A * x / M;
    assert A * x == M * k + y;
    Inverse();
    assert INVERSE * y == INVERSE * (A * x) - INVERSE * (M * k);
    assert INVERSE * (A * x) == (A * INVERSE) * x == (11017 * M + 1) * x;
    Remainder(INVERSE * y, 11017 * x - INVERSE * k, x);
  }

  lemma NotZero(x: int)
    requires 1 <= x < M
    ensures A * x % M != 0
  {
    Undo(x);
  }

  // No two seeds in [0, M - 2] give the same successor.
  lemma Injective(a: nat, b: nat)
    requires a <= M - 2 && b <= M - 2 && Step(a) == Step(b)
    ensures a == b
  {
    Undo(a + 1);
    Undo(b + 1);
  }
}
