/** Byte-level arithmetic shared by every layout rule: positive alignments and
    rounding a byte count up to the next multiple of an alignment. */
module Alignment {

  /** An alignment is a positive number of bytes. */
  type Pos = n: nat | 0 < n witness 1

  /** The alignments that occur on a 64-bit target: every one divides the word size. */
  predicate DividesWord(a: nat) {
    a == 1 || a == 2 || a == 4 || a == 8
  }

  /** An alignment that divides the word also divides the two-word class header. */
  lemma DividesWordDividesHeader(a: Pos)
    requires DividesWord(a)
    ensures 8 % a == 0 && 16 % a == 0
  {
  }

  /** Of two alignments that divide the word, the smaller divides the larger: both are powers of two. */
  lemma DividesWordNested(a: Pos, b: Pos)
    requires DividesWord(a) && DividesWord(b) && a <= b
    ensures b % a == 0
  {
  }

  /** A multiple of `b` is a multiple of every divisor `a` of `b`. */
  lemma MultipleOfDivisor(x: nat, b: Pos, a: Pos)
    requires x % b == 0 && b % a == 0
    ensures x % a == 0
  {
    var qx, qb := x / b, b / a;
    assert x == qx * b && b == qb * a;
    assert x == (qx * qb) * a;
    DivModUnique(x, a, qx * qb, 0);
  }

  function Max(a: Pos, b: Pos): (m: Pos)
    ensures a <= m && b <= m
    ensures m == a || m == b
  {
    if a < b then b else a
  }

  /** `r` is the smallest multiple of `a` that is not below `n`. */
  ghost predicate IsRoundUp(r: nat, n: nat, a: Pos) {
    r % a == 0 && n <= r < n + a
  }

  /** Moves a byte cursor `n` forward to the next multiple of `a`
      (the padding inserted before a field, or after the last one for the stride). */
  function RoundUp(n: nat, a: Pos): (r: nat)
    ensures IsRoundUp(r, n, a)
  {
    if n % a == 0 then n
    else
      var q := n / a;
      DivModUnique(q * a + a, a, q + 1, 0);
      q * a + a
  }

  /** `k` copies of `a` are at least `a` bytes once there is at least one copy. */
  lemma {:induction false} MulAtLeast(k: nat, a: nat)
    requires k >= 1
    ensures k * a >= a
  {
    if k > 1 {
      MulAtLeast(k - 1, a);
      assert k * a == (k - 1) * a + a;
    }
  }

  /** Euclidean division is unique: a quotient and remainder that rebuild `x` are `x / a` and `x % a`. */
  lemma DivModUnique(x: nat, a: Pos, q: nat, r: nat)
    requires x == q * a + r && r < a
    ensures x / a == q && x % a == r
  {
    var q', r' := x / a, x % a;
    assert x == q' * a + r';
    if q' < q {
      assert (q - q') * a == q * a - q' * a;
      MulAtLeast(q - q', a);
    } else if q < q' {
      assert (q' - q) * a == q' * a - q * a;
      MulAtLeast(q' - q, a);
    }
  }

  /** Two multiples of `a` closer together than `a` are equal. */
  lemma CloseMultiplesEqual(x: nat, y: nat, a: Pos)
    requires x % a == 0 && y % a == 0
    requires x <= y < x + a
    ensures x == y
  {
    var qx, qy := x / a, y / a;
    assert x == qx * a && y == qy * a;
    if qx < qy {
      assert (qy - qx) * a == qy * a - qx * a;
      MulAtLeast(qy - qx, a);
    }
    if qy < qx {
      assert (qx - qy) * a == qx * a - qy * a;
      MulAtLeast(qx - qy, a);
    }
  }

  /** The rounded-up value is determined: any `r` with the defining property is `RoundUp(n, a)`. */
  lemma RoundUpUnique(r: nat, n: nat, a: Pos)
    requires IsRoundUp(r, n, a)
    ensures r == RoundUp(n, a)
  {
    var s := RoundUp(n, a);
    if r <= s {
      CloseMultiplesEqual(r, s, a);
    } else {
      CloseMultiplesEqual(s, r, a);
    }
  }

  /** Rounding commutes with a shift by a multiple of the alignment. */
  lemma RoundUpShift(n: nat, k: nat, a: Pos)
    requires k % a == 0
    ensures RoundUp(n + k, a) == RoundUp(n, a) + k
  {
    var s := RoundUp(n, a);
    MultipleSum(s, k, a);
    RoundUpUnique(s + k, n + k, a);
  }

  lemma MultipleSum(x: nat, y: nat, a: Pos)
    requires x % a == 0 && y % a == 0
    ensures (x + y) % a == 0
  {
    var qx, qy := x / a, y / a;
    assert x == qx * a && y == qy * a;
    assert x + y == (qx + qy) * a;
    DivModUnique(x + y, a, qx + qy, 0);
  }
}
