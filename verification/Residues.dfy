/** Remainders of consecutive numbers. */
module Residues {

  /** A quotient and a remainder in range are the quotient and the remainder. */
  lemma RemainderIs(a: nat, q: nat, r: nat, n: nat)
    requires r < n && a == q * n + r
    ensures a % n == r
  {
    var d := a / n - q;
    assert d * n == r - a % n by {
      assert a == a / n * n + a % n;
    }
    assert d >= 1 ==> d * n >= n;
    assert d <= -1 ==> (-d) * n >= n;
  }

  lemma ResidueShift(a: nat, t: nat, n: nat)
    requires n > 0
    ensures (a % n + t) % n == (a + t) % n
  {
    var b := a % n + t;
    var p, q, r := a / n, b / n, b % n;
    assert a + t == (p + q) * n + r by {
      assert a == p * n + a % n && b == q * n + r;
      assert (p + q) * n == p * n + q * n;
    }
    RemainderIs(a + t, p + q, r, n);
  }

  /** The residue d steps on, for d < n. */
  lemma ResidueAhead(a: nat, d: nat, n: nat)
    requires d < n
    ensures (a + d) % n == if a % n + d < n then a % n + d else a % n + d - n
  {
    var m := a % n;
    ResidueShift(a, d, n);
    if m + d < n {
      RemainderIs(m + d, 0, m + d, n);
    } else {
      RemainderIs(m + d, 1, m + d - n, n);
    }
  }

  lemma NearResiduesDiffer(a: nat, b: nat, n: nat)
    requires n > 0 && a < b < a + n
    ensures a % n != b % n
  {
    ResidueAhead(a, b - a, n);
  }

  /** Some number among n consecutive ones has the residue r. */
  lemma ResidueOccurs(a: nat, n: nat, r: nat) returns (d: nat)
    requires r < n
    ensures d < n && (a + d) % n == r
  {
    var m := a % n;
    d := if r >= m then r - m else r - m + n;
    ResidueAhead(a, d, n);
  }
}
