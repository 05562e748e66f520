/** Bytes, and the facts about remainders that ring buffers need. */
module Common {

  type Byte = b: int | 0 <= b < 256

  lemma {:induction false} MulStep(a: int, b: int, n: int)
    requires n > 0
    ensures a < b ==> a * n + n <= b * n
    decreases b - a
  {
    if a < b {
      assert (a + 1) * n == a * n + n;
      MulStep(a + 1, b, n);
    }
  }

  /** A remainder is determined by any quotient that leaves a remainder in range. */
  lemma ModUnique(x: int, n: int, q: int, r: int)
    requires n > 0 && 0 <= r < n && x == q * n + r
    ensures x % n == r && x / n == q
  {
    MulStep(x / n, q, n);
    MulStep(q, x / n, n);
  }

  /** Advancing a wrapped index is wrapping the advanced index. */
  lemma ModSucc(x: nat, n: nat)
    requires n > 0
    ensures (x + 1) % n == (x % n + 1) % n
    ensures x % n + 1 < n ==> (x + 1) % n == x % n + 1
    ensures x % n + 1 == n ==> (x + 1) % n == 0
  {
    var q, r := x / n, x % n;
    if r + 1 < n {
      ModUnique(x + 1, n, q, r + 1);
      ModUnique(r + 1, n, 0, r + 1);
    } else {
      assert (q + 1) * n == q * n + n;
      ModUnique(x + 1, n, q + 1, 0);
      ModUnique(r + 1, n, 1, 0);
    }
  }

  /** Indices closer than one lap of the ring use different slots. */
  lemma ModDistinct(a: nat, b: nat, n: nat)
    requires n > 0 && a < b < a + n
    ensures a % n != b % n
  {
    MulStep(a / n, b / n, n);
    MulStep(b / n, a / n, n);
  }

  /** Wrapping one summand first does not change where the sum lands. */
  lemma ModAdd(a: int, k: int, n: nat)
    requires n > 0
    ensures (a % n + k) % n == (a + k) % n
  {
    var q := a / n;
    var q', r' := (a % n + k) / n, (a % n + k) % n;
    assert (q + q') * n == q * n + q' * n;
    ModUnique(a + k, n, q + q', r');
  }
}
