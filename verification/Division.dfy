/** Quotients and remainders by positive numbers. */
module Division {

  lemma ModUnique(v: int, n: int, q: int, r: int)
    requires n > 0 && v == q * n + r && 0 <= r < n
    ensures v % n == r && v / n == q
  {
    var a, b := v / n, v % n;
    assert a * n + b == q * n + r;
    Gap(a, q, n);
    Gap(q, a, n);
  }

  lemma {:induction false} Gap(a: int, b: int, n: int)
    requires n > 0
    ensures a > b ==> a * n >= b * n + n
    decreases a - b
  {
    assert (a - 1) * n == a * n - n;
    if a > b + 1 {
      Gap(a - 1, b, n);
    }
  }

  /** The field of size `s` that starts at `b` in a number made of a low part, the field and a high part. */
  lemma FieldOf(t: int, lo: int, b: int, f: int, s: int, hi: int)
    requires b > 0 && s > 0 && 0 <= lo < b && 0 <= f < s
    requires t == (hi * s + f) * b + lo
    ensures t / b % s == f
  {
    ModUnique(t, b, hi * s + f, lo);
    ModUnique(hi * s + f, s, hi, f);
  }
}
