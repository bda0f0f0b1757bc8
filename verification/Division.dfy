/** Quotient and remainder by a variable divisor. */
module Division {
  lemma AtLeast(g: int, k: int, q: int)
    requires g >= 0 && k > q
    ensures g * k >= g * q + g
  {
    var n := k - q - 1;
    assert g * k == g * (q + 1 + n) == g * q + g + g * n;
    assert g * n >= 0;
  }

  /** Multiples of g that are closer than g are equal. */
  lemma Multiple(g: int, k: int, q: int, d: int)
    requires g * k - g * q == d && -g < d < g
    ensures k == q
  {
    if k > q { AtLeast(g, k, q); } else if k < q { AtLeast(g, q, k); }
  }

  lemma DivMod(t: nat, g: nat, k: nat, l: nat)
    requires t == g * k + l && l < g
    ensures t / g == k && t % g == l
  {
    Multiple(g, k, t / g, t % g - l);
  }
}
