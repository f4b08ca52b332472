/** Division with remainder is unique. */
module Arithmetic {

  lemma Scaled(k: int, W: nat)
    ensures k >= 1 ==> k * W >= W
    ensures k <= -1 ==> k * W + W <= 0
  {
  }

  lemma ModUnique(W: nat, n: nat, q: nat, r: nat)
    requires W > 0 && n == q * W + r && r < W
    ensures n % W == r
  {
    var d := n / W - q;
    assert n == (n / W) * W + n % W;
    assert d * W == r - n % W;
    Scaled(d, W);
  }
}
