/** What digits and powers of ten are, apart from how the expansion uses them. */
module FloatLaws {
  import opened Floats
  import I = Integers

  function Figures(text: seq<int>): seq<int> { seq(|text|, i requires 0 <= i < |text| => text[i] - ZERO) }

  /** The number that digits stand for is the one whose decimal text they are. */
  lemma {:induction false} NatDecimal(n: nat)
    ensures Nat(Figures(I.Decimal(n))) == n
  {
    var text := I.Decimal(n);
    if n < 10 {
      assert Figures(text) == [n] && [n][..0] == [];
      assert Nat([]) == 0;
    } else {
      NatDecimal(n / 10);
      var front := I.Decimal(n / 10);
      assert text == front + [I.ZERO + n % 10];
      assert Figures(text) == Figures(front) + [n % 10];
      assert (Figures(front) + [n % 10])[..|front|] == Figures(front);
    }
  }

  /** Powers of ten. */
  lemma PowerIs(k: int)
    ensures Power(0) == 1.0 && Power(k + 1) == 10.0 * Power(k)
  {
    PowerNext(k);
  }
}
