/** The Gray code of natural numbers. */
module Gray {
  import opened Binary

  /** Exclusive or, bit by bit. */
  function Xor(a: nat, b: nat): nat {
    if a == 0 && b == 0 then 0
    else 2 * Xor(a / 2, b / 2) + (if a % 2 == b % 2 then 0 else 1)
  }

  /** The number of bits set. */
  function BitCount(a: nat): nat {
    if a == 0 then 0 else BitCount(a / 2) + a % 2
  }

  lemma BitCountStep(a: nat)
    ensures BitCount(a) == BitCount(a / 2) + a % 2 && BitCount(0) == 0
  {
  }

  function GrayEncode(i: nat): nat {
    Xor(i, i / 2)
  }

  /** Each bit is the exclusive or of all the bits of the code from there up. */
  function GrayDecode(g: nat): nat {
    if g == 0 then 0
    else
      var high := GrayDecode(g / 2);
      2 * high + (if high % 2 == g % 2 then 0 else 1)
  }

  lemma GrayStep(i: nat)
    ensures GrayEncode(i) / 2 == GrayEncode(i / 2)
    ensures GrayEncode(i) % 2 == (if i % 2 == i / 2 % 2 then 0 else 1)
  {
  }

  /** Bits from position `k` up. */
  function Shift(i: nat, k: nat): nat {
    if k == 0 then i else Shift(i / 2, k - 1)
  }

  /** A bit of the code is set exactly when this bit and the next higher one of the number differ. */
  lemma {:induction false} GrayBit(i: nat, k: nat)
    ensures Shift(GrayEncode(i), k) % 2 == 1 <==> Shift(i, k) % 2 != Shift(i, k + 1) % 2
  {
    GrayStep(i);
    if k > 0 {
      GrayBit(i / 2, k - 1);
    }
    hide GrayEncode;
  }

  lemma DecodeStep(g: nat)
    ensures GrayDecode(g) / 2 == GrayDecode(g / 2)
    ensures GrayDecode(g) % 2 == (if GrayDecode(g / 2) % 2 == g % 2 then 0 else 1)
  {
  }

  lemma {:induction false} EncodeThenDecode(i: nat)
    ensures GrayDecode(GrayEncode(i)) == i
  {
    if i > 0 {
      GrayStep(i);
      EncodeThenDecode(i / 2);
    }
  }

  lemma {:induction false} DecodeThenEncode(g: nat)
    ensures GrayEncode(GrayDecode(g)) == g
  {
    if g > 0 {
      hide *;
      DecodeThenEncode(g / 2);
      DecodeStep(g);
      GrayStep(GrayDecode(g));
    }
  }

  lemma {:induction false} CodesStayInRange(i: nat, n: nat)
    ensures i < Pow2(n) <==> GrayEncode(i) < Pow2(n)
  {
    if n > 0 {
      GrayStep(i);
      CodesStayInRange(i / 2, n - 1);
    } else if i > 0 {
      EncodeThenDecode(i);
    }
  }

  /** For every width the code maps the numbers of that width one to one onto themselves. */
  lemma GrayIsBijection(n: nat)
    ensures forall i: nat :: i < Pow2(n) ==> GrayEncode(i) < Pow2(n)
    ensures forall i: nat, j: nat :: GrayEncode(i) == GrayEncode(j) ==> i == j
    ensures forall g: nat :: g < Pow2(n) ==> GrayDecode(g) < Pow2(n) && GrayEncode(GrayDecode(g)) == g
  {
    forall i: nat ensures i < Pow2(n) <==> GrayEncode(i) < Pow2(n) {
      CodesStayInRange(i, n);
    }
    forall i: nat ensures GrayDecode(GrayEncode(i)) == i {
      EncodeThenDecode(i);
    }
    forall g: nat ensures GrayEncode(GrayDecode(g)) == g {
      DecodeThenEncode(g);
    }
  }

  lemma {:induction false} XorSelf(a: nat)
    ensures Xor(a, a) == 0
  {
    if a > 0 {
      XorSelf(a / 2);
    }
  }

  lemma XorStep(a: nat, b: nat)
    ensures Xor(a, b) / 2 == Xor(a / 2, b / 2) && Xor(a, b) % 2 == (if a % 2 == b % 2 then 0 else 1)
  {
  }

  /** Successive codes differ in exactly one bit. */
  lemma {:induction false} NeighboursDifferInOneBit(i: nat)
    ensures BitCount(Xor(GrayEncode(i), GrayEncode(i + 1))) == 1
  {
    hide *;
    var a, b := GrayEncode(i), GrayEncode(i + 1);
    GrayStep(i);
    GrayStep(i + 1);
    XorStep(a, b);
    BitCountStep(Xor(a, b));
    if i % 2 == 0 {
      assert (i + 1) / 2 == i / 2;
      XorSelf(a / 2);
      BitCountStep(0);
    } else {
      assert (i + 1) / 2 == i / 2 + 1;
      NeighboursDifferInOneBit(i / 2);
    }
  }

  /** So do the last code of any width and the first. */
  lemma {:induction false} WrapDiffersInOneBit(n: nat)
    requires n > 0
    ensures BitCount(Xor(GrayEncode(Pow2(n) - 1), GrayEncode(0))) == 1
  {
    var last := Pow2(n) - 1;
    GrayStep(last);
    XorStep(GrayEncode(last), 0);
    assert GrayEncode(0) == 0;
    if n == 1 {
      assert GrayEncode(1) == 1 && Xor(1, 0) == 1;
    } else {
      assert last / 2 == Pow2(n - 1) - 1;
      WrapDiffersInOneBit(n - 1);
    }
  }
}
