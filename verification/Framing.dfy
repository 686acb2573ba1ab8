/** Big-endian integers (`struct.pack`) and ASCII decimal numbers, with their inverses. */
module Framing {
  import opened Types

  function Pow256(width: nat): nat {
    if width == 0 then 1 else 256 * Pow256(width - 1)
  }

  /** The low `width` bytes of n, most significant first. */
  function BigEndian(n: nat, width: nat): (bs: Bytes)
    ensures |bs| == width
  {
    if width == 0 then [] else BigEndian(n / 256, width - 1) + [n % 256]
  }

  function FromBigEndian(bs: Bytes): nat {
    if bs == [] then 0 else FromBigEndian(bs[..|bs| - 1]) * 256 + bs[|bs| - 1]
  }

  lemma {:induction false} BigEndianRoundTrip(n: nat, width: nat)
    requires n < Pow256(width)
    ensures FromBigEndian(BigEndian(n, width)) == n
  {
    if width > 0 {
      BigEndianRoundTrip(n / 256, width - 1);
      assert BigEndian(n, width)[..width - 1] == BigEndian(n / 256, width - 1);
    }
  }

  /** And the other way: a field is the encoding of the number it reads as. */
  lemma {:induction false} BytesRoundTrip(bs: Bytes)
    ensures BigEndian(FromBigEndian(bs), |bs|) == bs
  {
    if bs != [] {
      var front, last := bs[..|bs| - 1], bs[|bs| - 1];
      BytesRoundTrip(front);
      assert (FromBigEndian(front) * 256 + last) / 256 == FromBigEndian(front);
      assert bs == front + [last];
    }
  }

  lemma WordSizes()
    ensures Pow256(4) == 0x1_0000_0000
    ensures Pow256(8) == 0x1_0000_0000_0000_0000
  {
    assert Pow256(3) == 0x100_0000;
    assert Pow256(5) == 0x100_0000_0000;
    assert Pow256(7) == 0x100_0000_0000_0000;
  }

  // Decimal numbers

  predicate IsDigit(b: Byte) {
    48 <= b <= 57
  }

  /** `str(n)` in ASCII. */
  function Decimal(n: nat): Bytes {
    if n < 10 then [48 + n] else Decimal(n / 10) + [48 + n % 10]
  }

  predicate AllDigits(ds: Bytes) {
    forall i :: 0 <= i < |ds| ==> IsDigit(ds[i])
  }

  function DecimalValue(ds: Bytes): nat
    requires AllDigits(ds)
  {
    if ds == [] then 0 else DecimalValue(ds[..|ds| - 1]) * 10 + (ds[|ds| - 1] - 48)
  }

  /** A digit string with no superfluous leading zero. */
  predicate Canonical(ds: Bytes) {
    ds != [] && AllDigits(ds) && (ds[0] == 48 ==> |ds| == 1)
  }

  function Pow10(width: nat): nat {
    if width == 0 then 1 else 10 * Pow10(width - 1)
  }

  lemma {:induction false} DecimalCanonical(n: nat)
    ensures Canonical(Decimal(n)) && DecimalValue(Decimal(n)) == n
    ensures n > 0 ==> Decimal(n)[0] != 48
  {
    if n >= 10 {
      DecimalCanonical(n / 10);
      assert Decimal(n)[..|Decimal(n)| - 1] == Decimal(n / 10);
    } else {
      assert Decimal(n)[..0] == [];
    }
  }

  lemma {:induction false} DecimalLength(n: nat, width: nat)
    requires 0 < width && n < Pow10(width)
    ensures |Decimal(n)| <= width
  {
    if n >= 10 {
      assert Pow10(1) == 10;
      DecimalLength(n / 10, width - 1);
    }
  }

  lemma {:induction false} CanonicalIsDecimal(ds: Bytes)
    requires Canonical(ds)
    ensures Decimal(DecimalValue(ds)) == ds
    ensures ds[0] != 48 ==> DecimalValue(ds) > 0
  {
    var init, last := ds[..|ds| - 1], ds[|ds| - 1];
    assert ds == init + [last];
    if init != [] {
      assert init[0] == ds[0] != 48;
      CanonicalIsDecimal(init);
      DivideByTen(DecimalValue(init), last - 48);
    } else {
      assert DecimalValue(ds) == last - 48;
    }
  }

  lemma DivideByTen(q: nat, digit: nat)
    requires digit < 10
    ensures (q * 10 + digit) / 10 == q && (q * 10 + digit) % 10 == digit
  {
  }
}
