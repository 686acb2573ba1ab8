/** The `#knokeep-gen:<uint64>` header that numbers the bodies of one key. */
module Generations {
  import opened Types
  import opened Framing

  const UINT64_MAX: nat := 0xFFFF_FFFF_FFFF_FFFF
  const NEWLINE: Byte := 10
  const MAX_DIGITS: nat := 20
  // "#knokeep-gen:"
  const PREFIX: Bytes := [35, 107, 110, 111, 107, 101, 101, 112, 45, 103, 101, 110, 58]

  /** `make_generation_header`; outside uint64 the source raises instead. */
  function MakeHeader(generation: nat): Bytes
    requires generation <= UINT64_MAX
  {
    PREFIX + Decimal(generation) + [NEWLINE]
  }

  /** How many digits stand at the front. */
  function DigitRun(raw: Bytes): (n: nat)
    ensures n <= |raw| && AllDigits(raw[..n])
    ensures n < |raw| ==> !IsDigit(raw[n])
  {
    if raw != [] && IsDigit(raw[0]) then
      var n := DigitRun(raw[1..]);
      assert raw[..n + 1] == [raw[0]] + raw[1..][..n];
      n + 1
    else 0
  }

  /**
    `_extract_generation`: the regex takes one canonical run of at most twenty digits closed by
    a newline; anything longer, unterminated, zero padded or above uint64 is no header at all.
  */
  function Extract(raw: Bytes): Option<nat> {
    if !(PREFIX <= raw) then None
    else
      var rest := raw[|PREFIX|..];
      var n := DigitRun(rest);
      if n < |rest| && n <= MAX_DIGITS && rest[n] == NEWLINE && Canonical(rest[..n]) then
        var value := DecimalValue(rest[..n]);
        if value > UINT64_MAX then None else Some(value)
      else None
  }

  lemma {:induction false} DigitRunUnique(raw: Bytes, ds: Bytes)
    requires AllDigits(ds) && ds + [NEWLINE] <= raw
    ensures DigitRun(raw) == |ds|
  {
    if ds != [] {
      assert raw[0] == (ds + [NEWLINE])[0];
      assert ds[1..] + [NEWLINE] == (ds + [NEWLINE])[1..];
      DigitRunUnique(raw[1..], ds[1..]);
    } else {
      assert raw[0] == (ds + [NEWLINE])[0];
    }
  }

  lemma Uint64Digits(g: nat)
    requires g <= UINT64_MAX
    ensures |Decimal(g)| <= MAX_DIGITS
  {
    assert Pow10(10) == 10_000_000_000;
    assert Pow10(20) == 100_000_000_000_000_000_000;
    DecimalLength(g, 20);
  }

  lemma HeaderIsExtracted(raw: Bytes, g: nat)
    requires g <= UINT64_MAX && MakeHeader(g) <= raw
    ensures Extract(raw) == Some(g)
  {
    var ds := Decimal(g);
    var header := MakeHeader(g);
    var rest := raw[|PREFIX|..];
    assert header[..|PREFIX|] == PREFIX && header[|PREFIX|..] == ds + [NEWLINE];
    assert PREFIX <= raw;
    assert ds + [NEWLINE] <= rest;
    DecimalCanonical(g);
    Uint64Digits(g);
    DigitRunUnique(rest, ds);
    assert rest[..|ds|] == ds;
  }

  /**
    A body carries generation g exactly when it starts with the header made for g: every uint64
    round trips, and no other spelling is read as a generation.
  */
  lemma ExtractCharacterized(raw: Bytes, g: nat)
    ensures Extract(raw) == Some(g) <==> g <= UINT64_MAX && MakeHeader(g) <= raw
  {
    if Extract(raw) == Some(g) {
      var rest := raw[|PREFIX|..];
      var n := DigitRun(rest);
      CanonicalIsDecimal(rest[..n]);
      assert raw == PREFIX + rest;
      assert rest == rest[..n] + [NEWLINE] + rest[n + 1..];
      assert raw[..|PREFIX| + n + 1] == MakeHeader(g);
    }
    if g <= UINT64_MAX && MakeHeader(g) <= raw {
      HeaderIsExtracted(raw, g);
    }
  }
}
