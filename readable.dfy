/**
 * Human-readable byte counts: divide by 1024 while the count exceeds
 * 4 * 1024, round up by one, and append the unit of the number of
 * divisions. The estimator (get_user_readable_byte_no) writes " bytes",
 * the connector (getReadableByteNo) "bytes"; all other units agree.
 */
module ReadableBytes {
  import opened Util
  import opened Text

  const BASE: nat := 1024
  const LIMIT: nat := 4 * 1024
  const MAX_UINT64: nat := 0x1_0000_0000_0000_0000 - 1

  const EstimatorUnits: seq<string> := [" bytes", "kB", "MB", "GB", "TB", "PB", "EB", "ZB", "YB"]
  const ConnectorUnits: seq<string> := ["bytes", "kB", "MB", "GB", "TB", "PB", "EB", "ZB", "YB"]

  /** The number of divisions by 1024. */
  function Exponent(bytes: nat): nat
    decreases bytes
  {
    if bytes > LIMIT then 1 + Exponent(bytes / BASE) else 0
  }

  /** The count left after the divisions. */
  function Mantissa(bytes: nat): nat
    decreases bytes
  {
    if bytes > LIMIT then Mantissa(bytes / BASE) else bytes
  }

  /** The text: the rounded-up count followed by the unit of the exponent (none beyond the table). */
  function Readable(bytes: nat, units: seq<string>): string
  {
    NatToString(Mantissa(bytes) + 1) + (if Exponent(bytes) < |units| then units[Exponent(bytes)] else "")
  }

  /**
   * The count shown is bytes / 1024^e, at most 4 * 1024, and e is the
   * least exponent giving that: one division fewer leaves more than 4 * 1024.
   */
  lemma {:induction false} MantissaCharacterized(bytes: nat)
    ensures Pow(BASE, Exponent(bytes)) > 0
    ensures Mantissa(bytes) == bytes / Pow(BASE, Exponent(bytes))
    ensures Mantissa(bytes) <= LIMIT
    ensures Exponent(bytes) > 0 ==> bytes / Pow(BASE, Exponent(bytes) - 1) > LIMIT
    decreases bytes
  {
    PowPositive(BASE, Exponent(bytes));
    if bytes > LIMIT {
      var b := bytes / BASE;
      var e := Exponent(b);
      MantissaCharacterized(b);
      PowDivStep(bytes, BASE, 0);
      DivDiv(bytes, BASE, Pow(BASE, e));
      assert Pow(BASE, e + 1) == BASE * Pow(BASE, e);
      if e > 0 {
        PowPositive(BASE, e - 1);
        DivDiv(bytes, BASE, Pow(BASE, e - 1));
        assert Pow(BASE, e) == BASE * Pow(BASE, e - 1);
      }
    }
  }

  lemma {:induction false} ExponentAtMost(bytes: nat, k: nat)
    requires bytes <= LIMIT * Pow(BASE, k)
    ensures Exponent(bytes) <= k
    decreases k
  {
    if bytes > LIMIT {
      assert k > 0;
      var p := Pow(BASE, k - 1);
      assert LIMIT * Pow(BASE, k) == (LIMIT * p) * BASE by {
        MulAssoc(LIMIT, BASE, p);
      }
      DivUpperBound(bytes, BASE, LIMIT * p);
      ExponentAtMost(bytes / BASE, k - 1);
    }
  }

  lemma DivUpperBound(n: nat, d: nat, m: nat)
    requires d > 0 && n <= m * d
    ensures n / d <= m
  {
  }

  /** A 64-bit count never needs more than six divisions, so its unit is one of bytes .. EB. */
  lemma ExponentOf64Bits(bytes: nat)
    requires bytes <= MAX_UINT64
    ensures Exponent(bytes) <= 6
    ensures Mantissa(bytes) + 1 <= LIMIT + 1
  {
    assert Pow(BASE, 6) == 0x1000_0000_0000_0000 by {
      assert Pow(BASE, 0) == 1;
      assert Pow(BASE, 1) == BASE;
      assert Pow(BASE, 2) == BASE * BASE;
      assert Pow(BASE, 3) == BASE * BASE * BASE;
      assert Pow(BASE, 4) == BASE * BASE * BASE * BASE;
      assert Pow(BASE, 5) == BASE * BASE * BASE * BASE * BASE;
    }
    ExponentAtMost(bytes, 6);
    MantissaCharacterized(bytes);
  }

  lemma ReadableExamples()
    ensures Readable(500, EstimatorUnits) == "501 bytes"
    ensures Readable(4096, EstimatorUnits) == "4097 bytes"
    ensures Readable(4096, ConnectorUnits) == "4097bytes"
    ensures Readable(4097, EstimatorUnits) == "5kB"
    ensures Readable(1048576, EstimatorUnits) == "1025kB"
  {
    assert NatToString(501) == "501";
    assert NatToString(4097) == "4097";
    assert NatToString(5) == "5";
    assert NatToString(1025) == "1025";
  }

  /** get_user_readable_byte_no: the loop of divisions, then the text. */
  method GetUserReadableByteNo(bytes: nat) returns (s: string)
    requires bytes <= MAX_UINT64
    ensures s == Readable(bytes, EstimatorUnits)
  {
    s := Render(bytes, EstimatorUnits);
  }

  /** The shared loop of both formatters, given the unit table. */
  method Render(bytes: nat, units: seq<string>) returns (s: string)
    requires bytes <= MAX_UINT64
    ensures s == Readable(bytes, units)
  {
    var b: nat := bytes;
    var exp: nat := 0;
    while b > LIMIT
      invariant exp + Exponent(b) == Exponent(bytes) && Mantissa(b) == Mantissa(bytes)
    {
      b := b / BASE;
      exp := exp + 1;
    }
    b := b + 1;
    s := NatToString(b);
    if exp < |units| {
      s := s + units[exp];
    }
  }
}
