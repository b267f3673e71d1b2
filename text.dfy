/** Decimal numerals: std::to_string for the trigger display name, and the
    unsigned-number test get_hier_objects and find_eio_signals apply to a
    selector (CFG_convert_string_to_u64 followed by a uint32_t cast). */
module Text {
  import opened Bits
  import opened Topology

  predicate IsDigit(c: char) {
    '0' <= c <= '9'
  }

  predicate AllDigits(s: string) {
    forall i :: 0 <= i < |s| ==> IsDigit(s[i])
  }

  /** The value of a string of decimal digits. */
  function DecimalValue(s: string): nat
    requires AllDigits(s)
  {
    if |s| == 0 then 0 else DecimalValue(s[..|s| - 1]) * 10 + (s[|s| - 1] as int - '0' as int)
  }

  /** CFG_convert_string_to_u64 cast to uint32_t: a non-empty decimal numeral
      within the 64-bit range converts (keeping its low 32 bits); anything
      else is reported as not a number. */
  function ParseUnsigned(s: string): (r: Option<u32>)
    ensures r.Some? <==> |s| > 0 && AllDigits(s) && DecimalValue(s) < 0x1_0000_0000_0000_0000
    ensures r.Some? ==> r.value == U32(DecimalValue(s))
  {
    if |s| > 0 && AllDigits(s) && DecimalValue(s) < 0x1_0000_0000_0000_0000 then Some(U32(DecimalValue(s)))
    else None
  }

  function DigitChar(d: nat): (c: char)
    requires d < 10
    ensures IsDigit(c) && c as int - '0' as int == d
  {
    ('0' as int + d) as char
  }

  /** std::to_string of an unsigned value. */
  function ToDecimal(n: nat): (r: string)
    ensures |r| > 0 && AllDigits(r)
  {
    if n < 10 then [DigitChar(n)] else ToDecimal(n / 10) + [DigitChar(n % 10)]
  }

  /** The numeral std::to_string prints reads back as the same number. */
  lemma {:induction false} DecimalRoundTrip(n: nat)
    ensures DecimalValue(ToDecimal(n)) == n
  {
    if n >= 10 {
      DecimalRoundTrip(n / 10);
      var s := ToDecimal(n);
      assert s[..|s| - 1] == ToDecimal(n / 10);
    }
  }

  lemma ParseToDecimal(n: u32)
    ensures ParseUnsigned(ToDecimal(n)) == Some(n)
  {
    DecimalRoundTrip(n);
  }

  /** A selector holding any non-digit is never taken for a number. */
  lemma NonNumericIsName(s: string, i: nat)
    requires i < |s| && !IsDigit(s[i])
    ensures ParseUnsigned(s).None?
  {
  }
}
