/** Ocla::format_signal_name: the display name of a trigger's signal. */
module Format {
  import opened Bits
  import opened Topology
  import opened Text

  /** `name[hi:lo]` for a bit range wider than one bit, `name[pos]` for a
      one-bit range, `name` otherwise; hi is computed in uint32_t. */
  function FormatSignalName(t: Trigger): (r: string)
    ensures !t.bitrangeEnable ==> r == t.signalName
    ensures |r| >= |t.signalName| && r[..|t.signalName|] == t.signalName
    ensures t.bitrangeEnable ==> |r| > |t.signalName| + 2 && r[|t.signalName|] == '[' && r[|r| - 1] == ']'
  {
    if t.bitrangeEnable then
      if t.width > 1 then
        t.signalName + "[" + ToDecimal(U32(t.pos + t.width - 1)) + ":" + ToDecimal(t.pos) + "]"
      else
        t.signalName + "[" + ToDecimal(t.pos) + "]"
    else
      t.signalName
  }

  /** The bracketed part reads back as the range: the highest selected bit
      `pos + width - 1`, then the lowest `pos`. */
  lemma FormatRangeReadsBack(t: Trigger)
    requires t.bitrangeEnable && t.width > 1 && t.pos + t.width <= 0x1_0000_0000
    ensures exists hi: string, lo: string ::
              FormatSignalName(t) == t.signalName + "[" + hi + ":" + lo + "]" &&
              ParseUnsigned(hi) == Some(t.pos + t.width - 1) && ParseUnsigned(lo) == Some(t.pos)
  {
    var hi, lo := ToDecimal(U32(t.pos + t.width - 1)), ToDecimal(t.pos);
    ParseToDecimal(t.pos + t.width - 1);
    ParseToDecimal(t.pos);
    assert FormatSignalName(t) == t.signalName + "[" + hi + ":" + lo + "]";
  }

  /** A one-bit range shows its single position. */
  lemma FormatBitReadsBack(t: Trigger)
    requires t.bitrangeEnable && t.width <= 1
    ensures exists p: string :: FormatSignalName(t) == t.signalName + "[" + p + "]" && ParseUnsigned(p) == Some(t.pos)
  {
    var p := ToDecimal(t.pos);
    ParseToDecimal(t.pos);
    assert FormatSignalName(t) == t.signalName + "[" + p + "]";
  }
}
