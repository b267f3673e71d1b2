/** The EIO topology container of src/ConfigurationRS/Ocla/EioInstance.cpp:
    one EIO block at a base address, with its ordered list of probes. */
module Eio {
  import opened Bits

  /** eio_probe_type_t: the direction of an EIO probe. */
  datatype Direction = IoInput | IoOutput

  /** eio_signal_t: a named bit field of an EIO probe. */
  datatype EioSignal = EioSignal(index: u32, name: string, bitpos: u32, bitwidth: u32)

  /** eio_probe_t: an EIO probe. Its index may be shared by an input and an
      output probe of the same instance. */
  datatype EioProbe = EioProbe(index: u32, direction: Direction, signals: seq<EioSignal>)

  class EioInstance {
    /** m_baseaddr and m_index: set by the constructor, never written again. */
    const baseaddr: u32
    const index: u32
    /** m_probes, in insertion order. */
    var probes: seq<EioProbe>

    constructor (baseaddr: u32, idx: u32)
      ensures this.baseaddr == baseaddr && this.index == idx
      ensures probes == []
    {
      this.baseaddr := baseaddr;
      this.index := idx;
      probes := [];
    }

    function GetBaseaddr(): (r: u32)
      ensures r == baseaddr
    {
      baseaddr
    }

    function GetIndex(): (r: u32)
      ensures r == index
    {
      index
    }

    /** Appends one probe; the earlier probes keep their values and order. */
    method AddProbe(probe: EioProbe)
      modifies this`probes
      ensures probes == old(probes) + [probe]
      ensures |probes| == |old(probes)| + 1 && probes[|probes| - 1] == probe
      ensures forall k :: 0 <= k < |old(probes)| ==> probes[k] == old(probes)[k]
    {
      probes := probes + [probe];
    }

    function GetProbes(): (r: seq<EioProbe>)
      reads this
      ensures r == probes
    {
      probes
    }
  }

  /** A client of the class: what construction followed by two add_probe
      calls lets a caller conclude from the contracts alone. */
  method BuildTwoProbeInstance(baseaddr: u32, idx: u32, first: EioProbe, second: EioProbe)
    returns (addr: u32, i: u32, ps: seq<EioProbe>)
    ensures addr == baseaddr && i == idx
    ensures ps == [first, second]
  {
    var inst := new EioInstance(baseaddr, idx);
    inst.AddProbe(first);
    inst.AddProbe(second);
    addr := inst.GetBaseaddr();
    i := inst.GetIndex();
    ps := inst.GetProbes();
  }
}
