/** The instruments as the controller sees them through the JTAG adapter
    (OclaIP, EioIP, OclaJtagAdapter): abstract register state keyed by base
    address. Reading an address where no instrument answers gives the empty
    device; a write to such an address has no effect. */
module Hardware {
  import opened Bits
  import opened Topology

  /** ocla_data: the raw sample memory of one instrument, `depth` rows of
      `wordsPerLine` words. */
  datatype SampleData = SampleData(depth: u32, wordsPerLine: u32, values: seq<bv32>)

  const NoSamples := SampleData(0, 0, [])

  /** The live state of one OCLA instrument: identity, limits, the operation
      configuration, one configuration per trigger channel, how many start
      commands it received, its status word and its sample memory. */
  datatype OclaIp = OclaIp(ipType: string, version: u32, id: u32, memoryDepth: u32, numProbes: u32,
                           triggerCount: u32, maxCompareWidth: u32, status: u32,
                           config: OclaConfig, channels: seq<ChannelConfig>, starts: nat, data: SampleData)

  const NoOcla := OclaIp("", 0, 0, 0, 0, 0, 0, 0, OclaConfig(0, 0, 0), [], 0, NoSamples)

  /** The live state of one EIO block: its type, the output and input
      registers, and whether a write to the output register takes effect
      (false models a write the hardware silently drops). */
  datatype EioIp = EioIp(ipType: string, output: seq<bv32>, input: seq<bv32>, latching: bool)

  const NoEio := EioIp("", [], [], false)

  datatype Devices = Devices(ocla: map<u32, OclaIp>, eio: map<u32, EioIp>)

  function OclaAt(dev: Devices, addr: u32): OclaIp {
    if addr in dev.ocla then dev.ocla[addr] else NoOcla
  }

  function EioAt(dev: Devices, addr: u32): EioIp {
    if addr in dev.eio then dev.eio[addr] else NoEio
  }

  /** The devices with the OCLA instrument at addr replaced. */
  function WithOcla(dev: Devices, addr: u32, ip: OclaIp): (r: Devices)
    ensures r.eio == dev.eio
    ensures addr in dev.ocla ==> OclaAt(r, addr) == ip
    ensures addr !in dev.ocla ==> r == dev
    ensures forall a :: a != addr ==> OclaAt(r, a) == OclaAt(dev, a)
  {
    if addr in dev.ocla then dev.(ocla := dev.ocla[addr := ip]) else dev
  }

  /** A second replacement at the same address overrides the first. */
  lemma WithOclaTwice(dev: Devices, addr: u32, x: OclaIp, y: OclaIp)
    ensures WithOcla(WithOcla(dev, addr, x), addr, y) == WithOcla(dev, addr, y)
  {
  }

  function WithEio(dev: Devices, addr: u32, ip: EioIp): (r: Devices)
    ensures r.ocla == dev.ocla
    ensures addr in dev.eio ==> EioAt(r, addr) == ip
    ensures addr !in dev.eio ==> r == dev
    ensures forall a :: a != addr ==> EioAt(r, a) == EioAt(dev, a)
  {
    if addr in dev.eio then dev.(eio := dev.eio[addr := ip]) else dev
  }

  /** A channel register write; a channel the instrument does not have is not
      stored. */
  function SetChannel(chs: seq<ChannelConfig>, ch: nat, cfg: ChannelConfig): (r: seq<ChannelConfig>)
    ensures |r| == |chs|
    ensures forall c :: 0 <= c < |chs| ==> r[c] == if c == ch then cfg else chs[c]
  {
    if ch < |chs| then chs[ch := cfg] else chs
  }

  /** write_output_bits(v, n): the first n words of v, when the write takes. */
  function WriteOutput(ip: EioIp, v: seq<bv32>, n: nat): (r: EioIp)
    ensures r.ipType == ip.ipType && r.input == ip.input && r.latching == ip.latching
    ensures r.output == if ip.latching then Resize(v, n) else ip.output
  {
    if ip.latching then ip.(output := Resize(v, n)) else ip
  }

  /** The adapter the controller holds: every register access goes through
      it. */
  class Adapter {
    var devices: Devices

    constructor (devices: Devices)
      ensures this.devices == devices
    {
      this.devices := devices;
    }

    /** OclaIP::configure. */
    method Configure(addr: u32, cfg: OclaConfig)
      modifies this
      ensures devices == WithOcla(old(devices), addr, OclaAt(old(devices), addr).(config := cfg))
    {
      devices := WithOcla(devices, addr, OclaAt(devices, addr).(config := cfg));
    }

    /** OclaIP::configure_channel. */
    method ConfigureChannel(addr: u32, ch: nat, cfg: ChannelConfig)
      modifies this
      ensures devices == WithOcla(old(devices), addr,
                                  OclaAt(old(devices), addr).(channels := SetChannel(OclaAt(old(devices), addr).channels, ch, cfg)))
    {
      var ip := OclaAt(devices, addr);
      devices := WithOcla(devices, addr, ip.(channels := SetChannel(ip.channels, ch, cfg)));
    }

    /** OclaIP::start. */
    method Start(addr: u32)
      modifies this
      ensures devices == WithOcla(old(devices), addr, OclaAt(old(devices), addr).(starts := OclaAt(old(devices), addr).starts + 1))
    {
      var ip := OclaAt(devices, addr);
      devices := WithOcla(devices, addr, ip.(starts := ip.starts + 1));
    }

    /** EioIP::write_output_bits. */
    method WriteOutputBits(addr: u32, v: seq<bv32>, n: nat)
      modifies this
      ensures devices == WithEio(old(devices), addr, WriteOutput(EioAt(old(devices), addr), v, n))
    {
      devices := WithEio(devices, addr, WriteOutput(EioAt(devices, addr), v, n));
    }

    /** EioIP::readback_output_bits: n words of the output register. */
    method ReadbackOutputBits(addr: u32, n: nat) returns (r: seq<bv32>)
      ensures r == Resize(EioAt(devices, addr).output, n)
    {
      r := Resize(EioAt(devices, addr).output, n);
    }

    /** EioIP::read_input_bits: n words of the input register. */
    method ReadInputBits(addr: u32, n: nat) returns (r: seq<bv32>)
      ensures r == Resize(EioAt(devices, addr).input, n)
    {
      r := Resize(EioAt(devices, addr).input, n);
    }
  }
}
