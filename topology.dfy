/** The debug topology the loader builds: session, clock domains,
    instrument instances, probes, signals and the configured triggers; and
    the decomposed signal selector the selector parser returns. */
module Topology {
  import opened Bits
  import opened Eio

  datatype Option<+T> = None | Some(value: T)

  datatype Result<+T, +E> = Ok(value: T) | Err(error: E)

  /** oc_signal_type_t: a constant signal cannot be a trigger source. */
  datatype SignalType = Normal | Constant

  /** OclaSignal. */
  datatype Signal = Signal(index: u32, name: string, bitpos: u32, bitwidth: u32, sigType: SignalType)

  /** OclaProbe: the index of the instance it is wired into and its signals. */
  datatype Probe = Probe(index: u32, instanceIndex: u32, signals: seq<Signal>)

  /** OclaInstance: where the instrument sits and the identity recorded at
      load time, which the verifier checks against the live hardware. */
  datatype Instance = Instance(index: u32, baseaddr: u32, ipType: string, version: u32, id: u32,
                               memoryDepth: u32, numProbes: u32)

  /** ocla_trigger_type. */
  datatype TriggerType = TriggerNone | Edge | Level | ValueCompare

  /** ocla_trigger_event: NO_EVENT, or the code of one of the events known to
      the (unmodelled) string converter. */
  datatype TriggerEvent = NoEvent | Event(code: nat)

  /** ocla_trigger_config: what one trigger channel of an instrument holds. */
  datatype ChannelConfig = ChannelConfig(kind: TriggerType, event: TriggerEvent, value: u32,
                                         compareWidth: u32, probeNum: u32)

  /** The configuration `program` writes to every channel before assigning
      triggers. */
  const ClearedChannel := ChannelConfig(TriggerNone, NoEvent, 0, 0, 0)

  /** oc_trigger_t. */
  datatype Trigger = Trigger(instanceIndex: u32, probeId: u32, signalId: u32, signalName: string,
                             bitrangeEnable: bool, width: u32, pos: u32, cfg: ChannelConfig)

  /** ocla_config: fixed sample size (0 = whole memory), and the codes of the
      trigger mode and trigger condition. */
  datatype OclaConfig = OclaConfig(sampleSize: u32, mode: nat, condition: nat)

  /** OclaDomain. */
  datatype Domain = Domain(index: u32, instances: seq<Instance>, probes: seq<Probe>,
                           config: OclaConfig, triggers: seq<Trigger>)

  /** OclaDebugSession: the clock domains and the EIO instances. */
  datatype Session = Session(domains: seq<Domain>, eios: seq<EioInstance>)

  /** The pattern CFG_parse_signal recognised; NoMatch is its zero result.
      Patterns 1 and 3 select a bit range; patterns 6 and 7 carry a value. */
  datatype SignalPattern = NoMatch | Pattern1 | Pattern2 | Pattern3 | Pattern4 | Pattern5 | Pattern6 | Pattern7

  /** What CFG_parse_signal hands back for one selector string. */
  datatype ParsedSignal = ParsedSignal(pattern: SignalPattern, name: string, bitStart: u32, bitEnd: u32,
                                       bitWidth: u32, value: bv64)

  /** Which level of a hierarchical lookup failed. */
  datatype LookupError =
    | SessionNotLoaded | DomainNotFound | ProbeNotFound | SignalNotFound
    | EioInstanceNotFound | EioProbeNotFound(direction: Direction)

  /** Why a controller operation was refused. */
  datatype OclaError =
    | LookupFailed(cause: LookupError)
    | InvalidSelector          // pattern not recognised, or bit_start > bit_end
    | VerificationFailed       // live hardware differs from the recorded topology
    | InvalidPairing           // trigger type and event do not go together
    | ConstantSignal
    | InstanceNotFound         // the probe's instance is not in the domain
    | CompareWidthExceeded
    | TriggersExhausted        // every trigger channel of the instance is in use
    | InvalidBitRange
    | TriggerNotFound
    | NoInstance               // the domain has no instance
    | SampleSizeTooLarge
    | NoTriggers
    | InvalidEioSignal
    | EioSignalNotFound
    | WriteNotConfirmed
    | SessionAlreadyLoaded
    | FileNotFound
    | LoadFailed(messages: seq<string>)
    | NoSessionToStop

  /** Position of the first element satisfying p: the scan-with-found-flag
      and std::find_if of the source. */
  function FirstMatch<T>(xs: seq<T>, p: T -> bool): (r: Option<nat>)
    ensures r.Some? ==> r.value < |xs| && p(xs[r.value])
    ensures r.Some? ==> forall j :: 0 <= j < r.value ==> !p(xs[j])
    ensures r.None? <==> forall j :: 0 <= j < |xs| ==> !p(xs[j])
  {
    if |xs| == 0 then None
    else if p(xs[0]) then Some(0)
    else match FirstMatch(xs[1..], p)
      case None => None
      case Some(k) => Some(k + 1)
  }

  /** OclaDomain::get_number_of_triggers: how many triggers of the domain
      target the instance with the given index. */
  function TriggerCount(ts: seq<Trigger>, instanceIndex: u32): (n: nat)
    ensures n <= |ts|
  {
    if |ts| == 0 then 0
    else TriggerCount(ts[..|ts| - 1], instanceIndex) + (if ts[|ts| - 1].instanceIndex == instanceIndex then 1 else 0)
  }

  lemma TriggerCountAppend(ts: seq<Trigger>, t: Trigger, instanceIndex: u32)
    ensures TriggerCount(ts + [t], instanceIndex) ==
            TriggerCount(ts, instanceIndex) + (if t.instanceIndex == instanceIndex then 1 else 0)
  {
    assert (ts + [t])[..|ts|] == ts;
  }

  /** Ocla::get_session: session ids are 1-based positions in the registry. */
  function GetSession(sessions: seq<Session>, id: u32): (r: Option<nat>)
    ensures r.Some? <==> 0 < id <= |sessions|
    ensures r.Some? ==> r.value == id - 1 && r.value < |sessions|
  {
    if id > 0 && |sessions| >= id then Some(id - 1) else None
  }
}
