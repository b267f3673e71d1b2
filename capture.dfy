/** Capture control of a clock domain: Ocla::program (operation mode and
    trigger channels of every instance), Ocla::start and Ocla::get_status. */
module Capture {
  import opened Bits
  import opened Topology
  import opened Hardware
  import opened Lookup
  import opened Verifier

  /** The channel configurations of the domain's triggers that target the
      instance, in list order. */
  function ChannelsFor(ts: seq<Trigger>, instanceIndex: u32): (r: seq<ChannelConfig>)
    ensures |r| == TriggerCount(ts, instanceIndex)
  {
    if |ts| == 0 then []
    else ChannelsFor(ts[..|ts| - 1], instanceIndex) +
         (if ts[|ts| - 1].instanceIndex == instanceIndex then [ts[|ts| - 1].cfg] else [])
  }

  /** The trigger at position j of the list lands on the channel numbered by
      how many earlier triggers target the same instance. */
  lemma {:induction false} ChannelOfTrigger(ts: seq<Trigger>, instanceIndex: u32, j: nat)
    requires j < |ts| && ts[j].instanceIndex == instanceIndex
    ensures TriggerCount(ts[..j], instanceIndex) < |ChannelsFor(ts, instanceIndex)|
    ensures ChannelsFor(ts, instanceIndex)[TriggerCount(ts[..j], instanceIndex)] == ts[j].cfg
  {
    var init := ts[..|ts| - 1];
    if j == |ts| - 1 {
      assert ts[..j] == init;
    } else {
      assert ts[..j] == init[..j];
      ChannelOfTrigger(init, instanceIndex, j);
    }
  }

  /** The first loop of `program`: channels 0 .. n-1 are cleared, in order. */
  function ClearChannels(chs: seq<ChannelConfig>, n: nat): (r: seq<ChannelConfig>)
    ensures |r| == |chs|
    ensures forall c :: 0 <= c < |chs| ==> r[c] == if c < n then ClearedChannel else chs[c]
  {
    if n == 0 then chs else SetChannel(ClearChannels(chs, n - 1), n - 1, ClearedChannel)
  }

  /** The second loop of `program`: the i-th configuration goes to channel i. */
  function Overlay(chs: seq<ChannelConfig>, ws: seq<ChannelConfig>): (r: seq<ChannelConfig>)
    ensures |r| == |chs|
    ensures forall c :: 0 <= c < |chs| ==> r[c] == if c < |ws| then ws[c] else chs[c]
  {
    if |ws| == 0 then chs else SetChannel(Overlay(chs, ws[..|ws| - 1]), |ws| - 1, ws[|ws| - 1])
  }

  /** One instrument after `program`: the domain's operation configuration,
      every channel it has cleared, then its own triggers in channels 0, 1,
      2, ... */
  function ProgramIp(ip: OclaIp, cfg: OclaConfig, mine: seq<ChannelConfig>): (r: OclaIp)
    ensures r == ip.(config := cfg, channels := r.channels)
    ensures |r.channels| == |ip.channels|
    ensures forall c :: 0 <= c < |ip.channels| ==>
              r.channels[c] == if c < |mine| then mine[c] else if c < ip.triggerCount then ClearedChannel else ip.channels[c]
  {
    ip.(config := cfg, channels := Overlay(ClearChannels(ip.channels, ip.triggerCount), mine))
  }

  /** The instruments after programming the instances in this order. */
  function ProgramInstances(dev: Devices, insts: seq<Instance>, d: Domain): (r: Devices)
    ensures r.eio == dev.eio
  {
    if |insts| == 0 then dev
    else
      var dev' := ProgramInstances(dev, insts[..|insts| - 1], d);
      var inst := insts[|insts| - 1];
      WithOcla(dev', inst.baseaddr, ProgramIp(OclaAt(dev', inst.baseaddr), d.config, ChannelsFor(d.triggers, inst.index)))
  }

  /** Ocla::program on a domain. */
  function ProgramDevices(dev: Devices, d: Domain): Devices {
    ProgramInstances(dev, d.instances, d)
  }

  ghost predicate DistinctAddresses(insts: seq<Instance>) {
    forall i, j :: 0 <= i < j < |insts| ==> insts[i].baseaddr != insts[j].baseaddr
  }

  /** Programming touches only the domain's instruments, leaves every
      identity, limit, start count, status and sample memory as it was, and
      keeps the set of addresses that answer. */
  lemma {:induction false} ProgramKeepsOthers(dev: Devices, insts: seq<Instance>, d: Domain)
    ensures var r := ProgramInstances(dev, insts, d);
            r.ocla.Keys == dev.ocla.Keys &&
            (forall a :: (forall i :: 0 <= i < |insts| ==> insts[i].baseaddr != a) ==> OclaAt(r, a) == OclaAt(dev, a)) &&
            forall a :: OclaAt(r, a) == OclaAt(dev, a).(config := OclaAt(r, a).config, channels := OclaAt(r, a).channels) &&
                        |OclaAt(r, a).channels| == |OclaAt(dev, a).channels|
  {
    if |insts| > 0 {
      ProgramKeepsOthers(dev, insts[..|insts| - 1], d);
    }
  }

  /** With distinct base addresses each instrument of the domain ends up
      programmed with its own triggers. */
  lemma {:induction false} ProgramEachInstance(dev: Devices, insts: seq<Instance>, d: Domain, i: nat)
    requires i < |insts| && DistinctAddresses(insts) && insts[i].baseaddr in dev.ocla
    ensures OclaAt(ProgramInstances(dev, insts, d), insts[i].baseaddr) ==
            ProgramIp(OclaAt(dev, insts[i].baseaddr), d.config, ChannelsFor(d.triggers, insts[i].index))
  {
    var init := insts[..|insts| - 1];
    ProgramKeepsOthers(dev, init, d);
    if i < |insts| - 1 {
      ProgramEachInstance(dev, init, d, i);
    } else {
      assert forall j :: 0 <= j < |init| ==> init[j].baseaddr != insts[i].baseaddr by {
        forall j | 0 <= j < |init| ensures init[j].baseaddr != insts[i].baseaddr {
          assert init[j] == insts[j];
        }
      }
    }
  }

  /** After `program`, every trigger of the domain is in the channel its
      position gives it (when the instrument has that channel), and the
      remaining channels the instrument reports are cleared. */
  lemma ProgramPlacesTriggers(dev: Devices, d: Domain, i: nat, j: nat, c: nat)
    requires i < |d.instances| && DistinctAddresses(d.instances) && d.instances[i].baseaddr in dev.ocla
    requires c < |OclaAt(dev, d.instances[i].baseaddr).channels|
    ensures var after := OclaAt(ProgramDevices(dev, d), d.instances[i].baseaddr);
            var before := OclaAt(dev, d.instances[i].baseaddr);
            var idx := d.instances[i].index;
            after.config == d.config && |after.channels| == |before.channels| &&
            (j < |d.triggers| && d.triggers[j].instanceIndex == idx && c == TriggerCount(d.triggers[..j], idx) ==>
               after.channels[c] == d.triggers[j].cfg) &&
            (TriggerCount(d.triggers, idx) <= c < before.triggerCount ==> after.channels[c] == ClearedChannel)
  {
    ProgramEachInstance(dev, d.instances, d, i);
    var idx := d.instances[i].index;
    if j < |d.triggers| && d.triggers[j].instanceIndex == idx {
      ChannelOfTrigger(d.triggers, idx, j);
    }
  }

  /** The fields of an instrument that verification compares. */
  ghost predicate SameIdentity(ip: OclaIp, ip': OclaIp) {
    ip.ipType == ip'.ipType && ip.version == ip'.version && ip.id == ip'.id &&
    ip.memoryDepth == ip'.memoryDepth && ip.numProbes == ip'.numProbes
  }

  /** The identity of the instruments is all verification reads. */
  lemma {:induction false} IdentityVerifies(s: Session, dev: Devices, dev': Devices)
    requires forall a :: SameIdentity(OclaAt(dev', a), OclaAt(dev, a))
    requires forall a :: EioAt(dev', a).ipType == EioAt(dev, a).ipType
    ensures Verified(s, dev') == Verified(s, dev)
  {
    VerifiedIff(s, dev);
    VerifiedIff(s, dev');
  }

  /** start: the domain to program and start, or why the capture is not
      started. */
  function StartPlan(sessions: seq<Session>, dev: Devices, domainId: u32): (r: Result<nat, OclaError>)
    ensures LookupDomain(sessions, domainId).Err? ==> r == Err(LookupFailed(LookupDomain(sessions, domainId).error))
    ensures r.Ok? ==> LookupDomain(sessions, domainId) == Ok(r.value) && Verified(sessions[0], dev) &&
                      |sessions[0].domains[r.value].triggers| > 0 && |sessions[0].domains[r.value].instances| > 0
    ensures LookupDomain(sessions, domainId).Ok? && Verified(sessions[0], dev) ==>
              var d := sessions[0].domains[LookupDomain(sessions, domainId).value];
              (r == Err(NoTriggers) <==> |d.triggers| == 0) &&
              (r == Err(NoInstance) <==> |d.triggers| > 0 && |d.instances| == 0)
    ensures r == Err(VerificationFailed) <==> LookupDomain(sessions, domainId).Ok? && !Verified(sessions[0], dev)
    ensures r.Ok? <==>
              LookupDomain(sessions, domainId).Ok? && Verified(sessions[0], dev) &&
              var d := sessions[0].domains[LookupDomain(sessions, domainId).value];
              |d.triggers| > 0 && |d.instances| > 0
  {
    match LookupDomain(sessions, domainId)
    case Err(e) => Err(LookupFailed(e))
    case Ok(k) =>
      var d := sessions[0].domains[k];
      if !Verified(sessions[0], dev) then Err(VerificationFailed)
      else if |d.triggers| == 0 then Err(NoTriggers)
      else if |d.instances| == 0 then Err(NoInstance)
      else Ok(k)
  }

  /** The instruments after start: nothing changes on a refusal; otherwise
      the domain is programmed and its first instance, the head of the daisy
      chain, receives one start command. */
  function AfterStart(sessions: seq<Session>, dev: Devices, domainId: u32): (r: Devices)
    ensures StartPlan(sessions, dev, domainId).Err? ==> r == dev
    ensures StartPlan(sessions, dev, domainId).Ok? ==>
              var d := sessions[0].domains[StartPlan(sessions, dev, domainId).value];
              var lead := d.instances[0].baseaddr;
              var programmed := ProgramDevices(dev, d);
              (forall a :: a != lead ==> OclaAt(r, a) == OclaAt(programmed, a)) &&
              (lead in dev.ocla ==> OclaAt(r, lead) == OclaAt(programmed, lead).(starts := OclaAt(programmed, lead).starts + 1)) &&
              (lead !in dev.ocla ==> r == programmed)
  {
    match StartPlan(sessions, dev, domainId)
    case Err(_) => dev
    case Ok(k) =>
      var d := sessions[0].domains[k];
      var programmed := ProgramDevices(dev, d);
      var lead := d.instances[0].baseaddr;
      ProgramKeepsOthers(dev, d.instances, d);
      WithOcla(programmed, lead, OclaAt(programmed, lead).(starts := OclaAt(programmed, lead).starts + 1))
  }

  /** A started capture leaves every instrument's identity as it was, so
      the session still verifies afterwards. */
  lemma StartKeepsVerified(sessions: seq<Session>, dev: Devices, domainId: u32)
    requires StartPlan(sessions, dev, domainId).Ok?
    ensures Verified(sessions[0], AfterStart(sessions, dev, domainId))
  {
    var d := sessions[0].domains[StartPlan(sessions, dev, domainId).value];
    ProgramKeepsOthers(dev, d.instances, d);
    IdentityVerifies(sessions[0], dev, ProgramDevices(dev, d));
    IdentityVerifies(sessions[0], ProgramDevices(dev, d), AfterStart(sessions, dev, domainId));
  }

  /** get_status: the status word of the domain's first instance. */
  function StatusPlan(sessions: seq<Session>, dev: Devices, domainId: u32): (r: Result<u32, OclaError>)
    ensures LookupDomain(sessions, domainId).Err? ==> r == Err(LookupFailed(LookupDomain(sessions, domainId).error))
    ensures r.Ok? ==>
              LookupDomain(sessions, domainId).Ok? && Verified(sessions[0], dev) &&
              var d := sessions[0].domains[LookupDomain(sessions, domainId).value];
              |d.instances| > 0 && r.value == OclaAt(dev, d.instances[0].baseaddr).status
    ensures LookupDomain(sessions, domainId).Ok? && Verified(sessions[0], dev) ==>
              (r == Err(NoInstance) <==> |sessions[0].domains[LookupDomain(sessions, domainId).value].instances| == 0)
    ensures r == Err(VerificationFailed) <==> LookupDomain(sessions, domainId).Ok? && !Verified(sessions[0], dev)
    ensures r.Ok? <==>
              LookupDomain(sessions, domainId).Ok? && Verified(sessions[0], dev) &&
              |sessions[0].domains[LookupDomain(sessions, domainId).value].instances| > 0
  {
    match LookupDomain(sessions, domainId)
    case Err(e) => Err(LookupFailed(e))
    case Ok(k) =>
      var d := sessions[0].domains[k];
      if !Verified(sessions[0], dev) then Err(VerificationFailed)
      else if |d.instances| == 0 then Err(NoInstance)
      else Ok(OclaAt(dev, d.instances[0].baseaddr).status)
  }
}
