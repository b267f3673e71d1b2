/** The debug controller itself (class Ocla of
    src/ConfigurationRS/Ocla/Ocla.cpp): the session registry it keeps, the
    adapter it talks to the instruments through, and its operations as the
    loops the source runs. Each operation is proved to take the decision
    and leave the state that the matching plan of modules Lookup, Verifier,
    Triggers, Capture, Waveform and EioIo describes. */
module Controller {
  import opened Bits
  import opened Eio
  import opened Topology
  import opened Hardware
  import opened Text
  import opened Lookup
  import opened Verifier
  import opened Triggers
  import opened Capture
  import opened Waveform
  import opened EioIo

  class Ocla {
    /** m_adapter. */
    const adapter: Adapter
    /** m_sessions: the loaded debug sessions; session id n is position n-1. */
    var sessions: seq<Session>

    constructor (adapter: Adapter)
      ensures this.adapter == adapter && sessions == []
    {
      this.adapter := adapter;
      sessions := [];
    }

    // -------------------------------------------------------------------
    // Registry

    /** start_session: a second session is refused; so is a file that does
        not exist or does not load. `fileExists` is what the filesystem
        says and `load` what OclaDebugSession::load produced. */
    method StartSession(fileExists: bool, load: Result<Session, seq<string>>) returns (r: Result<(), OclaError>)
      modifies this`sessions
      ensures old(sessions) != [] ==> r == Err(SessionAlreadyLoaded) && sessions == old(sessions)
      ensures old(sessions) == [] && !fileExists ==> r == Err(FileNotFound) && sessions == old(sessions)
      ensures old(sessions) == [] && fileExists && load.Err? ==>
                r == Err(LoadFailed(load.error)) && sessions == old(sessions)
      ensures old(sessions) == [] && fileExists && load.Ok? ==> r == Ok(()) && sessions == [load.value]
      ensures |sessions| <= 1 || sessions == old(sessions)
    {
      if sessions != [] {
        return Err(SessionAlreadyLoaded);
      }
      if !fileExists {
        return Err(FileNotFound);
      }
      match load
      case Err(messages) =>
        r := Err(LoadFailed(messages));
      case Ok(session) =>
        sessions := sessions + [session];
        r := Ok(());
    }

    /** stop_session: forgets the loaded session; with none loaded it
        reports an error. */
    method StopSession() returns (r: Result<(), OclaError>)
      modifies this`sessions
      ensures r == if old(sessions) == [] then Err(NoSessionToStop) else Ok(())
      ensures sessions == []
    {
      if sessions == [] {
        return Err(NoSessionToStop);
      }
      sessions := [];
      r := Ok(());
    }

    // -------------------------------------------------------------------
    // Lookup

    /** get_hier_objects(1, session, domain_id, &domain): the scan for the
        first clock domain with that index. */
    method GetDomain(domainId: u32) returns (r: Result<nat, LookupError>)
      ensures r == LookupDomain(sessions, domainId)
    {
      if GetSession(sessions, 1).None? {
        return Err(SessionNotLoaded);
      }
      var ds := sessions[0].domains;
      var k := 0;
      while k < |ds|
        invariant k <= |ds|
        invariant forall j :: 0 <= j < k ==> ds[j].index != domainId
      {
        if ds[k].index == domainId {
          return Ok(k);
        }
        k := k + 1;
      }
      r := Err(DomainNotFound);
    }

    /** get_hier_objects down to a signal: the domain, then the first probe
        with that index, then the first signal the selector picks (by index
        when it is a number, by name otherwise). */
    method GetHierObjects(domainId: u32, probeId: u32, selector: string) returns (r: Result<Handles, LookupError>)
      ensures r == LookupSignal(sessions, domainId, probeId, selector)
    {
      var dr := GetDomain(domainId);
      if dr.Err? {
        return Err(dr.error);
      }
      var d := sessions[0].domains[dr.value];
      var p := 0;
      while p < |d.probes| && d.probes[p].index != probeId
        invariant p <= |d.probes|
        invariant forall j :: 0 <= j < p ==> d.probes[j].index != probeId
      {
        p := p + 1;
      }
      if p == |d.probes| {
        assert FindProbe(d.probes, probeId).None?;
        return Err(ProbeNotFound);
      }
      assert FindProbe(d.probes, probeId) == Some(p);
      var signalId := ParseUnsigned(selector);
      var sigs := d.probes[p].signals;
      var s := 0;
      while s < |sigs| && !(match signalId case Some(n) => sigs[s].index == n case None => sigs[s].name == selector)
        invariant s <= |sigs|
        invariant forall j :: 0 <= j < s ==> !SignalSelected(sigs[j], selector)
      {
        s := s + 1;
      }
      if s == |sigs| {
        assert FindSignal(sigs, selector).None?;
        return Err(SignalNotFound);
      }
      assert SignalSelected(sigs[s], selector);
      assert FindSignal(sigs, selector) == Some(s);
      r := Ok(Handles(dr.value, p, s));
    }

    /** get_eio_hier_objects: the first EIO instance with that index, then
        its first probe with that index and direction. */
    method GetEioHierObjects(instanceIndex: u32, probeId: u32, dir: Direction) returns (r: Result<EioHandles, LookupError>)
      ensures r == LookupEioProbe(sessions, instanceIndex, probeId, dir)
    {
      if GetSession(sessions, 1).None? {
        return Err(SessionNotLoaded);
      }
      var eios := sessions[0].eios;
      var k := 0;
      while k < |eios| && eios[k].index != instanceIndex
        invariant k <= |eios|
        invariant forall j :: 0 <= j < k ==> eios[j].index != instanceIndex
      {
        k := k + 1;
      }
      if k == |eios| {
        assert FindEioInstance(eios, instanceIndex).None?;
        return Err(EioInstanceNotFound);
      }
      assert FindEioInstance(eios, instanceIndex) == Some(k);
      var probes := eios[k].probes;
      var p := 0;
      while p < |probes| && !(probes[p].index == probeId && probes[p].direction == dir)
        invariant p <= |probes|
        invariant forall j :: 0 <= j < p ==> !(probes[j].index == probeId && probes[j].direction == dir)
      {
        p := p + 1;
      }
      if p == |probes| {
        assert FindEioProbe(probes, probeId, dir).None?;
        return Err(EioProbeNotFound(dir));
      }
      assert FindEioProbe(probes, probeId, dir) == Some(p);
      r := Ok(EioHandles(k, p));
    }

    /** The std::find_if of find_eio_signals: the first signal the name
        selects, by index when the name is a number and by name otherwise. */
    method FindEioSignal(list: seq<EioSignal>, name: string) returns (r: Option<nat>)
      ensures r == ResolveEio(list, name)
    {
      var signalIdx := ParseUnsigned(name);
      var k := 0;
      while k < |list| && !(match signalIdx case Some(n) => list[k].index == n case None => list[k].name == name)
        invariant k <= |list|
        invariant forall j :: 0 <= j < k ==> !EioSignalSelected(list[j], name)
      {
        k := k + 1;
      }
      if k == |list| {
        return None;
      }
      assert EioSignalSelected(list[k], name);
      r := Some(k);
    }

    /** find_eio_signals: each name in turn; the first name that finds
        nothing ends the search. */
    method FindEioSignals(list: seq<EioSignal>, names: seq<string>) returns (r: Option<seq<EioSignal>>)
      ensures r == Lookup.FindEioSignals(list, names)
    {
      var found: seq<EioSignal> := [];
      var i := 0;
      while i < |names|
        invariant i <= |names|
        invariant Lookup.FindEioSignals(list, names[..i]) == Some(found)
      {
        var k := FindEioSignal(list, names[i]);
        if k.None? {
          return None;
        }
        assert names[..i + 1][..i] == names[..i];
        found := found + [list[k.value]];
        i := i + 1;
      }
      assert names[..i] == names;
      r := Some(found);
    }

    /** parse_eio_signal_list over what CFG_parse_signal made of each
        string: every entry must be of `name=value` form. */
    method ParseEioSignalList(parsed: seq<ParsedSignal>) returns (r: Option<Assignments>)
      ensures r == EioIo.ParseEioSignalList(parsed)
    {
      var names: seq<string> := [];
      var values: seq<seq<bv32>> := [];
      var i := 0;
      while i < |parsed|
        invariant i <= |parsed|
        invariant EioIo.ParseEioSignalList(parsed[..i]) == Some(Assignments(names, values))
      {
        assert parsed[..i + 1][..i] == parsed[..i];
        if !CarriesValue(parsed[i]) {
          return None;
        }
        values := values + [SplitU64(parsed[i].value)];
        names := names + [parsed[i].name];
        i := i + 1;
      }
      assert parsed[..i] == parsed;
      r := Some(Assignments(names, values));
    }

    // -------------------------------------------------------------------
    // Trigger setup

    /** configure: find the domain, verify, then check the sample size
        against the first instance's memory depth before replacing the
        domain's configuration. `mode` and `condition` are the converted
        mode and condition strings. The result carries the domain's
        position. */
    method Configure(domainId: u32, mode: nat, condition: nat, sampleSize: u32) returns (r: Result<nat, OclaError>)
      modifies this`sessions
      ensures r == ConfigurePlan(old(sessions), adapter.devices, domainId, sampleSize)
      ensures sessions == AfterConfigure(old(sessions), adapter.devices, domainId, sampleSize, mode, condition)
    {
      var k := GetDomain(domainId);
      if k.Err? {
        return Err(LookupFailed(k.error));
      }
      var ok := Verify(sessions[0]);
      if !ok {
        return Err(VerificationFailed);
      }
      var d := sessions[0].domains[k.value];
      if |d.instances| == 0 {
        return Err(NoInstance);
      }
      if sampleSize > d.instances[0].memoryDepth {
        return Err(SampleSizeTooLarge);
      }
      var s := sessions[0];
      sessions := sessions[0 := s.(domains := s.domains[k.value := d.(config := OclaConfig(sampleSize, mode, condition))])];
      r := Ok(k.value);
    }

    /** add_trigger: the selector, the lookup, verify, the shared checks,
        the channel budget of the probe's instance and the bit range, in
        that order; only then is the trigger appended to the domain. */
    method AddTrigger(domainId: u32, probeId: u32, sel: ParsedSignal, req: TriggerRequest)
      returns (r: Result<Placement, OclaError>)
      modifies this`sessions
      ensures r == AddTriggerPlan(old(sessions), adapter.devices, domainId, probeId, sel, req)
      ensures sessions == AfterAdd(old(sessions), adapter.devices, domainId, probeId, sel, req)
    {
      if !ValidSelector(sel) {
        return Err(InvalidSelector);
      }
      var h := GetHierObjects(domainId, probeId, sel.name);
      if h.Err? {
        return Err(LookupFailed(h.error));
      }
      var ok := Verify(sessions[0]);
      if !ok {
        return Err(VerificationFailed);
      }
      var d := sessions[0].domains[h.value.domain];
      var p := d.probes[h.value.probe];
      var sig := p.signals[h.value.signal];
      var c := TriggerChecks(d, p, sig, adapter.devices, req);
      if c.Err? {
        return Err(c.error);
      }
      var ip := OclaAt(adapter.devices, d.instances[c.value].baseaddr);
      if TriggerCount(d.triggers, d.instances[c.value].index) >= ip.triggerCount {
        return Err(TriggersExhausted);
      }
      if IsRange(sel.pattern) && !RangeFits(sel, sig.bitwidth) {
        return Err(InvalidBitRange);
      }
      var t := BuildTrigger(sel, probeId, p, sig, req, ip.maxCompareWidth);
      sessions := WithTriggers(sessions, h.value.domain, d.triggers + [t]);
      r := Ok(Placement(h.value.domain, t));
    }

    /** edit_trigger: the same checks as add_trigger, with the trigger
        looked up before verify and the channel budget checked only when the
        trigger moves to another probe; the trigger is replaced only after
        every check passed. */
    method EditTrigger(domainId: u32, triggerIndex: u32, probeId: u32, sel: ParsedSignal, req: TriggerRequest)
      returns (r: Result<EditPlacement, OclaError>)
      modifies this`sessions
      ensures r == EditTriggerPlan(old(sessions), adapter.devices, domainId, triggerIndex, probeId, sel, req)
      ensures sessions == AfterEdit(old(sessions), adapter.devices, domainId, triggerIndex, probeId, sel, req)
    {
      if !ValidSelector(sel) {
        return Err(InvalidSelector);
      }
      var h := GetHierObjects(domainId, probeId, sel.name);
      if h.Err? {
        return Err(LookupFailed(h.error));
      }
      var d := sessions[0].domains[h.value.domain];
      var slot := TriggerSlot(d.triggers, triggerIndex);
      if slot.None? {
        return Err(TriggerNotFound);
      }
      var ok := Verify(sessions[0]);
      if !ok {
        return Err(VerificationFailed);
      }
      var p := d.probes[h.value.probe];
      var sig := p.signals[h.value.signal];
      var c := TriggerChecks(d, p, sig, adapter.devices, req);
      if c.Err? {
        return Err(c.error);
      }
      var ip := OclaAt(adapter.devices, d.instances[c.value].baseaddr);
      if d.triggers[slot.value].probeId != probeId && TriggerCount(d.triggers, d.instances[c.value].index) >= ip.triggerCount {
        return Err(TriggersExhausted);
      }
      if IsRange(sel.pattern) && !RangeFits(sel, sig.bitwidth) {
        return Err(InvalidBitRange);
      }
      var t := BuildTrigger(sel, probeId, p, sig, req, ip.maxCompareWidth);
      sessions := WithTriggers(sessions, h.value.domain, d.triggers[slot.value := t]);
      r := Ok(EditPlacement(h.value.domain, slot.value, t));
    }

    /** remove_trigger: find the domain, verify, then drop the trigger with
        that 1-based number. */
    method RemoveTrigger(domainId: u32, triggerIndex: u32) returns (r: Result<(nat, nat), OclaError>)
      modifies this`sessions
      ensures r == RemoveTriggerPlan(old(sessions), adapter.devices, domainId, triggerIndex)
      ensures sessions == AfterRemove(old(sessions), adapter.devices, domainId, triggerIndex)
    {
      var k := GetDomain(domainId);
      if k.Err? {
        return Err(LookupFailed(k.error));
      }
      var ok := Verify(sessions[0]);
      if !ok {
        return Err(VerificationFailed);
      }
      var ts := sessions[0].domains[k.value].triggers;
      var slot := TriggerSlot(ts, triggerIndex);
      if slot.None? {
        return Err(TriggerNotFound);
      }
      sessions := WithTriggers(sessions, k.value, ts[..slot.value] + ts[slot.value + 1..]);
      r := Ok((k.value, slot.value));
    }

    // -------------------------------------------------------------------
    // Verification and capture

    /** verify: count the identity mismatches of every instance of every
        clock domain (a wrong type counts once and skips that instance's
        other checks), then the EIO blocks whose type is not "EIO"; the
        session verifies when the count is zero. */
    method Verify(s: Session) returns (ok: bool)
      ensures ok == Verified(s, adapter.devices)
    {
      var errorCount: nat := 0;
      var k := 0;
      while k < |s.domains|
        invariant k <= |s.domains|
        invariant errorCount == DomainsErrors(s.domains[..k], adapter.devices)
      {
        var insts := s.domains[k].instances;
        var i := 0;
        while i < |insts|
          invariant i <= |insts|
          invariant errorCount == DomainsErrors(s.domains[..k], adapter.devices) + InstancesErrors(insts[..i], adapter.devices)
        {
          assert insts[..i + 1][..i] == insts[..i];
          var ip := OclaAt(adapter.devices, insts[i].baseaddr);
          if ip.ipType != insts[i].ipType {
            errorCount := errorCount + 1;
            i := i + 1;
            continue;
          }
          if ip.version != insts[i].version {
            errorCount := errorCount + 1;
          }
          if ip.id != insts[i].id {
            errorCount := errorCount + 1;
          }
          if ip.memoryDepth != insts[i].memoryDepth {
            errorCount := errorCount + 1;
          }
          if ip.numProbes != insts[i].numProbes {
            errorCount := errorCount + 1;
          }
          i := i + 1;
        }
        assert insts[..i] == insts;
        assert s.domains[..k + 1][..k] == s.domains[..k];
        k := k + 1;
      }
      assert s.domains[..k] == s.domains;
      var e := 0;
      while e < |s.eios|
        invariant e <= |s.eios|
        invariant errorCount == DomainsErrors(s.domains, adapter.devices) + EiosErrors(s.eios[..e], adapter.devices)
      {
        assert s.eios[..e + 1][..e] == s.eios[..e];
        if EioAt(adapter.devices, s.eios[e].baseaddr).ipType != EioIpType {
          errorCount := errorCount + 1;
        }
        e := e + 1;
      }
      assert s.eios[..e] == s.eios;
      ok := errorCount == 0;
    }

    /** The body of program's loop for one instance: the operation
        configuration, every channel the instrument reports cleared, then
        the instance's triggers on channels 0, 1, 2, ... in list order. */
    method ProgramInstance(inst: Instance, d: Domain)
      modifies adapter
      ensures adapter.devices ==
              WithOcla(old(adapter.devices), inst.baseaddr,
                       ProgramIp(OclaAt(old(adapter.devices), inst.baseaddr), d.config, ChannelsFor(d.triggers, inst.index)))
    {
      var addr := inst.baseaddr;
      ghost var dev0 := adapter.devices;
      ghost var ip0 := OclaAt(dev0, addr);
      adapter.Configure(addr, d.config);
      WithOclaTwice(dev0, addr, ip0, ip0.(config := d.config));
      var n := OclaAt(adapter.devices, addr).triggerCount;
      ghost var ip1 := ip0.(config := d.config, channels := ClearChannels(ip0.channels, n));
      ClearAllChannels(addr, n);
      WithOclaTwice(dev0, addr, ip0.(config := d.config), ip1);
      WriteChannels(addr, d.triggers, inst.index);
      WithOclaTwice(dev0, addr, ip1, ip1.(channels := Overlay(ip1.channels, ChannelsFor(d.triggers, inst.index))));
    }

    /** The first loop of `program` on one instrument: channels 0 to n - 1
        get the cleared configuration. */
    method ClearAllChannels(addr: u32, n: nat)
      modifies adapter
      ensures adapter.devices ==
              WithOcla(old(adapter.devices), addr,
                       OclaAt(old(adapter.devices), addr).(channels := ClearChannels(OclaAt(old(adapter.devices), addr).channels, n)))
    {
      ghost var dev0 := adapter.devices;
      ghost var ip0 := OclaAt(dev0, addr);
      WithOclaTwice(dev0, addr, ip0, ip0);
      var i := 0;
      while i < n
        invariant i <= n
        invariant adapter.devices == WithOcla(dev0, addr, ip0.(channels := ClearChannels(ip0.channels, i)))
      {
        ghost var cur := ip0.(channels := ClearChannels(ip0.channels, i));
        WithOclaTwice(dev0, addr, cur, cur.(channels := SetChannel(cur.channels, i, ClearedChannel)));
        adapter.ConfigureChannel(addr, i, ClearedChannel);
        i := i + 1;
      }
    }

    /** The second loop of `program` on one instrument: the triggers of
        instance `index`, in list order, go to channels 0, 1, 2, ... */
    method WriteChannels(addr: u32, ts: seq<Trigger>, index: u32)
      modifies adapter
      ensures adapter.devices ==
              WithOcla(old(adapter.devices), addr,
                       OclaAt(old(adapter.devices), addr).(channels := Overlay(OclaAt(old(adapter.devices), addr).channels,
                                                                              ChannelsFor(ts, index))))
    {
      ghost var dev0 := adapter.devices;
      ghost var ip0 := OclaAt(dev0, addr);
      WithOclaTwice(dev0, addr, ip0, ip0);
      var ch := 0;
      var j := 0;
      while j < |ts|
        invariant j <= |ts|
        invariant ch == |ChannelsFor(ts[..j], index)|
        invariant adapter.devices == WithOcla(dev0, addr, ip0.(channels := Overlay(ip0.channels, ChannelsFor(ts[..j], index))))
      {
        ghost var mine := ChannelsFor(ts[..j], index);
        assert ts[..j + 1][..j] == ts[..j];
        if ts[j].instanceIndex == index {
          ghost var cur := ip0.(channels := Overlay(ip0.channels, mine));
          WithOclaTwice(dev0, addr, cur, cur.(channels := SetChannel(cur.channels, ch, ts[j].cfg)));
          assert (mine + [ts[j].cfg])[..|mine|] == mine;
          adapter.ConfigureChannel(addr, ch, ts[j].cfg);
          ch := ch + 1;
        } else {
          assert mine + [] == mine;
        }
        j := j + 1;
      }
      assert ts[..j] == ts;
    }

    /** program: every instance of the domain, one after the other. */
    method Program(d: Domain)
      modifies adapter
      ensures adapter.devices == ProgramDevices(old(adapter.devices), d)
    {
      ghost var dev0 := adapter.devices;
      var k := 0;
      while k < |d.instances|
        invariant k <= |d.instances|
        invariant adapter.devices == ProgramInstances(dev0, d.instances[..k], d)
      {
        assert d.instances[..k + 1][..k] == d.instances[..k];
        ProgramInstance(d.instances[k], d);
        k := k + 1;
      }
      assert d.instances[..k] == d.instances;
    }

    /** start: find the domain, verify, insist on at least one trigger and
        one instance, program the domain and start its first instance. The
        result carries the domain's position. */
    method Start(domainId: u32) returns (r: Result<nat, OclaError>)
      modifies adapter
      ensures r == StartPlan(sessions, old(adapter.devices), domainId)
      ensures adapter.devices == AfterStart(sessions, old(adapter.devices), domainId)
    {
      var k := GetDomain(domainId);
      if k.Err? {
        return Err(LookupFailed(k.error));
      }
      var ok := Verify(sessions[0]);
      if !ok {
        return Err(VerificationFailed);
      }
      var d := sessions[0].domains[k.value];
      if |d.triggers| == 0 {
        return Err(NoTriggers);
      }
      if |d.instances| == 0 {
        return Err(NoInstance);
      }
      Program(d);
      adapter.Start(d.instances[0].baseaddr);
      r := Ok(k.value);
    }

    /** get_status: the status word of the domain's first instance. */
    method GetStatus(domainId: u32) returns (r: Result<u32, OclaError>)
      ensures r == StatusPlan(sessions, adapter.devices, domainId)
    {
      var k := GetDomain(domainId);
      if k.Err? {
        return Err(LookupFailed(k.error));
      }
      var ok := Verify(sessions[0]);
      if !ok {
        return Err(VerificationFailed);
      }
      var d := sessions[0].domains[k.value];
      if |d.instances| == 0 {
        return Err(NoInstance);
      }
      r := Ok(OclaAt(adapter.devices, d.instances[0].baseaddr).status);
    }

    // -------------------------------------------------------------------
    // Waveform

    /** The copy loop of get_waveform for one signal: a zeroed buffer of
        `depth` rows of WordsFor(bitwidth) words, and for each sample row the
        signal's bits copied down to the start of its row. */
    method SignalWaveform(sig: Signal, data: SampleData) returns (w: SignalWave)
      ensures w == SignalWaveOf(sig, data)
    {
      var wpl := WordsFor(sig.bitwidth);
      RowWordIsProduct(data.depth, wpl);
      var values := Zeros(wpl * data.depth);
      assert values == [] + Zeros(RowWord(data.depth, wpl));
      var src := 0;
      var dst := 0;
      var i := 0;
      while i < data.depth
        invariant i <= data.depth
        invariant src == RowWord(i, data.wordsPerLine) && dst == RowWord(i, wpl)
        invariant values == SignalRows(sig, data, i) + Zeros(RowWord(data.depth - i, wpl))
      {
        ghost var done := SignalRows(sig, data, i);
        ghost var rest := RowWord(data.depth - i - 1, wpl);
        ZerosConcat(wpl, rest);
        assert values == done + Zeros(wpl) + Zeros(rest);
        CopyBitsInBlock(data.values, 32 * src + sig.bitpos, done, Zeros(wpl), Zeros(rest), 0, sig.bitwidth);
        ghost var row := SignalRow(sig, data, i);
        assert row == CopyBits(data.values, 32 * src + sig.bitpos, Zeros(wpl), 0, sig.bitwidth);
        assert SignalRows(sig, data, i + 1) == done + row;
        values := CopyBits(data.values, 32 * src + sig.bitpos, values, 32 * dst, sig.bitwidth);
        assert values == done + row + Zeros(rest);
        src := src + data.wordsPerLine;
        dst := dst + wpl;
        i := i + 1;
      }
      assert values == SignalRows(sig, data, data.depth) + [];
      w := SignalWave(sig.name, sig.bitwidth, sig.bitpos, wpl, data.depth, values);
    }

    /** One probe of get_waveform: its signals in order, each cut from the
        samples of the probe's instance (none when that instance was not
        read). */
    method ProbeWaveform(p: Probe, m: map<u32, SampleData>) returns (w: ProbeWave)
      ensures w == ProbeWaveOf(p, m)
    {
      var data := DataFor(m, p.instanceIndex);
      var signals: seq<SignalWave> := [];
      var s := 0;
      while s < |p.signals|
        invariant s <= |p.signals| && |signals| == s
        invariant forall q :: 0 <= q < s ==> signals[q] == SignalWaveOf(p.signals[q], data)
      {
        var sw := SignalWaveform(p.signals[s], data);
        signals := signals + [sw];
        s := s + 1;
      }
      w := ProbeWave(p.index, signals);
      assert w.signals == ProbeWaveOf(p, m).signals;
    }

    /** get_waveform: find the domain, read the samples of every instance
        into a map keyed by instance index, then build one waveform per
        probe. */
    method GetWaveform(domainId: u32) returns (r: Result<Wave, OclaError>)
      ensures r == WaveformPlan(sessions, adapter.devices, domainId)
    {
      var k := GetDomain(domainId);
      if k.Err? {
        return Err(LookupFailed(k.error));
      }
      var d := sessions[0].domains[k.value];
      var m: map<u32, SampleData> := map[];
      var i := 0;
      while i < |d.instances|
        invariant i <= |d.instances|
        invariant m == SampleMap(adapter.devices, d.instances[..i])
      {
        assert d.instances[..i + 1][..i] == d.instances[..i];
        m := m[d.instances[i].index := OclaAt(adapter.devices, d.instances[i].baseaddr).data];
        i := i + 1;
      }
      assert d.instances[..i] == d.instances;
      var probes: seq<ProbeWave> := [];
      var j := 0;
      while j < |d.probes|
        invariant j <= |d.probes| && |probes| == j
        invariant forall q :: 0 <= q < j ==> probes[q] == ProbeWaveOf(d.probes[q], m)
      {
        var pw := ProbeWaveform(d.probes[j], m);
        probes := probes + [pw];
        j := j + 1;
      }
      r := Ok(Wave(d.index, probes));
      assert r.value.probes == WaveformPlan(sessions, adapter.devices, domainId).value.probes;
    }

    // -------------------------------------------------------------------
    // EIO

    /** The update loop of set_io: each value, widened to its signal's
        words when shorter, copied from its bit 0 into its signal's window
        of the output image, one signal after the other. */
    method UpdateOutput(output: seq<bv32>, sigs: seq<EioSignal>, values: seq<seq<bv32>>) returns (image: seq<bv32>)
      requires |values| == |sigs|
      ensures image == ApplyValues(output, sigs, values)
    {
      image := output;
      var i := 0;
      while i < |sigs|
        invariant i <= |sigs|
        invariant image == ApplyValues(output, sigs[..i], values[..i])
      {
        assert sigs[..i + 1][..i] == sigs[..i] && values[..i + 1][..i] == values[..i];
        var v := Widen(values[i], WordsFor(sigs[i].bitwidth));
        image := CopyBits(v, 0, image, sigs[i].bitpos, sigs[i].bitwidth);
        i := i + 1;
      }
      assert sigs[..i] == sigs && values[..i] == values;
    }

    /** set_io: parse the assignments, find output probe 1 of EIO instance
        1 and the named signals, verify, overlay the values on a readback of
        the output register, write it, and confirm it by a second readback.
        `numWords` is the output width the instance records. The hardware
        changes only when every check before the write passed. */
    method SetIo(parsed: seq<ParsedSignal>, numWords: u32) returns (r: Result<(), OclaError>)
      modifies adapter
      ensures var plan := old(SetIoPlan(sessions, adapter.devices, parsed, numWords));
              (plan.Err? ==> r == Err(plan.error) && adapter.devices == old(adapter.devices)) &&
              (plan.Ok? ==> adapter.devices == plan.value.devices &&
                            r == if Confirmed(plan.value) then Ok(()) else Err(WriteNotConfirmed))
    {
      ghost var dev0 := adapter.devices;
      ghost var plan := SetIoPlan(sessions, dev0, parsed, numWords);
      var a := ParseEioSignalList(parsed);
      if a.None? {
        assert plan == Err(InvalidEioSignal);
        return Err(InvalidEioSignal);
      }
      var h := GetEioHierObjects(1, 1, IoOutput);
      if h.Err? {
        assert plan == Err(LookupFailed(h.error));
        return Err(LookupFailed(h.error));
      }
      assert OutputProbe(sessions) == h;
      var inst := sessions[0].eios[h.value.instance];
      var found := FindEioSignals(inst.probes[h.value.probe].signals, a.value.names);
      if found.None? {
        assert plan == Err(EioSignalNotFound);
        return Err(EioSignalNotFound);
      }
      var ok := Verify(sessions[0]);
      if !ok {
        assert plan == Err(VerificationFailed);
        return Err(VerificationFailed);
      }
      var addr := inst.baseaddr;
      var output := adapter.ReadbackOutputBits(addr, numWords);
      var image := UpdateOutput(output, found.value, a.value.values);
      ghost var w := IoWrite(addr, numWords, found.value, a.value.values, image,
                             WithEio(dev0, addr, WriteOutput(EioAt(dev0, addr), image, numWords)));
      assert plan == Ok(w);
      adapter.WriteOutputBits(addr, image, numWords);
      assert adapter.devices == w.devices;
      var readback := adapter.ReadbackOutputBits(addr, numWords);
      assert readback == image <==> Confirmed(w);
      if readback != image {
        return Err(WriteNotConfirmed);
      }
      r := Ok(());
    }

    /** The first loop of get_io: drop a leading '#' from every name. */
    method StripNames(names: seq<string>) returns (r: seq<string>)
      ensures r == StripMarkers(names)
    {
      r := [];
      var i := 0;
      while i < |names|
        invariant i <= |names| && |r| == i
        invariant forall q :: 0 <= q < i ==> r[q] == StripMarker(names[q])
      {
        var n := names[i];
        if |n| > 0 && n[0] == '#' {
          r := r + [n[1..]];
        } else {
          r := r + [n];
        }
        i := i + 1;
      }
    }

    /** The msb loop of get_io: the largest top bit among the signals,
        starting from 0. */
    method FindMsb(sigs: seq<EioSignal>) returns (msb: u32)
      ensures msb == MsbPos(sigs)
    {
      msb := 0;
      var i := 0;
      while i < |sigs|
        invariant i <= |sigs|
        invariant msb == MsbPos(sigs[..i])
      {
        assert sigs[..i + 1][..i] == sigs[..i];
        var top := TopBit(sigs[i]);
        if top > msb {
          msb := top;
        }
        i := i + 1;
      }
      assert sigs[..i] == sigs;
    }

    /** The transform loop of get_io: one value per signal, its bits cut
        from the words read. */
    method CutValues(sigs: seq<EioSignal>, input: seq<bv32>) returns (values: seq<EioValue>)
      ensures values == ReadValues(sigs, input)
    {
      values := [];
      var i := 0;
      while i < |sigs|
        invariant i <= |sigs| && |values| == i
        invariant forall q :: 0 <= q < i ==> values[q] == ReadValue(sigs[q], input)
      {
        var s := sigs[i];
        var v := CopyBits(input, s.bitpos, Zeros(WordsFor(s.bitwidth)), 0, s.bitwidth);
        values := values + [EioValue(s.name, s.index, v)];
        i := i + 1;
      }
    }

    /** get_io: strip the markers, find input probe 1 of EIO instance 1 and
        the named signals, verify, read the input register up to the word
        holding the highest signal bit, and cut out the values. */
    method GetIo(names: seq<string>) returns (r: Result<seq<EioValue>, OclaError>)
      ensures var plan := old(GetIoPlan(sessions, adapter.devices, names));
              r == if plan.Ok? then Ok(plan.value.values) else Err(plan.error)
    {
      ghost var plan := GetIoPlan(sessions, adapter.devices, names);
      var stripped := StripNames(names);
      var h := GetEioHierObjects(1, 1, IoInput);
      if h.Err? {
        assert plan == Err(LookupFailed(h.error));
        return Err(LookupFailed(h.error));
      }
      var inst := sessions[0].eios[h.value.instance];
      assert old(InputProbe(sessions)) == h && old(inst.probes) == inst.probes;
      var found := FindEioSignals(inst.probes[h.value.probe].signals, stripped);
      if found.None? {
        assert plan == Err(EioSignalNotFound);
        return Err(EioSignalNotFound);
      }
      var ok := Verify(sessions[0]);
      if !ok {
        assert plan == Err(VerificationFailed);
        return Err(VerificationFailed);
      }
      assert old(adapter.devices) == adapter.devices;
      assert plan == GetIoRead(inst.baseaddr, found.value, adapter.devices);
      var msb := FindMsb(found.value);
      var input := adapter.ReadInputBits(inst.baseaddr, msb / 32 + 1);
      var values := CutValues(found.value, input);
      assert plan == Ok(IoRead(inst.baseaddr, found.value, msb / 32 + 1, input, values));
      r := Ok(values);
    }
  }
}
