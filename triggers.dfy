/** The trigger controller of a clock domain: Ocla::configure,
    Ocla::add_trigger, Ocla::edit_trigger and Ocla::remove_trigger, each as
    the decision it takes on the registry and the live instruments (a plan)
    and the registry it leaves behind. */
module Triggers {
  import opened Bits
  import opened Topology
  import opened Hardware
  import opened Lookup
  import opened Verifier

  /** The user's trigger request once its strings are converted: the
      trigger type and event, whether CFG_type_event_sanity_check accepts the
      pair, the compare value and the requested compare width. */
  datatype TriggerRequest = TriggerRequest(kind: TriggerType, event: TriggerEvent, pairingOk: bool,
                                           value: u32, compareWidth: u32)

  /** A selector is usable when the parser recognised it and its range is
      not reversed. */
  predicate ValidSelector(sel: ParsedSignal) {
    sel.pattern != NoMatch && sel.bitStart <= sel.bitEnd
  }

  /** Patterns 1 and 3 select a bit range of the signal. */
  predicate IsRange(p: SignalPattern) {
    p == Pattern1 || p == Pattern3
  }

  /** bit_end - bit_start + 1 in uint32_t. */
  function RangeWidth(sel: ParsedSignal): u32 {
    U32(sel.bitEnd - sel.bitStart + 1)
  }

  /** The range check as the source writes it: `pos + width > bitwidth`
      rejects, with both sides in uint32_t. */
  predicate RangeFitsAsWritten(sel: ParsedSignal, bitwidth: u32) {
    U32(sel.bitStart + RangeWidth(sel)) <= bitwidth
  }

  /** The range check as intended: the highest selected bit lies inside the
      signal. */
  predicate RangeFits(sel: ParsedSignal, bitwidth: u32) {
    sel.bitEnd < bitwidth
  }

  /** The uint32_t sum wraps when bit_end is the largest uint32_t value, and
      the range `[0xFFFFFFFF:1]` of an 8-bit signal passes the check as
      written. */
  lemma RangeCheckWrapsAsWritten()
    ensures var sel := ParsedSignal(Pattern1, "sig", 1, 0xFFFF_FFFF, 0, 0);
            ValidSelector(sel) && RangeFitsAsWritten(sel, 8) && !RangeFits(sel, 8)
  {
    var sel := ParsedSignal(Pattern1, "sig", 1, 0xFFFF_FFFF, 0, 0);
    assert RangeWidth(sel) == 0xFFFF_FFFF;
    assert U32(sel.bitStart + RangeWidth(sel)) == 0;
  }

  /** Below that value the two checks take the same decision. */
  lemma RangeChecksAgree(sel: ParsedSignal, bitwidth: u32)
    requires ValidSelector(sel) && sel.bitEnd < 0xFFFF_FFFF
    ensures RangeFitsAsWritten(sel, bitwidth) <==> RangeFits(sel, bitwidth)
  {
    assert RangeWidth(sel) == sel.bitEnd - sel.bitStart + 1;
    assert U32(sel.bitStart + RangeWidth(sel)) == sel.bitEnd + 1;
  }

  function Min(a: u32, b: u32): (r: u32)
    ensures r <= a && r <= b && (r == a || r == b)
  {
    if a < b then a else b
  }

  /** The trigger add_trigger and edit_trigger build for a signal: a bit
      range when the selector has one, the channel's probe number as the
      signal's bit position plus the range start (in uint32_t), and for a
      value compare with no width given the range width or the signal width,
      capped at the instrument's maximum. */
  function BuildTrigger(sel: ParsedSignal, probeId: u32, probe: Probe, sig: Signal, req: TriggerRequest,
                        maxCompareWidth: u32): (t: Trigger)
    ensures t.bitrangeEnable == IsRange(sel.pattern)
    ensures !t.bitrangeEnable ==> t.width == 0 && t.pos == 0
    ensures t.bitrangeEnable ==> t.pos == sel.bitStart
    ensures t.instanceIndex == probe.instanceIndex && t.probeId == probeId
    ensures t.signalId == sig.index && t.signalName == sig.name
    ensures t.cfg.kind == req.kind && t.cfg.event == req.event && t.cfg.value == req.value
    ensures (t.cfg.probeNum - (sig.bitpos + t.pos)) % 0x1_0000_0000 == 0
    ensures sig.bitpos + t.pos < 0x1_0000_0000 ==> t.cfg.probeNum == sig.bitpos + t.pos
    ensures req.kind == ValueCompare && req.compareWidth == 0 ==>
              t.cfg.compareWidth == Min(if t.bitrangeEnable then t.width else sig.bitwidth, maxCompareWidth)
    ensures !(req.kind == ValueCompare && req.compareWidth == 0) ==> t.cfg.compareWidth == req.compareWidth
  {
    var range := IsRange(sel.pattern);
    var width: u32 := if range then RangeWidth(sel) else 0;
    var pos: u32 := if range then sel.bitStart else 0;
    var cw := if req.kind == ValueCompare && req.compareWidth == 0
              then Min(if range then width else sig.bitwidth, maxCompareWidth)
              else req.compareWidth;
    Trigger(probe.instanceIndex, probeId, sig.index, sig.name, range, width, pos,
            ChannelConfig(req.kind, req.event, req.value, cw, U32(sig.bitpos + pos)))
  }

  /** A range trigger that passed the range check covers exactly the
      selected bits, all inside the signal. */
  lemma RangeTriggerShape(sel: ParsedSignal, probeId: u32, probe: Probe, sig: Signal, req: TriggerRequest,
                          maxCompareWidth: u32)
    requires ValidSelector(sel) && IsRange(sel.pattern) && RangeFits(sel, sig.bitwidth)
    ensures var t := BuildTrigger(sel, probeId, probe, sig, req, maxCompareWidth);
            t.width == sel.bitEnd - sel.bitStart + 1 && t.width >= 1 &&
            t.pos == sel.bitStart && t.pos + t.width <= sig.bitwidth
  {
    assert RangeWidth(sel) == sel.bitEnd - sel.bitStart + 1;
  }

  /** Once the requested width passed the limit check, the stored compare
      width never exceeds the instrument's maximum. */
  lemma CompareWidthWithinLimit(sel: ParsedSignal, probeId: u32, probe: Probe, sig: Signal, req: TriggerRequest,
                                maxCompareWidth: u32)
    requires req.compareWidth <= maxCompareWidth
    ensures BuildTrigger(sel, probeId, probe, sig, req, maxCompareWidth).cfg.compareWidth <= maxCompareWidth
  {
  }

  /** How many trigger channels the first instance of the domain with that
      index has on the live instrument; none when there is no such
      instance. */
  function Capacity(d: Domain, dev: Devices, instanceIndex: u32): (n: u32)
    ensures FindInstance(d.instances, instanceIndex).None? ==> n == 0
    ensures FindInstance(d.instances, instanceIndex).Some? ==>
              n == OclaAt(dev, d.instances[FindInstance(d.instances, instanceIndex).value].baseaddr).triggerCount
  {
    match FindInstance(d.instances, instanceIndex)
    case None => 0
    case Some(i) => OclaAt(dev, d.instances[i].baseaddr).triggerCount
  }

  /** The checks add_trigger and edit_trigger share once the signal is found
      and the hardware verified, in the source's order; the result is the
      position of the probe's instance. */
  function TriggerChecks(d: Domain, p: Probe, sig: Signal, dev: Devices, req: TriggerRequest): (r: Result<nat, OclaError>)
    ensures r == Err(InvalidPairing) <==> !req.pairingOk
    ensures r == Err(ConstantSignal) <==> req.pairingOk && sig.sigType == Constant
    ensures r == Err(InstanceNotFound) <==>
              req.pairingOk && sig.sigType != Constant && FindInstance(d.instances, p.instanceIndex).None?
    ensures r.Err? ==> r.error in {InvalidPairing, ConstantSignal, InstanceNotFound, CompareWidthExceeded}
    ensures r.Ok? ==> req.pairingOk && sig.sigType != Constant && FindInstance(d.instances, p.instanceIndex) == Some(r.value)
    ensures r.Ok? ==> r.value < |d.instances| && d.instances[r.value].index == p.instanceIndex
    ensures FindInstance(d.instances, p.instanceIndex).Some? && req.pairingOk && sig.sigType != Constant ==>
              (r == Err(CompareWidthExceeded) <==>
               req.compareWidth > OclaAt(dev, d.instances[FindInstance(d.instances, p.instanceIndex).value].baseaddr).maxCompareWidth)
  {
    if !req.pairingOk then Err(InvalidPairing)
    else if sig.sigType == Constant then Err(ConstantSignal)
    else match FindInstance(d.instances, p.instanceIndex)
      case None => Err(InstanceNotFound)
      case Some(i) =>
        if req.compareWidth > OclaAt(dev, d.instances[i].baseaddr).maxCompareWidth then Err(CompareWidthExceeded)
        else Ok(i)
  }

  datatype Placement = Placement(domain: nat, trigger: Trigger)

  /** add_trigger: which domain gains which trigger, or why nothing is
      added. */
  function AddTriggerPlan(sessions: seq<Session>, dev: Devices, domainId: u32, probeId: u32, sel: ParsedSignal,
                          req: TriggerRequest): (r: Result<Placement, OclaError>)
    ensures r == Err(InvalidSelector) <==> !ValidSelector(sel)
    ensures ValidSelector(sel) && LookupSignal(sessions, domainId, probeId, sel.name).Err? ==>
              r == Err(LookupFailed(LookupSignal(sessions, domainId, probeId, sel.name).error))
    ensures r.Ok? ==>
              LookupSignal(sessions, domainId, probeId, sel.name).Ok? &&
              var h := LookupSignal(sessions, domainId, probeId, sel.name).value;
              var d := sessions[0].domains[h.domain];
              var t := r.value.trigger;
              r.value.domain == h.domain && Verified(sessions[0], dev) &&
              t.instanceIndex == d.probes[h.probe].instanceIndex &&
              TriggerCount(d.triggers, t.instanceIndex) < Capacity(d, dev, t.instanceIndex) &&
              t.cfg.compareWidth <= OclaAt(dev, d.instances[FindInstance(d.instances, t.instanceIndex).value].baseaddr).maxCompareWidth &&
              (t.bitrangeEnable ==> t.pos + t.width <= d.probes[h.probe].signals[h.signal].bitwidth)
  {
    if !ValidSelector(sel) then Err(InvalidSelector)
    else match LookupSignal(sessions, domainId, probeId, sel.name)
      case Err(e) => Err(LookupFailed(e))
      case Ok(h) =>
        if !Verified(sessions[0], dev) then Err(VerificationFailed)
        else
          var d := sessions[0].domains[h.domain];
          var p := d.probes[h.probe];
          var sig := p.signals[h.signal];
          match TriggerChecks(d, p, sig, dev, req)
          case Err(e) => Err(e)
          case Ok(i) =>
            var ip := OclaAt(dev, d.instances[i].baseaddr);
            if TriggerCount(d.triggers, d.instances[i].index) >= ip.triggerCount then Err(TriggersExhausted)
            else if IsRange(sel.pattern) && !RangeFits(sel, sig.bitwidth) then Err(InvalidBitRange)
            else
              var t := BuildTrigger(sel, probeId, p, sig, req, ip.maxCompareWidth);
              CompareWidthWithinLimit(sel, probeId, p, sig, req, ip.maxCompareWidth);
              if IsRange(sel.pattern) then
                RangeTriggerShape(sel, probeId, p, sig, req, ip.maxCompareWidth);
                Ok(Placement(h.domain, t))
              else Ok(Placement(h.domain, t))
  }

  /** add_trigger gets past the selector, the lookup and the hardware
      verification, and goes on to check the signal. */
  predicate AddReachesSignal(sessions: seq<Session>, dev: Devices, domainId: u32, probeId: u32, sel: ParsedSignal) {
    ValidSelector(sel) && LookupSignal(sessions, domainId, probeId, sel.name).Ok? && Verified(sessions[0], dev)
  }

  /** Every check add_trigger makes passes, stated on the registry and the
      instruments themselves. */
  predicate AddAccepted(sessions: seq<Session>, dev: Devices, domainId: u32, probeId: u32, sel: ParsedSignal,
                        req: TriggerRequest) {
    AddReachesSignal(sessions, dev, domainId, probeId, sel) &&
    var h := LookupSignal(sessions, domainId, probeId, sel.name).value;
    var d := sessions[0].domains[h.domain];
    var p := d.probes[h.probe];
    var sig := p.signals[h.signal];
    req.pairingOk && sig.sigType != Constant && FindInstance(d.instances, p.instanceIndex).Some? &&
    req.compareWidth <= OclaAt(dev, d.instances[FindInstance(d.instances, p.instanceIndex).value].baseaddr).maxCompareWidth &&
    TriggerCount(d.triggers, p.instanceIndex) < Capacity(d, dev, p.instanceIndex) &&
    (IsRange(sel.pattern) ==> RangeFits(sel, sig.bitwidth))
  }

  /** The outcome of add_trigger, every way round: each refusal happens
      exactly when the checks before it pass and its own fails, and a
      request that passes every check is accepted. */
  lemma AddTriggerOutcome(sessions: seq<Session>, dev: Devices, domainId: u32, probeId: u32, sel: ParsedSignal,
                          req: TriggerRequest)
    ensures var r := AddTriggerPlan(sessions, dev, domainId, probeId, sel, req);
            r == Err(VerificationFailed) <==>
              ValidSelector(sel) && LookupSignal(sessions, domainId, probeId, sel.name).Ok? && !Verified(sessions[0], dev)
    ensures var r := AddTriggerPlan(sessions, dev, domainId, probeId, sel, req);
            r.Err? && r.error in {InvalidPairing, ConstantSignal, InstanceNotFound, CompareWidthExceeded,
                                  TriggersExhausted, InvalidBitRange} ==>
              AddReachesSignal(sessions, dev, domainId, probeId, sel)
    ensures AddReachesSignal(sessions, dev, domainId, probeId, sel) ==>
              var r := AddTriggerPlan(sessions, dev, domainId, probeId, sel, req);
              var h := LookupSignal(sessions, domainId, probeId, sel.name).value;
              var d := sessions[0].domains[h.domain];
              var p := d.probes[h.probe];
              var sig := p.signals[h.signal];
              var c := TriggerChecks(d, p, sig, dev, req);
              (c.Err? ==> r == Err(c.error)) &&
              (c.Ok? ==>
                 var full := TriggerCount(d.triggers, p.instanceIndex) >= Capacity(d, dev, p.instanceIndex);
                 var badRange := IsRange(sel.pattern) && !RangeFits(sel, sig.bitwidth);
                 (r == Err(TriggersExhausted) <==> full) &&
                 (r == Err(InvalidBitRange) <==> !full && badRange) &&
                 (r.Ok? <==> !full && !badRange))
    ensures AddTriggerPlan(sessions, dev, domainId, probeId, sel, req).Ok? <==>
              AddAccepted(sessions, dev, domainId, probeId, sel, req)
  {
    if AddReachesSignal(sessions, dev, domainId, probeId, sel) {
      var h := LookupSignal(sessions, domainId, probeId, sel.name).value;
      var d := sessions[0].domains[h.domain];
      var p := d.probes[h.probe];
      var c := TriggerChecks(d, p, p.signals[h.signal], dev, req);
      if c.Ok? {
        assert d.instances[c.value].index == p.instanceIndex;
      }
    }
  }

  /** The registry with the trigger list of one domain of session 1
      replaced and everything else as it was. */
  function WithTriggers(sessions: seq<Session>, k: nat, ts: seq<Trigger>): (r: seq<Session>)
    requires |sessions| > 0 && k < |sessions[0].domains|
    ensures |r| == |sessions| && r[1..] == sessions[1..]
    ensures r[0].eios == sessions[0].eios && |r[0].domains| == |sessions[0].domains|
    ensures r[0].domains[k] == sessions[0].domains[k].(triggers := ts)
    ensures forall j :: 0 <= j < |r[0].domains| && j != k ==> r[0].domains[j] == sessions[0].domains[j]
  {
    var s := sessions[0];
    sessions[0 := s.(domains := s.domains[k := s.domains[k].(triggers := ts)])]
  }

  /** The registry after add_trigger. */
  function AfterAdd(sessions: seq<Session>, dev: Devices, domainId: u32, probeId: u32, sel: ParsedSignal,
                    req: TriggerRequest): (r: seq<Session>)
    ensures |r| == |sessions|
    ensures AddTriggerPlan(sessions, dev, domainId, probeId, sel, req).Err? ==> r == sessions
  {
    match AddTriggerPlan(sessions, dev, domainId, probeId, sel, req)
    case Err(_) => sessions
    case Ok(p) => WithTriggers(sessions, p.domain, sessions[0].domains[p.domain].triggers + [p.trigger])
  }

  /** add_trigger appends at most one trigger, to the end of one domain's
      list, and changes nothing else. */
  lemma AddAppendsAtMostOne(sessions: seq<Session>, dev: Devices, domainId: u32, probeId: u32, sel: ParsedSignal,
                            req: TriggerRequest, k: nat)
    requires |sessions| > 0 && k < |sessions[0].domains|
    ensures var r := AfterAdd(sessions, dev, domainId, probeId, sel, req);
            var before := sessions[0].domains[k];
            var after := r[0].domains[k];
            r[1..] == sessions[1..] && r[0].eios == sessions[0].eios && |r[0].domains| == |sessions[0].domains| &&
            after == before.(triggers := after.triggers) &&
            (after.triggers == before.triggers ||
             (|after.triggers| == |before.triggers| + 1 && after.triggers[..|before.triggers|] == before.triggers))
  {
    match AddTriggerPlan(sessions, dev, domainId, probeId, sel, req)
    case Err(_) =>
    case Ok(p) =>
      var ts := sessions[0].domains[p.domain].triggers;
      assert (ts + [p.trigger])[..|ts|] == ts;
  }

  /** Exactly one trigger is added when the plan succeeds. */
  lemma AddOkAppendsTrigger(sessions: seq<Session>, dev: Devices, domainId: u32, probeId: u32, sel: ParsedSignal,
                            req: TriggerRequest)
    requires AddTriggerPlan(sessions, dev, domainId, probeId, sel, req).Ok?
    ensures var p := AddTriggerPlan(sessions, dev, domainId, probeId, sel, req).value;
            var r := AfterAdd(sessions, dev, domainId, probeId, sel, req);
            r[0].domains[p.domain].triggers == sessions[0].domains[p.domain].triggers + [p.trigger]
  {
  }

  /** When the instance of the probe already holds as many triggers as the
      instrument has channels, add_trigger refuses and leaves the registry
      as it was. */
  lemma AddRejectsWhenFull(sessions: seq<Session>, dev: Devices, domainId: u32, probeId: u32, sel: ParsedSignal,
                           req: TriggerRequest)
    requires ValidSelector(sel) && LookupSignal(sessions, domainId, probeId, sel.name).Ok?
    requires Verified(sessions[0], dev)
    requires var h := LookupSignal(sessions, domainId, probeId, sel.name).value;
             var d := sessions[0].domains[h.domain];
             var p := d.probes[h.probe];
             TriggerChecks(d, p, p.signals[h.signal], dev, req).Ok? &&
             TriggerCount(d.triggers, p.instanceIndex) >= Capacity(d, dev, p.instanceIndex)
    ensures AddTriggerPlan(sessions, dev, domainId, probeId, sel, req) == Err(TriggersExhausted)
    ensures AfterAdd(sessions, dev, domainId, probeId, sel, req) == sessions
  {
  }

  /** The trigger add_trigger appends names the signal found, covers the
      selected bits when the selector has a range, sits at channel probe
      number bitpos + pos (in uint32_t), and never compares more bits than
      the instrument allows. */
  lemma AddedTriggerShape(sessions: seq<Session>, dev: Devices, domainId: u32, probeId: u32, sel: ParsedSignal,
                          req: TriggerRequest)
    requires AddTriggerPlan(sessions, dev, domainId, probeId, sel, req).Ok?
    ensures var h := LookupSignal(sessions, domainId, probeId, sel.name).value;
            var d := sessions[0].domains[h.domain];
            var sig := d.probes[h.probe].signals[h.signal];
            var t := AddTriggerPlan(sessions, dev, domainId, probeId, sel, req).value.trigger;
            var ip := OclaAt(dev, d.instances[FindInstance(d.instances, t.instanceIndex).value].baseaddr);
            t.probeId == probeId && t.signalId == sig.index && t.signalName == sig.name &&
            sig.sigType != Constant && req.pairingOk &&
            t.bitrangeEnable == IsRange(sel.pattern) &&
            (t.bitrangeEnable ==> t.width == sel.bitEnd - sel.bitStart + 1 && t.pos == sel.bitStart) &&
            (!t.bitrangeEnable ==> t.width == 0 && t.pos == 0) &&
            t.cfg.probeNum == U32(sig.bitpos + t.pos) &&
            t.cfg.compareWidth <= ip.maxCompareWidth
  {
    var h := LookupSignal(sessions, domainId, probeId, sel.name).value;
    var d := sessions[0].domains[h.domain];
    var p := d.probes[h.probe];
    var sig := p.signals[h.signal];
    var i := TriggerChecks(d, p, sig, dev, req).value;
    var ip := OclaAt(dev, d.instances[i].baseaddr);
    var t := BuildTrigger(sel, probeId, p, sig, req, ip.maxCompareWidth);
    assert AddTriggerPlan(sessions, dev, domainId, probeId, sel, req).value.trigger == t;
    if IsRange(sel.pattern) {
      RangeTriggerShape(sel, probeId, p, sig, req, ip.maxCompareWidth);
    }
  }

  /** OclaDomain::get_trigger: trigger numbers are 1-based positions in the
      domain's list. */
  function TriggerSlot(ts: seq<Trigger>, triggerIndex: u32): (r: Option<nat>)
    ensures r.Some? <==> 1 <= triggerIndex <= |ts|
    ensures r.Some? ==> r.value == triggerIndex - 1 && r.value < |ts|
  {
    if 1 <= triggerIndex <= |ts| then Some(triggerIndex - 1) else None
  }

  datatype EditPlacement = EditPlacement(domain: nat, slot: nat, trigger: Trigger)

  /** edit_trigger: every check runs before anything is written, so the plan
      either replaces one trigger as a whole or changes nothing. The
      capacity check only runs when the trigger moves to another probe, and
      then counts the edited trigger itself. */
  function EditTriggerPlan(sessions: seq<Session>, dev: Devices, domainId: u32, triggerIndex: u32, probeId: u32,
                           sel: ParsedSignal, req: TriggerRequest): (r: Result<EditPlacement, OclaError>)
    ensures r == Err(InvalidSelector) <==> !ValidSelector(sel)
    ensures ValidSelector(sel) && LookupSignal(sessions, domainId, probeId, sel.name).Err? ==>
              r == Err(LookupFailed(LookupSignal(sessions, domainId, probeId, sel.name).error))
    ensures r.Ok? ==>
              LookupSignal(sessions, domainId, probeId, sel.name).Ok? &&
              var h := LookupSignal(sessions, domainId, probeId, sel.name).value;
              var d := sessions[0].domains[h.domain];
              var t := r.value.trigger;
              r.value.domain == h.domain && TriggerSlot(d.triggers, triggerIndex) == Some(r.value.slot) &&
              Verified(sessions[0], dev) &&
              t.instanceIndex == d.probes[h.probe].instanceIndex && t.probeId == probeId &&
              (d.triggers[r.value.slot].probeId != probeId ==>
                 TriggerCount(d.triggers, t.instanceIndex) < Capacity(d, dev, t.instanceIndex)) &&
              (t.bitrangeEnable ==> t.pos + t.width <= d.probes[h.probe].signals[h.signal].bitwidth)
  {
    if !ValidSelector(sel) then Err(InvalidSelector)
    else match LookupSignal(sessions, domainId, probeId, sel.name)
      case Err(e) => Err(LookupFailed(e))
      case Ok(h) =>
        var d := sessions[0].domains[h.domain];
        match TriggerSlot(d.triggers, triggerIndex)
        case None => Err(TriggerNotFound)
        case Some(j) =>
          if !Verified(sessions[0], dev) then Err(VerificationFailed)
          else
            var p := d.probes[h.probe];
            var sig := p.signals[h.signal];
            match TriggerChecks(d, p, sig, dev, req)
            case Err(e) => Err(e)
            case Ok(i) =>
              var ip := OclaAt(dev, d.instances[i].baseaddr);
              if d.triggers[j].probeId != probeId && TriggerCount(d.triggers, d.instances[i].index) >= ip.triggerCount then
                Err(TriggersExhausted)
              else if IsRange(sel.pattern) && !RangeFits(sel, sig.bitwidth) then Err(InvalidBitRange)
              else
                var t := BuildTrigger(sel, probeId, p, sig, req, ip.maxCompareWidth);
                if IsRange(sel.pattern) then
                  RangeTriggerShape(sel, probeId, p, sig, req, ip.maxCompareWidth);
                  Ok(EditPlacement(h.domain, j, t))
                else Ok(EditPlacement(h.domain, j, t))
  }

  /** The trigger edit_trigger writes is built exactly as add_trigger
      builds one: the same selection, probe number and compare width. */
  lemma EditedTriggerShape(sessions: seq<Session>, dev: Devices, domainId: u32, triggerIndex: u32, probeId: u32,
                           sel: ParsedSignal, req: TriggerRequest)
    requires EditTriggerPlan(sessions, dev, domainId, triggerIndex, probeId, sel, req).Ok?
    ensures var h := LookupSignal(sessions, domainId, probeId, sel.name).value;
            var d := sessions[0].domains[h.domain];
            var sig := d.probes[h.probe].signals[h.signal];
            var t := EditTriggerPlan(sessions, dev, domainId, triggerIndex, probeId, sel, req).value.trigger;
            var ip := OclaAt(dev, d.instances[FindInstance(d.instances, t.instanceIndex).value].baseaddr);
            t.signalId == sig.index && t.signalName == sig.name &&
            sig.sigType != Constant && req.pairingOk &&
            t.bitrangeEnable == IsRange(sel.pattern) &&
            (t.bitrangeEnable ==> t.width == sel.bitEnd - sel.bitStart + 1 && t.pos == sel.bitStart) &&
            (!t.bitrangeEnable ==> t.width == 0 && t.pos == 0) &&
            t.cfg.probeNum == U32(sig.bitpos + t.pos) &&
            t.cfg.compareWidth <= ip.maxCompareWidth
  {
    var h := LookupSignal(sessions, domainId, probeId, sel.name).value;
    var d := sessions[0].domains[h.domain];
    var p := d.probes[h.probe];
    var sig := p.signals[h.signal];
    var i := TriggerChecks(d, p, sig, dev, req).value;
    var ip := OclaAt(dev, d.instances[i].baseaddr);
    var t := BuildTrigger(sel, probeId, p, sig, req, ip.maxCompareWidth);
    assert EditTriggerPlan(sessions, dev, domainId, triggerIndex, probeId, sel, req).value.trigger == t;
    CompareWidthWithinLimit(sel, probeId, p, sig, req, ip.maxCompareWidth);
    if IsRange(sel.pattern) {
      RangeTriggerShape(sel, probeId, p, sig, req, ip.maxCompareWidth);
    }
  }

  /** The registry after edit_trigger: an accepted edit overwrites the
      chosen slot with the trigger built for the request, as a whole. */
  function AfterEdit(sessions: seq<Session>, dev: Devices, domainId: u32, triggerIndex: u32, probeId: u32,
                     sel: ParsedSignal, req: TriggerRequest): (r: seq<Session>)
    ensures |r| == |sessions|
    ensures EditTriggerPlan(sessions, dev, domainId, triggerIndex, probeId, sel, req).Err? ==> r == sessions
    ensures EditTriggerPlan(sessions, dev, domainId, triggerIndex, probeId, sel, req).Ok? ==>
              var e := EditTriggerPlan(sessions, dev, domainId, triggerIndex, probeId, sel, req).value;
              var before := sessions[0].domains[e.domain].triggers;
              |r[0].domains| == |sessions[0].domains| &&
              r[0].domains[e.domain].triggers == before[e.slot := e.trigger] &&
              e.slot < |before| && r[0].domains[e.domain].triggers[e.slot] == e.trigger
  {
    match EditTriggerPlan(sessions, dev, domainId, triggerIndex, probeId, sel, req)
    case Err(_) => sessions
    case Ok(e) => WithTriggers(sessions, e.domain, sessions[0].domains[e.domain].triggers[e.slot := e.trigger])
  }

  /** edit_trigger keeps the length of every trigger list and the position
      of every trigger; at most one trigger changes. */
  lemma EditKeepsLayout(sessions: seq<Session>, dev: Devices, domainId: u32, triggerIndex: u32, probeId: u32,
                        sel: ParsedSignal, req: TriggerRequest, k: nat)
    requires |sessions| > 0 && k < |sessions[0].domains|
    ensures var r := AfterEdit(sessions, dev, domainId, triggerIndex, probeId, sel, req);
            var before := sessions[0].domains[k];
            var after := r[0].domains[k];
            r[1..] == sessions[1..] && r[0].eios == sessions[0].eios && |r[0].domains| == |sessions[0].domains| &&
            after == before.(triggers := after.triggers) &&
            |after.triggers| == |before.triggers| &&
            forall j :: 0 <= j < |before.triggers| && j != triggerIndex - 1 ==> after.triggers[j] == before.triggers[j]
  {
  }

  /** Moving a trigger to another probe of an instance whose channels are all
      in use is refused even when the trigger already sat on that instance,
      because the count includes the edited trigger. */
  lemma EditToOtherProbeOnFullInstance(sessions: seq<Session>, dev: Devices, domainId: u32, triggerIndex: u32,
                                       probeId: u32, sel: ParsedSignal, req: TriggerRequest)
    requires ValidSelector(sel) && LookupSignal(sessions, domainId, probeId, sel.name).Ok?
    requires Verified(sessions[0], dev)
    requires var h := LookupSignal(sessions, domainId, probeId, sel.name).value;
             var d := sessions[0].domains[h.domain];
             var p := d.probes[h.probe];
             TriggerSlot(d.triggers, triggerIndex).Some? &&
             d.triggers[triggerIndex - 1].probeId != probeId &&
             TriggerChecks(d, p, p.signals[h.signal], dev, req).Ok? &&
             TriggerCount(d.triggers, p.instanceIndex) >= Capacity(d, dev, p.instanceIndex)
    ensures EditTriggerPlan(sessions, dev, domainId, triggerIndex, probeId, sel, req) == Err(TriggersExhausted)
  {
  }

  /** Editing a trigger in place, on the probe it already uses, never runs
      out of channels. */
  lemma EditSameProbeNeverExhausted(sessions: seq<Session>, dev: Devices, domainId: u32, triggerIndex: u32,
                                    probeId: u32, sel: ParsedSignal, req: TriggerRequest)
    requires ValidSelector(sel) && LookupSignal(sessions, domainId, probeId, sel.name).Ok?
    requires var d := sessions[0].domains[LookupSignal(sessions, domainId, probeId, sel.name).value.domain];
             TriggerSlot(d.triggers, triggerIndex).Some? && d.triggers[triggerIndex - 1].probeId == probeId
    ensures EditTriggerPlan(sessions, dev, domainId, triggerIndex, probeId, sel, req) != Err(TriggersExhausted)
  {
  }

  /** edit_trigger gets past the selector, the lookup, the trigger number
      and the hardware verification, and goes on to check the signal. */
  predicate EditReachesSignal(sessions: seq<Session>, dev: Devices, domainId: u32, triggerIndex: u32, probeId: u32,
                              sel: ParsedSignal) {
    ValidSelector(sel) && LookupSignal(sessions, domainId, probeId, sel.name).Ok? &&
    TriggerSlot(sessions[0].domains[LookupSignal(sessions, domainId, probeId, sel.name).value.domain].triggers,
                triggerIndex).Some? &&
    Verified(sessions[0], dev)
  }

  /** Every check edit_trigger makes passes; the capacity check only binds
      when the trigger moves to another probe. */
  predicate EditAccepted(sessions: seq<Session>, dev: Devices, domainId: u32, triggerIndex: u32, probeId: u32,
                         sel: ParsedSignal, req: TriggerRequest) {
    EditReachesSignal(sessions, dev, domainId, triggerIndex, probeId, sel) &&
    var h := LookupSignal(sessions, domainId, probeId, sel.name).value;
    var d := sessions[0].domains[h.domain];
    var p := d.probes[h.probe];
    var sig := p.signals[h.signal];
    req.pairingOk && sig.sigType != Constant && FindInstance(d.instances, p.instanceIndex).Some? &&
    req.compareWidth <= OclaAt(dev, d.instances[FindInstance(d.instances, p.instanceIndex).value].baseaddr).maxCompareWidth &&
    (d.triggers[triggerIndex - 1].probeId != probeId ==>
       TriggerCount(d.triggers, p.instanceIndex) < Capacity(d, dev, p.instanceIndex)) &&
    (IsRange(sel.pattern) ==> RangeFits(sel, sig.bitwidth))
  }

  /** The outcome of edit_trigger, every way round: each refusal happens
      exactly when the checks before it pass and its own fails, and a
      request that passes every check is accepted. */
  lemma EditTriggerOutcome(sessions: seq<Session>, dev: Devices, domainId: u32, triggerIndex: u32, probeId: u32,
                           sel: ParsedSignal, req: TriggerRequest)
    ensures var r := EditTriggerPlan(sessions, dev, domainId, triggerIndex, probeId, sel, req);
            var l := LookupSignal(sessions, domainId, probeId, sel.name);
            (r == Err(TriggerNotFound) <==>
               ValidSelector(sel) && l.Ok? && TriggerSlot(sessions[0].domains[l.value.domain].triggers, triggerIndex).None?) &&
            (r == Err(VerificationFailed) <==>
               ValidSelector(sel) && l.Ok? && TriggerSlot(sessions[0].domains[l.value.domain].triggers, triggerIndex).Some? &&
               !Verified(sessions[0], dev))
    ensures var r := EditTriggerPlan(sessions, dev, domainId, triggerIndex, probeId, sel, req);
            r.Err? && r.error in {InvalidPairing, ConstantSignal, InstanceNotFound, CompareWidthExceeded,
                                  TriggersExhausted, InvalidBitRange} ==>
              EditReachesSignal(sessions, dev, domainId, triggerIndex, probeId, sel)
    ensures EditReachesSignal(sessions, dev, domainId, triggerIndex, probeId, sel) ==>
              var r := EditTriggerPlan(sessions, dev, domainId, triggerIndex, probeId, sel, req);
              var h := LookupSignal(sessions, domainId, probeId, sel.name).value;
              var d := sessions[0].domains[h.domain];
              var p := d.probes[h.probe];
              var sig := p.signals[h.signal];
              var c := TriggerChecks(d, p, sig, dev, req);
              (c.Err? ==> r == Err(c.error)) &&
              (c.Ok? ==>
                 var full := d.triggers[triggerIndex - 1].probeId != probeId &&
                             TriggerCount(d.triggers, p.instanceIndex) >= Capacity(d, dev, p.instanceIndex);
                 var badRange := IsRange(sel.pattern) && !RangeFits(sel, sig.bitwidth);
                 (r == Err(TriggersExhausted) <==> full) &&
                 (r == Err(InvalidBitRange) <==> !full && badRange) &&
                 (r.Ok? <==> !full && !badRange))
    ensures EditTriggerPlan(sessions, dev, domainId, triggerIndex, probeId, sel, req).Ok? <==>
              EditAccepted(sessions, dev, domainId, triggerIndex, probeId, sel, req)
  {
    if EditReachesSignal(sessions, dev, domainId, triggerIndex, probeId, sel) {
      var h := LookupSignal(sessions, domainId, probeId, sel.name).value;
      var d := sessions[0].domains[h.domain];
      var p := d.probes[h.probe];
      var c := TriggerChecks(d, p, p.signals[h.signal], dev, req);
      if c.Ok? {
        assert d.instances[c.value].index == p.instanceIndex;
      }
    }
  }

  /** remove_trigger: the domain and the position of the trigger to drop. */
  function RemoveTriggerPlan(sessions: seq<Session>, dev: Devices, domainId: u32, triggerIndex: u32): (r: Result<(nat, nat), OclaError>)
    ensures LookupDomain(sessions, domainId).Err? ==> r == Err(LookupFailed(LookupDomain(sessions, domainId).error))
    ensures r.Ok? ==> LookupDomain(sessions, domainId) == Ok(r.value.0) && Verified(sessions[0], dev) &&
                      TriggerSlot(sessions[0].domains[r.value.0].triggers, triggerIndex) == Some(r.value.1)
    ensures LookupDomain(sessions, domainId).Ok? && Verified(sessions[0], dev) ==>
              (r == Err(TriggerNotFound) <==>
               TriggerSlot(sessions[0].domains[LookupDomain(sessions, domainId).value].triggers, triggerIndex).None?)
    ensures r == Err(VerificationFailed) <==> LookupDomain(sessions, domainId).Ok? && !Verified(sessions[0], dev)
    ensures r.Ok? <==>
              LookupDomain(sessions, domainId).Ok? && Verified(sessions[0], dev) &&
              TriggerSlot(sessions[0].domains[LookupDomain(sessions, domainId).value].triggers, triggerIndex).Some?
  {
    match LookupDomain(sessions, domainId)
    case Err(e) => Err(LookupFailed(e))
    case Ok(k) =>
      if !Verified(sessions[0], dev) then Err(VerificationFailed)
      else match TriggerSlot(sessions[0].domains[k].triggers, triggerIndex)
        case None => Err(TriggerNotFound)
        case Some(j) => Ok((k, j))
  }

  /** The registry after remove_trigger: the list without that trigger, the
      others in their order; every other part of the registry, and every
      other field of the domain, as it was. */
  function AfterRemove(sessions: seq<Session>, dev: Devices, domainId: u32, triggerIndex: u32): (r: seq<Session>)
    ensures |r| == |sessions|
    ensures RemoveTriggerPlan(sessions, dev, domainId, triggerIndex).Err? ==> r == sessions
    ensures RemoveTriggerPlan(sessions, dev, domainId, triggerIndex).Ok? ==>
              var (k, j) := RemoveTriggerPlan(sessions, dev, domainId, triggerIndex).value;
              var before := sessions[0].domains[k].triggers;
              r[1..] == sessions[1..] && r[0].eios == sessions[0].eios &&
              |r[0].domains| == |sessions[0].domains| &&
              r[0].domains[k] == sessions[0].domains[k].(triggers := r[0].domains[k].triggers) &&
              (forall m :: 0 <= m < |r[0].domains| && m != k ==> r[0].domains[m] == sessions[0].domains[m]) &&
              var after := r[0].domains[k].triggers;
              |after| == |before| - 1 &&
              (forall i :: 0 <= i < j ==> after[i] == before[i]) &&
              (forall i :: j <= i < |after| ==> after[i] == before[i + 1])
  {
    match RemoveTriggerPlan(sessions, dev, domainId, triggerIndex)
    case Err(_) => sessions
    case Ok((k, j)) =>
      var ts := sessions[0].domains[k].triggers;
      WithTriggers(sessions, k, ts[..j] + ts[j + 1..])
  }

  /** configure: the domain whose configuration is replaced. The sample size
      is checked against the memory depth recorded for the domain's first
      instance. */
  function ConfigurePlan(sessions: seq<Session>, dev: Devices, domainId: u32, sampleSize: u32): (r: Result<nat, OclaError>)
    ensures LookupDomain(sessions, domainId).Err? ==> r == Err(LookupFailed(LookupDomain(sessions, domainId).error))
    ensures r.Ok? ==> LookupDomain(sessions, domainId) == Ok(r.value) && Verified(sessions[0], dev) &&
                      |sessions[0].domains[r.value].instances| > 0 &&
                      sampleSize <= sessions[0].domains[r.value].instances[0].memoryDepth
    ensures LookupDomain(sessions, domainId).Ok? && Verified(sessions[0], dev) ==>
              var d := sessions[0].domains[LookupDomain(sessions, domainId).value];
              (r == Err(NoInstance) <==> |d.instances| == 0) &&
              (r == Err(SampleSizeTooLarge) <==> |d.instances| > 0 && sampleSize > d.instances[0].memoryDepth)
    ensures r == Err(VerificationFailed) <==> LookupDomain(sessions, domainId).Ok? && !Verified(sessions[0], dev)
    ensures r.Ok? <==>
              LookupDomain(sessions, domainId).Ok? && Verified(sessions[0], dev) &&
              var d := sessions[0].domains[LookupDomain(sessions, domainId).value];
              |d.instances| > 0 && sampleSize <= d.instances[0].memoryDepth
  {
    match LookupDomain(sessions, domainId)
    case Err(e) => Err(LookupFailed(e))
    case Ok(k) =>
      var d := sessions[0].domains[k];
      if !Verified(sessions[0], dev) then Err(VerificationFailed)
      else if |d.instances| == 0 then Err(NoInstance)
      else if sampleSize > d.instances[0].memoryDepth then Err(SampleSizeTooLarge)
      else Ok(k)
  }

  /** The registry after configure: only that domain's configuration
      changes. */
  function AfterConfigure(sessions: seq<Session>, dev: Devices, domainId: u32, sampleSize: u32, mode: nat,
                          condition: nat): (r: seq<Session>)
    ensures |r| == |sessions|
    ensures ConfigurePlan(sessions, dev, domainId, sampleSize).Err? ==> r == sessions
    ensures ConfigurePlan(sessions, dev, domainId, sampleSize).Ok? ==>
              var k := ConfigurePlan(sessions, dev, domainId, sampleSize).value;
              r[1..] == sessions[1..] && r[0].eios == sessions[0].eios &&
              |r[0].domains| == |sessions[0].domains| &&
              r[0].domains[k] == sessions[0].domains[k].(config := OclaConfig(sampleSize, mode, condition)) &&
              forall j :: 0 <= j < |r[0].domains| && j != k ==> r[0].domains[j] == sessions[0].domains[j]
  {
    match ConfigurePlan(sessions, dev, domainId, sampleSize)
    case Err(_) => sessions
    case Ok(k) =>
      var s := sessions[0];
      sessions[0 := s.(domains := s.domains[k := s.domains[k].(config := OclaConfig(sampleSize, mode, condition))])]
  }

  // ---------------------------------------------------------------------
  // The trigger bookkeeping every operation keeps.

  function Aimed(t: Trigger, instanceIndex: u32): nat {
    if t.instanceIndex == instanceIndex then 1 else 0
  }

  lemma {:induction false} TriggerCountConcat(a: seq<Trigger>, b: seq<Trigger>, instanceIndex: u32)
    ensures TriggerCount(a + b, instanceIndex) == TriggerCount(a, instanceIndex) + TriggerCount(b, instanceIndex)
    decreases |b|
  {
    if |b| == 0 {
      assert a + b == a;
    } else {
      var b' := b[..|b| - 1];
      assert (a + b)[..|a + b| - 1] == a + b';
      TriggerCountConcat(a, b', instanceIndex);
    }
  }

  lemma TriggerCountSplit(ts: seq<Trigger>, j: nat, t: Trigger, instanceIndex: u32)
    requires j < |ts|
    ensures TriggerCount(ts[j := t], instanceIndex) + Aimed(ts[j], instanceIndex) ==
            TriggerCount(ts, instanceIndex) + Aimed(t, instanceIndex)
    ensures TriggerCount(ts[..j] + ts[j + 1..], instanceIndex) + Aimed(ts[j], instanceIndex) ==
            TriggerCount(ts, instanceIndex)
  {
    assert ts == ts[..j] + [ts[j]] + ts[j + 1..];
    assert ts[j := t] == ts[..j] + [t] + ts[j + 1..];
    TriggerCountConcat(ts[..j] + [ts[j]], ts[j + 1..], instanceIndex);
    TriggerCountConcat(ts[..j], [ts[j]], instanceIndex);
    TriggerCountConcat(ts[..j] + [t], ts[j + 1..], instanceIndex);
    TriggerCountConcat(ts[..j], [t], instanceIndex);
    TriggerCountConcat(ts[..j], ts[j + 1..], instanceIndex);
    assert [ts[j]][..0] == [];
    assert [t][..0] == [];
  }

  /** A trigger sits on the instance of the probe it names. */
  ghost predicate Homed(d: Domain, t: Trigger) {
    FindProbe(d.probes, t.probeId).Some? && d.probes[FindProbe(d.probes, t.probeId).value].instanceIndex == t.instanceIndex
  }

  /** Every trigger of the domain sits on its probe's instance, and no
      instance holds more triggers than its instrument has channels. */
  ghost predicate DomainConsistent(d: Domain, dev: Devices) {
    (forall j :: 0 <= j < |d.triggers| ==> Homed(d, d.triggers[j])) &&
    (forall idx: u32 :: TriggerCount(d.triggers, idx) <= Capacity(d, dev, idx))
  }

  ghost predicate SessionConsistent(s: Session, dev: Devices) {
    forall k :: 0 <= k < |s.domains| ==> DomainConsistent(s.domains[k], dev)
  }

  /** Replacing one domain's triggers by a consistent list keeps the session
      consistent. */
  lemma WithTriggersConsistent(sessions: seq<Session>, dev: Devices, k: nat, ts: seq<Trigger>)
    requires |sessions| > 0 && k < |sessions[0].domains| && SessionConsistent(sessions[0], dev)
    requires DomainConsistent(sessions[0].domains[k].(triggers := ts), dev)
    ensures SessionConsistent(WithTriggers(sessions, k, ts)[0], dev)
  {
    var r := WithTriggers(sessions, k, ts);
    forall j | 0 <= j < |r[0].domains|
      ensures DomainConsistent(r[0].domains[j], dev)
    {
      if j != k {
        assert r[0].domains[j] == sessions[0].domains[j];
      }
    }
  }

  /** Appending a trigger homed on an instance with a free channel keeps a
      domain consistent. */
  lemma AppendKeepsDomainConsistent(d: Domain, dev: Devices, t: Trigger)
    requires DomainConsistent(d, dev) && Homed(d, t)
    requires TriggerCount(d.triggers, t.instanceIndex) < Capacity(d, dev, t.instanceIndex)
    ensures DomainConsistent(d.(triggers := d.triggers + [t]), dev)
  {
    var ts := d.triggers + [t];
    var d' := d.(triggers := ts);
    forall j | 0 <= j < |ts|
      ensures Homed(d', ts[j])
    {
      if j < |d.triggers| {
        assert ts[j] == d.triggers[j];
        assert Homed(d, d.triggers[j]);
      }
    }
    forall idx: u32
      ensures TriggerCount(ts, idx) <= Capacity(d', dev, idx)
    {
      TriggerCountAppend(d.triggers, t, idx);
    }
  }

  /** Replacing a trigger by one on the same probe, or by one on an instance
      with a free channel, keeps a domain consistent. */
  lemma ReplaceKeepsDomainConsistent(d: Domain, dev: Devices, j: nat, t: Trigger)
    requires DomainConsistent(d, dev) && j < |d.triggers| && Homed(d, t)
    requires d.triggers[j].probeId == t.probeId ||
             TriggerCount(d.triggers, t.instanceIndex) < Capacity(d, dev, t.instanceIndex)
    ensures DomainConsistent(d.(triggers := d.triggers[j := t]), dev)
  {
    var ts := d.triggers[j := t];
    var d' := d.(triggers := ts);
    assert Homed(d, d.triggers[j]);
    forall i | 0 <= i < |ts|
      ensures Homed(d', ts[i])
    {
      if i != j {
        assert Homed(d, d.triggers[i]);
      }
    }
    forall idx: u32
      ensures TriggerCount(ts, idx) <= Capacity(d', dev, idx)
    {
      TriggerCountSplit(d.triggers, j, t, idx);
    }
  }

  /** Dropping a trigger keeps a domain consistent. */
  lemma RemoveKeepsDomainConsistent(d: Domain, dev: Devices, j: nat)
    requires DomainConsistent(d, dev) && j < |d.triggers|
    ensures DomainConsistent(d.(triggers := d.triggers[..j] + d.triggers[j + 1..]), dev)
  {
    var ts := d.triggers[..j] + d.triggers[j + 1..];
    var d' := d.(triggers := ts);
    forall i | 0 <= i < |ts|
      ensures Homed(d', ts[i])
    {
      if i < j {
        assert ts[i] == d.triggers[i];
        assert Homed(d, d.triggers[i]);
      } else {
        assert ts[i] == d.triggers[i + 1];
        assert Homed(d, d.triggers[i + 1]);
      }
    }
    forall idx: u32
      ensures TriggerCount(ts, idx) <= Capacity(d', dev, idx)
    {
      TriggerCountSplit(d.triggers, j, d.triggers[j], idx);
    }
  }

  /** add_trigger keeps every domain consistent. */
  lemma AddKeepsConsistent(sessions: seq<Session>, dev: Devices, domainId: u32, probeId: u32, sel: ParsedSignal,
                           req: TriggerRequest)
    requires |sessions| > 0 && SessionConsistent(sessions[0], dev)
    ensures SessionConsistent(AfterAdd(sessions, dev, domainId, probeId, sel, req)[0], dev)
  {
    match AddTriggerPlan(sessions, dev, domainId, probeId, sel, req)
    case Err(_) =>
    case Ok(p) =>
      var d := sessions[0].domains[p.domain];
      AppendKeepsDomainConsistent(d, dev, p.trigger);
      WithTriggersConsistent(sessions, dev, p.domain, d.triggers + [p.trigger]);
  }

  /** edit_trigger keeps every domain consistent: an edit on the same probe
      leaves every count as it was, and a move to another probe was checked
      against the capacity of the new instance. */
  lemma EditKeepsConsistent(sessions: seq<Session>, dev: Devices, domainId: u32, triggerIndex: u32, probeId: u32,
                            sel: ParsedSignal, req: TriggerRequest)
    requires |sessions| > 0 && SessionConsistent(sessions[0], dev)
    ensures SessionConsistent(AfterEdit(sessions, dev, domainId, triggerIndex, probeId, sel, req)[0], dev)
  {
    match EditTriggerPlan(sessions, dev, domainId, triggerIndex, probeId, sel, req)
    case Err(_) =>
    case Ok(e) =>
      var d := sessions[0].domains[e.domain];
      ReplaceKeepsDomainConsistent(d, dev, e.slot, e.trigger);
      WithTriggersConsistent(sessions, dev, e.domain, d.triggers[e.slot := e.trigger]);
  }

  /** remove_trigger keeps every domain consistent. */
  lemma RemoveKeepsConsistent(sessions: seq<Session>, dev: Devices, domainId: u32, triggerIndex: u32)
    requires |sessions| > 0 && SessionConsistent(sessions[0], dev)
    ensures SessionConsistent(AfterRemove(sessions, dev, domainId, triggerIndex)[0], dev)
  {
    match RemoveTriggerPlan(sessions, dev, domainId, triggerIndex)
    case Err(_) =>
    case Ok((k, j)) =>
      var d := sessions[0].domains[k];
      RemoveKeepsDomainConsistent(d, dev, j);
      WithTriggersConsistent(sessions, dev, k, d.triggers[..j] + d.triggers[j + 1..]);
  }
}
