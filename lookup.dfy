/** Hierarchical lookup: session -> clock domain -> probe -> signal
    (Ocla::get_hier_objects), its EIO analogue session -> EIO instance ->
    probe of one direction (Ocla::get_eio_hier_objects), and the resolution
    of a list of EIO signal names (Ocla::find_eio_signals). Results are
    positions into the sequences they were found in. */
module Lookup {
  import opened Bits
  import opened Eio
  import opened Topology
  import opened Text

  /** A signal selector names a signal by index when it is an unsigned
      number, and by exact name otherwise. */
  predicate SignalSelected(sig: Signal, selector: string) {
    match ParseUnsigned(selector)
    case Some(n) => sig.index == n
    case None => sig.name == selector
  }

  function FindDomain(ds: seq<Domain>, domainId: u32): Option<nat> {
    FirstMatch(ds, (d: Domain) => d.index == domainId)
  }

  function FindProbe(ps: seq<Probe>, probeId: u32): Option<nat> {
    FirstMatch(ps, (p: Probe) => p.index == probeId)
  }

  function FindSignal(sigs: seq<Signal>, selector: string): Option<nat> {
    FirstMatch(sigs, (s: Signal) => SignalSelected(s, selector))
  }

  /** OclaDomain::get_instance: the first instance of the domain with the
      given index. */
  function FindInstance(insts: seq<Instance>, index: u32): Option<nat> {
    FirstMatch(insts, (i: Instance) => i.index == index)
  }

  datatype Handles = Handles(domain: nat, probe: nat, signal: nat)

  /** get_hier_objects down to the clock domain: session 1, then the first
      domain whose index matches. */
  function LookupDomain(sessions: seq<Session>, domainId: u32): (r: Result<nat, LookupError>)
    ensures r == Err(SessionNotLoaded) <==> |sessions| == 0
    ensures r == Err(DomainNotFound) <==>
              |sessions| > 0 && forall j :: 0 <= j < |sessions[0].domains| ==> sessions[0].domains[j].index != domainId
    ensures r.Err? ==> r.error == SessionNotLoaded || r.error == DomainNotFound
    ensures r.Ok? ==> |sessions| > 0 && r.value < |sessions[0].domains| && sessions[0].domains[r.value].index == domainId
    ensures r.Ok? ==> forall j :: 0 <= j < r.value ==> sessions[0].domains[j].index != domainId
  {
    match GetSession(sessions, 1)
    case None => Err(SessionNotLoaded)
    case Some(s) =>
      match FindDomain(sessions[s].domains, domainId)
      case None => Err(DomainNotFound)
      case Some(k) => Ok(k)
  }

  /** get_hier_objects down to a signal. Each level takes the first element
      that matches; a level that finds nothing fails the whole lookup with
      that level's error. */
  function LookupSignal(sessions: seq<Session>, domainId: u32, probeId: u32, selector: string): (r: Result<Handles, LookupError>)
    ensures LookupDomain(sessions, domainId).Err? ==> r == Err(LookupDomain(sessions, domainId).error)
    ensures r == Err(ProbeNotFound) <==>
              LookupDomain(sessions, domainId).Ok? &&
              FindProbe(sessions[0].domains[LookupDomain(sessions, domainId).value].probes, probeId).None?
    ensures r.Ok? ==>
              var h := r.value;
              LookupDomain(sessions, domainId) == Ok(h.domain) &&
              FindProbe(sessions[0].domains[h.domain].probes, probeId) == Some(h.probe) &&
              h.probe < |sessions[0].domains[h.domain].probes| &&
              var p := sessions[0].domains[h.domain].probes[h.probe];
              p.index == probeId &&
              (forall j :: 0 <= j < h.probe ==> sessions[0].domains[h.domain].probes[j].index != probeId) &&
              h.signal < |p.signals| &&
              SignalSelected(p.signals[h.signal], selector) &&
              (forall j :: 0 <= j < h.signal ==> !SignalSelected(p.signals[j], selector))
    ensures r == Err(SignalNotFound) <==>
              LookupDomain(sessions, domainId).Ok? &&
              var d := sessions[0].domains[LookupDomain(sessions, domainId).value];
              FindProbe(d.probes, probeId).Some? &&
              forall j :: 0 <= j < |d.probes[FindProbe(d.probes, probeId).value].signals| ==>
                !SignalSelected(d.probes[FindProbe(d.probes, probeId).value].signals[j], selector)
  {
    match LookupDomain(sessions, domainId)
    case Err(e) => Err(e)
    case Ok(k) =>
      var d := sessions[0].domains[k];
      match FindProbe(d.probes, probeId)
      case None => Err(ProbeNotFound)
      case Some(p) =>
        match FindSignal(d.probes[p].signals, selector)
        case None => Err(SignalNotFound)
        case Some(s) => Ok(Handles(k, p, s))
  }

  /** A signal found through a numeric selector has that index; one found
      through any other selector has exactly that name. */
  lemma SignalByIndexOrName(sessions: seq<Session>, domainId: u32, probeId: u32, selector: string)
    requires LookupSignal(sessions, domainId, probeId, selector).Ok?
    ensures var h := LookupSignal(sessions, domainId, probeId, selector).value;
            var sig := sessions[0].domains[h.domain].probes[h.probe].signals[h.signal];
            (ParseUnsigned(selector).Some? ==> sig.index == ParseUnsigned(selector).value) &&
            (ParseUnsigned(selector).None? ==> sig.name == selector)
  {
  }

  datatype EioHandles = EioHandles(instance: nat, probe: nat)

  /** The EIO instances of the registry, which a lookup reads. */
  function EioObjects(sessions: seq<Session>): set<EioInstance> {
    set s, e | s in sessions && e in s.eios :: e
  }

  function FindEioInstance(eios: seq<EioInstance>, index: u32): Option<nat> {
    FirstMatch(eios, (e: EioInstance) => e.index == index)
  }

  /** An EIO probe is identified by index AND direction. */
  function FindEioProbe(ps: seq<EioProbe>, probeId: u32, dir: Direction): Option<nat> {
    FirstMatch(ps, (p: EioProbe) => p.index == probeId && p.direction == dir)
  }

  /** get_eio_hier_objects: session 1, the first EIO instance with the given
      index, then its first probe with the given index and direction. */
  function LookupEioProbe(sessions: seq<Session>, instanceIndex: u32, probeId: u32, dir: Direction): (r: Result<EioHandles, LookupError>)
    reads EioObjects(sessions)
    ensures r == Err(SessionNotLoaded) <==> |sessions| == 0
    ensures r == Err(EioInstanceNotFound) <==> |sessions| > 0 && FindEioInstance(sessions[0].eios, instanceIndex).None?
    ensures r.Err? ==> r.error in {SessionNotLoaded, EioInstanceNotFound, EioProbeNotFound(dir)}
    ensures r.Ok? ==>
              |sessions| > 0 && r.value.instance < |sessions[0].eios| &&
              var inst := sessions[0].eios[r.value.instance];
              inst.index == instanceIndex &&
              r.value.probe < |inst.probes| &&
              inst.probes[r.value.probe].index == probeId && inst.probes[r.value.probe].direction == dir &&
              forall j :: 0 <= j < r.value.probe ==> !(inst.probes[j].index == probeId && inst.probes[j].direction == dir)
  {
    match GetSession(sessions, 1)
    case None => Err(SessionNotLoaded)
    case Some(s) =>
      assert s == 0 && sessions[0] in sessions;
      match FindEioInstance(sessions[s].eios, instanceIndex)
      case None => Err(EioInstanceNotFound)
      case Some(k) =>
        assert sessions[0].eios[k] in sessions[0].eios;
        assert sessions[0].eios[k] in EioObjects(sessions);
        match FindEioProbe(sessions[s].eios[k].probes, probeId, dir)
        case None => Err(EioProbeNotFound(dir))
        case Some(p) => Ok(EioHandles(k, p))
  }

  /** The selection rule of find_eio_signals: by index for a numeric name,
      by exact name otherwise. */
  predicate EioSignalSelected(s: EioSignal, name: string) {
    match ParseUnsigned(name)
    case Some(n) => s.index == n
    case None => s.name == name
  }

  function ResolveEio(list: seq<EioSignal>, name: string): Option<nat> {
    FirstMatch(list, (s: EioSignal) => EioSignalSelected(s, name))
  }

  /** find_eio_signals: every name resolves, in order, to the first signal
      it selects; one name that resolves to nothing fails the whole list. */
  function FindEioSignals(list: seq<EioSignal>, names: seq<string>): (r: Option<seq<EioSignal>>)
    ensures r.Some? <==> forall i :: 0 <= i < |names| ==> ResolveEio(list, names[i]).Some?
    ensures r.Some? ==> |r.value| == |names|
    ensures r.Some? ==> forall i :: 0 <= i < |names| ==> r.value[i] == list[ResolveEio(list, names[i]).value]
  {
    if |names| == 0 then Some([])
    else
      match FindEioSignals(list, names[..|names| - 1])
      case None => None
      case Some(prev) =>
        match ResolveEio(list, names[|names| - 1])
        case None => None
        case Some(k) => Some(prev + [list[k]])
  }
}
