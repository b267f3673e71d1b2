/** Ocla::get_waveform: the raw sample rows of every instance of a clock
    domain, cut into one waveform per signal of every probe. */
module Waveform {
  import opened Bits
  import opened Topology
  import opened Hardware
  import opened Lookup

  /** oc_signal_t: one signal's samples, `depth` rows of `wordsPerLine`
      words, the signal's lowest bit at bit 0 of each row. */
  datatype SignalWave = SignalWave(name: string, bitwidth: u32, bitpos: u32, wordsPerLine: u32, depth: u32,
                                   values: seq<bv32>)

  /** oc_probe_t. */
  datatype ProbeWave = ProbeWave(probeId: u32, signals: seq<SignalWave>)

  /** oc_waveform_t. */
  datatype Wave = Wave(domainId: u32, probes: seq<ProbeWave>)

  /** The sample memories read from the instances, keyed by instance index;
      a later instance with the same index replaces an earlier one. */
  function SampleMap(dev: Devices, insts: seq<Instance>): (m: map<u32, SampleData>)
    ensures forall idx :: idx in m <==> exists i :: 0 <= i < |insts| && insts[i].index == idx
  {
    if |insts| == 0 then map[]
    else
      var init := insts[..|insts| - 1];
      var m := SampleMap(dev, init);
      assert forall i :: 0 <= i < |init| ==> init[i] == insts[i];
      m[insts[|insts| - 1].index := OclaAt(dev, insts[|insts| - 1].baseaddr).data]
  }

  /** The samples of the last instance with index i: the value each map
      entry ends up holding. */
  lemma {:induction false} SampleMapLastWins(dev: Devices, insts: seq<Instance>, i: nat)
    requires i < |insts| && forall j :: i < j < |insts| ==> insts[j].index != insts[i].index
    ensures insts[i].index in SampleMap(dev, insts)
    ensures SampleMap(dev, insts)[insts[i].index] == OclaAt(dev, insts[i].baseaddr).data
  {
    if i < |insts| - 1 {
      var init := insts[..|insts| - 1];
      assert init[i] == insts[i];
      SampleMapLastWins(dev, init, i);
    }
  }

  /** `sample_data[index]`: a probe whose instance was not read gets the
      empty sample set. */
  function DataFor(m: map<u32, SampleData>, index: u32): (d: SampleData)
    ensures index !in m ==> d == NoSamples
    ensures index in m ==> d == m[index]
  {
    if index in m then m[index] else NoSamples
  }

  /** The first word of row i of a buffer of `wordsPerLine`-word rows,
      i * wordsPerLine, counted up row by row. */
  function RowWord(i: nat, wordsPerLine: nat): nat {
    if i == 0 then 0 else RowWord(i - 1, wordsPerLine) + wordsPerLine
  }

  lemma {:induction false} RowWordIsProduct(i: nat, wordsPerLine: nat)
    ensures RowWord(i, wordsPerLine) == i * wordsPerLine
  {
    if i > 0 {
      RowWordIsProduct(i - 1, wordsPerLine);
    }
  }

  /** Row i of a signal's waveform: the signal's `bitwidth` bits of sample
      row i, moved down to bit 0 of a fresh zero row of WordsFor(bitwidth)
      words. */
  function SignalRow(sig: Signal, data: SampleData, i: nat): (r: seq<bv32>)
    ensures |r| == WordsFor(sig.bitwidth)
  {
    CopyBits(data.values, 32 * RowWord(i, data.wordsPerLine) + sig.bitpos, Zeros(WordsFor(sig.bitwidth)), 0,
             sig.bitwidth)
  }

  /** The first n rows of a signal's waveform, one after the other. */
  function SignalRows(sig: Signal, data: SampleData, n: nat): (r: seq<bv32>)
    ensures |r| == RowWord(n, WordsFor(sig.bitwidth))
  {
    if n == 0 then [] else SignalRows(sig, data, n - 1) + SignalRow(sig, data, n - 1)
  }

  /** One signal's waveform cut out of its instance's samples. */
  function SignalWaveOf(sig: Signal, data: SampleData): (w: SignalWave)
    ensures w.name == sig.name && w.bitwidth == sig.bitwidth && w.bitpos == sig.bitpos
    ensures w.wordsPerLine == WordsFor(sig.bitwidth) && w.depth == data.depth
    ensures |w.values| == RowWord(w.depth, w.wordsPerLine)
  {
    SignalWave(sig.name, sig.bitwidth, sig.bitpos, WordsFor(sig.bitwidth), data.depth, SignalRows(sig, data, data.depth))
  }

  lemma {:induction false} RowWordMono(i: nat, n: nat, w: nat)
    requires i < n
    ensures RowWord(i, w) + w <= RowWord(n, w)
  {
    if i < n - 1 {
      RowWordMono(i, n - 1, w);
    }
  }

  /** Bit b of a row holds the signal's bit b of that sample row below the
      signal's width and zero above it. */
  lemma SignalRowBit(sig: Signal, data: SampleData, i: nat, b: nat)
    requires b < 32 * WordsFor(sig.bitwidth)
    ensures BitAt(SignalRow(sig, data, i), b) ==
            (b < sig.bitwidth && BitAt(data.values, 32 * RowWord(i, data.wordsPerLine) + sig.bitpos + b))
  {
    var start := 32 * RowWord(i, data.wordsPerLine) + sig.bitpos;
    CopyBitsAt(data.values, start, Zeros(WordsFor(sig.bitwidth)), 0, sig.bitwidth, b);
    ZerosBit(WordsFor(sig.bitwidth), b);
  }

  /** Row i of the first n rows starts at word i * WordsFor(bitwidth). */
  lemma {:induction false} SignalRowsBit(sig: Signal, data: SampleData, n: nat, i: nat, b: nat)
    requires i < n && b < 32 * WordsFor(sig.bitwidth)
    ensures BitAt(SignalRows(sig, data, n), 32 * RowWord(i, WordsFor(sig.bitwidth)) + b) == BitAt(SignalRow(sig, data, i), b)
  {
    var w := WordsFor(sig.bitwidth);
    var front := SignalRows(sig, data, n - 1);
    BitAtConcat(front, SignalRow(sig, data, n - 1), 32 * RowWord(i, w) + b);
    if i < n - 1 {
      RowWordMono(i, n - 1, w);
      SignalRowsBit(sig, data, n - 1, i, b);
    }
  }

  /** Each row of a signal's waveform holds exactly that signal's bits of
      the same sample row, from bit 0 up, and zero above them. */
  lemma SignalWaveRows(sig: Signal, data: SampleData, i: nat, b: nat)
    requires i < data.depth && b < 32 * WordsFor(sig.bitwidth)
    ensures var w := SignalWaveOf(sig, data);
            BitAt(w.values, 32 * RowWord(i, w.wordsPerLine) + b) ==
            (b < sig.bitwidth && BitAt(data.values, 32 * RowWord(i, data.wordsPerLine) + sig.bitpos + b))
  {
    SignalRowsBit(sig, data, data.depth, i, b);
    SignalRowBit(sig, data, i, b);
  }

  function ProbeWaveOf(p: Probe, m: map<u32, SampleData>): (w: ProbeWave)
    ensures w.probeId == p.index && |w.signals| == |p.signals|
    ensures forall k :: 0 <= k < |p.signals| ==> w.signals[k] == SignalWaveOf(p.signals[k], DataFor(m, p.instanceIndex))
  {
    ProbeWave(p.index, seq(|p.signals|, k requires 0 <= k < |p.signals| => SignalWaveOf(p.signals[k], DataFor(m, p.instanceIndex))))
  }

  /** get_waveform: one waveform per probe of the domain, in order, each
      signal taken from the samples of the probe's instance. The hardware is
      not verified first. */
  function WaveformPlan(sessions: seq<Session>, dev: Devices, domainId: u32): (r: Result<Wave, OclaError>)
    ensures LookupDomain(sessions, domainId).Err? ==> r == Err(LookupFailed(LookupDomain(sessions, domainId).error))
    ensures r.Ok? ==>
              LookupDomain(sessions, domainId).Ok? &&
              var d := sessions[0].domains[LookupDomain(sessions, domainId).value];
              r.value.domainId == d.index && |r.value.probes| == |d.probes| &&
              forall k :: 0 <= k < |d.probes| ==> r.value.probes[k] == ProbeWaveOf(d.probes[k], SampleMap(dev, d.instances))
    ensures r.Ok? <==> LookupDomain(sessions, domainId).Ok?
  {
    match LookupDomain(sessions, domainId)
    case Err(e) => Err(LookupFailed(e))
    case Ok(k) =>
      var d := sessions[0].domains[k];
      var m := SampleMap(dev, d.instances);
      Ok(Wave(d.index, seq(|d.probes|, j requires 0 <= j < |d.probes| => ProbeWaveOf(d.probes[j], m))))
  }

  /** Signal s of probe k of the waveform is cut from the samples read for
      that probe's instance. */
  lemma WaveformSignal(sessions: seq<Session>, dev: Devices, domainId: u32, k: nat, s: nat)
    requires WaveformPlan(sessions, dev, domainId).Ok?
    requires var d := sessions[0].domains[LookupDomain(sessions, domainId).value];
             k < |d.probes| && s < |d.probes[k].signals|
    ensures var d := sessions[0].domains[LookupDomain(sessions, domainId).value];
            var p := WaveformPlan(sessions, dev, domainId).value.probes[k];
            p.probeId == d.probes[k].index &&
            p.signals[s] == SignalWaveOf(d.probes[k].signals[s], DataFor(SampleMap(dev, d.instances), d.probes[k].instanceIndex))
  {
  }

  /** With distinct instance indices, every bit of every signal row of the
      waveform is the matching bit of that signal's instance's sample row. */
  lemma WaveformMatchesSamples(sessions: seq<Session>, dev: Devices, domainId: u32, k: nat, s: nat, inst: nat,
                               i: nat, b: nat)
    requires WaveformPlan(sessions, dev, domainId).Ok?
    requires var d := sessions[0].domains[LookupDomain(sessions, domainId).value];
             k < |d.probes| && s < |d.probes[k].signals| && inst < |d.instances| &&
             d.instances[inst].index == d.probes[k].instanceIndex &&
             (forall j :: inst < j < |d.instances| ==> d.instances[j].index != d.instances[inst].index) &&
             i < OclaAt(dev, d.instances[inst].baseaddr).data.depth && b < d.probes[k].signals[s].bitwidth
    ensures var d := sessions[0].domains[LookupDomain(sessions, domainId).value];
            var w := WaveformPlan(sessions, dev, domainId).value.probes[k].signals[s];
            var data := OclaAt(dev, d.instances[inst].baseaddr).data;
            var sig := d.probes[k].signals[s];
            w.depth == data.depth &&
            BitAt(w.values, 32 * RowWord(i, w.wordsPerLine) + b) == BitAt(data.values, 32 * RowWord(i, data.wordsPerLine) + sig.bitpos + b)
  {
    var d := sessions[0].domains[LookupDomain(sessions, domainId).value];
    var m := SampleMap(dev, d.instances);
    var data := OclaAt(dev, d.instances[inst].baseaddr).data;
    SampleMapLastWins(dev, d.instances, inst);
    WaveformSignal(sessions, dev, domainId, k, s);
    SignalWaveRows(d.probes[k].signals[s], data, i, b);
  }
}
