/** The EIO side of the controller: Ocla::parse_eio_signal_list, the
    register image set_io writes, and the values get_io reads back. The
    one EIO instance and the one probe of each direction the current
    hardware supports are instance 1 and probe 1. */
module EioIo {
  import opened Bits
  import opened Eio
  import opened Topology
  import opened Hardware
  import opened Lookup
  import opened Verifier

  /** A bit value of `name=value` form (patterns 6 and 7). */
  predicate CarriesValue(p: ParsedSignal) {
    p.pattern == Pattern6 || p.pattern == Pattern7
  }

  /** Two words, low word first, read as one 64-bit value. */
  function JoinU64(ws: seq<bv32>): bv64
    requires |ws| == 2
  {
    ((ws[1] as bv64) << 32) | ws[0] as bv64
  }

  /** `{uint32_t(v), uint32_t(v >> 32)}`: a 64-bit value as two words, low
      word first, which join back into the value. */
  function SplitU64(v: bv64): (r: seq<bv32>)
    ensures |r| == 2 && JoinU64(r) == v
  {
    [(v & 0xFFFF_FFFF) as bv32, (v >> 32) as bv32]
  }

  /** The names and values of an assignment list, in list order. */
  datatype Assignments = Assignments(names: seq<string>, values: seq<seq<bv32>>)

  /** parse_eio_signal_list over what CFG_parse_signal made of each string:
      every entry must carry a value; one that does not fails the list. */
  function ParseEioSignalList(parsed: seq<ParsedSignal>): (r: Option<Assignments>)
    ensures r.Some? <==> forall i :: 0 <= i < |parsed| ==> CarriesValue(parsed[i])
    ensures r.Some? ==>
              |r.value.names| == |parsed| && |r.value.values| == |parsed| &&
              forall i :: 0 <= i < |parsed| ==>
                r.value.names[i] == parsed[i].name && |r.value.values[i]| == 2 &&
                JoinU64(r.value.values[i]) == parsed[i].value
  {
    if |parsed| == 0 then Some(Assignments([], []))
    else
      var last := parsed[|parsed| - 1];
      match ParseEioSignalList(parsed[..|parsed| - 1])
      case None => None
      case Some(a) =>
        if CarriesValue(last) then Some(Assignments(a.names + [last.name], a.values + [SplitU64(last.value)]))
        else None
  }

  /** `resize(min_size)` when the value is shorter than its signal needs. */
  function Widen(v: seq<bv32>, n: nat): (r: seq<bv32>)
    ensures |r| == if |v| < n then n else |v|
  {
    if |v| < n then Resize(v, n) else v
  }

  lemma WidenKeepsBits(v: seq<bv32>, n: nat, j: nat)
    ensures BitAt(Widen(v, n), j) == BitAt(v, j)
  {
    if |v| < n {
      ResizeKeepsBits(v, n, j);
    }
  }

  predicate InWindow(s: EioSignal, j: nat) {
    s.bitpos <= j < s.bitpos + s.bitwidth
  }

  /** The update loop of set_io: value i is copied, from its bit 0, into
      the window of signal i, one signal after the other. Writes past the
      end of the register image are not stored. */
  function ApplyValues(image: seq<bv32>, sigs: seq<EioSignal>, values: seq<seq<bv32>>): (r: seq<bv32>)
    requires |values| == |sigs|
    ensures |r| == |image|
  {
    if |sigs| == 0 then image
    else
      var n := |sigs| - 1;
      CopyBits(Widen(values[n], WordsFor(sigs[n].bitwidth)), 0, ApplyValues(image, sigs[..n], values[..n]),
               sigs[n].bitpos, sigs[n].bitwidth)
  }

  /** A bit outside every signal's window keeps its old value. */
  lemma {:induction false} ApplyValuesOutside(image: seq<bv32>, sigs: seq<EioSignal>, values: seq<seq<bv32>>, j: nat)
    requires |values| == |sigs|
    requires forall i :: 0 <= i < |sigs| ==> !InWindow(sigs[i], j)
    ensures BitAt(ApplyValues(image, sigs, values), j) == BitAt(image, j)
  {
    if |sigs| > 0 {
      var n := |sigs| - 1;
      assert !InWindow(sigs[n], j);
      ApplyValuesOutside(image, sigs[..n], values[..n], j);
      CopyBitsAt(Widen(values[n], WordsFor(sigs[n].bitwidth)), 0, ApplyValues(image, sigs[..n], values[..n]),
                 sigs[n].bitpos, sigs[n].bitwidth, j);
    }
  }

  /** A bit of the image inside the window of signal i, and of no later
      signal, holds the matching bit of value i. */
  lemma {:induction false} ApplyValuesInside(image: seq<bv32>, sigs: seq<EioSignal>, values: seq<seq<bv32>>,
                                             i: nat, j: nat)
    requires |values| == |sigs| && i < |sigs|
    requires InWindow(sigs[i], j) && j < 32 * |image|
    requires forall k :: i < k < |sigs| ==> !InWindow(sigs[k], j)
    ensures BitAt(ApplyValues(image, sigs, values), j) == BitAt(values[i], j - sigs[i].bitpos)
  {
    var n := |sigs| - 1;
    var before := ApplyValues(image, sigs[..n], values[..n]);
    var v := Widen(values[n], WordsFor(sigs[n].bitwidth));
    var after := ApplyValues(image, sigs, values);
    assert after == CopyBits(v, 0, before, sigs[n].bitpos, sigs[n].bitwidth);
    assert |before| == |image|;
    CopyBitsAt(v, 0, before, sigs[n].bitpos, sigs[n].bitwidth, j);
    if i == n {
      assert BitAt(after, j) == BitAt(v, j - sigs[n].bitpos);
      WidenKeepsBits(values[n], WordsFor(sigs[n].bitwidth), j - sigs[n].bitpos);
    } else {
      assert !InWindow(sigs[n], j);
      assert BitAt(after, j) == BitAt(before, j);
      assert sigs[..n][i] == sigs[i] && values[..n][i] == values[i];
      ApplyValuesInside(image, sigs[..n], values[..n], i, j);
    }
  }

  /** What the register-level part of set_io did: the signals it found,
      the values it assigned them, and the image it wrote to the EIO block
      at `addr`, `numWords` words wide. */
  datatype IoWrite = IoWrite(addr: u32, numWords: nat, signals: seq<EioSignal>, values: seq<seq<bv32>>,
                             image: seq<bv32>, devices: Devices)

  /** The output probe set_io drives. */
  function OutputProbe(sessions: seq<Session>): (r: Result<EioHandles, LookupError>)
    reads EioObjects(sessions)
  {
    LookupEioProbe(sessions, 1, 1, IoOutput)
  }

  /** set_io up to and including the write: parse the assignments, find
      output probe 1 of EIO instance 1 and every named signal in it, verify
      the hardware, then overlay the values on a readback of `numWords`
      words of the output register and write the result. `numWords` is the
      width the instance records for its output register. */
  function SetIoPlan(sessions: seq<Session>, dev: Devices, parsed: seq<ParsedSignal>, numWords: u32)
    : (r: Result<IoWrite, OclaError>)
    reads EioObjects(sessions)
    ensures ParseEioSignalList(parsed).None? ==> r == Err(InvalidEioSignal)
    ensures ParseEioSignalList(parsed).Some? && OutputProbe(sessions).Err? ==>
              r == Err(LookupFailed(OutputProbe(sessions).error))
    ensures r == Err(VerificationFailed) ==> |sessions| > 0 && !Verified(sessions[0], dev)
    ensures r.Ok? ==>
              ParseEioSignalList(parsed).Some? && OutputProbe(sessions).Ok? && Verified(sessions[0], dev) &&
              var h := OutputProbe(sessions).value;
              var inst := sessions[0].eios[h.instance];
              var w := r.value;
              w.addr == inst.baseaddr && w.numWords == numWords &&
              FindEioSignals(inst.probes[h.probe].signals, ParseEioSignalList(parsed).value.names) == Some(w.signals) &&
              w.values == ParseEioSignalList(parsed).value.values && |w.values| == |w.signals| &&
              w.image == ApplyValues(Resize(EioAt(dev, w.addr).output, numWords), w.signals, w.values) &&
              w.devices == WithEio(dev, w.addr, WriteOutput(EioAt(dev, w.addr), w.image, numWords))
  {
    match ParseEioSignalList(parsed)
    case None => Err(InvalidEioSignal)
    case Some(a) =>
      match OutputProbe(sessions)
      case Err(e) => Err(LookupFailed(e))
      case Ok(h) =>
        var inst := sessions[0].eios[h.instance];
        assert sessions[0] in sessions && inst in sessions[0].eios;
        match FindEioSignals(inst.probes[h.probe].signals, a.names)
        case None => Err(EioSignalNotFound)
        case Some(sigs) =>
          if !Verified(sessions[0], dev) then Err(VerificationFailed)
          else
            var addr := inst.baseaddr;
            var image := ApplyValues(Resize(EioAt(dev, addr).output, numWords), sigs, a.values);
            Ok(IoWrite(addr, numWords, sigs, a.values, image,
                       WithEio(dev, addr, WriteOutput(EioAt(dev, addr), image, numWords))))
  }

  /** The readback check that ends set_io: the write is confirmed exactly
      when reading the output register back gives the image written. */
  predicate Confirmed(w: IoWrite) {
    Resize(EioAt(w.devices, w.addr).output, w.numWords) == w.image
  }

  /** set_io touches nothing but the output register of its EIO block. */
  lemma SetIoTouchesOnlyOutput(sessions: seq<Session>, dev: Devices, parsed: seq<ParsedSignal>, numWords: u32)
    requires SetIoPlan(sessions, dev, parsed, numWords).Ok?
    ensures var w := SetIoPlan(sessions, dev, parsed, numWords).value;
            w.devices.ocla == dev.ocla &&
            (forall a :: a != w.addr ==> EioAt(w.devices, a) == EioAt(dev, a)) &&
            EioAt(w.devices, w.addr).ipType == EioAt(dev, w.addr).ipType &&
            EioAt(w.devices, w.addr).input == EioAt(dev, w.addr).input
  {
  }

  /** The outcome of set_io, every way round: each refusal happens exactly
      when the checks before it pass and its own fails, and assignments that
      pass every check are written. */
  lemma SetIoOutcome(sessions: seq<Session>, dev: Devices, parsed: seq<ParsedSignal>, numWords: u32)
    ensures var r := SetIoPlan(sessions, dev, parsed, numWords);
            (r == Err(InvalidEioSignal) <==> ParseEioSignalList(parsed).None?) &&
            (r.Err? && r.error in {EioSignalNotFound, VerificationFailed} ==>
               ParseEioSignalList(parsed).Some? && OutputProbe(sessions).Ok?)
    ensures ParseEioSignalList(parsed).Some? && OutputProbe(sessions).Ok? ==>
              var r := SetIoPlan(sessions, dev, parsed, numWords);
              var h := OutputProbe(sessions).value;
              var found := FindEioSignals(sessions[0].eios[h.instance].probes[h.probe].signals,
                                          ParseEioSignalList(parsed).value.names);
              (r == Err(EioSignalNotFound) <==> found.None?) &&
              (r == Err(VerificationFailed) <==> found.Some? && !Verified(sessions[0], dev)) &&
              (r.Ok? <==> found.Some? && Verified(sessions[0], dev))
  {
  }

  /** A block that latches its writes always confirms them. */
  lemma LatchingWriteConfirmed(sessions: seq<Session>, dev: Devices, parsed: seq<ParsedSignal>, numWords: u32)
    requires SetIoPlan(sessions, dev, parsed, numWords).Ok?
    requires var w := SetIoPlan(sessions, dev, parsed, numWords).value;
             w.addr in dev.eio && EioAt(dev, w.addr).latching
    ensures var w := SetIoPlan(sessions, dev, parsed, numWords).value;
            Confirmed(w) && EioAt(w.devices, w.addr).output == w.image
  {
    var w := SetIoPlan(sessions, dev, parsed, numWords).value;
    assert EioAt(w.devices, w.addr).output == Resize(w.image, numWords);
    assert Resize(w.image, numWords) == w.image;
  }

  /** A dropped write is confirmed only when the register already held the
      image, that is when the assignment changed nothing. */
  lemma DroppedWriteConfirmedIffUnchanged(sessions: seq<Session>, dev: Devices, parsed: seq<ParsedSignal>,
                                          numWords: u32)
    requires SetIoPlan(sessions, dev, parsed, numWords).Ok?
    requires !EioAt(dev, SetIoPlan(sessions, dev, parsed, numWords).value.addr).latching
    ensures var w := SetIoPlan(sessions, dev, parsed, numWords).value;
            Confirmed(w) <==> w.image == Resize(EioAt(dev, w.addr).output, numWords)
  {
  }

  /** After a latched set_io every register bit outside the assigned
      signals' windows reads as before. */
  lemma SetIoKeepsOtherBits(sessions: seq<Session>, dev: Devices, parsed: seq<ParsedSignal>, numWords: u32, j: nat)
    requires SetIoPlan(sessions, dev, parsed, numWords).Ok?
    requires var w := SetIoPlan(sessions, dev, parsed, numWords).value;
             w.addr in dev.eio && EioAt(dev, w.addr).latching && j < 32 * numWords &&
             forall i :: 0 <= i < |w.signals| ==> !InWindow(w.signals[i], j)
    ensures var w := SetIoPlan(sessions, dev, parsed, numWords).value;
            BitAt(EioAt(w.devices, w.addr).output, j) == BitAt(EioAt(dev, w.addr).output, j)
  {
    var w := SetIoPlan(sessions, dev, parsed, numWords).value;
    LatchingWriteConfirmed(sessions, dev, parsed, numWords);
    ApplyValuesOutside(Resize(EioAt(dev, w.addr).output, numWords), w.signals, w.values, j);
    ResizeBitAt(EioAt(dev, w.addr).output, numWords, j);
  }

  /** After a latched set_io a register bit inside the window of signal i,
      and of no later signal in the list, reads as the matching bit of the
      value assigned to signal i. */
  lemma SetIoSetsWindow(sessions: seq<Session>, dev: Devices, parsed: seq<ParsedSignal>, numWords: u32, i: nat,
                        j: nat)
    requires SetIoPlan(sessions, dev, parsed, numWords).Ok?
    requires var w := SetIoPlan(sessions, dev, parsed, numWords).value;
             w.addr in dev.eio && EioAt(dev, w.addr).latching && j < 32 * numWords &&
             i < |w.signals| && InWindow(w.signals[i], j) &&
             forall k :: i < k < |w.signals| ==> !InWindow(w.signals[k], j)
    ensures var w := SetIoPlan(sessions, dev, parsed, numWords).value;
            BitAt(EioAt(w.devices, w.addr).output, j) == BitAt(w.values[i], j - w.signals[i].bitpos)
  {
    var w := SetIoPlan(sessions, dev, parsed, numWords).value;
    LatchingWriteConfirmed(sessions, dev, parsed, numWords);
    WrittenWindow(w, Resize(EioAt(dev, w.addr).output, numWords), i, j);
  }

  /** A register written with an image built by ApplyValues holds, inside
      the window of signal i and of no later signal, value i's bits. */
  lemma WrittenWindow(w: IoWrite, readback: seq<bv32>, i: nat, j: nat)
    requires |w.values| == |w.signals| && |readback| == w.numWords
    requires w.image == ApplyValues(readback, w.signals, w.values)
    requires EioAt(w.devices, w.addr).output == w.image
    requires j < 32 * w.numWords && i < |w.signals| && InWindow(w.signals[i], j)
    requires forall k :: i < k < |w.signals| ==> !InWindow(w.signals[k], j)
    ensures BitAt(EioAt(w.devices, w.addr).output, j) == BitAt(w.values[i], j - w.signals[i].bitpos)
  {
    ApplyValuesInside(readback, w.signals, w.values, i, j);
  }

  /** get_io accepts a signal name written with a leading '#'. */
  function StripMarker(s: string): (r: string)
    ensures |s| > 0 && s[0] == '#' ==> r == s[1..]
    ensures !(|s| > 0 && s[0] == '#') ==> r == s
  {
    if |s| > 0 && s[0] == '#' then s[1..] else s
  }

  /** `bitpos + bitwidth - 1` in uint32_t: the top register bit of a
      signal. */
  function TopBit(s: EioSignal): u32 {
    U32(s.bitpos + s.bitwidth - 1)
  }

  /** The highest register bit any of the signals occupies, starting
      from 0. */
  function MsbPos(sigs: seq<EioSignal>): (m: u32)
    ensures forall i :: 0 <= i < |sigs| ==> TopBit(sigs[i]) <= m
  {
    if |sigs| == 0 then 0
    else
      var rest := MsbPos(sigs[..|sigs| - 1]);
      assert forall i :: 0 <= i < |sigs| - 1 ==> sigs[..|sigs| - 1][i] == sigs[i];
      if TopBit(sigs[|sigs| - 1]) > rest then TopBit(sigs[|sigs| - 1]) else rest
  }

  /** The position found is the top bit of one of the signals, or 0. */
  lemma {:induction false} MsbPosAttained(sigs: seq<EioSignal>)
    ensures MsbPos(sigs) == 0 || exists i :: 0 <= i < |sigs| && MsbPos(sigs) == TopBit(sigs[i])
  {
    if |sigs| > 0 {
      var init := sigs[..|sigs| - 1];
      MsbPosAttained(init);
      if MsbPos(init) != 0 && TopBit(sigs[|sigs| - 1]) <= MsbPos(init) {
        var i :| 0 <= i < |init| && MsbPos(init) == TopBit(init[i]);
        assert init[i] == sigs[i];
      }
    }
  }

  /** eio_value_t. */
  datatype EioValue = EioValue(name: string, index: u32, value: seq<bv32>)

  /** One signal's value cut out of the words read from the input register. */
  function ReadValue(s: EioSignal, input: seq<bv32>): (v: EioValue)
    ensures v.name == s.name && v.index == s.index && |v.value| == WordsFor(s.bitwidth)
  {
    EioValue(s.name, s.index, CopyBits(input, s.bitpos, Zeros(WordsFor(s.bitwidth)), 0, s.bitwidth))
  }

  function InputProbe(sessions: seq<Session>): (r: Result<EioHandles, LookupError>)
    reads EioObjects(sessions)
  {
    LookupEioProbe(sessions, 1, 1, IoInput)
  }

  /** What get_io read: the signals found, the `words` words read from the
      input register of the EIO block at `addr`, and the values cut out of
      them. */
  datatype IoRead = IoRead(addr: u32, signals: seq<EioSignal>, words: nat, input: seq<bv32>, values: seq<EioValue>)

  function ReadValues(sigs: seq<EioSignal>, input: seq<bv32>): (vs: seq<EioValue>)
    ensures |vs| == |sigs| && forall i :: 0 <= i < |sigs| ==> vs[i] == ReadValue(sigs[i], input)
  {
    seq(|sigs|, i requires 0 <= i < |sigs| => ReadValue(sigs[i], input))
  }

  function StripMarkers(names: seq<string>): (r: seq<string>)
    ensures |r| == |names| && forall i :: 0 <= i < |names| ==> r[i] == StripMarker(names[i])
  {
    seq(|names|, i requires 0 <= i < |names| => StripMarker(names[i]))
  }

  /** get_io: strip the markers, find input probe 1 of EIO instance 1 and
      every named signal in it, verify the hardware, read the input
      register up to the word holding the highest signal bit, and cut out
      one value per signal, in request order. */
  function GetIoPlan(sessions: seq<Session>, dev: Devices, names: seq<string>): (r: Result<IoRead, OclaError>)
    reads EioObjects(sessions)
    ensures InputProbe(sessions).Err? ==> r == Err(LookupFailed(InputProbe(sessions).error))
    ensures r == Err(VerificationFailed) ==> |sessions| > 0 && !Verified(sessions[0], dev)
    ensures r.Ok? ==>
              InputProbe(sessions).Ok? && Verified(sessions[0], dev) &&
              var h := InputProbe(sessions).value;
              var inst := sessions[0].eios[h.instance];
              r.value.addr == inst.baseaddr &&
              FindEioSignals(inst.probes[h.probe].signals, StripMarkers(names)) == Some(r.value.signals) &&
              r.value.words == MsbPos(r.value.signals) / 32 + 1 &&
              r.value.input == Resize(EioAt(dev, r.value.addr).input, r.value.words) &&
              r.value.values == ReadValues(r.value.signals, r.value.input)
  {
    match InputProbe(sessions)
    case Err(e) => Err(LookupFailed(e))
    case Ok(h) =>
      var inst := sessions[0].eios[h.instance];
      assert sessions[0] in sessions && inst in sessions[0].eios;
      match FindEioSignals(inst.probes[h.probe].signals, StripMarkers(names))
      case None => Err(EioSignalNotFound)
      case Some(sigs) =>
        if !Verified(sessions[0], dev) then Err(VerificationFailed)
        else GetIoRead(inst.baseaddr, sigs, dev)
  }

  /** The read get_io makes once the signals are found and the hardware
      verified. */
  function GetIoRead(addr: u32, sigs: seq<EioSignal>, dev: Devices): (r: Result<IoRead, OclaError>)
    ensures r.Ok? && r.value.addr == addr && r.value.signals == sigs
  {
    var words := MsbPos(sigs) / 32 + 1;
    var input := Resize(EioAt(dev, addr).input, words);
    Ok(IoRead(addr, sigs, words, input, ReadValues(sigs, input)))
  }

  /** The outcome of get_io, every way round: each refusal happens exactly
      when the checks before it pass and its own fails, and a request that
      passes every check is read. */
  lemma GetIoOutcome(sessions: seq<Session>, dev: Devices, names: seq<string>)
    ensures var r := GetIoPlan(sessions, dev, names);
            r.Err? && r.error in {EioSignalNotFound, VerificationFailed} ==> InputProbe(sessions).Ok?
    ensures InputProbe(sessions).Ok? ==>
              var r := GetIoPlan(sessions, dev, names);
              var h := InputProbe(sessions).value;
              var found := FindEioSignals(sessions[0].eios[h.instance].probes[h.probe].signals, StripMarkers(names));
              (r == Err(EioSignalNotFound) <==> found.None?) &&
              (r == Err(VerificationFailed) <==> found.Some? && !Verified(sessions[0], dev)) &&
              (r.Ok? <==> found.Some? && Verified(sessions[0], dev))
  {
  }

  /** The input read is wide enough for every signal whose top bit does not
      wrap: each value holds exactly its signal's bits of the input
      register, from bit 0 up, and zero above them. */
  lemma ReadValueBits(sigs: seq<EioSignal>, input: seq<bv32>, n: nat, i: nat, b: nat)
    requires n == MsbPos(sigs) / 32 + 1
    requires i < |sigs| && b < 32 * WordsFor(sigs[i].bitwidth)
    requires sigs[i].bitpos + sigs[i].bitwidth - 1 < 0x1_0000_0000
    ensures var v := ReadValue(sigs[i], Resize(input, n));
            BitAt(v.value, b) == (b < sigs[i].bitwidth && BitAt(input, sigs[i].bitpos + b))
  {
    var s := sigs[i];
    CopyBitsAt(Resize(input, n), s.bitpos, Zeros(WordsFor(s.bitwidth)), 0, s.bitwidth, b);
    ZerosBit(WordsFor(s.bitwidth), b);
    if b < s.bitwidth {
      assert TopBit(s) == s.bitpos + s.bitwidth - 1;
      assert s.bitpos + b < 32 * n;
      ResizeBitAt(input, n, s.bitpos + b);
    }
  }

  /** A read record as GetIoPlan builds it holds, for each signal, exactly
      that signal's bits of the input register `reg`: one value per
      requested name, named and indexed as the signal found. */
  lemma IoReadBits(rd: IoRead, reg: seq<bv32>, i: nat, b: nat)
    requires rd.words == MsbPos(rd.signals) / 32 + 1 && rd.input == Resize(reg, rd.words)
    requires rd.values == ReadValues(rd.signals, rd.input)
    requires i < |rd.signals| && b < 32 * WordsFor(rd.signals[i].bitwidth)
    requires rd.signals[i].bitpos + rd.signals[i].bitwidth - 1 < 0x1_0000_0000
    ensures |rd.values| == |rd.signals|
    ensures rd.values[i].name == rd.signals[i].name && rd.values[i].index == rd.signals[i].index
    ensures BitAt(rd.values[i].value, b) == (b < rd.signals[i].bitwidth && BitAt(reg, rd.signals[i].bitpos + b))
  {
    ReadValueBits(rd.signals, reg, rd.words, i, b);
  }

  /** What set_io latched is what get_io of the same window reads, when the
      block's input register mirrors its output register: the value read
      for a signal is the low `bitwidth` bits of the value assigned to it. */
  lemma ExtractInsertWindow(image: seq<bv32>, sigs: seq<EioSignal>, values: seq<seq<bv32>>, i: nat, b: nat)
    requires |values| == |sigs| && i < |sigs| && b < sigs[i].bitwidth
    requires sigs[i].bitpos + b < 32 * |image|
    requires forall k :: i < k < |sigs| ==> !InWindow(sigs[k], sigs[i].bitpos + b)
    ensures BitAt(ReadValue(sigs[i], ApplyValues(image, sigs, values)).value, b) == BitAt(values[i], b)
  {
    var s := sigs[i];
    CopyBitsAt(ApplyValues(image, sigs, values), s.bitpos, Zeros(WordsFor(s.bitwidth)), 0, s.bitwidth, b);
    ApplyValuesInside(image, sigs, values, i, s.bitpos + b);
  }
}
