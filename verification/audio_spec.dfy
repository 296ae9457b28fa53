/** Playback and recording in stm32n6570_discovery_audio.c share one SAI clock and one codec: the driver's
    state, what each call may do to it for each status it returns, and what every run of calls keeps. */
module AudioSpec {

  datatype State = Reset | Running | Stopped | Paused
  datatype Status = NoError | WrongParam | Busy | NotSupported | ClockFailure | PeriphFailure | ComponentFailure
  datatype Params = Params(rate: nat, bits: nat, channels: nat)

  /** One context record. */
  datatype Client = Client(state: State, rate: nat, bits: nat, channels: nat) {
    predicate Active() { state != Reset }
    predicate Matches(p: Params) { rate == p.rate && bits == p.bits }
    function Stored(p: Params): Client { Client(state, p.rate, p.bits, p.channels) }
  }

  /** The codec: Unknown once one of its own initialisations or de-initialisations has reported failure. */
  datatype Setup = Bare | Ready | Unknown
  datatype Codec = Codec(powered: bool, probed: bool, setup: Setup)

  /** The SAI clock: 8 MHz times n in the PLL, over its two post-dividers and the divider of the clock tree.
      There is one setting for the multiples of 11.025 kHz and one for all other rates; a failed configuration
      may also leave the PLL and the divider at odds. */
  datatype Setting = Setting(n: nat, p1: nat, p2: nat, divider: nat)

  const KHZ44 := Setting(192, 4, 2, 17)
  const KHZ48 := Setting(172, 7, 4, 1)
  const TORN := KHZ48.(divider := 17)

  function Wanted(rate: nat): Setting {
    if rate == 11025 || rate == 22050 || rate == 44100 then KHZ44 else KHZ48
  }

  const RATES: set<nat> := {8000, 11025, 16000, 22050, 24000, 32000, 44100, 48000, 96000}

  /** The setting's frequency is within a thousandth of d times the master clock, 256 times the rate. */
  predicate Divides(s: Setting, rate: nat, d: nat) {
    var hz, wanted := 8_000_000 * s.n, 256 * rate * d * (s.p1 * s.p2 * s.divider);
    -wanted <= 1000 * (hz - wanted) <= wanted
  }

  function Divisor(rate: nat): nat
    requires rate != 0
  {
    if Wanted(rate) == KHZ44 then 44100 / rate else 192000 / rate
  }

  lemma WantedDivides(rate: nat)
    requires rate in RATES
    ensures Divides(Wanted(rate), rate, Divisor(rate))
  {
  }

  lemma OtherDoesNot(s: Setting, rate: nat, d: nat)
    requires s in {KHZ44, KHZ48} && rate in RATES && s != Wanted(rate)
    ensures !Divides(s, rate, d)
  {
    if s == KHZ44 {
      assert 256 * rate * d * 136 == 34816 * (rate * d);
    } else {
      assert 256 * rate * d * 28 == 7168 * (rate * d);
    }
  }

  /** Of the two settings the one used for a rate of the board is the only one that a whole divider can bring
      within a thousandth of its master clock. */
  lemma WantedExactly(s: Setting, rate: nat)
    requires s in {KHZ44, KHZ48} && rate in RATES
    ensures s == Wanted(rate) <==> exists d :: Divides(s, rate, d)
  {
    if s == Wanted(rate) {
      WantedDivides(rate);
    } else {
      forall d: nat ensures !Divides(s, rate, d) {
        OtherDoesNot(s, rate, d);
      }
    }
  }

  /** The playback block of the SAI, which generates the clocks of both directions: off, or last initialised
      for a rate, its divider computed for the clock setting of that moment. */
  datatype Block = Off | On(rate: nat, under: Setting)

  /** The contexts of playback, SAI record and MDF record; the codec; the SAI clock; the rate in the playback
      block's handle, which any later initialisation of the block applies; the block itself. */
  datatype Audio = Audio(out: Client, sai: Client, mdf: Client, codec: Codec, clock: Setting, asked: nat, block: Block) {
    predicate InUse() { out.Active() || sai.Active() }
    predicate Shared() { out.Active() && sai.Active() }
    /** The rate on record of the clients in use. */
    function Rate(): nat { if out.Active() then out.rate else sai.rate }
    predicate Generates(rate: nat) { block == On(rate, Wanted(rate)) && clock == Wanted(rate) }
    /** Clock, handle and block set up for a rate. */
    predicate SetUpFor(rate: nat) { Generates(rate) && asked == rate }
    predicate SameSai(s: Audio) { clock == s.clock && asked == s.asked && block == s.block }
    function Record(instance: nat): Client { if instance == 0 then sai else mdf }
    function WithRecord(instance: nat, c: Client): Audio { if instance == 0 then this.(sai := c) else this.(mdf := c) }
  }

  const OUT_INSTANCES: nat := 1
  const IN_INSTANCES: nat := 2

  ghost predicate Inv(s: Audio) {
    && (s.Shared() ==> s.out.rate == s.sai.rate && s.out.bits == s.sai.bits)
    && (s.sai.Active() ==> s.sai.bits == 16 && s.sai.channels == 1)
    && (s.mdf.Active() ==> s.mdf.bits == 16 && s.mdf.channels == 1)
    && (s.out.Active() ==> s.out.bits != 8 && s.out.bits != 32)
    && (s.InUse() ==> s.codec.powered && s.codec.probed && s.codec.setup != Bare)
  }

  /** The SAI generates the rate each client that uses it has on record. */
  ghost predicate ClockAgrees(s: Audio) {
    (s.out.Active() ==> s.Generates(s.out.rate)) && (s.sai.Active() ==> s.Generates(s.sai.rate))
  }

  // ---- what each call may do ----

  datatype Move = Start | Pause | Resume | Stop

  datatype Call =
    | OutInit(instance: nat, p: Params)
    | OutDeInit(instance: nat)
    | OutMove(instance: nat, move: Move, buffer: bool)
    | OutSetSampleRate(instance: nat, rate: nat)
    | OutSetBitsPerSample(instance: nat, bits: nat)
    | OutSetChannelsNbr(instance: nat, channels: nat)
    | InInit(instance: nat, p: Params)
    | InDeInit(instance: nat)
    | InMove(instance: nat, move: Move, buffer: bool)
    | InSetSampleRate(instance: nat, rate: nat)
    | InSetBitsPerSample(instance: nat, bits: nat)
    | InSetChannelsNbr(instance: nat, channels: nat)

  /** Start, pause, resume and stop, for either direction: the status allowed and the state they leave. */
  predicate MoveStep(s: State, m: Move, ret: Status, s': State) {
    match m
    case Start => Moved(s, Stopped, Running, ret, s')
    case Pause => Moved(s, Running, Paused, ret, s')
    case Resume => Moved(s, Paused, Running, ret, s')
    case Stop => if s == Stopped then ret == NoError && s' == s
                 else if s == Reset then ret == Busy && s' == s
                 else Moved(s, s, Stopped, ret, s')
  }
  predicate Moved(s: State, from: State, to: State, ret: Status, s': State) {
    if s != from then ret == Busy && s' == s
    else if ret == NoError then s' == to
    else ret in {PeriphFailure, ComponentFailure} && s' == s
  }

  /** The move can be made in this state: it is never refused as busy. */
  ghost predicate Accepts(s: State, m: Move) { forall s' :: !MoveStep(s, m, Busy, s') }

  /** The moves mesh: after a start or resume exactly pause and stop can be made, after a pause exactly resume
      and stop, after a stop exactly start and stop; from reset nothing. */
  lemma MovesMesh(s: State, m: Move, s': State, next: Move)
    requires MoveStep(s, m, NoError, s')
    ensures Accepts(s, m) && !Accepts(Reset, next)
    ensures Accepts(s', next) <==> next == Stop || next == (match m
                                                            case Start => Pause
                                                            case Pause => Resume
                                                            case Resume => Pause
                                                            case Stop => Start)
  {
    if !Accepts(s', next) {
      var x :| MoveStep(s', next, Busy, x);
    } else {
      assert !MoveStep(s', next, Busy, s');
    }
    assert MoveStep(Reset, next, Busy, Reset);
  }

  /** A failed initialisation of a client while the other uses the codec: only the codec's own failure tells. */
  predicate CodecKept(c: Codec, ret: Status, c': Codec) {
    c' == if ret == ComponentFailure then c.(setup := Unknown) else c
  }

  ghost predicate OutInitStep(s: Audio, instance: nat, p: Params, ret: Status, s': Audio) {
    if instance >= OUT_INSTANCES then ret == WrongParam && s' == s
    else if p.bits == 32 || p.bits == 8 || (s.sai.Active() && !s.sai.Matches(p)) then ret == NotSupported && s' == s
    else if s.out.Active() then ret == Busy && s' == s
    else
      && s'.sai == s.sai && s'.mdf == s.mdf && (s.codec.probed ==> s'.codec.probed)
      && (s.sai.Active() ==>
            && s'.clock == s.clock && s'.asked == p.rate
            && s'.block == if ret == PeriphFailure then s.block else On(p.rate, s.clock))
      && if ret == NoError
         then && s'.out == s.out.Stored(p).(state := Stopped) && s'.codec == Codec(s'.codec.powered, true, Ready)
              && (s.sai.Active() ==> s'.codec.powered == s.codec.powered)
              && (!s.sai.Active() ==> s'.codec.powered && s'.SetUpFor(p.rate))
         else && ret in {ClockFailure, PeriphFailure, ComponentFailure} && s'.out == s.out.Stored(p)
              && (s.sai.Active() ==> ret != ClockFailure && CodecKept(s.codec, ret, s'.codec))
  }

  /** The playback block is de-initialised whether or not record still needs its clock. */
  ghost predicate OutDeInitStep(s: Audio, instance: nat, ret: Status, s': Audio) {
    if instance >= OUT_INSTANCES then ret == WrongParam && s' == s
    else if !s.out.Active() then ret == NoError && s' == s
    else if ret == NoError
    then s' == s.(out := s.out.(state := Reset), codec := if s.sai.Active() then s.codec else Codec(false, true, Bare),
                  block := Off)
    else if ret == ComponentFailure then !s.sai.Active() && s' == s.(codec := s.codec.(setup := Unknown), block := Off)
    else ret == PeriphFailure && s' == s
  }

  ghost predicate OutMoveStep(s: Audio, instance: nat, m: Move, buffer: bool, ret: Status, s': Audio) {
    if instance >= OUT_INSTANCES || (m == Start && !buffer) then ret == WrongParam && s' == s
    else s' == s.(out := s.out.(state := s'.out.state)) && MoveStep(s.out.state, m, ret, s'.out.state)
  }

  ghost predicate OutSetSampleRateStep(s: Audio, instance: nat, rate: nat, ret: Status, s': Audio) {
    if instance >= OUT_INSTANCES then ret == WrongParam && s' == s
    else if s.out.state != Stopped then ret == Busy && s' == s
    else if s.sai.Active() && s.sai.rate != rate then ret == NotSupported && s' == s
    else if s.out.rate == rate then ret == NoError && s' == s
    else RateStep(s.(asked := rate), s.(out := s.out.(rate := rate), asked := rate), rate, ret, s')
  }

  /** A rate setter in the hardware, from the state with the new rate in the handle: the clock first, then
      the block, then the record. */
  ghost predicate RateStep(s: Audio, stored: Audio, rate: nat, ret: Status, s': Audio) {
    if ret == NoError then s' == stored.(clock := Wanted(rate), block := On(rate, Wanted(rate)))
    else if ret == PeriphFailure then s' == s.(clock := Wanted(rate))
    else ret == ClockFailure && s' == s.(clock := s'.clock)
  }

  /** The block after an initialisation with what the handle and the clock hold. */
  function Reinitialised(s: Audio): Audio { s.(block := On(s.asked, s.clock)) }

  ghost predicate OutSetBitsPerSampleStep(s: Audio, instance: nat, bits: nat, ret: Status, s': Audio) {
    if instance >= OUT_INSTANCES then ret == WrongParam && s' == s
    else if bits == 32 || bits == 8 || (s.sai.Active() && s.sai.bits != bits) then ret == NotSupported && s' == s
    else if s.out.state != Stopped then ret == Busy && s' == s
    else
      && ret in {NoError, PeriphFailure}
      && s' == (if ret == NoError then Reinitialised(s) else s).(out := s.out.(bits := bits))
  }

  ghost predicate OutSetChannelsNbrStep(s: Audio, instance: nat, channels: nat, ret: Status, s': Audio) {
    if instance >= OUT_INSTANCES || (channels != 1 && channels != 2) then ret == WrongParam && s' == s
    else if s.out.state != Stopped then ret == Busy && s' == s
    else if ret == NoError then s' == Reinitialised(s).(out := s.out.(channels := channels))
    else ret == PeriphFailure && s' == s
  }

  /** A SAI record that takes over the SAI also configures the playback block, for 16 bits. */
  ghost predicate InInitSaiStep(s: Audio, p: Params, ret: Status, s': Audio) {
    && s'.mdf == s.mdf && (s.codec.probed ==> s'.codec.probed)
    && (s.out.Active() ==> s'.SameSai(s))
    && if ret == NoError
       then && s'.sai == s.sai.Stored(p).(state := Stopped) && s'.codec == Codec(s'.codec.powered, true, Ready)
            && s'.out == (if s.out.Active() then s.out else s.out.(bits := 16))
            && (s.out.Active() ==> s'.codec.powered == s.codec.powered)
            && (!s.out.Active() ==> s'.codec.powered && s'.SetUpFor(p.rate))
       else && ret in {ClockFailure, PeriphFailure, ComponentFailure} && s'.sai == s.sai.Stored(p)
            && (s'.out == s.out || (!s.out.Active() && s'.out == s.out.(bits := 16)))
            && (s.out.Active() ==> ret != ClockFailure && CodecKept(s.codec, ret, s'.codec))
  }

  ghost predicate InInitStep(s: Audio, instance: nat, p: Params, ret: Status, s': Audio) {
    if instance >= IN_INSTANCES then ret == WrongParam && s' == s
    else if s.Record(instance).Active() then ret == Busy && s' == s
    else if p.bits != 16 || p.channels != 1 || (instance == 0 && s.out.Active() && !s.out.Matches(p))
    then ret == NotSupported && s' == s
    else if instance == 0 then InInitSaiStep(s, p, ret, s')
    else if ret == NoError then s' == s.(mdf := s.mdf.Stored(p).(state := Stopped))
    else ret in {ClockFailure, PeriphFailure} && s' == s.(mdf := s.mdf.Stored(p))
  }

  ghost predicate InDeInitStep(s: Audio, instance: nat, ret: Status, s': Audio) {
    if instance >= IN_INSTANCES then ret == WrongParam && s' == s
    else if !s.Record(instance).Active() then ret == NoError && s' == s
    else if ret == PeriphFailure then s' == s
    else if instance == 1 then ret == NoError && s' == s.(mdf := s.mdf.(state := Reset))
    else if ret == NoError
    then s' == s.(sai := s.sai.(state := Reset), codec := if s.out.Active() then s.codec else Codec(false, true, Bare))
    else ret == ComponentFailure && !s.out.Active() && s' == s.(codec := s.codec.(setup := Unknown))
  }

  ghost predicate InMoveStep(s: Audio, instance: nat, m: Move, buffer: bool, ret: Status, s': Audio) {
    if instance >= IN_INSTANCES || (m == Start && !buffer) then ret == WrongParam && s' == s
    else
      && s' == s.WithRecord(instance, s.Record(instance).(state := s'.Record(instance).state))
      && MoveStep(s.Record(instance).state, m, ret, s'.Record(instance).state)
      && (instance == 1 ==> ret != ComponentFailure)
  }

  ghost predicate InSetSampleRateStep(s: Audio, instance: nat, rate: nat, ret: Status, s': Audio) {
    if instance >= IN_INSTANCES then ret == WrongParam && s' == s
    else if s.Record(instance).state != Stopped then ret == Busy && s' == s
    else if instance == 0 && s.out.Active() && s.out.rate != rate then ret == NotSupported && s' == s
    else if s.Record(instance).rate == rate then ret == NoError && s' == s
    else if instance == 1
    then ret in {NoError, ClockFailure, PeriphFailure} && s' == if ret == NoError then s.(mdf := s.mdf.(rate := rate)) else s
    else RateStep(s.(asked := rate), s.(sai := s.sai.(rate := rate), asked := rate), rate, ret, s')
  }

  ghost predicate InSetFormatStep(s: Audio, instance: nat, supported: bool, ret: Status, s': Audio) {
    && s' == s
    && ret == if instance >= IN_INSTANCES then WrongParam
              else if !supported then NotSupported
              else if s.Record(instance).state != Stopped then Busy else NoError
  }

  ghost predicate Step(s: Audio, c: Call, ret: Status, s': Audio) {
    match c
    case OutInit(i, p) => OutInitStep(s, i, p, ret, s')
    case OutDeInit(i) => OutDeInitStep(s, i, ret, s')
    case OutMove(i, m, buffer) => OutMoveStep(s, i, m, buffer, ret, s')
    case OutSetSampleRate(i, rate) => OutSetSampleRateStep(s, i, rate, ret, s')
    case OutSetBitsPerSample(i, bits) => OutSetBitsPerSampleStep(s, i, bits, ret, s')
    case OutSetChannelsNbr(i, channels) => OutSetChannelsNbrStep(s, i, channels, ret, s')
    case InInit(i, p) => InInitStep(s, i, p, ret, s')
    case InDeInit(i) => InDeInitStep(s, i, ret, s')
    case InMove(i, m, buffer) => InMoveStep(s, i, m, buffer, ret, s')
    case InSetSampleRate(i, rate) => InSetSampleRateStep(s, i, rate, ret, s')
    case InSetBitsPerSample(i, bits) => InSetFormatStep(s, i, bits == 16, ret, s')
    case InSetChannelsNbr(i, channels) => InSetFormatStep(s, i, channels == 1, ret, s')
  }

  // ---- what every run keeps ----

  lemma StepKeepsInv(s: Audio, c: Call, ret: Status, s': Audio)
    requires Inv(s) && Step(s, c, ret, s')
    ensures Inv(s') && (s.codec.probed ==> s'.codec.probed)
  {
    if c.OutInit? || c.InInit? {
      hide Inv, Step;
      InitKeepsInv(s, c, ret, s');
    } else {
      hide Inv, Step;
      OtherKeepsInv(s, c, ret, s');
    }
  }

  lemma InitKeepsInv(s: Audio, c: Call, ret: Status, s': Audio)
    requires Inv(s) && Step(s, c, ret, s') && (c.OutInit? || c.InInit?)
    ensures Inv(s') && (s.codec.probed ==> s'.codec.probed)
  {
  }

  lemma OtherKeepsInv(s: Audio, c: Call, ret: Status, s': Audio)
    requires Inv(s) && Step(s, c, ret, s') && !c.OutInit? && !c.InInit?
    ensures Inv(s') && (s.codec.probed ==> s'.codec.probed)
  {
  }

  ghost predicate Run(t: seq<Audio>, calls: seq<Call>, rets: seq<Status>) {
    && |calls| == |rets| && |t| == |calls| + 1 && !t[0].InUse() && !t[0].mdf.Active()
    && forall i :: 0 <= i < |calls| ==> Step(t[i], calls[i], rets[i], t[i + 1])
  }

  lemma {:induction false} RunKeepsInv(t: seq<Audio>, calls: seq<Call>, rets: seq<Status>, n: nat)
    requires Run(t, calls, rets) && n <= |calls|
    ensures Inv(t[n])
  {
    if n > 0 {
      RunKeepsInv(t, calls, rets, n - 1);
      StepKeepsInv(t[n - 1], calls[n - 1], rets[n - 1], t[n]);
    }
  }

  /** In every reachable state, for any interleaving of playback and record calls and any failures: when
      both use the SAI they have the same rate and the same bits, and both are 16-bit. */
  lemma SharedFormat(t: seq<Audio>, calls: seq<Call>, rets: seq<Status>, n: nat)
    requires Run(t, calls, rets) && n <= |calls|
    ensures t[n].Shared() ==> t[n].out.rate == t[n].sai.rate && t[n].out.bits == t[n].sai.bits == 16
    ensures t[n].sai.Active() ==> t[n].sai.bits == 16 && t[n].sai.channels == 1
    ensures t[n].InUse() ==> t[n].codec.powered && t[n].codec.probed
  {
    RunKeepsInv(t, calls, rets, n);
  }

  /** While both use the SAI, no call changes the rate, the bits or the clock of either, whatever it returns. */
  lemma FrozenWhileShared(s: Audio, c: Call, ret: Status, s': Audio)
    requires Inv(s) && s.Shared() && Step(s, c, ret, s')
    ensures s'.out.rate == s.out.rate && s'.out.bits == s.out.bits && s'.clock == s.clock
    ensures s'.sai.rate == s.sai.rate && s'.sai.bits == s.sai.bits && s'.sai.channels == s.sai.channels
    ensures s'.codec == s.codec
  {
  }

  // ---- the rate on record and the rate generated ----

  /** A rate setter of a client on the SAI that failed in the hardware. */
  predicate FailedRate(c: Call, ret: Status) {
    && (c.OutSetSampleRate? || (c.InSetSampleRate? && c.instance == 0))
    && ret in {ClockFailure, PeriphFailure}
  }

  predicate RateChanged(s: Audio, s': Audio) {
    (s.out.Active() && s'.out.rate != s.out.rate) || (s.sai.Active() && s'.sai.rate != s.sai.rate)
  }

  /** What a caller can keep from the calls it makes and the statuses it gets: whether the handle, the clock
      and the block stand at the rate on record. */
  datatype Marks = Marks(handle: bool, clock: bool, block: bool)

  function Marked(m: Marks, s: Audio, c: Call, ret: Status, s': Audio): Marks {
    if !s.InUse() || RateChanged(s, s') then Marks(true, true, true)
    else if FailedRate(c, ret) then m.(handle := false, clock := Wanted(c.rate) == Wanted(s.Rate()))
    else if (c.OutSetBitsPerSample? || c.OutSetChannelsNbr?) && ret == NoError then m.(block := m.handle && m.clock)
    else if c.OutInit? && ret in {NoError, ComponentFailure} then Marks(true, m.clock, m.clock)
    else if c.OutInit? && ret == PeriphFailure then m.(handle := true)
    else if c.OutDeInit? && s.out.Active() && ret in {NoError, ComponentFailure} then m.(block := false)
    else m
  }

  function MarksAt(t: seq<Audio>, calls: seq<Call>, rets: seq<Status>, n: nat): Marks
    requires n <= |calls| == |rets| && |t| == |calls| + 1
  {
    if n == 0 then Marks(true, true, true)
    else Marked(MarksAt(t, calls, rets, n - 1), t[n - 1], calls[n - 1], rets[n - 1], t[n])
  }

  /** No rate setter has reported a clock failure, which may leave any clock setting, since the SAI was last
      free or last had its rate changed. */
  ghost predicate ClockKnown(t: seq<Audio>, calls: seq<Call>, rets: seq<Status>, n: nat)
    requires n <= |calls| == |rets| && |t| == |calls| + 1
  {
    || !t[n].InUse()
    || (n > 0 && !(FailedRate(calls[n - 1], rets[n - 1]) && rets[n - 1] == ClockFailure)
        && (RateChanged(t[n - 1], t[n]) || ClockKnown(t, calls, rets, n - 1)))
  }

  ghost predicate MarksTrue(m: Marks, s: Audio) {
    s.InUse() ==>
      && (m.handle <==> s.asked == s.Rate())
      && (m.clock <==> s.clock == Wanted(s.Rate()))
      && (m.block <==> s.block == On(s.Rate(), Wanted(s.Rate())))
  }

  lemma StepKeepsMarks(m: Marks, s: Audio, c: Call, ret: Status, s': Audio)
    requires Inv(s) && Step(s, c, ret, s') && !(FailedRate(c, ret) && ret == ClockFailure)
    requires RateChanged(s, s') || MarksTrue(m, s)
    ensures MarksTrue(Marked(m, s, c, ret, s'), s')
  {
    if c.OutInit? || c.InInit? {
      hide Inv, Step, MarksTrue, RateChanged, Marked, FailedRate;
      InitKeepsMarks(m, s, c, ret, s');
    } else {
      hide Inv, Step, MarksTrue, RateChanged, Marked, FailedRate;
      OtherKeepsMarks(m, s, c, ret, s');
    }
  }

  lemma InitKeepsMarks(m: Marks, s: Audio, c: Call, ret: Status, s': Audio)
    requires Inv(s) && Step(s, c, ret, s') && (c.OutInit? || c.InInit?)
    requires RateChanged(s, s') || MarksTrue(m, s)
    ensures MarksTrue(Marked(m, s, c, ret, s'), s')
  {
    if !s.InUse() && s'.InUse() {
      FirstClient(s, c, ret, s');
      hide Step, Inv;
    }
  }

  /** The first client to use the SAI sets up all of it. */
  lemma FirstClient(s: Audio, c: Call, ret: Status, s': Audio)
    requires Step(s, c, ret, s') && (c.OutInit? || c.InInit?) && !s.InUse() && s'.InUse()
    ensures s'.SetUpFor(s'.Rate())
  {
  }

  lemma OtherKeepsMarks(m: Marks, s: Audio, c: Call, ret: Status, s': Audio)
    requires Inv(s) && Step(s, c, ret, s') && !c.OutInit? && !c.InInit? && !(FailedRate(c, ret) && ret == ClockFailure)
    requires RateChanged(s, s') || MarksTrue(m, s)
    ensures MarksTrue(Marked(m, s, c, ret, s'), s')
  {
  }

  lemma {:induction false} MarksFollow(t: seq<Audio>, calls: seq<Call>, rets: seq<Status>, n: nat)
    requires Run(t, calls, rets) && n <= |calls| && ClockKnown(t, calls, rets, n)
    ensures MarksTrue(MarksAt(t, calls, rets, n), t[n])
  {
    if n > 0 && t[n].InUse() {
      hide Inv, Step, Marked, MarksTrue, RateChanged, FailedRate;
      assert Step(t[n - 1], calls[n - 1], rets[n - 1], t[n]);
      RunKeepsInv(t, calls, rets, n - 1);
      if !RateChanged(t[n - 1], t[n]) {
        MarksFollow(t, calls, rets, n - 1);
      }
      StepKeepsMarks(MarksAt(t, calls, rets, n - 1), t[n - 1], calls[n - 1], rets[n - 1], t[n]);
    }
  }

  /** Over every run: the SAI generates the rates on record if and only if the caller's marks of clock and
      block both stand. */
  lemma ClockFollowsRecord(t: seq<Audio>, calls: seq<Call>, rets: seq<Status>, n: nat)
    requires Run(t, calls, rets) && n <= |calls| && ClockKnown(t, calls, rets, n)
    ensures ClockAgrees(t[n]) <==>
            !t[n].InUse() || (MarksAt(t, calls, rets, n).clock && MarksAt(t, calls, rets, n).block)
  {
    RunKeepsInv(t, calls, rets, n);
    MarksFollow(t, calls, rets, n);
  }

  /** A call that can cost a mark: a rate setter failing in the hardware, or the de-initialisation of the
      playback block under a client that goes on using the SAI. */
  predicate Disturbs(s: Audio, c: Call, ret: Status, s': Audio) {
    FailedRate(c, ret) || (c.OutDeInit? && s.out.Active() && ret in {NoError, ComponentFailure} && s'.InUse())
  }

  /** So over every run without such a call, the SAI always generates the rates on record. */
  lemma {:induction false} UndisturbedAgrees(t: seq<Audio>, calls: seq<Call>, rets: seq<Status>, n: nat)
    requires Run(t, calls, rets) && n <= |calls|
    requires forall i :: 0 <= i < n ==> !Disturbs(t[i], calls[i], rets[i], t[i + 1])
    ensures ClockAgrees(t[n]) && (t[n].InUse() ==> t[n].asked == t[n].Rate())
  {
    if n > 0 {
      UndisturbedAgrees(t, calls, rets, n - 1);
      RunKeepsInv(t, calls, rets, n - 1);
      RunKeepsInv(t, calls, rets, n);
      UndisturbedStep(t[n - 1], calls[n - 1], rets[n - 1], t[n]);
    }
  }

  lemma UndisturbedStep(s: Audio, c: Call, ret: Status, s': Audio)
    requires Inv(s) && Inv(s') && Step(s, c, ret, s') && !Disturbs(s, c, ret, s')
    requires ClockAgrees(s) && (s.InUse() ==> s.asked == s.Rate())
    ensures ClockAgrees(s') && (s'.InUse() ==> s'.asked == s'.Rate())
  {
  }

  /** A rate setter whose block initialisation fails leaves the old rate generated if and only if the new rate
      wants the same clock setting; the handle keeps the new rate in either case. */
  lemma FailedRateExactly(s: Audio, c: Call, s': Audio)
    requires Inv(s) && ClockAgrees(s) && FailedRate(c, PeriphFailure) && Step(s, c, PeriphFailure, s')
    ensures ClockAgrees(s') <==> Wanted(c.rate) == Wanted(s.Rate())
    ensures s'.InUse() && s'.Rate() == s.Rate() && s'.asked == c.rate != s.Rate()
  {
  }

  /** One whose clock configuration fails may leave either. */
  lemma ClockFailureUndetermined(s: Audio, rate: nat) returns (good: Audio, bad: Audio)
    requires Inv(s) && ClockAgrees(s) && s.out.state == Stopped && !s.sai.Active() && s.out.rate != rate
    ensures Step(s, OutSetSampleRate(0, rate), ClockFailure, good) && ClockAgrees(good)
    ensures Step(s, OutSetSampleRate(0, rate), ClockFailure, bad) && !ClockAgrees(bad)
  {
    good, bad := s.(asked := rate), s.(asked := rate, clock := TORN);
  }

  /** Playback that leaves while record goes on takes record's clock with it. */
  lemma LeavingStopsRecord(s: Audio, s': Audio)
    requires Inv(s) && s.Shared() && Step(s, OutDeInit(0), NoError, s')
    ensures s'.sai.Active() && !ClockAgrees(s')
  {
  }

  // A run of four calls: playback at 48 kHz, a failed change to 96 kHz, a change of the bits, record at 48 kHz.
  const IDLE := Client(Reset, 0, 0, 0)
  const RESET_STATE := Audio(IDLE, IDLE, IDLE, Codec(false, false, Bare), TORN, 0, Off)
  const PLAYING_48 := Audio(Client(Stopped, 48000, 24, 2), IDLE, IDLE, Codec(true, true, Ready), KHZ48, 48000, On(48000, KHZ48))
  const FAILED_96 := PLAYING_48.(asked := 96000)
  const BITS_CHANGED := FAILED_96.(out := Client(Stopped, 48000, 16, 2), block := On(96000, KHZ48))
  const JOINED := BITS_CHANGED.(sai := Client(Stopped, 48000, 16, 1))

  lemma StaleRateSteps()
    ensures Step(RESET_STATE, OutInit(0, Params(48000, 24, 2)), NoError, PLAYING_48)
    ensures Step(PLAYING_48, OutSetSampleRate(0, 96000), PeriphFailure, FAILED_96)
    ensures Step(FAILED_96, OutSetBitsPerSample(0, 16), NoError, BITS_CHANGED)
    ensures Step(BITS_CHANGED, InInit(0, Params(48000, 16, 1)), NoError, JOINED)
  {
  }

  /** A failed change from 48 to 96 kHz does no harm at once, but the next successful change of the bits applies
      96 kHz; record then joins at 48 kHz, which both have on record. */
  lemma JoinAtStaleRate() returns (t: seq<Audio>, calls: seq<Call>, rets: seq<Status>)
    ensures Run(t, calls, rets) && |calls| == 4 && rets == [NoError, PeriphFailure, NoError, NoError]
    ensures ClockAgrees(t[2]) && !ClockAgrees(t[3])
    ensures t[4].Shared() && t[4].out.rate == t[4].sai.rate == 48000 && t[4].Generates(96000)
  {
    StaleRateSteps();
    hide Step;
    t, rets := [RESET_STATE, PLAYING_48, FAILED_96, BITS_CHANGED, JOINED], [NoError, PeriphFailure, NoError, NoError];
    calls := [OutInit(0, Params(48000, 24, 2)), OutSetSampleRate(0, 96000), OutSetBitsPerSample(0, 16),
              InInit(0, Params(48000, 16, 1))];
  }

  // ---- the codec over runs ----

  predicate CodecFailure(c: Call, ret: Status) {
    (c.OutInit? || c.OutDeInit? || c.InInit? || c.InDeInit?) && ret == ComponentFailure
  }

  predicate InitSucceeded(c: Call, ret: Status) {
    (c.OutInit? || (c.InInit? && c.instance == 0)) && ret == NoError
  }

  /** Since the SAI was last free or a client was last initialised on it, no initialisation or de-initialisation
      has reported a component failure. */
  ghost predicate CodecSettled(t: seq<Audio>, calls: seq<Call>, rets: seq<Status>, n: nat)
    requires n <= |calls| == |rets| && |t| == |calls| + 1
  {
    || !t[n].InUse()
    || (n > 0 && !CodecFailure(calls[n - 1], rets[n - 1])
        && (InitSucceeded(calls[n - 1], rets[n - 1]) || CodecSettled(t, calls, rets, n - 1)))
  }

  /** Over every run the codec in use is known to be initialised if and only if it is settled. */
  lemma {:induction false} CodecReady(t: seq<Audio>, calls: seq<Call>, rets: seq<Status>, n: nat)
    requires Run(t, calls, rets) && n <= |calls|
    ensures t[n].InUse() ==> (t[n].codec.setup == Ready <==> CodecSettled(t, calls, rets, n))
  {
    if n > 0 && t[n].InUse() {
      hide Inv, Step, CodecFailure, InitSucceeded;
      CodecReady(t, calls, rets, n - 1);
      RunKeepsInv(t, calls, rets, n - 1);
      assert Step(t[n - 1], calls[n - 1], rets[n - 1], t[n]);
      CodecStep(t[n - 1], calls[n - 1], rets[n - 1], t[n]);
    }
  }

  lemma CodecStep(s: Audio, c: Call, ret: Status, s': Audio)
    requires Inv(s) && Step(s, c, ret, s') && s'.InUse()
    ensures CodecFailure(c, ret) ==> s'.codec.setup == Unknown
    ensures InitSucceeded(c, ret) ==> s'.codec.setup == Ready
    ensures !CodecFailure(c, ret) && !InitSucceeded(c, ret) ==> s.InUse() && s'.codec.setup == s.codec.setup
  {
  }

  /** When the last client leaves, the codec is de-initialised and powered down, in either order. */
  lemma LastClientPowersDown(s: Audio, c: Call, s': Audio)
    requires Inv(s) && s.InUse() && Step(s, c, NoError, s') && !s'.InUse()
    ensures !s'.codec.powered && s'.codec.setup == Bare && (c.OutDeInit? || c.InDeInit?)
  {
  }
}
