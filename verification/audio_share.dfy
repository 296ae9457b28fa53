/** The playback and record calls of stm32n6570_discovery_audio.c, built for the CS42L51 codec, over HAL and
    codec calls that may each succeed or fail, proved to make the steps of AudioSpec. */
module AudioShare {
  import opened AudioSpec

  datatype Caller = Playback | Recording

  /** What is done to the codec: its reset pin, the probe, its initialisation and de-initialisation, and the
      streaming calls of its driver.  Playback stops it with a software power-down, record with a hardware one. */
  datatype Drive = PlayCodec | PauseCodec | ResumeCodec | StopSoft | StopHard
  datatype Action = PowerUp | PowerDown | Probe | Init | DeInit | Driving(call: Drive)
  datatype Entry = Entry(who: Caller, action: Action, out: State, sai: State, codec: Codec) {
    /** No probe or driver call while powered down, no driver call before a successful probe; no probe, reset,
        de-initialisation or power-down of the codec under the other client. */
    predicate Safe() {
      && (action in {Init, DeInit} || action.Driving? ==> codec.probed)
      && (action !in {PowerUp, PowerDown} ==> codec.powered)
      && (action != Init && !action.Driving? ==> (if who == Playback then sai else out) == Reset)
    }
  }

  ghost predicate LogSafe(log: seq<Entry>) {
    forall i :: 0 <= i < |log| ==> log[i].Safe()
  }

  /** A DMA transfer and its length in samples. */
  datatype Flow = Idle | Flowing(samples: nat) | Held(samples: nat) {
    function AfterPause(): Flow { if Flowing? then Held(samples) else this }
    function AfterResume(): Flow { if Held? then Flowing(samples) else this }
  }

  datatype Filter = NoFilter | Filter(rate: nat)

  /** The rest of the hardware: the transfers of playback, SAI record and MDF record; the capture block of the
      SAI; the MDF filter and the rate its clock is set for; the bytes sent to start the SAI clocks. */
  datatype Board = Board(play: Flow, record: Flow, mic: Flow, capture: Block, filter: Filter, micClock: nat, sent: nat) {
    function Transfer(who: Caller): Flow { if who == Playback then play else record }
    function WithTransfer(who: Caller, f: Flow): Board {
      if who == Playback then this.(play := f) else this.(record := f)
    }
  }

  function After(move: Move, f: Flow): Flow {
    match move
    case Pause => f.AfterPause()
    case Resume => f.AfterResume()
    case _ => Idle
  }

  const HARDWARE_FAILURES: set<Status> := {ClockFailure, PeriphFailure, ComponentFailure}

  /** A client that runs has its transfer flowing and one that pauses has it held, unless its block was taken
      away by a de-initialisation that then failed in the codec. */
  ghost predicate Follows(s: Audio, b: Board, micSize: nat) {
    && (s.block.On? ==> (s.out.state == Running ==> b.play.Flowing?) && (s.out.state == Paused ==> b.play.Held?))
    && (b.capture.On? ==> (s.sai.state == Running ==> b.record.Flowing?) && (s.sai.state == Paused ==> b.record.Held?))
    && (s.sai.state in {Reset, Stopped} ==> b.record.Idle?)
    && b.mic == if s.mdf.state == Running then Flowing(2 * micSize % 0x1_0000_0000) else Idle
  }

  /** What else holds on hardware that never fails. */
  ghost predicate Working(s: Audio, b: Board) {
    && (s.out.state in {Reset, Stopped} ==> b.play.Idle?)
    && (s.out.Active() ==> s.SetUpFor(s.out.rate))
    && (s.InUse() ==> s.clock == Wanted(s.Rate()) && s.codec.setup == Ready)
    && b.capture == (if s.sai.Active() then On(s.sai.rate, Wanted(s.sai.rate)) else Off)
    && (if s.mdf.Active() then b.filter == Filter(s.mdf.rate) && b.micClock == s.mdf.rate else b.filter == NoFilter)
  }

  class Driver {
    const micBuffer: nat         // DEFAULT_AUDIO_IN_BUFFER_SIZE
    const reliable: bool         // no HAL or codec call fails
    var out: Client
    var sai: Client
    var mdf: Client
    var asked: nat               // AudioFrequency in the playback block's handle
    var micSize: nat             // the bytes of the last MDF recording
    var codec: Codec
    var clock: Setting
    var block: Block
    var board: Board
    ghost var log: seq<Entry>    // everything done to the codec so far

    ghost function Now(): Audio
      reads this
    {
      Audio(out, sai, mdf, codec, clock, asked, block)
    }

    ghost predicate Valid()
      reads this
    {
      && Inv(Now()) && LogSafe(log)
      && Follows(Now(), board, micSize) && (reliable ==> Working(Now(), board))
    }

    ghost function Driven(who: Caller, call: Drive): Entry
      reads this
    {
      Entry(who, Driving(call), out.state, sai.state, codec)
    }

    constructor (micBuffer: nat, reliable: bool)
      ensures Valid() && !Now().InUse() && !mdf.Active() && log == []
      ensures this.micBuffer == micBuffer && this.reliable == reliable
    {
      this.micBuffer, this.reliable := micBuffer, reliable;
      var idle := Client(Reset, 0, 0, 0);
      out, sai, mdf := idle, idle, idle;
      codec, clock, log := Codec(false, false, Bare), TORN, [];
      asked, block, micSize := 0, Off, 0;
      board := Board(Idle, Idle, Idle, Off, NoFilter, 0, 0);
    }

    // ---- the hardware ----

    method HalCall() returns (ok: bool)
      ensures reliable ==> ok
    {
      ok := *;
      ok := ok || reliable;
    }

    /** Setting the SAI clock, PLL and divider, both tried whatever the first returns; a failed attempt may leave
        anything. */
    method Sai1ClockConfig(rate: nat) returns (ok: bool)
      modifies this`clock
      ensures reliable ==> ok
      ensures ok ==> clock == Wanted(rate)
    {
      var pll := HalCall();
      clock := *;
      if pll {
        if rate == 11025 || rate == 22050 || rate == 44100 {
          clock := clock.(n := 192, p1 := 4, p2 := 2);
        } else {
          clock := clock.(n := 172, p1 := 7, p2 := 4);
        }
      }
      ok := HalCall();
      if ok {
        if rate == 11025 || rate == 22050 || rate == 44100 {
          clock := clock.(divider := 17);
        } else {
          clock := clock.(divider := 1);
        }
      }
      ok := ok && pll;
    }

    /** HAL_SAI_Init on the playback block: the handle's rate, divided from the clock in force.  A failed
        attempt leaves the block as it was. */
    method InitBlock() returns (ok: bool)
      modifies this`block
      ensures reliable ==> ok
      ensures block == if ok then On(asked, clock) else old(block)
    {
      ok := HalCall();
      if ok {
        block := On(asked, clock);
      }
    }

    /** HAL_SAI_DeInit on the playback block. */
    method DeInitBlock() returns (ok: bool)
      modifies this`block, this`board
      ensures reliable ==> ok
      ensures block == if ok then Off else old(block)
      ensures board == if ok then old(board).(play := Idle) else old(board)
    {
      ok := HalCall();
      if ok {
        block := Off;
        board := board.(play := Idle);
      }
    }

    /** HAL_SAI_Init on the capture block. */
    method InitCapture(rate: nat) returns (ok: bool)
      modifies this`board
      ensures reliable ==> ok
      ensures board == if ok then old(board).(capture := On(rate, clock)) else old(board)
    {
      ok := HalCall();
      if ok {
        board := board.(capture := On(rate, clock));
      }
    }

    method DeInitCapture() returns (ok: bool)
      modifies this`board
      ensures reliable ==> ok
      ensures board == if ok then old(board).(capture := Off, record := Idle) else old(board)
    {
      ok := HalCall();
      if ok {
        board := board.(capture := Off, record := Idle);
      }
    }

    method SaiStart(who: Caller, samples: nat) returns (ok: bool)
      modifies this`board
      ensures reliable ==> ok
      ensures board == if ok then old(board).WithTransfer(who, Flowing(samples)) else old(board)
    {
      ok := HalCall();
      if ok {
        board := board.WithTransfer(who, Flowing(samples));
      }
    }

    /** HAL_SAI_DMAPause, HAL_SAI_DMAResume and HAL_SAI_DMAStop. */
    method SaiMove(who: Caller, move: Move) returns (ok: bool)
      requires move != Start
      modifies this`board
      ensures reliable ==> ok
      ensures board == if ok then old(board).WithTransfer(who, After(move, old(board).Transfer(who))) else old(board)
    {
      ok := HalCall();
      if ok {
        board := board.WithTransfer(who, After(move, board.Transfer(who)));
      }
    }

    /** HAL_SAI_Transmit of two bytes, which starts the clocks of the SAI. */
    method SaiSendTwo() returns (ok: bool)
      modifies this`board
      ensures reliable ==> ok
      ensures board == if ok then old(board).(sent := old(board).sent + 2) else old(board)
    {
      ok := HalCall();
      if ok {
        board := board.(sent := board.sent + 2);
      }
    }

    method Mdf1ClockConfig(rate: nat) returns (ok: bool)
      modifies this`board
      ensures reliable ==> ok
      ensures board == old(board).(micClock := board.micClock) && (ok ==> board.micClock == rate)
    {
      ok := HalCall();
      var left: nat := *;
      board := board.(micClock := if ok then rate else left);
    }

    /** HAL_MDF_Init refuses a filter that is still initialised. */
    method MdfInit(rate: nat) returns (ok: bool)
      modifies this`board
      ensures reliable && old(board).filter == NoFilter ==> ok
      ensures ok ==> old(board).filter == NoFilter
      ensures board == if ok then old(board).(filter := Filter(rate)) else old(board)
    {
      ok := HalCall();
      ok := ok && board.filter == NoFilter;
      if ok {
        board := board.(filter := Filter(rate));
      }
    }

    method MdfDeInit() returns (ok: bool)
      modifies this`board
      ensures reliable ==> ok
      ensures board == if ok then old(board).(filter := NoFilter, mic := Idle) else old(board)
    {
      ok := HalCall();
      if ok {
        board := board.(filter := NoFilter, mic := Idle);
      }
    }

    /** HAL_MDF_AcqStart_DMA, for two bytes of input for each byte of the 32-bit size. */
    method MdfStart(size: nat) returns (ok: bool)
      modifies this`board
      ensures reliable ==> ok
      ensures board == if ok then old(board).(mic := Flowing(2 * size % 0x1_0000_0000)) else old(board)
    {
      ok := HalCall();
      if ok {
        board := board.(mic := Flowing(2 * size % 0x1_0000_0000));
      }
    }

    method MdfStop() returns (ok: bool)
      modifies this`board
      ensures reliable ==> ok
      ensures board == if ok then old(board).(mic := Idle) else old(board)
    {
      ok := HalCall();
      if ok {
        board := board.(mic := Idle);
      }
    }

    method Cs42l51PowerUp(who: Caller)
      requires LogSafe(log) && !(if who == Playback then sai else out).Active()
      modifies this`codec, this`log
      ensures LogSafe(log) && old(log) <= log
      ensures codec == old(codec).(powered := true)
    {
      log := log + [Entry(who, PowerUp, out.state, sai.state, codec)];
      codec := codec.(powered := true);
    }

    method Cs42l51PowerDown(who: Caller)
      requires LogSafe(log) && !(if who == Playback then sai else out).Active()
      modifies this`codec, this`log
      ensures LogSafe(log) && old(log) <= log
      ensures codec == old(codec).(powered := false)
    {
      log := log + [Entry(who, PowerDown, out.state, sai.state, codec)];
      codec := codec.(powered := false);
    }

    /** Registers the driver when the component answers. */
    method Cs42l51Probe(who: Caller) returns (ok: bool)
      requires LogSafe(log) && codec.powered && !(if who == Playback then sai else out).Active()
      modifies this`codec, this`log
      ensures reliable ==> ok
      ensures LogSafe(log) && old(log) <= log
      ensures codec == if ok then old(codec).(probed := true) else old(codec)
    {
      ok := HalCall();
      log := log + [Entry(who, Probe, out.state, sai.state, codec)];
      if ok {
        codec := codec.(probed := true);
      }
    }

    method CodecInit(who: Caller) returns (ok: bool)
      requires LogSafe(log) && codec.probed && codec.powered
      modifies this`codec, this`log
      ensures reliable ==> ok
      ensures LogSafe(log) && old(log) <= log
      ensures codec == old(codec).(setup := if ok then Ready else Unknown)
    {
      ok := HalCall();
      log := log + [Entry(who, Init, out.state, sai.state, codec)];
      codec := codec.(setup := if ok then Ready else Unknown);
    }

    method CodecDeInit(who: Caller) returns (ok: bool)
      requires LogSafe(log) && codec.probed && codec.powered && !(if who == Playback then sai else out).Active()
      modifies this`codec, this`log
      ensures reliable ==> ok
      ensures LogSafe(log) && old(log) <= log
      ensures codec == old(codec).(setup := if ok then Bare else Unknown)
    {
      ok := HalCall();
      log := log + [Entry(who, DeInit, out.state, sai.state, codec)];
      codec := codec.(setup := if ok then Bare else Unknown);
    }

    /** The driver's play, pause, resume and stop. */
    method CodecDrive(who: Caller, call: Drive) returns (ok: bool)
      requires LogSafe(log) && codec.probed && codec.powered
      modifies this`log
      ensures reliable ==> ok
      ensures LogSafe(log) && old(log) <= log
      ensures log == old(log) + [old(Driven(who, call))]
    {
      ok := HalCall();
      log := log + [Driven(who, call)];
    }

    /** The first client powers the codec up, probes it and sets the SAI clock. */
    method TakeOver(who: Caller, rate: nat) returns (ret: Status)
      requires LogSafe(log) && !(if who == Playback then sai else out).Active()
      modifies this`codec, this`log, this`clock
      ensures reliable ==> ret == NoError
      ensures LogSafe(log) && old(log) <= log && ret in {NoError, ComponentFailure, ClockFailure}
      ensures codec == Codec(true, old(codec).probed || ret != ComponentFailure, old(codec).setup)
      ensures if ret == NoError then clock == Wanted(rate) else ret == ComponentFailure ==> clock == old(clock)
    {
      Cs42l51PowerUp(who);
      var ok := Cs42l51Probe(who);
      if !ok {
        return ComponentFailure;
      }
      ok := Sai1ClockConfig(rate);
      ret := if ok then NoError else ClockFailure;
    }

    // ---- playback ----

    method OutInit(instance: nat, p: Params) returns (ret: Status)
      requires Valid()
      modifies this
      ensures Valid() && old(log) <= log
      ensures reliable ==> ret !in HARDWARE_FAILURES
      ensures board == old(board)
      ensures OutInitStep(old(Now()), instance, p, ret, Now())
    {
      hide LogSafe;
      if instance >= OUT_INSTANCES {
        return WrongParam;
      } else if p.bits == 32 || p.bits == 8 {
        return NotSupported;
      } else if sai.Active() && (sai.rate != p.rate || sai.bits != p.bits) {
        return NotSupported;
      } else if out.Active() {
        return Busy;
      }
      ret := OutInitSai(p);
    }

    method OutInitSai(p: Params) returns (ret: Status)
      requires Valid() && !out.Active() && p.bits != 32 && p.bits != 8 && (sai.Active() ==> sai.Matches(p))
      modifies this
      ensures Valid() && old(log) <= log && board == old(board)
      ensures reliable ==> ret !in HARDWARE_FAILURES
      ensures OutInitStep(old(Now()), 0, p, ret, Now())
    {
      hide LogSafe;
      out := out.(rate := p.rate, bits := p.bits, channels := p.channels);
      if !sai.Active() {
        ret := TakeOver(Playback, p.rate);
        if ret != NoError {
          return;
        }
      }
      asked := p.rate;
      var configured := InitBlock();
      if !configured {
        return PeriphFailure;
      }
      var ready := CodecInit(Playback);
      if !ready {
        return ComponentFailure;
      }
      out := out.(state := Stopped);
      ret := NoError;
    }

    method OutDeInit(instance: nat) returns (ret: Status)
      requires Valid()
      modifies this
      ensures Valid() && old(log) <= log
      ensures reliable ==> ret !in HARDWARE_FAILURES
      ensures board == if old(block) != block then old(board).(play := Idle) else old(board).(play := board.play)
      ensures OutDeInitStep(old(Now()), instance, ret, Now())
    {
      hide LogSafe;
      if instance >= OUT_INSTANCES {
        return WrongParam;
      } else if !out.Active() {
        return NoError;
      }
      var stopped := DeInitBlock();
      if !stopped {
        return PeriphFailure;
      }
      if !sai.Active() {
        var bare := CodecDeInit(Playback);
        if !bare {
          return ComponentFailure;
        }
        Cs42l51PowerDown(Playback);
      }
      out := out.(state := Reset);
      ret := NoError;
    }

    /** The number of DMA samples is a 16-bit half or quarter of the number of bytes. */
    method OutPlay(instance: nat, buffer: bool, bytes: nat) returns (ret: Status)
      requires Valid()
      modifies this
      ensures Valid() && old(log) <= log
      ensures reliable ==> ret !in HARDWARE_FAILURES
      ensures OutMoveStep(old(Now()), instance, Start, buffer, ret, Now())
      ensures log == if ret in {NoError, ComponentFailure} then old(log) + [old(Driven(Playback, PlayCodec))] else old(log)
      ensures board == if ret in {NoError, ComponentFailure}
        then old(board).(play := Flowing((if out.bits == 16 then bytes / 2 else bytes / 4) % 0x1_0000)) else old(board)
    {
      hide LogSafe;
      if instance >= OUT_INSTANCES || !buffer {
        return WrongParam;
      } else if out.state != Stopped {
        return Busy;
      }
      var samples: nat;
      if out.bits == 16 {
        samples := bytes / 2 % 0x1_0000;
      } else {
        samples := bytes / 4 % 0x1_0000;
      }
      var ok := SaiStart(Playback, samples);
      if !ok {
        return PeriphFailure;
      }
      ok := CodecDrive(Playback, PlayCodec);
      if !ok {
        return ComponentFailure;
      }
      out := out.(state := Running);
      ret := NoError;
    }

    method OutPause(instance: nat) returns (ret: Status)
      requires Valid()
      modifies this
      ensures Valid() && old(log) <= log
      ensures reliable ==> ret !in HARDWARE_FAILURES
      ensures OutMoveStep(old(Now()), instance, Pause, true, ret, Now())
      ensures log == if ret in {WrongParam, Busy} then old(log) else old(log) + [old(Driven(Playback, PauseCodec))]
      ensures board == if ret == NoError then old(board).(play := old(board).play.AfterPause()) else old(board)
    {
      hide LogSafe;
      if instance >= OUT_INSTANCES {
        return WrongParam;
      } else if out.state != Running {
        return Busy;
      }
      ret := DriveThenHal(Playback, PauseCodec, Pause);
      if ret == NoError {
        out := out.(state := Paused);
      }
    }

    method OutResume(instance: nat) returns (ret: Status)
      requires Valid()
      modifies this
      ensures Valid() && old(log) <= log
      ensures reliable ==> ret !in HARDWARE_FAILURES
      ensures OutMoveStep(old(Now()), instance, Resume, true, ret, Now())
      ensures log == if ret in {WrongParam, Busy} then old(log) else old(log) + [old(Driven(Playback, ResumeCodec))]
      ensures board == if ret == NoError then old(board).(play := old(board).play.AfterResume()) else old(board)
    {
      hide LogSafe;
      if instance >= OUT_INSTANCES {
        return WrongParam;
      } else if out.state != Paused {
        return Busy;
      }
      ret := DriveThenHal(Playback, ResumeCodec, Resume);
      if ret == NoError {
        out := out.(state := Running);
      }
    }

    method OutStop(instance: nat) returns (ret: Status)
      requires Valid()
      modifies this
      ensures Valid() && old(log) <= log
      ensures reliable ==> ret !in HARDWARE_FAILURES
      ensures OutMoveStep(old(Now()), instance, Stop, true, ret, Now())
      ensures log == if ret in {WrongParam, Busy} || old(out.state) == Stopped then old(log)
                     else old(log) + [old(Driven(Playback, StopSoft))]
      ensures board == if ret == NoError && old(out.state) != Stopped then old(board).(play := Idle) else old(board)
    {
      hide LogSafe;
      if instance >= OUT_INSTANCES {
        return WrongParam;
      } else if out.state == Stopped {
        return NoError;
      } else if out.state != Running && out.state != Paused {
        return Busy;
      }
      ret := DriveThenHal(Playback, StopSoft, Stop);
      if ret == NoError {
        out := out.(state := Stopped);
      }
    }

    /** Pause, resume and stop call the codec first and the DMA after it. */
    method DriveThenHal(who: Caller, call: Drive, move: Move) returns (ret: Status)
      requires LogSafe(log) && codec.probed && codec.powered && move != Start
      modifies this`log, this`board
      ensures LogSafe(log) && old(log) <= log && (reliable ==> ret == NoError)
      ensures ret in {NoError, ComponentFailure, PeriphFailure}
      ensures log == old(log) + [old(Driven(who, call))]
      ensures board == if ret == NoError then old(board).WithTransfer(who, After(move, old(board).Transfer(who)))
                       else old(board)
    {
      var ok := CodecDrive(who, call);
      if !ok {
        return ComponentFailure;
      }
      ok := SaiMove(who, move);
      ret := if ok then NoError else PeriphFailure;
    }

    method OutSetSampleRate(instance: nat, rate: nat) returns (ret: Status)
      requires Valid()
      modifies this
      ensures Valid() && log == old(log) && board == old(board)
      ensures reliable ==> ret !in HARDWARE_FAILURES
      ensures OutSetSampleRateStep(old(Now()), instance, rate, ret, Now())
    {
      if instance >= OUT_INSTANCES {
        return WrongParam;
      } else if out.state != Stopped {
        return Busy;
      } else if sai.Active() && sai.rate != rate {
        return NotSupported;
      } else if out.rate == rate {
        return NoError;
      }
      asked := rate;
      var ok := Sai1ClockConfig(rate);
      if !ok {
        return ClockFailure;
      }
      ok := InitBlock();
      if !ok {
        return PeriphFailure;
      }
      out := out.(rate := rate);
      ret := NoError;
    }

    /** Stores the bits before the SAI is initialised again, and keeps them when that fails. */
    method OutSetBitsPerSample(instance: nat, bits: nat) returns (ret: Status)
      requires Valid()
      modifies this
      ensures Valid() && log == old(log) && board == old(board)
      ensures reliable ==> ret !in HARDWARE_FAILURES
      ensures OutSetBitsPerSampleStep(old(Now()), instance, bits, ret, Now())
    {
      if instance >= OUT_INSTANCES {
        return WrongParam;
      } else if bits == 32 || bits == 8 {
        return NotSupported;
      } else if sai.Active() && sai.bits != bits {
        return NotSupported;
      } else if out.state != Stopped {
        return Busy;
      }
      out := out.(bits := bits);
      var ok := InitBlock();
      ret := if ok then NoError else PeriphFailure;
    }

    method OutSetChannelsNbr(instance: nat, channels: nat) returns (ret: Status)
      requires Valid()
      modifies this
      ensures Valid() && log == old(log) && board == old(board)
      ensures reliable ==> ret !in HARDWARE_FAILURES
      ensures OutSetChannelsNbrStep(old(Now()), instance, channels, ret, Now())
    {
      if instance >= OUT_INSTANCES || (channels != 1 && channels != 2) {
        return WrongParam;
      } else if out.state != Stopped {
        return Busy;
      }
      var ok := InitBlock();
      if !ok {
        return PeriphFailure;
      }
      out := out.(channels := channels);
      ret := NoError;
    }

    // ---- record ----

    method InInit(instance: nat, p: Params) returns (ret: Status)
      requires Valid()
      modifies this
      ensures Valid() && old(log) <= log
      ensures reliable ==> ret !in HARDWARE_FAILURES
      ensures InInitStep(old(Now()), instance, p, ret, Now())
      ensures ret in {WrongParam, Busy, NotSupported} ==> board == old(board)
      ensures ret == NoError ==> board == if instance == 0 then old(board).(capture := On(p.rate, clock))
                                          else old(board).(filter := Filter(p.rate), micClock := p.rate)
    {
      hide LogSafe;
      if instance >= IN_INSTANCES {
        return WrongParam;
      } else if (if instance == 0 then sai else mdf).Active() {
        return Busy;
      } else if p.bits != 16 {
        return NotSupported;
      } else if p.channels != 1 {
        return NotSupported;
      } else if instance == 0 && out.Active() && (out.rate != p.rate || out.bits != p.bits) {
        return NotSupported;
      }
      if instance == 0 {
        ret := InInitSai(p);
      } else {
        mdf := mdf.(rate := p.rate, bits := p.bits, channels := p.channels);
        var ok := Mdf1ClockConfig(p.rate);
        if !ok {
          return ClockFailure;
        }
        ok := MdfInit(p.rate);
        if !ok {
          return PeriphFailure;
        }
        mdf := mdf.(state := Stopped);
        ret := NoError;
      }
    }

    method InInitSai(p: Params) returns (ret: Status)
      requires Valid() && !sai.Active() && p.bits == 16 && p.channels == 1 && (out.Active() ==> out.Matches(p))
      modifies this
      ensures Valid() && old(log) <= log
      ensures reliable ==> ret !in HARDWARE_FAILURES
      ensures InInitSaiStep(old(Now()), p, ret, Now())
      ensures ret == NoError ==> board == old(board).(capture := On(p.rate, clock))
    {
      hide LogSafe;
      sai := sai.(rate := p.rate, bits := p.bits, channels := p.channels);
      if !out.Active() {
        ret := TakeOver(Recording, p.rate);
        if ret != NoError {
          return;
        }
      }
      var configured := InitBlocks(p.rate);
      if !configured {
        return PeriphFailure;
      }
      var ready := CodecInit(Recording);
      if !ready {
        return ComponentFailure;
      }
      sai := sai.(state := Stopped);
      ret := NoError;
    }

    /** The capture block and, when playback does not use the SAI, the playback block for the clocks. */
    method InitBlocks(rate: nat) returns (ok: bool)
      modifies this`board, this`asked, this`out, this`block
      ensures reliable ==> ok
      ensures out == old(out) || (!old(out).Active() && out == old(out).(bits := 16))
      ensures board == old(board) || board == old(board).(capture := On(rate, clock))
      ensures ok ==> board == old(board).(capture := On(rate, clock))
      ensures old(out).Active() ==> asked == old(asked) && block == old(block)
      ensures !old(out).Active() && ok ==> asked == rate && block == On(rate, clock) && out.bits == 16
    {
      ok := InitCapture(rate);
      if ok && !out.Active() {
        asked := rate;
        out := out.(bits := 16);
        ok := InitBlock();
      }
    }

    method InDeInit(instance: nat) returns (ret: Status)
      requires Valid()
      modifies this
      ensures Valid() && old(log) <= log
      ensures reliable ==> ret !in HARDWARE_FAILURES
      ensures InDeInitStep(old(Now()), instance, ret, Now())
      ensures board == if ret in {WrongParam, PeriphFailure} || !old(Now()).Record(instance).Active() then old(board)
                       else if instance == 0 then old(board).(capture := Off, record := Idle)
                       else old(board).(filter := NoFilter, mic := Idle)
    {
      hide LogSafe;
      if instance >= IN_INSTANCES {
        return WrongParam;
      } else if !(if instance == 0 then sai else mdf).Active() {
        return NoError;
      }
      var stopped: bool;
      if instance == 0 {
        stopped := DeInitCapture();
      } else {
        stopped := MdfDeInit();
      }
      if !stopped {
        return PeriphFailure;
      }
      if instance == 0 {
        if !out.Active() {
          var bare := CodecDeInit(Recording);
          if !bare {
            return ComponentFailure;
          }
          Cs42l51PowerDown(Recording);
        }
        sai := sai.(state := Reset);
      } else {
        mdf := mdf.(state := Reset);
      }
      ret := NoError;
    }

    /** Recording over the SAI needs a running playback block: without playback some bytes are sent first.
        The number of bytes is cut to 16 bits before it is halved. */
    method InRecord(instance: nat, buffer: bool, bytes: nat) returns (ret: Status)
      requires Valid()
      modifies this
      ensures Valid() && old(log) <= log
      ensures reliable ==> ret !in HARDWARE_FAILURES
      ensures InMoveStep(old(Now()), instance, Start, buffer && (instance == 1 ==> bytes / 2 <= micBuffer), ret, Now())
      ensures ret in {NoError, ComponentFailure} ==>
        log == if instance == 0 then old(log) + [old(Driven(Recording, PlayCodec))] else old(log)
      ensures ret in {WrongParam, Busy} ==> board == old(board) && log == old(log)
      ensures ret in HARDWARE_FAILURES ==> board == old(board).(sent := board.sent)
      ensures ret in {NoError, ComponentFailure} && instance == 0 ==>
        board.sent == old(board).sent + if out.state in {Running, Paused} then 0 else 2
      ensures ret == NoError && instance == 0 ==>
        board == old(board).(record := Flowing(bytes % 0x1_0000 / 2), sent := board.sent)
      ensures ret == NoError && instance == 1 ==> board == old(board).(mic := Flowing(2 * bytes % 0x1_0000_0000))
    {
      hide LogSafe;
      if instance >= IN_INSTANCES || !buffer {
        return WrongParam;
      } else if instance == 1 && bytes / 2 > micBuffer {
        return WrongParam;
      } else if (if instance == 0 then sai else mdf).state != Stopped {
        return Busy;
      }
      if instance == 0 {
        if out.state != Running && out.state != Paused {
          var sent := SaiSendTwo();
          if !sent {
            return PeriphFailure;
          }
        }
        var ok := CodecDrive(Recording, PlayCodec);
        if !ok {
          return ComponentFailure;
        }
        ok := SaiStart(Recording, bytes % 0x1_0000 / 2);
        ret := if ok then NoError else PeriphFailure;
      } else {
        micSize := bytes;
        var ok := MdfStart(bytes);
        ret := if ok then NoError else PeriphFailure;
      }
      if ret == NoError {
        SetInState(instance, Running);
      }
    }

    method InPause(instance: nat) returns (ret: Status)
      requires Valid()
      modifies this
      ensures Valid() && old(log) <= log
      ensures reliable ==> ret !in HARDWARE_FAILURES
      ensures InMoveStep(old(Now()), instance, Pause, true, ret, Now())
      ensures log == if ret in {WrongParam, Busy} || instance == 1 then old(log)
                     else old(log) + [old(Driven(Recording, PauseCodec))]
      ensures board == if ret != NoError then old(board)
                       else if instance == 0 then old(board).(record := old(board).record.AfterPause())
                       else old(board).(mic := Idle)
    {
      hide LogSafe;
      if instance >= IN_INSTANCES {
        return WrongParam;
      } else if (if instance == 0 then sai else mdf).state != Running {
        return Busy;
      }
      ret := InDrive(instance, PauseCodec, Pause);
      if ret == NoError {
        SetInState(instance, Paused);
      }
    }

    method InResume(instance: nat) returns (ret: Status)
      requires Valid()
      modifies this
      ensures Valid() && old(log) <= log
      ensures reliable ==> ret !in HARDWARE_FAILURES
      ensures InMoveStep(old(Now()), instance, Resume, true, ret, Now())
      ensures log == if ret in {WrongParam, Busy} || instance == 1 then old(log)
                     else old(log) + [old(Driven(Recording, ResumeCodec))]
      ensures board == if ret != NoError then old(board)
                       else if instance == 0 then old(board).(record := old(board).record.AfterResume())
                       else old(board).(mic := Flowing(2 * micSize % 0x1_0000_0000))
    {
      hide LogSafe;
      if instance >= IN_INSTANCES {
        return WrongParam;
      } else if (if instance == 0 then sai else mdf).state != Paused {
        return Busy;
      }
      ret := InDrive(instance, ResumeCodec, Resume);
      if ret == NoError {
        SetInState(instance, Running);
      }
    }

    method InStop(instance: nat) returns (ret: Status)
      requires Valid()
      modifies this
      ensures Valid() && old(log) <= log
      ensures reliable ==> ret !in HARDWARE_FAILURES
      ensures InMoveStep(old(Now()), instance, Stop, true, ret, Now())
      ensures log == if ret in {WrongParam, Busy} || instance == 1 || old(sai.state) == Stopped then old(log)
                     else old(log) + [old(Driven(Recording, StopHard))]
      ensures board == if ret != NoError || old(Now()).Record(instance).state == Stopped then old(board)
                       else if instance == 0 then old(board).(record := Idle) else old(board).(mic := Idle)
    {
      hide LogSafe;
      if instance >= IN_INSTANCES {
        return WrongParam;
      }
      var state := (if instance == 0 then sai else mdf).state;
      if state == Stopped {
        return NoError;
      } else if state != Running && state != Paused {
        return Busy;
      }
      ret := InDrive(instance, StopHard, Stop);
      if ret == NoError {
        SetInState(instance, Stopped);
      }
    }

    method InDrive(instance: nat, call: Drive, move: Move) returns (ret: Status)
      requires LogSafe(log) && (instance == 0 ==> codec.probed && codec.powered) && move != Start
      modifies this`log, this`board
      ensures LogSafe(log) && old(log) <= log && (reliable ==> ret == NoError)
      ensures ret in {NoError, ComponentFailure, PeriphFailure} && (instance != 0 ==> ret != ComponentFailure)
      ensures log == if instance == 0 then old(log) + [old(Driven(Recording, call))] else old(log)
      ensures board == if ret != NoError then old(board)
                       else if instance == 0 then old(board).(record := After(move, old(board).record))
                       else old(board).(mic := if move == Resume then Flowing(2 * micSize % 0x1_0000_0000) else Idle)
    {
      if instance == 0 {
        ret := DriveThenHal(Recording, call, move);
      } else {
        var ok: bool;
        if move == Resume {
          ok := MdfStart(micSize);
        } else {
          ok := MdfStop();
        }
        ret := if ok then NoError else PeriphFailure;
      }
    }

    method SetInState(instance: nat, state: State)
      modifies this`sai, this`mdf
      ensures sai == if instance == 0 then old(sai).(state := state) else old(sai)
      ensures mdf == if instance == 0 then old(mdf) else old(mdf).(state := state)
    {
      if instance == 0 {
        sai := sai.(state := state);
      } else {
        mdf := mdf.(state := state);
      }
    }

    method InSetSampleRate(instance: nat, rate: nat) returns (ret: Status)
      requires Valid()
      modifies this
      ensures Valid() && log == old(log)
      ensures reliable ==> ret !in HARDWARE_FAILURES
      ensures InSetSampleRateStep(old(Now()), instance, rate, ret, Now())
      ensures ret in {WrongParam, Busy, NotSupported} ==> board == old(board)
      ensures ret == NoError && old(Now()).Record(instance).rate != rate ==>
        board == if instance == 0 then old(board).(capture := On(rate, Wanted(rate)))
                 else old(board).(filter := Filter(rate), micClock := rate, mic := Idle)
    {
      hide LogSafe;
      if instance >= IN_INSTANCES {
        return WrongParam;
      }
      var record := if instance == 0 then sai else mdf;
      if record.state != Stopped {
        return Busy;
      } else if instance == 0 && out.Active() && out.rate != rate {
        return NotSupported;
      } else if record.rate == rate {
        return NoError;
      }
      var ok: bool;
      if instance == 0 {
        asked := rate;
        ok := Sai1ClockConfig(rate);
        if !ok {
          return ClockFailure;
        }
        ok := InitCapture(rate);
        if !ok {
          return PeriphFailure;
        }
        ok := InitBlock();
        if !ok {
          return PeriphFailure;
        }
        sai := sai.(rate := rate);
      } else {
        ok := Mdf1ClockConfig(rate);
        if !ok {
          return ClockFailure;
        }
        ok := MdfDeInit();
        if !ok {
          return PeriphFailure;
        }
        ok := MdfInit(rate);
        if !ok {
          return PeriphFailure;
        }
        mdf := mdf.(rate := rate);
      }
      ret := NoError;
    }

    method InSetBitsPerSample(instance: nat, bits: nat) returns (ret: Status)
      ensures InSetFormatStep(Now(), instance, bits == 16, ret, Now())
    {
      if instance >= IN_INSTANCES {
        return WrongParam;
      } else if bits != 16 {
        return NotSupported;
      } else if (if instance == 0 then sai else mdf).state != Stopped {
        return Busy;
      }
      ret := NoError;
    }

    method InSetChannelsNbr(instance: nat, channels: nat) returns (ret: Status)
      ensures InSetFormatStep(Now(), instance, channels == 1, ret, Now())
    {
      if instance >= IN_INSTANCES {
        return WrongParam;
      } else if channels != 1 {
        return NotSupported;
      } else if (if instance == 0 then sai else mdf).state != Stopped {
        return Busy;
      }
      ret := NoError;
    }
  }
}
