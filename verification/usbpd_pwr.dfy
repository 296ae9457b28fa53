/** The USB-PD power port of stm32n6570_discovery_usbpd_pwr.c: gate sequencing on a component whose
    register writes may fail, and recovery from VBUS over-current faults. */
module UsbPdPwr {
  import opened Words

  const INSTANCES: nat := 1
  const LOW_VBUS_THRESHOLD: nat := 750        // mV
  const MAX_WAITS: nat := 20
  const FAULT_MIN_TIME_RECOVERY: nat := 1000  // ms

  datatype HwType = Default | Tcpp01 | Tcpp02 | Tcpp03
  datatype Role = Source | Sink
  datatype Mode = Off | Hibernate | LowPower | Normal
  datatype Status = NoError | WrongParam | ComponentFailure | FeatureNotSupported

  datatype Switch = Open | Closed
  datatype Gates = Gates(provider: Switch, consumer: Switch, discharge: bool) {
    /** Power never flows through the port in both directions. */
    predicate Safe() { provider == Open || consumer == Open }
  }

  // ---- over-current faults ----

  /** One call of the event callback, at a true time in ms. */
  datatype Event = Event(time: nat, initialized: bool, mode: Mode, readOk: bool, ocpVbus: bool, vbusOk: bool) {
    predicate IsFault() { initialized && readOk && mode == Normal && ocpVbus }
    /** The 32-bit tick the driver sees. */
    function Tick(): nat { time % U32 }
  }

  predicate Recovers(last: nat, e: Event) {
    e.IsFault() && e.Tick() > last && e.Tick() - last > FAULT_MIN_TIME_RECOVERY
  }

  /** LastFaultTick after a run of events that starts from an initialisation. */
  function LastFaultTick(es: seq<Event>): nat {
    if es == [] then 0
    else if es[|es| - 1].IsFault() then es[|es| - 1].Tick() else LastFaultTick(es[..|es| - 1])
  }

  lemma LastFaultStep(es: seq<Event>, e: Event)
    ensures LastFaultTick(es + [e]) == if e.IsFault() then e.Tick() else LastFaultTick(es)
  {
    assert (es + [e])[..|es + [e]| - 1] == es;
  }

  ghost predicate Ordered(es: seq<Event>) {
    forall i, j :: 0 <= i <= j < |es| ==> es[i].time <= es[j].time
  }

  /** k is the last fault of the run. */
  ghost predicate IsLastFault(es: seq<Event>, k: nat) {
    k < |es| && es[k].IsFault() && forall m :: k < m < |es| ==> !es[m].IsFault()
  }

  lemma {:induction false} LastFaultRecorded(es: seq<Event>, k: nat)
    requires IsLastFault(es, k)
    ensures LastFaultTick(es) == es[k].Tick()
  {
    if k < |es| - 1 {
      assert es[..|es| - 1][k] == es[k];
      LastFaultRecorded(es[..|es| - 1], k);
    }
  }

  lemma {:induction false} SomeLastFault(es: seq<Event>, i: nat) returns (k: nat)
    requires i < |es| && es[i].IsFault()
    ensures i <= k && IsLastFault(es, k)
  {
    var rest := es[..|es| - 1];
    if es[|es| - 1].IsFault() {
      k := |es| - 1;
    } else {
      assert rest[i] == es[i];
      k := SomeLastFault(rest, i);
      assert forall m :: k < m < |rest| ==> rest[m] == es[m];
    }
  }

  /** Every recovery comes more than one second of true time after every earlier VBUS over-current
      fault, and so after every earlier recovery, although the tick wraps every 2^32 ms. */
  lemma RecoveriesAreSpaced(es: seq<Event>, i: nat, j: nat)
    requires Ordered(es) && i < j < |es| && es[i].IsFault()
    requires Recovers(LastFaultTick(es[..j]), es[j])
    ensures es[j].time > es[i].time + 1000
  {
    assert es[..j][i] == es[i];
    var k := SomeLastFault(es[..j], i);
    LastFaultRecorded(es[..j], k);
  }

  /** At the first fault since an initialisation the driver recovers exactly when the tick is past 1000. */
  lemma {:induction false} FirstFaultExactly(es: seq<Event>, e: Event)
    requires e.IsFault() && forall k :: 0 <= k < |es| ==> !es[k].IsFault()
    ensures Recovers(LastFaultTick(es), e) <==> e.Tick() > 1000
  {
    NoFaultYet(es);
  }

  /** At a later one, exactly when the time since the last, counted modulo 2^32 ms, is more than a second and
      the tick has not passed its wrap in that time.  For gaps below 2^32 ms: when more than a second has passed
      and the tick has not wrapped since. */
  lemma {:induction false} RecoversExactly(es: seq<Event>, k: nat, e: Event)
    requires IsLastFault(es, k) && e.IsFault() && es[k].time <= e.time
    ensures Recovers(LastFaultTick(es), e) <==> Due(es[k], e)
    ensures e.time - es[k].time < U32 ==>
      (Due(es[k], e) <==> e.time - es[k].time > 1000 && e.time / U32 == es[k].time / U32)
  {
    LastFaultRecorded(es, k);
    TickGap(es[k], e);
  }

  predicate Due(last: Event, e: Event) {
    var gap := (e.time as int - last.time) % U32;
    gap > 1000 && last.Tick() + gap < U32
  }

  lemma {:induction false} NoFaultYet(es: seq<Event>)
    requires forall k :: 0 <= k < |es| ==> !es[k].IsFault()
    ensures LastFaultTick(es) == 0
  {
    if es != [] {
      NoFaultYet(es[..|es| - 1]);
    }
  }

  /** Tick differences in true time. */
  lemma TickGap(last: Event, e: Event)
    requires last.time <= e.time && e.IsFault()
    ensures Recovers(last.Tick(), e) <==> Due(last, e)
    ensures e.time - last.time < U32 ==>
      (Due(last, e) <==> e.time - last.time > 1000 && e.time / U32 == last.time / U32)
  {
  }

  /** A fault half a second before the tick wraps and the next one 1500 ms later: no recovery. */
  lemma SkippedRecovery() returns (last: Event, e: Event)
    ensures last.IsFault() && e.IsFault() && e.time == last.time + 1500
    ensures !Recovers(LastFaultTick([last]), e)
  {
    last, e := Event(U32 - 500, true, Normal, true, true, false), Event(U32 + 1000, true, Normal, true, true, false);
    assert IsLastFault([last], 0);
    LastFaultRecorded([last], 0);
  }

  // ---- recovery and the gates ----

  /** What a recovery's unchecked writes may do: open both gates, and as a source close the provider gate again;
      either write may be lost. */
  predicate Recovery(was: Gates, source: bool, first: Gates, now: Gates) {
    && first in {was, Gates(Open, Open, false)}
    && (now == first || (source && now == first.(provider := Closed)))
  }

  ghost predicate Recovered(was: Gates, source: bool, now: Gates) {
    exists first :: Recovery(was, source, first, now)
  }

  /** From a safe state every outcome of a recovery is safe exactly when the port is no source or its consumer
      gate is open: a source's lost first write leaves a closed consumer gate beside a closed provider gate. */
  lemma RecoverySafeExactly(was: Gates, source: bool)
    requires was.Safe()
    ensures (forall first, now :: Recovery(was, source, first, now) ==> first.Safe() && now.Safe())
            <==> !source || was.consumer == Open
  {
    if source && was.consumer == Closed {
      assert Recovery(was, source, was, was.(provider := Closed));
    }
  }

  // ---- switching VBUS off ----

  /** What the port does over time: gate writes that reach the component, delays, readings of VBUS. */
  datatype Op = Moved(gates: Gates) | Waited(ms: nat) | Measured(mV: nat)

  /** Readings 20 ms apart. */
  function Waits(readings: seq<nat>): seq<Op>
    requires readings != []
  {
    var n := |readings| - 1;
    if n == 0 then [Measured(readings[0])] else Waits(readings[..n]) + [Waited(20), Measured(readings[n])]
  }

  /** VBUS is waited for until a reading is below 550 mV, but for 400 ms at most. */
  predicate Discharged(readings: seq<nat>) {
    && 1 <= |readings| <= 21
    && (forall i :: 0 <= i < |readings| - 1 ==> readings[i] >= 550)
    && (readings[|readings| - 1] < 550 || |readings| == 21)
  }

  /** The provider gate opens and the discharge starts; then the wait. */
  function Discharging(was: Gates, readings: seq<nat>): seq<Op>
    requires readings != []
  {
    [Moved(was.(provider := Open)), Moved(Gates(Open, was.consumer, true))] + Waits(readings)
  }

  /** The discharge ends, and 30 ms later a TCPP03 closes its consumer gate. */
  function Discharge(was: Gates, hwType: HwType, readings: seq<nat>): seq<Op>
    requires readings != []
  {
    Discharging(was, readings) + [Moved(Gates(Open, was.consumer, false)), Waited(30)]
    + if hwType == Tcpp03 then [Moved(Gates(Open, Closed, false))] else []
  }

  function WaitTime(ops: seq<Op>): nat {
    if ops == [] then 0
    else WaitTime(ops[..|ops| - 1]) + if ops[|ops| - 1].Waited? then ops[|ops| - 1].ms else 0
  }

  lemma WaitTimeStep(ops: seq<Op>, op: Op)
    ensures WaitTime(ops + [op]) == WaitTime(ops) + if op.Waited? then op.ms else 0
  {
    assert (ops + [op])[..|ops + [op]| - 1] == ops;
  }

  /** However the readings fall, the discharge goes on until VBUS has been read below 550 mV or 400 ms are over,
      with the provider gate open all the time. */
  lemma {:induction false} DischargeEnds(was: Gates, readings: seq<nat>)
    requires Discharged(readings)
    ensures var ops := Discharging(was, readings);
      && ops[1] == Moved(Gates(Open, was.consumer, true)) && (forall i :: 1 < i < |ops| ==> !ops[i].Moved?)
      && exists mV :: ops[|ops| - 1] == Measured(mV) && (mV < 550 || WaitTime(ops) == 400)
  {
    WaitsTakeTime(was, readings);
    var ops := Discharging(was, readings);
    assert ops[|ops| - 1] == Measured(readings[|readings| - 1]);
  }

  lemma {:induction false} WaitsTakeTime(was: Gates, readings: seq<nat>)
    requires readings != []
    ensures WaitTime(Discharging(was, readings)) == 20 * (|readings| - 1)
    ensures forall i :: 1 < i < |Discharging(was, readings)| ==> !Discharging(was, readings)[i].Moved?
  {
    var start, n := [Moved(was.(provider := Open)), Moved(Gates(Open, was.consumer, true))], |readings| - 1;
    if n == 0 {
      WaitTimeStep([], start[0]);
      WaitTimeStep([start[0]], start[1]);
      assert [start[0]] + [start[1]] == start;
      WaitTimeStep(start, Measured(readings[0]));
    } else {
      var before := Discharging(was, readings[..n]);
      WaitsTakeTime(was, readings[..n]);
      WaitTimeStep(before, Waited(20));
      WaitTimeStep(before + [Waited(20)], Measured(readings[n]));
      assert Discharging(was, readings) == before + [Waited(20)] + [Measured(readings[n])];
    }
  }

  ghost predicate SwitchedOff(was: Gates, hwType: HwType, log: seq<Op>, log': seq<Op>) {
    exists readings: seq<nat> :: Discharged(readings) && log' == log + Discharge(was, hwType, readings)
  }

  /** At most the first two writes have been made, or the wait is over. */
  ghost predicate WaitedFirst(was: Gates, log: seq<Op>, log': seq<Op>) {
    || (log <= log' && |log'| <= |log| + 2)
    || exists readings: seq<nat> :: Discharged(readings) && log + Discharging(was, readings) <= log'
  }

  // ---- the port ----

  class Port {
    const hwType: HwType
    const reliable: bool            // no component access fails
    var initialized: bool
    var detectCallback: bool        // VBUSDetectCallback is registered
    var role: Role
    var mode: Mode
    var lastFaultTick: nat
    var gates: Gates
    ghost var log: seq<Op>          // everything done so far
    ghost var notified: seq<bool>   // the callback's arguments so far: VBUS connected or not
    ghost var delayed: nat          // total ms spent in HAL_Delay
    ghost var events: seq<Event>    // the callback's events since the last initialisation

    /** The gates have never been closed both at once; the consumer gate only moves on a TCPP03. */
    ghost predicate Valid()
      reads this
    {
      && gates.Safe() && (forall i :: 0 <= i < |log| && log[i].Moved? ==> log[i].gates.Safe())
      && (hwType != Tcpp03 ==> gates.consumer == Open)
    }

    /** The fault tick is that of the run of events since the last initialisation. */
    ghost predicate FaultsRecorded()
      reads this
    {
      lastFaultTick == LastFaultTick(events)
    }

    constructor (hwType: HwType, reliable: bool)
      ensures Valid() && FaultsRecorded() && !initialized && events == []
      ensures this.hwType == hwType && this.reliable == reliable
      ensures !detectCallback && notified == []
    {
      this.hwType, this.reliable, detectCallback := hwType, reliable, false;
      notified := [];
      events := [];
      initialized, role, mode, lastFaultTick := false, Sink, Off, 0;
      gates := Gates(Open, Open, false);
      log := [];
      delayed := 0;
    }

    /** Resets the port status, and with it the detection callback, when it is not initialised; probing the
        component may fail. */
    method Init(portNum: nat) returns (ret: Status)
      requires FaultsRecorded()
      modifies this`initialized, this`role, this`mode, this`lastFaultTick, this`events, this`detectCallback
      ensures FaultsRecorded()
      ensures ret == WrongParam <==> portNum >= INSTANCES || (!old(initialized) && hwType !in {Tcpp02, Tcpp03})
      ensures reliable || (portNum < INSTANCES && old(initialized)) ==> ret in {NoError, WrongParam}
      ensures ret == NoError ==> initialized
      ensures portNum < INSTANCES && !old(initialized) && hwType in {Tcpp02, Tcpp03} ==>
        events == [] && role == Sink && mode == Hibernate && !detectCallback
      ensures portNum >= INSTANCES || old(initialized) || hwType !in {Tcpp02, Tcpp03} ==>
        && events == old(events) && role == old(role) && mode == old(mode) && initialized == old(initialized)
        && detectCallback == old(detectCallback)
    {
      ret := NoError;
      if portNum >= INSTANCES {
        return WrongParam;
      }
      if !initialized {
        if hwType == Tcpp02 || hwType == Tcpp03 {
          role, mode, detectCallback, lastFaultTick, events := Sink, Hibernate, false, 0, [];
          var probed: bool := *;
          if !probed && !reliable {
            ret := ComponentFailure;
          }
        } else {
          ret := WrongParam;
        }
        if ret == NoError {
          initialized := true;
        }
      }
    }

    method RegisterVbusDetectCallback(portNum: nat, callback: bool) returns (ret: Status)
      modifies this`detectCallback
      ensures ret == if portNum >= INSTANCES || !callback then WrongParam else NoError
      ensures detectCallback == (old(detectCallback) || ret == NoError)
    {
      if portNum >= INSTANCES || !callback {
        return WrongParam;
      }
      detectCallback := true;
      ret := NoError;
    }

    /** A component write.  A failing one may or may not have reached the register. */
    method Write(target: Gates) returns (ok: bool)
      requires Valid() && target.Safe() && (hwType != Tcpp03 ==> target.consumer == Open)
      modifies this`gates, this`log
      ensures reliable ==> ok
      ensures Valid() && (log == old(log) || log == old(log) + [Moved(target)])
      ensures gates == if log == old(log) then old(gates) else target
      ensures ok ==> log != old(log)
    {
      ok := *;
      ok := ok || reliable;
      var reached: bool := *;
      if ok || reached {
        gates := target;
        log := log + [Moved(target)];
      }
    }

    method Delay(ms: nat)
      modifies this`delayed, this`log
      ensures delayed == old(delayed) + ms && log == old(log) + [Waited(ms)]
    {
      delayed := delayed + ms;
      log := log + [Waited(ms)];
    }

    /** The ADC reading converted to mV: any value. */
    method VbusGetVoltage() returns (vbus: nat)
      modifies this`log
      ensures log == old(log) + [Measured(vbus)]
    {
      vbus := *;
      log := log + [Measured(vbus)];
    }

    method VbusOn(portNum: nat) returns (ret: Status)
      requires Valid()
      modifies this`gates, this`log, this`delayed
      ensures Valid() && old(log) <= log
      ensures ret == NoError ==>
        log == old(log) + (if hwType == Tcpp03 then [Moved(old(gates).(consumer := Open))] else [])
               + [Waited(2), Moved(Gates(Closed, Open, old(gates.discharge)))]
      ensures reliable && portNum < INSTANCES && role == Source && hwType in {Tcpp02, Tcpp03} ==> ret == NoError
      ensures ret == NoError ==>
        && portNum < INSTANCES && role == Source && hwType in {Tcpp02, Tcpp03}
        && gates == Gates(Closed, Open, old(gates.discharge))
      ensures portNum >= INSTANCES ==> ret == WrongParam
      ensures portNum < INSTANCES && role != Source ==> ret == ComponentFailure
      ensures portNum < INSTANCES && role == Source && hwType !in {Tcpp02, Tcpp03} ==> ret == FeatureNotSupported
      ensures ret in {WrongParam, FeatureNotSupported} || role != Source ==> gates == old(gates)
      ensures gates.discharge == old(gates.discharge)
      ensures gates.provider == Closed && old(gates.provider) == Open ==> gates.consumer == Open
    {
      ret := NoError;
      if portNum >= INSTANCES {
        ret := WrongParam;
      } else if role == Source {
        if hwType == Tcpp03 {
          var ok := Write(gates.(consumer := Open));
          if !ok {
            return ComponentFailure;
          }
        }
        if hwType == Tcpp02 || hwType == Tcpp03 {
          Delay(2);
          var ok := Write(gates.(provider := Closed));
          if !ok {
            ret := ComponentFailure;
          }
        } else {
          ret := FeatureNotSupported;
        }
      } else {
        ret := ComponentFailure;
      }
    }

    method VbusOff(portNum: nat) returns (ret: Status)
      requires Valid()
      modifies this`gates, this`log, this`delayed
      ensures Valid() && old(log) <= log
      ensures portNum >= INSTANCES <==> ret == WrongParam
      ensures ret in {NoError, ComponentFailure, WrongParam} && (reliable ==> ret != ComponentFailure)
      ensures ret == NoError ==>
        gates == Gates(Open, if hwType == Tcpp03 then Closed else old(gates.consumer), false)
      ensures ret == NoError ==> SwitchedOff(old(gates), hwType, old(log), log)
      ensures WaitedFirst(old(gates), old(log), log)
      ensures gates.consumer != old(gates.consumer) ==> gates.provider == Open && gates.consumer == Closed
      ensures delayed <= old(delayed) + 430
    {
      ret := NoError;
      if portNum >= INSTANCES {
        return WrongParam;
      }
      var ok := Write(gates.(provider := Open));
      if !ok {
        ret := ComponentFailure;
      } else {
        ok := Write(gates.(discharge := true));
        if !ok {
          ret := ComponentFailure;
        } else {
          ghost var readings := AwaitDischarge();
          assert log == old(log) + Discharging(old(gates), readings);
          hide Waits, Discharged;
          ret := EndDischarge();
          assert ret == NoError ==> log == old(log) + Discharge(old(gates), hwType, readings);
        }
      }
    }

    /** The loop that waits for VBUS to fall. */
    method AwaitDischarge() returns (ghost readings: seq<nat>)
      requires Valid()
      modifies this`log, this`delayed
      ensures Valid() && Discharged(readings) && log == old(log) + Waits(readings)
      ensures delayed == old(delayed) + 20 * (|readings| - 1)
    {
      var counter := 0;
      var vbus := VbusGetVoltage();
      readings := [vbus];
      while vbus >= LOW_VBUS_THRESHOLD - 200 && counter < MAX_WAITS
        invariant Valid() && counter <= MAX_WAITS && delayed == old(delayed) + 20 * counter
        invariant |readings| == counter + 1 && readings[counter] == vbus && log == old(log) + Waits(readings)
        invariant forall i :: 0 <= i < counter ==> readings[i] >= 550
        decreases MAX_WAITS - counter
      {
        counter := counter + 1;
        Delay(20);
        vbus := VbusGetVoltage();
        assert (readings + [vbus])[..counter] == readings;
        readings := readings + [vbus];
      }
    }

    /** Ends the discharge and closes the consumer gate of a TCPP03, whether or not the discharge went off. */
    method EndDischarge() returns (ret: Status)
      requires Valid() && gates.provider == Open
      modifies this`gates, this`log, this`delayed
      ensures Valid() && old(log) <= log && delayed == old(delayed) + 30
      ensures ret in {NoError, ComponentFailure} && (reliable ==> ret == NoError)
      ensures ret == NoError ==>
        && gates == Gates(Open, if hwType == Tcpp03 then Closed else old(gates.consumer), false)
        && log == old(log) + [Moved(Gates(Open, old(gates.consumer), false)), Waited(30)]
                + if hwType == Tcpp03 then [Moved(Gates(Open, Closed, false))] else []
      ensures gates.provider == Open && (gates.consumer == old(gates.consumer) || gates.consumer == Closed)
    {
      ret := NoError;
      var ok := Write(gates.(discharge := false));
      if !ok {
        ret := ComponentFailure;
      }
      Delay(30);
      if hwType == Tcpp03 {
        ok := Write(gates.(consumer := Closed));
        if !ok {
          ret := ComponentFailure;
        }
      }
    }

    method VbusDischargeOn(portNum: nat) returns (ret: Status)
      requires Valid()
      modifies this`gates, this`log
      ensures Valid() && old(log) <= log
      ensures reliable ==> ret != ComponentFailure
      ensures ret == NoError ==>
        log == old(log) + [Moved(old(gates).(provider := Open)), Moved(Gates(Open, old(gates.consumer), true))]
      ensures portNum >= INSTANCES <==> ret == WrongParam
      ensures ret in {NoError, ComponentFailure, WrongParam}
      ensures ret == NoError ==> gates == Gates(Open, old(gates.consumer), true)
      ensures gates.consumer == old(gates.consumer)
      ensures gates.discharge != old(gates.discharge) ==> gates.provider == Open
    {
      ret := NoError;
      if portNum >= INSTANCES {
        return WrongParam;
      }
      var ok := Write(gates.(provider := Open));
      if !ok {
        ret := ComponentFailure;
      } else {
        ok := Write(gates.(discharge := true));
        if !ok {
          ret := ComponentFailure;
        }
      }
    }

    /** What the callback is told of an event, if anything. */
    ghost function Notice(e: Event, recovers: bool): seq<bool>
      reads this
    {
      if !detectCallback || !e.initialized || !e.readOk then []
      else if (e.mode == Hibernate || e.mode == LowPower) && e.vbusOk then [true]
      else if recovers && role != Source then [false] else []
    }

    /** The flag-line callback.  VBUS found while saving power is announced, after leaving hibernation.  A VBUS
        over-current fault in normal mode is recovered, its component writes going unchecked, when it is late
        enough after the last one, and is always recorded. */
    method EventCallback(e: Event) returns (recovered: bool)
      requires e.initialized == initialized && e.mode == mode && FaultsRecorded()
      modifies this`lastFaultTick, this`gates, this`log, this`events, this`mode, this`notified
      ensures events == old(events) + [e] && FaultsRecorded()
      ensures recovered == Recovers(LastFaultTick(old(events)), e)
      ensures notified == old(notified) + old(Notice(e, Recovers(LastFaultTick(events), e)))
      ensures mode == if old(mode) == Hibernate && old(Notice(e, false)) != [] then LowPower else old(mode)
      ensures !recovered ==> gates == old(gates) && log == old(log)
      ensures recovered ==> Recovered(old(gates), role == Source, gates)
      ensures recovered && reliable ==> gates == Gates(if role == Source then Closed else Open, Open, false)
      ensures old(Valid()) && !(recovered && role == Source && old(gates.consumer) == Closed) ==> Valid()
    {
      hide LastFaultTick;
      LastFaultStep(events, e);
      recovered := false;
      events := events + [e];
      if initialized && e.readOk {
        if mode == Hibernate || mode == LowPower {
          if e.vbusOk && detectCallback {
            if mode == Hibernate {
              mode := LowPower;   // BSP_USBPD_PWR_SetPowerMode, whether or not the component follows
            }
            notified := notified + [true];
          }
        } else if mode == Normal {
          var tickfault := e.Tick();
          if e.ocpVbus {
            if tickfault > lastFaultTick && tickfault - lastFaultTick > FAULT_MIN_TIME_RECOVERY {
              recovered := true;
              WriteUnchecked(Gates(Open, Open, false));
              ghost var first := gates;
              if role == Source {
                WriteUnchecked(gates.(provider := Closed));
              } else if detectCallback {
                notified := notified + [false];
              }
              assert Recovery(old(gates), role == Source, first, gates);
            }
            lastFaultTick := tickfault;
          }
        }
      }
    }

    method WriteUnchecked(target: Gates)
      modifies this`gates, this`log
      ensures log == old(log) || log == old(log) + [Moved(target)]
      ensures gates == if log == old(log) then old(gates) else target
      ensures reliable ==> log != old(log)
    {
      var reached: bool := *;
      if reached || reliable {
        gates := target;
        log := log + [Moved(target)];
      }
    }
  }
}
