/** The octal NOR flash driver of stm32n6570_discovery_xspi.c on a small model of the chip: page
    programming, block erase and the SPI / STR-OPI / DTR-OPI protocol switch. */
module XspiNor {
  import opened Arithmetic
  import opened Words

  datatype Status = NoError | WrongParam | ComponentFailure | PeriphFailure | MmpLockFailure | MmpUnlockFailure
  datatype Access = None | Indirect | Mmp
  datatype Interface = Spi | Opi
  datatype Rate = Str | Dtr

  /** The protocol the chip listens to. */
  datatype Protocol = SpiStr | OpiStr | OpiDtr

  const INSTANCES: nat := 1

  function Wire(mode: Interface, rate: Rate): Protocol {
    if mode == Spi then SpiStr else if rate == Str then OpiStr else OpiDtr
  }

  /** `busy` from a program or erase until the status is polled. */
  datatype Chip = Chip(protocol: Protocol, resetArmed: bool, writeEnabled: bool, busy: bool, mem: seq<Byte>)

  // ---- the array ----

  /** Where byte i of a page program lands: addresses wrap inside the page. */
  function PageLocation(page: nat, addr: nat, i: nat): nat
    requires page > 0
  {
    addr - addr % page + (addr % page + i) % page
  }

  /** Programming clears bits; the bytes come one by one and wrap inside the page. */
  function PageProgrammed(mem: seq<Byte>, page: nat, addr: nat, data: seq<Byte>): (r: seq<Byte>)
    requires page > 0
    ensures |r| == |mem|
  {
    if data == [] then mem else
      var m := PageProgrammed(mem, page, addr, data[..|data| - 1]);
      var p := PageLocation(page, addr, |data| - 1);
      if p < |m| then m[p := m[p] & data[|data| - 1]] else m
  }

  /** Programming as if memory were linear. */
  function Programmed(mem: seq<Byte>, addr: nat, data: seq<Byte>): (r: seq<Byte>)
    requires addr + |data| <= |mem|
    ensures |r| == |mem|
  {
    mem[..addr] + seq(|data|, i requires 0 <= i < |data| => mem[addr + i] & data[i]) + mem[addr + |data|..]
  }

  /** A block of ones. */
  function Erased(mem: seq<Byte>, addr: nat, size: nat): (r: seq<Byte>)
    requires size > 0
    ensures |r| == |mem|
  {
    var start := addr - addr % size;
    seq(|mem|, i requires 0 <= i < |mem| => if start <= i < start + size then 0xFF as Byte else mem[i])
  }

  /** A program that stays inside its page is linear. */
  lemma {:induction false} InsidePageIsLinear(mem: seq<Byte>, page: nat, addr: nat, data: seq<Byte>)
    requires page > 0 && addr % page + |data| <= page && addr + |data| <= |mem|
    ensures PageProgrammed(mem, page, addr, data) == Programmed(mem, addr, data)
  {
    if data == [] {
      assert Programmed(mem, addr, data) == mem;
    } else {
      var n := |data| - 1;
      InsidePageIsLinear(mem, page, addr, data[..n]);
      DivMod(addr % page + n, 0, addr % page + n, page);
      assert PageLocation(page, addr, n) == addr + n;
    }
  }

  /** Programming two adjacent pieces is programming them joined. */
  lemma ProgrammedJoin(mem: seq<Byte>, addr: nat, a: seq<Byte>, b: seq<Byte>)
    requires addr + |a| + |b| <= |mem|
    ensures Programmed(Programmed(mem, addr, a), addr + |a|, b) == Programmed(mem, addr, a + b)
  {
  }

  /** What a program does to erased memory: the range then holds the data. */
  lemma ErasedThenProgrammed(mem: seq<Byte>, addr: nat, data: seq<Byte>)
    requires addr + |data| <= |mem| && forall i :: addr <= i < addr + |data| ==> mem[i] == 0xFF
    ensures Programmed(mem, addr, data)[addr..addr + |data|] == data
  {
    forall i | 0 <= i < |data| ensures mem[addr + i] & data[i] == data[i] {
      assert mem[addr + i] == 0xFF;
    }
  }

  /** A failed write: the first `done` bytes are programmed, and nothing differs from that outside the
      `len` bytes that follow, which lie in one page. */
  ghost predicate PartlyProgrammed(was: seq<Byte>, now: seq<Byte>, page: nat, addr: nat, data: seq<Byte>, done: nat, len: nat)
    requires page > 0 && addr + |data| <= |was|
  {
    && done + len <= |data| && (addr + done) % page + len <= page && |now| == |was|
    && (done == 0 || (addr + done) % page == 0)
    && forall i :: 0 <= i < |was| && !(addr + done <= i < addr + done + len) ==>
         now[i] == Programmed(was, addr, data[..done])[i]
  }

  ghost predicate CutShort(was: seq<Byte>, now: seq<Byte>, page: nat, addr: nat, data: seq<Byte>)
    requires page > 0 && addr + |data| <= |was|
  {
    exists done: nat, len: nat :: PartlyProgrammed(was, now, page, addr, data, done, len)
  }

  // ---- the driver ----

  /** The peripheral: off, or initialised with the data hold of a transfer rate, a quarter cycle for DTR. */
  datatype Phy = Down | Up(hold: Rate)

  /** The protocol in which memory-mapped accesses are made, if they are. */
  datatype Mapping = Unmapped | MappedIn(protocol: Protocol)

  class Nor {
    const page: nat        // MX66UW1G45G_PAGE_SIZE
    const reliable: bool   // no HAL or component call fails
    var access: Access
    var mode: Interface
    var rate: Rate
    var phy: Phy
    var mapping: Mapping
    var chip: Chip

    /** Room below 2^32 - page for the 32-bit address arithmetic (the chip holds 2^27 bytes). */
    ghost predicate Valid()
      reads this
    {
      page > 0 && |chip.mem| + page <= U32 && !(mode == Spi && rate == Dtr)
    }

    /** The recorded mode and rate are the chip's. */
    ghost predicate Agrees()
      reads this
    {
      chip.protocol == Wire(mode, rate)
    }

    ghost predicate RecordKept(access0: Access, mode0: Interface, rate0: Rate)
      reads this
    {
      access == access0 && mode == mode0 && rate == rate0
    }

    constructor (page: nat, reliable: bool, mem: seq<Byte>, protocol: Protocol)
      requires page > 0 && |mem| + page <= U32
      ensures Valid() && access == None && chip == Chip(protocol, false, false, false, mem) && this.page == page
      ensures this.reliable == reliable
    {
      this.page, this.reliable := page, reliable;
      access, mode, rate, phy, mapping := None, Spi, Str, Down, Unmapped;
      chip := Chip(protocol, false, false, false, mem);
    }

    // Commands.  One in the wrong protocol has no effect although it may report success; a failing one may
    // or may not have been heard.

    method Send(p: Protocol) returns (ok: bool, heard: bool)
      ensures reliable ==> ok
      ensures heard ==> p == chip.protocol
      ensures ok && p == chip.protocol ==> heard
    {
      ok := *;
      ok := ok || reliable;
      heard := *;
      heard := p == chip.protocol && (ok || heard);
    }

    method ResetEnable(p: Protocol) returns (ok: bool)
      modifies this`chip
      ensures reliable ==> ok
      ensures chip in {old(chip), old(chip).(resetArmed := true)}
      ensures ok && p == old(chip.protocol) ==> chip.resetArmed
      ensures p != old(chip.protocol) ==> chip == old(chip)
    {
      var heard;
      ok, heard := Send(p);
      if heard {
        chip := chip.(resetArmed := true);
      }
    }

    method ResetChip(p: Protocol) returns (ok: bool)
      modifies this`chip
      ensures reliable ==> ok
      ensures chip in {old(chip), Chip(SpiStr, false, false, false, old(chip.mem)), old(chip).(resetArmed := false)}
      ensures ok && p == old(chip.protocol) && old(chip.resetArmed) ==> chip.protocol == SpiStr
      ensures p != old(chip.protocol) ==> chip == old(chip)
      ensures chip.protocol in {old(chip.protocol), SpiStr}
    {
      var heard;
      ok, heard := Send(p);
      if heard {
        chip := if chip.resetArmed then Chip(SpiStr, false, false, false, chip.mem) else chip.(resetArmed := false);
      }
    }

    method WriteEnable(p: Protocol) returns (ok: bool)
      modifies this`chip
      ensures reliable ==> ok
      ensures chip.mem == old(chip.mem) && chip.protocol == old(chip.protocol) && chip.busy == old(chip.busy)
      ensures p != old(chip.protocol) ==> chip == old(chip)
      ensures ok && p == old(chip.protocol) && !old(chip.busy) ==> chip.writeEnabled
    {
      var heard;
      ok, heard := Send(p);
      if heard && !chip.busy {
        chip := chip.(writeEnabled := true, resetArmed := false);
      }
    }

    /** Writes configuration register 2; its first byte selects the protocol, the others do not. */
    method WriteCfg2(p: Protocol, selects: bool, value: Protocol) returns (ok: bool)
      modifies this`chip
      ensures reliable ==> ok
      ensures chip.mem == old(chip.mem) && chip.busy == old(chip.busy)
      ensures chip.protocol == old(chip.protocol) || (selects && chip.protocol == value)
      ensures p != old(chip.protocol) ==> chip == old(chip)
      ensures ok && p == old(chip.protocol) && old(chip.writeEnabled) && !old(chip.busy) && selects ==> chip.protocol == value
      ensures !selects ==> chip.protocol == old(chip.protocol)
    {
      var heard;
      ok, heard := Send(p);
      if heard && !chip.busy && chip.writeEnabled {
        chip := chip.(writeEnabled := false, resetArmed := false, protocol := if selects then value else chip.protocol);
      }
    }

    /** Polls the status register until ready.  In the wrong protocol the poll fails. */
    method AutoPollingMemReady(p: Protocol) returns (ok: bool)
      modifies this`chip
      ensures ok ==> p == chip.protocol && !chip.busy
      ensures reliable && p == chip.protocol ==> ok
      ensures chip in {old(chip), old(chip).(busy := false)}
    {
      var heard;
      ok, heard := Send(p);
      ok := ok && p == chip.protocol;
      if ok {
        chip := chip.(busy := false);
      }
    }

    /** Reads the protocol byte of configuration register 2.  In the wrong protocol the read fails. */
    method ReadCfg2(p: Protocol) returns (ok: bool, value: Protocol)
      ensures ok ==> p == chip.protocol == value
      ensures reliable && p == chip.protocol ==> ok
    {
      var heard;
      ok, heard := Send(p);
      ok := ok && p == chip.protocol;
      value := chip.protocol;
    }

    method HalCall() returns (ok: bool)
      ensures reliable ==> ok
    {
      ok := *;
      ok := ok || reliable;
    }

    /** Initialises the peripheral for a transfer rate. */
    method HalInitFor(to: Rate) returns (ok: bool)
      modifies this`phy
      ensures reliable ==> ok
      ensures ok ==> phy == Up(to)
    {
      ok := HalCall();
      phy := Up(to);
    }

    method HalDeInit() returns (ok: bool)
      modifies this`phy
      ensures reliable ==> ok
      ensures ok ==> phy == Down
    {
      ok := HalCall();
      phy := if ok then Down else phy;
    }

    method MapMemory(p: Protocol) returns (ok: bool)
      modifies this`mapping
      ensures reliable ==> ok
      ensures mapping == if ok then MappedIn(p) else old(mapping)
    {
      ok := HalCall();
      mapping := if ok then MappedIn(p) else mapping;
    }

    /** HAL_XSPI_Abort. */
    method Abort() returns (ok: bool)
      modifies this`mapping
      ensures reliable ==> ok
      ensures mapping == if ok then Unmapped else old(mapping)
    {
      ok := HalCall();
      mapping := if ok then Unmapped else mapping;
    }

    /** A page program.  A failing one may have changed any byte it addresses. */
    method PageProgram(p: Protocol, addr: nat, data: seq<Byte>) returns (ok: bool)
      requires Valid()
      modifies this`chip
      ensures reliable ==> ok
      ensures chip.protocol == old(chip.protocol) && |chip.mem| == |old(chip.mem)|
      ensures ok && p == old(chip.protocol) && old(chip.writeEnabled) && !old(chip.busy) ==>
        chip.mem == PageProgrammed(old(chip.mem), page, addr, data) && chip.busy
      ensures !ok ==> forall i :: 0 <= i < |chip.mem| && !Addressed(page, addr, |data|, i) ==> chip.mem[i] == old(chip.mem)[i]
      ensures p != old(chip.protocol) || !old(chip.writeEnabled) || old(chip.busy) ==> chip.mem == old(chip.mem)
    {
      var heard;
      ok, heard := Send(p);
      if heard && chip.writeEnabled && !chip.busy {
        var mem := PageProgrammed(chip.mem, page, addr, data);
        if !ok {
          mem := chip.mem;
          mem :| |mem| == |chip.mem| && forall i :: 0 <= i < |mem| && !Addressed(page, addr, |data|, i) ==> mem[i] == chip.mem[i];
        }
        chip := chip.(mem := mem, busy := true, writeEnabled := false);
      }
    }

    method BlockErase(p: Protocol, addr: nat, size: nat) returns (ok: bool)
      requires Valid() && size > 0
      modifies this`chip
      ensures reliable ==> ok
      ensures chip.protocol == old(chip.protocol) && |chip.mem| == |old(chip.mem)|
      ensures ok && p == old(chip.protocol) && old(chip.writeEnabled) && !old(chip.busy) ==>
        chip.mem == Erased(old(chip.mem), addr, size) && chip.busy
      ensures forall i :: 0 <= i < |chip.mem| && i / size != addr / size ==> chip.mem[i] == old(chip.mem)[i]
    {
      var heard;
      ok, heard := Send(p);
      if heard && chip.writeEnabled && !chip.busy {
        var mem := Erased(chip.mem, addr, size);
        ErasedBlock(chip.mem, addr, size);
        if !ok {
          mem := chip.mem;
          mem :| |mem| == |chip.mem| && forall i :: 0 <= i < |mem| && i / size != addr / size ==> mem[i] == chip.mem[i];
        }
        chip := chip.(mem := mem, busy := true, writeEnabled := false);
      }
    }

    // ---- protocol switching ----

    /** A reset in each of the three protocols: the chip ends in SPI whatever it listened to before. */
    method ResetMemory() returns (ret: Status)
      requires Valid()
      modifies this`access, this`mode, this`rate, this`chip
      ensures Valid() && chip.mem == old(chip.mem) && (reliable ==> ret == NoError)
      ensures ret == NoError ==> chip.protocol == SpiStr && access == Indirect && mode == Spi && rate == Str && Agrees()
      ensures ret != NoError ==> ret == ComponentFailure && RecordKept(old(access), old(mode), old(rate))
    {
      ret := ResetIn(SpiStr);
      if ret == NoError {
        ret := ResetIn(OpiStr);
        if ret == NoError {
          ret := ResetIn(OpiDtr);
          if ret == NoError {
            access, mode, rate := Indirect, Spi, Str;
          }
        }
      }
    }

    method ResetIn(p: Protocol) returns (ret: Status)
      requires Valid()
      modifies this`chip
      ensures Valid() && chip.mem == old(chip.mem) && (reliable ==> ret == NoError) && ret in {NoError, ComponentFailure}
      ensures ret == NoError && p == old(chip.protocol) ==> chip.protocol == SpiStr
      ensures p != old(chip.protocol) ==> chip == old(chip)
    {
      ret := NoError;
      var ok := ResetEnable(p);
      if !ok {
        return ComponentFailure;
      }
      ok := ResetChip(p);
      if !ok {
        ret := ComponentFailure;
      }
    }

    /** Write enable, then one configuration register, both in the recorded protocol. */
    method Configure(selects: bool, value: Protocol) returns (ok: bool)
      modifies this`chip
      ensures reliable ==> ok
      ensures chip.mem == old(chip.mem) && chip.busy == old(chip.busy)
      ensures chip.protocol == old(chip.protocol) || (selects && chip.protocol == value)
      ensures Wire(mode, rate) != old(chip.protocol) ==> chip == old(chip)
      ensures ok && selects && Wire(mode, rate) == old(chip.protocol) && !old(chip.busy) ==> chip.protocol == value
      ensures !selects ==> chip.protocol == old(chip.protocol)
    {
      ok := WriteEnable(Wire(mode, rate));
      if ok {
        ok := WriteCfg2(Wire(mode, rate), selects, value);
      }
    }

    /** Poll and read back in the protocol that should now be active. */
    method Confirm(p: Protocol) returns (ret: Status)
      modifies this`chip
      ensures ret in {NoError, ComponentFailure}
      ensures ret == NoError ==> chip.protocol == p
      ensures reliable && old(chip.protocol) == p ==> ret == NoError
      ensures chip.mem == old(chip.mem) && chip.protocol == old(chip.protocol)
      ensures !old(chip.busy) ==> !chip.busy
    {
      ret := NoError;
      var ok := AutoPollingMemReady(p);
      if !ok {
        return ComponentFailure;
      }
      var value;
      ok, value := ReadCfg2(p);
      if !ok || value != p {
        ret := ComponentFailure;
      }
    }

    /** EnterSOPIMode and EnterDOPIMode differ in the register value and in the peripheral re-init for DTR. */
    method EnterOpi(to: Rate) returns (ret: Status)
      requires Valid()
      modifies this`chip, this`phy
      ensures Valid() && chip.mem == old(chip.mem) && ret in {NoError, ComponentFailure, PeriphFailure}
      ensures ret == NoError ==> chip.protocol == Wire(Opi, to)
      ensures to == Str ==> phy == old(phy)
      ensures ret == NoError && to == Dtr ==> phy == Up(Dtr)
      ensures Wire(mode, rate) != old(chip.protocol) ==> chip.protocol == old(chip.protocol)
      ensures reliable && old(Agrees()) && !old(chip.busy) ==> ret == NoError
      ensures !old(chip.busy) ==> !chip.busy
    {
      var ok := Configure(false, SpiStr);      // dummy cycles
      if !ok {
        return ComponentFailure;
      }
      ok := Configure(true, Wire(Opi, to));
      if !ok {
        return ComponentFailure;
      }
      if to == Dtr {
        ok := HalInitFor(Dtr);
        if !ok {
          return PeriphFailure;
        }
      }
      ret := Confirm(Wire(Opi, to));
    }

    method ExitOpi() returns (ret: Status)
      requires Valid()
      modifies this`chip, this`phy
      ensures Valid() && chip.mem == old(chip.mem) && ret in {NoError, ComponentFailure, PeriphFailure}
      ensures ret == NoError ==> chip.protocol == SpiStr
      ensures rate == Str ==> phy == old(phy)
      ensures ret == NoError && rate == Dtr ==> phy == Up(Str)
      ensures Wire(mode, rate) != old(chip.protocol) ==> chip.protocol == old(chip.protocol)
      ensures reliable && old(Agrees()) && !old(chip.busy) ==> ret == NoError
      ensures !old(chip.busy) ==> !chip.busy
    {
      var ok := Configure(true, SpiStr);
      if !ok {
        return ComponentFailure;
      }
      if rate == Dtr {
        ok := HalInitFor(Str);
        if !ok {
          return PeriphFailure;
        }
      }
      ret := Confirm(SpiStr);
    }

    ghost function View(): Record
      reads this
    {
      Record(access, mode, rate, chip.protocol)
    }

    /** Switches the chip and then the record.  A rate change inside OPI never succeeds: after leaving OPI the
        enter step still uses the record, which says OPI, and the chip no longer listens to it.  On working
        hardware every failure leaves record and chip at odds. */
    method ConfigFlash(instance: nat, m: Interface, r: Rate) returns (ret: Status)
      requires Valid() && !(m == Spi && r == Dtr)
      modifies this`access, this`mode, this`rate, this`phy, this`chip
      ensures Valid() && chip.mem == old(chip.mem)
      ensures instance >= INSTANCES ==> ret == WrongParam && View() == old(View()) && chip == old(chip)
      ensures ret == NoError && (old(phy == Up(rate)) || (old(mode) == Spi && r == Dtr)) ==> phy == Up(r)
      ensures instance < INSTANCES ==> ConfigStep(old(View()), m, r, ret, reliable && !old(chip.busy), View())
      ensures !old(chip.busy) ==> !chip.busy
      ensures instance < INSTANCES && reliable && old(Agrees()) && !old(chip.busy) && old(access) != Mmp ==>
        (ret == NoError <==> !(old(mode) == Opi && m == Opi && r != old(rate)))
    {
      ret := NoError;
      if instance >= INSTANCES {
        return WrongParam;
      }
      if access == Mmp {
        return MmpLockFailure;
      }
      if mode == Opi {
        if m != Opi || r != rate {
          ret := ExitOpi();
          if ret == NoError && m == Opi {
            if rate == Str {
              ret := EnterOpi(Dtr);
            } else {
              ret := EnterOpi(Str);
            }
          }
        }
      } else if m == Opi {
        ret := EnterOpi(r);
      }
      if ret == NoError {
        access, mode, rate := Indirect, m, r;
      }
    }

    method EnableMemoryMappedMode(instance: nat) returns (ret: Status)
      modifies this`access, this`mapping
      ensures instance >= INSTANCES ==> ret == WrongParam && access == old(access)
      ensures instance < INSTANCES ==> EnableStep(old(View()), ret, View())
      ensures mapping == if ret == NoError then MappedIn(Wire(mode, rate)) else old(mapping)
      ensures reliable && instance < INSTANCES ==> ret == NoError
    {
      ret := NoError;
      if instance >= INSTANCES {
        return WrongParam;
      }
      var ok: bool;
      if rate == Str {
        ok := MapMemory(Wire(mode, Str));
      } else {
        ok := MapMemory(Wire(mode, Dtr));
      }
      if !ok {
        ret := ComponentFailure;
      } else {
        access := Mmp;
      }
    }

    method DisableMemoryMappedMode(instance: nat) returns (ret: Status)
      modifies this`access, this`mapping
      ensures instance >= INSTANCES ==> ret == WrongParam && access == old(access)
      ensures instance < INSTANCES ==> DisableStep(old(View()), ret, View())
      ensures mapping == if ret == NoError then Unmapped else old(mapping)
      ensures reliable && instance < INSTANCES && old(access) == Mmp ==> ret == NoError
    {
      ret := NoError;
      if instance >= INSTANCES {
        return WrongParam;
      }
      if access != Mmp {
        return MmpUnlockFailure;
      }
      var ok := Abort();
      if !ok {
        ret := PeriphFailure;
      } else {
        access := Indirect;
      }
    }

    /** From an uninitialised record, success leaves chip and record in the requested mode, whatever protocol
        the chip was in.  An initialised record makes this a successful no-operation. */
    method Init(instance: nat, m: Interface, r: Rate) returns (ret: Status)
      requires Valid() && !(m == Spi && r == Dtr)
      modifies this`access, this`mode, this`rate, this`phy, this`chip
      ensures Valid() && chip.mem == old(chip.mem)
      ensures instance >= INSTANCES <==> ret == WrongParam
      ensures ret == NoError && old(access) == None ==> phy == Up(r)
      ensures instance < INSTANCES ==> InitStep(old(View()), m, r, ret, View())
      ensures instance < INSTANCES && old(access) == None && reliable ==> ret == NoError
    {
      ret := NoError;
      if instance >= INSTANCES {
        return WrongParam;
      }
      if access == None {
        var ok := HalInitFor(r);
        if !ok {
          return PeriphFailure;
        }
        ret := ResetMemory();
        if ret != NoError {
          return ComponentFailure;
        }
        ok := AutoPollingMemReady(Wire(mode, rate));
        if !ok {
          return ComponentFailure;
        }
        ret := ConfigFlash(instance, m, r);
        if ret != NoError {
          ret := ComponentFailure;
        }
      }
    }

    method DeInit(instance: nat) returns (ret: Status)
      requires Valid()
      modifies this`access, this`mode, this`rate, this`phy, this`mapping
      ensures Valid()
      ensures instance >= INSTANCES <==> ret == WrongParam
      ensures reliable && instance < INSTANCES ==> ret == NoError
      ensures ret == NoError && old(access) != None ==> phy == Down
      ensures mapping ==
        if instance < INSTANCES && ret != ComponentFailure && old(access) == Mmp then Unmapped else old(mapping)
      ensures ret == ComponentFailure ==> old(access) == Mmp && RecordKept(old(access), old(mode), old(rate))
      ensures instance < INSTANCES && ret != ComponentFailure ==> access == None
      ensures instance < INSTANCES && ret != ComponentFailure && old(access) != None ==> mode == Spi && rate == Str
    {
      ret := NoError;
      if instance >= INSTANCES {
        return WrongParam;
      }
      if access != None {
        if access == Mmp {
          var r := DisableMemoryMappedMode(instance);
          if r != NoError {
            return ComponentFailure;
          }
        }
        access, mode, rate := None, Spi, Str;
        var ok := HalDeInit();
        if !ok {
          ret := PeriphFailure;
        }
      }
    }

    // ---- data ----

    /** Starts erasing a block; the chip is busy until the next poll. */
    method EraseBlock(instance: nat, addr: nat, size: nat) returns (ret: Status)
      requires Valid() && size > 0
      modifies this`chip
      ensures Valid() && chip.protocol == old(chip.protocol) && |chip.mem| == |old(chip.mem)|
      ensures instance >= INSTANCES <==> ret == WrongParam
      ensures reliable && old(Agrees()) && instance < INSTANCES ==> ret == NoError
      ensures ret == NoError ==> chip.mem == Erased(old(chip.mem), addr, size) && Agrees()
      ensures forall i :: 0 <= i < |chip.mem| && i / size != addr / size ==> chip.mem[i] == old(chip.mem)[i]
      ensures ret == WrongParam ==> chip == old(chip)
    {
      ret := NoError;
      if instance >= INSTANCES {
        return WrongParam;
      }
      var ok := AutoPollingMemReady(Wire(mode, rate));
      if !ok {
        return ComponentFailure;
      }
      ok := WriteEnable(Wire(mode, rate));
      if !ok {
        return ComponentFailure;
      }
      ok := BlockErase(Wire(mode, rate), addr, size);
      if !ok {
        ret := ComponentFailure;
      }
    }

    method Read(instance: nat, addr: nat, size: nat) returns (ret: Status, data: seq<Byte>)
      ensures ret == NoError ==> Agrees() && |data| == size
      ensures ret == NoError && !chip.busy && addr + size <= |chip.mem| ==> data == chip.mem[addr..addr + size]
      ensures instance >= INSTANCES <==> ret == WrongParam
      ensures reliable && Agrees() && instance < INSTANCES ==> ret == NoError
    {
      ret, data := NoError, [];
      if instance >= INSTANCES {
        ret := WrongParam;
        return;
      }
      var ok, heard := Send(Wire(mode, rate));
      if !ok || !heard {
        ret := ComponentFailure;
      } else if chip.busy || addr + size > |chip.mem| {
        data :| |data| == size by { assert |seq(size, _ => 0 as Byte)| == size; }
      } else {
        data := chip.mem[addr..addr + size];
      }
    }

    /** One round of the write loop: poll, enable, program, poll. */
    method WriteChunk(data: seq<Byte>, addr: nat) returns (ret: Status)
      requires Valid() && addr % page + |data| <= page && addr + |data| <= |chip.mem|
      modifies this`chip
      ensures Valid() && chip.protocol == old(chip.protocol) && |chip.mem| == |old(chip.mem)|
      ensures ret in {NoError, ComponentFailure}
      ensures reliable && old(Agrees()) ==> ret == NoError
      ensures ret == NoError ==> chip.mem == Programmed(old(chip.mem), addr, data) && !chip.busy && Agrees()
      ensures forall i :: 0 <= i < |chip.mem| && !(addr <= i < addr + |data|) ==> chip.mem[i] == old(chip.mem)[i]
    {
      hide PageProgrammed, PageLocation, Addressed;
      ret := NoError;
      var ok := AutoPollingMemReady(Wire(mode, rate));
      if !ok {
        return ComponentFailure;
      }
      ok := WriteEnable(Wire(mode, rate));
      if !ok {
        return ComponentFailure;
      }
      ghost var was := chip.mem;
      InsidePageIsLinear(was, page, addr, data);
      InsidePageAddresses(page, addr, |data|);
      if rate == Str {
        ok := PageProgram(Wire(mode, Str), addr, data);
      } else {
        ok := PageProgram(OpiDtr, addr, data);
      }
      if !ok {
        return ComponentFailure;
      }
      ok := AutoPollingMemReady(Wire(mode, rate));
      if !ok {
        ret := ComponentFailure;
      }
    }

    /** The next chunk of a write whose first dataAddr bytes are programmed. */
    method WriteNext(data: seq<Byte>, writeAddr: nat, dataAddr: nat, size: nat, ghost was: seq<Byte>) returns (ret: Status)
      requires Valid() && writeAddr + |data| <= |was| == |chip.mem| && dataAddr + size <= |data|
      requires (writeAddr + dataAddr) % page + size <= page && (dataAddr == 0 || (writeAddr + dataAddr) % page == 0)
      requires chip.mem == Programmed(was, writeAddr, data[..dataAddr])
      modifies this`chip
      ensures reliable && old(Agrees()) ==> ret == NoError
      ensures Valid() && chip.protocol == old(chip.protocol) && |chip.mem| == |was| && ret in {NoError, ComponentFailure}
      ensures ret == NoError ==>
        chip.mem == Programmed(was, writeAddr, data[..dataAddr + size]) && !chip.busy && Agrees()
      ensures ret != NoError ==> CutShort(was, chip.mem, page, writeAddr, data)
    {
      hide Programmed, CutShort;
      ghost var before := chip.mem;
      ret := WriteChunk(data[dataAddr..dataAddr + size], writeAddr + dataAddr);
      if ret == NoError {
        ChunkDone(was, writeAddr, data, dataAddr, size);
      } else {
        FailedChunk(was, before, chip.mem, page, writeAddr, data, dataAddr, size);
      }
    }

    /** Page by page.  Success programs exactly the data at the target range; failure leaves whole chunks
        programmed and at most one more chunk touched; nothing outside the range ever changes. */
    method Write(instance: nat, data: seq<Byte>, writeAddr: nat) returns (ret: Status)
      requires Valid() && writeAddr + |data| <= |chip.mem|
      modifies this`chip
      ensures Valid() && chip.protocol == old(chip.protocol) && |chip.mem| == |old(chip.mem)|
      ensures instance >= INSTANCES <==> ret == WrongParam
      ensures reliable && old(Agrees()) && instance < INSTANCES ==> ret == NoError
      ensures ret == WrongParam ==> chip == old(chip)
      ensures ret == NoError ==> chip.mem == Programmed(old(chip.mem), writeAddr, data) && !chip.busy && Agrees()
      ensures ret in {NoError, WrongParam, ComponentFailure}
      ensures ret == ComponentFailure ==> CutShort(old(chip.mem), chip.mem, page, writeAddr, data)
    {
      ret := NoError;
      if instance >= INSTANCES {
        return WrongParam;
      }
      var currentSize := page - writeAddr % page;
      if currentSize > |data| {
        currentSize := |data|;
      }
      FirstChunk(chip.mem, page, writeAddr, data, currentSize);
      ret := WritePages(data, writeAddr, currentSize);
    }

    /** The do-while loop of the write. */
    method WritePages(data: seq<Byte>, writeAddr: nat, firstSize: nat) returns (ret: Status)
      requires Valid() && writeAddr + |data| <= |chip.mem|
      requires ChunkReady(page, writeAddr, writeAddr + |data|, firstSize, 0)
      modifies this`chip
      ensures Valid() && chip.protocol == old(chip.protocol) && |chip.mem| == |old(chip.mem)|
      ensures ret in {NoError, ComponentFailure}
      ensures reliable && old(Agrees()) ==> ret == NoError
      ensures ret == NoError ==> chip.mem == Programmed(old(chip.mem), writeAddr, data) && !chip.busy && Agrees()
      ensures ret == ComponentFailure ==> CutShort(old(chip.mem), chip.mem, page, writeAddr, data)
    {
      hide Programmed, ChunkReady, CutShort;
      ghost var was := chip.mem;
      ret := NoError;
      var currentSize, currentAddr, endAddr, dataAddr := firstSize, writeAddr, writeAddr + |data|, 0;
      NothingProgrammed(was, writeAddr, data);
      var running := true;
      while running
        invariant Valid() && chip.protocol == old(chip.protocol) && |chip.mem| == |was|
        invariant 0 <= dataAddr && currentAddr == writeAddr + dataAddr <= endAddr
        invariant running ==> 0 <= currentSize && ChunkReady(page, currentAddr, endAddr, currentSize, dataAddr)
        invariant running || ret == NoError ==> chip.mem == Programmed(was, writeAddr, data[..dataAddr])
        invariant !running && ret == NoError ==> currentAddr == endAddr && !chip.busy && Agrees()
        invariant ret == NoError || (ret == ComponentFailure && CutShort(was, chip.mem, page, writeAddr, data))
        invariant running || (reliable && old(Agrees())) ==> ret == NoError
        decreases if running then endAddr - currentAddr + 1 else 0
      {
        ChunkBounds(page, currentAddr, endAddr, currentSize, dataAddr);
        ret := WriteNext(data, writeAddr, dataAddr, currentSize, was);
        if ret == NoError {
          NextBoundary(page, currentAddr, endAddr, currentSize, dataAddr);
          currentAddr := currentAddr + currentSize;
          dataAddr := dataAddr + currentSize;
          currentSize := if (currentAddr + page) % U32 > endAddr then endAddr - currentAddr else page;
        }
        running := currentAddr < endAddr && ret == NoError;
      }
      assert data[..|data|] == data;
    }
  }

  /** Erasing a block, writing inside it and reading back: when all three calls succeed, as on working hardware in
      the recorded protocol, the data comes back; whatever they return nothing outside the block changes. */
  method EraseWriteRead(nor: Nor, instance: nat, addr: nat, data: seq<Byte>, size: nat) returns (ret: Status, got: seq<Byte>)
    requires nor.Valid() && size > 0 && addr % size + |data| <= size && addr + |data| <= |nor.chip.mem|
    modifies nor
    ensures nor.Valid() && |nor.chip.mem| == |old(nor.chip.mem)|
    ensures ret == NoError ==> got == data && nor.chip.mem[addr..addr + |data|] == data
    ensures nor.reliable && old(nor.Agrees()) && instance < INSTANCES ==> ret == NoError
    ensures forall i :: 0 <= i < |nor.chip.mem| && i / size != addr / size ==> nor.chip.mem[i] == old(nor.chip.mem)[i]
  {
    ghost var was := nor.chip.mem;
    got := [];
    ret := nor.EraseBlock(instance, addr, size);
    if ret == NoError {
      EraseWriteReadBack(was, addr, data, size);
      ghost var erased := nor.chip.mem;
      ret := nor.Write(instance, data, addr);
      WriteInBlock(nor.page, was, erased, nor.chip.mem, addr, data, size, ret);
      if ret == NoError {
        ret, got := nor.Read(instance, addr, |data|);
      }
    }
  }

  /** A write inside a block changes nothing outside it, whatever it returns. */
  lemma WriteInBlock(page: nat, was: seq<Byte>, erased: seq<Byte>, now: seq<Byte>, addr: nat, data: seq<Byte>,
                     size: nat, ret: Status)
    requires page > 0 && size > 0 && addr % size + |data| <= size && addr + |data| <= |was| == |erased| == |now|
    requires forall i :: 0 <= i < |was| && i / size != addr / size ==> erased[i] == was[i]
    requires ret == NoError ==> now == Programmed(erased, addr, data)
    requires ret == WrongParam ==> now == erased
    requires ret == ComponentFailure ==> CutShort(erased, now, page, addr, data)
    requires ret in {NoError, WrongParam, ComponentFailure}
    ensures forall i :: 0 <= i < |now| && i / size != addr / size ==> now[i] == was[i]
  {
    WriteInRange(page, erased, now, addr, data, ret);
    hide Programmed, CutShort;
    forall i | 0 <= i < |now| && i / size != addr / size ensures now[i] == was[i] {
      if addr <= i < addr + |data| {
        DivMod(i, addr / size, addr % size + (i - addr), size);
      }
    }
  }

  lemma WriteInRange(page: nat, was: seq<Byte>, now: seq<Byte>, addr: nat, data: seq<Byte>, ret: Status)
    requires page > 0 && addr + |data| <= |was| == |now|
    requires ret == NoError ==> now == Programmed(was, addr, data)
    requires ret == WrongParam ==> now == was
    requires ret == ComponentFailure ==> CutShort(was, now, page, addr, data)
    requires ret in {NoError, WrongParam, ComponentFailure}
    ensures forall i :: 0 <= i < |now| && !(addr <= i < addr + |data|) ==> now[i] == was[i]
  {
    if ret == ComponentFailure {
      var done: nat, len: nat :| PartlyProgrammed(was, now, page, addr, data, done, len);
    }
  }

  /** What a run of calls can see of the driver: the record and the chip's protocol. */
  datatype Record = Record(access: Access, mode: Interface, rate: Rate, protocol: Protocol) {
    predicate Agrees() { protocol == Wire(mode, rate) }
  }

  /** One ConfigFlash call: success sets the record, and leaves the chip in agreement with it exactly when it
      was before or anything was asked to change; failure keeps the record, and on hardware that works (no call
      fails and the chip is not busy) leaves the two at odds; memory-mapped mode locks both. */
  ghost predicate ConfigStep(s: Record, m: Interface, r: Rate, ret: Status, works: bool, s': Record) {
    && (s.access == Mmp <==> ret == MmpLockFailure)
    && (s.access == Mmp ==> s' == s)
    && (ret == NoError ==> s'.access == Indirect && s'.mode == m && s'.rate == r)
    && (ret == NoError ==> (s'.Agrees() <==> s.Agrees() || m != s.mode || r != s.rate))
    && (works && ret != NoError && ret != MmpLockFailure ==> !s'.Agrees())
    && (ret != NoError ==> s'.access == s.access && s'.mode == s.mode && s'.rate == s.rate)
    && (s.mode == Opi && m == Opi && r != s.rate ==> ret != NoError)
  }

  ghost predicate EnableStep(s: Record, ret: Status, s': Record) {
    s' == if ret == NoError then s.(access := Mmp) else s
  }

  ghost predicate DisableStep(s: Record, ret: Status, s': Record) {
    && (ret == NoError ==> s.access == Mmp && s' == s.(access := Indirect))
    && (ret != NoError ==> s' == s)
    && (s.access != Mmp ==> ret == MmpUnlockFailure)
  }

  /** One Init call: nothing on an initialised record; otherwise success leaves record and chip in the requested
      mode, and failure an uninitialised record or, after the reset, one that says SPI. */
  ghost predicate InitStep(s: Record, m: Interface, r: Rate, ret: Status, s': Record) {
    if s.access != None then ret == NoError && s' == s
    else if ret == NoError then s' == Record(Indirect, m, r, Wire(m, r))
    else
      && ret in {PeriphFailure, ComponentFailure}
      && ((s'.access == None && s'.mode == s.mode && s'.rate == s.rate)
          || (s'.access == Indirect && s'.mode == Spi && s'.rate == Str))
  }

  /** A successful Init means the requested mode exactly when the record was uninitialised or already said so,
      and the chip with it. */
  lemma InitMeansModeExactly(s: Record, m: Interface, r: Rate, s': Record)
    requires InitStep(s, m, r, NoError, s')
    ensures s'.mode == m && s'.rate == r && s'.protocol == Wire(m, r) <==>
            s.access == None || (s.mode == m && s.rate == r && s.protocol == Wire(m, r))
  {
  }

  /** An Init for DTR OPI fails after its reset; asking again reports success, with record and chip in SPI. */
  lemma InitAfterFailure() returns (s: Record, failed: Record, again: Record)
    ensures s.access == None && InitStep(s, Opi, Dtr, ComponentFailure, failed)
    ensures InitStep(failed, Opi, Dtr, NoError, again) && again.mode == Spi && again.protocol == SpiStr
  {
    s, failed := Record(None, Spi, Str, OpiStr), Record(Indirect, Spi, Str, SpiStr);
    again := failed;
  }

  datatype Call = Config(m: Interface, r: Rate, ret: Status) | Enable(ret: Status) | Disable(ret: Status)

  ghost predicate Step(s: Record, c: Call, works: bool, s': Record) {
    match c
    case Config(m, r, ret) => ConfigStep(s, m, r, ret, works, s')
    case Enable(ret) => EnableStep(s, ret, s')
    case Disable(ret) => DisableStep(s, ret, s')
  }

  ghost predicate Run(t: seq<Record>, calls: seq<Call>, works: bool) {
    |t| == |calls| + 1 && forall i :: 0 <= i < |calls| ==> Step(t[i], calls[i], works, t[i + 1])
  }

  /** No ConfigFlash has failed since the start or since the last one that switched the chip. */
  ghost predicate Settled(t: seq<Record>, calls: seq<Call>, n: nat)
    requires n <= |calls| && |t| == |calls| + 1
  {
    n == 0 ||
    match calls[n - 1]
    case Config(m, r, ret) =>
      if ret == NoError then m != t[n - 1].mode || r != t[n - 1].rate || Settled(t, calls, n - 1)
      else ret == MmpLockFailure && Settled(t, calls, n - 1)
    case Enable(_) => Settled(t, calls, n - 1)
    case Disable(_) => Settled(t, calls, n - 1)
  }

  /** Over every run that starts in agreement, as after a reset: record and chip agree whenever no
      ConfigFlash has failed since the start or since the last one that switched the chip; and on hardware
      that works, only then. */
  lemma {:induction false} RecordMatchesChip(t: seq<Record>, calls: seq<Call>, works: bool, n: nat)
    requires Run(t, calls, works) && n <= |calls| && t[0].Agrees()
    ensures Settled(t, calls, n) ==> t[n].Agrees()
    ensures works ==> (t[n].Agrees() <==> Settled(t, calls, n))
  {
    if n > 0 {
      assert Step(t[n - 1], calls[n - 1], works, t[n]);
      RecordMatchesChip(t, calls, works, n - 1);
    }
  }

  /** On working hardware a refused rate change inside OPI leaves the record at OPI and the two at odds. */
  lemma RefusedRateChange(s: Record, r: Rate, ret: Status, s': Record)
    requires s.access != Mmp && s.mode == Opi && s.rate != r && ConfigStep(s, Opi, r, ret, true, s')
    ensures ret != NoError && s'.mode == Opi && s'.rate == s.rate && !s'.Agrees()
  {
  }

  /** Over every run, nothing changes the mode, the rate or the protocol while memory-mapped. */
  lemma {:induction false} FrozenWhileMapped(t: seq<Record>, calls: seq<Call>, works: bool, i: nat, j: nat)
    requires Run(t, calls, works) && i <= j <= |calls| && forall k :: i <= k < j ==> t[k].access == Mmp
    ensures t[j].mode == t[i].mode && t[j].rate == t[i].rate && t[j].protocol == t[i].protocol
    decreases j
  {
    if i < j {
      FrozenWhileMapped(t, calls, works, i, j - 1);
      assert Step(t[j - 1], calls[j - 1], works, t[j]);
    }
  }

  lemma ErasedBlock(mem: seq<Byte>, addr: nat, size: nat)
    requires size > 0
    ensures forall i :: 0 <= i < |mem| && i / size != addr / size ==> Erased(mem, addr, size)[i] == mem[i]
  {
    forall i | 0 <= i < |mem| && i / size != addr / size ensures Erased(mem, addr, size)[i] == mem[i] {
      var q, start := addr / size, addr - addr % size;
      assert addr == q * size + addr % size;
      if start <= i < start + size {
        DivMod(i, q, i - start, size);
      }
    }
  }

  lemma InsidePageAddresses(page: nat, addr: nat, len: nat)
    requires page > 0 && addr % page + len <= page
    ensures forall i: nat :: Addressed(page, addr, len, i) ==> addr <= i < addr + len
  {
    forall k | 0 <= k < len ensures PageLocation(page, addr, k) == addr + k {
      DivMod(addr % page + k, 0, addr % page + k, page);
    }
  }

  predicate Addressed(page: nat, addr: nat, len: nat, i: nat)
    requires page > 0
  {
    exists k :: 0 <= k < len && PageLocation(page, addr, k) == i
  }

  // ---- the write loop's chunks ----

  /** The next chunk: on a page boundary unless it is the first, to the end of the page or of the data,
      and not empty unless the data is. */
  predicate ChunkReady(page: nat, addr: nat, end: nat, size: nat, done: nat)
    requires page > 0
  {
    && addr + size <= end && addr % page + size <= page && (size > 0 || addr == end)
    && (done == 0 || addr % page == 0)
    && (addr + size == end || (addr + size) % page == 0)
  }

  lemma ChunkBounds(page: nat, addr: nat, end: nat, size: nat, done: nat)
    requires page > 0 && ChunkReady(page, addr, end, size, done)
    ensures addr + size <= end && addr % page + size <= page && (size > 0 || addr == end)
    ensures done == 0 || addr % page == 0
  {
  }

  lemma FailedChunk(was: seq<Byte>, before: seq<Byte>, now: seq<Byte>, page: nat, addr: nat, data: seq<Byte>,
                    done: nat, size: nat)
    requires page > 0 && addr + |data| <= |was| == |now| && done + size <= |data|
    requires (addr + done) % page + size <= page && (done == 0 || (addr + done) % page == 0)
    requires before == Programmed(was, addr, data[..done])
    requires forall i :: 0 <= i < |now| && !(addr + done <= i < addr + done + size) ==> now[i] == before[i]
    ensures CutShort(was, now, page, addr, data)
  {
    assert PartlyProgrammed(was, now, page, addr, data, done, size);
  }

  lemma FirstChunk(mem: seq<Byte>, page: nat, addr: nat, data: seq<Byte>, size: nat)
    requires page > 0 && addr + |data| <= |mem|
    requires size == if page - addr % page > |data| then |data| else page - addr % page
    ensures ChunkReady(page, addr, addr + |data|, size, 0)
  {
    var r := page - addr % page;
    assert addr == (addr / page) * page + addr % page;
    assert (addr / page + 1) * page == (addr / page) * page + page;
    DivMod(addr + r, addr / page + 1, 0, page);
  }

  lemma NothingProgrammed(mem: seq<Byte>, addr: nat, data: seq<Byte>)
    requires addr + |data| <= |mem|
    ensures mem == Programmed(mem, addr, data[..0])
  {
  }

  lemma NextBoundary(page: nat, addr: nat, end: nat, size: nat, done: nat)
    requires page > 0 && ChunkReady(page, addr, end, size, done) && end + page <= U32
    ensures addr + size < end ==>
      ChunkReady(page, addr + size, end, if (addr + size + page) % U32 > end then end - (addr + size) else page, done + size)
  {
    var next := addr + size;
    if next < end {
      NextMultiple(next, page);
    }
  }

  lemma ChunkDone(was: seq<Byte>, addr: nat, data: seq<Byte>, done: nat, size: nat)
    requires addr + |data| <= |was| && done + size <= |data|
    ensures Programmed(Programmed(was, addr, data[..done]), addr + done, data[done..done + size])
         == Programmed(was, addr, data[..done + size])
  {
    ProgrammedJoin(was, addr, data[..done], data[done..done + size]);
    assert data[..done] + data[done..done + size] == data[..done + size];
  }

  /** Erasing a block and writing inside it makes the range hold the data, and changes nothing outside the block. */
  lemma EraseWriteReadBack(mem: seq<Byte>, addr: nat, data: seq<Byte>, size: nat)
    requires size > 0 && addr % size + |data| <= size && addr + |data| <= |mem|
    ensures var after := Programmed(Erased(mem, addr, size), addr, data);
      && after[addr..addr + |data|] == data
      && forall i :: 0 <= i < |mem| && i / size != addr / size ==> after[i] == mem[i]
  {
    ErasedThenProgrammed(Erased(mem, addr, size), addr, data);
    ErasedBlock(mem, addr, size);
    var after, q := Programmed(Erased(mem, addr, size), addr, data), addr / size;
    forall i | 0 <= i < |mem| && i / size != q ensures after[i] == mem[i] {
      if addr <= i < addr + |data| {
        assert addr == q * size + addr % size;
        DivMod(i, q, i - q * size, size);
      }
    }
  }
}
