/**
 * The RAK1904 accelerometer, a LIS3DH (RAK1904_acc.cpp): the register
 * sequence `init_rak1904` writes to arm the motion interrupt, the two raw
 * register accessors it uses, and the debounce in the interrupt callback.
 *
 * The chip is modelled by its register file. Each bus transaction's outcome
 * is an oracle: the status `endTransmission` returns, whether the chip
 * answered a read, and the indeterminate value an unanswered read leaves in
 * the uninitialised local `result`. What the Adafruit library's own setup
 * calls leave in the registers is an oracle as well.
 */
module Rak1904Acc {
  import opened Common
  import CustomAt

  const REG_COUNT: nat := 0x40
  /** CTRL_REG0, written by address in the source. */
  const CTRL0: nat := 0x1E
  const CTRL1: nat := 0x20
  const CTRL2: nat := 0x21
  const CTRL3: nat := 0x22
  const CTRL5: nat := 0x24
  const CTRL6: nat := 0x25
  const INT1CFG: nat := 0x30
  const INT1THS: nat := 0x32
  const INT1DUR: nat := 0x33

  /** The GNSS payload format that asks for the lower motion threshold. */
  const HELIUM_MAPPER: Byte := 2
  /** Register accesses `init_rak1904` makes after a successful `begin()`: nine writes and three reads. */
  const INIT_TRANSFERS: nat := 12

  /** The outcome of one register access on the bus. */
  datatype Transfer = Transfer(status: nat, answered: bool, indeterminate: bv8)

  // ---------------------------------------------------------------------
  // Register accesses as functions of the register file
  // ---------------------------------------------------------------------

  /** The value left in `result` after receiving `received`: its last byte, or the indeterminate value. */
  function LastByte(received: seq<bv8>, indeterminate: bv8): bv8
  {
    if received == [] then indeterminate else received[|received| - 1]
  }

  /** The bytes a read of `reg` delivers: the register's content, if the chip answers. */
  function Received(regs: seq<bv8>, reg: nat, t: Transfer): (bs: seq<bv8>)
    requires reg < |regs|
    ensures |bs| <= 1
  {
    if t.answered then [regs[reg]] else []
  }

  /** The register file after `rak1904_writeRegister(reg, value)`. */
  function WriteStep(regs: seq<bv8>, reg: nat, value: bv8, t: Transfer): (r: seq<bv8>)
    requires reg < |regs|
    ensures |r| == |regs|
    ensures t.status == 0 ==> r == regs[reg := value]
    ensures t.status != 0 ==> r == regs
  {
    if t.status == 0 then regs[reg := value] else regs
  }

  /** `*outputPointer` after `rak1904_readRegister(outputPointer, reg)` when it held `current`. */
  function ReadStep(regs: seq<bv8>, reg: nat, current: bv8, t: Transfer): (v: bv8)
    requires reg < |regs|
    ensures t.status != 0 ==> v == current
    ensures t.status == 0 && t.answered ==> v == regs[reg]
  {
    if t.status != 0 then current else LastByte(Received(regs, reg, t), t.indeterminate)
  }

  /** CTRL_REG5 as rewritten: bits 2 and 3 cleared, then bit 3 (latch interrupt 1) set. */
  function Ctrl5Value(read: bv8): bv8 { (read & 0xF3) | 0x08 }

  /** Interrupt generator 1: configuration, threshold and duration, and the CTRL_REG5 latch. */
  function InterruptRegs(lib: seq<bv8>, bus: seq<Transfer>, threshold: bv8): (r: seq<bv8>)
    requires |lib| == REG_COUNT && |bus| == INIT_TRANSFERS
    ensures |r| == REG_COUNT
  {
    var r0 := WriteStep(lib, INT1CFG, 0x2A, bus[0]);
    var r1 := WriteStep(r0, INT1THS, threshold, bus[1]);
    var r2 := WriteStep(r1, INT1DUR, 0x01, bus[2]);
    // a failed read leaves the 0x01 written to INT1_DURATION in `data_to_write`
    var d5 := ReadStep(r2, CTRL5, 0x01, bus[3]);
    WriteStep(r2, CTRL5, Ctrl5Value(d5), bus[4])
  }

  /** Interrupt pin routing and the high-pass filter. */
  function PinRegs(regs: seq<bv8>, bus: seq<Transfer>): (r: seq<bv8>)
    requires |regs| == REG_COUNT && |bus| == INIT_TRANSFERS
    ensures |r| == REG_COUNT
  {
    var r0 := WriteStep(regs, CTRL3, 0x60, bus[5]);
    var r1 := WriteStep(r0, CTRL6, 0x00, bus[6]);
    WriteStep(r1, CTRL2, 0x01, bus[7])
  }

  /** Low-power mode in CTRL_REG1 and the pull-up setting in CTRL_REG0. */
  function PowerRegs(regs: seq<bv8>, bus: seq<Transfer>): (r: seq<bv8>)
    requires |regs| == REG_COUNT && |bus| == INIT_TRANSFERS
    ensures |r| == REG_COUNT
  {
    var d1 := ReadStep(regs, CTRL1, 0x00, bus[8]);
    var r0 := WriteStep(regs, CTRL1, d1 | 0x08, bus[9]);
    var d0 := ReadStep(r0, CTRL0, 0x00, bus[10]);
    WriteStep(r0, CTRL0, d0 | 0x90, bus[11])
  }

  /** The register file after the whole sequence, starting from what the library left. */
  function Configured(lib: seq<bv8>, bus: seq<Transfer>, threshold: bv8): (r: seq<bv8>)
    requires |lib| == REG_COUNT && |bus| == INIT_TRANSFERS
    ensures |r| == REG_COUNT
  {
    PowerRegs(PinRegs(InterruptRegs(lib, bus, threshold), bus), bus)
  }

  /** Every transaction is acknowledged and every read answered. */
  predicate BusHealthy(bus: seq<Transfer>)
  {
    forall k :: 0 <= k < |bus| ==> bus[k].status == 0 && bus[k].answered
  }

  /** The registers `init_rak1904` writes. */
  predicate Written(reg: nat)
  {
    reg == INT1CFG || reg == INT1THS || reg == INT1DUR || reg == CTRL5 || reg == CTRL3 ||
    reg == CTRL6 || reg == CTRL2 || reg == CTRL1 || reg == CTRL0
  }

  /**
   * On a healthy bus the sequence writes exactly these values: fixed ones
   * for the interrupt and pin registers, read-modify-write results for
   * CTRL_REG5, CTRL_REG1 and CTRL_REG0, which change only the bits they
   * target; every other register keeps what the library left.
   */
  lemma ConfiguredOnHealthyBus(lib: seq<bv8>, bus: seq<Transfer>, threshold: bv8)
    requires |lib| == REG_COUNT && |bus| == INIT_TRANSFERS && BusHealthy(bus)
    ensures var r := Configured(lib, bus, threshold);
      r[INT1CFG] == 0x2A && r[INT1THS] == threshold && r[INT1DUR] == 0x01 &&
      r[CTRL5] == Ctrl5Value(lib[CTRL5]) && r[CTRL3] == 0x60 && r[CTRL6] == 0x00 && r[CTRL2] == 0x01 &&
      r[CTRL1] == lib[CTRL1] | 0x08 && r[CTRL0] == lib[CTRL0] | 0x90
    ensures var r := Configured(lib, bus, threshold);
      r[CTRL5] & 0x0C == 0x08 && r[CTRL5] & 0xF3 == lib[CTRL5] & 0xF3 &&
      r[CTRL1] & 0x08 == 0x08 && r[CTRL1] & 0xF7 == lib[CTRL1] & 0xF7 &&
      r[CTRL0] & 0x90 == 0x90 && r[CTRL0] & 0x6F == lib[CTRL0] & 0x6F
    ensures forall reg :: 0 <= reg < REG_COUNT && !Written(reg) ==> Configured(lib, bus, threshold)[reg] == lib[reg]
  {
    Ctrl5Bits(lib[CTRL5]);
    OrKeepsBits(lib[CTRL1], 0x08);
    OrKeepsBits(lib[CTRL0], 0x90);
    assert bus[0].status == 0 && bus[1].status == 0 && bus[2].status == 0 && bus[3].status == 0 && bus[3].answered;
    assert bus[4].status == 0 && bus[5].status == 0 && bus[6].status == 0 && bus[7].status == 0;
    assert bus[8].status == 0 && bus[8].answered && bus[9].status == 0;
    assert bus[10].status == 0 && bus[10].answered && bus[11].status == 0;
  }

  /** The CTRL_REG5 rewrite clears bit 2, sets bit 3 and keeps every other bit; a step of ConfiguredOnHealthyBus. */
  lemma Ctrl5Bits(read: bv8)
    ensures Ctrl5Value(read) & 0x0C == 0x08
    ensures Ctrl5Value(read) & 0xF3 == read & 0xF3
  {
  }

  /** Setting bits with `|=` keeps all the others; a step of ConfiguredOnHealthyBus. */
  lemma OrKeepsBits(read: bv8, mask: bv8)
    ensures (read | mask) & mask == mask
    ensures (read | mask) & !mask == read & !mask
  {
  }

  /**
   * A failed CTRL_REG5 read is not noticed: the register is then written
   * with 0x09, built from the stale 0x01 still in `data_to_write`.
   */
  lemma StaleCtrl5(lib: seq<bv8>, bus: seq<Transfer>, threshold: bv8)
    requires |lib| == REG_COUNT && |bus| == INIT_TRANSFERS
    requires bus[3].status != 0 && bus[4].status == 0
    ensures Configured(lib, bus, threshold)[CTRL5] == 0x09
  {
    assert InterruptRegs(lib, bus, threshold)[CTRL5] == 0x09;
  }

  // ---------------------------------------------------------------------
  // The motion threshold (lines 121-132)
  // ---------------------------------------------------------------------

  /**
   * The threshold and the new `gnss_format` as written: `if (gnss_format = 2)`
   * assigns 2, whose value is true, so the lower threshold is always chosen
   * and the format is overwritten.
   */
  function AsWrittenThreshold(format: Byte): (r: (bv8, Byte))
    ensures r == (0x03, HELIUM_MAPPER)
  {
    var newFormat := HELIUM_MAPPER;
    (if newFormat != 0 then 0x03 else 0x10, newFormat)
  }

  /** The evidently intended test: the lower threshold only for the Helium Mapper format. */
  function IntendedThreshold(format: Byte): (threshold: bv8)
    ensures threshold == 0x03 <==> format == HELIUM_MAPPER
    ensures threshold == 0x03 || threshold == 0x10
  {
    if format == HELIUM_MAPPER then 0x03 else 0x10
  }

  /** For every other format the code as written picks the wrong threshold and changes the format. */
  lemma ThresholdAssignmentMisfires(format: Byte)
    requires format != HELIUM_MAPPER
    ensures AsWrittenThreshold(format).0 != IntendedThreshold(format)
    ensures AsWrittenThreshold(format).1 != format
  {
  }

  // ---------------------------------------------------------------------
  // Motion debounce
  // ---------------------------------------------------------------------

  /**
   * The callback's test: more than half the send interval since the last
   * accepted trigger, and no GNSS fix in progress. `millis()` is a
   * `uint32_t` and `last_trigger` a 64-bit `time_t`, so the difference is
   * taken without wrap-around.
   */
  predicate MotionAccepted(now: U32, lastTrigger: int, repeatTime: U32, gnssActive: bool)
  {
    now - lastTrigger > repeatTime / 2 && !gnssActive
  }

  /** One interrupt: the time it arrives and whether GNSS is active then. */
  datatype Interrupt = Interrupt(now: U32, gnssActive: bool)

  /** The arrival times of the interrupts in `evs` that the callback accepts. */
  function AcceptedTimes(lastTrigger: int, repeatTime: U32, evs: seq<Interrupt>): seq<int>
    decreases |evs|
  {
    if evs == [] then []
    else if MotionAccepted(evs[0].now, lastTrigger, repeatTime, evs[0].gnssActive) then
      [evs[0].now as int] + AcceptedTimes(evs[0].now, repeatTime, evs[1..])
    else AcceptedTimes(lastTrigger, repeatTime, evs[1..])
  }

  /** Accepted triggers are more than half a send interval apart, the first from the initial time too. */
  lemma {:induction false} AcceptedTriggersSpaced(lastTrigger: int, repeatTime: U32, evs: seq<Interrupt>)
    decreases |evs|
    ensures var acc := AcceptedTimes(lastTrigger, repeatTime, evs);
      |acc| > 0 ==> acc[0] - lastTrigger > repeatTime / 2
    ensures var acc := AcceptedTimes(lastTrigger, repeatTime, evs);
      forall k :: 0 < k < |acc| ==> acc[k] - acc[k - 1] > repeatTime / 2
  {
    if evs != [] {
      var e := evs[0];
      if MotionAccepted(e.now, lastTrigger, repeatTime, e.gnssActive) {
        AcceptedTriggersSpaced(e.now, repeatTime, evs[1..]);
      } else {
        AcceptedTriggersSpaced(lastTrigger, repeatTime, evs[1..]);
      }
    }
  }

  /** The LIS3DH register file and the driver's globals `motion_detected` and `last_trigger`. */
  class Lis3dh {
    var regs: seq<bv8>
    var motionDetected: bool
    var lastTrigger: int

    ghost predicate Valid()
      reads this
    {
      |regs| == REG_COUNT
    }

    constructor (power: seq<bv8>)
      requires |power| == REG_COUNT
      ensures Valid() && regs == power && !motionDetected && lastTrigger == 0
    {
      regs := power;
      motionDetected := false;
      lastTrigger := 0;
    }

    /** `rak1904_writeRegister`: succeeds iff `endTransmission` returns 0, and only then is the register written. */
    method WriteRegister(reg: nat, value: bv8, t: Transfer) returns (ok: bool)
      requires Valid() && reg < REG_COUNT
      modifies this`regs
      ensures Valid()
      ensures ok == (t.status == 0)
      ensures regs == WriteStep(old(regs), reg, value, t)
    {
      if t.status != 0 {
        return false;
      }
      regs := regs[reg := value];
      return true;
    }

    /**
     * `rak1904_readRegister`: on a failed address phase returns false and
     * leaves the output as it was; otherwise stores the last byte received.
     */
    method ReadRegister(output: bv8, reg: nat, t: Transfer) returns (ok: bool, value: bv8)
      requires Valid() && reg < REG_COUNT
      ensures ok == (t.status == 0)
      ensures !ok ==> value == output
      ensures ok ==> value == LastByte(Received(regs, reg, t), t.indeterminate)
      ensures value == ReadStep(regs, reg, output, t)
    {
      if t.status != 0 {
        return false, output;
      }
      var received := Received(regs, reg, t);
      var result := t.indeterminate;
      var i := 0;
      while i < |received|
        invariant 0 <= i <= |received|
        invariant result == LastByte(received[..i], t.indeterminate)
      {
        result := received[i];
        i := i + 1;
      }
      assert received[..i] == received;
      return true, result;
    }

    /** Lines 115-142: interrupt generator 1 and the CTRL_REG5 latch. */
    method ConfigureInterrupt(bus: seq<Transfer>, threshold: bv8)
      requires Valid() && |bus| == INIT_TRANSFERS
      modifies this`regs
      ensures Valid() && regs == InterruptRegs(old(regs), bus, threshold)
    {
      var data: bv8 := 0;
      data := data | 0x20;
      data := data | 0x08;
      data := data | 0x02;
      var _ := WriteRegister(INT1CFG, data, bus[0]);
      data := threshold;
      var _ := WriteRegister(INT1THS, data, bus[1]);
      data := 0;
      data := data | 0x01;
      var _ := WriteRegister(INT1DUR, data, bus[2]);
      var _, read := ReadRegister(data, CTRL5, bus[3]);
      data := read & 0xF3;
      data := data | 0x08;
      var _ := WriteRegister(CTRL5, data, bus[4]);
    }

    /** Lines 144-154: interrupt on pin 1 only, high-pass filter on. */
    method ConfigurePins(bus: seq<Transfer>)
      requires Valid() && |bus| == INIT_TRANSFERS
      modifies this`regs
      ensures Valid() && regs == PinRegs(old(regs), bus)
    {
      var data: bv8 := 0;
      data := data | 0x40;
      data := data | 0x20;
      var _ := WriteRegister(CTRL3, data, bus[5]);
      var _ := WriteRegister(CTRL6, 0x00, bus[6]);
      var _ := WriteRegister(CTRL2, 0x01, bus[7]);
    }

    /** Lines 156-166: low-power mode and CTRL_REG0. */
    method ConfigurePower(bus: seq<Transfer>)
      requires Valid() && |bus| == INIT_TRANSFERS
      modifies this`regs
      ensures Valid() && regs == PowerRegs(old(regs), bus)
    {
      var _, data := ReadRegister(0, CTRL1, bus[8]);
      data := data | 0x08;
      var _ := WriteRegister(CTRL1, data, bus[9]);
      var _, data0 := ReadRegister(0, CTRL0, bus[10]);
      data0 := data0 | 0x90;
      var _ := WriteRegister(CTRL0, data0, bus[11]);
    }

    /**
     * `init_rak1904`: nothing is written when `begin()` fails; otherwise the
     * register sequence runs on what the library's setup left, with the
     * threshold chosen by the assignment in the `if`, the GNSS format is
     * overwritten with 2, and `last_trigger` becomes the current time. The
     * results of the register accesses are not looked at.
     */
    method Init(beginOk: bool, lib: seq<bv8>, bus: seq<Transfer>, now: U32, at: CustomAt.AtSettings) returns (ok: bool)
      requires Valid() && |lib| == REG_COUNT && |bus| == INIT_TRANSFERS
      modifies this`regs, this`lastTrigger, at`gnssFormat
      ensures Valid()
      ensures ok == beginOk
      ensures !ok ==> regs == old(regs) && lastTrigger == old(lastTrigger) && at.gnssFormat == old(at.gnssFormat)
      ensures ok ==> regs == Configured(lib, bus, AsWrittenThreshold(old(at.gnssFormat)).0)
      ensures ok ==> at.gnssFormat == AsWrittenThreshold(old(at.gnssFormat)).1 && lastTrigger == now
    {
      if !beginOk {
        return false;
      }
      regs := lib;
      at.gnssFormat := HELIUM_MAPPER;
      var threshold: bv8 := 0;
      if at.gnssFormat != 0 {
        threshold := threshold | 0x03;
      } else {
        threshold := threshold | 0x10;
      }
      ConfigureInterrupt(bus, threshold);
      ConfigurePins(bus);
      ConfigurePower(bus);
      lastTrigger := now;
      return true;
    }

    /**
     * The debounce of `int_callback_rak1904`: an accepted interrupt sets
     * `motion_detected` and moves `last_trigger` to now; a rejected one
     * clears `motion_detected` and keeps `last_trigger`.
     */
    method Callback(now: U32, repeatTime: U32, gnssActive: bool)
      modifies this`motionDetected, this`lastTrigger
      ensures motionDetected == MotionAccepted(now, old(lastTrigger), repeatTime, gnssActive)
      ensures lastTrigger == if motionDetected then now else old(lastTrigger)
    {
      if now - lastTrigger > repeatTime / 2 && !gnssActive {
        motionDetected := true;
        lastTrigger := now;
      } else {
        motionDetected := false;
      }
    }
  }
}
