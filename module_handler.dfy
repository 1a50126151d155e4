/**
 * Module discovery and dispatch (module_handler.cpp): the catalog of
 * supported WisBlock modules, the I2C scan that marks catalog slots as found,
 * the init cascade that clears the flag of every module whose init fails, and
 * the fixed-order read cycle over the flags.
 *
 * Bus transactions and driver init routines are oracles: the scan is given
 * the set of addresses that ACK, and the cascade the set of slot ids whose
 * init routine succeeds (`init_rak1905` is keyed by MPU_ID and
 * `init_rak12040` by TEMP_ARR_ID).
 */
module ModuleHandler {
  import opened Common
  import Rak15001Flash

  const SLOT_COUNT: nat := 35

  /** I2C address of every catalog slot, by slot index (`found_sensors`). */
  const CATALOG: seq<int> := [
    0x18, 0x44, 0x42, 0x5c, 0x70, 0x76, 0x20, 0x10, 0x51, 0x50,
    0x50, 0x55, 0x29, 0x52, 0x04, 0x59, 0x68, 0x73, 0x3C, 0x53,
    0x28, 0x41, 0x68, 0x61, 0x3A, 0x68, 0x57, 0x54, 0x47, 0x38,
    0x5F, 0x61, 0x59, 0x59, 0x20]

  // Slot ids, as the catalog comments place the modules.
  const ACC_ID: nat := 0
  const LIGHT_ID: nat := 1
  const GNSS_ID: nat := 2
  const PRESS_ID: nat := 3
  const TEMP_ID: nat := 4
  const ENV_ID: nat := 5
  const LIGHT2_ID: nat := 7
  const MQ2_ID: nat := 8
  const EEPROM_ID: nat := 9
  const TOF_ID: nat := 12
  const RTC_ID: nat := 13
  const VOC_ID: nat := 15
  const GYRO_ID: nat := 16
  const OLED_ID: nat := 18
  const UVL_ID: nat := 19
  const MPU_ID: nat := 22
  const CO2_ID: nat := 23
  const FIR_ID: nat := 24
  const TEMP_ARR_ID: nat := 25

  /** The address whose ACK also marks the slot after its own. */
  const RTC_ADDR: int := 0x52

  /** Modules whose flag is simply cleared when their own init fails. */
  const PLAIN_GATED: set<nat> :=
    {TEMP_ID, PRESS_ID, LIGHT_ID, ACC_ID, ENV_ID, OLED_ID, FIR_ID, LIGHT2_ID, TOF_ID, CO2_ID, VOC_ID, GNSS_ID}

  /** The order in which `get_sensor_values` visits the flags. */
  const DISPATCH_ORDER: seq<nat> :=
    [TEMP_ID, PRESS_ID, LIGHT_ID, ACC_ID, MPU_ID, ENV_ID, FIR_ID, LIGHT2_ID,
     RTC_ID, TOF_ID, UVL_ID, CO2_ID, TEMP_ARR_ID, VOC_ID]

  /** One catalog entry (`sensors_t`): address, bus number, found flag. */
  datatype Slot = Slot(i2cAddr: int, i2cNum: int, found: bool)

  /** A driver entry point called by the read cycle. */
  datatype DriverCall = Start(slot: nat) | Read(slot: nat)

  /** Slot `i` is the lowest-index slot that carries its address. */
  ghost predicate IsFirst(i: nat)
    requires i < SLOT_COUNT
  {
    forall j :: 0 <= j < i ==> CATALOG[j] != CATALOG[i]
  }

  /** A slot whose address is absent from the slots before it is the first with that address. */
  lemma FirstByPrefix(i: nat)
    requires i < SLOT_COUNT && CATALOG[i] !in CATALOG[..i]
    ensures IsFirst(i)
  {
    forall j | 0 <= j < i
      ensures CATALOG[j] != CATALOG[i]
    {
      assert CATALOG[j] == CATALOG[..i][j];
    }
  }

  /**
   * Slot `i` is marked by a scan whose ACKs below address `bound` are `acks`:
   * either its own address ACKed and it is the first slot with that address,
   * or it directly follows the first 0x52 slot and 0x52 ACKed.
   */
  ghost predicate HitBelow(i: nat, acks: set<int>, bound: int)
    requires i < SLOT_COUNT
  {
    || (CATALOG[i] in acks && 1 <= CATALOG[i] < bound && IsFirst(i))
    || (0 < i && CATALOG[i - 1] == RTC_ADDR && IsFirst(i - 1) && RTC_ADDR in acks && RTC_ADDR < bound)
  }

  /** Slot `i` is marked by the full sweep over addresses 1..126. */
  ghost predicate Hit(i: nat, acks: set<int>)
    requires i < SLOT_COUNT
  {
    HitBelow(i, acks, 127)
  }

  /** Number of ACKing addresses in 1..hi-1 (the scan's `num_dev`). */
  function AckCount(acks: set<int>, hi: int): nat
    decreases hi
  {
    if hi <= 1 then 0 else AckCount(acks, hi - 1) + (if hi - 1 in acks then 1 else 0)
  }

  lemma {:induction false} AckCountZero(acks: set<int>, hi: int)
    ensures AckCount(acks, hi) == 0 <==> forall a :: 1 <= a < hi ==> a !in acks
    decreases hi
  {
    if hi > 1 {
      AckCountZero(acks, hi - 1);
      if AckCount(acks, hi) == 0 {
        assert hi - 1 !in acks;
      }
    }
  }

  lemma {:induction false} AckCountBound(acks: set<int>, hi: int)
    ensures AckCount(acks, hi) <= if hi <= 1 then 0 else hi - 1
    decreases hi
  {
    if hi > 1 {
      AckCountBound(acks, hi - 1);
    }
  }

  /** The flag each slot holds right after the scan, from the flags before it. */
  ghost function ScannedFlags(before: seq<bool>, acks: set<int>): (s: seq<bool>)
    requires |before| == SLOT_COUNT
    ensures |s| == SLOT_COUNT
  {
    seq(SLOT_COUNT, i requires 0 <= i < SLOT_COUNT => before[i] || Hit(i, acks))
  }

  /**
   * The flag of slot `i` after the init cascade, given the scanned flags `s`
   * and the slots whose init succeeds, stated slot by slot.
   */
  ghost function CascadeFlag(s: seq<bool>, ok: set<nat>, i: nat): bool
    requires |s| == SLOT_COUNT && i < SLOT_COUNT
  {
    var eepromTaken := s[EEPROM_ID] && EEPROM_ID in ok;
    if i == EEPROM_ID then eepromTaken
    else if i == MQ2_ID then s[MQ2_ID] && !eepromTaken
    else if i == RTC_ID || i == UVL_ID then s[i] && !eepromTaken && i in ok
    else if i == GYRO_ID then false
    else if i == MPU_ID then (if s[GYRO_ID] then MPU_ID in ok else s[MPU_ID])
    else if i == TEMP_ARR_ID then (if s[GYRO_ID] && MPU_ID !in ok then TEMP_ARR_ID in ok else s[TEMP_ARR_ID])
    else if i in PLAIN_GATED then s[i] && i in ok
    else s[i]
  }

  /** The flags and the init calls made so far, as the cascade proceeds. */
  datatype CascadeState = CascadeState(flags: seq<bool>, calls: seq<nat>)

  /** The modules initialised between the EEPROM and the GYRO chain, in order. */
  const HEAD_GATES: seq<nat> := [TEMP_ID, PRESS_ID, LIGHT_ID, ACC_ID]

  /** The modules initialised after the GYRO chain, in order, in two runs of five. */
  const TAIL_FIRST: seq<nat> := [ENV_ID, OLED_ID, RTC_ID, FIR_ID, LIGHT2_ID]
  const TAIL_SECOND: seq<nat> := [TOF_ID, UVL_ID, CO2_ID, VOC_ID, GNSS_ID]
  const TAIL_GATES: seq<nat> := TAIL_FIRST + TAIL_SECOND

  /** The EEPROM block: a working RAK15000 shadows the MQ2, RTC and UVL slots. */
  function EepromStep(st: CascadeState, ok: set<nat>): (r: CascadeState)
    requires |st.flags| == SLOT_COUNT
    ensures |r.flags| == SLOT_COUNT
  {
    if !st.flags[EEPROM_ID] then st
    else if EEPROM_ID !in ok then CascadeState(st.flags[EEPROM_ID := false], st.calls + [EEPROM_ID])
    else CascadeState(st.flags[MQ2_ID := false][RTC_ID := false][UVL_ID := false], st.calls + [EEPROM_ID])
  }

  /** A plain block: a flagged module's init is called and its flag kept only on success. */
  function GateStep(st: CascadeState, i: nat, ok: set<nat>): (r: CascadeState)
    requires |st.flags| == SLOT_COUNT && i < SLOT_COUNT
    ensures |r.flags| == SLOT_COUNT
  {
    if st.flags[i] then CascadeState(st.flags[i := i in ok], st.calls + [i]) else st
  }

  /** The GYRO block: the GYRO flag is dropped, the MPU init tried, and on its failure the temperature-array init. */
  function GyroStep(st: CascadeState, ok: set<nat>): (r: CascadeState)
    requires |st.flags| == SLOT_COUNT
    ensures |r.flags| == SLOT_COUNT
  {
    if !st.flags[GYRO_ID] then st
    else if MPU_ID in ok then CascadeState(st.flags[GYRO_ID := false][MPU_ID := true], st.calls + [MPU_ID])
    else CascadeState(st.flags[GYRO_ID := false][MPU_ID := false][TEMP_ARR_ID := TEMP_ARR_ID in ok], st.calls + [MPU_ID, TEMP_ARR_ID])
  }

  /** Slot ids, all within the catalog. */
  ghost predicate SlotIds(ids: seq<nat>)
  {
    forall k :: 0 <= k < |ids| ==> ids[k] < SLOT_COUNT
  }

  /** Plain blocks for `ids`, one after the other. */
  function GateAll(st: CascadeState, ids: seq<nat>, ok: set<nat>): (r: CascadeState)
    requires |st.flags| == SLOT_COUNT && SlotIds(ids)
    ensures |r.flags| == SLOT_COUNT
    decreases |ids|
  {
    if ids == [] then st else GateStep(GateAll(st, ids[..|ids| - 1], ok), ids[|ids| - 1], ok)
  }

  /** The entries of `ids` whose flag is set, in order. */
  function Flagged(ids: seq<nat>, f: seq<bool>): (r: seq<nat>)
    requires |f| == SLOT_COUNT && SlotIds(ids)
    ensures |r| <= |ids|
    decreases |ids|
  {
    if ids == [] then [] else Flagged(ids[..|ids| - 1], f) + (if f[ids[|ids| - 1]] then [ids[|ids| - 1]] else [])
  }

  /** The order in which `find_modules` calls the init routines, keyed by slot id. */
  const INIT_ORDER: seq<nat> :=
    [EEPROM_ID, TEMP_ID, PRESS_ID, LIGHT_ID, ACC_ID, MPU_ID, TEMP_ARR_ID, ENV_ID, OLED_ID,
     RTC_ID, FIR_ID, LIGHT2_ID, TOF_ID, UVL_ID, CO2_ID, VOC_ID, GNSS_ID]

  /**
   * Whether the cascade calls slot `i`'s init routine, from the scanned flags
   * `s`: a flagged module's routine is called, except that a working EEPROM
   * suppresses the RTC and UVL ones; the MPU routine is called for a flagged
   * GYRO slot, and the temperature-array one when that fails.
   */
  ghost function InitCalled(s: seq<bool>, ok: set<nat>): (c: seq<bool>)
    requires |s| == SLOT_COUNT
    ensures |c| == SLOT_COUNT
  {
    var eepromTaken := s[EEPROM_ID] && EEPROM_ID in ok;
    seq(SLOT_COUNT, i requires 0 <= i < SLOT_COUNT =>
      if i == MPU_ID then s[GYRO_ID]
      else if i == TEMP_ARR_ID then s[GYRO_ID] && MPU_ID !in ok
      else if i == RTC_ID || i == UVL_ID then s[i] && !eepromTaken
      else s[i])
  }

  /** The init routines the cascade calls, in call order, keyed by slot id. */
  ghost function InitCalls(s: seq<bool>, ok: set<nat>): seq<nat>
    requires |s| == SLOT_COUNT
  {
    Flagged(INIT_ORDER, InitCalled(s, ok))
  }

  /** The whole cascade from the scanned flags `s`, block by block. */
  function CascadeOf(s: seq<bool>, ok: set<nat>): (r: CascadeState)
    requires |s| == SLOT_COUNT
    ensures |r.flags| == SLOT_COUNT
  {
    GateAll(GyroStep(GateAll(EepromStep(CascadeState(s, []), ok), HEAD_GATES, ok), ok), TAIL_GATES, ok)
  }

  /** `ids` has no repeated entry. */
  ghost predicate Distinct(ids: seq<nat>)
  {
    forall a, b :: 0 <= a < b < |ids| ==> ids[a] != ids[b]
  }

  /**
   * Plain blocks over distinct ids call exactly the flagged ones, in order,
   * and keep each such flag only when its init succeeds; other flags are
   * untouched.
   */
  lemma {:induction false} GateAllEffect(st: CascadeState, ids: seq<nat>, ok: set<nat>)
    requires |st.flags| == SLOT_COUNT && SlotIds(ids) && Distinct(ids)
    ensures var r := GateAll(st, ids, ok);
      && r.calls == st.calls + Flagged(ids, st.flags)
      && forall j :: 0 <= j < SLOT_COUNT ==> r.flags[j] == if j in ids then st.flags[j] && j in ok else st.flags[j]
    decreases |ids|
  {
    if ids != [] {
      var init := ids[..|ids| - 1];
      var last := ids[|ids| - 1];
      GateAllEffect(st, init, ok);
      assert last !in init;
      forall j | 0 <= j < SLOT_COUNT
        ensures (j in ids) == (j in init || j == last)
      {
        assert ids == init + [last];
      }
    }
  }

  /** Plain blocks for the first `k + 1` ids are those for the first `k`, then one for `ids[k]`. */
  lemma GateAllSnoc(st: CascadeState, ids: seq<nat>, k: nat, ok: set<nat>)
    requires |st.flags| == SLOT_COUNT && SlotIds(ids) && k < |ids|
    ensures SlotIds(ids[..k]) && SlotIds(ids[..k + 1])
    ensures GateAll(st, ids[..k + 1], ok) == GateStep(GateAll(st, ids[..k], ok), ids[k], ok)
  {
    assert ids[..k + 1][..k] == ids[..k];
  }

  /** Plain blocks for `a + b` are those for `a`, then those for `b`. */
  lemma {:induction false} GateAllAppend(st: CascadeState, a: seq<nat>, b: seq<nat>, ok: set<nat>)
    requires |st.flags| == SLOT_COUNT && SlotIds(a) && SlotIds(b)
    ensures SlotIds(a + b) && GateAll(st, a + b, ok) == GateAll(GateAll(st, a, ok), b, ok)
    decreases |b|
  {
    assert SlotIds(a + b);
    if b != [] {
      assert (a + b)[..|a + b| - 1] == a + b[..|b| - 1];
      GateAllAppend(st, a, b[..|b| - 1], ok);
    } else {
      assert a + b == a;
    }
  }

  /** Flagged distributes over concatenation. */
  lemma {:induction false} FlaggedAppend(a: seq<nat>, b: seq<nat>, f: seq<bool>)
    requires |f| == SLOT_COUNT && SlotIds(a) && SlotIds(b)
    ensures SlotIds(a + b) && Flagged(a + b, f) == Flagged(a, f) + Flagged(b, f)
    decreases |b|
  {
    assert SlotIds(a + b);
    if b != [] {
      var init := b[..|b| - 1];
      assert (a + b)[..|a + b| - 1] == a + init;
      FlaggedAppend(a, init, f);
    } else {
      assert a + b == a;
    }
  }

  /** The cascade, block by block, leaves every flag as CascadeFlag describes it. */
  lemma CascadeFlagsMeaning(s: seq<bool>, ok: set<nat>, i: nat)
    requires |s| == SLOT_COUNT && i < SLOT_COUNT
    ensures CascadeOf(s, ok).flags[i] == CascadeFlag(s, ok, i)
  {
    var st1 := EepromStep(CascadeState(s, []), ok);
    var st2 := GateAll(st1, HEAD_GATES, ok);
    var st3 := GyroStep(st2, ok);
    var st4 := GateAll(st3, TAIL_GATES, ok);
    GateSlot(st1, HEAD_GATES, ok, i);
    GateSlot(st1, HEAD_GATES, ok, GYRO_ID);
    GateSlot(st1, HEAD_GATES, ok, MPU_ID);
    GateSlot(st1, HEAD_GATES, ok, TEMP_ARR_ID);
    GateSlot(st3, TAIL_GATES, ok, i);
    CascadeFlagCases(s, ok, i, st1.flags[i], st2.flags[i], st3.flags[i], st4.flags[i]);
  }

  /** GateAllEffect at one slot. */
  lemma GateSlot(st: CascadeState, ids: seq<nat>, ok: set<nat>, j: nat)
    requires |st.flags| == SLOT_COUNT && SlotIds(ids) && Distinct(ids) && j < SLOT_COUNT
    ensures GateAll(st, ids, ok).flags[j] == if j in ids then st.flags[j] && j in ok else st.flags[j]
  {
    GateAllEffect(st, ids, ok);
  }

  /** The slot-by-slot reading of the four blocks, on the values one slot goes through. */
  lemma CascadeFlagCases(s: seq<bool>, ok: set<nat>, i: nat, e: bool, h: bool, g: bool, t: bool)
    requires |s| == SLOT_COUNT && i < SLOT_COUNT
    requires e == if i == EEPROM_ID then s[i] && EEPROM_ID in ok
      else if i == MQ2_ID || i == RTC_ID || i == UVL_ID then s[i] && !(s[EEPROM_ID] && EEPROM_ID in ok)
      else s[i]
    requires h == if i in HEAD_GATES then e && i in ok else e
    requires g == if i == GYRO_ID then false
      else if i == MPU_ID && s[GYRO_ID] then MPU_ID in ok
      else if i == TEMP_ARR_ID && s[GYRO_ID] && MPU_ID !in ok then TEMP_ARR_ID in ok
      else h
    requires t == if i in TAIL_GATES then g && i in ok else g
    ensures t == CascadeFlag(s, ok, i)
  {
  }

  /** Through the head gates, the cascade calls the EEPROM and head-gate routines INIT_ORDER starts with. */
  lemma EepromHeadCalls(s: seq<bool>, ok: set<nat>)
    requires |s| == SLOT_COUNT
    ensures SlotIds([EEPROM_ID] + HEAD_GATES)
    ensures var st2 := GateAll(EepromStep(CascadeState(s, []), ok), HEAD_GATES, ok);
      && st2.calls == Flagged([EEPROM_ID] + HEAD_GATES, InitCalled(s, ok))
      && st2.flags[GYRO_ID] == s[GYRO_ID]
  {
    var c := InitCalled(s, ok);
    var st1 := EepromStep(CascadeState(s, []), ok);
    var st2 := GateAll(st1, HEAD_GATES, ok);
    assert st1.calls == Flagged([EEPROM_ID], c) by {
      FlaggedOne(EEPROM_ID, c);
    }
    assert Flagged(HEAD_GATES, st1.flags) == Flagged(HEAD_GATES, c) by {
      forall k | 0 <= k < |HEAD_GATES|
        ensures st1.flags[HEAD_GATES[k]] == c[HEAD_GATES[k]]
      {
      }
      FlaggedAgree(HEAD_GATES, st1.flags, c);
    }
    assert st2.calls == st1.calls + Flagged(HEAD_GATES, st1.flags) && st2.flags[GYRO_ID] == st1.flags[GYRO_ID] by {
      GateAllEffect(st1, HEAD_GATES, ok);
      assert GYRO_ID !in HEAD_GATES;
    }
    FlaggedAppend([EEPROM_ID], HEAD_GATES, c);
  }

  /** Up to the tail gates, the cascade calls the init routines of the first blocks of INIT_ORDER. */
  lemma HeadCallsMeaning(s: seq<bool>, ok: set<nat>)
    requires |s| == SLOT_COUNT
    ensures SlotIds([EEPROM_ID] + HEAD_GATES + [MPU_ID, TEMP_ARR_ID])
    ensures GyroStep(GateAll(EepromStep(CascadeState(s, []), ok), HEAD_GATES, ok), ok).calls
      == Flagged([EEPROM_ID] + HEAD_GATES + [MPU_ID, TEMP_ARR_ID], InitCalled(s, ok))
  {
    var c := InitCalled(s, ok);
    EepromHeadCalls(s, ok);
    FlaggedOne(MPU_ID, c);
    FlaggedOne(TEMP_ARR_ID, c);
    FlaggedAppend([MPU_ID], [TEMP_ARR_ID], c);
    assert [MPU_ID] + [TEMP_ARR_ID] == [MPU_ID, TEMP_ARR_ID];
    FlaggedAppend([EEPROM_ID] + HEAD_GATES, [MPU_ID, TEMP_ARR_ID], c);
  }

  /** The cascade, block by block, calls the init routines InitCalls lists. */
  lemma CascadeCallsMeaning(s: seq<bool>, ok: set<nat>)
    requires |s| == SLOT_COUNT
    ensures CascadeOf(s, ok).calls == InitCalls(s, ok)
  {
    var c := InitCalled(s, ok);
    var st3 := GyroStep(GateAll(EepromStep(CascadeState(s, []), ok), HEAD_GATES, ok), ok);
    HeadCallsMeaning(s, ok);
    GateAllEffect(st3, TAIL_GATES, ok);
    TailFlagsCalled(s, ok);
    FlaggedAgree(TAIL_GATES, st3.flags, c);
    InitOrderBlocks();
    FlaggedAppend([EEPROM_ID] + HEAD_GATES + [MPU_ID, TEMP_ARR_ID], TAIL_GATES, c);
  }

  /** INIT_ORDER is the EEPROM, the head gates, the GYRO chain and the tail gates. */
  lemma InitOrderBlocks()
    ensures INIT_ORDER == [EEPROM_ID] + HEAD_GATES + [MPU_ID, TEMP_ARR_ID] + TAIL_GATES
  {
  }

  /** Entering the tail gates, each tail flag says whether its init is called. */
  lemma TailFlagsCalled(s: seq<bool>, ok: set<nat>)
    requires |s| == SLOT_COUNT
    ensures var st3 := GyroStep(GateAll(EepromStep(CascadeState(s, []), ok), HEAD_GATES, ok), ok);
      forall k :: 0 <= k < |TAIL_GATES| ==> st3.flags[TAIL_GATES[k]] == InitCalled(s, ok)[TAIL_GATES[k]]
  {
    var st1 := EepromStep(CascadeState(s, []), ok);
    var st3 := GyroStep(GateAll(st1, HEAD_GATES, ok), ok);
    forall k | 0 <= k < |TAIL_GATES|
      ensures st3.flags[TAIL_GATES[k]] == InitCalled(s, ok)[TAIL_GATES[k]]
    {
      var j := TAIL_GATES[k];
      GateSlot(st1, HEAD_GATES, ok, j);
      assert j !in HEAD_GATES && j != GYRO_ID && j != MPU_ID && j != TEMP_ARR_ID;
    }
  }

  /** Flagged reads only the flags of the listed ids. */
  lemma {:induction false} FlaggedAgree(ids: seq<nat>, f: seq<bool>, g: seq<bool>)
    requires |f| == SLOT_COUNT && |g| == SLOT_COUNT && SlotIds(ids)
    requires forall k :: 0 <= k < |ids| ==> f[ids[k]] == g[ids[k]]
    ensures Flagged(ids, f) == Flagged(ids, g)
    decreases |ids|
  {
    if ids != [] {
      FlaggedAgree(ids[..|ids| - 1], f, g);
    }
  }

  /** The cascade, block by block, agrees with CascadeFlag and InitCalls. */
  lemma CascadeMeaning(s: seq<bool>, ok: set<nat>)
    requires |s| == SLOT_COUNT
    ensures CascadeOf(s, ok).calls == InitCalls(s, ok)
    ensures forall i :: 0 <= i < SLOT_COUNT ==> CascadeOf(s, ok).flags[i] == CascadeFlag(s, ok, i)
  {
    CascadeCallsMeaning(s, ok);
    forall i | 0 <= i < SLOT_COUNT
      ensures CascadeOf(s, ok).flags[i] == CascadeFlag(s, ok, i)
    {
      CascadeFlagsMeaning(s, ok, i);
    }
  }

  /** Flagged over a one-entry list. */
  lemma FlaggedOne(x: nat, f: seq<bool>)
    requires |f| == SLOT_COUNT && x < SLOT_COUNT
    ensures Flagged([x], f) == if f[x] then [x] else []
  {
    assert [x][..0] == [];
  }

  /** The driver calls made for one flagged slot by the read cycle. */
  function CallsFor(i: nat): (r: seq<DriverCall>)
    ensures i == ENV_ID ==> r == [Start(i), Read(i)]
    ensures i != ENV_ID ==> r == [Read(i)]
  {
    if i == ENV_ID then [Start(i), Read(i)] else [Read(i)]
  }

  /** The read cycle over the first `n` entries of DISPATCH_ORDER, from the flags `found`. */
  function Dispatch(found: seq<bool>, n: nat): seq<DriverCall>
    requires |found| == SLOT_COUNT && n <= |DISPATCH_ORDER|
  {
    if n == 0 then []
    else Dispatch(found, n - 1)
         + (if found[DISPATCH_ORDER[n - 1]] then CallsFor(DISPATCH_ORDER[n - 1]) else [])
  }

  /** One more entry of DISPATCH_ORDER extends the read cycle by that slot's calls, if it is flagged. */
  lemma DispatchNext(found: seq<bool>, n: nat)
    requires |found| == SLOT_COUNT && n < |DISPATCH_ORDER|
    ensures Dispatch(found, n + 1)
      == Dispatch(found, n) + (if found[DISPATCH_ORDER[n]] then CallsFor(DISPATCH_ORDER[n]) else [])
  {
  }

  /** Position of a slot in DISPATCH_ORDER (|DISPATCH_ORDER| for a slot the cycle never reads). */
  function Rank(i: nat): (r: nat)
    ensures r <= |DISPATCH_ORDER|
    ensures r < |DISPATCH_ORDER| ==> DISPATCH_ORDER[r] == i
  {
    if i == TEMP_ID then 0 else if i == PRESS_ID then 1 else if i == LIGHT_ID then 2
    else if i == ACC_ID then 3 else if i == MPU_ID then 4 else if i == ENV_ID then 5
    else if i == FIR_ID then 6 else if i == LIGHT2_ID then 7 else if i == RTC_ID then 8
    else if i == TOF_ID then 9 else if i == UVL_ID then 10 else if i == CO2_ID then 11
    else if i == TEMP_ARR_ID then 12 else if i == VOC_ID then 13 else 14
  }

  /** A slot as the scan leaves it when it marks it: bus 1, found. */
  function Mark(s: Slot): (r: Slot)
    ensures r.i2cAddr == s.i2cAddr && r.i2cNum == 1 && r.found
  {
    s.(i2cNum := 1, found := true)
  }

  /** The catalog after the sweep has handled every address below `bound`. */
  ghost function MarkedBelow(orig: seq<Slot>, acks: set<int>, bound: int): (r: seq<Slot>)
    requires |orig| == SLOT_COUNT
    ensures |r| == SLOT_COUNT
    ensures forall i :: 0 <= i < SLOT_COUNT ==> r[i].i2cAddr == orig[i].i2cAddr
  {
    seq(SLOT_COUNT, i requires 0 <= i < SLOT_COUNT => if HitBelow(i, acks, bound) then Mark(orig[i]) else orig[i])
  }

  /** An ACK at `a` whose first slot is `i` marks exactly slot `i`, and for 0x52 also slot `i + 1`. */
  lemma ScanStepMarks(orig: seq<Slot>, acks: set<int>, a: int, i: nat)
    requires |orig| == SLOT_COUNT && 1 <= a < 127 && a in acks
    requires i < SLOT_COUNT && CATALOG[i] == a && forall j :: 0 <= j < i ==> CATALOG[j] != a
    ensures a == RTC_ADDR ==> i == 13
    ensures var m := MarkedBelow(orig, acks, a);
      MarkedBelow(orig, acks, a + 1)
      == if a == RTC_ADDR then m[i := Mark(m[i])][13 + 1 := Mark(m[13 + 1])] else m[i := Mark(m[i])]
  {
    assert IsFirst(i);
    if a == RTC_ADDR {
      RtcFirstAt(i);
    }
    var m := MarkedBelow(orig, acks, a);
    var n := MarkedBelow(orig, acks, a + 1);
    forall k | 0 <= k < SLOT_COUNT
      ensures n[k] == (if a == RTC_ADDR then m[i := Mark(m[i])][13 + 1 := Mark(m[13 + 1])] else m[i := Mark(m[i])])[k]
    {
      if CATALOG[k] == a && IsFirst(k) {
        FirstUnique(i, k);
      }
      if 0 < k && CATALOG[k - 1] == RTC_ADDR && IsFirst(k - 1) {
        RtcFirstAt(k - 1);
      }
    }
  }

  /** Two first slots with the same address are the same slot. */
  lemma FirstUnique(i: nat, k: nat)
    requires i < SLOT_COUNT && k < SLOT_COUNT && CATALOG[i] == CATALOG[k] && IsFirst(i) && IsFirst(k)
    ensures i == k
  {
  }

  /** The first slot with address 0x52 is the RTC slot. */
  lemma RtcFirstAt(i: nat)
    requires i < SLOT_COUNT && CATALOG[i] == RTC_ADDR && IsFirst(i)
    ensures i == RTC_ID
  {
    FirstByPrefix(RTC_ID);
    FirstUnique(i, RTC_ID);
  }

  /** An address that did not ACK, or that no slot carries, marks nothing. */
  lemma ScanStepSkips(orig: seq<Slot>, acks: set<int>, a: int)
    requires |orig| == SLOT_COUNT && 1 <= a < 127
    requires a !in acks || forall j :: 0 <= j < SLOT_COUNT ==> CATALOG[j] != a
    ensures MarkedBelow(orig, acks, a + 1) == MarkedBelow(orig, acks, a)
  {
    assert CATALOG[13] == RTC_ADDR;
  }

  /**
   * What the sweep marks: exactly the first slot of every ACKing address,
   * plus slot 14, the slot after the 0x52 slot, when 0x52 ACKs.
   */
  lemma HitExactly(i: nat, acks: set<int>)
    requires i < SLOT_COUNT
    ensures Hit(i, acks) <==> (IsFirst(i) && CATALOG[i] in acks) || (i == RTC_ID + 1 && RTC_ADDR in acks)
  {
    FirstByPrefix(RTC_ID);
    assert forall j :: 0 <= j < SLOT_COUNT ==> 1 <= CATALOG[j] < 127;
    assert 0 < i && CATALOG[i - 1] == RTC_ADDR ==> i - 1 == RTC_ID;
  }

  /** Slots whose address also sits at a lower index are never marked by the sweep. */
  lemma ShadowedSlotsNeverScanned(acks: set<int>)
    ensures forall i :: i in {10, 22, 25, 31, 32, 33, 34} ==> !Hit(i, acks)
  {
    assert CATALOG[9] == CATALOG[10];
    assert CATALOG[16] == CATALOG[22] && CATALOG[16] == CATALOG[25];
    assert CATALOG[23] == CATALOG[31];
    assert CATALOG[15] == CATALOG[32] && CATALOG[15] == CATALOG[33];
    assert CATALOG[6] == CATALOG[34];
    forall i | i in {10, 22, 25, 31, 32, 33, 34}
      ensures !Hit(i, acks)
    {
      assert !IsFirst(i);
      assert CATALOG[i - 1] != RTC_ADDR;
    }
  }

  /** An ACK at 0x52 marks the RTC slot and the slot after it. */
  lemma RtcAckMarksTwo(acks: set<int>)
    requires RTC_ADDR in acks
    ensures Hit(RTC_ID, acks) && Hit(RTC_ID + 1, acks)
  {
    HitExactly(RTC_ID, acks);
    HitExactly(RTC_ID + 1, acks);
  }

  /** An id is flagged in the list iff it is listed and its flag is set. */
  lemma {:induction false} FlaggedMembers(ids: seq<nat>, f: seq<bool>, x: nat)
    requires |f| == SLOT_COUNT && SlotIds(ids)
    ensures x in Flagged(ids, f) <==> x in ids && f[x]
    decreases |ids|
  {
    if ids != [] {
      var init := ids[..|ids| - 1];
      FlaggedMembers(init, f, x);
      assert ids == init + [ids[|ids| - 1]];
    }
  }

  /**
   * A working EEPROM ends with the MQ2, RTC and UVL flags cleared, and the
   * RTC and UVL init routines are never called; a failed one clears only its
   * own flag.
   */
  lemma EepromOverride(s: seq<bool>, ok: set<nat>)
    requires |s| == SLOT_COUNT && s[EEPROM_ID]
    ensures EEPROM_ID in ok ==>
      && !CascadeFlag(s, ok, MQ2_ID) && !CascadeFlag(s, ok, RTC_ID) && !CascadeFlag(s, ok, UVL_ID)
      && RTC_ID !in InitCalls(s, ok) && UVL_ID !in InitCalls(s, ok)
    ensures EEPROM_ID !in ok ==>
      && !CascadeFlag(s, ok, EEPROM_ID)
      && CascadeFlag(s, ok, MQ2_ID) == s[MQ2_ID]
      && (RTC_ID in InitCalls(s, ok) <==> s[RTC_ID])
      && (UVL_ID in InitCalls(s, ok) <==> s[UVL_ID])
    ensures EEPROM_ID in InitCalls(s, ok)
  {
    InitCallsMember(s, ok, RTC_ID, 9);
    InitCallsMember(s, ok, UVL_ID, 13);
    InitCallsMember(s, ok, EEPROM_ID, 0);
  }

  /** A routine INIT_ORDER lists is called iff InitCalled says so. */
  lemma InitCallsMember(s: seq<bool>, ok: set<nat>, x: nat, k: nat)
    requires |s| == SLOT_COUNT && k < |INIT_ORDER| && INIT_ORDER[k] == x
    ensures x in InitCalls(s, ok) <==> InitCalled(s, ok)[x]
  {
    InitOrderBlocks();
    assert SlotIds(INIT_ORDER);
    FlaggedMembers(INIT_ORDER, InitCalled(s, ok), x);
  }

  /**
   * The 0x68 arbitration from a catalog with no flag set: the GYRO slot ends
   * cleared, the MPU flag is the RAK1905 result, the temperature-array flag is
   * the RAK12040 result only when the RAK1905 failed, so at most one of the two
   * ends set, and the RAK12040 routine is called only after a RAK1905 failure.
   */
  lemma GyroArbitration(acks: set<int>, ok: set<nat>)
    ensures var s := ScannedFlags(seq(SLOT_COUNT, _ => false), acks);
      && !CascadeFlag(s, ok, GYRO_ID)
      && CascadeFlag(s, ok, MPU_ID) == (0x68 in acks && MPU_ID in ok)
      && CascadeFlag(s, ok, TEMP_ARR_ID) == (0x68 in acks && MPU_ID !in ok && TEMP_ARR_ID in ok)
      && !(CascadeFlag(s, ok, MPU_ID) && CascadeFlag(s, ok, TEMP_ARR_ID))
      && (TEMP_ARR_ID in InitCalls(s, ok) <==> 0x68 in acks && MPU_ID !in ok)
  {
    var s := ScannedFlags(seq(SLOT_COUNT, _ => false), acks);
    ShadowedSlotsNeverScanned(acks);
    HitExactly(GYRO_ID, acks);
    FirstByPrefix(GYRO_ID);
    assert s[GYRO_ID] == (0x68 in acks);
    assert !s[MPU_ID] && !s[TEMP_ARR_ID];
    InitCallsMember(s, ok, TEMP_ARR_ID, 6);
  }

  /** Every slot DISPATCH_ORDER lists sits at its Rank. */
  lemma RankOfOrder(k: nat)
    requires k < |DISPATCH_ORDER|
    ensures Rank(DISPATCH_ORDER[k]) == k
  {
  }

  /**
   * The read cycle over the first `n` entries calls only drivers of flagged
   * slots among those entries, starts only the RAK1906, and follows each start
   * directly by the read of the same slot.
   */
  lemma {:induction false} DispatchOnlyFlagged(found: seq<bool>, n: nat)
    requires |found| == SLOT_COUNT && n <= |DISPATCH_ORDER|
    ensures forall p :: 0 <= p < |Dispatch(found, n)| ==>
      var c := Dispatch(found, n)[p];
      c.slot < SLOT_COUNT && found[c.slot] && Rank(c.slot) < n
    ensures forall p :: 0 <= p < |Dispatch(found, n)| && Dispatch(found, n)[p].Start? ==>
      Dispatch(found, n)[p].slot == ENV_ID && p + 1 < |Dispatch(found, n)| && Dispatch(found, n)[p + 1] == Read(ENV_ID)
  {
    if n > 0 {
      DispatchOnlyFlagged(found, n - 1);
      RankOfOrder(n - 1);
      var d0 := Dispatch(found, n - 1);
      var x := DISPATCH_ORDER[n - 1];
      assert x < SLOT_COUNT && Rank(x) == n - 1;
      var c := if found[x] then CallsFor(x) else [];
      var d := Dispatch(found, n);
      assert d == d0 + c;
      forall p | 0 <= p < |d|
        ensures d[p].slot < SLOT_COUNT && found[d[p].slot] && Rank(d[p].slot) < n
        ensures d[p].Start? ==> d[p].slot == ENV_ID && p + 1 < |d| && d[p + 1] == Read(ENV_ID)
      {
        if p < |d0| {
          assert d[p] == d0[p];
          assert p + 1 < |d0| ==> d[p + 1] == d0[p + 1];
        } else {
          assert c != [] && d[p] == c[p - |d0|];
        }
      }
    }
  }

  /** Every flagged slot among the first `n` entries has its driver read. */
  lemma {:induction false} DispatchComplete(found: seq<bool>, n: nat, k: nat)
    requires |found| == SLOT_COUNT && k < n <= |DISPATCH_ORDER| && found[DISPATCH_ORDER[k]]
    ensures Read(DISPATCH_ORDER[k]) in Dispatch(found, n)
  {
    if k < n - 1 {
      DispatchComplete(found, n - 1, k);
    }
  }

  /** The read cycle calls the drivers in DISPATCH_ORDER. */
  lemma {:induction false} DispatchOrdered(found: seq<bool>, n: nat)
    requires |found| == SLOT_COUNT && n <= |DISPATCH_ORDER|
    ensures forall p, q :: 0 <= p < q < |Dispatch(found, n)| ==>
      Rank(Dispatch(found, n)[p].slot) <= Rank(Dispatch(found, n)[q].slot)
  {
    if n > 0 {
      DispatchOrdered(found, n - 1);
      DispatchOnlyFlagged(found, n - 1);
      RankOfOrder(n - 1);
      var d0 := Dispatch(found, n - 1);
      var x := DISPATCH_ORDER[n - 1];
      assert x < SLOT_COUNT && Rank(x) == n - 1;
      var c := if found[x] then CallsFor(x) else [];
      var d := Dispatch(found, n);
      assert d == d0 + c;
      assert forall p :: |d0| <= p < |d| ==> d[p].slot == x;
      forall p, q | 0 <= p < q < |d|
        ensures Rank(d[p].slot) <= Rank(d[q].slot)
      {
        if q < |d0| {
          assert d[p] == d0[p] && d[q] == d0[q];
        } else if p < |d0| {
          assert d[p] == d0[p];
        }
      }
    }
  }

  /** Entries whose flag is clear add nothing to the read cycle. */
  lemma {:induction false} DispatchSkips(found: seq<bool>, m: nat, n: nat)
    requires |found| == SLOT_COUNT && m <= n <= |DISPATCH_ORDER|
    requires forall k :: m <= k < n ==> !found[DISPATCH_ORDER[k]]
    ensures Dispatch(found, n) == Dispatch(found, m)
    decreases n
  {
    if m < n {
      DispatchSkips(found, m, n - 1);
    }
  }

  /**
   * A weather node with a RAK1901 (0x70) and a RAK1906 (0x76) on a fresh
   * catalog, every init succeeding: the scan marks exactly those two slots and
   * both stay flagged through the cascade. An illustration on one concrete
   * bus, derived from HitExactly and CascadeFlag; it adds no coverage.
   */
  lemma WeatherNodeScan(ok: set<nat>)
    requires TEMP_ID in ok && ENV_ID in ok
    ensures var s := ScannedFlags(seq(SLOT_COUNT, _ => false), {0x70, 0x76});
      forall i :: 0 <= i < SLOT_COUNT ==> s[i] == (i == TEMP_ID || i == ENV_ID) && CascadeFlag(s, ok, i) == s[i]
  {
    var s := ScannedFlags(seq(SLOT_COUNT, _ => false), {0x70, 0x76});
    WeatherNodeFlags();
    var w := seq(SLOT_COUNT, i => i == TEMP_ID || i == ENV_ID);
    assert s == w;
    forall i | 0 <= i < SLOT_COUNT
      ensures CascadeFlag(w, ok, i) == w[i]
    {
    }
  }

  /** The sweep over the weather node's ACKs marks exactly the RAK1901 and RAK1906 slots. */
  lemma WeatherNodeFlags()
    ensures ScannedFlags(seq(SLOT_COUNT, _ => false), {0x70, 0x76}) == seq(SLOT_COUNT, i => i == TEMP_ID || i == ENV_ID)
  {
    var acks: set<int> := {0x70, 0x76};
    var s := ScannedFlags(seq(SLOT_COUNT, _ => false), acks);
    FirstByPrefix(TEMP_ID);
    FirstByPrefix(ENV_ID);
    forall i | 0 <= i < SLOT_COUNT
      ensures s[i] == (i == TEMP_ID || i == ENV_ID)
    {
      HitExactly(i, acks);
    }
  }

  /**
   * With only the RAK1901 and RAK1906 flagged, the read cycle reads the first,
   * then starts and reads the second. An illustration of the Dispatch lemmas
   * on one concrete set of flags; it adds no coverage.
   */
  lemma WeatherNodeDispatch()
    ensures Dispatch(seq(SLOT_COUNT, i => i == TEMP_ID || i == ENV_ID), |DISPATCH_ORDER|)
      == [Read(TEMP_ID), Start(ENV_ID), Read(ENV_ID)]
  {
    var f := seq(SLOT_COUNT, i => i == TEMP_ID || i == ENV_ID);
    DispatchNext(f, 0);
    DispatchSkips(f, 1, 5);
    DispatchNext(f, 5);
    DispatchSkips(f, 6, 14);
  }

  class Catalog {
    var slots: array<Slot>

    ghost predicate Valid()
      reads this, slots
    {
      && slots.Length == SLOT_COUNT
      && forall i :: 0 <= i < SLOT_COUNT ==> slots[i].i2cAddr == CATALOG[i]
    }

    ghost function Flags(): (f: seq<bool>)
      reads this, slots
      ensures |f| == slots.Length
    {
      seq(slots.Length, i reads this, slots requires 0 <= i < slots.Length => slots[i].found)
    }

    /** The catalog as initialised: every slot on bus 0 and not found. */
    constructor ()
      ensures Valid() && fresh(slots)
      ensures forall i :: 0 <= i < SLOT_COUNT ==> slots[i] == Slot(CATALOG[i], 0, false)
    {
      slots := new Slot[SLOT_COUNT](i requires 0 <= i < SLOT_COUNT => Slot(CATALOG[i], 0, false));
    }

    /**
     * The body of the sweep for an address that ACKed: search the catalog
     * from slot 0, mark the first slot with that address (and for 0x52 the
     * slot after it), and stop at the first match.
     */
    method MarkAck(address: int, ghost orig: seq<Slot>, ghost acks: set<int>)
      requires Valid() && |orig| == SLOT_COUNT && 1 <= address < 127 && address in acks
      requires slots[..] == MarkedBelow(orig, acks, address)
      modifies slots
      ensures Valid() && slots[..] == MarkedBelow(orig, acks, address + 1)
    {
      var i := FindSlot(address);
      if i < SLOT_COUNT {
        MarkFirst(i, address, orig, acks);
      } else {
        ScanStepSkips(orig, acks, address);
      }
    }

    /** The search in the sweep's body: the first slot with `address`, or SLOT_COUNT when no slot has it. */
    method FindSlot(address: int) returns (i: nat)
      requires Valid()
      ensures i <= SLOT_COUNT && forall j :: 0 <= j < i ==> CATALOG[j] != address
      ensures i < SLOT_COUNT ==> CATALOG[i] == address
    {
      i := 0;
      while i < SLOT_COUNT && address != slots[i].i2cAddr
        invariant 0 <= i <= SLOT_COUNT
        invariant forall j :: 0 <= j < i ==> CATALOG[j] != address
      {
        i := i + 1;
      }
    }

    /** The matching branch of the sweep: slot `i` is the first with `address`; mark it, and for 0x52 the next one. */
    method MarkFirst(i: nat, address: int, ghost orig: seq<Slot>, ghost acks: set<int>)
      requires Valid() && |orig| == SLOT_COUNT && 1 <= address < 127 && address in acks
      requires i < SLOT_COUNT && CATALOG[i] == address && forall j :: 0 <= j < i ==> CATALOG[j] != address
      requires slots[..] == MarkedBelow(orig, acks, address)
      modifies slots
      ensures Valid() && slots[..] == MarkedBelow(orig, acks, address + 1)
    {
      ScanStepMarks(orig, acks, address, i);
      ghost var m := slots[..];
      slots[i] := slots[i].(i2cNum := 1, found := true);
      assert slots[..] == m[i := Mark(m[i])];
      if address == RTC_ADDR {
        slots[i + 1] := slots[i + 1].(i2cNum := 1, found := true);
        assert slots[..] == m[i := Mark(m[i])][13 + 1 := Mark(m[13 + 1])];
      }
    }

    /**
     * The sweep of `find_modules`: probes addresses 1..126 in order and, for
     * each ACK, marks the first slot with that address (and, for 0x52, the
     * slot after it) with bus 1 and found. Returns the ACK count `num_dev`
     * and the probed addresses.
     */
    method Scan(acks: set<int>) returns (numDev: nat, probed: seq<int>)
      requires Valid()
      modifies slots
      ensures Valid()
      ensures |probed| == 126 && forall k :: 0 <= k < 126 ==> probed[k] == k + 1
      ensures numDev == AckCount(acks, 127)
      ensures slots[..] == MarkedBelow(old(slots[..]), acks, 127)
      ensures Flags() == ScannedFlags(old(Flags()), acks)
      ensures forall i :: 0 <= i < SLOT_COUNT ==> Nums()[i] == if Hit(i, acks) then 1 else old(Nums())[i]
    {
      ghost var orig := slots[..];
      numDev := 0;
      probed := [];
      var address := 1;
      while address < 127
        invariant 1 <= address <= 127
        invariant |probed| == address - 1 && forall k :: 0 <= k < address - 1 ==> probed[k] == k + 1
        invariant numDev == AckCount(acks, address)
        invariant slots[..] == MarkedBelow(orig, acks, address)
      {
        probed := probed + [address];
        if address in acks {
          MarkAck(address, orig, acks);
          numDev := numDev + 1;
        } else {
          ScanStepSkips(orig, acks, address);
        }
        address := address + 1;
      }
      assert forall i :: 0 <= i < SLOT_COUNT ==> slots[i] == slots[..][i] && old(slots[i]) == orig[i];
    }

    /** The bus number of every slot. */
    ghost function Nums(): (n: seq<int>)
      reads this, slots
      ensures |n| == slots.Length
    {
      seq(slots.Length, i reads this, slots requires 0 <= i < slots.Length => slots[i].i2cNum)
    }

    /** `found_sensors[i].found_sensor = b`. */
    method SetFound(i: nat, b: bool)
      requires Valid() && i < SLOT_COUNT
      modifies slots
      ensures Valid()
      ensures Flags() == old(Flags())[i := b] && Nums() == old(Nums())
    {
      slots[i] := slots[i].(found := b);
    }

    /** The EEPROM block of the cascade. */
    method EepromInit(initOk: set<nat>, calls: seq<nat>) returns (calls': seq<nat>)
      requires Valid()
      modifies slots
      ensures Valid() && Nums() == old(Nums())
      ensures CascadeState(Flags(), calls') == EepromStep(CascadeState(old(Flags()), calls), initOk)
    {
      calls' := calls;
      if slots[EEPROM_ID].found {
        calls' := calls' + [EEPROM_ID];
        if EEPROM_ID !in initOk {
          SetFound(EEPROM_ID, false);
        } else {
          SetFound(MQ2_ID, false);
          SetFound(RTC_ID, false);
          SetFound(UVL_ID, false);
        }
      }
    }

    /**
     * One plain block of the cascade: the init routine of a flagged module is
     * called, and its flag cleared when the routine fails.
     */
    method Gate(i: nat, initOk: set<nat>, calls: seq<nat>) returns (calls': seq<nat>)
      requires Valid() && i < SLOT_COUNT
      modifies slots
      ensures Valid() && Nums() == old(Nums())
      ensures CascadeState(Flags(), calls') == GateStep(CascadeState(old(Flags()), calls), i, initOk)
    {
      calls' := calls;
      if slots[i].found {
        calls' := calls' + [i];
        if i !in initOk {
          SetFound(i, false);
        } else {
          assert Flags() == old(Flags())[i := true];
        }
      }
    }

    /** The GYRO block: drop the GYRO flag, try the MPU, and on its failure the temperature array. */
    method GyroInit(initOk: set<nat>, calls: seq<nat>) returns (calls': seq<nat>)
      requires Valid()
      modifies slots
      ensures Valid() && Nums() == old(Nums())
      ensures CascadeState(Flags(), calls') == GyroStep(CascadeState(old(Flags()), calls), initOk)
    {
      calls' := calls;
      if slots[GYRO_ID].found {
        SetFound(GYRO_ID, false);
        calls' := calls' + [MPU_ID];
        if MPU_ID !in initOk {
          SetFound(MPU_ID, false);
          calls' := calls' + [TEMP_ARR_ID];
          SetFound(TEMP_ARR_ID, TEMP_ARR_ID in initOk);
        } else {
          SetFound(MPU_ID, true);
        }
      }
    }

    /** Clears every found flag, as `find_modules` does when no address ACKed. */
    method ClearAll()
      requires Valid()
      modifies slots
      ensures Valid() && Nums() == old(Nums())
      ensures forall j :: 0 <= j < SLOT_COUNT ==> !Flags()[j]
    {
      var i := 0;
      while i < SLOT_COUNT
        invariant 0 <= i <= SLOT_COUNT && Valid()
        invariant forall j :: 0 <= j < i ==> !Flags()[j]
        invariant Nums() == old(Nums())
      {
        SetFound(i, false);
        i := i + 1;
      }
    }

    /**
     * `find_modules`: the sweep, the call to `init_rak15001`, then either
     * clearing every flag (no address ACKed) or the init cascade. `initOk`
     * holds the slots whose init routine succeeds; `initCalls` lists the
     * init routines called, by slot id, in call order.
     */
    method FindModules(acks: set<int>, initOk: set<nat>, flash: Rak15001Flash.Rak15001, flashBegin: bool, flashReady: bool)
      returns (numDev: nat, probed: seq<int>, initCalls: seq<nat>)
      requires Valid()
      modifies slots, flash`hasRak15001
      ensures Valid()
      ensures |probed| == 126 && forall k :: 0 <= k < 126 ==> probed[k] == k + 1
      ensures numDev == AckCount(acks, 127)
      ensures flash.hasRak15001 == ((flashBegin && flashReady) || old(flash.hasRak15001))
      ensures forall i :: 0 <= i < SLOT_COUNT ==> Nums()[i] == if Hit(i, acks) then 1 else old(Nums())[i]
      ensures numDev == 0 ==> initCalls == [] && forall i :: 0 <= i < SLOT_COUNT ==> !Flags()[i]
      ensures numDev > 0 ==>
        var s := ScannedFlags(old(Flags()), acks);
        && initCalls == InitCalls(s, initOk)
        && forall i :: 0 <= i < SLOT_COUNT ==> Flags()[i] == CascadeFlag(s, initOk, i)
    {
      numDev, probed := Scan(acks);
      ghost var s := Flags();
      var _ := flash.Init(flashBegin, flashReady);
      initCalls := [];
      if numDev == 0 {
        ClearAll();
        return;
      }
      initCalls := Cascade(initOk);
      CascadeMeaning(s, initOk);
    }

    /**
     * The init cascade of `find_modules`: the EEPROM block, the plain blocks
     * for TEMP, PRESS, LIGHT and ACC, the GYRO block, then the plain blocks
     * for ENV, OLED, RTC, FIR, LIGHT2, TOF, UVL, CO2, VOC and GNSS.
     */
    method Cascade(initOk: set<nat>) returns (initCalls: seq<nat>)
      requires Valid()
      modifies slots
      ensures Valid() && Nums() == old(Nums())
      ensures CascadeState(Flags(), initCalls) == CascadeOf(old(Flags()), initOk)
    {
      initCalls := EepromInit(initOk, []);
      initCalls := HeadGates(initOk, initCalls);
      initCalls := GyroInit(initOk, initCalls);
      initCalls := TailGates(initOk, initCalls);
    }

    /** The plain blocks for TEMP, PRESS, LIGHT and ACC. */
    method HeadGates(initOk: set<nat>, calls: seq<nat>) returns (calls': seq<nat>)
      requires Valid()
      modifies slots
      ensures Valid() && Nums() == old(Nums())
      ensures CascadeState(Flags(), calls') == GateAll(CascadeState(old(Flags()), calls), HEAD_GATES, initOk)
    {
      ghost var st := CascadeState(Flags(), calls);
      ghost var h := HEAD_GATES;
      assert h[..0] == [];
      calls' := GateBlock(TEMP_ID, initOk, calls, st, h, 0);
      calls' := GateBlock(PRESS_ID, initOk, calls', st, h, 1);
      calls' := GateBlock(LIGHT_ID, initOk, calls', st, h, 2);
      calls' := GateBlock(ACC_ID, initOk, calls', st, h, 3);
      assert h[..4] == h;
    }

    /**
     * Gate for `i`, the entry `k` of `ids`: after the blocks for the first `k`
     * entries, it leaves the state of the blocks for the first `k + 1`.
     */
    method GateBlock(i: nat, initOk: set<nat>, calls: seq<nat>, ghost st: CascadeState, ghost ids: seq<nat>, ghost k: nat)
        returns (calls': seq<nat>)
      requires Valid() && |st.flags| == SLOT_COUNT && SlotIds(ids) && k < |ids| && ids[k] == i
      requires SlotIds(ids[..k]) && CascadeState(Flags(), calls) == GateAll(st, ids[..k], initOk)
      modifies slots
      ensures Valid() && Nums() == old(Nums())
      ensures SlotIds(ids[..k + 1]) && CascadeState(Flags(), calls') == GateAll(st, ids[..k + 1], initOk)
    {
      calls' := Gate(i, initOk, calls);
      GateAllSnoc(st, ids, k, initOk);
    }

    /** The plain blocks for ENV, OLED, RTC, FIR, LIGHT2, TOF, UVL, CO2, VOC and GNSS. */
    method TailGates(initOk: set<nat>, calls: seq<nat>) returns (calls': seq<nat>)
      requires Valid()
      modifies slots
      ensures Valid() && Nums() == old(Nums())
      ensures CascadeState(Flags(), calls') == GateAll(CascadeState(old(Flags()), calls), TAIL_GATES, initOk)
    {
      ghost var st := CascadeState(Flags(), calls);
      calls' := TailGatesFirst(initOk, calls);
      calls' := TailGatesSecond(initOk, calls');
      GateAllAppend(st, TAIL_FIRST, TAIL_SECOND, initOk);
    }

    /** The plain blocks for ENV, OLED, RTC, FIR and LIGHT2. */
    method TailGatesFirst(initOk: set<nat>, calls: seq<nat>) returns (calls': seq<nat>)
      requires Valid()
      modifies slots
      ensures Valid() && Nums() == old(Nums())
      ensures CascadeState(Flags(), calls') == GateAll(CascadeState(old(Flags()), calls), TAIL_FIRST, initOk)
    {
      ghost var st := CascadeState(Flags(), calls);
      ghost var t := TAIL_FIRST;
      assert t[..0] == [];
      calls' := GateBlock(ENV_ID, initOk, calls, st, t, 0);
      calls' := GateBlock(OLED_ID, initOk, calls', st, t, 1);
      calls' := GateBlock(RTC_ID, initOk, calls', st, t, 2);
      calls' := GateBlock(FIR_ID, initOk, calls', st, t, 3);
      calls' := GateBlock(LIGHT2_ID, initOk, calls', st, t, 4);
      assert t[..5] == t;
    }

    /** The plain blocks for TOF, UVL, CO2, VOC and GNSS. */
    method TailGatesSecond(initOk: set<nat>, calls: seq<nat>) returns (calls': seq<nat>)
      requires Valid()
      modifies slots
      ensures Valid() && Nums() == old(Nums())
      ensures CascadeState(Flags(), calls') == GateAll(CascadeState(old(Flags()), calls), TAIL_SECOND, initOk)
    {
      ghost var st := CascadeState(Flags(), calls);
      ghost var t := TAIL_SECOND;
      assert t[..0] == [];
      calls' := GateBlock(TOF_ID, initOk, calls, st, t, 0);
      calls' := GateBlock(UVL_ID, initOk, calls', st, t, 1);
      calls' := GateBlock(CO2_ID, initOk, calls', st, t, 2);
      calls' := GateBlock(VOC_ID, initOk, calls', st, t, 3);
      calls' := GateBlock(GNSS_ID, initOk, calls', st, t, 4);
      assert t[..5] == t;
    }

    /**
     * `get_sensor_values`: one read cycle over the flags in DISPATCH_ORDER,
     * with the RAK1906 measurement started before it is read. The driver
     * calls made are returned in order; no flag changes.
     */
    method GetSensorValues() returns (calls: seq<DriverCall>)
      requires Valid()
      ensures calls == Dispatch(Flags(), |DISPATCH_ORDER|)
    {
      calls := [];
      calls := VisitTempToAcc(calls);
      calls := VisitMpuToFir(calls);
      calls := VisitLight2ToUvl(calls);
      calls := VisitCo2ToVoc(calls);
    }

    /** The blocks of `get_sensor_values` for TEMP, PRESS, LIGHT, ACC. */
    method VisitTempToAcc(prefix: seq<DriverCall>) returns (calls: seq<DriverCall>)
      requires Valid() && prefix == Dispatch(Flags(), 0)
      ensures calls == Dispatch(Flags(), 4)
    {
      calls := prefix;
      calls := Visit(TEMP_ID, 0, calls);
      calls := Visit(PRESS_ID, 1, calls);
      calls := Visit(LIGHT_ID, 2, calls);
      calls := Visit(ACC_ID, 3, calls);
    }

    /** The blocks of `get_sensor_values` for MPU, ENV, FIR. */
    method VisitMpuToFir(prefix: seq<DriverCall>) returns (calls: seq<DriverCall>)
      requires Valid() && prefix == Dispatch(Flags(), 4)
      ensures calls == Dispatch(Flags(), 7)
    {
      calls := prefix;
      calls := Visit(MPU_ID, 4, calls);
      calls := Visit(ENV_ID, 5, calls);
      calls := Visit(FIR_ID, 6, calls);
    }

    /** The blocks of `get_sensor_values` for LIGHT2, RTC, TOF, UVL. */
    method VisitLight2ToUvl(prefix: seq<DriverCall>) returns (calls: seq<DriverCall>)
      requires Valid() && prefix == Dispatch(Flags(), 7)
      ensures calls == Dispatch(Flags(), 11)
    {
      calls := prefix;
      calls := Visit(LIGHT2_ID, 7, calls);
      calls := Visit(RTC_ID, 8, calls);
      calls := Visit(TOF_ID, 9, calls);
      calls := Visit(UVL_ID, 10, calls);
    }

    /** The blocks of `get_sensor_values` for CO2, TEMP_ARR, VOC. */
    method VisitCo2ToVoc(prefix: seq<DriverCall>) returns (calls: seq<DriverCall>)
      requires Valid() && prefix == Dispatch(Flags(), 11)
      ensures calls == Dispatch(Flags(), |DISPATCH_ORDER|)
    {
      calls := prefix;
      calls := Visit(CO2_ID, 11, calls);
      calls := Visit(TEMP_ARR_ID, 12, calls);
      calls := Visit(VOC_ID, 13, calls);
    }

    /**
     * One block of `get_sensor_values`: the driver of slot `i`, entry `k` of
     * DISPATCH_ORDER, is called only when its flag is set, the RAK1906 being
     * started before it is read.
     */
    method Visit(i: nat, ghost k: nat, calls: seq<DriverCall>) returns (calls': seq<DriverCall>)
      requires Valid() && k < |DISPATCH_ORDER| && DISPATCH_ORDER[k] == i
      requires calls == Dispatch(Flags(), k)
      ensures calls' == Dispatch(Flags(), k + 1)
    {
      calls' := calls;
      if slots[i].found {
        if i == ENV_ID {
          calls' := calls' + [Start(i)];
        }
        calls' := calls' + [Read(i)];
      }
      assert Flags()[i] == slots[i].found;
      DispatchNext(Flags(), k);
    }
  }
}
