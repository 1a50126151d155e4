# RUI3 sensor node board support, modelled in Dafny

This project models the board-support core of a modular WisBlock sensor node
that runs on RUI3 firmware. It has one module per source file:

- `ModuleHandler` (module_handler.cpp). The catalog of 35 module slots keyed
  by I2C address. The bus sweep that marks the first slot for every address
  that ACKs; a 0x52 ACK also marks the slot after it. The init cascade
  clears the flag of every module whose init fails. It includes the EEPROM
  override and the 0x68 arbitration GYRO → RAK1905 → RAK12040. The read
  cycle visits the flags in a fixed order.
- `CustomAt` (custom_at.cpp). Argument validation for the SENDINT, RTC and
  GNSS AT commands, with `strtoul` modelled on 32-bit `unsigned long`. The
  two settings records in user flash: the send interval in four
  little-endian bytes plus the 0xAA marker, and the GNSS format byte plus
  the marker. Their repair paths are modelled too.
- `Rak15001Flash` (RAK15001_flash.cpp). A 2 MiB NOR flash of 512 sectors of
  4096 bytes. Erasing sets bytes to 0xFF; programming ANDs. Sector reads and
  writes are bounds-checked, and a write is read back and compared.
  `read_config` checks the markers at start-up.
- `Rak12047Voc` (RAK12047_voc.cpp). The warm-up counter, which discards
  readings up to 100. The first index is taken at 101. After that the index
  is a running average in C's `uint32_t`/`int32_t` arithmetic. The
  `voc_valid` flag gates the payload.
- `Rak12007Ultrasonic` (rak12007_us.cpp). Ten echo samples, validity window
  (0, 24125), an integer mean, and the success test.
- `Rak1901Temp` (RAK1901_temp.cpp). The payload entries and the one-shot
  cache of the last reading.
- `Rak1904Acc` (RAK1904_acc.cpp). The LIS3DH register file as
  `init_rak1904` leaves it, the two raw register accessors, and the motion
  debounce of the interrupt callback.
- `Common` and `Payload` hold integer widths, `Option`, and the append-only
  payload.

Hardware is passed in as oracle parameters. This covers I2C and SPI
transfers, sensor libraries, flash calls and clocks:

- the set of ACKing addresses;
- the set of modules whose init succeeds;
- each library call's success;
- echo times, readings and `millis()`.

Stateful code is modelled as classes whose methods change fields in place:

- the catalog is an `array<Slot>`;
- the flash contents, the register file, the driver globals and the AT
  settings are fields.

Every method's `ensures` ties the new state to a pure function of the old
state and the oracles. The lemmas state the source's promises about those
functions.

The modelled methods follow the code as written, including its quirks:

- the first-match `break` in the scan;
- the assignment `gnss_format = 2` inside an `if`;
- the division by a count that can be zero;
- `strtoul` in base 0;
- `save_at_setting` ignoring the write result;
- `voc_valid` set while readings are being discarded;
- the `temperature` local that is never assigned.

Where the code looks wrong, a corrected definition stands beside it; see
Findings.

Slot ids follow the catalog comments (ACC 0, LIGHT 1, GNSS 2, PRESS 3,
TEMP 4, ENV 5, LIGHT2 7, MQ2 8, EEPROM 9, TOF 12, RTC 13, VOC 15, GYRO 16,
OLED 18, UVL 19, MPU 22, CO2 23, FIR 24, TEMP_ARR 25). This is needed
because module_handler.h is not part of this model.

## Model

| member | source | states |
|---|---|---|
| ModuleHandler.Catalog.constructor | module_handler.cpp:19-56 | the catalog holds the 35 addresses in catalog order, every slot with bus 0 and not found |
| ModuleHandler.Catalog.Scan | module_handler.cpp:70-108 | addresses 1..126 are probed once each in increasing order; `num_dev` is the number of ACKing addresses; the slots become the catalog with every ACK applied, so exactly the hit slots get bus 1 and `found` |
| ModuleHandler.Catalog.MarkAck | module_handler.cpp:88-107 | one ACK marks the slots that ACK hits and leaves all others as they were |
| ModuleHandler.Catalog.FindSlot | module_handler.cpp:91-96 | the slot search stops at the lowest index carrying the address, or runs off the end when none does |
| ModuleHandler.Catalog.MarkFirst | module_handler.cpp:93-103 | the matched slot, and for 0x52 also the next slot, get bus 1 and `found` |
| ModuleHandler.ScanStepMarks | module_handler.cpp:91-104 | an ACK at an address whose first slot is i changes exactly slot i, and also slot i+1 when the address is 0x52 |
| ModuleHandler.ScanStepSkips | module_handler.cpp:86-107 | an address that does not ACK, or has no slot, changes no slot |
| ModuleHandler.HitExactly | module_handler.cpp:91-104 | a slot is marked by a sweep iff it is the first slot of an ACKing address, or it is the slot after the 0x52 slot and 0x52 ACKed |
| ModuleHandler.ShadowedSlotsNeverScanned | module_handler.cpp:91-104 | slots 10, 22, 25, 31, 32, 33 and 34 repeat a lower slot's address and are never marked by the sweep |
| ModuleHandler.RtcAckMarksTwo | module_handler.cpp:98-102 | an ACK at 0x52 marks both the RTC slot and the one after it |
| ModuleHandler.AckCountZero | module_handler.cpp:106-137 | `num_dev` is zero iff no address in 1..126 ACKed |
| ModuleHandler.AckCountBound | module_handler.cpp:66-106 | `num_dev` is at most 126, so its `uint8_t` cannot wrap |
| ModuleHandler.Catalog.ClearAll | module_handler.cpp:130-136 | every found flag is cleared and nothing else changes |
| ModuleHandler.Catalog.EepromInit | module_handler.cpp:140-154 | the EEPROM block as the step function `EepromStep` states it |
| ModuleHandler.Catalog.Gate | module_handler.cpp:156-162 | one plain block: a flagged module's init is called, and its flag is kept iff the init succeeds |
| ModuleHandler.Catalog.HeadGates | module_handler.cpp:156-190 | the TEMP, PRESS, LIGHT and ACC blocks in order |
| ModuleHandler.Catalog.GyroInit | module_handler.cpp:192-214 | the GYRO/RAK1905/RAK12040 chain as `GyroStep` states it |
| ModuleHandler.Catalog.TailGates | module_handler.cpp:216-324 | the ENV, OLED, RTC, FIR, LIGHT2, TOF, UVL, CO2, VOC and GNSS blocks in order |
| ModuleHandler.Catalog.TailGatesFirst | module_handler.cpp:216-270 | the ENV, OLED, RTC, FIR and LIGHT2 blocks in order |
| ModuleHandler.Catalog.TailGatesSecond | module_handler.cpp:272-324 | the TOF, UVL, CO2, VOC and GNSS blocks in order |
| ModuleHandler.Catalog.Cascade | module_handler.cpp:139-324 | the whole init cascade: the flags and the init calls made are `CascadeOf` the scanned flags |
| ModuleHandler.Catalog.FindModules | module_handler.cpp:62-325 | scan, then flash init; with no ACK every flag is cleared and no init runs; otherwise each flag ends as `CascadeFlag` and the init calls are `InitCalls`, in cascade order |
| ModuleHandler.GateAllEffect | module_handler.cpp:156-324 | a run of plain blocks over distinct modules calls the init of exactly the flagged ones, in order, and keeps a flag iff that init succeeds |
| ModuleHandler.CascadeMeaning | module_handler.cpp:139-324 | the cascade's step functions agree slot by slot with the direct description `CascadeFlag` and `InitCalls` |
| ModuleHandler.CascadeFlagsMeaning | module_handler.cpp:139-324 | every slot's flag after the cascade is its `CascadeFlag` |
| ModuleHandler.CascadeCallsMeaning | module_handler.cpp:139-324 | the inits called are the flagged modules of the cascade order whose turn comes with the flag still set |
| ModuleHandler.EepromOverride | module_handler.cpp:140-154 | a working EEPROM clears MQ2, RTC and UVL, and their inits are not called; a failed EEPROM clears only its own flag, and RTC and UVL are then tried iff flagged |
| ModuleHandler.GyroArbitration | module_handler.cpp:192-214 | GYRO always ends cleared; MPU is the RAK1905 result; TEMP_ARR is the RAK12040 result only after a RAK1905 failure; never both set |
| ModuleHandler.WeatherNodeScan | module_handler.cpp:70-226 | an illustration on one concrete bus: with only 0x70 and 0x76 on the bus, exactly the RAK1901 and RAK1906 slots are marked and survive the cascade when their inits succeed |
| ModuleHandler.Catalog.GetSensorValues | module_handler.cpp:441-528 | the read cycle calls `Dispatch` of the flags and changes no flag |
| ModuleHandler.Catalog.Visit | module_handler.cpp:443-480 | one visit calls the module's read, preceded by `start_rak1906` for ENV, iff its flag is set |
| ModuleHandler.DispatchOnlyFlagged | module_handler.cpp:441-528 | every call made is for a flagged module, and every start call is immediately followed by the read of the same module |
| ModuleHandler.DispatchComplete | module_handler.cpp:441-528 | every flagged module in the read order is read |
| ModuleHandler.DispatchOrdered | module_handler.cpp:441-528 | reads occur in the fixed order of the source |
| ModuleHandler.DispatchSkips | module_handler.cpp:441-528 | unflagged modules add no call |
| ModuleHandler.WeatherNodeDispatch | module_handler.cpp:443-480 | an illustration of the Dispatch lemmas: with only TEMP and ENV flagged, the cycle is read TEMP, start ENV, read ENV |
| CustomAt.CheckDigits | custom_at.cpp:62-69 | the digit check passes iff every character is a decimal digit |
| CustomAt.CheckArgsDigits | custom_at.cpp:133-143 | the loop over all arguments passes iff every argument is all digits |
| CustomAt.StrtoulDecimal | custom_at.cpp:71 | base-10 `strtoul` reads zero-padded decimal text of n as n |
| CustomAt.OctalTwoDigits | custom_at.cpp:166 | base-0 `strtoul` reads a two-digit field with a leading zero as octal: "08" and "09" read 0 |
| CustomAt.StrtoulNoLeadingZero | custom_at.cpp:151 | base-0 `strtoul` reads decimal text without a leading zero as its value |
| CustomAt.RtcSetting | custom_at.cpp:131-204 | the clock is set iff there are 5 all-digit arguments, year 2022..3000, month 1..12, date 1..31, hour ≤ 24 and minute ≤ 59, and then with those values |
| CustomAt.RtcCommand | custom_at.cpp:119-211 | the query form answers AT_OK without setting; otherwise AT_OK comes iff `set_rak12002` is called, with `RtcSetting` in base 0 |
| CustomAt.RtcSettingOfFields | custom_at.cpp:144-204 | the range checks applied to whatever the five fields parse to |
| CustomAt.RtcDecimalAcceptsPadded | custom_at.cpp:144-203 | parsing in base 10, every in-range date in the documented zero-padded format is set as typed |
| CustomAt.RtcOctalMisreadsPadded | custom_at.cpp:151-199 | as written (base 0), each two-digit field of padded input is read as octal |
| CustomAt.RtcRejectsAugust | custom_at.cpp:166-172 | as written, 2024:08:15:10:30 is refused; in base 10 it is set |
| CustomAt.IntervalArgument | custom_at.cpp:59-71 | SENDINT accepts exactly one all-digit argument and parses it in base 10 |
| CustomAt.IntervalMillis | custom_at.cpp:75 | the milliseconds are seconds × 1000 modulo 2^32 |
| CustomAt.IntervalQueryEchoes | custom_at.cpp:54-57 | without wrap-around, the query prints back the seconds that were set |
| CustomAt.GnssArgument | custom_at.cpp:283-301 | GNSS accepts exactly one all-digit argument whose value is at most FIELD_TESTER |
| CustomAt.EncodeGnss | custom_at.cpp:512-515 | the GNSS record is the format byte followed by 0xAA |
| CustomAt.DecodeGnss | custom_at.cpp:457-465 | a format byte above FIELD_TESTER is refused, any other is taken as is |
| CustomAt.GnssRoundTrip | custom_at.cpp:451-465 | decoding an encoded valid format gives it back |
| CustomAt.EncodeInterval | custom_at.cpp:517-522 | the interval record is five bytes ending with 0xAA |
| CustomAt.IntervalRoundTrip | custom_at.cpp:485-489 | decoding the little-endian bytes of any 32-bit interval gives it back |
| CustomAt.IntervalRecordRoundTrip | custom_at.cpp:517-522 | every record with the marker is the encoding of the interval it decodes to |
| CustomAt.AtSettings.constructor | custom_at.cpp:19-27 | the globals and records start as given, with the send timer stopped |
| CustomAt.AtSettings.SaveSetting | custom_at.cpp:506-536 | GNSS reports the write result; SEND reports true whatever the write did; an unknown setting returns false and writes nothing |
| CustomAt.AtSettings.GetSetting | custom_at.cpp:440-496 | GNSS: a bad marker resets the format to 0 and rewrites, a byte above FIELD_TESTER gives 0 and false, otherwise the byte and true. SEND: a bad marker gives interval 0, a rewrite and false, otherwise the decoded interval and true. A failed read changes nothing; an unknown setting gives false and changes nothing |
| CustomAt.AtSettings.SendIntervalHandler | custom_at.cpp:52-94 | a bad argument gives AT_PARAM_ERROR and changes nothing; a valid one sets the interval in ms, runs the timer iff it is nonzero, saves, and answers AT_OK whatever the save did |
| CustomAt.AtSettings.GnssFormatHandler | custom_at.cpp:261-317 | a bad argument gives AT_PARAM_ERROR and changes nothing; a valid one sets the format, and a failed save answers AT_PARAM_ERROR with the new format kept |
| Rak15001Flash.SectorAddress | RAK15001_flash.cpp:88 | the byte address of a sector is a multiple of 4096, and every sector below 512 lies inside the chip |
| Rak15001Flash.WriteAfterEraseReadsBack | RAK15001_flash.cpp:113-141 | after an erase, the write puts exactly the buffer at the sector's address |
| Rak15001Flash.WriteWithoutEraseReadsBack | RAK15001_flash.cpp:114-117 | when the erase fails the write goes ahead, and the data reads back only where the old bits allow it |
| Rak15001Flash.Rak15001.constructor | RAK15001_flash.cpp:37-38 | the chip holds the given contents and the module is not yet marked present |
| Rak15001Flash.Rak15001.Init | RAK15001_flash.cpp:46-68 | `g_has_rak15001` is set, and true returned, iff both `begin` and `waitUntilReady` succeed |
| Rak15001Flash.Rak15001.ReadSector | RAK15001_flash.cpp:79-94 | a sector above 511 is refused before any access; otherwise the bytes at sector × 4096 are returned |
| Rak15001Flash.Rak15001.WriteSector | RAK15001_flash.cpp:105-153 | a sector above 511 is refused with nothing written; a failed erase is ignored; true iff the write, the wait and the read-back succeed and the read-back bytes equal the buffer |
| Rak15001Flash.Rak15001.SaveConfig | RAK15001_flash.cpp:161-173 | the settings image is written to sector 0, with the result of that write |
| Rak15001Flash.Rak15001.ReadConfig | RAK15001_flash.cpp:182-219 | a failed first read clears `g_has_rak15001` and returns false; a marker mismatch rewrites the settings, and a failed rewrite returns false; otherwise true, even when the final read fails |
| Rak15001Flash.Rak15001.Reload | RAK15001_flash.cpp:206-211 | the final read replaces the settings by sector 0's bytes only when it succeeds |
| Rak15001Flash.Rak15001.EraseSector | RAK15001_flash.cpp:114 | a successful erase sets the sector to 0xFF and leaves the rest of the chip |
| Rak15001Flash.Rak15001.WriteBuffer | RAK15001_flash.cpp:121 | a successful write programs the bytes at the address |
| Rak15001Flash.Rak15001.ReadBuffer | RAK15001_flash.cpp:134 | a successful read returns the chip's bytes at the address |
| Rak15001Flash.Rak15001.WaitUntilReady | RAK15001_flash.cpp:127 | the wait reports the chip's outcome |
| Rak12047Voc.Rak12047.constructor | RAK12047_voc.cpp:20-30 | counter 0, index 0, not valid, timer not started |
| Rak12047Voc.Rak12047.Init | RAK12047_voc.cpp:41-107 | fails on a serial-number error, a self-test error or a self-test result other than 0xD400; success resets the counter to 0 and starts the timer |
| Rak12047Voc.Tick | RAK12047_voc.cpp:162-195 | a measurement error changes nothing; a success sets `voc_valid` |
| Rak12047Voc.Rak12047.DoRead | RAK12047_voc.cpp:136-200 | one tick moves the state as `Tick` does; compensation is always 0x8000/0x6666, because `temperature` stays 0.0; the RAK1901 cache is consumed |
| Rak12047Voc.Rak12047.Read | RAK12047_voc.cpp:115-128 | the index is added to the payload iff `voc_valid` |
| Rak12047Voc.Average | RAK12047_voc.cpp:190-191 | for non-negative values the C expression is the halved sum |
| Rak12047Voc.AverageBetween | RAK12047_voc.cpp:188-192 | the average lies between the old index and the new value |
| Rak12047Voc.TickCounterBound | RAK12047_voc.cpp:174-192 | the counter never passes 102, and stays at 102 once it is there |
| Rak12047Voc.WarmUp | RAK12047_voc.cpp:174-180 | up to the first reading, the index never changes; each success bumps the counter; the flag is set from the first success on |
| Rak12047Voc.FirstIndexTaken | RAK12047_voc.cpp:181-186 | from a reset counter, the 102nd success takes its index as is, and the counter becomes 102 |
| Rak12047Voc.IndexStaysInRange | RAK12047_voc.cpp:188-192 | once averaging, the index stays in any range that holds the algorithm's values |
| Rak12007Ultrasonic.Rak12007.constructor | rak12007_us.cpp:17 | `has_rak12007` starts false; the low pin levels are an assumed reset state, which the source does not set |
| Rak12007Ultrasonic.ValidCount | rak12007_us.cpp:57-65 | `valid_measures` never exceeds the number of samples |
| Rak12007Ultrasonic.SumBounds | rak12007_us.cpp:57-65 | each counted sample adds between 1 and TIME_OUT − 1 to the sum |
| Rak12007Ultrasonic.AverageInWindow | rak12007_us.cpp:73-75 | one valid sample puts the average in [1, TIME_OUT − 1], so the read succeeds |
| Rak12007Ultrasonic.CheckedAverage | rak12007_us.cpp:73 | the average is absent exactly when no sample was valid |
| Rak12007Ultrasonic.CheckedReadOkIffEcho | rak12007_us.cpp:73-75 | with the empty case checked, a read succeeds iff some sample was valid |
| Rak12007Ultrasonic.NoEchoDividesByZero | rak12007_us.cpp:73 | ten timed-out samples divide by zero; the read then succeeds whenever that division happens to land in the window |
| Rak12007Ultrasonic.Rak12007.Sample | rak12007_us.cpp:50-72 | the ten-pulse loop sums and counts exactly the valid echo times and leaves TRIG low |
| Rak12007Ultrasonic.Rak12007.Read | rak12007_us.cpp:38-94 | true iff the average lies in (0, TIME_OUT); the level is added iff asked for and successful; PD and TRIG end high on both paths |
| Rak12007Ultrasonic.Rak12007.Init | rak12007_us.cpp:19-36 | the result and `has_rak12007` are those of a read without payload; the payload is unchanged |
| Rak1901Temp.Rak1901.constructor | RAK1901_temp.cpp:17-22 | both cached values are 0.0 and no reading is cached |
| Rak1901Temp.Rak1901.Init | RAK1901_temp.cpp:30-38 | true iff the sensor library's init succeeds |
| Rak1901Temp.ReadEntries | RAK1901_temp.cpp:56-57 | humidity comes first, then temperature |
| Rak1901Temp.Rak1901.Read | RAK1901_temp.cpp:46-61 | humidity then temperature are added, both go into the cache, and the flag is set |
| Rak1901Temp.GetOutcome | RAK1901_temp.cpp:69-85 | with the flag set the cached pair is returned; otherwise the fresh reading; the flag ends clear |
| Rak1901Temp.Rak1901.GetValues | RAK1901_temp.cpp:69-85 | the cached pair is consumed once; with the flag clear the cache and the flag are kept |
| Rak1901Temp.ConsumeOnce | RAK1901_temp.cpp:71-84 | the first get after a read sees the cached values, the second a fresh reading |
| Rak1901Temp.Rak1901.ReadThenGetTwice | RAK1901_temp.cpp:46-85 | a read followed by two gets returns the read values, then the second update |
| Rak1904Acc.WriteStep | RAK1904_acc.cpp:42-54 | the register is written iff `endTransmission` returns 0 |
| Rak1904Acc.ReadStep | RAK1904_acc.cpp:65-85 | a failed address phase leaves the output alone; an answered read stores the register's value |
| Rak1904Acc.Lis3dh.WriteRegister | RAK1904_acc.cpp:42-54 | false iff `endTransmission` is nonzero, and only success writes |
| Rak1904Acc.Lis3dh.ReadRegister | RAK1904_acc.cpp:65-85 | false without storing on failure; otherwise the last byte received, found by the receive loop |
| Rak1904Acc.Lis3dh.constructor | RAK1904_acc.cpp:27-31 | registers as given, no motion, `last_trigger` 0 |
| Rak1904Acc.Lis3dh.ConfigureInterrupt | RAK1904_acc.cpp:115-142 | INT1CFG, INT1THS, INT1DUR and the CTRL_REG5 read-modify-write, as `InterruptRegs` |
| Rak1904Acc.Lis3dh.ConfigurePins | RAK1904_acc.cpp:144-154 | CTRL_REG3, CTRL_REG6 and CTRL_REG2, as `PinRegs` |
| Rak1904Acc.Lis3dh.ConfigurePower | RAK1904_acc.cpp:156-166 | CTRL_REG1 and register 0x1E read-modify-write, as `PowerRegs` |
| Rak1904Acc.Lis3dh.Init | RAK1904_acc.cpp:94-177 | a failed `begin()` writes nothing; otherwise the register sequence runs with threshold 0x03, `gnss_format` becomes 2, and `last_trigger` becomes now |
| Rak1904Acc.ConfiguredOnHealthyBus | RAK1904_acc.cpp:115-165 | on a healthy bus: INT1CFG 0x2A, INT1THS the threshold, INT1DUR 0x01, CTRL3 0x60, CTRL6 0x00, CTRL2 0x01; CTRL5 gets bit 3 set and bit 2 cleared, CTRL1 bit 3 set, 0x1E bits 7 and 4 set, each keeping every other bit the library left; every other register as the library left it |
| Rak1904Acc.Ctrl5Bits | RAK1904_acc.cpp:139-142 | CTRL_REG5 gets bit 2 cleared and bit 3 set, with every other bit kept |
| Rak1904Acc.StaleCtrl5 | RAK1904_acc.cpp:134-142 | a failed CTRL_REG5 read goes unnoticed, and 0x09 is written from the stale 0x01 |
| Rak1904Acc.AsWrittenThreshold | RAK1904_acc.cpp:121-132 | as written, the threshold is always 0x03 and the format always becomes 2 |
| Rak1904Acc.IntendedThreshold | RAK1904_acc.cpp:121-132 | the lower threshold 0x03 is chosen iff the format is the Helium Mapper one, otherwise 0x10 |
| Rak1904Acc.ThresholdAssignmentMisfires | RAK1904_acc.cpp:124 | for every other format, the code as written picks the wrong threshold and overwrites the format |
| Rak1904Acc.Lis3dh.Callback | RAK1904_acc.cpp:207-230 | motion is accepted iff more than half the send interval has passed since the last accepted trigger and GNSS is idle; acceptance moves `last_trigger` to now |
| Rak1904Acc.AcceptedTriggersSpaced | RAK1904_acc.cpp:211-214 | any run of accepted triggers is spaced by more than half a send interval |

## Left out

- Rak1904Acc.Lis3dh.Callback: `millis()` is read twice in the source, once in the test and once in the assignment; the model takes one `now` for both.
- Rak15001Flash.Rak15001.WriteSector: an access past the end of the chip counts as a failed library call; the library's behaviour there is not visible.
- Rak15001Flash.Rak15001.ReadSector: the same past-the-end rule applies to reads, through `ReadBuffer`.
- Rak15001Flash.Rak15001.ReadBuffer: a failed `readBuffer` is taken to change neither the chip nor the destination buffer. This is an assumption about RAK_FLASH_SPI that the source does not decide, and the past-the-end rule applies here too.
- Rak15001Flash.Rak15001.Reload: the final read of `read_config` goes straight into the live settings, at RAK15001_flash.cpp:206. The model assumes a failed read leaves them as they were, so `ReadConfig` promises unchanged settings after a failed final read only under that assumption.
- CustomAt.Strtoul: only modelled on all-digit strings, since the handlers check for that first. Signs, whitespace and hex prefixes cannot reach it.
- Rak12007Ultrasonic.LevelEntry: the payload holds the average echo time, not the distance in cm. The distance is a floating-point ratio.
- The value of FIELD_TESTER is taken as 3, the last GNSS payload format. Its definition is not part of this model.
- LORAWAN_DATA_MARKER's value is not in this model; it is the parameter `dataMarker`.
- The GNSS and send-interval records are two separate byte sequences. Their offsets in user flash do not enter.
- A failed flash write leaves a record as it was, and a successful read returns what was last stored. This is the RUI3 flash API's assumed behaviour.
- `unsigned long` is 32 bits and `time_t` is a signed 64-bit type. This matches the target's toolchain.
- Floating point is carried only as opaque bit patterns:
  - temperature and humidity values;
  - the RAK12047 humidity/temperature-to-tick conversion, which cannot be reached anyway;
  - the ultrasonic distance and the RAK4630 0.7726 calibration.
- Sensor libraries are oracles. They are not modelled:
  - Adafruit_LIS3DH setup, whose register effect is the `lib` parameter;
  - SensirionI2CSgp40;
  - VOCGasIndexAlgorithm, whose state is the list of raw values fed to it;
  - the SHTC3 library;
  - RAK_FLASH_SPI beyond its NOR behaviour;
  - `pulseInLong`.
- Timers, interrupts and the ISR's effects are left out: `attachInterrupt`, `udrv_timer_*`, `api.system.timer.*`, `sensor_handler`, and `clear_int_rak1904`. They are concurrency and foreign calls. The SENDINT timer is just a running flag and a period.
- Output only is left out: serial and log output, `MYLOG`, `status_handler`, `announce_modules`, `log_settings`, the query printouts, the RTC read behind `AT+RTC=?`, and the device-name strings the cascade formats.
- `delay` calls, `pinMode`, `Wire.begin`/`setClock` and the second I2C bus are left out. Only the PD and TRIG pin levels of the RAK12007 are kept.
- Left out because they sit behind other modules: the init and read routines of the modules the cascade and the read cycle call. Their outcomes are the `initOk` set and the call sequence.
- Cayenne LPP encoding is left out; the payload is an append-only list of (channel, kind, value) entries.
- The GNSS and RTC AT registration routines (`init_gnss_at`, `init_rtc_at`, `init_interval_at`) only register handlers with the AT framework.
- The settings struct behind the flash image is not modelled; it is a byte sequence.
- RAK1902_press.cpp and main.h are left out. They hold a library wrapper with floating-point altitude, and declarations only.
- The commented-out alternative drivers in RAK1904_acc.cpp are left out.

## Findings

| source | as written | input that shows it | evidently intended | confidence | as-written member | corrected member |
|---|---|---|---|---|---|---|
| custom_at.cpp:151-199 | each RTC field is parsed with `strtoul(..., 0)`, so a leading zero means octal | `AT+RTC=2024:08:15:10:30`: "08" reads as 0, the month check fails, and the command is refused | decimal parsing, base 10, of the zero-padded fields | not executed | CustomAt.RtcOctalMisreadsPadded | CustomAt.RtcDecimalAcceptsPadded |
| RAK1904_acc.cpp:124 | `if (gnss_format = 2)` assigns, so the test is always true and the stored format is overwritten | `gnss_format` 0: INT1THS becomes 0x03 instead of 0x10, and the format becomes 2 | compare with `==`: 0x03 only for format 2, and the format is left alone | not executed | Rak1904Acc.ThresholdAssignmentMisfires | Rak1904Acc.IntendedThreshold |
| rak12007_us.cpp:73 | `measure_time / valid_measures` with no guard | ten samples that all time out, e.g. no sensor attached: a division by zero, undefined in C | report failure when no sample was valid | not executed | Rak12007Ultrasonic.NoEchoDividesByZero | Rak12007Ultrasonic.CheckedReadOkIffEcho |
