/**
 * The custom AT commands of the sensor node (custom_at.cpp): argument
 * validation for SENDINT, RTC and GNSS, and the two settings records kept in
 * the device's user flash.
 *
 * The C library routines the handlers rely on are modelled on the inputs
 * they can see here: `isdigit` on ASCII, and `strtoul` on strings that the
 * handlers have already checked to be all digits, with the 32-bit
 * `unsigned long` of the target and its saturation to ULONG_MAX on
 * overflow. Whether a flash access succeeds is an oracle; a successful read
 * returns the stored record and a failed write leaves it as it was.
 */
module CustomAt {
  import opened Common

  datatype AtStatus = AtOk | AtParamError

  /** The settings types `get_at_setting` / `save_at_setting` dispatch on. */
  datatype Setting = GnssOffset | SendIntervalOffset | OtherSetting(code: nat)

  /** The highest GNSS payload format (3 = Field Tester). */
  const FIELD_TESTER: nat := 3
  /** Marker byte that closes a valid settings record. */
  const MARKER: Byte := 0xAA
  const GNSS_RECORD_SIZE: nat := 2
  const INTERVAL_RECORD_SIZE: nat := 5

  // ---------------------------------------------------------------------
  // Character classes and strtoul
  // ---------------------------------------------------------------------

  predicate IsDigit(c: char) { '0' <= c <= '9' }

  predicate IsOctalDigit(c: char) { '0' <= c <= '7' }

  predicate AllDigits(s: string) { forall k :: 0 <= k < |s| ==> IsDigit(s[k]) }

  predicate AllArgsDigits(args: seq<string>) { forall j :: 0 <= j < |args| ==> AllDigits(args[j]) }

  /** An argument list that is the query form `AT+CMD=?`. */
  predicate IsQuery(args: seq<string>) { |args| == 1 && args[0] == "?" }

  function DigitVal(c: char): (d: nat)
    requires IsDigit(c)
    ensures d < 10
    ensures IsOctalDigit(c) <==> d < 8
  {
    (c as int) - ('0' as int)
  }

  /** The number the digit string `s` denotes in `base` (0 for the empty string). */
  function DigitsValue(s: string, base: nat): nat
    requires AllDigits(s)
  {
    if |s| == 0 then 0 else DigitsValue(s[..|s| - 1], base) * base + DigitVal(s[|s| - 1])
  }

  /** How many leading characters of `s` `strtoul` consumes as octal digits. */
  function OctalPrefixLength(s: string): (n: nat)
    ensures n <= |s|
    ensures forall k :: 0 <= k < n ==> IsOctalDigit(s[k])
    ensures n < |s| ==> !IsOctalDigit(s[n])
  {
    if |s| == 0 || !IsOctalDigit(s[0]) then 0 else 1 + OctalPrefixLength(s[1..])
  }

  /** `strtoul`'s result for a value that may not fit: ULONG_MAX on overflow. */
  function Saturate(v: nat): (r: U32)
    ensures r <= v
    ensures v <= U32_MAX ==> r == v
    ensures v > U32_MAX ==> r == U32_MAX
  {
    if v > U32_MAX then U32_MAX else v
  }

  /**
   * `strtoul(s, NULL, base)` for `base` 10 or 0 on an all-digit string. With
   * base 0 a leading '0' selects octal, and the parse stops at the first
   * digit 8 or 9.
   */
  function Strtoul(s: string, base: nat): U32
    requires AllDigits(s) && (base == 0 || base == 10)
  {
    if base == 0 && |s| > 0 && s[0] == '0' then
      Saturate(DigitsValue(s[..OctalPrefixLength(s)], 8))
    else
      Saturate(DigitsValue(s, 10))
  }

  /** The digit loop of the handlers: false at the first character that is not a digit. */
  method CheckDigits(s: string) returns (ok: bool)
    ensures ok == AllDigits(s)
  {
    for i := 0 to |s|
      invariant forall k :: 0 <= k < i ==> IsDigit(s[k])
    {
      if !IsDigit(s[i]) {
        return false;
      }
    }
    return true;
  }

  /** The nested digit loops of the RTC handler, over every argument. */
  method CheckArgsDigits(args: seq<string>) returns (ok: bool)
    ensures ok == AllArgsDigits(args)
  {
    for j := 0 to |args|
      invariant forall k :: 0 <= k < j ==> AllDigits(args[k])
    {
      var argOk := CheckDigits(args[j]);
      if !argOk {
        return false;
      }
    }
    return true;
  }

  // ---------------------------------------------------------------------
  // Zero-padded decimal text, as a user types it
  // ---------------------------------------------------------------------

  function Pow10(w: nat): (p: nat)
    ensures p >= 1
  {
    if w == 0 then 1 else 10 * Pow10(w - 1)
  }

  function DigitChar(d: nat): (c: char)
    requires d < 10
    ensures IsDigit(c) && DigitVal(c) == d
  {
    (('0' as int) + d) as char
  }

  /** `n` written with exactly `w` decimal digits, leading zeros included. */
  function Decimal(n: nat, w: nat): (s: string)
    ensures |s| == w && AllDigits(s)
  {
    if w == 0 then "" else Decimal(n / 10, w - 1) + [DigitChar(n % 10)]
  }

  /** A zero-padded decimal text denotes its number in base 10. */
  lemma {:induction false} DecimalValue(n: nat, w: nat)
    requires n < Pow10(w)
    ensures DigitsValue(Decimal(n, w), 10) == n
  {
    if w > 0 {
      var s := Decimal(n, w);
      assert s[..w - 1] == Decimal(n / 10, w - 1);
      assert n / 10 < Pow10(w - 1);
      DecimalValue(n / 10, w - 1);
      assert DigitsValue(s, 10) == (n / 10) * 10 + n % 10;
    }
  }

  /** Base 10 `strtoul` reads a padded decimal text back as its number. */
  lemma StrtoulDecimal(n: nat, w: nat)
    requires n < Pow10(w) && n <= U32_MAX
    ensures Strtoul(Decimal(n, w), 10) == n
  {
    DecimalValue(n, w);
  }

  /** The first digit of a padded decimal text is the leading digit of its number. */
  lemma {:induction false} DecimalLead(n: nat, w: nat)
    requires w > 0 && n < Pow10(w)
    ensures Decimal(n, w)[0] == '0' <==> n < Pow10(w - 1)
  {
    if w > 1 {
      assert Decimal(n, w)[0] == Decimal(n / 10, w - 1)[0];
      DecimalLead(n / 10, w - 1);
    } else {
      assert Decimal(n, 1) == [DigitChar(n % 10)];
    }
  }

  /** The field value base 0 `strtoul` reads from a zero-padded two-digit field. */
  function OctalRead(n: nat): nat
  {
    if n == 8 || n == 9 then 0 else n
  }

  /**
   * What base 0 `strtoul` makes of a two-digit field: "10".."99" in decimal,
   * "00".."07" as themselves, and "08"/"09" as 0, because the leading zero
   * selects octal and the parse stops before the 8 or 9.
   */
  lemma OctalTwoDigits(n: nat)
    requires n < 100
    ensures Strtoul(Decimal(n, 2), 0) == OctalRead(n)
  {
    var s := Decimal(n, 2);
    DecimalValue(n, 2);
    DecimalLead(n, 2);
    if n < 10 {
      assert s == ['0', DigitChar(n)];
      if n < 8 {
        assert OctalPrefixLength(s) == 2;
        assert s[..2] == s && s[..1] == ['0'] && s[..1][..0] == [];
        assert DigitsValue(s[..1], 8) == 0;
        assert DigitsValue(s, 8) == n;
      } else {
        assert OctalPrefixLength(s) == 1;
        assert s[..1] == ['0'] && s[..1][..0] == [];
        assert DigitsValue(s[..1], 8) == 0;
      }
    }
  }

  /** Base 0 and base 10 agree on a padded text without a leading zero. */
  lemma StrtoulNoLeadingZero(n: nat, w: nat)
    requires 0 < w && Pow10(w - 1) <= n < Pow10(w) && n <= U32_MAX
    ensures Strtoul(Decimal(n, w), 0) == n
  {
    DecimalLead(n, w);
    DecimalValue(n, w);
  }

  // ---------------------------------------------------------------------
  // RTC: AT+RTC=yyyy:mm:dd:hh:MM
  // ---------------------------------------------------------------------

  /** The arguments handed to `set_rak12002`. */
  datatype DateTime = DateTime(year: nat, month: nat, date: nat, hour: nat, minute: nat)

  /** The ranges the RTC handler accepts (an hour of 24 included). */
  predicate DateInRange(t: DateTime)
  {
    2022 <= t.year <= 3000 && 1 <= t.month <= 12 && 1 <= t.date <= 31 && t.hour <= 24 && t.minute <= 59
  }

  /** The five fields of `args` as `strtoul` in `base` reads them. */
  function RtcFields(args: seq<string>, base: nat): DateTime
    requires |args| == 5 && AllArgsDigits(args) && (base == 0 || base == 10)
  {
    DateTime(Strtoul(args[0], base), Strtoul(args[1], base), Strtoul(args[2], base),
             Strtoul(args[3], base), Strtoul(args[4], base))
  }

  /**
   * The date and time the RTC handler sets for `args`, parsing each field with
   * `strtoul` in `base`, or None when it answers AT_PARAM_ERROR. The handler
   * as written uses base 0.
   */
  function RtcSetting(args: seq<string>, base: nat): (r: Option<DateTime>)
    requires base == 0 || base == 10
    ensures r.Some? <==> |args| == 5 && AllArgsDigits(args) && DateInRange(RtcFields(args, base))
    ensures r.Some? ==> r.value == RtcFields(args, base)
  {
    if |args| != 5 || !AllArgsDigits(args) then None
    else
      var t := RtcFields(args, base);
      if t.year > 3000 || t.year < 2022 then None
      else if t.month < 1 || t.month > 12 then None
      else if t.date < 1 || t.date > 31 then None
      else if t.hour > 24 then None
      else if t.minute > 59 then None
      else Some(t)
  }

  /**
   * `rtc_command_handler`: the query form answers AT_OK without setting the
   * clock; any other form sets it exactly when `RtcSetting` (base 0) accepts,
   * checking the fields one after another.
   */
  method RtcCommand(args: seq<string>) returns (status: AtStatus, setCall: Option<DateTime>)
    ensures IsQuery(args) ==> status == AtOk && setCall == None
    ensures !IsQuery(args) ==> setCall == RtcSetting(args, 0)
    ensures !IsQuery(args) ==> (status == AtOk <==> setCall.Some?)
  {
    if |args| == 1 && args[0] == "?" {
      // read_rak12002 and the printout are not part of this model
      return AtOk, None;
    }
    if |args| != 5 {
      return AtParamError, None;
    }
    var digits := CheckArgsDigits(args);
    if !digits {
      return AtParamError, None;
    }
    var year := Strtoul(args[0], 0);
    if year > 3000 {
      return AtParamError, None;
    }
    if year < 2022 {
      return AtParamError, None;
    }
    var month := Strtoul(args[1], 0);
    if month < 1 || month > 12 {
      return AtParamError, None;
    }
    var date := Strtoul(args[2], 0);
    if date < 1 || date > 31 {
      return AtParamError, None;
    }
    var hour := Strtoul(args[3], 0);
    if hour > 24 {
      return AtParamError, None;
    }
    var minute := Strtoul(args[4], 0);
    if minute > 59 {
      return AtParamError, None;
    }
    return AtOk, Some(DateTime(year, month, date, hour, minute));
  }

  /** The fields of `t` as the zero-padded text of the documented format. */
  function PaddedArgs(t: DateTime): (args: seq<string>)
    ensures |args| == 5 && AllArgsDigits(args)
  {
    [Decimal(t.year, 4), Decimal(t.month, 2), Decimal(t.date, 2), Decimal(t.hour, 2), Decimal(t.minute, 2)]
  }

  /** RTC setting, given what each of the five fields parses to. */
  lemma RtcSettingOfFields(args: seq<string>, base: nat, t: DateTime)
    requires base == 0 || base == 10
    requires |args| == 5 && AllArgsDigits(args) && RtcFields(args, base) == t
    ensures RtcSetting(args, base) == if DateInRange(t) then Some(t) else None
  {
  }

  /** Parsing in decimal, every in-range date typed in the documented format is set as typed. */
  lemma RtcDecimalAcceptsPadded(t: DateTime)
    requires DateInRange(t)
    ensures RtcSetting(PaddedArgs(t), 10) == Some(t)
  {
    var a := PaddedArgs(t);
    assert RtcFields(a, 10) == t by {
      StrtoulDecimal(t.year, 4);
      StrtoulDecimal(t.month, 2);
      StrtoulDecimal(t.date, 2);
      StrtoulDecimal(t.hour, 2);
      StrtoulDecimal(t.minute, 2);
    }
    RtcSettingOfFields(a, 10, t);
  }

  /**
   * The handler as written reads "08" and "09" as 0: August, September and
   * the 8th and 9th of a month are rejected, and hour or minute 8 or 9 is
   * set as 0. Every other in-range date is set as typed.
   */
  lemma RtcOctalMisreadsPadded(t: DateTime)
    requires DateInRange(t)
    ensures var read := DateTime(t.year, OctalRead(t.month), OctalRead(t.date), OctalRead(t.hour), OctalRead(t.minute));
            RtcSetting(PaddedArgs(t), 0) == if DateInRange(read) then Some(read) else None
  {
    var a := PaddedArgs(t);
    var read := DateTime(t.year, OctalRead(t.month), OctalRead(t.date), OctalRead(t.hour), OctalRead(t.minute));
    assert RtcFields(a, 0) == read by {
      StrtoulNoLeadingZero(t.year, 4);
      OctalTwoDigits(t.month);
      OctalTwoDigits(t.date);
      OctalTwoDigits(t.hour);
      OctalTwoDigits(t.minute);
    }
    RtcSettingOfFields(a, 0, read);
  }

  /** A concrete input for the octal reading: 15 August 2024 is refused. */
  lemma RtcRejectsAugust()
    ensures RtcSetting(PaddedArgs(DateTime(2024, 8, 15, 10, 30)), 0) == None
    ensures RtcSetting(PaddedArgs(DateTime(2024, 8, 15, 10, 30)), 10) == Some(DateTime(2024, 8, 15, 10, 30))
  {
    RtcOctalMisreadsPadded(DateTime(2024, 8, 15, 10, 30));
    RtcDecimalAcceptsPadded(DateTime(2024, 8, 15, 10, 30));
  }

  // ---------------------------------------------------------------------
  // SENDINT and GNSS arguments
  // ---------------------------------------------------------------------

  /** The interval in seconds SENDINT accepts, or None for AT_PARAM_ERROR (query aside). */
  function IntervalArgument(args: seq<string>): (r: Option<U32>)
    ensures r.Some? <==> |args| == 1 && AllDigits(args[0])
    ensures r.Some? ==> r.value == Strtoul(args[0], 10)
  {
    if |args| == 1 && AllDigits(args[0]) then Some(Strtoul(args[0], 10)) else None
  }

  /** `g_send_interval_time`, in milliseconds, for an interval of `seconds`: wraps at 2^32. */
  function IntervalMillis(seconds: U32): (ms: U32)
    ensures seconds * 1000 < U32_LIMIT ==> ms == seconds * 1000
    ensures (ms - seconds * 1000) % U32_LIMIT == 0
  {
    ToU32(seconds * 1000)
  }

  /** Lemma: what the SENDINT query prints (`ms / 1000`) is the interval set, unless it wrapped. */
  lemma IntervalQueryEchoes(seconds: U32)
    requires seconds * 1000 < U32_LIMIT
    ensures IntervalMillis(seconds) / 1000 == seconds
  {
  }

  /** The format GNSS accepts, or None for AT_PARAM_ERROR (query aside). */
  function GnssArgument(args: seq<string>): (r: Option<Byte>)
    ensures r.Some? <==> |args| == 1 && AllDigits(args[0]) && Strtoul(args[0], 10) <= FIELD_TESTER
    ensures r.Some? ==> r.value == Strtoul(args[0], 10) && r.value <= FIELD_TESTER
  {
    if |args| == 1 && AllDigits(args[0]) && Strtoul(args[0], 10) <= FIELD_TESTER
    then Some(Strtoul(args[0], 10)) else None
  }

  // ---------------------------------------------------------------------
  // Settings records
  // ---------------------------------------------------------------------

  /** The GNSS record: the format byte, then the marker. */
  function EncodeGnss(format: Byte): (rec: seq<Byte>)
    ensures |rec| == GNSS_RECORD_SIZE && rec[1] == MARKER
  {
    [format, MARKER]
  }

  /**
   * The format `get_at_setting` takes from a GNSS record it has read, None if
   * the format byte is out of range. The marker does not enter: a mismatch
   * only triggers a rewrite.
   */
  function DecodeGnss(rec: seq<Byte>): (r: Option<Byte>)
    requires |rec| == GNSS_RECORD_SIZE
    ensures r.Some? <==> rec[0] <= FIELD_TESTER
    ensures r.Some? ==> r.value == rec[0]
  {
    if rec[0] > FIELD_TESTER then None else Some(rec[0])
  }

  lemma GnssRoundTrip(format: Byte)
    requires format <= FIELD_TESTER
    ensures DecodeGnss(EncodeGnss(format)) == Some(format)
  {
  }

  /** The send-interval record: the interval in little-endian order, then the marker. */
  function EncodeInterval(v: U32): (rec: seq<Byte>)
    ensures |rec| == INTERVAL_RECORD_SIZE && rec[4] == MARKER
  {
    [v % 0x100, (v / 0x100) % 0x100, (v / 0x1_0000) % 0x100, v / 0x100_0000, MARKER]
  }

  /**
   * The interval assembled from the first four bytes of a record. The source
   * ORs in each byte shifted to its own 8 bits, which is the sum below.
   */
  function DecodeInterval(rec: seq<Byte>): (v: U32)
    requires |rec| >= 4
  {
    rec[0] as int + (rec[1] as int) * 0x100 + (rec[2] as int) * 0x1_0000 + (rec[3] as int) * 0x100_0000
  }

  /** Division by 256 and its remainder, pinned down by a candidate quotient. */
  lemma DivMod256(x: int, q: int, r: int)
    requires x == q * 0x100 + r && 0 <= r < 0x100
    ensures x / 0x100 == q && x % 0x100 == r
  {
  }

  lemma IntervalRoundTrip(v: U32)
    ensures DecodeInterval(EncodeInterval(v)) == v
  {
    var q1 := v / 0x100;
    var q2 := q1 / 0x100;
    var q3 := q2 / 0x100;
    DivMod256(v, q1, v % 0x100);
    DivMod256(q1, q2, q1 % 0x100);
    DivMod256(q2, q3, q2 % 0x100);
    assert v / 0x1_0000 == q2;
    assert v / 0x100_0000 == q3;
  }

  /** Every valid record is the encoding of the interval it decodes to. */
  lemma IntervalRecordRoundTrip(rec: seq<Byte>)
    requires |rec| == INTERVAL_RECORD_SIZE && rec[4] == MARKER
    ensures EncodeInterval(DecodeInterval(rec)) == rec
  {
    var v := DecodeInterval(rec);
    var q1 := rec[1] as int + (rec[2] as int) * 0x100 + (rec[3] as int) * 0x1_0000;
    var q2 := rec[2] as int + (rec[3] as int) * 0x100;
    DivMod256(v, q1, rec[0]);
    DivMod256(q1, q2, rec[1]);
    DivMod256(q2, rec[3], rec[2]);
    assert v / 0x1_0000 == q2;
    assert v / 0x100_0000 == rec[3];
  }

  // ---------------------------------------------------------------------
  // The globals and flash records the handlers work on
  // ---------------------------------------------------------------------

  /**
   * `g_send_interval_time`, `gnss_format`, the state of the send timer and
   * the two records in user flash at GNSS_OFFSET and SEND_INTERVAL_OFFSET.
   */
  class AtSettings {
    var sendIntervalTime: U32
    var gnssFormat: Byte
    var timerRunning: bool
    var timerPeriod: U32
    var gnssRecord: seq<Byte>
    var intervalRecord: seq<Byte>

    ghost predicate Valid()
      reads this
    {
      |gnssRecord| == GNSS_RECORD_SIZE && |intervalRecord| == INTERVAL_RECORD_SIZE
    }

    constructor (interval: U32, format: Byte, gnssRec: seq<Byte>, intervalRec: seq<Byte>)
      requires |gnssRec| == GNSS_RECORD_SIZE && |intervalRec| == INTERVAL_RECORD_SIZE
      ensures Valid()
      ensures sendIntervalTime == interval && gnssFormat == format && !timerRunning && timerPeriod == 0
      ensures gnssRecord == gnssRec && intervalRecord == intervalRec
    {
      sendIntervalTime := interval;
      gnssFormat := format;
      timerRunning := false;
      timerPeriod := 0;
      gnssRecord := gnssRec;
      intervalRecord := intervalRec;
    }

    /**
     * `save_at_setting`. The GNSS record reports the flash write's result; the
     * send-interval record reports success whatever the write did.
     */
    method SaveSetting(setting: Setting, writeOk: bool) returns (r: bool)
      requires Valid()
      modifies this`gnssRecord, this`intervalRecord
      ensures Valid()
      ensures setting.GnssOffset? ==>
        r == writeOk && intervalRecord == old(intervalRecord) &&
        gnssRecord == if writeOk then EncodeGnss(gnssFormat) else old(gnssRecord)
      ensures setting.SendIntervalOffset? ==>
        r && gnssRecord == old(gnssRecord) &&
        intervalRecord == if writeOk then EncodeInterval(sendIntervalTime) else old(intervalRecord)
      ensures setting.OtherSetting? ==> !r && gnssRecord == old(gnssRecord) && intervalRecord == old(intervalRecord)
    {
      match setting {
        case GnssOffset =>
          var value := EncodeGnss(gnssFormat);
          if writeOk {
            gnssRecord := value;
          }
          return writeOk;
        case SendIntervalOffset =>
          var value := EncodeInterval(sendIntervalTime);
          if writeOk {
            intervalRecord := value;
          }
          return true;
        case OtherSetting(_) =>
          return false;
      }
    }

    /**
     * `get_at_setting`. A GNSS record with a bad marker is rewritten with
     * format 0, and the format byte that was read is still used afterwards;
     * a send-interval record with a bad marker resets the interval to 0,
     * rewrites the record and reports failure.
     */
    method GetSetting(setting: Setting, readOk: bool, rewriteOk: bool) returns (r: bool)
      requires Valid()
      modifies this`gnssFormat, this`sendIntervalTime, this`gnssRecord, this`intervalRecord
      ensures Valid()
      ensures setting.GnssOffset? ==>
        var rec := old(gnssRecord);
        r == (readOk && DecodeGnss(rec).Some?) &&
        gnssFormat == (if !readOk then old(gnssFormat) else if DecodeGnss(rec).Some? then rec[0] else 0) &&
        gnssRecord == (if readOk && rec[1] != MARKER && rewriteOk then EncodeGnss(0) else rec) &&
        sendIntervalTime == old(sendIntervalTime) && intervalRecord == old(intervalRecord)
      ensures setting.SendIntervalOffset? ==>
        var rec := old(intervalRecord);
        r == (readOk && rec[4] == MARKER) &&
        sendIntervalTime == (if !readOk then old(sendIntervalTime) else if rec[4] == MARKER then DecodeInterval(rec) else 0) &&
        intervalRecord == (if readOk && rec[4] != MARKER && rewriteOk then EncodeInterval(0) else rec) &&
        gnssFormat == old(gnssFormat) && gnssRecord == old(gnssRecord)
      ensures setting.OtherSetting? ==> !r && unchanged(this)
    {
      match setting {
        case GnssOffset =>
          if !readOk {
            return false;
          }
          var value := gnssRecord;
          if value[1] != MARKER {
            gnssFormat := 0;
            var _ := SaveSetting(GnssOffset, rewriteOk);
          }
          if value[0] > FIELD_TESTER {
            gnssFormat := 0;
            return false;
          }
          gnssFormat := value[0];
          return true;
        case SendIntervalOffset =>
          if !readOk {
            return false;
          }
          var value := intervalRecord;
          if value[4] != MARKER {
            sendIntervalTime := 0;
            var _ := SaveSetting(SendIntervalOffset, rewriteOk);
            return false;
          }
          sendIntervalTime := DecodeInterval(value);
          return true;
        case OtherSetting(_) =>
          return false;
      }
    }

    /**
     * `send_interval_handler`: a valid argument sets the interval in
     * milliseconds, stops the send timer, restarts it only for a nonzero
     * interval, and saves the record; the save's result is not looked at.
     */
    method SendIntervalHandler(args: seq<string>, writeOk: bool) returns (status: AtStatus)
      requires Valid()
      modifies this`sendIntervalTime, this`timerRunning, this`timerPeriod, this`gnssRecord, this`intervalRecord
      ensures Valid()
      ensures gnssFormat == old(gnssFormat) && gnssRecord == old(gnssRecord)
      ensures IsQuery(args) || IntervalArgument(args).None? ==>
        status == (if IsQuery(args) then AtOk else AtParamError) && unchanged(this)
      ensures !IsQuery(args) && IntervalArgument(args).Some? ==>
        var ms := IntervalMillis(IntervalArgument(args).value);
        status == AtOk && sendIntervalTime == ms &&
        timerRunning == (ms != 0) && timerPeriod == (if ms != 0 then ms else old(timerPeriod)) &&
        intervalRecord == if writeOk then EncodeInterval(ms) else old(intervalRecord)
    {
      if |args| == 1 && args[0] == "?" {
        // the printout of the current interval is not part of this model
        return AtOk;
      }
      if |args| != 1 {
        return AtParamError;
      }
      var digits := CheckDigits(args[0]);
      if !digits {
        return AtParamError;
      }
      var seconds := Strtoul(args[0], 10);
      sendIntervalTime := IntervalMillis(seconds);
      timerRunning := false;
      if sendIntervalTime != 0 {
        timerRunning := true;
        timerPeriod := sendIntervalTime;
      }
      var _ := SaveSetting(SendIntervalOffset, writeOk);
      return AtOk;
    }

    /**
     * `gnss_format_handler`: a valid argument sets the format, and a failed
     * save then answers AT_PARAM_ERROR with the new format kept.
     */
    method GnssFormatHandler(args: seq<string>, writeOk: bool) returns (status: AtStatus)
      requires Valid()
      modifies this`gnssFormat, this`gnssRecord, this`intervalRecord
      ensures Valid()
      ensures sendIntervalTime == old(sendIntervalTime) && intervalRecord == old(intervalRecord)
      ensures IsQuery(args) || GnssArgument(args).None? ==>
        status == (if IsQuery(args) then AtOk else AtParamError) && unchanged(this)
      ensures !IsQuery(args) && GnssArgument(args).Some? ==>
        gnssFormat == GnssArgument(args).value &&
        gnssRecord == (if writeOk then EncodeGnss(gnssFormat) else old(gnssRecord)) &&
        status == if writeOk then AtOk else AtParamError
    {
      if |args| == 1 && args[0] == "?" {
        // the printout of the current format is not part of this model
        return AtOk;
      }
      if |args| != 1 {
        return AtParamError;
      }
      var digits := CheckDigits(args[0]);
      if !digits {
        return AtParamError;
      }
      var format := Strtoul(args[0], 10);
      if format > FIELD_TESTER {
        return AtParamError;
      }
      gnssFormat := format;
      var saved := SaveSetting(GnssOffset, writeOk);
      if !saved {
        return AtParamError;
      }
      return AtOk;
    }
  }
}
