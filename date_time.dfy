/** The time registers SECONDS..YEARS: how `setDateTime` lays a date out
    in seven BCD bytes bracketed by the STOP bit, and how `getDateTime`
    reads it back (RTC8564.cpp:28-74). */
module DateTimeCodec {
  import opened RegisterMap
  import opened Bcd
  import opened RegisterFile

  datatype Option<T> = None | Some(value: T)

  /** The seven bytes `setDateTime` writes at SECONDS, in register order:
      seconds, minutes, hours, days, weekdays, month (century flag in bit 7),
      years. Only a year strictly above 100 sets the century flag. */
  function EncodeDateTime(dt: DateTime): (data: seq<bv8>)
    ensures |data| == TIME_LENGTH
    ensures dt.year > 100 ==> HasBit(data[5], CAL_CENTURY)
    ensures dt.month < 80 ==> (HasBit(data[5], CAL_CENTURY) <==> dt.year > 100)
    ensures dt.second < 80 ==> !HasBit(data[0], CAL_VL)
  {
    var century := dt.year > 100;
    var month := DecimalToBcd(dt.month);
    [DecimalToBcd(dt.second), DecimalToBcd(dt.minute), DecimalToBcd(dt.hour),
     DecimalToBcd(dt.day), DecimalToBcd(dt.weekday),
     if century then month | CAL_CENTURY else month,
     if century then DecimalToBcd(dt.year - 100) else DecimalToBcd(dt.year)]
  }

  /** What `getDateTime` makes of the seven time bytes: nothing when the
      voltage-low flag is set, otherwise each field decoded under its mask,
      with 100 added to the year when the century flag is set (an 8-bit
      field, so the sum wraps as the driver's does). */
  function DecodeDateTime(data: seq<bv8>): (r: Option<DateTime>)
    requires |data| == TIME_LENGTH
    ensures r.None? <==> HasBit(data[0], CAL_VL)
  {
    if HasBit(data[0], CAL_VL) then None
    else
      var year := BcdToDecimal(data[6]);
      Some(DateTime(
        second := BcdToDecimal(data[0] & 0x7f),
        minute := BcdToDecimal(data[1] & 0x7f),
        hour := BcdToDecimal(data[2] & 0x3f),
        day := BcdToDecimal(data[3] & 0x3f),
        month := BcdToDecimal(data[5] & 0x1f),
        year := if HasBit(data[5], CAL_CENTURY) then year + 100 else year,
        weekday := BcdToDecimal(data[4] & 0x07)))
  }

  /** The date and time decoded field by field, as `getDateTime` fills its
      result: `yearRead` is the year byte before the century correction. */
  lemma DecodeDateTimeSteps(data: seq<bv8>, yearRead: bv8, result: DateTime)
    requires |data| == TIME_LENGTH && !HasBit(data[0], CAL_VL)
    requires result.second == BcdToDecimal(data[0] & 0x7f) && result.minute == BcdToDecimal(data[1] & 0x7f)
    requires result.hour == BcdToDecimal(data[2] & 0x3f) && result.day == BcdToDecimal(data[3] & 0x3f)
    requires result.weekday == BcdToDecimal(data[4] & 0x07) && result.month == BcdToDecimal(data[5] & 0x1f)
    requires yearRead == BcdToDecimal(data[6])
    requires result.year == if HasBit(data[5], CAL_CENTURY) then yearRead + 100 else yearRead
    ensures DecodeDateTime(data) == Some(result)
  {
  }

  /** The transactions `setDateTime` issues, in order: STOP on, the time
      block, control1 cleared. */
  function DateTimeWrites(dt: DateTime): (ws: seq<Write>)
    ensures AllFit(ws)
  {
    [Write(CONTROL1, [STOP_BIT]), Write(SECONDS, EncodeDateTime(dt)), Write(CONTROL1, [0x00])]
  }

  /** The transactions, step by step, as `setDateTime` issues them: the
      seven bytes are built field by field, `month` and `year` as the
      century test leaves them. */
  lemma DateTimeWritesSteps(dt: DateTime, month: bv8, year: bv8, w0: Write, w1: Write, w2: Write)
    requires month == if dt.year > 100 then DecimalToBcd(dt.month) | CAL_CENTURY else DecimalToBcd(dt.month)
    requires year == if dt.year > 100 then DecimalToBcd(dt.year - 100) else DecimalToBcd(dt.year)
    requires w0 == Write(CONTROL1, [STOP_BIT]) && w2 == Write(CONTROL1, [0x00])
    requires w1 == Write(SECONDS, [DecimalToBcd(dt.second), DecimalToBcd(dt.minute), DecimalToBcd(dt.hour),
                                   DecimalToBcd(dt.day), DecimalToBcd(dt.weekday), month, year])
    ensures [w0, w1, w2] == DateTimeWrites(dt)
  {
  }

  /** The STOP bracket: the first transaction sets STOP in control1, the last
      clears control1, every write to a time register lies strictly between
      them and nothing in between touches control1. */
  predicate StopBracketed(ws: seq<Write>) {
    |ws| >= 2 &&
    ws[0] == Write(CONTROL1, [STOP_BIT]) && ws[|ws| - 1] == Write(CONTROL1, [0x00]) &&
    (forall k, i :: 0 <= k < |ws| && SECONDS <= i <= YEARS && Covers(ws[k], i) ==> 0 < k < |ws| - 1) &&
    (forall k :: 0 < k < |ws| - 1 ==> !Covers(ws[k], CONTROL1))
  }

  lemma DateTimeWritesBracketed(dt: DateTime)
    ensures StopBracketed(DateTimeWrites(dt))
    ensures exists k :: 0 <= k < |DateTimeWrites(dt)| && DateTimeWrites(dt)[k] == Write(SECONDS, EncodeDateTime(dt))
  {
    assert DateTimeWrites(dt)[1] == Write(SECONDS, EncodeDateTime(dt));
  }

  /** After `setDateTime` control1 is 0 (clock running), the time block holds
      the encoded date, and no other register has changed. */
  lemma SetDateTimeEffect(regs: seq<bv8>, dt: DateTime)
    requires |regs| == REGISTER_COUNT
    ensures var r := Apply(regs, DateTimeWrites(dt));
      r[CONTROL1] == 0x00 &&
      (forall i :: SECONDS <= i < SECONDS + TIME_LENGTH ==> r[i] == EncodeDateTime(dt)[i - SECONDS]) &&
      r[CONTROL2] == regs[CONTROL2] &&
      (forall i :: MINUTE_ALARM <= i < REGISTER_COUNT ==> r[i] == regs[i])
  {
    var ws := DateTimeWrites(dt);
    var r := Apply(regs, ws);
    LastWriteWins(regs, ws, 2, CONTROL1);
    ApplyUntouched(regs, ws, CONTROL2);
    forall i | SECONDS <= i < SECONDS + TIME_LENGTH ensures r[i] == EncodeDateTime(dt)[i - SECONDS] {
      LastWriteWins(regs, ws, 1, i);
    }
    forall i | MINUTE_ALARM <= i < REGISTER_COUNT ensures r[i] == regs[i] {
      ApplyUntouched(regs, ws, i);
    }
  }

  /** The documented field ranges put every encoded byte in BCD (the month
      byte once its century flag is masked off) except for year 100, whose
      year byte is 0xA0 and which carries no century flag. */
  lemma EncodedBytesAreBcd(dt: DateTime)
    requires ValidDateTime(dt) && dt.year != 100
    ensures var data := EncodeDateTime(dt);
      IsBcd(data[0]) && IsBcd(data[1]) && IsBcd(data[2]) && IsBcd(data[3]) &&
      IsBcd(data[4]) && IsBcd(data[5] & !CAL_CENTURY) && IsBcd(data[6])
  {
  }

  /** Year 100 fails the strict test `year > 100`: it is written as the
      non-BCD byte 0xA0 with no century flag. The driver's own decoder still
      reads it back as 100. */
  lemma Year100Encoding(dt: DateTime)
    requires ValidDateTime(dt) && dt.year == 100
    ensures EncodeDateTime(dt)[6] == 0xA0 && !IsBcd(0xA0)
    ensures !HasBit(EncodeDateTime(dt)[5], CAL_CENTURY)
    ensures DecodeDateTime(EncodeDateTime(dt)) == Some(dt)
  {
  }

  /** Reading back what was written gives the same date and time, for every
      date in the documented ranges (years 0..199). */
  lemma DateTimeRoundTrip(dt: DateTime)
    requires ValidDateTime(dt)
    ensures DecodeDateTime(EncodeDateTime(dt)) == Some(dt)
  {
    var data := EncodeDateTime(dt);
    SecondsMinutesRoundTrip(dt);
    HoursDaysWeekdaysRoundTrip(dt);
    MonthRoundTrip(dt);
    YearRoundTrip(dt);
    DecodeFields(data, dt);
  }

  lemma SecondsMinutesRoundTrip(dt: DateTime)
    requires ValidDateTime(dt)
    ensures var data := EncodeDateTime(dt);
      !HasBit(data[0], CAL_VL) &&
      BcdToDecimal(data[0] & 0x7f) == dt.second && BcdToDecimal(data[1] & 0x7f) == dt.minute
  {
    FieldRoundTrip(dt.second, 0x7f);
    FieldRoundTrip(dt.minute, 0x7f);
  }

  lemma HoursDaysWeekdaysRoundTrip(dt: DateTime)
    requires ValidDateTime(dt)
    ensures var data := EncodeDateTime(dt);
      BcdToDecimal(data[2] & 0x3f) == dt.hour && BcdToDecimal(data[3] & 0x3f) == dt.day &&
      BcdToDecimal(data[4] & 0x07) == dt.weekday
  {
    FieldRoundTrip(dt.hour, 0x3f);
    FieldRoundTrip(dt.day, 0x3f);
    FieldRoundTrip(dt.weekday, 0x07);
  }

  /** The month byte decodes to the month once the century flag is masked. */
  lemma MonthRoundTrip(dt: DateTime)
    requires ValidDateTime(dt)
    ensures BcdToDecimal(EncodeDateTime(dt)[5] & 0x1f) == dt.month
  {
    FieldRoundTrip(dt.month, 0x1f);
    var month := DecimalToBcd(dt.month);
    assert ((month | CAL_CENTURY) & 0x1f) == (month & 0x1f);
  }

  /** The year byte decodes to the year, the century flag accounting for
      years above 100. */
  lemma YearRoundTrip(dt: DateTime)
    requires ValidDateTime(dt)
    ensures var data := EncodeDateTime(dt);
      (if HasBit(data[5], CAL_CENTURY) then BcdToDecimal(data[6]) + 100 else BcdToDecimal(data[6])) == dt.year
  {
    if dt.year > 100 {
      DecimalRoundTrip(dt.year - 100);
    } else if dt.year == 100 {
      Year100Encoding(dt);
    } else {
      DecimalRoundTrip(dt.year);
    }
  }

  /** `getDateTime` decodes field by field: when each field of `data`
      decodes to the matching field of `dt`, the whole record does. */
  lemma DecodeFields(data: seq<bv8>, dt: DateTime)
    requires |data| == TIME_LENGTH && !HasBit(data[0], CAL_VL)
    requires BcdToDecimal(data[0] & 0x7f) == dt.second
    requires BcdToDecimal(data[1] & 0x7f) == dt.minute
    requires BcdToDecimal(data[2] & 0x3f) == dt.hour
    requires BcdToDecimal(data[3] & 0x3f) == dt.day
    requires BcdToDecimal(data[4] & 0x07) == dt.weekday
    requires BcdToDecimal(data[5] & 0x1f) == dt.month
    requires (if HasBit(data[5], CAL_CENTURY) then BcdToDecimal(data[6]) + 100 else BcdToDecimal(data[6])) == dt.year
    ensures DecodeDateTime(data) == Some(dt)
  {
  }

  /** One field: masking the encoded byte with the field's read mask and
      decoding gives the value back. */
  lemma FieldRoundTrip(v: bv8, mask: bv8)
    requires (v <= 79 && mask == 0x7f) || (v <= 39 && mask == 0x3f) ||
             (v <= 19 && mask == 0x1f) || (v <= 7 && mask == 0x07)
    ensures BcdToDecimal(DecimalToBcd(v) & mask) == v
  {
    MaskKeepsBcd(v, mask);
    DecimalRoundTrip(v);
  }

  /** `getDateTime` after `setDateTime`, through the register file: whatever
      the registers held before, the date comes back unchanged. */
  lemma SetThenGetDateTime(regs: seq<bv8>, dt: DateTime)
    requires |regs| == REGISTER_COUNT && ValidDateTime(dt)
    ensures DecodeDateTime(Apply(regs, DateTimeWrites(dt))[SECONDS..SECONDS + TIME_LENGTH]) == Some(dt)
  {
    SetDateTimeEffect(regs, dt);
    BlockReadsBack(Apply(regs, DateTimeWrites(dt)), SECONDS, EncodeDateTime(dt));
    DateTimeRoundTrip(dt);
  }

  /** Saturday 2024-06-15 00:00:00 as register bytes and back. */
  lemma Example20240615()
    ensures EncodeDateTime(DateTime(0, 0, 0, 15, 6, 24, 6)) == [0x00, 0x00, 0x00, 0x15, 0x06, 0x06, 0x24]
    ensures DecodeDateTime([0x00, 0x00, 0x00, 0x15, 0x06, 0x06, 0x24]) == Some(DateTime(0, 0, 0, 15, 6, 24, 6))
    ensures EncodeDateTime(DateTime(0, 0, 0, 15, 6, 124, 6))[5..] == [0x86, 0x24]
  {
  }
}
