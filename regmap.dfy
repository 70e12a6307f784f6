/** The register map, control bits and record types of the RTC-8564 driver
    (RTC8564.h). Every register and every record field is one byte. */
module RegisterMap {
  import opened Bcd

  /** Number of registers the chip exposes (addresses 0x00 to 0x0F). */
  const REGISTER_COUNT: nat := 16

  // Register addresses
  const CONTROL1: nat := 0x00
  const CONTROL2: nat := 0x01
  const SECONDS: nat := 0x02
  const MINUTES: nat := 0x03
  const HOURS: nat := 0x04
  const DAYS: nat := 0x05
  const WEEKDAYS: nat := 0x06
  const MONTH_CENTURY: nat := 0x07
  const YEARS: nat := 0x08
  const MINUTE_ALARM: nat := 0x09
  const HOUR_ALARM: nat := 0x0a
  const DAY_ALARM: nat := 0x0b
  const WEEKDAY_ALARM: nat := 0x0c
  const CLKOUT_FREQUENCY: nat := 0x0d
  const TIMER_CONTROL: nat := 0x0e
  const TIMER: nat := 0x0f

  /** Length of the time block SECONDS..YEARS and of the alarm block. */
  const TIME_LENGTH: nat := 7
  const ALARM_LENGTH: nat := 4

  // Control1 register
  const STOP_BIT: bv8 := 0x20

  // Control2 register
  const TIE_BIT: bv8 := 0x01
  const AIE_BIT: bv8 := 0x02
  const TF_BIT: bv8 := 0x04
  const AF_BIT: bv8 := 0x08
  const TITP_BIT: bv8 := 0x10

  // Alarm enable mask
  const AE_NONE: bv8 := 0x00
  const AE_MINUTE: bv8 := 0x01
  const AE_HOUR: bv8 := 0x02
  const AE_DAY: bv8 := 0x04
  const AE_WEEKDAY: bv8 := 0x08
  const AE_ALL: bv8 := AE_MINUTE | AE_HOUR | AE_DAY | AE_WEEKDAY

  /** Bit 7 of an alarm register: the field takes no part in the match. */
  const AE_BIT: bv8 := 0x80

  // Timer control register: clock source codes and the timer-enable bit
  const CLK_244US: bv8 := 0x00
  const CLK_15MS: bv8 := 0x01
  const CLK_1SEC: bv8 := 0x02
  const CLK_1MIN: bv8 := 0x03
  const TE_BIT: bv8 := 0x80

  // Clkout frequency register: frequency codes and the output-enable bit
  const CLKOUT_32768HZ: bv8 := 0x00
  const CLKOUT_1024HZ: bv8 := 0x01
  const CLKOUT_32HZ: bv8 := 0x02
  const CLKOUT_1HZ: bv8 := 0x03
  const FE_BIT: bv8 := 0x80

  /** Voltage-low flag in bit 7 of the seconds register and century flag in
      bit 7 of the month register. The driver uses both names without
      defining them. Both are taken as bit 7: the seconds read mask 0x7f strips
      exactly that bit, and the month read mask 0x1f strips it along with
      bits 5 and 6. */
  const CAL_VL: bv8 := 0x80
  const CAL_CENTURY: bv8 := 0x80

  /** `struct dateTime`, in the header's field order. The year counts from
      2000, so 0..199 stands for 2000..2199. */
  datatype DateTime = DateTime(second: bv8, minute: bv8, hour: bv8, day: bv8,
                               month: bv8, year: bv8, weekday: bv8)

  /** `struct alarmTime`. */
  datatype AlarmTime = AlarmTime(minute: bv8, hour: bv8, day: bv8, weekday: bv8)

  /** The field ranges the header documents for a date and time. Within
      them the encodings of the two fields whose byte also carries a flag
      (seconds with VL, month with the century) leave that flag's bit
      clear. */
  predicate ValidDateTime(dt: DateTime)
    ensures ValidDateTime(dt) ==> !HasBit(DecimalToBcd(dt.second), CAL_VL)
    ensures ValidDateTime(dt) ==> !HasBit(DecimalToBcd(dt.month), CAL_CENTURY)
  {
    dt.second <= 59 && dt.minute <= 59 && dt.hour <= 23 &&
    1 <= dt.day <= 31 && 1 <= dt.month <= 12 && dt.year <= 199 &&
    dt.weekday <= 6
  }

  /** The field ranges the header documents for an alarm. Within them no
      encoded field carries the 0x80 sentinel bit. */
  predicate ValidAlarmTime(at: AlarmTime)
    ensures ValidAlarmTime(at) ==> !HasBit(DecimalToBcd(at.minute), AE_BIT) && !HasBit(DecimalToBcd(at.hour), AE_BIT)
    ensures ValidAlarmTime(at) ==> !HasBit(DecimalToBcd(at.day), AE_BIT) && !HasBit(DecimalToBcd(at.weekday), AE_BIT)
  {
    at.minute <= 59 && at.hour <= 23 && 1 <= at.day <= 31 && at.weekday <= 6
  }

  /** The value of alarm field `i` (0 minute, 1 hour, 2 day, 3 weekday). */
  function AlarmField(at: AlarmTime, i: nat): bv8
    requires i < ALARM_LENGTH
  {
    match i
    case 0 => at.minute
    case 1 => at.hour
    case 2 => at.day
    case 3 => at.weekday
  }

  /** The enable-mask bit of alarm field `i`, as named in the header. */
  function AlarmEnableBit(i: nat): bv8
    requires i < ALARM_LENGTH
  {
    [AE_MINUTE, AE_HOUR, AE_DAY, AE_WEEKDAY][i]
  }

  /** True when `b` has some bit of `mask` set, a nonzero `b & mask`. The
      driver passes single-bit masks, so this is how it tests a flag. */
  predicate HasBit(b: bv8, mask: bv8) {
    (b & mask) != 0
  }

  predicate IsSingleBit(b: bv8) {
    b != 0 && (b & (b - 1)) == 0
  }

  /** The seven time registers are contiguous and in the order the driver's
      data[0..6] uses: seconds, minutes, hours, days, weekdays, month, years. */
  lemma TimeBlockLayout()
    ensures MINUTES == SECONDS + 1 && HOURS == SECONDS + 2 && DAYS == SECONDS + 3
    ensures WEEKDAYS == SECONDS + 4 && MONTH_CENTURY == SECONDS + 5
    ensures YEARS == SECONDS + TIME_LENGTH - 1
    ensures MINUTE_ALARM == YEARS + 1
  {
  }

  /** The four alarm registers are contiguous, so enable bit i (which is
      1 << i) selects register MINUTE_ALARM + i. */
  lemma AlarmBlockLayout(i: nat)
    requires i < ALARM_LENGTH
    ensures AlarmEnableBit(i) == (1 as bv8) << i
    ensures [MINUTE_ALARM, HOUR_ALARM, DAY_ALARM, WEEKDAY_ALARM][i] == MINUTE_ALARM + i
    ensures MINUTE_ALARM + ALARM_LENGTH == CLKOUT_FREQUENCY
  {
  }

  /** AE_ALL is the union of four distinct single bits, i.e. 0x0F. */
  lemma AlarmEnableBits()
    ensures AE_ALL == 0x0F
    ensures forall i :: 0 <= i < ALARM_LENGTH ==> IsSingleBit(AlarmEnableBit(i))
    ensures forall i, j :: 0 <= i < j < ALARM_LENGTH ==> (AlarmEnableBit(i) & AlarmEnableBit(j)) == 0
  {
  }

  /** The five control2 bits: TIE, AIE, TF, AF and TITP. */
  const CONTROL2_BITS: seq<bv8> := [TIE_BIT, AIE_BIT, TF_BIT, AF_BIT, TITP_BIT]

  /** The control2 bits are five distinct single bits, so clearing or setting
      one of them leaves every other one as it was. */
  lemma Control2BitsIsolated(c: bv8, i: nat, j: nat)
    requires i < |CONTROL2_BITS| && j < |CONTROL2_BITS| && i != j
    ensures IsSingleBit(CONTROL2_BITS[i])
    ensures (CONTROL2_BITS[i] & CONTROL2_BITS[j]) == 0
    ensures HasBit(c & !CONTROL2_BITS[i], CONTROL2_BITS[j]) == HasBit(c, CONTROL2_BITS[j])
    ensures HasBit(c | CONTROL2_BITS[i], CONTROL2_BITS[j]) == HasBit(c, CONTROL2_BITS[j])
  {
  }

  /** Every clock-source and clkout code lies below the enable bit, so OR-ing
      the enable bit in (or masking it out) leaves the code readable. */
  lemma CodesBelowEnableBits(code: bv8)
    requires code in [CLK_244US, CLK_15MS, CLK_1SEC, CLK_1MIN] ||
             code in [CLKOUT_32768HZ, CLKOUT_1024HZ, CLKOUT_32HZ, CLKOUT_1HZ]
    ensures code < TE_BIT && code < FE_BIT
    ensures ((code | TE_BIT) & !TE_BIT) == code && ((code | FE_BIT) & !FE_BIT) == code
    ensures (code & !FE_BIT) == code
  {
  }
}
