# RTC-8564 real-time-clock driver, modelled in Dafny

This project models `RTC8564Class`, the Arduino driver for the Epson RTC-8564
real-time clock (RTC8564.cpp, RTC8564.h). The chip's sixteen registers are an
`array<bv8>`. Every `setRegisters` transaction the driver issues is recorded
in a ghost `trace`.

Every public operation is a method of the class `Driver.Rtc8564`:

- `begin`
- `setDateTime` / `getDateTime`
- `setAlarm` / `getAlarm`
- `getAlarmFlag` / `clearAlarmFlag`
- `setTimer`
- `getTimerFlag` / `clearTimerFlag`
- `setClkoutFrequency`

Each method follows the source step by step, with the same reads, writes,
branches and masks. Each method that writes is proved against a pure function
listing the transactions it issues, in order (`DateTimeWrites`, `AlarmWrites`,
`TimerWrites`, and so on). It ensures both:

- `trace == old(trace) + XxxWrites(..)`;
- `regs[..] == Apply(old(regs[..]), XxxWrites(..))`.

Lemmas then prove what those transactions do to the registers:

- the round trip through the BCD codec;
- the date/time and alarm round trips through the registers;
- the write orderings:
  - the STOP bracket;
  - AIE off while the alarm is rewritten;
  - the timer stopped before it is reprogrammed and started last;
- frame conditions;
- that clearing a flag is idempotent.

Modules, one per file:

| file | module | models |
|---|---|---|
| regmap.dfy | `RegisterMap` | register addresses, control bits, the two record types and their documented ranges (RTC8564.h) |
| bcd.dfy | `Bcd` | `decimalToBCD`, `BCDToDecimal` |
| register_file.dfy | `RegisterFile` | what a `setRegisters` transaction, and a sequence of them, does to the register file |
| date_time.dfy | `DateTimeCodec` | the time block: `setDateTime`, `getDateTime` |
| alarm.dfy | `AlarmCodec` | the alarm block and alarm flag: `setAlarm`, `getAlarm`, `clearAlarmFlag` |
| timer.dfy | `TimerCodec` | the timer: `setTimer`, `clearTimerFlag` |
| clkout.dfy | `Clkout` | `setClkoutFrequency` |
| driver.dfy | `Driver` | the driver class and `begin` |

Bytes are `bv8`, as in the source's `uint8_t`. Flag arguments (`enableFlag`,
`interruptEnable`, ...) are bytes compared with `!= 0`, as C reads them as truth values. The
source computes `decimalToBCD` in `int` and stores the result in a byte. The
8-bit shift here drops the same high bits. `BCDToDecimal` never exceeds 165, so
8-bit and `int` arithmetic agree (`BcdToDecimalNoWrap`). `year += 100` wraps
like the source's `uint8_t` field.

The year is a strict test. The code sets the century flag only for
`year > 100`, while the header documents years 2000-2199. Year 100 is therefore
written as the non-BCD byte 0xA0 without the century flag. The driver's own
decoder still reads it back as 100 (`Year100Encoding`), so the round trip holds
for every documented year.

The source differs from its header and comments in four places. The model
follows the `.cpp` in each:

- The header declares `setAlarmInterrupt` and `setTimerInterrupt`, but the
  `.cpp` defines `setAlarm` and `setTimer`.
- The `.cpp` defines `getAlarm` (RTC8564.cpp:100), which the class
  declaration (RTC8564.h:79-110) does not declare. It is modelled as a method
  of the class like the others.
- The struct fields are plural in the header and singular in the `.cpp`.
- The comment on `begin()` says 00:00:50, but the seconds field is 0.

Three names the `.cpp` uses are defined in neither file:

- The flags `RTCS8564_CAL_VL` and `RTCS8564_CAL_CENTURY` are taken as bit 7.
  The seconds read mask 0x7f strips exactly that bit. The month read mask 0x1f
  strips it along with bits 5 and 6.
- The slave address `RTCS8564_I2C_ADDRESS` (RTC8564.cpp:14) only selects the
  chip on the bus, which is not modelled.

## Model

| member | source | states |
|---|---|---|
| Bcd.DecimalToBcd | RTC8564.cpp:188-190 | for 0..99 the encoding is BCD, its high nibble is the tens and its low nibble the units |
| Bcd.DecimalToBcdBit7 | RTC8564.cpp:188-190 | for 0..99, bit 7 of the encoding is clear exactly below 80 |
| Bcd.BcdToDecimal | RTC8564.cpp:192-194 | the decoded value never exceeds 165, and is below 100 for a BCD byte |
| Bcd.BcdToDecimalNoWrap | RTC8564.cpp:192-194 | the 8-bit decode equals 10 * high nibble + low nibble in unbounded arithmetic, as the driver's int computes it |
| Bcd.DecimalRoundTrip | RTC8564.cpp:188-194 | decoding undoes encoding for every value 0..99 |
| Bcd.BcdRoundTrip | RTC8564.cpp:188-194 | encoding undoes decoding for every BCD byte |
| Bcd.DecimalToBcdInjective | RTC8564.cpp:188-190 | two different values 0..99 never encode to the same byte |
| Bcd.MaskKeepsBcd | RTC8564.cpp:61-66 | each read mask (0x7f, 0x3f, 0x1f, 0x07) leaves the encoding of an in-range field value unchanged |
| RegisterMap.ValidDateTime | RTC8564.h:61-69 | the header's field ranges; within them the encoded seconds leave the VL bit clear and the encoded month leaves the century bit clear |
| RegisterMap.ValidAlarmTime | RTC8564.h:72-77 | the header's field ranges; within them no encoded field carries the 0x80 sentinel bit |
| RegisterMap.TimeBlockLayout | RTC8564.h:10-17 | the seven time registers are contiguous in the order data[0..6] uses, and the alarm block follows them |
| RegisterMap.AlarmBlockLayout | RTC8564.h:17-21 | enable bit i is 1 << i and selects alarm register MINUTE_ALARM + i; the alarm block ends where CLKOUT begins |
| RegisterMap.AlarmEnableBits | RTC8564.h:36-41 | AE_ALL is 0x0F, the union of four distinct single bits |
| RegisterMap.Control2BitsIsolated | RTC8564.h:28-33 | the five control2 bits are distinct single bits, so setting or clearing one leaves every other one as it was |
| RegisterMap.CodesBelowEnableBits | RTC8564.h:46-58 | every clock-source and clkout code lies below the enable bit, so OR-ing the enable bit in or masking it out keeps the code |
| RegisterFile.Overwrite | RTC8564.cpp:202-207 | one transaction leaves a register file of sixteen registers |
| RegisterFile.OverwriteAt | RTC8564.cpp:202-207 | after a transaction, a register it covers holds the byte written to it and every other register keeps its value |
| RegisterFile.Apply | RTC8564.cpp:202-207 | a sequence of transactions leaves a register file of sixteen registers |
| RegisterFile.ApplyAppend | RTC8564.cpp:202-207 | running one block of transactions and then another equals running their concatenation |
| RegisterFile.ApplyUntouched | RTC8564.cpp:202-207 | a register that no transaction covers keeps its value |
| RegisterFile.LastWriteWins | RTC8564.cpp:202-207 | a register holds what the last transaction covering it wrote there |
| RegisterFile.RewriteUnchanged | RTC8564.cpp:202-207 | writing back bytes a block already holds leaves the register file unchanged |
| RegisterFile.BlockReadsBack | RTC8564.cpp:209-219 | a block that holds `data` byte by byte reads back as `data` |
| DateTimeCodec.EncodeDateTime | RTC8564.cpp:34-45 | seven bytes; the century flag is set in the month byte when year > 100, and exactly then for months below 80; VL is never set for seconds below 80 |
| DateTimeCodec.DecodeDateTime | RTC8564.cpp:57-71 | no result exactly when the voltage-low flag is set |
| DateTimeCodec.DateTimeWrites | RTC8564.cpp:28-50 | the three transactions setDateTime issues, in order, each inside the sixteen registers; their content is stated by DateTimeWritesBracketed and SetDateTimeEffect |
| DateTimeCodec.DateTimeWritesSteps | RTC8564.cpp:28-50 | the buffer filled field by field, with the century branch, gives exactly the three transactions STOP on, time block, control1 cleared |
| DateTimeCodec.DecodeDateTimeSteps | RTC8564.cpp:61-71 | the fields decoded one by one, with the year corrected afterwards, give DecodeDateTime |
| DateTimeCodec.DateTimeWritesBracketed | RTC8564.cpp:31-49 | STOP is set before any time register is written and cleared after the last one, and nothing in between touches control1 |
| DateTimeCodec.SetDateTimeEffect | RTC8564.cpp:28-50 | after setDateTime, control1 is 0, the time block holds the encoded date, and control2, the alarm, clkout and timer registers are unchanged |
| DateTimeCodec.EncodedBytesAreBcd | RTC8564.cpp:34-45 | within the header's ranges (year 100 excepted), every byte written is BCD once the century flag is masked |
| DateTimeCodec.Year100Encoding | RTC8564.cpp:40-45 | year 100 is written as 0xA0 without the century flag and still decodes to 100 |
| DateTimeCodec.DateTimeRoundTrip | RTC8564.cpp:28-74 | decoding the encoded bytes gives back every date in the header's ranges |
| DateTimeCodec.YearRoundTrip | RTC8564.cpp:40-45 | the year byte plus the century flag decode to the year, on both sides of 100 |
| DateTimeCodec.MonthRoundTrip | RTC8564.cpp:39-42 | the month byte decodes to the month under mask 0x1f, whatever the century flag |
| DateTimeCodec.SecondsMinutesRoundTrip | RTC8564.cpp:34-35 | the seconds and minutes bytes decode back, and the VL bit is clear |
| DateTimeCodec.HoursDaysWeekdaysRoundTrip | RTC8564.cpp:36-38 | the hour, day and weekday bytes decode back under their masks |
| DateTimeCodec.DecodeFields | RTC8564.cpp:61-71 | when every field decodes to the matching field of dt, the whole record decodes to dt |
| DateTimeCodec.FieldRoundTrip | RTC8564.cpp:61-66 | masking an encoded byte with its field's read mask and decoding gives the value back |
| DateTimeCodec.SetThenGetDateTime | RTC8564.cpp:28-74 | getDateTime after setDateTime returns the date, whatever the registers held before |
| DateTimeCodec.Example20240615 | RTC8564.cpp:28-74 | 2024-06-15 encodes to 00 00 00 15 06 06 24 and back; year 124 sets the century flag |
| AlarmCodec.AlarmBytes | RTC8564.cpp:86-89 | a field whose enable bit is set gets its BCD value; every other field gets the 0x80 sentinel |
| AlarmCodec.WithoutAie | RTC8564.cpp:83 | AIE is clear and every other control2 bit is as read |
| AlarmCodec.AlarmControl2 | RTC8564.cpp:92-96 | AIE is set exactly when interrupts are asked for; every other control2 bit is as read |
| AlarmCodec.AlarmWrites | RTC8564.cpp:76-98 | the three transactions setAlarm issues, in order, each inside the sixteen registers; their content is stated by AlarmWritesGuarded and SetAlarmEffect |
| AlarmCodec.AlarmWritesSteps | RTC8564.cpp:76-98 | the two control2 bytes and the data buffer, as computed, give exactly AlarmWrites |
| AlarmCodec.AlarmWritesGuarded | RTC8564.cpp:80-97 | the first transaction clears AIE, every alarm-register write comes after it, no transaction in between writes control2, and the last transaction writes AIE back |
| AlarmCodec.SetAlarmEffect | RTC8564.cpp:76-98 | after setAlarm, control2 has AIE as asked and its other bits as read, the alarm registers hold AlarmBytes, and nothing else changed |
| AlarmCodec.AlarmWritesEffect | RTC8564.cpp:84-97 | the same for any three transactions of that shape |
| AlarmCodec.AlarmEnableMask | RTC8564.cpp:110-115 | bit i is set exactly when alarm register i lacks the sentinel, and no bit outside AE_ALL is set |
| AlarmCodec.DecodeAlarmTime | RTC8564.cpp:105-108 | decoded minutes are at most 165 and weekdays at most 7 |
| AlarmCodec.ValidEnabledAlarm | RTC8564.h:72-77 | the header's range for each enabled field only; it holds for every alarm in range and for any alarm with nothing enabled, such as begin's {0, 0, 0, 0} |
| AlarmCodec.AlarmMaskRoundTrip | RTC8564.cpp:76-116 | getAlarm reads back the enable mask setAlarm wrote, restricted to AE_ALL, whatever the disabled fields hold |
| AlarmCodec.MaskFromBits | RTC8564.cpp:110-115 | two masks that agree on the four enable bits and have no other bit set are equal |
| AlarmCodec.AddEnableBit | RTC8564.cpp:111-115 | OR-ing enable bit i into the mask adds bit i and keeps every other enable bit and every bit outside AE_ALL |
| AlarmCodec.AlarmTimeRoundTrip | RTC8564.cpp:76-116 | getAlarm reads back each enabled field's value, and 0 for a field carrying the sentinel, whatever value a disabled field had |
| AlarmCodec.AlarmFieldRoundTrip | RTC8564.cpp:86-108 | one alarm field's byte decodes to its value when enabled and to 0 otherwise; a disabled field's value is unconstrained |
| AlarmCodec.ClearAlarmFlagWrites | RTC8564.cpp:126-132 | the one transaction clearAlarmFlag issues, inside the sixteen registers; its effect is stated by ClearAlarmFlagEffect |
| AlarmCodec.ClearAlarmFlagEffect | RTC8564.cpp:126-132 | clearAlarmFlag clears AF, keeps every other control2 bit and register, and a second call changes nothing |
| TimerCodec.StagedControl2 | RTC8564.cpp:143 | TITP, TF and TIE are clear and every other control2 bit is as read |
| TimerCodec.TimerControl2 | RTC8564.cpp:143-152 | TF is clear, TITP and TIE are as asked, and every other control2 bit is as read |
| TimerCodec.StartByte | RTC8564.cpp:157 | TE is set and the clock source is kept |
| TimerCodec.TimerWrites | RTC8564.cpp:134-160 | the transactions setTimer issues, in order, each inside the sixteen registers; their content is stated by TimerWritesStaged and the effect lemmas |
| TimerCodec.TimerWritesSteps | RTC8564.cpp:134-160 | the bytes computed step by step, repeat and interrupt branches included, give exactly the enabled TimerWrites |
| TimerCodec.TimerWritesStaged | RTC8564.cpp:138-159 | the first transaction stops the timer; when enabled, the only other timer-control write is the last one, sets TE, and follows every control2 and counter write |
| TimerCodec.SetTimerDisabledEffect | RTC8564.cpp:138-141 | a disabled setTimer zeroes timer-control and changes nothing else |
| TimerCodec.SetTimerEnabledEffect | RTC8564.cpp:134-160 | an enabled setTimer leaves control2 = TimerControl2 of the byte read, the counter, and the clock source with TE, and changes nothing else |
| TimerCodec.EnabledWritesEffect | RTC8564.cpp:139-158 | the same for any five transactions of that shape |
| TimerCodec.TimerRestart | RTC8564.cpp:134-160 | after setTimer the timer runs exactly when enabled, with this call's clock source and counter; a disabled call keeps the counter |
| TimerCodec.ClearTimerFlagWrites | RTC8564.cpp:170-176 | the one transaction clearTimerFlag issues, inside the sixteen registers; its effect is stated by ClearTimerFlagEffect |
| TimerCodec.ClearTimerFlagEffect | RTC8564.cpp:170-176 | clearTimerFlag clears TF, keeps every other control2 bit and register, and a second call changes nothing |
| Clkout.ClkoutByte | RTC8564.cpp:178-183 | FE is set exactly when enabled; the other seven bits are the frequency's |
| Clkout.ClkoutWrites | RTC8564.cpp:178-186 | the one transaction setClkoutFrequency issues, inside the sixteen registers; its effect is stated by SetClkoutEffect |
| Clkout.ClkoutCodes | RTC8564.cpp:178-186 | for the four frequency codes the register holds the code, plus 0x80 when enabled |
| Clkout.SetClkoutEffect | RTC8564.cpp:178-186 | after setClkoutFrequency the clkout register holds ClkoutByte and nothing else changed |
| Driver.BeginWrites | RTC8564.cpp:10-26 | begin issues nine well-formed transactions |
| Driver.BeginChain | RTC8564.cpp:19-25 | begin's transactions equal its five steps, each applied to the registers the step before left |
| Driver.BeginOpening | RTC8564.cpp:19-20 | the opening write sets STOP, clears control2 and leaves the other registers alone |
| Driver.BeginTail | RTC8564.cpp:23-25 | setAlarm, setClkoutFrequency and a disabled setTimer in a row set control2, the alarm block, clkout and timer-control, and keep every other register |
| Driver.BeginConstants | RTC8564.cpp:12-25 | with nothing enabled, every alarm byte is the sentinel, and the control2 and clkout bytes begin writes are 0; begin's alarm {0, 0, 0, 0} is outside the header's ranges yet meets ValidEnabledAlarm |
| Driver.BeginClockEffect | RTC8564.cpp:10-26 | after begin(dt) the clock runs, control2 is 0 and the time block holds dt, whatever the registers held |
| Driver.BeginQuietEffect | RTC8564.cpp:10-26 | after begin(dt) every alarm field carries the sentinel, CLKOUT and the timer are off, and the counter is unchanged |
| Driver.BeginThenGet | RTC8564.cpp:10-26 | after begin(dt), getDateTime returns dt and getAlarm reports no field enabled and the alarm {0, 0, 0, 0} |
| Driver.ReadsBackAfterBegin | RTC8564.cpp:52-116 | registers holding dt's bytes and four sentinels read back as dt, an empty mask and the alarm {0, 0, 0, 0}, by the alarm round trips |
| Driver.BeginSteps | RTC8564.cpp:19-25 | the log and registers begin's five steps leave are BeginWrites and its Apply, once the alarm step reads the 0 control2 just written |
| Driver.Rtc8564.constructor | RTC8564.cpp:221 | a driver over the given register contents, with an empty trace |
| Driver.Rtc8564.SetRegisters | RTC8564.cpp:202-207 | appends one transaction to the trace and overwrites the covered registers, all others unchanged |
| Driver.Rtc8564.GetRegisters | RTC8564.cpp:209-219 | returns the numData registers from address on |
| Driver.Rtc8564.SetDateTime | RTC8564.cpp:28-50 | issues exactly DateTimeWrites(dt), and the registers are their Apply |
| Driver.Rtc8564.GetDateTime | RTC8564.cpp:52-74 | returns -1 with dt unchanged when VL is set, otherwise 0 and the decoded date |
| Driver.Rtc8564.SetAlarm | RTC8564.cpp:76-98 | issues exactly AlarmWrites of the control2 byte it read, and the registers are their Apply |
| Driver.Rtc8564.GetAlarm | RTC8564.cpp:100-116 | the mask rebuilt bit by bit in the loop is AlarmEnableMask of the alarm block, and the fields are DecodeAlarmTime |
| Driver.Rtc8564.GetAlarmFlag | RTC8564.cpp:118-124 | 1 exactly when AF is set, otherwise 0 |
| Driver.Rtc8564.ClearAlarmFlag | RTC8564.cpp:126-132 | issues exactly ClearAlarmFlagWrites of the control2 byte read, and the registers are their Apply |
| Driver.Rtc8564.SetTimer | RTC8564.cpp:134-160 | issues exactly TimerWrites of the control2 byte read (one transaction when disabled, five when enabled), and the registers are their Apply |
| Driver.Rtc8564.GetTimerFlag | RTC8564.cpp:162-168 | 1 exactly when TF is set, otherwise 0 |
| Driver.Rtc8564.ClearTimerFlag | RTC8564.cpp:170-176 | issues exactly ClearTimerFlagWrites of the control2 byte read, and the registers are their Apply |
| Driver.Rtc8564.SetClkoutFrequency | RTC8564.cpp:178-186 | issues exactly ClkoutWrites, and the registers are their Apply |
| Driver.Rtc8564.Begin | RTC8564.cpp:10-26 | issues exactly BeginWrites(dt), and the registers are their Apply |
| Driver.Rtc8564.BeginDefault | RTC8564.cpp:4-8 | begin() is begin with 2013-01-01 00:00:00, a Tuesday |

## Left out

- The I2C bus (`Wire`), `waitForData`, `delay(1000)` and the slave address are
  not modelled. A transaction is modelled as its effect on the register
  array.
- The chip's own behaviour is not modelled: the clock ticking, flags raised by
  hardware, and read-only or unused register bits. Registers hold exactly
  what was last written.
- The global instance `RTC8564` is modelled only as the constructor.
- Driver.Rtc8564.SetRegisters: requires that the block fits inside the
  sixteen registers. Every call in the source does, so the chip's address
  wrap-around is not modelled.
- Driver.Rtc8564.GetRegisters: requires that the block fits inside the
  sixteen registers, for the same reason.
- Driver.Rtc8564.SetAlarm: builds the four alarm bytes with `AlarmBytes`,
  an expression with the source's four conditionals, rather than four
  separate element assignments.
- AlarmCodec.DecodeAlarmTime: states only bounds. What it decodes is stated
  by `AlarmTimeRoundTrip` and by `Driver.Rtc8564.GetAlarm`.
- DateTimeCodec.DecodeDateTime: its own contract states only when a date is
  returned. The values are stated by `DecodeDateTimeSteps` and
  `DateTimeRoundTrip`.
