/** The driver object RTC8564Class (RTC8564.cpp): every public operation and
    the two register transactions they are built on. The chip's sixteen
    registers, which the driver reaches over the I2C bus, are the array
    `regs`; `trace` records every `setRegisters` transaction in the order
    the driver issues it. */
module Driver {
  import opened RegisterMap
  import opened Bcd
  import opened RegisterFile
  import opened DateTimeCodec
  import opened AlarmCodec
  import opened TimerCodec
  import opened Clkout

  /** The alarm `begin` programs: no field enabled, all fields 0. */
  const BEGIN_ALARM: AlarmTime := AlarmTime(0, 0, 0, 0)

  /** The date `begin()` starts the clock with: 2013-01-01 00:00:00, a
      Tuesday. */
  const DEFAULT_DATE_TIME: DateTime := DateTime(0, 0, 0, 1, 1, 13, 2)

  /** The transaction `begin` opens with: STOP set in control1 and control2
      cleared, in one two-byte write. */
  const BEGIN_CONTROL: Write := Write(CONTROL1, [STOP_BIT, 0x00])

  /** Every transaction `begin(dt)` issues, in order: the opening control
      write, then those of setDateTime, setAlarm (nothing enabled, control2
      read as the 0 just written), setClkoutFrequency (disabled, 32768 Hz)
      and setTimer (disabled). */
  function BeginWrites(dt: DateTime): (ws: seq<Write>)
    ensures AllFit(ws) && |ws| == 9
  {
    [BEGIN_CONTROL] + DateTimeWrites(dt) + AlarmWrites(0x00, AE_NONE, BEGIN_ALARM, 0x00) +
    ClkoutWrites(0x00, CLKOUT_32768HZ) + TimerWrites(0x00, 0x00, 0x00, CLK_244US, 0x00, 0x00)
  }

  /** `begin(dt)` as its five steps, each on the registers the step before
      left. */
  lemma BeginChain(regs: seq<bv8>, dt: DateTime)
    requires |regs| == REGISTER_COUNT
    ensures AllFit([BEGIN_CONTROL])
    ensures var r1 := Apply(regs, [BEGIN_CONTROL]);
      var r2 := Apply(r1, DateTimeWrites(dt));
      var r3 := Apply(r2, AlarmWrites(0x00, AE_NONE, BEGIN_ALARM, 0x00));
      var r4 := Apply(r3, ClkoutWrites(0x00, CLKOUT_32768HZ));
      Apply(regs, BeginWrites(dt)) == Apply(r4, TimerWrites(0x00, 0x00, 0x00, CLK_244US, 0x00, 0x00))
  {
    var a := [BEGIN_CONTROL];
    var b := DateTimeWrites(dt);
    var c := AlarmWrites(0x00, AE_NONE, BEGIN_ALARM, 0x00);
    var d := ClkoutWrites(0x00, CLKOUT_32768HZ);
    var e := TimerWrites(0x00, 0x00, 0x00, CLK_244US, 0x00, 0x00);
    ApplyOne(regs, BEGIN_CONTROL);
    ApplyAppend(regs, a, b);
    ApplyAppend(regs, a + b, c);
    ApplyAppend(regs, a + b + c, d);
    ApplyAppend(regs, a + b + c + d, e);
  }

  /** The opening write sets STOP, clears control2 and leaves every other
      register alone. */
  lemma BeginOpening(regs: seq<bv8>)
    requires |regs| == REGISTER_COUNT
    ensures AllFit([BEGIN_CONTROL])
    ensures var r1 := Apply(regs, [BEGIN_CONTROL]);
      r1[CONTROL1] == STOP_BIT && r1[CONTROL2] == 0x00 &&
      (forall i :: SECONDS <= i < REGISTER_COUNT ==> r1[i] == regs[i])
  {
    ApplyOne(regs, BEGIN_CONTROL);
    forall i | 0 <= i < REGISTER_COUNT
      ensures Overwrite(regs, BEGIN_CONTROL)[i] == if i < SECONDS then [STOP_BIT, 0x00][i] else regs[i]
    {
      OverwriteAt(regs, BEGIN_CONTROL, i);
    }
  }

  /** After `begin(dt)`, whatever the registers held: the clock runs
      (control1 is 0), every interrupt enable and flag in control2 is clear
      and the time block holds dt. */
  lemma BeginClockEffect(regs: seq<bv8>, dt: DateTime)
    requires |regs| == REGISTER_COUNT
    ensures var r := Apply(regs, BeginWrites(dt));
      r[CONTROL1] == 0x00 && r[CONTROL2] == 0x00 &&
      (forall i :: SECONDS <= i < SECONDS + TIME_LENGTH ==> r[i] == EncodeDateTime(dt)[i - SECONDS])
  {
    BeginChain(regs, dt);
    BeginOpening(regs);
    var r1 := Apply(regs, [BEGIN_CONTROL]);
    SetDateTimeEffect(r1, dt);
    BeginTail(Apply(r1, DateTimeWrites(dt)), 0x00, AE_NONE, BEGIN_ALARM, 0x00, 0x00, CLKOUT_32768HZ,
              0x00, 0x00, CLK_244US, 0x00, 0x00);
    BeginConstants();
  }

  /** After `begin(dt)`, whatever the registers held: every alarm field
      carries the disable sentinel, CLKOUT and the timer are off, and only
      the timer counter keeps its old value. */
  lemma BeginQuietEffect(regs: seq<bv8>, dt: DateTime)
    requires |regs| == REGISTER_COUNT
    ensures var r := Apply(regs, BeginWrites(dt));
      (forall i :: MINUTE_ALARM <= i <= WEEKDAY_ALARM ==> r[i] == AE_BIT) &&
      r[CLKOUT_FREQUENCY] == 0x00 && r[TIMER_CONTROL] == 0x00 && r[TIMER] == regs[TIMER]
  {
    BeginChain(regs, dt);
    BeginOpening(regs);
    var r1 := Apply(regs, [BEGIN_CONTROL]);
    SetDateTimeEffect(r1, dt);
    BeginTail(Apply(r1, DateTimeWrites(dt)), 0x00, AE_NONE, BEGIN_ALARM, 0x00, 0x00, CLKOUT_32768HZ,
              0x00, 0x00, CLK_244US, 0x00, 0x00);
    BeginConstants();
  }

  /** What the last three steps of `begin` do, for any arguments: setAlarm,
      setClkoutFrequency and a disabled setTimer in a row. */
  lemma BeginTail(r2: seq<bv8>, control2: bv8, enableFlags: bv8, at: AlarmTime, alarmInterrupt: bv8,
                  clkoutEnable: bv8, frequency: bv8, timerRead: bv8, repeatMode: bv8, clockMode: bv8,
                  counter: bv8, timerInterrupt: bv8)
    requires |r2| == REGISTER_COUNT
    ensures var r := Apply(Apply(Apply(r2, AlarmWrites(control2, enableFlags, at, alarmInterrupt)),
                                 ClkoutWrites(clkoutEnable, frequency)),
                           TimerWrites(timerRead, 0x00, repeatMode, clockMode, counter, timerInterrupt));
      r[CONTROL2] == AlarmControl2(control2, alarmInterrupt) &&
      (forall i :: MINUTE_ALARM <= i <= WEEKDAY_ALARM ==> r[i] == AlarmBytes(enableFlags, at)[i - MINUTE_ALARM]) &&
      r[CLKOUT_FREQUENCY] == ClkoutByte(clkoutEnable, frequency) && r[TIMER_CONTROL] == 0x00 &&
      (forall i :: CONTROL1 <= i < MINUTE_ALARM || i == TIMER ==> i != CONTROL2 ==> r[i] == r2[i])
  {
    var r3 := Apply(r2, AlarmWrites(control2, enableFlags, at, alarmInterrupt));
    var r4 := Apply(r3, ClkoutWrites(clkoutEnable, frequency));
    SetAlarmEffect(r2, control2, enableFlags, at, alarmInterrupt);
    SetClkoutEffect(r3, clkoutEnable, frequency);
    SetTimerDisabledEffect(r4, timerRead, repeatMode, clockMode, counter, timerInterrupt);
  }

  /** The bytes `begin` programs: with nothing enabled every alarm byte is
      the disable sentinel, and the control2 and clkout bytes are 0. */
  lemma BeginConstants()
    ensures AlarmBytes(AE_NONE, BEGIN_ALARM) == [AE_BIT, AE_BIT, AE_BIT, AE_BIT]
    ensures AlarmControl2(0x00, 0x00) == 0x00 && ClkoutByte(0x00, CLKOUT_32768HZ) == 0x00
    ensures !ValidAlarmTime(BEGIN_ALARM) && ValidEnabledAlarm(AE_NONE, BEGIN_ALARM)
  {
  }

  /** After `begin(dt)` the driver reads back dt, and reads the alarm back as
      nothing enabled with every field 0. */
  lemma BeginThenGet(regs: seq<bv8>, dt: DateTime)
    requires |regs| == REGISTER_COUNT && ValidDateTime(dt)
    ensures var r := Apply(regs, BeginWrites(dt));
      DecodeDateTime(r[SECONDS..SECONDS + TIME_LENGTH]) == Some(dt) &&
      AlarmEnableMask(r[MINUTE_ALARM..MINUTE_ALARM + ALARM_LENGTH]) == AE_NONE &&
      DecodeAlarmTime(r[MINUTE_ALARM..MINUTE_ALARM + ALARM_LENGTH]) == BEGIN_ALARM
  {
    BeginClockEffect(regs, dt);
    BeginQuietEffect(regs, dt);
    ReadsBackAfterBegin(Apply(regs, BeginWrites(dt)), dt);
  }

  /** Registers whose time block holds dt and whose alarm registers all
      carry the sentinel read back as dt, as nothing enabled and as begin's
      alarm {0, 0, 0, 0}. */
  lemma ReadsBackAfterBegin(r: seq<bv8>, dt: DateTime)
    requires |r| == REGISTER_COUNT && ValidDateTime(dt)
    requires forall i :: SECONDS <= i < SECONDS + TIME_LENGTH ==> r[i] == EncodeDateTime(dt)[i - SECONDS]
    requires forall i :: MINUTE_ALARM <= i <= WEEKDAY_ALARM ==> r[i] == AE_BIT
    ensures DecodeDateTime(r[SECONDS..SECONDS + TIME_LENGTH]) == Some(dt)
    ensures AlarmEnableMask(r[MINUTE_ALARM..MINUTE_ALARM + ALARM_LENGTH]) == AE_NONE
    ensures DecodeAlarmTime(r[MINUTE_ALARM..MINUTE_ALARM + ALARM_LENGTH]) == BEGIN_ALARM
  {
    BlockReadsBack(r, SECONDS, EncodeDateTime(dt));
    BeginConstants();
    BlockReadsBack(r, MINUTE_ALARM, AlarmBytes(AE_NONE, BEGIN_ALARM));
    AlarmMaskRoundTrip(AE_NONE, BEGIN_ALARM);
    AlarmTimeRoundTrip(AE_NONE, BEGIN_ALARM);
    DateTimeRoundTrip(dt);
  }

  /** The registers and the log `begin(dt)` leaves, assembled from its five
      steps as the driver runs them. */
  lemma BeginSteps(dt: DateTime, r0: seq<bv8>, r1: seq<bv8>, r2: seq<bv8>, r3: seq<bv8>, r4: seq<bv8>, r5: seq<bv8>,
                   t0: seq<Write>, t1: seq<Write>, t2: seq<Write>, t3: seq<Write>, t4: seq<Write>, t5: seq<Write>)
    requires |r0| == REGISTER_COUNT && AllFit([BEGIN_CONTROL])
    requires r1 == Apply(r0, [BEGIN_CONTROL]) && t1 == t0 + [BEGIN_CONTROL]
    requires r2 == Apply(r1, DateTimeWrites(dt)) && t2 == t1 + DateTimeWrites(dt)
    requires r3 == Apply(r2, AlarmWrites(r2[CONTROL2], AE_NONE, BEGIN_ALARM, 0x00))
    requires t3 == t2 + AlarmWrites(r2[CONTROL2], AE_NONE, BEGIN_ALARM, 0x00)
    requires r4 == Apply(r3, ClkoutWrites(0x00, CLKOUT_32768HZ)) && t4 == t3 + ClkoutWrites(0x00, CLKOUT_32768HZ)
    requires r5 == Apply(r4, TimerWrites(r4[CONTROL2], 0x00, 0x00, CLK_244US, 0x00, 0x00))
    requires t5 == t4 + TimerWrites(r4[CONTROL2], 0x00, 0x00, CLK_244US, 0x00, 0x00)
    ensures t5 == t0 + BeginWrites(dt)
    ensures r5 == Apply(r0, BeginWrites(dt))
  {
    BeginOpening(r0);
    SetDateTimeEffect(r1, dt);
    assert TimerWrites(r4[CONTROL2], 0x00, 0x00, CLK_244US, 0x00, 0x00) ==
           TimerWrites(0x00, 0x00, 0x00, CLK_244US, 0x00, 0x00);
    BeginChain(r0, dt);
    LogFiveParts(t0, [BEGIN_CONTROL], DateTimeWrites(dt), AlarmWrites(0x00, AE_NONE, BEGIN_ALARM, 0x00),
                 ClkoutWrites(0x00, CLKOUT_32768HZ), TimerWrites(0x00, 0x00, 0x00, CLK_244US, 0x00, 0x00));
  }

  class Rtc8564 {
    /** The chip's register file, CONTROL1 (0x00) to TIMER (0x0F). */
    const regs: array<bv8>
    /** Every transaction written to the chip, oldest first. */
    ghost var trace: seq<Write>

    ghost predicate Valid()
      reads this
    {
      regs.Length == REGISTER_COUNT
    }

    constructor (registers: seq<bv8>)
      requires |registers| == REGISTER_COUNT
      ensures Valid() && fresh(regs) && regs[..] == registers && trace == []
    {
      regs := new bv8[REGISTER_COUNT](i requires 0 <= i < REGISTER_COUNT => registers[i]);
      trace := [];
      new;
      assert regs[..] == registers;
    }

    /** One bus transaction: `data` goes to consecutive registers from
        `address` on. */
    method SetRegisters(address: nat, data: seq<bv8>)
      requires Valid() && address + |data| <= REGISTER_COUNT
      modifies this, regs
      ensures Valid()
      ensures trace == old(trace) + [Write(address, data)]
      ensures regs[..] == Overwrite(old(regs[..]), Write(address, data))
    {
      ghost var before := regs[..];
      forall i | 0 <= i < |data| {
        regs[address + i] := data[i];
      }
      forall i | 0 <= i < REGISTER_COUNT
        ensures regs[i] == Overwrite(before, Write(address, data))[i]
      {
        OverwriteAt(before, Write(address, data), i);
      }
      trace := trace + [Write(address, data)];
    }

    /** Reads `numData` consecutive registers from `address` on. */
    method GetRegisters(address: nat, numData: nat) returns (data: seq<bv8>)
      requires Valid() && address + numData <= REGISTER_COUNT
      ensures data == regs[address..address + numData]
    {
      data := [];
      var i := 0;
      while i < numData
        invariant 0 <= i <= numData
        invariant data == regs[address..address + i]
      {
        data := data + [regs[address + i]];
        i := i + 1;
      }
    }

    /** STOP on, the seven time bytes, STOP off: the buffer is filled field
        by field and the century flag goes into the month byte. */
    method SetDateTime(dt: DateTime)
      requires Valid()
      modifies this, regs
      ensures Valid()
      ensures trace == old(trace) + DateTimeWrites(dt)
      ensures regs[..] == Apply(old(regs[..]), DateTimeWrites(dt))
    {
      ghost var before, log := regs[..], trace;
      SetRegisters(CONTROL1, [STOP_BIT]);
      ghost var w0 := Write(CONTROL1, [STOP_BIT]);
      assert trace == log + [w0];

      var second := DecimalToBcd(dt.second);
      var minute := DecimalToBcd(dt.minute);
      var hour := DecimalToBcd(dt.hour);
      var day := DecimalToBcd(dt.day);
      var weekday := DecimalToBcd(dt.weekday);
      var month := DecimalToBcd(dt.month);
      var year: bv8;
      if dt.year > 100 {
        year := DecimalToBcd(dt.year - 100);
        month := month | CAL_CENTURY;
      } else {
        year := DecimalToBcd(dt.year);
      }
      var data := [second, minute, hour, day, weekday, month, year];
      SetRegisters(SECONDS, data);
      ghost var w1 := Write(SECONDS, data);
      assert trace == log + [w0] + [w1];

      SetRegisters(CONTROL1, [0x00]);
      ghost var w2 := Write(CONTROL1, [0x00]);
      assert trace == log + [w0] + [w1] + [w2];
      assert regs[..] == Overwrite(Overwrite(Overwrite(before, w0), w1), w2);
      DateTimeWritesSteps(dt, month, year, w0, w1, w2);
      LogThree(log, w0, w1, w2);
      ApplyThree(before, w0, w1, w2);
    }

    /** Returns -1 and leaves `dt` as given when the voltage-low flag is set;
        otherwise 0 and the decoded date and time. */
    method GetDateTime(dt: DateTime) returns (rc: int, result: DateTime)
      requires Valid()
      ensures match DecodeDateTime(regs[SECONDS..SECONDS + TIME_LENGTH])
        case None => rc == -1 && result == dt
        case Some(decoded) => rc == 0 && result == decoded
    {
      var data := GetRegisters(SECONDS, TIME_LENGTH);
      if HasBit(data[0], CAL_VL) {
        return -1, dt;
      }
      var second := BcdToDecimal(data[0] & 0x7f);
      var minute := BcdToDecimal(data[1] & 0x7f);
      var hour := BcdToDecimal(data[2] & 0x3f);
      var day := BcdToDecimal(data[3] & 0x3f);
      var weekday := BcdToDecimal(data[4] & 0x07);
      var month := BcdToDecimal(data[5] & 0x1f);
      var year := BcdToDecimal(data[6]);
      ghost var yearRead := year;
      if HasBit(data[5], CAL_CENTURY) {
        year := year + 100;
      }
      result := DateTime(second, minute, hour, day, month, year, weekday);
      rc := 0;
      DecodeDateTimeSteps(data, yearRead, result);
    }

    /** AIE off, the four alarm registers, AIE as asked: the interrupt
        cannot fire on a half-written alarm. */
    method SetAlarm(enableFlags: bv8, at: AlarmTime, interruptEnable: bv8)
      requires Valid()
      modifies this, regs
      ensures Valid()
      ensures trace == old(trace) + AlarmWrites(old(regs[CONTROL2]), enableFlags, at, interruptEnable)
      ensures regs[..] == Apply(old(regs[..]), AlarmWrites(old(regs[CONTROL2]), enableFlags, at, interruptEnable))
    {
      ghost var before, log := regs[..], trace;
      var read := GetRegisters(CONTROL2, 1);
      var control2 := read[0];
      ghost var readByte := control2;
      assert readByte == before[CONTROL2];

      control2 := control2 & !AIE_BIT;
      ghost var first := control2;
      SetRegisters(CONTROL2, [control2]);
      ghost var w0 := Write(CONTROL2, [first]);
      assert trace == log + [w0];

      var data := AlarmBytes(enableFlags, at);
      SetRegisters(MINUTE_ALARM, data);
      ghost var w1 := Write(MINUTE_ALARM, data);
      assert trace == log + [w0] + [w1];

      control2 := if interruptEnable != 0 then control2 | AIE_BIT else control2 & !AIE_BIT;
      SetRegisters(CONTROL2, [control2]);
      ghost var w2 := Write(CONTROL2, [control2]);
      assert trace == log + [w0] + [w1] + [w2];
      assert regs[..] == Overwrite(Overwrite(Overwrite(before, w0), w1), w2);
      AlarmWritesSteps(readByte, enableFlags, at, interruptEnable, first, control2, w0, w1, w2);
      LogThree(log, w0, w1, w2);
      ApplyThree(before, w0, w1, w2);
    }

    /** Rebuilds the enable mask bit by bit and decodes the four alarm
        fields. */
    method GetAlarm() returns (enableFlags: bv8, at: AlarmTime)
      requires Valid()
      ensures enableFlags == AlarmEnableMask(regs[MINUTE_ALARM..MINUTE_ALARM + ALARM_LENGTH])
      ensures at == DecodeAlarmTime(regs[MINUTE_ALARM..MINUTE_ALARM + ALARM_LENGTH])
    {
      var data := GetRegisters(MINUTE_ALARM, ALARM_LENGTH);
      at := AlarmTime(BcdToDecimal(data[0] & 0x7f), BcdToDecimal(data[1] & 0x3f),
                      BcdToDecimal(data[2] & 0x3f), BcdToDecimal(data[3] & 0x07));
      enableFlags := 0;
      var i := 0;
      while i < ALARM_LENGTH
        invariant 0 <= i <= ALARM_LENGTH
        invariant (enableFlags & !AE_ALL) == 0
        invariant forall j :: 0 <= j < ALARM_LENGTH ==>
          (HasBit(enableFlags, AlarmEnableBit(j)) <==> j < i && !HasBit(data[j], AE_BIT))
      {
        if !HasBit(data[i], AE_BIT) {
          AlarmBlockLayout(i);
          AddEnableBit(enableFlags, i);
          enableFlags := enableFlags | ((1 as bv8) << i);
        }
        i := i + 1;
      }
      MaskFromBits(enableFlags, AlarmEnableMask(data));
    }

    /** 1 when the alarm flag AF is set, 0 otherwise. */
    method GetAlarmFlag() returns (r: int)
      requires Valid()
      ensures r == 0 || r == 1
      ensures r == 1 <==> HasBit(regs[CONTROL2], AF_BIT)
    {
      var read := GetRegisters(CONTROL2, 1);
      r := if HasBit(read[0], AF_BIT) then 1 else 0;
    }

    method ClearAlarmFlag()
      requires Valid()
      modifies this, regs
      ensures Valid()
      ensures trace == old(trace) + ClearAlarmFlagWrites(old(regs[CONTROL2]))
      ensures regs[..] == Apply(old(regs[..]), ClearAlarmFlagWrites(old(regs[CONTROL2])))
    {
      ghost var before := regs[..];
      var read := GetRegisters(CONTROL2, 1);
      var control2 := read[0];
      assert control2 == before[CONTROL2];
      control2 := control2 & !AF_BIT;
      SetRegisters(CONTROL2, [control2]);
      ApplyOne(before, Write(CONTROL2, [control2]));
    }

    /** Stops the timer; when enabled, reprograms control2 in two steps,
        loads the counter and starts the timer last. */
    method SetTimer(enableFlag: bv8, repeatMode: bv8, clockMode: bv8, counter: bv8, interruptEnable: bv8)
      requires Valid()
      modifies this, regs
      ensures Valid()
      ensures trace == old(trace) + TimerWrites(old(regs[CONTROL2]), enableFlag, repeatMode, clockMode, counter, interruptEnable)
      ensures regs[..] == Apply(old(regs[..]), TimerWrites(old(regs[CONTROL2]), enableFlag, repeatMode, clockMode, counter, interruptEnable))
    {
      ghost var before, log := regs[..], trace;
      SetRegisters(TIMER_CONTROL, [0x00]);
      ghost var w0 := Write(TIMER_CONTROL, [0x00]);
      assert trace == log + [w0];
      assert regs[..] == Overwrite(before, w0);

      if enableFlag != 0 {
        var read := GetRegisters(CONTROL2, 1);
        var control2 := read[0];
        ghost var readByte := control2;
        assert readByte == before[CONTROL2];
        control2 := control2 & !(TITP_BIT | TF_BIT | TIE_BIT);
        ghost var staged := control2;
        SetRegisters(CONTROL2, [control2]);
        ghost var w1 := Write(CONTROL2, [staged]);
        assert trace == log + [w0] + [w1];

        if repeatMode != 0 {
          control2 := control2 | TITP_BIT;
        }
        ghost var withRepeat := control2;
        if interruptEnable != 0 {
          control2 := control2 | TIE_BIT;
        }
        SetRegisters(CONTROL2, [control2]);
        ghost var w2 := Write(CONTROL2, [control2]);
        assert trace == log + [w0] + [w1] + [w2];
        SetRegisters(TIMER, [counter]);
        ghost var w3 := Write(TIMER, [counter]);
        assert trace == log + [w0] + [w1] + [w2] + [w3];

        var timerControl := clockMode | TE_BIT;
        SetRegisters(TIMER_CONTROL, [timerControl]);
        ghost var w4 := Write(TIMER_CONTROL, [timerControl]);
        assert trace == log + [w0] + [w1] + [w2] + [w3] + [w4];
        assert regs[..] == Overwrite(Overwrite(Overwrite(Overwrite(Overwrite(before, w0), w1), w2), w3), w4);
        TimerWritesSteps(readByte, enableFlag, repeatMode, clockMode, counter, interruptEnable,
                         staged, withRepeat, control2, timerControl, w0, w1, w2, w3, w4);
        LogFive(log, w0, w1, w2, w3, w4);
        ApplyFive(before, w0, w1, w2, w3, w4);
      } else {
        ApplyOne(before, w0);
      }
    }

    /** 1 when the timer flag TF is set, 0 otherwise. */
    method GetTimerFlag() returns (r: int)
      requires Valid()
      ensures r == 0 || r == 1
      ensures r == 1 <==> HasBit(regs[CONTROL2], TF_BIT)
    {
      var read := GetRegisters(CONTROL2, 1);
      r := if HasBit(read[0], TF_BIT) then 1 else 0;
    }

    method ClearTimerFlag()
      requires Valid()
      modifies this, regs
      ensures Valid()
      ensures trace == old(trace) + ClearTimerFlagWrites(old(regs[CONTROL2]))
      ensures regs[..] == Apply(old(regs[..]), ClearTimerFlagWrites(old(regs[CONTROL2])))
    {
      ghost var before := regs[..];
      var read := GetRegisters(CONTROL2, 1);
      var control2 := read[0];
      assert control2 == before[CONTROL2];
      control2 := control2 & !TF_BIT;
      SetRegisters(CONTROL2, [control2]);
      ApplyOne(before, Write(CONTROL2, [control2]));
    }

    method SetClkoutFrequency(enableFlag: bv8, frequency: bv8)
      requires Valid()
      modifies this, regs
      ensures Valid()
      ensures trace == old(trace) + ClkoutWrites(enableFlag, frequency)
      ensures regs[..] == Apply(old(regs[..]), ClkoutWrites(enableFlag, frequency))
    {
      var b := frequency;
      if enableFlag != 0 {
        b := b | FE_BIT;
      } else {
        b := b & !FE_BIT;
      }
      SetRegisters(CLKOUT_FREQUENCY, [b]);
    }

    /** Stops the clock with control2 cleared, then sets the date and
        switches the alarm, CLKOUT and the timer off. */
    method Begin(dt: DateTime)
      requires Valid()
      modifies this, regs
      ensures Valid()
      ensures trace == old(trace) + BeginWrites(dt)
      ensures regs[..] == Apply(old(regs[..]), BeginWrites(dt))
    {
      ghost var r0, t0 := regs[..], trace;
      SetRegisters(CONTROL1, [STOP_BIT, 0x00]);
      ghost var r1, t1 := regs[..], trace;
      SetDateTime(dt);
      ghost var r2, t2 := regs[..], trace;
      SetAlarm(AE_NONE, BEGIN_ALARM, 0x00);
      ghost var r3, t3 := regs[..], trace;
      SetClkoutFrequency(0x00, CLKOUT_32768HZ);
      ghost var r4, t4 := regs[..], trace;
      SetTimer(0x00, 0x00, CLK_244US, 0x00, 0x00);
      BeginSteps(dt, r0, r1, r2, r3, r4, regs[..], t0, t1, t2, t3, t4, trace);
    }

    /** `begin()`: `begin` with 2013-01-01 00:00:00, a Tuesday. */
    method BeginDefault()
      requires Valid()
      modifies this, regs
      ensures Valid()
      ensures trace == old(trace) + BeginWrites(DEFAULT_DATE_TIME)
      ensures regs[..] == Apply(old(regs[..]), BeginWrites(DEFAULT_DATE_TIME))
    {
      Begin(DEFAULT_DATE_TIME);
    }
  }
}
