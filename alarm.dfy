/** The alarm registers MINUTE_ALARM..WEEKDAY_ALARM and the alarm bits of
    control2: what `setAlarm` writes and in which order, what `getAlarm`
    reads back, and the alarm-flag accessors (RTC8564.cpp:76-132). */
module AlarmCodec {
  import opened RegisterMap
  import opened Bcd
  import opened RegisterFile

  /** The four bytes `setAlarm` writes: the BCD value of each field whose
      enable bit is set, the 0x80 sentinel for every other field. */
  function AlarmBytes(enableFlags: bv8, at: AlarmTime): (data: seq<bv8>)
    ensures |data| == ALARM_LENGTH
    ensures forall i :: 0 <= i < ALARM_LENGTH && !HasBit(enableFlags, AlarmEnableBit(i)) ==> data[i] == AE_BIT
    ensures forall i :: 0 <= i < ALARM_LENGTH && HasBit(enableFlags, AlarmEnableBit(i)) ==>
              data[i] == DecimalToBcd(AlarmField(at, i))
  {
    [if HasBit(enableFlags, AE_MINUTE) then DecimalToBcd(at.minute) else AE_BIT,
     if HasBit(enableFlags, AE_HOUR) then DecimalToBcd(at.hour) else AE_BIT,
     if HasBit(enableFlags, AE_DAY) then DecimalToBcd(at.day) else AE_BIT,
     if HasBit(enableFlags, AE_WEEKDAY) then DecimalToBcd(at.weekday) else AE_BIT]
  }

  /** control2 with AIE cleared, as `setAlarm` first writes it back. */
  function WithoutAie(control2: bv8): (c: bv8)
    ensures !HasBit(c, AIE_BIT)
    ensures (c & !AIE_BIT) == (control2 & !AIE_BIT)
  {
    control2 & !AIE_BIT
  }

  /** The control2 byte `setAlarm` writes last: AIE set or cleared as asked. */
  function AlarmControl2(control2: bv8, interruptEnable: bv8): (c: bv8)
    ensures HasBit(c, AIE_BIT) <==> interruptEnable != 0
    ensures (c & !AIE_BIT) == (control2 & !AIE_BIT)
  {
    var cleared := WithoutAie(control2);
    if interruptEnable != 0 then cleared | AIE_BIT else cleared & !AIE_BIT
  }

  /** The transactions `setAlarm` issues, given the control2 byte it read:
      AIE off, the four alarm registers, then control2 with AIE as asked. */
  function AlarmWrites(control2: bv8, enableFlags: bv8, at: AlarmTime, interruptEnable: bv8): (ws: seq<Write>)
    ensures AllFit(ws)
  {
    [Write(CONTROL2, [WithoutAie(control2)]),
     Write(MINUTE_ALARM, AlarmBytes(enableFlags, at)),
     Write(CONTROL2, [AlarmControl2(control2, interruptEnable)])]
  }

  /** The transactions, step by step, as `setAlarm` issues them: `first`
      and `last` are the two control2 bytes it computes from the byte it
      read. */
  lemma AlarmWritesSteps(control2: bv8, enableFlags: bv8, at: AlarmTime, interruptEnable: bv8,
                         first: bv8, last: bv8, w0: Write, w1: Write, w2: Write)
    requires first == control2 & !AIE_BIT
    requires last == if interruptEnable != 0 then first | AIE_BIT else first & !AIE_BIT
    requires w0 == Write(CONTROL2, [first])
    requires w1 == Write(MINUTE_ALARM, AlarmBytes(enableFlags, at))
    requires w2 == Write(CONTROL2, [last])
    ensures [w0, w1, w2] == AlarmWrites(control2, enableFlags, at, interruptEnable)
  {
  }

  /** The alarm-interrupt guard: the first transaction writes control2 with
      AIE clear, every write to an alarm register comes after it, nothing
      in between writes control2, and the last transaction is the one that
      writes AIE back. So AIE stays off while any alarm register changes. */
  predicate AieGuarded(ws: seq<Write>) {
    |ws| >= 2 &&
    ws[0].address == CONTROL2 && |ws[0].data| == 1 && !HasBit(ws[0].data[0], AIE_BIT) &&
    ws[|ws| - 1].address == CONTROL2 && |ws[|ws| - 1].data| == 1 &&
    (forall k, i :: 0 <= k < |ws| && MINUTE_ALARM <= i <= WEEKDAY_ALARM && Covers(ws[k], i) ==> 0 < k < |ws| - 1) &&
    (forall k :: 0 < k < |ws| - 1 ==> !Covers(ws[k], CONTROL2))
  }

  lemma AlarmWritesGuarded(control2: bv8, enableFlags: bv8, at: AlarmTime, interruptEnable: bv8)
    ensures AieGuarded(AlarmWrites(control2, enableFlags, at, interruptEnable))
  {
  }

  /** After `setAlarm`, given the control2 byte it read: control2 is the
      byte AlarmControl2 computes from it (AIE as asked, every other bit as
      read), the alarm registers hold AlarmBytes, and nothing else changed. */
  lemma SetAlarmEffect(regs: seq<bv8>, control2: bv8, enableFlags: bv8, at: AlarmTime, interruptEnable: bv8)
    requires |regs| == REGISTER_COUNT
    ensures var r := Apply(regs, AlarmWrites(control2, enableFlags, at, interruptEnable));
      r[CONTROL2] == AlarmControl2(control2, interruptEnable) &&
      (forall i :: MINUTE_ALARM <= i <= WEEKDAY_ALARM ==> r[i] == AlarmBytes(enableFlags, at)[i - MINUTE_ALARM]) &&
      (forall i :: 0 <= i < REGISTER_COUNT && i != CONTROL2 && !(MINUTE_ALARM <= i <= WEEKDAY_ALARM) ==> r[i] == regs[i])
  {
    var ws := AlarmWrites(control2, enableFlags, at, interruptEnable);
    AlarmWritesEffect(regs, ws, AlarmBytes(enableFlags, at), AlarmControl2(control2, interruptEnable));
  }

  /** The same, for any three transactions of that shape. */
  lemma AlarmWritesEffect(regs: seq<bv8>, ws: seq<Write>, data: seq<bv8>, last: bv8)
    requires |regs| == REGISTER_COUNT && |data| == ALARM_LENGTH && |ws| == 3
    requires ws[0].address == CONTROL2 && |ws[0].data| == 1
    requires ws[1] == Write(MINUTE_ALARM, data) && ws[2] == Write(CONTROL2, [last])
    ensures AllFit(ws)
    ensures var r := Apply(regs, ws);
      r[CONTROL2] == last &&
      (forall i :: MINUTE_ALARM <= i <= WEEKDAY_ALARM ==> r[i] == data[i - MINUTE_ALARM]) &&
      (forall i :: 0 <= i < REGISTER_COUNT && i != CONTROL2 && !(MINUTE_ALARM <= i <= WEEKDAY_ALARM) ==> r[i] == regs[i])
  {
    assert Fits(ws[0]) && Fits(ws[1]) && Fits(ws[2]);
    var r := Apply(regs, ws);
    LastWriteWins(regs, ws, 2, CONTROL2);
    forall i | MINUTE_ALARM <= i <= WEEKDAY_ALARM ensures r[i] == data[i - MINUTE_ALARM] {
      LastWriteWins(regs, ws, 1, i);
    }
    forall i | 0 <= i < REGISTER_COUNT && i != CONTROL2 && !(MINUTE_ALARM <= i <= WEEKDAY_ALARM) ensures r[i] == regs[i] {
      ApplyUntouched(regs, ws, i);
    }
  }

  /** The enable mask `getAlarm` rebuilds: bit i set exactly when alarm
      register i does not carry the 0x80 sentinel. */
  function AlarmEnableMask(data: seq<bv8>): (mask: bv8)
    requires |data| == ALARM_LENGTH
    ensures (mask & !AE_ALL) == 0
    ensures forall i :: 0 <= i < ALARM_LENGTH ==> (HasBit(mask, AlarmEnableBit(i)) <==> !HasBit(data[i], AE_BIT))
  {
    (if HasBit(data[0], AE_BIT) then 0 else AE_MINUTE) |
    (if HasBit(data[1], AE_BIT) then 0 else AE_HOUR) |
    (if HasBit(data[2], AE_BIT) then 0 else AE_DAY) |
    (if HasBit(data[3], AE_BIT) then 0 else AE_WEEKDAY)
  }

  /** The alarm fields `getAlarm` decodes, each under its read mask. */
  function DecodeAlarmTime(data: seq<bv8>): (at: AlarmTime)
    requires |data| == ALARM_LENGTH
    ensures at.minute <= 165 && at.weekday <= 7
  {
    AlarmTime(BcdToDecimal(data[0] & 0x7f), BcdToDecimal(data[1] & 0x3f),
              BcdToDecimal(data[2] & 0x3f), BcdToDecimal(data[3] & 0x07))
  }

  /** The header's range for every field whose enable bit is set; a disabled
      field is written as the sentinel, so its value does not matter. */
  predicate ValidEnabledAlarm(enableFlags: bv8, at: AlarmTime)
    ensures ValidAlarmTime(at) ==> ValidEnabledAlarm(enableFlags, at)
    ensures ValidEnabledAlarm(AE_NONE, at)
  {
    (HasBit(enableFlags, AE_MINUTE) ==> at.minute <= 59) &&
    (HasBit(enableFlags, AE_HOUR) ==> at.hour <= 23) &&
    (HasBit(enableFlags, AE_DAY) ==> 1 <= at.day <= 31) &&
    (HasBit(enableFlags, AE_WEEKDAY) ==> at.weekday <= 6)
  }

  /** Reading back the enable mask after `setAlarm` gives the mask that was
      written, restricted to its four meaningful bits. */
  lemma AlarmMaskRoundTrip(enableFlags: bv8, at: AlarmTime)
    requires ValidEnabledAlarm(enableFlags, at)
    ensures AlarmEnableMask(AlarmBytes(enableFlags, at)) == enableFlags & AE_ALL
  {
    var data := AlarmBytes(enableFlags, at);
    var mask := AlarmEnableMask(data);
    forall i | 0 <= i < ALARM_LENGTH
      ensures HasBit(mask, AlarmEnableBit(i)) == HasBit(enableFlags, AlarmEnableBit(i))
    {
      if HasBit(enableFlags, AlarmEnableBit(i)) {
        assert AlarmField(at, i) < 80;
      }
    }
    MaskFromBits(mask, enableFlags);
  }

  /** Two bytes that agree on the four alarm-enable bits and have no other
      bit of the mask set are the same mask. */
  lemma MaskFromBits(mask: bv8, flags: bv8)
    requires (mask & !AE_ALL) == 0
    requires forall i :: 0 <= i < ALARM_LENGTH ==> HasBit(mask, AlarmEnableBit(i)) == HasBit(flags, AlarmEnableBit(i))
    ensures mask == flags & AE_ALL
  {
    assert HasBit(mask, AlarmEnableBit(0)) == HasBit(flags, AlarmEnableBit(0));
    assert HasBit(mask, AlarmEnableBit(1)) == HasBit(flags, AlarmEnableBit(1));
    assert HasBit(mask, AlarmEnableBit(2)) == HasBit(flags, AlarmEnableBit(2));
    assert HasBit(mask, AlarmEnableBit(3)) == HasBit(flags, AlarmEnableBit(3));
  }

  /** Setting the next enable bit of the mask `getAlarm` builds: bit i is
      added, the other enable bits and the bits outside AE_ALL are kept. */
  lemma AddEnableBit(mask: bv8, i: nat)
    requires i < ALARM_LENGTH
    ensures ((mask | AlarmEnableBit(i)) & !AE_ALL) == (mask & !AE_ALL)
    ensures forall j :: 0 <= j < ALARM_LENGTH ==>
      (HasBit(mask | AlarmEnableBit(i), AlarmEnableBit(j)) <==> HasBit(mask, AlarmEnableBit(j)) || j == i)
  {
    AlarmEnableBits();
  }

  /** Reading back the alarm fields after `setAlarm` gives each enabled
      field's value and 0 for every field that carries the sentinel. */
  lemma AlarmTimeRoundTrip(enableFlags: bv8, at: AlarmTime)
    requires ValidEnabledAlarm(enableFlags, at)
    ensures DecodeAlarmTime(AlarmBytes(enableFlags, at)) ==
      AlarmTime(if HasBit(enableFlags, AE_MINUTE) then at.minute else 0,
                if HasBit(enableFlags, AE_HOUR) then at.hour else 0,
                if HasBit(enableFlags, AE_DAY) then at.day else 0,
                if HasBit(enableFlags, AE_WEEKDAY) then at.weekday else 0)
  {
    AlarmFieldRoundTrip(HasBit(enableFlags, AE_MINUTE), at.minute, 0x7f);
    AlarmFieldRoundTrip(HasBit(enableFlags, AE_HOUR), at.hour, 0x3f);
    AlarmFieldRoundTrip(HasBit(enableFlags, AE_DAY), at.day, 0x3f);
    AlarmFieldRoundTrip(HasBit(enableFlags, AE_WEEKDAY), at.weekday, 0x07);
  }

  /** One alarm field: the byte `setAlarm` writes for it decodes to its value
      when enabled and to 0 when it is the sentinel. */
  lemma AlarmFieldRoundTrip(enabled: bool, v: bv8, mask: bv8)
    requires mask == 0x7f || mask == 0x3f || mask == 0x07
    requires enabled ==> (mask == 0x7f && v <= 79) || (mask == 0x3f && v <= 39) || v <= 7
    ensures BcdToDecimal((if enabled then DecimalToBcd(v) else AE_BIT) & mask) == if enabled then v else 0
  {
    if enabled {
      MaskKeepsBcd(v, mask);
      DecimalRoundTrip(v);
    }
  }

  /** The transaction `clearAlarmFlag` issues, given the control2 byte it
      read. */
  function ClearAlarmFlagWrites(control2: bv8): (ws: seq<Write>)
    ensures AllFit(ws)
  {
    [Write(CONTROL2, [control2 & !AF_BIT])]
  }

  /** `clearAlarmFlag` clears AF, keeps every other control2 bit (the timer
      flag, both interrupt enables, TITP) and every other register, and a
      second call changes nothing more. */
  lemma ClearAlarmFlagEffect(regs: seq<bv8>)
    requires |regs| == REGISTER_COUNT
    ensures var r := Apply(regs, ClearAlarmFlagWrites(regs[CONTROL2]));
      !HasBit(r[CONTROL2], AF_BIT) &&
      (r[CONTROL2] & !AF_BIT) == (regs[CONTROL2] & !AF_BIT) &&
      (forall i :: 0 <= i < REGISTER_COUNT && i != CONTROL2 ==> r[i] == regs[i]) &&
      Apply(r, ClearAlarmFlagWrites(r[CONTROL2])) == r
  {
    var r := Apply(regs, ClearAlarmFlagWrites(regs[CONTROL2]));
    LastWriteWins(regs, ClearAlarmFlagWrites(regs[CONTROL2]), 0, CONTROL2);
    forall i | 0 <= i < REGISTER_COUNT && i != CONTROL2 ensures r[i] == regs[i] {
      ApplyUntouched(regs, ClearAlarmFlagWrites(regs[CONTROL2]), i);
    }
    assert (r[CONTROL2] & !AF_BIT) == r[CONTROL2];
    RewriteUnchanged(r, Write(CONTROL2, [r[CONTROL2]]));
  }
}
