/** The countdown timer: what `setTimer` writes and in which order, and the
    timer-flag accessors (RTC8564.cpp:134-176). */
module TimerCodec {
  import opened RegisterMap
  import opened RegisterFile

  /** The three control2 bits `setTimer` reprograms. */
  const TIMER_BITS: bv8 := TITP_BIT | TF_BIT | TIE_BIT

  /** control2 with TITP, TF and TIE cleared, as `setTimer` first writes it. */
  function StagedControl2(control2: bv8): (c: bv8)
    ensures !HasBit(c, TITP_BIT) && !HasBit(c, TF_BIT) && !HasBit(c, TIE_BIT)
    ensures (c & !TIMER_BITS) == (control2 & !TIMER_BITS)
  {
    control2 & !TIMER_BITS
  }

  /** The control2 byte `setTimer` writes second: TF cleared, TITP and TIE as
      asked, every other bit as read. */
  function TimerControl2(control2: bv8, repeatMode: bv8, interruptEnable: bv8): (c: bv8)
    ensures !HasBit(c, TF_BIT)
    ensures HasBit(c, TITP_BIT) <==> repeatMode != 0
    ensures HasBit(c, TIE_BIT) <==> interruptEnable != 0
    ensures (c & !TIMER_BITS) == (control2 & !TIMER_BITS)
  {
    var staged := StagedControl2(control2);
    var withRepeat := if repeatMode != 0 then staged | TITP_BIT else staged;
    if interruptEnable != 0 then withRepeat | TIE_BIT else withRepeat
  }

  /** The timer-control byte that starts the countdown: the clock source
      with TE set. */
  function StartByte(clockMode: bv8): (b: bv8)
    ensures HasBit(b, TE_BIT)
    ensures (b & !TE_BIT) == (clockMode & !TE_BIT)
  {
    clockMode | TE_BIT
  }

  /** The transactions `setTimer` issues, given the control2 byte it reads
      when the timer is enabled: timer-control to 0 first; when enabled,
      control2 staged, control2 final, the counter, timer-control last. */
  function TimerWrites(control2: bv8, enableFlag: bv8, repeatMode: bv8, clockMode: bv8,
                       counter: bv8, interruptEnable: bv8): (ws: seq<Write>)
    ensures AllFit(ws)
  {
    if enableFlag == 0 then
      [Write(TIMER_CONTROL, [0x00])]
    else
      [Write(TIMER_CONTROL, [0x00]),
       Write(CONTROL2, [StagedControl2(control2)]),
       Write(CONTROL2, [TimerControl2(control2, repeatMode, interruptEnable)]),
       Write(TIMER, [counter]),
       Write(TIMER_CONTROL, [StartByte(clockMode)])]
  }

  /** The transactions, step by step, as `setTimer` issues them when the
      timer is enabled: `staged`, `withRepeat` and `final` are the control2
      byte after each of its three updates, `start` the timer-control
      byte. */
  lemma TimerWritesSteps(control2: bv8, enableFlag: bv8, repeatMode: bv8, clockMode: bv8,
                         counter: bv8, interruptEnable: bv8,
                         staged: bv8, withRepeat: bv8, final: bv8, start: bv8,
                         w0: Write, w1: Write, w2: Write, w3: Write, w4: Write)
    requires enableFlag != 0
    requires staged == control2 & !TIMER_BITS
    requires withRepeat == if repeatMode != 0 then staged | TITP_BIT else staged
    requires final == if interruptEnable != 0 then withRepeat | TIE_BIT else withRepeat
    requires start == clockMode | TE_BIT
    requires w0 == Write(TIMER_CONTROL, [0x00]) && w1 == Write(CONTROL2, [staged])
    requires w2 == Write(CONTROL2, [final]) && w3 == Write(TIMER, [counter])
    requires w4 == Write(TIMER_CONTROL, [start])
    ensures [w0, w1, w2, w3, w4] == TimerWrites(control2, enableFlag, repeatMode, clockMode, counter, interruptEnable)
  {
  }

  /** The restart discipline: the first transaction stops the timer; when a
      later one starts it, that one is the last transaction, it is the only
      other write to timer-control, and every write to control2 and to the
      counter comes before it. */
  predicate StagedBeforeStart(ws: seq<Write>) {
    |ws| >= 1 && ws[0] == Write(TIMER_CONTROL, [0x00]) &&
    (|ws| > 1 ==>
      ws[|ws| - 1].address == TIMER_CONTROL && |ws[|ws| - 1].data| == 1 &&
      HasBit(ws[|ws| - 1].data[0], TE_BIT) &&
      (forall k :: 0 < k < |ws| - 1 ==> !Covers(ws[k], TIMER_CONTROL)))
  }

  lemma TimerWritesStaged(control2: bv8, enableFlag: bv8, repeatMode: bv8, clockMode: bv8,
                          counter: bv8, interruptEnable: bv8)
    ensures var ws := TimerWrites(control2, enableFlag, repeatMode, clockMode, counter, interruptEnable);
      StagedBeforeStart(ws) && (|ws| > 1 <==> enableFlag != 0)
  {
  }

  /** After `setTimer` with the timer disabled: timer-control is 0 and no
      other register has changed (control2 and the counter included). */
  lemma SetTimerDisabledEffect(regs: seq<bv8>, control2: bv8, repeatMode: bv8, clockMode: bv8, counter: bv8,
                               interruptEnable: bv8)
    requires |regs| == REGISTER_COUNT
    ensures var r := Apply(regs, TimerWrites(control2, 0, repeatMode, clockMode, counter, interruptEnable));
      r[TIMER_CONTROL] == 0x00 &&
      (forall i :: 0 <= i < REGISTER_COUNT && i != TIMER_CONTROL ==> r[i] == regs[i])
  {
    var ws := TimerWrites(control2, 0, repeatMode, clockMode, counter, interruptEnable);
    LastWriteWins(regs, ws, 0, TIMER_CONTROL);
    forall i | 0 <= i < REGISTER_COUNT && i != TIMER_CONTROL ensures Apply(regs, ws)[i] == regs[i] {
      ApplyUntouched(regs, ws, i);
    }
  }

  /** After `setTimer` with the timer enabled, given the control2 byte it
      read: control2 is TimerControl2 of that byte (TF clear, TITP and TIE
      as asked, other bits as read), the counter register holds `counter`,
      timer-control holds the clock source with TE set, and no other
      register has changed. */
  lemma SetTimerEnabledEffect(regs: seq<bv8>, control2: bv8, enableFlag: bv8, repeatMode: bv8, clockMode: bv8,
                              counter: bv8, interruptEnable: bv8)
    requires |regs| == REGISTER_COUNT && enableFlag != 0
    ensures var r := Apply(regs, TimerWrites(control2, enableFlag, repeatMode, clockMode, counter, interruptEnable));
      r[CONTROL2] == TimerControl2(control2, repeatMode, interruptEnable) &&
      r[TIMER] == counter &&
      r[TIMER_CONTROL] == StartByte(clockMode) &&
      (forall i :: 0 <= i < REGISTER_COUNT && i != CONTROL2 && i != TIMER_CONTROL && i != TIMER ==> r[i] == regs[i])
  {
    var ws := TimerWrites(control2, enableFlag, repeatMode, clockMode, counter, interruptEnable);
    EnabledWritesEffect(regs, ws, TimerControl2(control2, repeatMode, interruptEnable), counter, StartByte(clockMode));
  }

  /** The same, for any five transactions of that shape. */
  lemma EnabledWritesEffect(regs: seq<bv8>, ws: seq<Write>, control2: bv8, counter: bv8, start: bv8)
    requires |regs| == REGISTER_COUNT && |ws| == 5
    requires ws[0] == Write(TIMER_CONTROL, [0x00]) && ws[1].address == CONTROL2 && |ws[1].data| == 1
    requires ws[2] == Write(CONTROL2, [control2]) && ws[3] == Write(TIMER, [counter])
    requires ws[4] == Write(TIMER_CONTROL, [start])
    ensures AllFit(ws)
    ensures var r := Apply(regs, ws);
      r[CONTROL2] == control2 && r[TIMER] == counter && r[TIMER_CONTROL] == start &&
      (forall i :: 0 <= i < REGISTER_COUNT && i != CONTROL2 && i != TIMER_CONTROL && i != TIMER ==> r[i] == regs[i])
  {
    assert Fits(ws[0]) && Fits(ws[1]) && Fits(ws[2]) && Fits(ws[3]) && Fits(ws[4]);
    LastWriteWins(regs, ws, 2, CONTROL2);
    LastWriteWins(regs, ws, 3, TIMER);
    LastWriteWins(regs, ws, 4, TIMER_CONTROL);
    forall i | 0 <= i < REGISTER_COUNT && i != CONTROL2 && i != TIMER_CONTROL && i != TIMER
      ensures Apply(regs, ws)[i] == regs[i]
    {
      ApplyUntouched(regs, ws, i);
    }
  }

  /** Restart safety: after `setTimer`, whatever the registers held before,
      the timer runs exactly when this call enabled it, with this call's
      clock source; the counter holds this call's value when enabled and is
      left as it was otherwise. */
  lemma TimerRestart(regs: seq<bv8>, enableFlag: bv8, repeatMode: bv8, clockMode: bv8,
                     counter: bv8, interruptEnable: bv8)
    requires |regs| == REGISTER_COUNT
    ensures var r := Apply(regs, TimerWrites(regs[CONTROL2], enableFlag, repeatMode, clockMode, counter, interruptEnable));
      (HasBit(r[TIMER_CONTROL], TE_BIT) <==> enableFlag != 0) &&
      (enableFlag != 0 ==> (r[TIMER_CONTROL] & !TE_BIT) == (clockMode & !TE_BIT) && r[TIMER] == counter) &&
      (enableFlag == 0 ==> r[TIMER] == regs[TIMER])
  {
    if enableFlag == 0 {
      SetTimerDisabledEffect(regs, regs[CONTROL2], repeatMode, clockMode, counter, interruptEnable);
    } else {
      SetTimerEnabledEffect(regs, regs[CONTROL2], enableFlag, repeatMode, clockMode, counter, interruptEnable);
    }
  }

  /** The transaction `clearTimerFlag` issues, given the control2 byte it
      read. */
  function ClearTimerFlagWrites(control2: bv8): (ws: seq<Write>)
    ensures AllFit(ws)
  {
    [Write(CONTROL2, [control2 & !TF_BIT])]
  }

  /** `clearTimerFlag` clears TF, keeps every other control2 bit (the alarm
      flag, both interrupt enables, TITP) and every other register, and a
      second call changes nothing more. */
  lemma ClearTimerFlagEffect(regs: seq<bv8>)
    requires |regs| == REGISTER_COUNT
    ensures var r := Apply(regs, ClearTimerFlagWrites(regs[CONTROL2]));
      !HasBit(r[CONTROL2], TF_BIT) &&
      (r[CONTROL2] & !TF_BIT) == (regs[CONTROL2] & !TF_BIT) &&
      (forall i :: 0 <= i < REGISTER_COUNT && i != CONTROL2 ==> r[i] == regs[i]) &&
      Apply(r, ClearTimerFlagWrites(r[CONTROL2])) == r
  {
    var r := Apply(regs, ClearTimerFlagWrites(regs[CONTROL2]));
    LastWriteWins(regs, ClearTimerFlagWrites(regs[CONTROL2]), 0, CONTROL2);
    forall i | 0 <= i < REGISTER_COUNT && i != CONTROL2 ensures r[i] == regs[i] {
      ApplyUntouched(regs, ClearTimerFlagWrites(regs[CONTROL2]), i);
    }
    assert (r[CONTROL2] & !TF_BIT) == r[CONTROL2];
    RewriteUnchanged(r, Write(CONTROL2, [r[CONTROL2]]));
  }
}
