/** The clock-output register: `setClkoutFrequency` (RTC8564.cpp:178-186)
    writes the frequency code with the output-enable bit set or cleared. */
module Clkout {
  import opened RegisterMap
  import opened RegisterFile

  /** The byte written to CLKOUT_FREQUENCY: FE set exactly when enabled, the
      other seven bits those of `frequency`. */
  function ClkoutByte(enableFlag: bv8, frequency: bv8): (b: bv8)
    ensures HasBit(b, FE_BIT) <==> enableFlag != 0
    ensures (b & !FE_BIT) == (frequency & !FE_BIT)
  {
    if enableFlag != 0 then frequency | FE_BIT else frequency & !FE_BIT
  }

  function ClkoutWrites(enableFlag: bv8, frequency: bv8): (ws: seq<Write>)
    ensures AllFit(ws)
  {
    [Write(CLKOUT_FREQUENCY, [ClkoutByte(enableFlag, frequency)])]
  }

  /** For the four frequency codes the register holds the code itself, plus
      0x80 when enabled. */
  lemma ClkoutCodes(enableFlag: bv8, frequency: bv8)
    requires frequency in [CLKOUT_32768HZ, CLKOUT_1024HZ, CLKOUT_32HZ, CLKOUT_1HZ]
    ensures ClkoutByte(enableFlag, frequency) == if enableFlag != 0 then frequency + 0x80 else frequency
  {
  }

  /** After `setClkoutFrequency` the clkout register holds ClkoutByte and no
      other register has changed. */
  lemma SetClkoutEffect(regs: seq<bv8>, enableFlag: bv8, frequency: bv8)
    requires |regs| == REGISTER_COUNT
    ensures var r := Apply(regs, ClkoutWrites(enableFlag, frequency));
      r[CLKOUT_FREQUENCY] == ClkoutByte(enableFlag, frequency) &&
      (forall i :: 0 <= i < REGISTER_COUNT && i != CLKOUT_FREQUENCY ==> r[i] == regs[i])
  {
    var ws := ClkoutWrites(enableFlag, frequency);
    LastWriteWins(regs, ws, 0, CLKOUT_FREQUENCY);
    forall i | 0 <= i < REGISTER_COUNT && i != CLKOUT_FREQUENCY ensures Apply(regs, ws)[i] == regs[i] {
      ApplyUntouched(regs, ws, i);
    }
  }
}
