/** The register transaction layer (RTC8564.cpp:202-219) over a simulated
    register file: a write puts its bytes at consecutive addresses starting
    at its address; a sequence of writes takes effect in order. */
module RegisterFile {
  import opened RegisterMap

  /** One `setRegisters` transaction: `data` goes to `address`,
      `address + 1`, ... */
  datatype Write = Write(address: nat, data: seq<bv8>)

  /** The transaction stays inside the sixteen registers. */
  predicate Fits(w: Write) {
    w.address + |w.data| <= REGISTER_COUNT
  }

  predicate AllFit(ws: seq<Write>) {
    forall k :: 0 <= k < |ws| ==> Fits(ws[k])
  }

  /** True when `w` writes register `i`. */
  predicate Covers(w: Write, i: nat) {
    w.address <= i < w.address + |w.data|
  }

  /** The register file after the single transaction `w`. */
  function Overwrite(regs: seq<bv8>, w: Write): (r: seq<bv8>)
    requires |regs| == REGISTER_COUNT && Fits(w)
    ensures |r| == REGISTER_COUNT
  {
    regs[..w.address] + w.data + regs[w.address + |w.data|..]
  }

  /** After a transaction, a register it covers holds the byte written to it
      and every other register keeps its value. */
  lemma OverwriteAt(regs: seq<bv8>, w: Write, i: nat)
    requires |regs| == REGISTER_COUNT && Fits(w) && i < REGISTER_COUNT
    ensures Overwrite(regs, w)[i] == if Covers(w, i) then w.data[i - w.address] else regs[i]
  {
  }

  /** The register file after the transactions `ws`, first to last. */
  function Apply(regs: seq<bv8>, ws: seq<Write>): (r: seq<bv8>)
    requires |regs| == REGISTER_COUNT && AllFit(ws)
    ensures |r| == REGISTER_COUNT
    decreases |ws|
  {
    if ws == [] then regs
    else Overwrite(Apply(regs, ws[..|ws| - 1]), ws[|ws| - 1])
  }

  /** One more transaction applies on top of the ones before it. */
  lemma ApplySnoc(regs: seq<bv8>, ws: seq<Write>, w: Write)
    requires |regs| == REGISTER_COUNT && AllFit(ws) && Fits(w)
    ensures AllFit(ws + [w])
    ensures Apply(regs, ws + [w]) == Overwrite(Apply(regs, ws), w)
  {
    assert (ws + [w])[..|ws|] == ws;
    assert AllFit(ws + [w]) by {
      forall k | 0 <= k < |ws| + 1 ensures Fits((ws + [w])[k]) {
        if k < |ws| { assert (ws + [w])[k] == ws[k]; }
      }
    }
  }

  /** A single transaction. */
  lemma ApplyOne(regs: seq<bv8>, w: Write)
    requires |regs| == REGISTER_COUNT && Fits(w)
    ensures AllFit([w])
    ensures Apply(regs, [w]) == Overwrite(regs, w)
  {
    assert [w][..0] == [];
  }

  /** Three transactions, one after another. */
  lemma ApplyThree(regs: seq<bv8>, w0: Write, w1: Write, w2: Write)
    requires |regs| == REGISTER_COUNT && Fits(w0) && Fits(w1) && Fits(w2)
    ensures AllFit([w0, w1, w2])
    ensures Apply(regs, [w0, w1, w2]) == Overwrite(Overwrite(Overwrite(regs, w0), w1), w2)
  {
    ApplyOne(regs, w0);
    ApplySnoc(regs, [w0], w1);
    ApplySnoc(regs, [w0] + [w1], w2);
    ThreeInARow(w0, w1, w2);
  }

  /** Five transactions, one after another. */
  lemma ApplyFive(regs: seq<bv8>, w0: Write, w1: Write, w2: Write, w3: Write, w4: Write)
    requires |regs| == REGISTER_COUNT && Fits(w0) && Fits(w1) && Fits(w2) && Fits(w3) && Fits(w4)
    ensures AllFit([w0, w1, w2, w3, w4])
    ensures Apply(regs, [w0, w1, w2, w3, w4]) ==
      Overwrite(Overwrite(Overwrite(Overwrite(Overwrite(regs, w0), w1), w2), w3), w4)
  {
    ApplyThree(regs, w0, w1, w2);
    ApplySnoc(regs, [w0, w1, w2], w3);
    ApplySnoc(regs, [w0, w1, w2] + [w3], w4);
    FiveInARow(w0, w1, w2, w3, w4);
  }

  lemma ThreeInARow(w0: Write, w1: Write, w2: Write)
    ensures [w0] + [w1] + [w2] == [w0, w1, w2]
  {
  }

  lemma FiveInARow(w0: Write, w1: Write, w2: Write, w3: Write, w4: Write)
    ensures [w0, w1, w2] + [w3] + [w4] == [w0, w1, w2, w3, w4]
  {
  }

  /** A log that grew by three transactions, one at a time. */
  lemma LogThree(log: seq<Write>, w0: Write, w1: Write, w2: Write)
    ensures log + [w0] + [w1] + [w2] == log + [w0, w1, w2]
  {
  }

  /** A log that grew by five transactions, one at a time. */
  lemma LogFive(log: seq<Write>, w0: Write, w1: Write, w2: Write, w3: Write, w4: Write)
    ensures log + [w0] + [w1] + [w2] + [w3] + [w4] == log + [w0, w1, w2, w3, w4]
  {
  }

  /** A log that grew by five blocks of transactions, one at a time. */
  lemma LogFiveParts(log: seq<Write>, a: seq<Write>, b: seq<Write>, c: seq<Write>, d: seq<Write>, e: seq<Write>)
    ensures log + a + b + c + d + e == log + (a + b + c + d + e)
  {
  }

  /** Running `a` and then `b` is running `a + b`. */
  lemma {:induction false} ApplyAppend(regs: seq<bv8>, a: seq<Write>, b: seq<Write>)
    requires |regs| == REGISTER_COUNT && AllFit(a) && AllFit(b)
    ensures AllFit(a + b)
    ensures Apply(regs, a + b) == Apply(Apply(regs, a), b)
    decreases |b|
  {
    assert AllFit(a + b) by {
      forall k | 0 <= k < |a + b| ensures Fits((a + b)[k]) {
        if k >= |a| { assert (a + b)[k] == b[k - |a|]; }
      }
    }
    if b != [] {
      var b' := b[..|b| - 1];
      assert (a + b)[..|a + b| - 1] == a + b';
      ApplyAppend(regs, a, b');
    } else {
      assert a + b == a;
    }
  }

  /** A register that no transaction writes keeps its value. */
  lemma {:induction false} ApplyUntouched(regs: seq<bv8>, ws: seq<Write>, i: nat)
    requires |regs| == REGISTER_COUNT && AllFit(ws) && i < REGISTER_COUNT
    requires forall k :: 0 <= k < |ws| ==> !Covers(ws[k], i)
    ensures Apply(regs, ws)[i] == regs[i]
    decreases |ws|
  {
    if ws != [] {
      ApplyUntouched(regs, ws[..|ws| - 1], i);
      OverwriteAt(Apply(regs, ws[..|ws| - 1]), ws[|ws| - 1], i);
    }
  }

  /** A register holds what the last transaction that writes it put there:
      transactions after it that do not write it leave it alone. */
  lemma {:induction false} LastWriteWins(regs: seq<bv8>, ws: seq<Write>, k: nat, i: nat)
    requires |regs| == REGISTER_COUNT && AllFit(ws) && i < REGISTER_COUNT
    requires k < |ws| && Covers(ws[k], i)
    requires forall j :: k < j < |ws| ==> !Covers(ws[j], i)
    ensures Apply(regs, ws)[i] == ws[k].data[i - ws[k].address]
    decreases |ws|
  {
    var init := ws[..|ws| - 1];
    OverwriteAt(Apply(regs, init), ws[|ws| - 1], i);
    if k < |ws| - 1 {
      LastWriteWins(regs, init, k, i);
    }
  }

  /** A block of registers that holds `data` byte by byte reads back as
      `data`. */
  lemma BlockReadsBack(r: seq<bv8>, address: nat, data: seq<bv8>)
    requires address + |data| <= |r|
    requires forall i :: address <= i < address + |data| ==> r[i] == data[i - address]
    ensures r[address..address + |data|] == data
  {
  }

  /** Writing back the bytes a block already holds leaves the register file
      as it was. */
  lemma RewriteUnchanged(regs: seq<bv8>, w: Write)
    requires |regs| == REGISTER_COUNT && Fits(w)
    requires forall i :: 0 <= i < |w.data| ==> regs[w.address + i] == w.data[i]
    ensures Apply(regs, [w]) == regs
  {
    ApplyOne(regs, w);
    var r := Apply(regs, [w]);
    forall i | 0 <= i < REGISTER_COUNT ensures r[i] == regs[i] {
      OverwriteAt(regs, w, i);
      if Covers(w, i) {
        assert regs[w.address + (i - w.address)] == w.data[i - w.address];
      }
    }
  }
}
