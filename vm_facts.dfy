/**
 * What `MyVM.run` guarantees: it understands exactly the bytes of `OPCODES`,
 * each with the meaning of its mnemonic; it reads back the operands the
 * assembler writes; and a run only ever appends to the output and stops for
 * one of three reasons.
 */
module VMFacts {
  import opened Common
  import opened Strings
  import opened Opcodes
  import opened Assembler
  import opened VM

  /** The bytes `OPCODES` assigns. */
  predicate Assigned(b: byte) {
    exists instr :: instr in OPCODES && OPCODES[instr] == b
  }

  lemma AssignedBytes(b: byte)
    ensures Assigned(b) <==> b == 0x01 || b == 0x02 || b == 0x03 || b == 0xff
  {
    if b == 0x01 { assert OPCODES["PUSH_NUM"] == b; }
    if b == 0x02 { assert OPCODES["ADD"] == b; }
    if b == 0x03 { assert OPCODES["PUTS"] == b; }
    if b == 0xff { assert OPCODES["HALT"] == b; }
  }

  /**
   * The VM and the table agree: an instruction faults exactly when its byte is
   * not in `OPCODES`, halts exactly on the byte of `HALT`, and otherwise goes on.
   */
  lemma StepDispatch(code: seq<byte>, m: Machine)
    requires m.pc < |code|
    ensures Step(code, m).status == Faulted(code[m.pc]) <==> !Assigned(code[m.pc])
    ensures Step(code, m).status == Halted <==> code[m.pc] == OPCODES["HALT"]
    ensures Step(code, m).status == Running <==> Assigned(code[m.pc]) && code[m.pc] != OPCODES["HALT"]
  {
    AssignedBytes(code[m.pc]);
  }

  /** Each assigned byte does what its mnemonic names, on a stack holding numbers. */
  lemma OpcodeMeaning(code: seq<byte>, m: Machine, instr: string, x: int, y: int, rest: seq<Value>)
    requires m.pc < |code| && instr in OPCODES && code[m.pc] == OPCODES[instr]
    ensures instr == "PUSH_NUM" ==>
              var r := Step(code, m);
              r.pc == m.pc + 3 && r.stack == m.stack + [Num(Int16At(code, m.pc + 1))] && r.output == m.output
    ensures instr == "ADD" && m.stack == rest + [Num(x), Num(y)] ==>
              var r := Step(code, m);
              r.pc == m.pc + 1 && r.stack == rest + [Num(x + y)] && r.output == m.output
    ensures instr == "PUTS" && m.stack == rest + [Num(x)] ==>
              var r := Step(code, m);
              r.pc == m.pc + 1 && r.stack == rest && r.output == m.output + [Some(Num(x))]
    ensures instr == "HALT" ==> Step(code, m).status == Halted
  {
    OpcodeKeys();
    if instr == "ADD" && m.stack == rest + [Num(x), Num(y)] {
      assert m.stack[..|m.stack| - 1] == rest + [Num(x)];
      assert (rest + [Num(x)])[..|rest|] == rest;
    }
    if instr == "PUTS" && m.stack == rest + [Num(x)] {
      assert m.stack[..|m.stack| - 1] == rest;
    }
  }

  /** `readInt16` reads back what the assembler's `[n & 0xff, (n >> 8) & 0xff]` wrote. */
  lemma Int16OfLittleEndian(before: seq<byte>, n: int, after: seq<byte>)
    ensures Int16At(before + LittleEndian(n) + after, |before|) == n % 0x1_0000
  {
    var code := before + LittleEndian(n) + after;
    assert code[|before|] == n % 256 && code[|before| + 1] == (n / 256) % 256;
  }

  /**
   * A run only appends to the output, and it ends for one of three reasons:
   * the code ran out, the last byte read was `HALT`'s, or the last byte read
   * has no entry in `OPCODES`.
   */
  lemma {:induction false} ExecuteOutcome(code: seq<byte>, m: Machine)
    requires m.status == Running
    ensures var r := Execute(code, m);
            && |m.output| <= |r.output| && r.output[..|m.output|] == m.output
            && (r.status == Running ==> r.pc >= |code|)
            && (r.status == Halted ==> 0 < r.pc <= |code| && code[r.pc - 1] == OPCODES["HALT"])
            && (r.status.Faulted? ==> 0 < r.pc <= |code| && code[r.pc - 1] == r.status.opcode
                                      && !Assigned(r.status.opcode))
    decreases |code| - m.pc
  {
    if m.pc < |code| {
      var m' := Step(code, m);
      StepDispatch(code, m);
      assert m.output <= m'.output;
      if m'.status == Running {
        ExecuteOutcome(code, m');
        var r := Execute(code, m');
        assert r.output[..|m'.output|] == m'.output;
        assert r.output[..|m.output|] == m'.output[..|m.output|];
      }
    }
  }
}
