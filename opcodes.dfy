/** The `OPCODES` mnemonic-to-byte table of src/modules/VM/constants.ts. */
module Opcodes {
  import opened Common
  import opened Strings
  import opened Mnemonics

  const OPCODES: map<string, byte> :=
    map[Spelling(Number) := 0x01, Spelling(Addition) := 0x02,
        Spelling(Output) := 0x03, Spelling(End) := 0xff]

  /** `OPCODES[instr]` over the record's own keys, None where it has no such key. */
  function OpcodeOf(instr: string): (r: Option<byte>)
    ensures r.Some? <==> instr in OPCODES
    ensures r.Some? ==> r.value == OPCODES[instr]
  {
    if instr in OPCODES then Some(OPCODES[instr]) else None
  }

  /** The mnemonics that have a byte. */
  predicate HasOpcode(m: Mnemonic) {
    m == Number || m == Addition || m == Output || m == End
  }

  /** Exactly four mnemonics have a byte, and these are the bytes. */
  lemma OpcodeTable(m: Mnemonic)
    ensures Spelling(m) in OPCODES <==> HasOpcode(m)
    ensures m == Number ==> OPCODES[Spelling(m)] == 0x01
    ensures m == Addition ==> OPCODES[Spelling(m)] == 0x02
    ensures m == Output ==> OPCODES[Spelling(m)] == 0x03
    ensures m == End ==> OPCODES[Spelling(m)] == 0xff
  {
    var t := Spelling(m);
    if t == Spelling(Number) {
      SpellingInjective(m, Number);
    } else if t == Spelling(Addition) {
      SpellingInjective(m, Addition);
    } else if t == Spelling(Output) {
      SpellingInjective(m, Output);
    } else if t == Spelling(End) {
      SpellingInjective(m, End);
    }
  }

  /** The table has no other keys than those four texts. */
  lemma OpcodeKeys()
    ensures OPCODES.Keys == {"PUSH_NUM", "ADD", "PUTS", "HALT"}
  {
  }

  /** No two mnemonics share a byte. */
  lemma OpcodesInjective(a: string, b: string)
    requires a in OPCODES && b in OPCODES && OPCODES[a] == OPCODES[b]
    ensures a == b
  {
  }

  /** Byte 0x00 is never assigned. */
  lemma ZeroUnassigned(instr: string)
    requires instr in OPCODES
    ensures OPCODES[instr] != 0
  {
  }
}
