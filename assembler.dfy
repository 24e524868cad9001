/**
 * `assemble`: the two-pass assembler from assembly text to bytecode, with the
 * variable numbering of `getVariableId`.
 *
 * Pass 1 drops the `label:` lines and records, for each label, the address the
 * next instruction will have, estimating each instruction's size from its text.
 * Pass 2 looks each mnemonic up in `OPCODES` (throwing on an unknown one) and
 * encodes the operands as two little-endian bytes each (strings as a length
 * and their UTF-8 bytes).
 */
module Assembler {
  import opened Common
  import opened Strings
  import opened Opcodes

  predicate IsLabelLine(line: string) {
    EndsWith(line, ':')
  }

  /** `line.slice(0, -1)`. */
  function LabelName(line: string): string
    requires IsLabelLine(line)
  {
    line[..|line| - 1]
  }

  /** `const [instr, ...args] = line.split(" ")`. */
  function Instr(line: string): string {
    Split(line)[0]
  }

  function Args(line: string): seq<string> {
    Split(line)[1..]
  }

  /** Pass 1's size of an instruction: opcode, then two bytes per operand, or a string's length and bytes. */
  function LineSize(line: string): nat {
    if Instr(line) == "PUSH_STR" then 1 + 2 + |Utf8(Join(Args(line)))| else 1 + |Args(line)| * 2
  }

  /** The lines that are not label definitions, in order (`exceptLabelLines`). */
  function NonLabels(lines: seq<string>): seq<string> {
    if lines == [] then []
    else NonLabels(lines[..|lines| - 1]) + if IsLabelLine(lines[|lines| - 1]) then [] else [lines[|lines| - 1]]
  }

  /** Total pass-1 size of some instruction lines. */
  function Size(instructions: seq<string>): nat {
    if instructions == [] then 0
    else Size(instructions[..|instructions| - 1]) + LineSize(instructions[|instructions| - 1])
  }

  /** The state of pass 1 after some lines. */
  datatype Layout = Layout(instructions: seq<string>, labels: map<string, nat>, address: nat)

  function Pass1(lines: seq<string>): Layout {
    if lines == [] then Layout([], map[], 0)
    else
      var p, line := Pass1(lines[..|lines| - 1]), lines[|lines| - 1];
      if IsLabelLine(line) then p.(labels := p.labels[LabelName(line) := p.address])
      else Layout(p.instructions + [line], p.labels, p.address + LineSize(line))
  }

  /** `labelTable.get(key)`, where a missing label's `undefined` encodes as 0. */
  function Lookup(labels: map<string, nat>, key: string): nat {
    if key in labels then labels[key] else 0
  }

  /** The variable table and the next free number (`variableTable`, `variableId`). */
  datatype Slots = Slots(table: map<string, nat>, next: nat)

  /** Distinct variables have distinct numbers, all below the next free one. */
  predicate SlotsValid(s: Slots) {
    && (forall name :: name in s.table ==> s.table[name] < s.next)
    && (forall a, b :: a in s.table && b in s.table && a != b ==> s.table[a] != s.table[b])
  }

  /** `getVariableId(name)`: the number and the table afterwards. */
  function SlotOf(s: Slots, name: string): (nat, Slots) {
    if name in s.table then (s.table[name], s)
    else (s.next, Slots(s.table[name := s.next], s.next + 1))
  }

  /** The number an operand stands for: a number, a label's address or a variable's number. */
  function Resolve(instr: string, arg: string, labels: map<string, nat>, s: Slots): (int, Slots) {
    if instr == "CALL" then
      (match ParseNumber(arg) case Some(v) => v case None => Lookup(labels, "LABEL_" + arg), s)
    else if ParseNumber(arg).Some? then (ParseNumber(arg).value, s)
    else if arg in labels then (labels[arg], s)
    else SlotOf(s, arg)
  }

  /**
   * `[num & 0xff, (num >> 8) & 0xff]`: bits 0-7 and 8-15 of the two's
   * complement of `num`, which Euclidean `%` and `/` give for negative `num` too.
   */
  function LittleEndian(n: int): seq<byte> {
    [n % 256, (n / 256) % 256]
  }

  /** The bytes pass 2 emits for one operand. */
  function EncodeArg(instr: string, arg: string, labels: map<string, nat>, s: Slots): (seq<byte>, Slots) {
    if instr == "PUSH_STR" then
      var encoded := Utf8(arg);
      (LittleEndian(|encoded|) + encoded, s)
    else
      var (num, s') := Resolve(instr, arg, labels, s);
      (LittleEndian(num), s')
  }

  /** The bytes pass 2 emits for a line's operands, in order. */
  function EncodeArgs(instr: string, args: seq<string>, labels: map<string, nat>, s: Slots): (seq<byte>, Slots) {
    if args == [] then ([], s)
    else
      var (b, s1) := EncodeArgs(instr, args[..|args| - 1], labels, s);
      var (c, s2) := EncodeArg(instr, args[|args| - 1], labels, s1);
      (b + c, s2)
  }

  datatype AssembleError = UnknownInstruction(instr: string)

  /** The state of pass 2 after some lines: bytes so far, the variables, and the error that stopped it. */
  datatype Encoding = Encoding(bytes: seq<byte>, slots: Slots, failure: Option<AssembleError>)

  function EncodeLines(instructions: seq<string>, labels: map<string, nat>, s: Slots): Encoding {
    if instructions == [] then Encoding([], s, None)
    else
      var p := EncodeLines(instructions[..|instructions| - 1], labels, s);
      var line := instructions[|instructions| - 1];
      if p.failure.Some? then p
      else match OpcodeOf(Instr(line))
        case None => p.(failure := Some(UnknownInstruction(Instr(line))))
        case Some(op) =>
          var (b, s') := EncodeArgs(Instr(line), Args(line), labels, p.slots);
          Encoding(p.bytes + [op] + b, s', None)
  }

  /** `assemble(lines)` from the variable state `s`. */
  function Assembled(lines: seq<string>, s: Slots): Encoding {
    EncodeLines(Pass1(lines).instructions, Pass1(lines).labels, s)
  }

  /** The module-level variable table that `getVariableId` and `assemble` share. */
  class Assembler {
    var variableTable: map<string, nat>
    var variableId: nat

    function State(): Slots
      reads this
    {
      Slots(variableTable, variableId)
    }

    ghost predicate Valid()
      reads this
    {
      SlotsValid(State())
    }

    constructor ()
      ensures Valid() && variableTable == map[] && variableId == 0
    {
      variableTable := map[];
      variableId := 0;
    }

    method GetVariableId(name: string) returns (id: nat)
      requires Valid()
      modifies this
      ensures Valid()
      ensures (id, State()) == SlotOf(old(State()), name)
    {
      if name !in variableTable {
        variableTable := variableTable[name := variableId];
        variableId := variableId + 1;
      }
      id := variableTable[name];
    }

    /** Pass 2's inner loop: the operand bytes of one instruction. */
    method EncodeOperands(instr: string, args: seq<string>, labelTable: map<string, nat>) returns (bytes: seq<byte>)
      requires Valid()
      modifies this
      ensures Valid()
      ensures (bytes, State()) == EncodeArgs(instr, args, labelTable, old(State()))
    {
      bytes := [];
      for j := 0 to |args|
        invariant Valid()
        invariant (bytes, State()) == EncodeArgs(instr, args[..j], labelTable, old(State()))
      {
        var arg := args[j];
        assert args[..j + 1][..j] == args[..j] && args[..j + 1][j] == arg;
        ghost var sj, prior := State(), bytes;
        if instr == "PUSH_STR" {
          var encoded := Utf8(arg);
          bytes := bytes + [|encoded| % 256, (|encoded| / 256) % 256] + encoded;
          assert bytes == prior + (LittleEndian(|encoded|) + encoded);
          assert EncodeArg(instr, arg, labelTable, sj) == (LittleEndian(|encoded|) + encoded, sj);
          continue;
        }
        var num: int;
        if instr == "CALL" {
          var n := ParseNumber(arg);
          if n.Some? {
            num := n.value;
          } else {
            num := Lookup(labelTable, "LABEL_" + arg);
          }
        } else if ParseNumber(arg).Some? {
          num := ParseNumber(arg).value;
        } else if arg in labelTable {
          num := labelTable[arg];
        } else {
          num := GetVariableId(arg);
        }
        assert (num, State()) == Resolve(instr, arg, labelTable, sj);
        bytes := bytes + [num % 256, (num / 256) % 256];
        assert EncodeArg(instr, arg, labelTable, sj) == (LittleEndian(num), State());
        assert bytes == prior + LittleEndian(num);
      }
      assert args[..|args|] == args;
    }

    method Assemble(assemblyLines: seq<string>) returns (r: Result<seq<byte>, AssembleError>)
      requires Valid()
      modifies this
      ensures Valid()
      ensures var e := Assembled(assemblyLines, old(State()));
              State() == e.slots && r == if e.failure.None? then Ok(e.bytes) else Err(e.failure.value)
    {
      var exceptLabelLines, labelTable, _ := LocateLabels(assemblyLines);
      ghost var s0 := State();
      var bytes: seq<byte> := [];
      for i := 0 to |exceptLabelLines|
        invariant Valid()
        invariant EncodeLines(exceptLabelLines[..i], labelTable, s0) == Encoding(bytes, State(), None)
      {
        var line := exceptLabelLines[i];
        assert exceptLabelLines[..i + 1][..i] == exceptLabelLines[..i];
        var words := Split(line);
        var instr, args := words[0], words[1..];
        var opcode := OpcodeOf(instr);
        if opcode.None? {
          FailureSticks(exceptLabelLines, i + 1, labelTable, s0);
          return Err(UnknownInstruction(instr));
        }
        var operands := EncodeOperands(instr, args, labelTable);
        bytes := bytes + [opcode.value] + operands;
      }
      assert exceptLabelLines[..|exceptLabelLines|] == exceptLabelLines;
      return Ok(bytes);
    }
  }

  /** Pass 1: the instruction lines, the label table and the address after the last instruction. */
  method LocateLabels(assemblyLines: seq<string>)
    returns (exceptLabelLines: seq<string>, labelTable: map<string, nat>, labelAddress: nat)
    ensures Layout(exceptLabelLines, labelTable, labelAddress) == Pass1(assemblyLines)
  {
    exceptLabelLines, labelTable, labelAddress := [], map[], 0;
    for i := 0 to |assemblyLines|
      invariant Layout(exceptLabelLines, labelTable, labelAddress) == Pass1(assemblyLines[..i])
    {
      var line := assemblyLines[i];
      assert assemblyLines[..i + 1][..i] == assemblyLines[..i];
      if EndsWith(line, ':') {
        var name := line[..|line| - 1];
        labelTable := labelTable[name := labelAddress];
        continue;
      }
      var words := Split(line);
      var instr, args := words[0], words[1..];
      exceptLabelLines := exceptLabelLines + [line];
      if instr == "PUSH_STR" {
        var encoded := Utf8(Join(args));
        labelAddress := labelAddress + 1 + 2 + |encoded|;
      } else {
        labelAddress := labelAddress + 1 + |args| * 2;
      }
    }
    assert assemblyLines[..|assemblyLines|] == assemblyLines;
  }

  /** Once pass 2 has thrown, later lines change nothing. */
  lemma {:induction false} FailureSticks(instructions: seq<string>, i: nat, labels: map<string, nat>, s: Slots)
    requires i <= |instructions| && EncodeLines(instructions[..i], labels, s).failure.Some?
    ensures EncodeLines(instructions, labels, s) == EncodeLines(instructions[..i], labels, s)
    decreases |instructions| - i
  {
    if i < |instructions| {
      var prefix := instructions[..|instructions| - 1];
      assert prefix[..i] == instructions[..i];
      FailureSticks(prefix, i, labels, s);
    } else {
      assert instructions[..i] == instructions;
    }
  }
}
