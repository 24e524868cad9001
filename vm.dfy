/**
 * `MyVM`: a stack machine over a byte array with four opcodes — `0x01 lo hi`
 * pushes a 16-bit little-endian operand, `0x02` adds the top two values,
 * `0x03` prints the top value, `0xff` halts; any other byte throws.
 */
module VM {
  import opened Common
  import opened Strings

  /** A JavaScript number on the stack: an integer, or NaN after adding `undefined`. */
  datatype Value = Num(n: int) | NaN

  /** Why `run` stopped, or that it is still going. */
  datatype Status = Running | Halted | Faulted(opcode: byte)

  /** The machine between two instructions. `output` holds what `console.log` printed; `None` is `undefined`. */
  datatype Machine = Machine(pc: nat, stack: seq<Value>, output: seq<Option<Value>>, status: Status)

  /** `code[i]` read as a bitwise operand: a byte past the end reads as 0. */
  function ByteAt(code: seq<byte>, i: nat): byte {
    if i < |code| then code[i] else 0
  }

  /** `bytes[0] | (bytes[1] << 8)` with `bytes = code.slice(i, i + 2)`. */
  function Int16At(code: seq<byte>, i: nat): nat {
    ByteAt(code, i) + 256 * ByteAt(code, i + 1)
  }

  /** `stack.pop()`: the top value, `undefined` on an empty stack. */
  function Pop(stack: seq<Value>): (Option<Value>, seq<Value>) {
    if stack == [] then (None, []) else (Some(stack[|stack| - 1]), stack[..|stack| - 1])
  }

  /** `a + b` on popped values. */
  function Add(a: Option<Value>, b: Option<Value>): Value {
    if a.Some? && a.value.Num? && b.Some? && b.value.Num? then Num(a.value.n + b.value.n) else NaN
  }

  /** One pass of the `while` loop from a running machine. */
  function Step(code: seq<byte>, m: Machine): Machine
    requires m.pc < |code|
  {
    var opcode, pc := code[m.pc], m.pc + 1;
    if opcode == 0x01 then
      Machine(pc + 2, m.stack + [Num(Int16At(code, pc))], m.output, Running)
    else if opcode == 0x02 then
      var (b, s1) := Pop(m.stack);
      var (a, s2) := Pop(s1);
      Machine(pc, s2 + [Add(a, b)], m.output, Running)
    else if opcode == 0x03 then
      var (v, s1) := Pop(m.stack);
      Machine(pc, s1, m.output + [v], Running)
    else if opcode == 0xff then
      Machine(pc, m.stack, m.output, Halted)
    else
      Machine(pc, m.stack, m.output, Faulted(opcode))
  }

  /** `run()`: step until the end of the code, a halt or an unknown opcode. */
  function Execute(code: seq<byte>, m: Machine): Machine
    requires m.status == Running
    decreases |code| - m.pc
  {
    if m.pc >= |code| then m
    else
      var m' := Step(code, m);
      if m'.status == Running then Execute(code, m') else m'
  }

  class MyVM {
    var pc: nat
    var stack: seq<Value>
    var output: seq<Option<Value>>
    const code: array<byte>

    function State(): Machine
      reads this
    {
      Machine(pc, stack, output, Running)
    }

    constructor (code: array<byte>)
      ensures this.code == code && pc == 0 && stack == [] && output == []
    {
      this.code := code;
      pc, stack, output := 0, [], [];
    }

    method ReadInt16() returns (v: nat)
      modifies this
      ensures v == Int16At(code[..], old(pc)) && v < 0x1_0000
      ensures pc == old(pc) + 2 && stack == old(stack) && output == old(output)
    {
      var lo: nat := if pc < code.Length then code[pc] else 0;
      var hi: nat := if pc + 1 < code.Length then code[pc + 1] else 0;
      pc := pc + 2;
      v := lo + 256 * hi;
    }

    method Run() returns (status: Status)
      modifies this
      ensures var final := Execute(code[..], old(State()));
              pc == final.pc && stack == final.stack && output == final.output && status == final.status
    {
      while pc < code.Length
        invariant Execute(code[..], State()) == Execute(code[..], old(State()))
        decreases code.Length - pc
      {
        ghost var before := State();
        var opcode := code[pc];
        pc := pc + 1;
        if opcode == 0x01 {
          var val := ReadInt16();
          stack := stack + [Num(val)];
        } else if opcode == 0x02 {
          var b, a;
          b, stack := Pop(stack).0, Pop(stack).1;
          a, stack := Pop(stack).0, Pop(stack).1;
          stack := stack + [Add(a, b)];
        } else if opcode == 0x03 {
          var v;
          v, stack := Pop(stack).0, Pop(stack).1;
          output := output + [v];
        } else if opcode == 0xff {
          return Halted;
        } else {
          return Faulted(opcode);
        }
        assert State() == Step(code[..], before);
      }
      return Running;
    }
  }
}
