/**
 * The three stages together on the programs the byte-code machine can run:
 * `puts`/`print` of sums of integer literals, and `exit`. Lowering, assembling
 * and running such a program prints the value of each printed sum, in order,
 * up to the first `exit`.
 *
 * Such programs only ever use four instructions (`Code`). The proof goes
 * through them: each stage is shown to map an instruction list to its
 * counterpart (text lines, bytes, machine steps), and the programs are shown
 * to compile to instruction lists that compute the right values.
 */
module Pipeline {
  import opened Common
  import opened Strings
  import opened Ast
  import opened Mnemonics
  import opened Opcodes
  import opened Lowering
  import opened Assembler
  import opened AssemblerFacts
  import opened VM

  // The programs.

  /**
   * A sum of integer literals, none of them 1 or 2, which lower to the
   * fast-path mnemonics.
   */
  predicate Arith(e: Node) {
    match e
    case IntegerNode(v) => v != 1 && v != 2
    case CallNode(r, name, a) =>
      name == "+" && r.Some? && Arith(r.value)
      && a.Some? && a.value.ArgumentsNode? && |a.value.argumentList| == 1 && Arith(a.value.argumentList[0])
    case _ => false
  }

  /**
   * The value the machine computes for a sum. A literal travels as one
   * two-byte operand, so it arrives modulo 2^16: a literal of 65536 or more
   * wraps around, and a negative literal `-n` arrives as `65536 - n`.
   */
  function Eval(e: Node): int
    requires Arith(e)
  {
    match e
    case IntegerNode(v) => v % 0x1_0000
    case CallNode(r, _, a) => Eval(r.value) + Eval(a.value.argumentList[0])
  }

  /** A statement the machine can run: `puts e`, `print e` or a bare `exit`. */
  predicate Simple(s: Node) {
    s.CallNode? && s.receiver.None?
    && (if s.name == "exit" then s.arguments.None?
        else (s.name == "puts" || s.name == "print") && s.arguments.Some? && s.arguments.value.ArgumentsNode?
             && |s.arguments.value.argumentList| == 1 && Arith(s.arguments.value.argumentList[0]))
  }

  /** The sum `puts e` or `print e` prints. */
  function Operand(s: Node): Node
    requires Simple(s) && s.name != "exit"
  {
    s.arguments.value.argumentList[0]
  }

  predicate AllSimple(ss: seq<Node>) {
    forall i :: 0 <= i < |ss| ==> Simple(ss[i])
  }

  /** What the statements print, up to the first `exit`. */
  function Printed(ss: seq<Node>): seq<Option<Value>>
    requires AllSimple(ss)
  {
    if ss == [] || ss[0].name == "exit" then []
    else [Some(Num(Eval(Operand(ss[0]))))] + Printed(ss[1..])
  }

  predicate Exits(ss: seq<Node>) {
    exists i :: 0 <= i < |ss| && ss[i].CallNode? && ss[i].name == "exit"
  }

  // The instructions they use, and what each stage makes of one.

  datatype Code = Push(v: int) | Plus | Print | Stop

  function ExprInstrs(e: Node): seq<Code>
    requires Arith(e)
  {
    match e
    case IntegerNode(v) => [Push(v)]
    case CallNode(r, _, a) => ExprInstrs(r.value) + ExprInstrs(a.value.argumentList[0]) + [Plus]
  }

  function StmtInstrs(s: Node): seq<Code>
    requires Simple(s)
  {
    if s.name == "exit" then [Stop] else ExprInstrs(Operand(s)) + [Print]
  }

  function ProgramInstrs(ss: seq<Node>): seq<Code>
    requires AllSimple(ss)
  {
    if ss == [] then [] else StmtInstrs(ss[0]) + ProgramInstrs(ss[1..])
  }

  /** The line the lowerer emits. */
  function LineOf(i: Code): Line {
    match i
    case Push(v) => Op(Number, [IntText(v)])
    case Plus => Op(Addition, [])
    case Print => Op(Output, [])
    case Stop => Op(End, [])
  }

  function Lines(prog: seq<Code>): (r: seq<Line>)
    ensures |r| == |prog| && forall k :: 0 <= k < |prog| ==> r[k] == LineOf(prog[k])
  {
    seq(|prog|, k requires 0 <= k < |prog| => LineOf(prog[k]))
  }

  /** The bytes the assembler emits. */
  function Encode1(i: Code): seq<byte> {
    match i
    case Push(v) => [0x01] + LittleEndian(v)
    case Plus => [0x02]
    case Print => [0x03]
    case Stop => [0xff]
  }

  function EncodeAll(prog: seq<Code>): seq<byte> {
    if prog == [] then [] else Encode1(prog[0]) + EncodeAll(prog[1..])
  }

  /** What the machine does with an instruction, moving past its bytes. */
  function Exec1(i: Code, m: Machine): Machine {
    var pc := m.pc + |Encode1(i)|;
    match i
    case Push(v) => m.(pc := pc, stack := m.stack + [Num(v % 0x1_0000)])
    case Plus =>
      var (b, s1) := Pop(m.stack);
      var (a, s2) := Pop(s1);
      m.(pc := pc, stack := s2 + [Add(a, b)])
    case Print =>
      var (v, s1) := Pop(m.stack);
      m.(pc := pc, stack := s1, output := m.output + [v])
    case Stop => m.(pc := pc, status := Halted)
  }

  /** The instructions in order, until one halts. */
  function Sem(prog: seq<Code>, m: Machine): Machine {
    if prog == [] || m.status != Running then m else Sem(prog[1..], Exec1(prog[0], m))
  }

  // Lowering.

  lemma LinesAppend(a: seq<Code>, b: seq<Code>)
    ensures Lines(a + b) == Lines(a) + Lines(b)
  {
    assert forall k :: 0 <= k < |a + b| ==> Lines(a + b)[k] == (Lines(a) + Lines(b))[k];
  }

  lemma {:induction false} LowerArith(e: Node, ctx: Context)
    requires Arith(e) && "+" !in ctx.functionTable
    ensures WellTyped(e) && Lower(e, ctx) == Ok(Lowered(Lines(ExprInstrs(e)), ctx))
  {
    match e
    case IntegerNode(v) =>
      assert Lines([Push(v)]) == [Op(Number, [IntText(v)])];
    case CallNode(r, _, a) =>
      var x, y := r.value, a.value.argumentList[0];
      LowerArith(x, ctx);
      LowerArith(y, ctx);
      assert a.value.argumentList == [y];
      var lx, ly := Lines(ExprInstrs(x)), Lines(ExprInstrs(y));
      assert LowerAll([y], ctx) == Ok(Lowered(ly + [], ctx));
      assert ly + [] == ly;
      LinesAppend(ExprInstrs(x) + ExprInstrs(y), [Plus]);
      LinesAppend(ExprInstrs(x), ExprInstrs(y));
      assert Lines([Plus]) == [Op(Addition, [])];
  }

  lemma LowerSimple(s: Node, ctx: Context)
    requires Simple(s) && ctx.functionTable == map[]
    ensures WellTyped(s) && Lower(s, ctx) == Ok(Lowered(Lines(StmtInstrs(s)), ctx))
  {
    if s.name == "exit" {
      assert Lines([Stop]) == [Op(End, [])];
    } else {
      var e := Operand(s);
      LowerArith(e, ctx);
      assert s.arguments.value.argumentList == [e];
      var le := Lines(ExprInstrs(e));
      assert LowerAll([e], ctx) == Ok(Lowered(le + [], ctx));
      assert le + [] == le;
      LinesAppend(ExprInstrs(e), [Print]);
      assert Lines([Print]) == [Op(Output, [])];
    }
  }

  lemma {:induction false} LowerStatements(ss: seq<Node>, ctx: Context)
    requires AllSimple(ss) && ctx.functionTable == map[]
    ensures forall i :: 0 <= i < |ss| ==> WellTyped(ss[i])
    ensures LowerAll(ss, ctx) == Ok(Lowered(Lines(ProgramInstrs(ss)), ctx))
  {
    if ss == [] {
      assert Lines([]) == [];
    } else {
      LowerSimple(ss[0], ctx);
      LowerStatements(ss[1..], ctx);
      assert forall i :: 1 <= i < |ss| ==> ss[i] == ss[1..][i - 1];
      LinesAppend(StmtInstrs(ss[0]), ProgramInstrs(ss[1..]));
    }
  }

  // Assembling.

  /** The text of a `PUSH_NUM` line splits into the mnemonic and the number. */
  lemma PushNumWords(v: int)
    ensures var t := Text(Op(Number, [IntText(v)]));
            Instr(t) == "PUSH_NUM" && Args(t) == [IntText(v)] && IsDigit(t[|t| - 1])
  {
    var d := IntText(v);
    IntTextShape(v);
    assert ' ' !in "PUSH_NUM";
    assert Join([d]) == d;
    var t := Join(["PUSH_NUM", d]);
    assert t == "PUSH_NUM" + " " + d;
    assert t[|t| - 1] == d[|d| - 1];
    SplitJoin(["PUSH_NUM", d]);
  }

  /** Pass 2 on one more line: its opcode, then its operands. */
  lemma EncodeSnoc(xs: seq<string>, t: string, labels: map<string, nat>, s: Slots, b: seq<byte>, op: byte, operands: seq<byte>)
    requires EncodeLines(xs, labels, s) == Encoding(b, s, None)
    requires OpcodeOf(Instr(t)) == Some(op) && EncodeArgs(Instr(t), Args(t), labels, s) == (operands, s)
    ensures EncodeLines(xs + [t], labels, s) == Encoding(b + [op] + operands, s, None)
  {
    assert (xs + [t])[..|xs|] == xs;
  }

  lemma BareWords(t: string)
    requires ' ' !in t
    ensures Instr(t) == t && Args(t) == []
  {
    SplitNoSpace(t);
  }

  /** A decimal operand of `PUSH_NUM` is its own value, in two bytes. */
  lemma PushOperand(v: int, labels: map<string, nat>, s: Slots)
    ensures EncodeArgs("PUSH_NUM", [IntText(v)], labels, s) == (LittleEndian(v), s)
  {
    ParseIntText(v);
    assert [IntText(v)][..0] == [];
    assert EncodeArg("PUSH_NUM", IntText(v), labels, s) == (LittleEndian(v), s);
    assert [] + LittleEndian(v) == LittleEndian(v);
  }

  /** Pass 2 on a line that is a bare mnemonic. */
  lemma EncodeBare(xs: seq<string>, t: string, labels: map<string, nat>, s: Slots, b: seq<byte>, op: byte)
    requires EncodeLines(xs, labels, s) == Encoding(b, s, None)
    requires ' ' !in t && OpcodeOf(t) == Some(op)
    ensures EncodeLines(xs + [t], labels, s) == Encoding(b + [op], s, None)
  {
    BareWords(t);
    EncodeSnoc(xs, t, labels, s, b, op, []);
    assert b + [op] + [] == b + [op];
  }

  /** Pass 2 on a `PUSH_NUM` line. */
  lemma EncodePush(xs: seq<string>, v: int, labels: map<string, nat>, s: Slots, b: seq<byte>)
    requires EncodeLines(xs, labels, s) == Encoding(b, s, None)
    ensures EncodeLines(xs + [Text(LineOf(Push(v)))], labels, s) == Encoding(b + Encode1(Push(v)), s, None)
  {
    var t := Text(LineOf(Push(v)));
    assert LineOf(Push(v)) == Op(Number, [IntText(v)]);
    PushNumWords(v);
    PushOperand(v, labels, s);
    assert Instr(t) == "PUSH_NUM" && Args(t) == [IntText(v)];
    assert EncodeArgs(Instr(t), Args(t), labels, s) == (LittleEndian(v), s);
    assert OpcodeOf("PUSH_NUM") == Some(0x01);
    assert !IsLabelLine(t);
    EncodeSnoc(xs, t, labels, s, b, 0x01, LittleEndian(v));
    assert Encode1(Push(v)) == [0x01] + LittleEndian(v);
    assert b + [0x01] + LittleEndian(v) == b + ([0x01] + LittleEndian(v));
  }

  /** Pass 2 turns each instruction's line into that instruction's bytes. */
  lemma EncodeInstr(xs: seq<string>, i: Code, labels: map<string, nat>, s: Slots, b: seq<byte>)
    requires EncodeLines(xs, labels, s) == Encoding(b, s, None)
    ensures EncodeLines(xs + [Text(LineOf(i))], labels, s) == Encoding(b + Encode1(i), s, None)
  {
    match i
    case Push(v) =>
      EncodePush(xs, v, labels, s, b);
    case Plus =>
      BareLines();
      EncodeBare(xs, "ADD", labels, s, b, 0x02);
    case Print =>
      BareLines();
      EncodeBare(xs, "PUTS", labels, s, b, 0x03);
    case Stop =>
      BareLines();
      EncodeBare(xs, "HALT", labels, s, b, 0xff);
  }

  lemma {:induction false} EncodeAllAppend(a: seq<Code>, b: seq<Code>)
    ensures EncodeAll(a + b) == EncodeAll(a) + EncodeAll(b)
  {
    if a == [] {
      assert a + b == b;
    } else {
      assert (a + b)[1..] == a[1..] + b;
      EncodeAllAppend(a[1..], b);
    }
  }

  /** No instruction's line is a label definition. */
  lemma LineNotLabel(i: Code)
    ensures !IsLabelLine(Text(LineOf(i)))
  {
    if i.Push? {
      PushNumWords(i.v);
    } else {
      BareLines();
    }
  }

  /** The lines of the instructions without operands. */
  lemma BareLines()
    ensures Text(LineOf(Plus)) == "ADD" && Text(LineOf(Print)) == "PUTS" && Text(LineOf(Stop)) == "HALT"
  {
    assert Spelling(Addition) == "ADD" && Spelling(Output) == "PUTS" && Spelling(End) == "HALT";
  }

  lemma LinesNotLabels(prog: seq<Code>)
    ensures forall k :: 0 <= k < |prog| ==> !IsLabelLine(Texts(Lines(prog))[k])
  {
    forall k | 0 <= k < |prog| ensures !IsLabelLine(Texts(Lines(prog))[k]) {
      LineNotLabel(prog[k]);
    }
  }

  lemma TextsSnoc(init: seq<Code>, last: Code)
    ensures Texts(Lines(init + [last])) == Texts(Lines(init)) + [Text(LineOf(last))]
  {
    var r := Texts(Lines(init + [last]));
    assert forall k :: 0 <= k < |init| ==> r[k] == Texts(Lines(init))[k];
  }

  /** Pass 2 over the lines of an instruction list gives its bytes. */
  lemma {:induction false} AssembleInstrs(prog: seq<Code>, labels: map<string, nat>, s: Slots)
    ensures EncodeLines(Texts(Lines(prog)), labels, s) == Encoding(EncodeAll(prog), s, None)
  {
    if prog == [] {
      assert Texts(Lines(prog)) == [];
    } else {
      var init, last := prog[..|prog| - 1], prog[|prog| - 1];
      assert prog == init + [last];
      AssembleInstrs(init, labels, s);
      var xs := Texts(Lines(init));
      TextsSnoc(init, last);
      EncodeInstr(xs, last, labels, s, EncodeAll(init));
      EncodeAllAppend(init, [last]);
      assert EncodeAll([last]) == Encode1(last) + EncodeAll([]);
    }
  }

  /** The lines of this form have no labels, so pass 1 passes them through. */
  lemma {:induction false} NoLabelsPass1(lines: seq<string>)
    requires forall i :: 0 <= i < |lines| ==> !IsLabelLine(lines[i])
    ensures Pass1(lines).instructions == lines && Pass1(lines).labels == map[]
  {
    if lines != [] {
      NoLabelsPass1(lines[..|lines| - 1]);
    }
  }

  // Running.

  /** At most `n` passes of the loop. */
  function Steps(code: seq<byte>, m: Machine, n: nat): Machine
    decreases n
  {
    if n == 0 || m.status != Running || m.pc >= |code| then m else Steps(code, Step(code, m), n - 1)
  }

  lemma {:induction false} StepsAdd(code: seq<byte>, m: Machine, a: nat, b: nat)
    ensures Steps(code, m, a + b) == Steps(code, Steps(code, m, a), b)
    decreases a
  {
    if a > 0 && m.status == Running && m.pc < |code| {
      StepsAdd(code, Step(code, m), a - 1, b);
    }
  }

  /** A run that reaches a state by counted steps ends where the run from that state ends. */
  lemma {:induction false} ExecuteSteps(code: seq<byte>, m: Machine, n: nat)
    requires m.status == Running
    ensures Steps(code, m, n).status == Running ==> Execute(code, m) == Execute(code, Steps(code, m, n))
    ensures Steps(code, m, n).status != Running ==> Execute(code, m) == Steps(code, m, n)
    decreases n
  {
    if n > 0 && m.pc < |code| && Step(code, m).status == Running {
      ExecuteSteps(code, Step(code, m), n - 1);
    }
  }

  /** `code` holds `b` from offset `i` on. */
  predicate At(code: seq<byte>, i: nat, b: seq<byte>) {
    i + |b| <= |code| && code[i..i + |b|] == b
  }

  lemma AtSplit(code: seq<byte>, i: nat, a: seq<byte>, b: seq<byte>)
    requires At(code, i, a + b)
    ensures At(code, i, a) && At(code, i + |a|, b)
  {
    var whole := code[i..i + |a + b|];
    assert code[i..i + |a|] == whole[..|a|] && (a + b)[..|a|] == a;
    assert code[i + |a|..i + |a| + |b|] == whole[|a|..] && (a + b)[|a|..] == b;
  }

  lemma AtIndex(code: seq<byte>, i: nat, b: seq<byte>, j: nat)
    requires At(code, i, b) && j < |b|
    ensures code[i + j] == b[j]
  {
    assert code[i..i + |b|][j] == code[i + j];
  }

  lemma LittleEndianBack(v: int)
    ensures LittleEndian(v)[0] as int + 256 * (LittleEndian(v)[1] as int) == v % 0x1_0000
  {
  }

  /** The machine decodes each instruction's bytes back to that instruction. */
  lemma RunOnce(code: seq<byte>, i: Code, m: Machine)
    requires m.status == Running && At(code, m.pc, Encode1(i))
    ensures Steps(code, m, 1) == Exec1(i, m)
  {
    var b := Encode1(i);
    AtIndex(code, m.pc, b, 0);
    if i.Push? {
      AtIndex(code, m.pc, b, 1);
      AtIndex(code, m.pc, b, 2);
      LittleEndianBack(i.v);
      assert Int16At(code, m.pc + 1) == i.v % 0x1_0000;
    }
    assert Steps(code, m, 1) == Steps(code, Step(code, m), 0);
  }

  /** Running the bytes of an instruction list steps through the instructions. */
  lemma {:induction false} RunInstrs(code: seq<byte>, prog: seq<Code>, m: Machine)
    requires m.status == Running && At(code, m.pc, EncodeAll(prog))
    ensures Steps(code, m, |prog|) == Sem(prog, m)
  {
    if prog != [] {
      var i, rest := prog[0], prog[1..];
      AtSplit(code, m.pc, Encode1(i), EncodeAll(rest));
      RunOnce(code, i, m);
      StepsAdd(code, m, 1, |rest|);
      var m1 := Exec1(i, m);
      if m1.status == Running {
        RunInstrs(code, rest, m1);
      }
    }
  }

  // What the instructions compute.

  lemma {:induction false} SemAppend(a: seq<Code>, b: seq<Code>, m: Machine)
    ensures Sem(a + b, m) == Sem(b, Sem(a, m))
  {
    if a == [] {
      assert a + b == b;
    } else if m.status == Running {
      assert (a + b)[1..] == a[1..] + b;
      SemAppend(a[1..], b, Exec1(a[0], m));
    } else {
      assert Sem(b, m) == m;
    }
  }

  /** A sum's instructions push its value and leave everything else alone. */
  lemma {:induction false} SemArith(e: Node, m: Machine)
    requires Arith(e) && m.status == Running
    ensures Sem(ExprInstrs(e), m)
            == m.(pc := m.pc + |EncodeAll(ExprInstrs(e))|, stack := m.stack + [Num(Eval(e))])
  {
    match e
    case IntegerNode(v) =>
      assert EncodeAll([Push(v)]) == Encode1(Push(v)) + EncodeAll([]);
    case CallNode(r, _, a) =>
      var x, y := r.value, a.value.argumentList[0];
      var ix, iy := ExprInstrs(x), ExprInstrs(y);
      SemArith(x, m);
      var m1 := Sem(ix, m);
      SemArith(y, m1);
      var m2 := Sem(iy, m1);
      assert m2.stack == m.stack + [Num(Eval(x))] + [Num(Eval(y))];
      assert m2.stack[..|m2.stack| - 1] == m.stack + [Num(Eval(x))];
      assert (m.stack + [Num(Eval(x))])[..|m.stack|] == m.stack;
      assert Sem([Plus], m2) == Exec1(Plus, m2);
      SemAppend(ix, iy, m);
      SemAppend(ix + iy, [Plus], m);
      EncodeAllAppend(ix, iy);
      EncodeAllAppend(ix + iy, [Plus]);
      assert EncodeAll([Plus]) == [0x02] + EncodeAll([]);
  }

  lemma SemSimple(st: Node, m: Machine)
    requires Simple(st) && m.status == Running
    ensures st.name == "exit" ==> Sem(StmtInstrs(st), m) == m.(pc := m.pc + 1, status := Halted)
    ensures st.name != "exit" ==>
              Sem(StmtInstrs(st), m)
              == m.(pc := m.pc + |EncodeAll(StmtInstrs(st))|,
                    output := m.output + [Some(Num(Eval(Operand(st))))])
  {
    if st.name == "exit" {
      assert Sem([Stop], m) == Sem([], Exec1(Stop, m));
    } else {
      var e := Operand(st);
      SemArith(e, m);
      var m1 := Sem(ExprInstrs(e), m);
      assert m1.stack[..|m1.stack| - 1] == m.stack;
      assert Sem([Print], m1) == Exec1(Print, m1);
      SemAppend(ExprInstrs(e), [Print], m);
      EncodeAllAppend(ExprInstrs(e), [Print]);
      assert EncodeAll([Print]) == [0x03] + EncodeAll([]);
    }
  }

  lemma ExitsCons(ss: seq<Node>)
    requires ss != []
    ensures Exits(ss) <==> (ss[0].CallNode? && ss[0].name == "exit") || Exits(ss[1..])
  {
    if Exits(ss) {
      var i :| 0 <= i < |ss| && ss[i].CallNode? && ss[i].name == "exit";
      if i > 0 {
        assert ss[1..][i - 1] == ss[i];
      }
    }
    if Exits(ss[1..]) {
      var i :| 0 <= i < |ss[1..]| && ss[1..][i].CallNode? && ss[1..][i].name == "exit";
      assert ss[i + 1] == ss[1..][i];
    }
  }

  /** A statement list that starts with `exit` prints nothing and halts at once. */
  lemma SemExitFirst(ss: seq<Node>, m: Machine)
    requires AllSimple(ss) && ss != [] && ss[0].name == "exit" && m.status == Running
    ensures var r := Sem(ProgramInstrs(ss), m);
            r.stack == m.stack && r.output == m.output + Printed(ss) && r.status == Halted && Exits(ss)
  {
    SemSimple(ss[0], m);
    SemAppend(StmtInstrs(ss[0]), ProgramInstrs(ss[1..]), m);
    var m1 := Sem(StmtInstrs(ss[0]), m);
    assert Sem(ProgramInstrs(ss[1..]), m1) == m1;
    assert m.output + [] == m.output;
  }

  /** How the functions on a statement list unfold when it starts with `puts e` or `print e`. */
  lemma PrintCons(ss: seq<Node>)
    requires AllSimple(ss) && ss != [] && ss[0].name != "exit"
    ensures ProgramInstrs(ss) == StmtInstrs(ss[0]) + ProgramInstrs(ss[1..])
    ensures Printed(ss) == [Some(Num(Eval(Operand(ss[0]))))] + Printed(ss[1..])
    ensures Exits(ss) <==> Exits(ss[1..])
    ensures |EncodeAll(ProgramInstrs(ss))| == |EncodeAll(StmtInstrs(ss[0]))| + |EncodeAll(ProgramInstrs(ss[1..]))|
  {
    ExitsCons(ss);
    EncodeAllAppend(StmtInstrs(ss[0]), ProgramInstrs(ss[1..]));
  }

  /** `puts e` or `print e` followed by more instructions prints the value of `e`, then runs the rest. */
  lemma PrintThen(st: Node, later: seq<Code>, m: Machine) returns (m1: Machine)
    requires Simple(st) && st.name != "exit" && m.status == Running
    ensures m1 == m.(pc := m.pc + |EncodeAll(StmtInstrs(st))|,
                     output := m.output + [Some(Num(Eval(Operand(st))))])
    ensures Sem(StmtInstrs(st) + later, m) == Sem(later, m1)
  {
    SemSimple(st, m);
    SemAppend(StmtInstrs(st), later, m);
    m1 := Sem(StmtInstrs(st), m);
  }

  /** A statement list prints what it prints, keeps the stack, and halts exactly at its first `exit`. */
  lemma {:induction false} SemStatements(ss: seq<Node>, m: Machine)
    requires AllSimple(ss) && m.status == Running
    ensures var r := Sem(ProgramInstrs(ss), m);
            && r.stack == m.stack && r.output == m.output + Printed(ss)
            && (r.status == Halted <==> Exits(ss)) && (r.status == Running || r.status == Halted)
            && (r.status == Running ==> r.pc == m.pc + |EncodeAll(ProgramInstrs(ss))|)
  {
    if ss == [] {
      assert m.output + [] == m.output;
    } else {
      var st, rest := ss[0], ss[1..];
      if st.name == "exit" {
        SemExitFirst(ss, m);
      } else {
        PrintCons(ss);
        var m1 := PrintThen(st, ProgramInstrs(rest), m);
        var r := Sem(ProgramInstrs(ss), m);
        assert r == Sem(ProgramInstrs(rest), m1);
        SemStatements(rest, m1);
        var printed, tail := Some(Num(Eval(Operand(st)))), Printed(rest);
        assert r.output == (m.output + [printed]) + tail;
        assert r.output == m.output + ([printed] + tail);
      }
    }
  }

  /** Such a program lowers to the lines of its instructions, and those assemble to their bytes. */
  lemma CompileProgram(ss: seq<Node>, s: Slots)
    requires AllSimple(ss)
    ensures WellTyped(ProgramNode(StatementsNode(ss)))
    ensures Lower(ProgramNode(StatementsNode(ss)), Initial) == Ok(Lowered(Lines(ProgramInstrs(ss)), Initial))
    ensures Assembled(Texts(Lines(ProgramInstrs(ss))), s) == Encoding(EncodeAll(ProgramInstrs(ss)), s, None)
  {
    var prog := ProgramInstrs(ss);
    LowerStatements(ss, Initial);
    AssembleInstrs(prog, map[], s);
    LinesNotLabels(prog);
    NoLabelsPass1(Texts(Lines(prog)));
  }

  /** The machine started on a program's bytes prints what the program prints. */
  lemma RunProgram(ss: seq<Node>)
    requires AllSimple(ss)
    ensures var final := Execute(EncodeAll(ProgramInstrs(ss)), Machine(0, [], [], Running));
            && final.output == Printed(ss) && final.stack == []
            && (final.status == Halted <==> Exits(ss)) && !final.status.Faulted?
  {
    var prog := ProgramInstrs(ss);
    var code := EncodeAll(prog);
    var m := Machine(0, [], [], Running);
    SemStatements(ss, m);
    assert code[0..|code|] == code;
    RunInstrs(code, prog, m);
    ExecuteSteps(code, m, |prog|);
    assert [] + Printed(ss) == Printed(ss);
  }

  /**
   * End to end: such a program lowers without error, assembles without
   * touching the variable table, and the machine, started as its constructor
   * leaves it, prints each printed sum in order with an empty stack at the
   * end, halting exactly when the program contains an `exit` and never
   * meeting an unknown opcode.
   */
  lemma EndToEnd(ss: seq<Node>, s: Slots)
    requires AllSimple(ss)
    ensures WellTyped(ProgramNode(StatementsNode(ss)))
    ensures var lowered := Lower(ProgramNode(StatementsNode(ss)), Initial);
            && lowered.Ok?
            && var assembled := Assembled(Texts(lowered.value.code), s);
            && assembled.failure.None? && assembled.slots == s
            && var final := Execute(assembled.bytes, Machine(0, [], [], Running));
            && final.output == Printed(ss) && final.stack == []
            && (final.status == Halted <==> Exits(ss)) && !final.status.Faulted?
  {
    CompileProgram(ss, s);
    RunProgram(ss);
  }

  /** The statement `puts <v>`. */
  function PutsLiteral(v: int): Node {
    CallNode(None, "puts", Some(ArgumentsNode([IntegerNode(v)])))
  }

  /** `puts <v>` alone, for a literal other than 1 and 2, is a program of the fragment. */
  lemma PutsLiteralProgram(v: int)
    requires v != 1 && v != 2
    ensures AllSimple([PutsLiteral(v)])
    ensures Printed([PutsLiteral(v)]) == [Some(Num(v % 0x1_0000))]
    ensures Lines(ProgramInstrs([PutsLiteral(v)])) == [Op(Number, [IntText(v)]), Op(Output, [])]
  {
    var st := PutsLiteral(v);
    assert Arith(IntegerNode(v)) && Operand(st) == IntegerNode(v);
    var ss := [st];
    var none: seq<Node> := [];
    assert ss[1..] == none;
    assert Printed(ss) == [Some(Num(Eval(IntegerNode(v))))] + Printed(none);
    assert ProgramInstrs(ss) == [Push(v), Print] + ProgramInstrs(none);
    assert Lines([Push(v), Print]) == [Op(Number, [IntText(v)]), Op(Output, [])];
  }

  /** `puts <v>` as a whole program: it prints `v` modulo 2^16. */
  lemma PutsLiteralEndToEnd(v: int, s: Slots)
    requires v != 1 && v != 2
    ensures WellTyped(ProgramNode(StatementsNode([PutsLiteral(v)])))
    ensures var lowered := Lower(ProgramNode(StatementsNode([PutsLiteral(v)])), Initial);
            && lowered.Ok? && lowered.value.code == [Op(Number, [IntText(v)]), Op(Output, [])]
            && var assembled := Assembled(Texts(lowered.value.code), s);
            && assembled.failure.None?
            && Execute(assembled.bytes, Machine(0, [], [], Running)).output == [Some(Num(v % 0x1_0000))]
  {
    PutsLiteralProgram(v);
    EndToEnd([PutsLiteral(v)], s);
    CompileProgram([PutsLiteral(v)], s);
  }

  /**
   * A negative literal is written as `PUSH_NUM -n`, which `Number` reads as
   * -n, and its two operand bytes are those of -n in two's complement: the
   * machine reads them back as `65536 - n`, so `puts -n` prints `65536 - n`
   * (here `v` is `-n`).
   */
  lemma PutsNegativeLiteral(v: int, s: Slots)
    requires -0x1_0000 < v < 0
    ensures WellTyped(ProgramNode(StatementsNode([PutsLiteral(v)])))
    ensures var lowered := Lower(ProgramNode(StatementsNode([PutsLiteral(v)])), Initial);
            && lowered.Ok? && lowered.value.code == [Op(Number, ["-" + Dec(-v)]), Op(Output, [])]
            && var assembled := Assembled(Texts(lowered.value.code), s);
            && assembled.failure.None?
            && Execute(assembled.bytes, Machine(0, [], [], Running)).output == [Some(Num(0x1_0000 + v))]
  {
    NegativeLiteral(v);
    PutsLiteralEndToEnd(v, s);
  }

  /** A negative literal's text and its value modulo 2^16. */
  lemma NegativeLiteral(v: int)
    requires -0x1_0000 < v < 0
    ensures IntText(v) == "-" + Dec(-v) && v % 0x1_0000 == 0x1_0000 + v
  {
  }

  /**
   * The literals 1 and 2 take the fast path to `NUMBER1` and `NUMBER2`, which
   * the opcode table lacks: their lowered code never assembles.
   */
  lemma SmallLiteralRejected(v: int, s: Slots)
    requires v == 1 || v == 2
    ensures var lowered := Lower(IntegerNode(v), Initial);
            && lowered.Ok?
            && Assembled(Texts(lowered.value.code), s).failure
               == Some(UnknownInstruction(if v == 1 then "NUMBER1" else "NUMBER2"))
  {
    var m := if v == 1 then Number1 else Number2;
    var t := Text(Op(m, []));
    assert t == Spelling(m);
    assert Texts([Op(m, [])]) == [t];
    SpellingShape(m);
    assert !IsLabelLine(t);
    BareWords(t);
    OpcodeTable(m);
    assert Pass1([t]).instructions == [t];
    assert [t][..0] == [];
    assert OpcodeOf(Instr(t)) == None;
    var labels := Pass1([t]).labels;
    assert EncodeLines([t][..0], labels, s) == Encoding([], s, None);
    var e := EncodeLines([t], labels, s);
    assert e.failure == Some(UnknownInstruction(t));
    assert Lower(IntegerNode(v), Initial) == Ok(Lowered([Op(m, [])], Initial));
  }

  /** The text of a line with one operand. */
  lemma TextWithOperand(m: Mnemonic, a: string)
    ensures Text(Op(m, [a])) == Spelling(m) + " " + a
  {
    var ws := [Spelling(m)] + [a];
    assert ws[1..] == [a];
    assert Join(ws[1..]) == a;
    assert Join(ws) == ws[0] + " " + Join(ws[1..]);
  }

  /** A one-operand line splits back into its mnemonic and its operand. */
  lemma SplitWithOperand(m: Mnemonic, a: string)
    requires ' ' !in a
    ensures Instr(Text(Op(m, [a]))) == Spelling(m) && Args(Text(Op(m, [a]))) == [a]
  {
    TextWithOperand(m, a);
    SpellingShape(m);
    SplitAfterWord(Spelling(m), a);
    SplitNoSpace(a);
  }

  /** A program of one line that is no label and whose mnemonic has no byte fails on it. */
  lemma OneLineRejected(line: string, s: Slots)
    requires !IsLabelLine(line) && Instr(line) !in OPCODES
    ensures Assembled([line], s).failure == Some(UnknownInstruction(Instr(line)))
  {
    var none: seq<string> := [];
    assert [line][..0] == none;
    assert Pass1([line]).instructions == [line];
    ThrowsAtFirstUnknown([line], 0, Pass1([line]).labels, s);
  }

  /**
   * A string literal ending in ':' lowers to a `PUSH_STR` line that pass 1
   * takes for a label definition: the line is dropped and its text, less the
   * colon, is recorded as a label at the current address.
   */
  lemma ColonStringIsLabel(u: string, ctx: Context)
    requires EndsWith(u, ':')
    ensures Lower(StringNode(u), ctx) == Ok(Lowered([Op(Str, [u])], ctx))
    ensures var line := Text(Op(Str, [u]));
            && line == "PUSH_STR " + u && IsLabelLine(line)
            && Pass1([line]) == Layout([], map[LabelName(line) := 0], 0)
  {
    ColonLine(u);
  }

  /** The line of a string ending in ':' is a label definition. */
  lemma ColonLine(u: string)
    requires EndsWith(u, ':')
    ensures var line := Text(Op(Str, [u]));
            && line == "PUSH_STR " + u && IsLabelLine(line)
            && Pass1([line]) == Layout([], map[LabelName(line) := 0], 0)
  {
    var line := Text(Op(Str, [u]));
    TextWithOperand(Str, u);
    assert line[|line| - 1] == u[|u| - 1];
    var none: seq<string> := [];
    assert [line][..0] == none;
  }

  /** The program `puts "<u>"`. */
  function PutsString(u: string): Node {
    ProgramNode(StatementsNode([CallNode(None, "puts", Some(ArgumentsNode([StringNode(u)])))]))
  }

  /** `puts "<u>"` lowers to the string's line and then `PUTS`. */
  lemma LowerPutsString(u: string)
    ensures WellTyped(PutsString(u))
    ensures Lower(PutsString(u), Initial) == Ok(Lowered([Op(Str, [u]), Op(Output, [])], Initial))
  {
    var call := CallNode(None, "puts", Some(ArgumentsNode([StringNode(u)])));
    assert WellTyped(StringNode(u)) && WellTyped(ArgumentsNode([StringNode(u)]));
    assert WellTyped(call) && WellTyped(StatementsNode([call]));
    var nodes: seq<Node> := [];
    assert [StringNode(u)][1..] == nodes && [call][1..] == nodes;
    assert [Op(Str, [u])] + [] == [Op(Str, [u])];
    assert LowerAll([StringNode(u)], Initial) == Ok(Lowered([Op(Str, [u])], Initial));
    assert CallCode("puts", [], [Op(Str, [u])], map[]) == [Op(Str, [u]), Op(Output, [])];
    assert Lower(call, Initial) == Ok(Lowered([Op(Str, [u]), Op(Output, [])], Initial));
    assert [Op(Str, [u]), Op(Output, [])] + [] == [Op(Str, [u]), Op(Output, [])];
    assert LowerAll([call], Initial) == Ok(Lowered([Op(Str, [u]), Op(Output, [])], Initial));
    assert Lower(PutsString(u), Initial) == Lower(StatementsNode([call]), Initial);
  }

  /** The lines of `puts "<u>"`. */
  lemma PutsStringTexts(u: string)
    ensures WellTyped(PutsString(u)) && Lower(PutsString(u), Initial).Ok?
    ensures Texts(Lower(PutsString(u), Initial).value.code) == [Text(Op(Str, [u])), "PUTS"]
  {
    LowerPutsString(u);
    PutsLine();
    assert Texts([Op(Str, [u]), Op(Output, [])]) == [Text(Op(Str, [u])), Text(Op(Output, []))];
  }

  /** Pass 1 over a string line and `PUTS`: the string line stays exactly when it is no label. */
  lemma StringThenPutsPass1(u: string)
    ensures var str := Text(Op(Str, [u]));
            Pass1([str, "PUTS"]).instructions == if IsLabelLine(str) then ["PUTS"] else [str, "PUTS"]
  {
    var str := Text(Op(Str, [u]));
    PutsLine();
    Pass1Shape([str, "PUTS"]);
    NonLabelsSnoc([str], "PUTS");
    NonLabelsSnoc([], str);
    assert [str] + ["PUTS"] == [str, "PUTS"] && [] + [str] == [str];
  }

  /**
   * `puts "<u>"` with `u` ending in ':' assembles, to the lone byte of
   * `PUTS`: the string's line is taken for a label definition.
   */
  lemma PutsColonString(u: string, s: Slots)
    requires EndsWith(u, ':')
    ensures WellTyped(PutsString(u)) && Lower(PutsString(u), Initial).Ok?
    ensures Assembled(Texts(Lower(PutsString(u), Initial).value.code), s) == Encoding([0x03], s, None)
  {
    PutsStringTexts(u);
    ColonLineThenPuts(u, s);
  }

  lemma ColonLineThenPuts(u: string, s: Slots)
    requires EndsWith(u, ':')
    ensures Assembled([Text(Op(Str, [u])), "PUTS"], s) == Encoding([0x03], s, None)
  {
    var str := Text(Op(Str, [u]));
    ColonLine(u);
    StringThenPutsPass1(u);
    PutsOnlyEncodes(Pass1([str, "PUTS"]).labels, s);
  }

  /** Pass 2 on the lone line `PUTS`. */
  lemma PutsOnlyEncodes(labels: map<string, nat>, s: Slots)
    ensures EncodeLines(["PUTS"], labels, s) == Encoding([0x03], s, None)
  {
    PutsLine();
    var none: seq<string> := [];
    assert ["PUTS"][..0] == none;
  }

  /** The `PUTS` line: no label, no operand, byte 0x03. */
  lemma PutsLine()
    ensures Text(Op(Output, [])) == "PUTS" && !IsLabelLine("PUTS")
    ensures Instr("PUTS") == "PUTS" && Args("PUTS") == [] && OpcodeOf("PUTS") == Some(0x03)
  {
    assert Spelling(Output) == "PUTS";
    assert [Spelling(Output)] + [] == ["PUTS"];
    BareWords("PUTS");
    OpcodeTable(Output);
  }

  /** Running that lone `PUTS` byte prints `undefined`. */
  lemma PutsAlonePrintsUndefined()
    ensures Execute([0x03], Machine(0, [], [], Running)).output == [None]
  {
    var m := Machine(0, [], [], Running);
    assert Step([0x03], m) == Machine(1, [], [None], Running);
  }

  /**
   * `puts "<u>"` with any other one-word string is rejected, because
   * `PUSH_STR` has no byte.
   */
  lemma PutsPlainString(u: string, s: Slots)
    requires u != [] && ' ' !in u && !EndsWith(u, ':')
    ensures WellTyped(PutsString(u)) && Lower(PutsString(u), Initial).Ok?
    ensures Assembled(Texts(Lower(PutsString(u), Initial).value.code), s).failure
            == Some(UnknownInstruction("PUSH_STR"))
  {
    PutsStringTexts(u);
    PlainLineThenPuts(u, s);
  }

  lemma PlainLineThenPuts(u: string, s: Slots)
    requires u != [] && ' ' !in u && !EndsWith(u, ':')
    ensures Assembled([Text(Op(Str, [u])), "PUTS"], s).failure == Some(UnknownInstruction("PUSH_STR"))
  {
    var str := Text(Op(Str, [u]));
    PlainStringLine(u);
    StringThenPutsPass1(u);
    var lines := [str, "PUTS"];
    assert Pass1(lines).instructions == lines;
    NoStringOpcode();
    assert "PUSH_STR" !in OPCODES;
    FirstLineUnknown(lines, Pass1(lines).labels, s);
  }

  /** A one-word string that does not end in ':' gives a `PUSH_STR` line that is no label. */
  lemma PlainStringLine(u: string)
    requires u != [] && ' ' !in u && !EndsWith(u, ':')
    ensures Instr(Text(Op(Str, [u]))) == "PUSH_STR" && !IsLabelLine(Text(Op(Str, [u])))
  {
    var str := Text(Op(Str, [u]));
    assert Spelling(Str) == "PUSH_STR";
    SplitWithOperand(Str, u);
    TextWithOperand(Str, u);
    assert str[|str| - 1] == u[|u| - 1];
  }

  /** Pass 2 fails on a first line whose mnemonic has no byte, naming that mnemonic. */
  lemma FirstLineUnknown(instructions: seq<string>, labels: map<string, nat>, s: Slots)
    requires instructions != [] && Instr(instructions[0]) !in OPCODES
    ensures EncodeLines(instructions, labels, s).failure == Some(UnknownInstruction(Instr(instructions[0])))
  {
    ThrowsAtFirstUnknown(instructions, 0, labels, s);
  }

  /** An array literal's code ends with `ARRAY_DEFINITION <number of elements>`. */
  lemma ArrayLiteralEnds(elements: seq<Node>, ctx: Context)
    requires WellTyped(ArrayNode(elements)) && Lower(ArrayNode(elements), ctx).Ok?
    ensures var code := Lower(ArrayNode(elements), ctx).value.code;
            |code| > 0 && code[|code| - 1] == Op(ArrayDefinition, [Dec(|elements|)])
  {
  }

  /** A decimal text has no space and ends in a digit. */
  lemma DecShape(n: nat)
    ensures ' ' !in Dec(n) && IsDigit(Dec(n)[|Dec(n)| - 1])
  {
    forall i | 0 <= i < |Dec(n)| ensures Dec(n)[i] != ' ' { assert IsDigit(Dec(n)[i]); }
  }

  /** The line `undefined <n>`: its fields, its size, and that it is no label. */
  lemma ArrayDefinitionLine(n: nat)
    ensures var line := Text(Op(ArrayDefinition, [Dec(n)]));
            && line == "undefined " + Dec(n) && Instr(line) == "undefined" && Args(line) == [Dec(n)]
            && LineSize(line) == 3 && !IsLabelLine(line)
  {
    var line := Text(Op(ArrayDefinition, [Dec(n)]));
    assert Spelling(ArrayDefinition) == "undefined";
    TextWithOperand(ArrayDefinition, Dec(n));
    DecShape(n);
    SplitWithOperand(ArrayDefinition, Dec(n));
    assert line[|line| - 1] == Dec(n)[|Dec(n)| - 1];
  }

  /**
   * `ARRAY_DEFINITION` is missing from the table and is concatenated with the
   * element count, so an array literal's last line is `undefined <count>`:
   * pass 1 gives it three bytes and pass 2 rejects it as `undefined`.
   */
  lemma ArrayDefinitionRejected(n: nat, s: Slots)
    ensures var line := Text(Op(ArrayDefinition, [Dec(n)]));
            && line == "undefined " + Dec(n) && LineSize(line) == 3
            && Assembled([line], s).failure == Some(UnknownInstruction("undefined"))
  {
    var line := Text(Op(ArrayDefinition, [Dec(n)]));
    ArrayDefinitionLine(n);
    OpcodeTable(ArrayDefinition);
    OneLineRejected(line, s);
  }
}
