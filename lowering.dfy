/**
 * The lowerer of src/index.ts: `generateAssembly` with its helpers
 * `getNewLabel`, `getNewFuncLabel` and the `functionTable`. The source keeps
 * the label counter and the function table in module-level variables; here
 * they travel in an explicit `Context` that each lowering step takes and
 * returns, in the order the source updates them.
 */
module Lowering {
  import opened Common
  import opened Strings
  import opened Ast
  import opened Mnemonics

  /** One line of the textual instruction form: an instruction or a label definition. */
  datatype Line = Op(mnemonic: Mnemonic, args: seq<string>) | Mark(labelName: string)

  /** The string the source builds for a line (`MNEMONIC arg ...` or `label:`). */
  function Text(line: Line): string {
    match line
    case Op(m, args) => Join([Spelling(m)] + args)
    case Mark(l) => l + ":"
  }

  function Texts(code: seq<Line>): (r: seq<string>)
    ensures |r| == |code|
    ensures forall i :: 0 <= i < |code| ==> r[i] == Text(code[i])
  {
    seq(|code|, i requires 0 <= i < |code| => Text(code[i]))
  }

  /** The label counter `labelId` and the `functionTable` (name to parameter names). */
  datatype Context = Context(labelId: nat, functionTable: map<string, seq<string>>)

  const Initial: Context := Context(0, map[])

  /** `getNewLabel()` while the counter stands at `k`; the counter then moves to `k + 1`. */
  function NewLabel(k: nat): string {
    "LABEL_" + Dec(k)
  }

  /** `getNewFuncLabel(name)`. */
  function FuncLabel(name: string): string {
    "LABEL_" + name
  }

  datatype Lowered = Lowered(code: seq<Line>, ctx: Context)

  /**
   * `Unknown node type:<tag>`, or the TypeError JavaScript throws when the
   * lowerer reads through a field the serializer left out (`field` of a `tag` node).
   */
  datatype LowerError = UnknownNodeKind(tag: string) | MissingField(tag: string, field: string)

  /** The cases of the operator `switch` that keep the receiver's code. */
  function Operator(name: string): Option<Mnemonic> {
    if name == "+" then Some(Addition)
    else if name == "-" then Some(Subtraction)
    else if name == "*" then Some(Multiplication)
    else if name == "/" then Some(Division)
    else if name == "%" then Some(Remainder)
    else if name == "**" then Some(Power)
    else if name == ">" then Some(Greater)
    else if name == "<" then Some(Less)
    else if name == ">=" then Some(GreaterEqual)
    else if name == "<=" then Some(LessEqual)
    else if name == "==" then Some(Equal)
    else if name == "!=" then Some(NotEqual)
    else if name == "[]=" then Some(ArrayAssignment)
    else if name == "[]" then Some(ArrayReferrence)
    else None
  }

  /** The cases of the `switch` that emit only the arguments' code. */
  function ReceiverlessBuiltin(name: string): Option<Mnemonic> {
    if name == "puts" || name == "print" then Some(Output)
    else if name == "shuffle" then Some(Shuffle)
    else None
  }

  /** What a call emits once its receiver and arguments are lowered. */
  function CallCode(name: string, receiverCode: seq<Line>, argsCode: seq<Line>,
                    table: map<string, seq<string>>): seq<Line>
  {
    if name in table then
      receiverCode + argsCode + [Op(FunctionCall, [name, Dec(|table[name]|)])]
    else match ReceiverlessBuiltin(name)
      case Some(m) => argsCode + [Op(m, [])]
      case None =>
        match Operator(name)
        case Some(m) => receiverCode + argsCode + [Op(m, [])]
        case None => receiverCode + argsCode + [Op(FunctionCall, [name])]
  }

  /** An integer literal; 1 and 2 use the fast-path mnemonics. */
  function IntegerCode(v: int): seq<Line> {
    if v == 1 then [Op(Number1, [])]
    else if v == 2 then [Op(Number2, [])]
    else [Op(Number, [IntText(v)])]
  }

  /**
   * The counting loop `for i in left..right`: after the bounds' code `s` and `e` and
   * the body `b`, using the labels numbered `k` (loop head) and `k + 1` (exit).
   */
  function ForCode(i: string, s: seq<Line>, e: seq<Line>, b: seq<Line>, k: nat): seq<Line> {
    s + [Op(Assignment, [i]), Mark(NewLabel(k)), Op(Reference, [i])]
    + e + [Op(LessEqual, []), Op(JumpIfFalse, [NewLabel(k + 1)])]
    + b + [Op(Reference, [i]), Op(Number, ["1"]), Op(Addition, []),
           Op(Assignment, [i]), Op(Jump, [NewLabel(k)]), Mark(NewLabel(k + 1))]
  }

  /**
   * `generateAssembly(node)` run with the global state `ctx`: the code, and the
   * counter and table as the source leaves them, threaded through the
   * children in the order the source visits them. The counter never goes
   * back and the table never loses a name.
   */
  function Lower(n: Node, ctx: Context): (r: Result<Lowered, LowerError>)
    requires WellTyped(n)
    ensures r.Ok? ==> ctx.labelId <= r.value.ctx.labelId
    ensures r.Ok? ==> ctx.functionTable.Keys <= r.value.ctx.functionTable.Keys
    decreases n, 1
  {
    match n
    case ProgramNode(s) => Lower(s, ctx)
    case StatementsNode(body) => LowerAll(body, ctx)
    case IntegerNode(v) => Ok(Lowered(IntegerCode(v), ctx))
    case CallNode(_, _, _) => LowerCall(n, ctx)
    case ArgumentsNode(list) => LowerAll(list, ctx)
    case LocalVariableWriteNode(name, written) =>
      var v :- Lower(written, ctx);
      Ok(Lowered(v.code + [Op(Assignment, [name])], v.ctx))
    case LocalVariableReadNode(name) => Ok(Lowered([Op(Reference, [name])], ctx))
    case IfNode(condition, statements) =>
      var c :- Lower(condition, ctx);
      var b :- Lower(statements, c.ctx);
      var endLabel := NewLabel(b.ctx.labelId);
      Ok(Lowered(c.code + [Op(JumpIfFalse, [endLabel])] + b.code + [Mark(endLabel)],
                 b.ctx.(labelId := b.ctx.labelId + 1)))
    case ForNode(_, _, _) => LowerFor(n, ctx)
    case RangeNode(_, _) => Ok(Lowered([], ctx))
    case WhileNode(_, _) => LowerWhile(n, ctx)
    case StringNode(u) => Ok(Lowered([Op(Str, [u])], ctx))
    case DefNode(name, parameters, defBody) =>
      if parameters.None? then Err(MissingField("def_node", "parameters"))
      else
        var b :- Lower(defBody, ctx.(functionTable := ctx.functionTable[name := parameters.value]));
        Ok(Lowered([Mark(FuncLabel(name))] + b.code, b.ctx))
    case ReturnNode(arguments) =>
      if arguments.None? then Err(MissingField("return_node", "arguments"))
      else
        var a :- Lower(arguments.value, ctx);
        Ok(Lowered(a.code + [Op(Return, [])], a.ctx))
    case ArrayNode(elements) =>
      var e :- LowerAll(elements, ctx);
      Ok(Lowered(e.code + [Op(ArrayDefinition, [Dec(|elements|)])], e.ctx))
    case _ => Err(UnknownNodeKind(Tag(n)))
  }

  /** The `call_node` case: `exit`, else the receiver, the arguments, then the call itself. */
  function LowerCall(n: Node, ctx: Context): (r: Result<Lowered, LowerError>)
    requires n.CallNode? && WellTyped(n)
    ensures r.Ok? ==> ctx.labelId <= r.value.ctx.labelId
    ensures r.Ok? ==> ctx.functionTable.Keys <= r.value.ctx.functionTable.Keys
    decreases n, 0
  {
    if n.name == "exit" then Ok(Lowered([Op(End, [])], ctx))
    else
      var r :- match n.receiver
               case Some(x) => Lower(x, ctx)
               case None => Ok(Lowered([], ctx));
      if n.arguments.None? then Err(MissingField("call_node", "arguments"))
      else
        assert WellTyped(n.arguments.value);
        var a :- LowerAll(n.arguments.value.argumentList, r.ctx);
        Ok(Lowered(CallCode(n.name, r.code, a.code, a.ctx.functionTable), a.ctx))
  }

  /** The `for_node` case: the bounds, the body, then the two labels. */
  function LowerFor(n: Node, ctx: Context): (r: Result<Lowered, LowerError>)
    requires n.ForNode? && WellTyped(n)
    ensures r.Ok? ==> ctx.labelId <= r.value.ctx.labelId
    ensures r.Ok? ==> ctx.functionTable.Keys <= r.value.ctx.functionTable.Keys
    decreases n, 0
  {
    assert WellTyped(n.collection);
    var s :- Lower(n.collection.left, ctx);
    var e :- Lower(n.collection.right, s.ctx);
    var b :- Lower(n.statements, e.ctx);
    Ok(Lowered(ForCode(n.index.name, s.code, e.code, b.code, b.ctx.labelId),
               b.ctx.(labelId := b.ctx.labelId + 2)))
  }

  /** The `while_node` case: the two labels first, then the condition and the body. */
  function LowerWhile(n: Node, ctx: Context): (r: Result<Lowered, LowerError>)
    requires n.WhileNode? && WellTyped(n)
    ensures r.Ok? ==> ctx.labelId <= r.value.ctx.labelId
    ensures r.Ok? ==> ctx.functionTable.Keys <= r.value.ctx.functionTable.Keys
    decreases n, 0
  {
    var k := ctx.labelId;
    var startLabel, endLabel := NewLabel(k), NewLabel(k + 1);
    var c :- Lower(n.condition, ctx.(labelId := k + 2));
    var b :- Lower(n.statements, c.ctx);
    Ok(Lowered([Mark(startLabel)] + c.code + [Op(JumpIfFalse, [endLabel])]
               + b.code + [Op(Jump, [startLabel]), Mark(endLabel)], b.ctx))
  }

  /** `nodes.flatMap(generateAssembly)`: each node in order, threading the state. */
  function LowerAll(ns: seq<Node>, ctx: Context): (r: Result<Lowered, LowerError>)
    requires forall i :: 0 <= i < |ns| ==> WellTyped(ns[i])
    ensures r.Ok? ==> ctx.labelId <= r.value.ctx.labelId
    ensures r.Ok? ==> ctx.functionTable.Keys <= r.value.ctx.functionTable.Keys
    decreases ns, 0
  {
    if ns == [] then Ok(Lowered([], ctx))
    else
      var h :- Lower(ns[0], ctx);
      var t :- LowerAll(ns[1..], h.ctx);
      Ok(Lowered(h.code + t.code, t.ctx))
  }
}
