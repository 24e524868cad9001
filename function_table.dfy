/**
 * The lowerer's `functionTable`: what `def` registers, how calls read it, and
 * the order of statements it relies on.
 */
module FunctionTable {
  import opened Common
  import opened Strings
  import opened Ast
  import opened Mnemonics
  import opened Lowering

  /** No `def` anywhere in the tree. */
  predicate NoDefs(n: Node) {
    match n
    case ProgramNode(s) => NoDefs(s)
    case StatementsNode(body) => forall i :: 0 <= i < |body| ==> NoDefs(body[i])
    case CallNode(r, _, a) =>
      (match r case Some(x) => NoDefs(x) case None => true) && (match a case Some(x) => NoDefs(x) case None => true)
    case ArgumentsNode(list) => forall i :: 0 <= i < |list| ==> NoDefs(list[i])
    case LocalVariableWriteNode(_, v) => NoDefs(v)
    case IfNode(p, s) => NoDefs(p) && NoDefs(s)
    case ForNode(_, c, s) => NoDefs(c) && NoDefs(s)
    case RangeNode(l, r) => NoDefs(l) && NoDefs(r)
    case WhileNode(p, s) => NoDefs(p) && NoDefs(s)
    case DefNode(_, _, _) => false
    case ReturnNode(a) => (match a case Some(x) => NoDefs(x) case None => true)
    case ArrayNode(es) => forall i :: 0 <= i < |es| ==> NoDefs(es[i])
    case _ => true
  }

  /**
   * Lowering never forgets a function: the table's names only grow, and a
   * subtree without `def` leaves the table exactly as it found it.
   */
  lemma {:induction false} TableGrowth(n: Node, ctx: Context)
    requires WellTyped(n) && Lower(n, ctx).Ok?
    ensures ctx.functionTable.Keys <= Lower(n, ctx).value.ctx.functionTable.Keys
    ensures NoDefs(n) ==> Lower(n, ctx).value.ctx.functionTable == ctx.functionTable
    decreases n, 1
  {
    match n
    case ProgramNode(s) => TableGrowth(s, ctx);
    case StatementsNode(body) => TableGrowthAll(body, ctx);
    case ArgumentsNode(list) => TableGrowthAll(list, ctx);
    case CallNode(_, _, _) => TableGrowthCall(n, ctx);
    case LocalVariableWriteNode(_, written) => TableGrowth(written, ctx);
    case IfNode(condition, statements) =>
      TableGrowth(condition, ctx);
      TableGrowth(statements, Lower(condition, ctx).value.ctx);
    case ForNode(_, _, _) => TableGrowthFor(n, ctx);
    case WhileNode(condition, statements) =>
      var ctx1 := ctx.(labelId := ctx.labelId + 2);
      TableGrowth(condition, ctx1);
      TableGrowth(statements, Lower(condition, ctx1).value.ctx);
    case DefNode(name, parameters, defBody) =>
      TableGrowth(defBody, ctx.(functionTable := ctx.functionTable[name := parameters.value]));
    case ReturnNode(arguments) => TableGrowth(arguments.value, ctx);
    case ArrayNode(elements) => TableGrowthAll(elements, ctx);
    case IntegerNode(_) =>
    case LocalVariableReadNode(_) =>
    case StringNode(_) =>
    case RangeNode(_, _) =>
  }

  lemma {:induction false} TableGrowthCall(n: Node, ctx: Context)
    requires n.CallNode? && WellTyped(n) && Lower(n, ctx).Ok?
    ensures ctx.functionTable.Keys <= Lower(n, ctx).value.ctx.functionTable.Keys
    ensures NoDefs(n) ==> Lower(n, ctx).value.ctx.functionTable == ctx.functionTable
    decreases n, 0
  {
    var CallNode(receiver, name, arguments) := n;
    if name != "exit" {
      var rc := if receiver.Some? then Lower(receiver.value, ctx).value else Lowered([], ctx);
      if receiver.Some? {
        TableGrowth(receiver.value, ctx);
        assert rc.ctx == Lower(receiver.value, ctx).value.ctx;
      }
      var args := arguments.value;
      assert WellTyped(args);
      TableGrowthAll(args.argumentList, rc.ctx);
      assert Lower(n, ctx).value.ctx == LowerAll(args.argumentList, rc.ctx).value.ctx;
      if NoDefs(n) {
        assert NoDefs(args);
        assert forall i :: 0 <= i < |args.argumentList| ==> NoDefs(args.argumentList[i]);
      }
    }
  }

  lemma {:induction false} TableGrowthFor(n: Node, ctx: Context)
    requires n.ForNode? && WellTyped(n) && Lower(n, ctx).Ok?
    ensures ctx.functionTable.Keys <= Lower(n, ctx).value.ctx.functionTable.Keys
    ensures NoDefs(n) ==> Lower(n, ctx).value.ctx.functionTable == ctx.functionTable
    decreases n, 0
  {
    var ForNode(_, collection, statements) := n;
    assert WellTyped(collection);
    assert collection == RangeNode(collection.left, collection.right);
    assert NoDefs(n) ==> NoDefs(collection);
    TableGrowth(collection.left, ctx);
    var s := Lower(collection.left, ctx).value;
    TableGrowth(collection.right, s.ctx);
    TableGrowth(statements, Lower(collection.right, s.ctx).value.ctx);
  }

  lemma {:induction false} TableGrowthAll(ns: seq<Node>, ctx: Context)
    requires forall i :: 0 <= i < |ns| ==> WellTyped(ns[i])
    requires LowerAll(ns, ctx).Ok?
    ensures ctx.functionTable.Keys <= LowerAll(ns, ctx).value.ctx.functionTable.Keys
    ensures (forall i :: 0 <= i < |ns| ==> NoDefs(ns[i])) ==>
              LowerAll(ns, ctx).value.ctx.functionTable == ctx.functionTable
    decreases ns, 0
  {
    if ns != [] {
      TableGrowth(ns[0], ctx);
      TableGrowthAll(ns[1..], Lower(ns[0], ctx).value.ctx);
    }
  }

  /** `flatMap` over a concatenation: the first part's code, then the second's, the state threaded through. */
  lemma {:induction false} LowerAllAppend(xs: seq<Node>, ys: seq<Node>, ctx: Context)
    requires forall i :: 0 <= i < |xs| ==> WellTyped(xs[i])
    requires forall i :: 0 <= i < |ys| ==> WellTyped(ys[i])
    ensures LowerAll(xs + ys, ctx).Ok? <==>
              LowerAll(xs, ctx).Ok? && LowerAll(ys, LowerAll(xs, ctx).value.ctx).Ok?
    ensures LowerAll(xs + ys, ctx).Ok? ==>
              var a := LowerAll(xs, ctx).value;
              var b := LowerAll(ys, a.ctx).value;
              LowerAll(xs + ys, ctx).value == Lowered(a.code + b.code, b.ctx)
    decreases xs
  {
    if xs == [] {
      assert xs + ys == ys;
    } else {
      assert (xs + ys)[0] == xs[0];
      assert (xs + ys)[1..] == xs[1..] + ys;
      if Lower(xs[0], ctx).Ok? {
        var h := Lower(xs[0], ctx).value;
        LowerAllAppend(xs[1..], ys, h.ctx);
        if LowerAll(xs + ys, ctx).Ok? {
          var a := LowerAll(xs[1..], h.ctx).value;
          var b := LowerAll(ys, a.ctx).value;
          assert h.code + (a.code + b.code) == (h.code + a.code) + b.code;
        }
      }
    }
  }

  /** Lowering a two-statement sequence: the first statement, then the second in the state it leaves. */
  lemma LowerPair(x: Node, y: Node, ctx: Context)
    requires WellTyped(x) && WellTyped(y) && LowerAll([x, y], ctx).Ok?
    ensures Lower(x, ctx).Ok? && Lower(y, Lower(x, ctx).value.ctx).Ok?
    ensures LowerAll([x, y], ctx).value.code
            == Lower(x, ctx).value.code + Lower(y, Lower(x, ctx).value.ctx).value.code
  {
    assert [x, y][1..] == [y];
    assert [y][1..] == [];
    var h := Lower(x, ctx).value;
    var t := Lower(y, h.ctx).value;
    assert LowerAll([y], h.ctx).value.code == t.code + [];
  }

  /** A call whose name is neither a table entry, a builtin, an operator nor `exit`. */
  predicate Unknown(name: string, table: map<string, seq<string>>) {
    name != "exit" && name !in table && ReceiverlessBuiltin(name).None? && Operator(name).None?
  }

  /**
   * The rule behind the next three lemmas: a call (other than `exit`) to a
   * name in the table becomes `CALL name <number of parameters>`, counted in
   * the table as it stands once the receiver and arguments are lowered; when
   * those hold no `def`, that is the entry the call started with.
   */
  lemma KnownCallCarriesArity(n: Node, ctx: Context)
    requires n.CallNode? && n.name != "exit" && n.name in ctx.functionTable
    requires WellTyped(n) && Lower(n, ctx).Ok?
    ensures var r := Lower(n, ctx).value;
            && n.name in r.ctx.functionTable && |r.code| > 0
            && r.code[|r.code| - 1] == Op(FunctionCall, [n.name, Dec(|r.ctx.functionTable[n.name]|)])
            && (NoDefs(n) ==> r.ctx.functionTable[n.name] == ctx.functionTable[n.name])
  {
    TableGrowth(n, ctx);
  }

  /**
   * A `def` registers its parameter list before anything after it is lowered:
   * a later call of that name, even one spelled like a builtin, becomes
   * `CALL name <number of parameters>`.
   */
  lemma CallAfterDef(name: string, requireds: seq<string>, defBody: Node, args: seq<Node>, ctx: Context)
    requires name != "exit"
    requires WellTyped(defBody) && NoDefs(defBody)
    requires forall i :: 0 <= i < |args| ==> WellTyped(args[i]) && NoDefs(args[i])
    requires LowerAll([DefNode(name, Some(requireds), defBody), CallNode(None, name, Some(ArgumentsNode(args)))], ctx).Ok?
    ensures var code := LowerAll([DefNode(name, Some(requireds), defBody),
                                  CallNode(None, name, Some(ArgumentsNode(args)))], ctx).value.code;
            |code| > 0 && code[0] == Mark(FuncLabel(name))
            && code[|code| - 1] == Op(FunctionCall, [name, Dec(|requireds|)])
  {
    var def, call := DefNode(name, Some(requireds), defBody), CallNode(None, name, Some(ArgumentsNode(args)));
    LowerPair(def, call, ctx);
    var ctx1 := ctx.(functionTable := ctx.functionTable[name := requireds]);
    var d := Lower(def, ctx).value;
    TableGrowth(defBody, ctx1);
    assert d.ctx.functionTable == ctx1.functionTable;
    var a := LowerAll(args, d.ctx).value;
    TableGrowthAll(args, d.ctx);
    var c := Lower(call, d.ctx).value;
    assert c.code == a.code + [Op(FunctionCall, [name, Dec(|requireds|)])];
  }

  /**
   * The table is filled in statement order: a call that precedes its `def`
   * (and is not a builtin or operator) becomes a bare `CALL name` without the
   * argument count, whatever the `def` later registers.
   */
  lemma CallBeforeDef(name: string, requireds: seq<string>, defBody: Node, args: seq<Node>, ctx: Context)
    requires Unknown(name, ctx.functionTable)
    requires WellTyped(defBody)
    requires forall i :: 0 <= i < |args| ==> WellTyped(args[i]) && NoDefs(args[i])
    requires LowerAll([CallNode(None, name, Some(ArgumentsNode(args))), DefNode(name, Some(requireds), defBody)], ctx).Ok?
    ensures LowerAll(args, ctx).Ok?
    ensures var code := LowerAll([CallNode(None, name, Some(ArgumentsNode(args))),
                                  DefNode(name, Some(requireds), defBody)], ctx).value.code;
            var a := LowerAll(args, ctx).value;
            |code| >= |a.code| + 2
            && code[..|a.code| + 2] == a.code + [Op(FunctionCall, [name]), Mark(FuncLabel(name))]
  {
    var call, def := CallNode(None, name, Some(ArgumentsNode(args))), DefNode(name, Some(requireds), defBody);
    LowerPair(call, def, ctx);
    var a := LowerAll(args, ctx).value;
    TableGrowthAll(args, ctx);
    var c := Lower(call, ctx).value;
    assert c.code == a.code + [Op(FunctionCall, [name])];
    var d := Lower(def, c.ctx).value;
    var code := c.code + d.code;
    assert d.code[0] == Mark(FuncLabel(name));
    assert code[..|a.code| + 2] == c.code + [d.code[0]];
  }

  /**
   * A function's own body already sees its table entry, so a recursive call
   * carries the argument count.
   */
  lemma RecursiveCallHasArity(name: string, requireds: seq<string>, args: seq<Node>, ctx: Context)
    requires name != "exit"
    requires forall i :: 0 <= i < |args| ==> WellTyped(args[i]) && NoDefs(args[i])
    requires WellTyped(CallNode(None, name, Some(ArgumentsNode(args))))
    requires Lower(DefNode(name, Some(requireds), CallNode(None, name, Some(ArgumentsNode(args)))), ctx).Ok?
    ensures var code := Lower(DefNode(name, Some(requireds), CallNode(None, name, Some(ArgumentsNode(args)))), ctx).value.code;
            |code| >= 2 && code[0] == Mark(FuncLabel(name))
            && code[|code| - 1] == Op(FunctionCall, [name, Dec(|requireds|)])
  {
    var ctx1 := ctx.(functionTable := ctx.functionTable[name := requireds]);
    var call := CallNode(None, name, Some(ArgumentsNode(args)));
    assert Lower(call, ctx1).Ok?;
    assert Lower(call, ctx1) == LowerCall(call, ctx1);
    TableGrowthAll(args, ctx1);
    var c := Lower(call, ctx1).value;
    assert c.code == LowerAll(args, ctx1).value.code + [Op(FunctionCall, [name, Dec(|requireds|)])];
  }
}
