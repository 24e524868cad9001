/** What the lowerer promises: labels, jump targets, the function table and the code layouts. */
module LoweringFacts {
  import opened Common
  import opened Strings
  import opened Ast
  import opened Mnemonics
  import opened Lowering

  /** `getNewLabel` never returns the same label for two counter values. */
  lemma NewLabelsDistinct(a: nat, b: nat)
    requires NewLabel(a) == NewLabel(b)
    ensures a == b
  {
    assert Dec(a) == NewLabel(a)[6..];
    assert Dec(b) == NewLabel(b)[6..];
    DecInjective(a, b);
  }

  /** A function label coincides with a synthetic label only for an all-digit function name. */
  lemma FuncLabelMeetsNewLabel(name: string, k: nat)
    ensures FuncLabel(name) == NewLabel(k) <==> name == Dec(k)
    ensures FuncLabel(name) == NewLabel(k) ==> AllDigits(name)
  {
    if FuncLabel(name) == NewLabel(k) {
      assert name == FuncLabel(name)[6..];
      assert Dec(k) == NewLabel(k)[6..];
    }
  }

  /** No `def` anywhere in the tree has an all-digit name (Ruby method names never do). */
  predicate NoNumericDefs(n: Node) {
    match n
    case ProgramNode(s) => NoNumericDefs(s)
    case StatementsNode(body) => forall i :: 0 <= i < |body| ==> NoNumericDefs(body[i])
    case CallNode(r, _, a) =>
      && (match r case Some(x) => NoNumericDefs(x) case None => true)
      && (match a case Some(x) => NoNumericDefs(x) case None => true)
    case ArgumentsNode(list) => forall i :: 0 <= i < |list| ==> NoNumericDefs(list[i])
    case LocalVariableWriteNode(_, v) => NoNumericDefs(v)
    case IfNode(p, s) => NoNumericDefs(p) && NoNumericDefs(s)
    case ForNode(_, c, s) => NoNumericDefs(c) && NoNumericDefs(s)
    case RangeNode(l, r) => NoNumericDefs(l) && NoNumericDefs(r)
    case WhileNode(p, s) => NoNumericDefs(p) && NoNumericDefs(s)
    case DefNode(name, _, b) => !AllDigits(name) && NoNumericDefs(b)
    case ReturnNode(a) => (match a case Some(x) => NoNumericDefs(x) case None => true)
    case ArrayNode(es) => forall i :: 0 <= i < |es| ==> NoNumericDefs(es[i])
    case _ => true
  }

  predicate IsJump(line: Line) {
    line.Op? && (line.mnemonic == Jump || line.mnemonic == JumpIfFalse)
  }

  /** Each synthetic label is defined at most once, and only those numbered in `[lo, hi)` at all. */
  ghost predicate AtMostOnce(code: seq<Line>, lo: nat, hi: nat) {
    forall k: nat :: Count(code, k) <= if lo <= k < hi then 1 else 0
  }

  /** Every jump in `code` names one synthetic label, and `code` defines that label. */
  ghost predicate JumpsResolved(code: seq<Line>) {
    forall line :: line in code && IsJump(line) ==>
      exists k: nat :: line.args == [NewLabel(k)] && Mark(NewLabel(k)) in code
  }

  ghost predicate Disciplined(code: seq<Line>, lo: nat, hi: nat) {
    AtMostOnce(code, lo, hi) && JumpsResolved(code)
  }

  /** A line sequence without label definitions and without jumps. */
  predicate Plain(code: seq<Line>) {
    forall line :: line in code ==> line.Op? && !IsJump(line)
  }

  lemma PlainDisciplined(code: seq<Line>, lo: nat, hi: nat)
    requires Plain(code)
    ensures Disciplined(code, lo, hi)
  {
    forall k: nat ensures multiset(code)[Mark(NewLabel(k))] == 0 {
      assert Mark(NewLabel(k)) !in code;
    }
  }

  lemma Widen(code: seq<Line>, lo: nat, hi: nat, lo': nat, hi': nat)
    requires Disciplined(code, lo, hi) && lo' <= lo && hi <= hi'
    ensures Disciplined(code, lo', hi')
  {
  }

  lemma JumpsAppend(a: seq<Line>, b: seq<Line>)
    requires JumpsResolved(a) && JumpsResolved(b)
    ensures JumpsResolved(a + b)
  {
    forall line | line in a + b && IsJump(line)
      ensures exists k :: line.args == [NewLabel(k)] && Mark(NewLabel(k)) in a + b
    {
      if line in a {
        var k :| line.args == [NewLabel(k)] && Mark(NewLabel(k)) in a;
        assert Mark(NewLabel(k)) in a + b;
      } else {
        var k :| line.args == [NewLabel(k)] && Mark(NewLabel(k)) in b;
        assert Mark(NewLabel(k)) in a + b;
      }
    }
  }

  /** Concatenating code that allocated consecutive label ranges. */
  lemma Concat(a: seq<Line>, b: seq<Line>, lo: nat, mid: nat, hi: nat)
    requires lo <= mid <= hi && Disciplined(a, lo, mid) && Disciplined(b, mid, hi)
    ensures Disciplined(a + b, lo, hi)
  {
    forall k: nat ensures Count(a + b, k) <= if lo <= k < hi then 1 else 0 {
      CountAppend(a, b, k);
    }
    JumpsAppend(a, b);
  }

  lemma MarkCount(k: nat, j: nat)
    ensures multiset([Mark(NewLabel(j))])[Mark(NewLabel(k))] == if k == j then 1 else 0
  {
    if k != j && NewLabel(k) == NewLabel(j) {
      NewLabelsDistinct(k, j);
    }
  }

  /** How often `code` defines the synthetic label numbered `k`. */
  ghost function Count(code: seq<Line>, k: nat): nat {
    multiset(code)[Mark(NewLabel(k))]
  }

  lemma CountAppend(a: seq<Line>, b: seq<Line>, k: nat)
    ensures Count(a + b, k) == Count(a, k) + Count(b, k)
  {
    assert multiset(a + b) == multiset(a) + multiset(b);
  }

  lemma CountPlain(a: seq<Line>, k: nat)
    requires forall line :: line in a ==> line.Op?
    ensures Count(a, k) == 0
  {
    assert Mark(NewLabel(k)) !in a;
  }

  /** Every jump in `a` targets a synthetic label that `code` defines. */
  ghost predicate ResolvedIn(a: seq<Line>, code: seq<Line>) {
    forall line :: line in a && IsJump(line) ==>
      exists k: nat :: line.args == [NewLabel(k)] && Mark(NewLabel(k)) in code
  }

  lemma ResolvedAppend(a: seq<Line>, b: seq<Line>, code: seq<Line>)
    requires ResolvedIn(a, code) && ResolvedIn(b, code)
    ensures ResolvedIn(a + b, code)
  {
  }

  lemma ResolvedWithin(a: seq<Line>, x: seq<Line>, y: seq<Line>)
    requires JumpsResolved(a)
    ensures ResolvedIn(a, x + a + y)
  {
    forall line | line in a && IsJump(line)
      ensures exists k: nat :: line.args == [NewLabel(k)] && Mark(NewLabel(k)) in x + a + y
    {
      var k: nat :| line.args == [NewLabel(k)] && Mark(NewLabel(k)) in a;
      assert Mark(NewLabel(k)) in x + a + y;
    }
  }

  lemma ResolvedSub(a: seq<Line>, code: seq<Line>)
    requires JumpsResolved(a) && forall line :: line in a ==> line in code
    ensures ResolvedIn(a, code)
  {
    forall line | line in a && IsJump(line)
      ensures exists k: nat :: line.args == [NewLabel(k)] && Mark(NewLabel(k)) in code
    {
      var k: nat :| line.args == [NewLabel(k)] && Mark(NewLabel(k)) in a;
    }
  }

  lemma ResolvedJump(m: Mnemonic, k: nat, code: seq<Line>)
    requires Mark(NewLabel(k)) in code
    ensures ResolvedIn([Op(m, [NewLabel(k)])], code)
  {
  }

  lemma ResolvedPlain(a: seq<Line>, code: seq<Line>)
    requires forall line :: line in a ==> !IsJump(line)
    ensures ResolvedIn(a, code)
  {
  }

  /** The `if` layout: condition, `JIF end`, body, `end:`. */
  lemma IfShape(c: seq<Line>, b: seq<Line>, lo: nat, m1: nat, m2: nat)
    requires lo <= m1 <= m2 && Disciplined(c, lo, m1) && Disciplined(b, m1, m2)
    ensures Disciplined(c + [Op(JumpIfFalse, [NewLabel(m2)])] + b + [Mark(NewLabel(m2))], lo, m2 + 1)
  {
    var jif, end := [Op(JumpIfFalse, [NewLabel(m2)])], [Mark(NewLabel(m2))];
    var code := c + jif + b + end;
    forall k: nat ensures Count(code, k) <= if lo <= k < m2 + 1 then 1 else 0 {
      CountAppend(c + jif + b, end, k);
      CountAppend(c + jif, b, k);
      CountAppend(c, jif, k);
      CountPlain(jif, k);
      MarkCount(k, m2);
    }
    assert Mark(NewLabel(m2)) in code by { assert code[|code| - 1] == Mark(NewLabel(m2)); }
    ResolvedWithin(c, [], jif + b + end);
    assert [] + c + (jif + b + end) == code;
    ResolvedJump(JumpIfFalse, m2, code);
    ResolvedWithin(b, c + jif, end);
    ResolvedPlain(end, code);
    ResolvedAppend(c, jif, code);
    ResolvedAppend(c + jif, b, code);
    ResolvedAppend(c + jif + b, end, code);
  }

  /** The `while` layout: `start:`, condition, `JIF end`, body, `JUMP start`, `end:`. */
  function WhileCode(c: seq<Line>, b: seq<Line>, k: nat): seq<Line> {
    [Mark(NewLabel(k))] + c + [Op(JumpIfFalse, [NewLabel(k + 1)])] + b
    + [Op(Jump, [NewLabel(k)]), Mark(NewLabel(k + 1))]
  }

  lemma WhileShape(c: seq<Line>, b: seq<Line>, lo: nat, m1: nat, hi: nat)
    requires lo + 2 <= m1 <= hi && Disciplined(c, lo + 2, m1) && Disciplined(b, m1, hi)
    ensures Disciplined(WhileCode(c, b, lo), lo, hi)
  {
    WhileCounts(c, b, lo, m1, hi);
    WhileJumps(c, b, lo);
  }

  lemma WhileCounts(c: seq<Line>, b: seq<Line>, lo: nat, m1: nat, hi: nat)
    requires lo + 2 <= m1 <= hi && AtMostOnce(c, lo + 2, m1) && AtMostOnce(b, m1, hi)
    ensures AtMostOnce(WhileCode(c, b, lo), lo, hi)
  {
    var start, jif, jump, end := [Mark(NewLabel(lo))], [Op(JumpIfFalse, [NewLabel(lo + 1)])],
      [Op(Jump, [NewLabel(lo)])], [Mark(NewLabel(lo + 1))];
    var code := start + c + jif + b + (jump + end);
    assert code == WhileCode(c, b, lo);
    forall k: nat ensures Count(code, k) <= if lo <= k < hi then 1 else 0 {
      assert Count(c, k) <= if lo + 2 <= k < m1 then 1 else 0;
      assert Count(b, k) <= if m1 <= k < hi then 1 else 0;
      CountAppend(start + c + jif + b, jump + end, k);
      CountAppend(jump, end, k);
      CountAppend(start + c + jif, b, k);
      CountAppend(start + c, jif, k);
      CountAppend(start, c, k);
      CountPlain(jif, k);
      CountPlain(jump, k);
      MarkCount(k, lo);
      MarkCount(k, lo + 1);
    }
  }

  lemma WhileJumps(c: seq<Line>, b: seq<Line>, lo: nat)
    requires JumpsResolved(c) && JumpsResolved(b)
    ensures JumpsResolved(WhileCode(c, b, lo))
  {
    var start, jif, jump, end := [Mark(NewLabel(lo))], [Op(JumpIfFalse, [NewLabel(lo + 1)])],
      [Op(Jump, [NewLabel(lo)])], [Mark(NewLabel(lo + 1))];
    var code := start + c + jif + b + (jump + end);
    assert code == WhileCode(c, b, lo);
    assert Mark(NewLabel(lo)) in code by { assert code[0] == Mark(NewLabel(lo)); }
    assert Mark(NewLabel(lo + 1)) in code by { assert code[|code| - 1] == Mark(NewLabel(lo + 1)); }
    ResolvedPlain(start, code);
    assert start + c + (jif + b + (jump + end)) == code;
    ResolvedWithin(c, start, jif + b + (jump + end));
    ResolvedJump(JumpIfFalse, lo + 1, code);
    ResolvedWithin(b, start + c + jif, jump + end);
    ResolvedJump(Jump, lo, code);
    ResolvedPlain(end, code);
    ResolvedAppend(start, c, code);
    ResolvedAppend(start + c, jif, code);
    ResolvedAppend(start + c + jif, b, code);
    ResolvedAppend(jump, end, code);
    ResolvedAppend(start + c + jif + b, jump + end, code);
  }

  lemma ForShape(i: string, s: seq<Line>, e: seq<Line>, b: seq<Line>, lo: nat, m1: nat, m2: nat, k: nat)
    requires lo <= m1 <= m2 <= k
    requires Disciplined(s, lo, m1) && Disciplined(e, m1, m2) && Disciplined(b, m2, k)
    ensures Disciplined(ForCode(i, s, e, b, k), lo, k + 2)
  {
    ForCounts(i, s, e, b, lo, m1, m2, k);
    ForJumps(i, s, e, b, k);
  }

  /** The pieces of the `for` layout between the bounds' code and the body. */
  function ForHead(i: string, k: nat): seq<Line> {
    [Op(Assignment, [i]), Mark(NewLabel(k)), Op(Reference, [i])]
  }

  function ForTest(k: nat): seq<Line> {
    [Op(LessEqual, []), Op(JumpIfFalse, [NewLabel(k + 1)])]
  }

  function ForStep(i: string): seq<Line> {
    [Op(Reference, [i]), Op(Number, ["1"]), Op(Addition, []), Op(Assignment, [i])]
  }

  function ForTail(i: string, k: nat): seq<Line> {
    ForStep(i) + [Op(Jump, [NewLabel(k)])] + [Mark(NewLabel(k + 1))]
  }

  lemma ForPieces(i: string, s: seq<Line>, e: seq<Line>, b: seq<Line>, k: nat)
    ensures ForCode(i, s, e, b, k) == s + ForHead(i, k) + e + ForTest(k) + b + ForTail(i, k)
  {
  }

  lemma ForHeadCount(i: string, k: nat, j: nat)
    ensures Count(ForHead(i, k), j) == if j == k then 1 else 0
  {
    MarkCount(j, k);
    var h := ForHead(i, k);
    assert h == [h[0]] + [h[1]] + [h[2]];
    CountAppend([h[0]] + [h[1]], [h[2]], j);
    CountAppend([h[0]], [h[1]], j);
    CountPlain([h[0]], j);
    CountPlain([h[2]], j);
  }

  lemma ForTestCount(k: nat, j: nat)
    ensures Count(ForTest(k), j) == 0
  {
    CountPlain(ForTest(k), j);
  }

  lemma ForTailCount(i: string, k: nat, j: nat)
    ensures Count(ForTail(i, k), j) == if j == k + 1 then 1 else 0
  {
    MarkCount(j, k + 1);
    CountAppend(ForStep(i) + [Op(Jump, [NewLabel(k)])], [Mark(NewLabel(k + 1))], j);
    CountAppend(ForStep(i), [Op(Jump, [NewLabel(k)])], j);
    CountPlain(ForStep(i), j);
    CountPlain([Op(Jump, [NewLabel(k)])], j);
  }

  lemma ForPieceJumps(i: string, k: nat, code: seq<Line>)
    requires Mark(NewLabel(k)) in code && Mark(NewLabel(k + 1)) in code
    ensures ResolvedIn(ForHead(i, k), code)
    ensures ResolvedIn(ForTest(k), code)
    ensures ResolvedIn(ForTail(i, k), code)
  {
    ResolvedPlain(ForHead(i, k), code);
    ResolvedPlain([Op(LessEqual, [])], code);
    ResolvedJump(JumpIfFalse, k + 1, code);
    assert ForTest(k) == [Op(LessEqual, [])] + [Op(JumpIfFalse, [NewLabel(k + 1)])];
    ResolvedAppend([Op(LessEqual, [])], [Op(JumpIfFalse, [NewLabel(k + 1)])], code);
    ResolvedPlain(ForStep(i), code);
    ResolvedJump(Jump, k, code);
    ResolvedPlain([Mark(NewLabel(k + 1))], code);
    ResolvedAppend(ForStep(i), [Op(Jump, [NewLabel(k)])], code);
    ResolvedAppend(ForStep(i) + [Op(Jump, [NewLabel(k)])], [Mark(NewLabel(k + 1))], code);
  }

  lemma ForJumps(i: string, s: seq<Line>, e: seq<Line>, b: seq<Line>, k: nat)
    requires JumpsResolved(s) && JumpsResolved(e) && JumpsResolved(b)
    ensures JumpsResolved(ForCode(i, s, e, b, k))
  {
    var h, t, z := ForHead(i, k), ForTest(k), ForTail(i, k);
    var code := ForCode(i, s, e, b, k);
    ForPieces(i, s, e, b, k);
    assert Mark(NewLabel(k)) in h;
    assert Mark(NewLabel(k + 1)) in z;
    ForPieceJumps(i, k, code);
    ResolvedSub(s, code);
    ResolvedSub(e, code);
    ResolvedSub(b, code);
    ResolvedAppend(s, h, code);
    ResolvedAppend(s + h, e, code);
    ResolvedAppend(s + h + e, t, code);
    ResolvedAppend(s + h + e + t, b, code);
    ResolvedAppend(s + h + e + t + b, z, code);
  }

  lemma ForCounts(i: string, s: seq<Line>, e: seq<Line>, b: seq<Line>, lo: nat, m1: nat, m2: nat, k: nat)
    requires lo <= m1 <= m2 <= k
    requires AtMostOnce(s, lo, m1) && AtMostOnce(e, m1, m2) && AtMostOnce(b, m2, k)
    ensures AtMostOnce(ForCode(i, s, e, b, k), lo, k + 2)
  {
    var h, t, z := ForHead(i, k), ForTest(k), ForTail(i, k);
    var code := ForCode(i, s, e, b, k);
    ForPieces(i, s, e, b, k);
    forall j: nat ensures Count(code, j) <= if lo <= j < k + 2 then 1 else 0 {
      assert Count(s, j) <= if lo <= j < m1 then 1 else 0;
      assert Count(e, j) <= if m1 <= j < m2 then 1 else 0;
      assert Count(b, j) <= if m2 <= j < k then 1 else 0;
      ForHeadCount(i, k, j);
      ForTestCount(k, j);
      ForTailCount(i, k, j);
      CountAppend(s + h + e + t + b, z, j);
      CountAppend(s + h + e + t, b, j);
      CountAppend(s + h + e, t, j);
      CountAppend(s + h, e, j);
      CountAppend(s, h, j);
    }
  }

  /**
   * Labels: the lowering allocates counter values `[ctx.labelId, result's labelId)`,
   * defines each of those labels at most once and no other synthetic label, and every
   * `JIF`/`JUMP` it emits targets a synthetic label the same code defines.
   */
  lemma {:induction false} LabelDiscipline(n: Node, ctx: Context)
    requires WellTyped(n) && NoNumericDefs(n) && Lower(n, ctx).Ok?
    ensures ctx.labelId <= Lower(n, ctx).value.ctx.labelId
    ensures Disciplined(Lower(n, ctx).value.code, ctx.labelId, Lower(n, ctx).value.ctx.labelId)
    decreases n, 1
  {
    var r := Lower(n, ctx).value;
    match n
    case ProgramNode(s) =>
      LabelDiscipline(s, ctx);
    case StatementsNode(body) =>
      LabelDisciplineAll(body, ctx);
    case ArgumentsNode(list) =>
      LabelDisciplineAll(list, ctx);
    case IntegerNode(v) =>
      PlainDisciplined(r.code, ctx.labelId, ctx.labelId);
    case LocalVariableReadNode(_) =>
      PlainDisciplined(r.code, ctx.labelId, ctx.labelId);
    case StringNode(_) =>
      PlainDisciplined(r.code, ctx.labelId, ctx.labelId);
    case RangeNode(_, _) =>
      PlainDisciplined(r.code, ctx.labelId, ctx.labelId);
    case CallNode(_, _, _) =>
      CallDiscipline(n, ctx);
    case LocalVariableWriteNode(_, _) =>
      SuffixDiscipline(n, ctx);
    case IfNode(_, _) =>
      IfDiscipline(n, ctx);
    case WhileNode(_, _) =>
      WhileDiscipline(n, ctx);
    case ForNode(_, _, _) =>
      ForDiscipline(n, ctx);
    case DefNode(_, _, _) =>
      DefDiscipline(n, ctx);
    case ReturnNode(_) =>
      SuffixDiscipline(n, ctx);
    case ArrayNode(_) =>
      SuffixDiscipline(n, ctx);
  }

  /** Assignments, `return` and array literals: the children's code followed by one plain line. */
  lemma {:induction false} SuffixDiscipline(n: Node, ctx: Context)
    requires n.LocalVariableWriteNode? || n.ReturnNode? || n.ArrayNode?
    requires WellTyped(n) && NoNumericDefs(n) && Lower(n, ctx).Ok?
    ensures ctx.labelId <= Lower(n, ctx).value.ctx.labelId
    ensures Disciplined(Lower(n, ctx).value.code, ctx.labelId, Lower(n, ctx).value.ctx.labelId)
    decreases n, 0
  {
    match n
    case LocalVariableWriteNode(name, written) =>
      LabelDiscipline(written, ctx);
      var v := Lower(written, ctx).value;
      PlainDisciplined([Op(Assignment, [name])], v.ctx.labelId, v.ctx.labelId);
      Concat(v.code, [Op(Assignment, [name])], ctx.labelId, v.ctx.labelId, v.ctx.labelId);
    case ReturnNode(arguments) =>
      LabelDiscipline(arguments.value, ctx);
      var a := Lower(arguments.value, ctx).value;
      PlainDisciplined([Op(Return, [])], a.ctx.labelId, a.ctx.labelId);
      Concat(a.code, [Op(Return, [])], ctx.labelId, a.ctx.labelId, a.ctx.labelId);
    case ArrayNode(elements) =>
      LabelDisciplineAll(elements, ctx);
      var e := LowerAll(elements, ctx).value;
      var def := [Op(ArrayDefinition, [Dec(|elements|)])];
      PlainDisciplined(def, e.ctx.labelId, e.ctx.labelId);
      Concat(e.code, def, ctx.labelId, e.ctx.labelId, e.ctx.labelId);
  }

  lemma {:induction false} CallDiscipline(n: Node, ctx: Context)
    requires n.CallNode? && WellTyped(n) && NoNumericDefs(n) && Lower(n, ctx).Ok?
    ensures ctx.labelId <= Lower(n, ctx).value.ctx.labelId
    ensures Disciplined(Lower(n, ctx).value.code, ctx.labelId, Lower(n, ctx).value.ctx.labelId)
    decreases n, 0
  {
    var r := Lower(n, ctx).value;
    if n.name == "exit" {
      PlainDisciplined(r.code, ctx.labelId, ctx.labelId);
    } else {
      var rc := if n.receiver.Some? then Lower(n.receiver.value, ctx).value else Lowered([], ctx);
      if n.receiver.Some? {
        LabelDiscipline(n.receiver.value, ctx);
      }
      var args := n.arguments.value;
      assert WellTyped(args) && NoNumericDefs(args);
      LabelDisciplineAll(args.argumentList, rc.ctx);
      var a := LowerAll(args.argumentList, rc.ctx).value;
      assert r == Lowered(CallCode(n.name, rc.code, a.code, a.ctx.functionTable), a.ctx);
      CallCodeDisciplined(n.name, rc.code, a.code, a.ctx.functionTable, ctx.labelId, rc.ctx.labelId, a.ctx.labelId);
    }
  }

  lemma CallCodeDisciplined(name: string, rc: seq<Line>, ac: seq<Line>, t: map<string, seq<string>>,
                            lo: nat, mid: nat, hi: nat)
    requires lo <= mid <= hi && Disciplined(rc, lo, mid) && Disciplined(ac, mid, hi)
    ensures Disciplined(CallCode(name, rc, ac, t), lo, hi)
  {
    Concat(rc, ac, lo, mid, hi);
    if name in t {
      var last := [Op(FunctionCall, [name, Dec(|t[name]|)])];
      PlainDisciplined(last, hi, hi);
      Concat(rc + ac, last, lo, hi, hi);
    } else if ReceiverlessBuiltin(name).Some? {
      var last := [Op(ReceiverlessBuiltin(name).value, [])];
      PlainDisciplined(last, hi, hi);
      Concat(ac, last, mid, hi, hi);
      Widen(ac + last, mid, hi, lo, hi);
    } else if Operator(name).Some? {
      var last := [Op(Operator(name).value, [])];
      PlainDisciplined(last, hi, hi);
      Concat(rc + ac, last, lo, hi, hi);
    } else {
      var last := [Op(FunctionCall, [name])];
      PlainDisciplined(last, hi, hi);
      Concat(rc + ac, last, lo, hi, hi);
    }
  }

  lemma {:induction false} IfDiscipline(n: Node, ctx: Context)
    requires n.IfNode? && WellTyped(n) && NoNumericDefs(n) && Lower(n, ctx).Ok?
    ensures ctx.labelId <= Lower(n, ctx).value.ctx.labelId
    ensures Disciplined(Lower(n, ctx).value.code, ctx.labelId, Lower(n, ctx).value.ctx.labelId)
    decreases n, 0
  {
    LabelDiscipline(n.condition, ctx);
    var c := Lower(n.condition, ctx).value;
    LabelDiscipline(n.statements, c.ctx);
    var b := Lower(n.statements, c.ctx).value;
    IfShape(c.code, b.code, ctx.labelId, c.ctx.labelId, b.ctx.labelId);
  }

  lemma {:induction false} WhileDiscipline(n: Node, ctx: Context)
    requires n.WhileNode? && WellTyped(n) && NoNumericDefs(n) && Lower(n, ctx).Ok?
    ensures ctx.labelId <= Lower(n, ctx).value.ctx.labelId
    ensures Disciplined(Lower(n, ctx).value.code, ctx.labelId, Lower(n, ctx).value.ctx.labelId)
    decreases n, 0
  {
    var ctx1 := ctx.(labelId := ctx.labelId + 2);
    LabelDiscipline(n.condition, ctx1);
    var c := Lower(n.condition, ctx1).value;
    LabelDiscipline(n.statements, c.ctx);
    var b := Lower(n.statements, c.ctx).value;
    assert Lower(n, ctx).value.code == WhileCode(c.code, b.code, ctx.labelId);
    WhileShape(c.code, b.code, ctx.labelId, c.ctx.labelId, b.ctx.labelId);
  }

  lemma {:induction false} ForDiscipline(n: Node, ctx: Context)
    requires n.ForNode? && WellTyped(n) && NoNumericDefs(n) && Lower(n, ctx).Ok?
    ensures ctx.labelId <= Lower(n, ctx).value.ctx.labelId
    ensures Disciplined(Lower(n, ctx).value.code, ctx.labelId, Lower(n, ctx).value.ctx.labelId)
    decreases n, 0
  {
    assert WellTyped(n.collection) && NoNumericDefs(n.collection);
    LabelDiscipline(n.collection.left, ctx);
    var s := Lower(n.collection.left, ctx).value;
    LabelDiscipline(n.collection.right, s.ctx);
    var e := Lower(n.collection.right, s.ctx).value;
    LabelDiscipline(n.statements, e.ctx);
    var b := Lower(n.statements, e.ctx).value;
    assert Lower(n, ctx).value.code == ForCode(n.index.name, s.code, e.code, b.code, b.ctx.labelId);
    ForShape(n.index.name, s.code, e.code, b.code, ctx.labelId, s.ctx.labelId, e.ctx.labelId, b.ctx.labelId);
  }

  lemma {:induction false} DefDiscipline(n: Node, ctx: Context)
    requires n.DefNode? && WellTyped(n) && NoNumericDefs(n) && Lower(n, ctx).Ok?
    ensures ctx.labelId <= Lower(n, ctx).value.ctx.labelId
    ensures Disciplined(Lower(n, ctx).value.code, ctx.labelId, Lower(n, ctx).value.ctx.labelId)
    decreases n, 0
  {
    var ctx1 := ctx.(functionTable := ctx.functionTable[n.name := n.parameters.value]);
    LabelDiscipline(n.defBody, ctx1);
    var b := Lower(n.defBody, ctx1).value;
    FuncMarkDisciplined(n.name, ctx.labelId);
    Concat([Mark(FuncLabel(n.name))], b.code, ctx.labelId, ctx.labelId, b.ctx.labelId);
  }

  lemma FuncMarkDisciplined(name: string, lo: nat)
    requires !AllDigits(name)
    ensures Disciplined([Mark(FuncLabel(name))], lo, lo)
  {
    forall k: nat ensures multiset([Mark(FuncLabel(name))])[Mark(NewLabel(k))] == 0 {
      FuncLabelMeetsNewLabel(name, k);
    }
  }

  lemma {:induction false} LabelDisciplineAll(ns: seq<Node>, ctx: Context)
    requires forall i :: 0 <= i < |ns| ==> WellTyped(ns[i]) && NoNumericDefs(ns[i])
    requires LowerAll(ns, ctx).Ok?
    ensures ctx.labelId <= LowerAll(ns, ctx).value.ctx.labelId
    ensures Disciplined(LowerAll(ns, ctx).value.code, ctx.labelId, LowerAll(ns, ctx).value.ctx.labelId)
    decreases ns, 0
  {
    if ns != [] {
      LabelDiscipline(ns[0], ctx);
      var h := Lower(ns[0], ctx).value;
      LabelDisciplineAll(ns[1..], h.ctx);
      var t := LowerAll(ns[1..], h.ctx).value;
      Concat(h.code, t.code, ctx.labelId, h.ctx.labelId, t.ctx.labelId);
    }
  }

  /**
   * The property the assembler relies on: the target of every `JIF`/`JUMP` the
   * lowerer emits is a label defined exactly once in the emitted code.
   */
  lemma JumpTargetsDefinedOnce(n: Node, ctx: Context, i: nat)
    requires WellTyped(n) && NoNumericDefs(n) && Lower(n, ctx).Ok?
    requires i < |Lower(n, ctx).value.code| && IsJump(Lower(n, ctx).value.code[i])
    ensures |Lower(n, ctx).value.code[i].args| == 1
    ensures multiset(Lower(n, ctx).value.code)[Mark(Lower(n, ctx).value.code[i].args[0])] == 1
  {
    LabelDiscipline(n, ctx);
    var r := Lower(n, ctx).value;
    assert r.code[i] in r.code;
    var k :| r.code[i].args == [NewLabel(k)] && Mark(NewLabel(k)) in r.code;
    assert Count(r.code, k) <= 1;
  }

  /**
   * Where lowering throws. The kinds the `switch` has no case for stop it with
   * `Unknown node type:<tag>`. The fields the serializer may leave out are
   * read without a check: a call other than `exit` without `arguments` (once
   * its receiver is lowered), a `def` without `parameters` and a bare `return`
   * stop it with a TypeError. `exit` never reads its arguments, and an error
   * in a call's receiver comes first.
   */
  lemma LowerErrors(n: Node, ctx: Context)
    requires WellTyped(n)
    ensures n.BreakNode? || n.NextNode? || n.LocalVariableTargetNode? ==>
              Lower(n, ctx) == Err(UnknownNodeKind(Tag(n)))
    ensures n.CallNode? && n.name == "exit" ==> Lower(n, ctx) == Ok(Lowered([Op(End, [])], ctx))
    ensures n.CallNode? && n.name != "exit" && n.receiver.Some? && Lower(n.receiver.value, ctx).Err? ==>
              Lower(n, ctx) == Lower(n.receiver.value, ctx)
    ensures n.CallNode? && n.name != "exit" && n.arguments.None?
            && (n.receiver.Some? ==> Lower(n.receiver.value, ctx).Ok?) ==>
              Lower(n, ctx) == Err(MissingField("call_node", "arguments"))
    ensures n.DefNode? && n.parameters.None? ==> Lower(n, ctx) == Err(MissingField("def_node", "parameters"))
    ensures n.ReturnNode? && n.arguments.None? ==> Lower(n, ctx) == Err(MissingField("return_node", "arguments"))
  {
  }

  /**
   * The trees lowering accepts, read off the `switch` independently of the
   * counter and the table: every kind it has a case for, with the fields it
   * reads present. `exit` reads nothing further, and a bare range emits
   * nothing, so neither looks at its children; a `for` lowers both bounds of
   * its range but never its index.
   */
  predicate Supported(n: Node) {
    match n
    case ProgramNode(s) => Supported(s)
    case StatementsNode(body) => forall i :: 0 <= i < |body| ==> Supported(body[i])
    case CallNode(r, name, a) =>
      name == "exit" ||
      ((match r case Some(x) => Supported(x) case None => true) && a.Some? && Supported(a.value))
    case ArgumentsNode(list) => forall i :: 0 <= i < |list| ==> Supported(list[i])
    case IntegerNode(_) => true
    case LocalVariableWriteNode(_, v) => Supported(v)
    case LocalVariableReadNode(_) => true
    case LocalVariableTargetNode(_) => false
    case IfNode(p, s) => Supported(p) && Supported(s)
    case ForNode(_, c, s) =>
      (match c case RangeNode(l, r) => Supported(l) && Supported(r) case _ => true) && Supported(s)
    case RangeNode(_, _) => true
    case WhileNode(p, s) => Supported(p) && Supported(s)
    case StringNode(_) => true
    case BreakNode => false
    case NextNode => false
    case DefNode(_, ps, b) => ps.Some? && Supported(b)
    case ReturnNode(a) => a.Some? && Supported(a.value)
    case ArrayNode(es) => forall i :: 0 <= i < |es| ==> Supported(es[i])
  }

  /** Lowering a well-typed tree succeeds exactly on the supported trees, whatever the state. */
  lemma {:induction false} LowerTotal(n: Node, ctx: Context)
    requires WellTyped(n)
    ensures Lower(n, ctx).Ok? <==> Supported(n)
    decreases n, 1
  {
    match n
    case ProgramNode(s) =>
      LowerTotal(s, ctx);
    case StatementsNode(body) =>
      LowerAllTotal(body, ctx);
    case ArgumentsNode(list) =>
      LowerAllTotal(list, ctx);
    case CallNode(_, _, _) =>
      CallTotal(n, ctx);
    case LocalVariableWriteNode(_, written) =>
      LowerTotal(written, ctx);
    case IfNode(condition, statements) =>
      LowerTotal(condition, ctx);
      if Supported(condition) {
        LowerTotal(statements, Lower(condition, ctx).value.ctx);
      }
    case ForNode(_, _, _) =>
      ForTotal(n, ctx);
    case WhileNode(_, _) =>
      WhileTotal(n, ctx);
    case DefNode(name, parameters, defBody) =>
      if parameters.Some? {
        LowerTotal(defBody, ctx.(functionTable := ctx.functionTable[name := parameters.value]));
      }
    case ReturnNode(arguments) =>
      if arguments.Some? {
        LowerTotal(arguments.value, ctx);
      }
    case ArrayNode(elements) =>
      LowerAllTotal(elements, ctx);
    case _ =>
  }

  lemma {:induction false} CallTotal(n: Node, ctx: Context)
    requires n.CallNode? && WellTyped(n)
    ensures Lower(n, ctx).Ok? <==> Supported(n)
    decreases n, 0
  {
    assert Lower(n, ctx) == LowerCall(n, ctx);
    if n.name != "exit" {
      if n.receiver.Some? {
        LowerTotal(n.receiver.value, ctx);
      }
      var ok := n.receiver.Some? ==> Supported(n.receiver.value);
      if ok && n.arguments.Some? {
        var rc := if n.receiver.Some? then Lower(n.receiver.value, ctx).value else Lowered([], ctx);
        var args := n.arguments.value;
        assert WellTyped(args);
        LowerAllTotal(args.argumentList, rc.ctx);
      }
    }
  }

  lemma {:induction false} ForTotal(n: Node, ctx: Context)
    requires n.ForNode? && WellTyped(n)
    ensures Lower(n, ctx).Ok? <==> Supported(n)
    decreases n, 0
  {
    assert Lower(n, ctx) == LowerFor(n, ctx);
    var c := n.collection;
    assert WellTyped(c);
    LowerTotal(c.left, ctx);
    if Supported(c.left) {
      var s := Lower(c.left, ctx).value;
      LowerTotal(c.right, s.ctx);
      if Supported(c.right) {
        LowerTotal(n.statements, Lower(c.right, s.ctx).value.ctx);
      }
    }
  }

  lemma {:induction false} WhileTotal(n: Node, ctx: Context)
    requires n.WhileNode? && WellTyped(n)
    ensures Lower(n, ctx).Ok? <==> Supported(n)
    decreases n, 0
  {
    assert Lower(n, ctx) == LowerWhile(n, ctx);
    var inner := ctx.(labelId := ctx.labelId + 2);
    LowerTotal(n.condition, inner);
    if Supported(n.condition) {
      LowerTotal(n.statements, Lower(n.condition, inner).value.ctx);
    }
  }

  /** A statement list lowers exactly when each of its statements is supported. */
  lemma {:induction false} LowerAllTotal(ns: seq<Node>, ctx: Context)
    requires forall i :: 0 <= i < |ns| ==> WellTyped(ns[i])
    ensures LowerAll(ns, ctx).Ok? <==> forall i :: 0 <= i < |ns| ==> Supported(ns[i])
    decreases ns, 0
  {
    if ns != [] {
      LowerTotal(ns[0], ctx);
      if Supported(ns[0]) {
        LowerAllTotal(ns[1..], Lower(ns[0], ctx).value.ctx);
        assert forall i :: 1 <= i < |ns| ==> ns[1..][i - 1] == ns[i];
      }
    }
  }
}
