/**
 * The syntax tree the lowerer consumes: the `Node` union of
 * src/modules/ast/interface.ts, plus the three node kinds the lowerer handles
 * although the union does not list them (`def_node`, `return_node`,
 * `array_node`). Optional fields the lowerer never reads (`locals`, `depth`,
 * `flags`) are not modelled. Dafny needs distinct names where the source
 * reuses one with another type or uses a keyword: `if`/`while` `predicate` is
 * `condition`, the argument list of an `ArgumentsNode` is `argumentList`, the
 * value of a variable write is `written` and a definition's body is `defBody`;
 * a `def` node's parameter list `parameters.requireds` is the list of their names.
 *
 * The serializer (src/ast/ruby2json.rb:12) drops every field whose value is
 * nil, so a field the parser may leave empty is an `Option` here: a call's
 * `receiver` and `arguments` (`foo`, `x.shuffle`), a definition's
 * `parameters` (`def f`) and a `return`'s `arguments` (a bare `return`).
 */
module Ast {
  import opened Common

  datatype Node =
    | ProgramNode(statements: Node)
    | StatementsNode(body: seq<Node>)
    | CallNode(receiver: Option<Node>, name: string, arguments: Option<Node>)
    | ArgumentsNode(argumentList: seq<Node>)
    | IntegerNode(value: int)
    | LocalVariableWriteNode(name: string, written: Node)
    | LocalVariableReadNode(name: string)
    | LocalVariableTargetNode(name: string)
    | IfNode(condition: Node, statements: Node)
    | ForNode(index: Node, collection: Node, statements: Node)
    | RangeNode(left: Node, right: Node)
    | WhileNode(condition: Node, statements: Node)
    | StringNode(unescaped: string)
    | BreakNode
    | NextNode
      // lowered by the compiler but missing from the union
    | DefNode(name: string, parameters: Option<seq<string>>, defBody: Node)
    | ReturnNode(arguments: Option<Node>)
    | ArrayNode(elements: seq<Node>)

  /** The `type` discriminator each variant carries. */
  function Tag(n: Node): string {
    match n
    case ProgramNode(_) => "program_node"
    case StatementsNode(_) => "statements_node"
    case CallNode(_, _, _) => "call_node"
    case ArgumentsNode(_) => "arguments_node"
    case IntegerNode(_) => "integer_node"
    case LocalVariableWriteNode(_, _) => "local_variable_write_node"
    case LocalVariableReadNode(_) => "local_variable_read_node"
    case LocalVariableTargetNode(_) => "local_variable_target_node"
    case IfNode(_, _) => "if_node"
    case ForNode(_, _, _) => "for_node"
    case RangeNode(_, _) => "range_node"
    case WhileNode(_, _) => "while_node"
    case StringNode(_) => "string_node"
    case BreakNode => "break_node"
    case NextNode => "next_node"
    case DefNode(_, _, _) => "def_node"
    case ReturnNode(_) => "return_node"
    case ArrayNode(_) => "array_node"
  }

  /** Position of a variant in the declaration above. */
  function Variant(n: Node): nat {
    match n
    case ProgramNode(_) => 0
    case StatementsNode(_) => 1
    case CallNode(_, _, _) => 2
    case ArgumentsNode(_) => 3
    case IntegerNode(_) => 4
    case LocalVariableWriteNode(_, _) => 5
    case LocalVariableReadNode(_) => 6
    case LocalVariableTargetNode(_) => 7
    case IfNode(_, _) => 8
    case ForNode(_, _, _) => 9
    case RangeNode(_, _) => 10
    case WhileNode(_, _) => 11
    case StringNode(_) => 12
    case BreakNode => 13
    case NextNode => 14
    case DefNode(_, _, _) => 15
    case ReturnNode(_) => 16
    case ArrayNode(_) => 17
  }

  /** Reads a `type` literal back to the variant it names, as a `switch (node.type)` does. */
  function VariantOfTag(tag: string): Option<nat> {
    if tag == "program_node" then Some(0)
    else if tag == "statements_node" then Some(1)
    else if tag == "call_node" then Some(2)
    else if tag == "arguments_node" then Some(3)
    else if tag == "integer_node" then Some(4)
    else if tag == "local_variable_write_node" then Some(5)
    else if tag == "local_variable_read_node" then Some(6)
    else if tag == "local_variable_target_node" then Some(7)
    else if tag == "if_node" then Some(8)
    else if tag == "for_node" then Some(9)
    else if tag == "range_node" then Some(10)
    else if tag == "while_node" then Some(11)
    else if tag == "string_node" then Some(12)
    else if tag == "break_node" then Some(13)
    else if tag == "next_node" then Some(14)
    else if tag == "def_node" then Some(15)
    else if tag == "return_node" then Some(16)
    else if tag == "array_node" then Some(17)
    else None
  }

  lemma TagsLow(n: Node)
    requires Variant(n) < 6
    ensures VariantOfTag(Tag(n)) == Some(Variant(n))
  {
  }

  lemma TagsMiddle(n: Node)
    requires 6 <= Variant(n) < 12
    ensures VariantOfTag(Tag(n)) == Some(Variant(n))
  {
  }

  lemma TagsHigh(n: Node)
    requires 12 <= Variant(n) < 15
    ensures VariantOfTag(Tag(n)) == Some(Variant(n))
  {
  }

  lemma TagsTop(n: Node)
    requires 15 <= Variant(n)
    ensures VariantOfTag(Tag(n)) == Some(Variant(n))
  {
  }

  /** Every tag reads back to its own variant. */
  lemma TagIdentifiesVariant(n: Node)
    ensures VariantOfTag(Tag(n)) == Some(Variant(n))
  {
    if Variant(n) < 6 {
      TagsLow(n);
    } else if Variant(n) < 12 {
      TagsMiddle(n);
    } else if Variant(n) < 15 {
      TagsHigh(n);
    } else {
      TagsTop(n);
    }
  }

  /** The union is discriminated: equal tags mean the same variant. */
  lemma SameTagSameVariant(a: Node, b: Node)
    requires Tag(a) == Tag(b)
    ensures Variant(a) == Variant(b)
  {
    TagIdentifiesVariant(a);
    TagIdentifiesVariant(b);
  }

  /**
   * The field types the interface declares for the fields the lowerer reads
   * through: a program, `if`, `while` and `for` body is a `StatementsNode`, a
   * call's `arguments`, when present, is an `ArgumentsNode`, a `for` index is a
   * `LocalVariableTargetNode` and its collection a `RangeNode`.
   */
  predicate WellTyped(n: Node) {
    match n
    case ProgramNode(s) => s.StatementsNode? && WellTyped(s)
    case StatementsNode(body) => forall i :: 0 <= i < |body| ==> WellTyped(body[i])
    case CallNode(r, _, a) =>
      && (match r case Some(x) => WellTyped(x) case None => true)
      && (match a case Some(x) => x.ArgumentsNode? && WellTyped(x) case None => true)
    case ArgumentsNode(list) => forall i :: 0 <= i < |list| ==> WellTyped(list[i])
    case LocalVariableWriteNode(_, v) => WellTyped(v)
    case IfNode(p, s) => s.StatementsNode? && WellTyped(p) && WellTyped(s)
    case ForNode(i, c, s) =>
      i.LocalVariableTargetNode? && c.RangeNode? && s.StatementsNode? && WellTyped(c) && WellTyped(s)
    case RangeNode(l, r) => WellTyped(l) && WellTyped(r)
    case WhileNode(p, s) => s.StatementsNode? && WellTyped(p) && WellTyped(s)
    case DefNode(_, _, b) => WellTyped(b)
    case ReturnNode(a) => (match a case Some(x) => WellTyped(x) case None => true)
    case ArrayNode(es) => forall i :: 0 <= i < |es| ==> WellTyped(es[i])
    case _ => true
  }
}
