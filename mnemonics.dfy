/**
 * The `ASSEMBLY` mnemonic table of src/constants.ts, plus the nine names the
 * lowerer uses although the table does not define them.
 */
module Mnemonics {
  import opened Common
  import opened Strings

  datatype Mnemonic =
    | Addition | Subtraction | Multiplication | Division | Remainder | Power
    | Greater | Less | GreaterEqual | LessEqual
    | Assignment | Reference
    | Jump | JumpIfFalse
    | Output | FunctionCall | Number | Str | End
      // used by the lowerer, absent from the table
    | Number1 | Number2 | Equal | NotEqual
    | ArrayAssignment | ArrayReferrence | Shuffle | Return | ArrayDefinition

  /** The table itself: the text of each mnemonic it defines. */
  function Assembly(m: Mnemonic): Option<string> {
    match m
    case Addition => Some("ADD")
    case Subtraction => Some("SUB")
    case Multiplication => Some("MUL")
    case Division => Some("DIV")
    case Remainder => Some("REM")
    case Power => Some("POW")
    case Greater => Some("GT")
    case Less => Some("LT")
    case GreaterEqual => Some("GTE")
    case LessEqual => Some("LTE")
    case Assignment => Some("STORE")
    case Reference => Some("LOAD")
    case Jump => Some("JUMP")
    case JumpIfFalse => Some("JIF")
    case Output => Some("PUTS")
    case FunctionCall => Some("CALL")
    case Number => Some("PUSH_NUM")
    case Str => Some("PUSH_STR")
    case End => Some("HALT")
    case _ => None
  }

  /**
   * The text an instruction line starts with: the table's entry, or, for a
   * name the table lacks, that name itself. The one exception is
   * `ARRAY_DEFINITION`: the lowerer concatenates the missing entry with its
   * operand, so the line starts with the text JavaScript gives `undefined`.
   */
  function Spelling(m: Mnemonic): string {
    match Assembly(m)
    case Some(s) => s
    case None =>
      match m
      case Number1 => "NUMBER1"
      case Number2 => "NUMBER2"
      case Equal => "EQUAL"
      case NotEqual => "NOT_EQUAL"
      case ArrayAssignment => "ARRAY_ASSIGNMENT"
      case ArrayReferrence => "ARRAY_REFERRENCE"
      case Shuffle => "SHUFFLE"
      case Return => "RETURN"
      case _ => "undefined"
  }

  /** Reads a mnemonic back from its text. */
  function FromSpelling(s: string): Option<Mnemonic> {
    if s == "ADD" then Some(Addition)
    else if s == "SUB" then Some(Subtraction)
    else if s == "MUL" then Some(Multiplication)
    else if s == "DIV" then Some(Division)
    else if s == "REM" then Some(Remainder)
    else if s == "POW" then Some(Power)
    else if s == "GT" then Some(Greater)
    else if s == "LT" then Some(Less)
    else if s == "GTE" then Some(GreaterEqual)
    else if s == "LTE" then Some(LessEqual)
    else if s == "STORE" then Some(Assignment)
    else if s == "LOAD" then Some(Reference)
    else if s == "JUMP" then Some(Jump)
    else if s == "JIF" then Some(JumpIfFalse)
    else if s == "PUTS" then Some(Output)
    else if s == "CALL" then Some(FunctionCall)
    else if s == "PUSH_NUM" then Some(Number)
    else if s == "PUSH_STR" then Some(Str)
    else if s == "HALT" then Some(End)
    else if s == "NUMBER1" then Some(Number1)
    else if s == "NUMBER2" then Some(Number2)
    else if s == "EQUAL" then Some(Equal)
    else if s == "NOT_EQUAL" then Some(NotEqual)
    else if s == "ARRAY_ASSIGNMENT" then Some(ArrayAssignment)
    else if s == "ARRAY_REFERRENCE" then Some(ArrayReferrence)
    else if s == "SHUFFLE" then Some(Shuffle)
    else if s == "RETURN" then Some(Return)
    else if s == "undefined" then Some(ArrayDefinition)
    else None
  }

  /** The mnemonics in six groups of at most five, to keep each case split small. */
  function Group(m: Mnemonic): nat {
    match m
    case Addition | Subtraction | Multiplication | Division | Remainder => 0
    case Power | Greater | Less | GreaterEqual | LessEqual => 1
    case Assignment | Reference | Jump | JumpIfFalse | Output => 2
    case FunctionCall | Number | Str | End => 3
    case Number1 | Number2 | Equal | NotEqual => 4
    case ArrayAssignment | ArrayReferrence | Shuffle | Return | ArrayDefinition => 5
  }

  lemma RoundTripGroup0(m: Mnemonic)
    requires Group(m) == 0
    ensures FromSpelling(Spelling(m)) == Some(m)
  {
  }

  lemma RoundTripGroup1(m: Mnemonic)
    requires Group(m) == 1
    ensures FromSpelling(Spelling(m)) == Some(m)
  {
  }

  lemma RoundTripGroup2(m: Mnemonic)
    requires Group(m) == 2
    ensures FromSpelling(Spelling(m)) == Some(m)
  {
  }

  lemma RoundTripGroup3(m: Mnemonic)
    requires Group(m) == 3
    ensures FromSpelling(Spelling(m)) == Some(m)
  {
  }

  lemma RoundTripGroup4(m: Mnemonic)
    requires Group(m) == 4
    ensures FromSpelling(Spelling(m)) == Some(m)
  {
  }

  lemma RoundTripGroup5(m: Mnemonic)
    requires Group(m) == 5
    ensures FromSpelling(Spelling(m)) == Some(m)
  {
  }

  /** Every mnemonic's text reads back to it. */
  lemma SpellingRoundTrip(m: Mnemonic)
    ensures FromSpelling(Spelling(m)) == Some(m)
  {
    match Group(m)
    case 0 => RoundTripGroup0(m);
    case 1 => RoundTripGroup1(m);
    case 2 => RoundTripGroup2(m);
    case 3 => RoundTripGroup3(m);
    case 4 => RoundTripGroup4(m);
    case _ => RoundTripGroup5(m);
  }

  /** The mnemonic texts are pairwise distinct. */
  lemma SpellingInjective(a: Mnemonic, b: Mnemonic)
    requires Spelling(a) == Spelling(b)
    ensures a == b
  {
    SpellingRoundTrip(a);
    SpellingRoundTrip(b);
  }

  lemma ShapeOperators(m: Mnemonic)
    requires Group(m) <= 1
    ensures ' ' !in Spelling(m)
    ensures ':' !in Spelling(m)
    ensures !StartsWith(Spelling(m), "LABEL_")
  {
    StartsWithAt(Spelling(m), "LABEL_", 0);
    StartsWithAt(Spelling(m), "LABEL_", 1);
  }

  lemma ShapeStatements(m: Mnemonic)
    requires 2 <= Group(m) <= 3
    ensures ' ' !in Spelling(m)
    ensures ':' !in Spelling(m)
    ensures !StartsWith(Spelling(m), "LABEL_")
  {
    StartsWithAt(Spelling(m), "LABEL_", 0);
    StartsWithAt(Spelling(m), "LABEL_", 1);
  }

  lemma ShapeUntabled(m: Mnemonic)
    requires 4 <= Group(m)
    ensures ' ' !in Spelling(m)
    ensures ':' !in Spelling(m)
    ensures !StartsWith(Spelling(m), "LABEL_")
  {
    StartsWithAt(Spelling(m), "LABEL_", 0);
    StartsWithAt(Spelling(m), "LABEL_", 1);
  }

  /**
   * The shapes the later stages rely on: a mnemonic's text has no space (so
   * the first field of `split(" ")` is the mnemonic), does not end with ':'
   * (so a line without operands is never read as a label definition; an
   * operand ending in ':' still makes one) and does not start with `LABEL_`
   * (so it never opens a function region).
   */
  lemma SpellingShape(m: Mnemonic)
    ensures ' ' !in Spelling(m)
    ensures ':' !in Spelling(m)
    ensures !StartsWith(Spelling(m), "LABEL_")
  {
    if Group(m) <= 1 {
      ShapeOperators(m);
    } else if Group(m) <= 3 {
      ShapeStatements(m);
    } else {
      ShapeUntabled(m);
    }
  }

  /** The table's `REFERENCE` entry is exactly `LOAD`. */
  lemma ReferenceIsLoad()
    ensures Assembly(Reference) == Some("LOAD")
  {
  }
}
