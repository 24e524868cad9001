/** What the two passes of `assemble` promise each other and the VM. */
module AssemblerFacts {
  import opened Common
  import opened Strings
  import opened Opcodes
  import opened Assembler

  /**
   * `getVariableId` gives the variable its existing number or the next free
   * one, keeps every earlier number, and keeps distinct variables distinct.
   */
  lemma SlotOfFacts(s: Slots, name: string)
    requires SlotsValid(s)
    ensures var (id, s') := SlotOf(s, name);
            && SlotsValid(s')
            && name in s'.table && s'.table[name] == id
            && (forall n :: n in s.table ==> n in s'.table && s'.table[n] == s.table[n])
            && s'.table.Keys == s.table.Keys + {name}
            && (name !in s.table ==> id == s.next && s'.next == s.next + 1)
  {
  }

  /** Asking twice for the same variable gives the same number and changes nothing more. */
  lemma SlotOfIdempotent(s: Slots, name: string)
    ensures var (id, s') := SlotOf(s, name);
            SlotOf(s', name) == (id, s')
  {
  }

  /** Operand encoding only ever adds variables, consistently. */
  lemma {:induction false} EncodeArgsValid(instr: string, args: seq<string>, labels: map<string, nat>, s: Slots)
    requires SlotsValid(s)
    ensures var s' := EncodeArgs(instr, args, labels, s).1;
            SlotsValid(s') && forall n :: n in s.table ==> n in s'.table && s'.table[n] == s.table[n]
  {
    if args != [] {
      var prefix := args[..|args| - 1];
      EncodeArgsValid(instr, prefix, labels, s);
      var s1 := EncodeArgs(instr, prefix, labels, s).1;
      var arg := args[|args| - 1];
      if instr != "PUSH_STR" && instr != "CALL" && ParseNumber(arg).None? && arg !in labels {
        SlotOfFacts(s1, arg);
      }
    }
  }

  lemma {:induction false} EncodeLinesValid(instructions: seq<string>, labels: map<string, nat>, s: Slots)
    requires SlotsValid(s)
    ensures var s' := EncodeLines(instructions, labels, s).slots;
            SlotsValid(s') && forall n :: n in s.table ==> n in s'.table && s'.table[n] == s.table[n]
  {
    if instructions != [] {
      var prefix := instructions[..|instructions| - 1];
      EncodeLinesValid(prefix, labels, s);
      var p := EncodeLines(prefix, labels, s);
      var line := instructions[|instructions| - 1];
      EncodeArgsValid(Instr(line), Args(line), labels, p.slots);
    }
  }

  lemma {:induction false} NonLabelsSnoc(lines: seq<string>, line: string)
    ensures NonLabels(lines + [line]) == NonLabels(lines) + if IsLabelLine(line) then [] else [line]
  {
    assert (lines + [line])[..|lines|] == lines;
  }

  lemma {:induction false} SizeSnoc(instructions: seq<string>, line: string)
    ensures Size(instructions + [line]) == Size(instructions) + LineSize(line)
  {
    assert (instructions + [line])[..|instructions|] == instructions;
  }

  /** Pass 1 keeps exactly the non-label lines and ends at their total size. */
  lemma {:induction false} Pass1Shape(lines: seq<string>)
    ensures Pass1(lines).instructions == NonLabels(lines)
    ensures Pass1(lines).address == Size(NonLabels(lines))
  {
    if lines != [] {
      var prefix, line := lines[..|lines| - 1], lines[|lines| - 1];
      Pass1Shape(prefix);
      if !IsLabelLine(line) {
        SizeSnoc(NonLabels(prefix), line);
      } else {
        assert NonLabels(lines) == NonLabels(prefix) + [];
      }
    }
  }

  /** Pass 1 records a label exactly when some `label:` line names it. */
  lemma {:induction false} LabelsRecorded(lines: seq<string>, name: string)
    ensures name in Pass1(lines).labels <==>
              exists j :: 0 <= j < |lines| && IsLabelLine(lines[j]) && LabelName(lines[j]) == name
  {
    if lines != [] {
      var prefix, line := lines[..|lines| - 1], lines[|lines| - 1];
      LabelsRecorded(prefix, name);
      if name in Pass1(lines).labels {
        if IsLabelLine(line) && LabelName(line) == name {
          assert IsLabelLine(lines[|lines| - 1]);
        } else {
          var j :| 0 <= j < |prefix| && IsLabelLine(prefix[j]) && LabelName(prefix[j]) == name;
          assert lines[j] == prefix[j];
        }
      } else {
        forall j | 0 <= j < |lines| && IsLabelLine(lines[j])
          ensures LabelName(lines[j]) != name
        {
          if j < |prefix| {
            assert lines[j] == prefix[j];
          }
        }
      }
    }
  }

  /**
   * A label's address is the total size of the instruction lines before its
   * last definition.
   */
  lemma {:induction false} LabelAddress(lines: seq<string>, j: nat)
    requires j < |lines| && IsLabelLine(lines[j])
    requires forall m :: j < m < |lines| && IsLabelLine(lines[m]) ==> LabelName(lines[m]) != LabelName(lines[j])
    ensures LabelName(lines[j]) in Pass1(lines).labels
    ensures Pass1(lines).labels[LabelName(lines[j])] == Size(NonLabels(lines[..j]))
  {
    var prefix := lines[..|lines| - 1];
    if j == |lines| - 1 {
      Pass1Shape(prefix);
    } else {
      assert prefix[j] == lines[j] && prefix[..j] == lines[..j];
      LabelAddress(prefix, j);
    }
  }

  /** Outside `PUSH_STR`, every operand becomes exactly two bytes. */
  lemma {:induction false} OperandBytes(instr: string, args: seq<string>, labels: map<string, nat>, s: Slots)
    requires instr != "PUSH_STR"
    ensures |EncodeArgs(instr, args, labels, s).0| == 2 * |args|
  {
    if args != [] {
      OperandBytes(instr, args[..|args| - 1], labels, s);
    }
  }

  lemma NoStringOpcode()
    ensures OpcodeOf("PUSH_STR").None? && OpcodeOf("CALL").None?
  {
    OpcodeKeys();
  }

  /** Every line pass 2 encodes takes the bytes pass 1 reserved for it. */
  lemma {:induction false} EncodedSize(instructions: seq<string>, labels: map<string, nat>, s: Slots)
    requires EncodeLines(instructions, labels, s).failure.None?
    ensures |EncodeLines(instructions, labels, s).bytes| == Size(instructions)
  {
    if instructions != [] {
      var prefix, line := instructions[..|instructions| - 1], instructions[|instructions| - 1];
      EncodedSize(prefix, labels, s);
      NoStringOpcode();
      var p := EncodeLines(prefix, labels, s);
      OperandBytes(Instr(line), Args(line), labels, p.slots);
    }
  }

  /** A successful pass 2 extends the bytes of every prefix of its input. */
  lemma {:induction false} EncodePrefix(instructions: seq<string>, m: nat, labels: map<string, nat>, s: Slots)
    requires m <= |instructions| && EncodeLines(instructions, labels, s).failure.None?
    ensures EncodeLines(instructions[..m], labels, s).failure.None?
    ensures EncodeLines(instructions[..m], labels, s).bytes <= EncodeLines(instructions, labels, s).bytes
    decreases |instructions| - m
  {
    if m < |instructions| {
      var prefix := instructions[..|instructions| - 1];
      assert prefix[..m] == instructions[..m];
      EncodePrefix(prefix, m, labels, s);
    } else {
      assert instructions[..m] == instructions;
    }
  }

  lemma {:induction false} NonLabelsPrefix(lines: seq<string>, j: nat)
    requires j <= |lines|
    ensures NonLabels(lines[..j]) <= NonLabels(lines)
    decreases |lines| - j
  {
    if j < |lines| {
      var prefix := lines[..|lines| - 1];
      assert prefix[..j] == lines[..j];
      NonLabelsPrefix(prefix, j);
    } else {
      assert lines[..j] == lines;
    }
  }

  /**
   * When assembly succeeds, every label's recorded address is the offset in
   * the bytecode where the encoding of the instruction after it begins.
   */
  lemma LabelPointsAtInstruction(lines: seq<string>, j: nat, s: Slots)
    requires j < |lines| && IsLabelLine(lines[j])
    requires forall m :: j < m < |lines| && IsLabelLine(lines[m]) ==> LabelName(lines[m]) != LabelName(lines[j])
    requires Assembled(lines, s).failure.None?
    ensures var instructions, labels := Pass1(lines).instructions, Pass1(lines).labels;
            var m := |NonLabels(lines[..j])|;
            && m <= |instructions|
            && EncodeLines(instructions[..m], labels, s).failure.None?
            && LabelName(lines[j]) in labels
            && labels[LabelName(lines[j])] == |EncodeLines(instructions[..m], labels, s).bytes|
            && EncodeLines(instructions[..m], labels, s).bytes <= Assembled(lines, s).bytes
  {
    var instructions, labels := Pass1(lines).instructions, Pass1(lines).labels;
    Pass1Shape(lines);
    LabelAddress(lines, j);
    NonLabelsPrefix(lines, j);
    var m := |NonLabels(lines[..j])|;
    assert instructions[..m] == NonLabels(lines[..j]);
    EncodePrefix(instructions, m, labels, s);
    EncodedSize(instructions[..m], labels, s);
  }

  /** Pass 2 has thrown after a line exactly when it had before, or the line's mnemonic has no byte. */
  lemma FailureStep(instructions: seq<string>, labels: map<string, nat>, s: Slots)
    requires instructions != []
    ensures EncodeLines(instructions, labels, s).failure.Some? <==>
              EncodeLines(instructions[..|instructions| - 1], labels, s).failure.Some?
              || Instr(instructions[|instructions| - 1]) !in OPCODES
  {
  }

  /** A line whose mnemonic has no byte makes pass 2 throw. */
  lemma UnknownThrowsAt(instructions: seq<string>, i: nat, labels: map<string, nat>, s: Slots)
    requires i < |instructions| && Instr(instructions[i]) !in OPCODES
    ensures EncodeLines(instructions, labels, s).failure.Some?
  {
    var upto := instructions[..i + 1];
    assert upto[..i] == instructions[..i] && upto[i] == instructions[i];
    FailureStep(upto, labels, s);
    FailureSticks(instructions, i + 1, labels, s);
  }

  /** Pass 2 does not throw when every mnemonic has a byte. */
  lemma {:induction false} AllKnownNoFailure(instructions: seq<string>, labels: map<string, nat>, s: Slots)
    requires forall i :: 0 <= i < |instructions| ==> Instr(instructions[i]) in OPCODES
    ensures EncodeLines(instructions, labels, s).failure.None?
  {
    if instructions != [] {
      var prefix := instructions[..|instructions| - 1];
      assert forall i :: 0 <= i < |prefix| ==> prefix[i] == instructions[i];
      AllKnownNoFailure(prefix, labels, s);
      FailureStep(instructions, labels, s);
    }
  }

  /** Pass 2 throws exactly when some instruction's mnemonic has no byte. */
  lemma UnknownInstructionThrows(instructions: seq<string>, labels: map<string, nat>, s: Slots)
    ensures EncodeLines(instructions, labels, s).failure.Some? <==>
              exists i :: 0 <= i < |instructions| && Instr(instructions[i]) !in OPCODES
  {
    if exists i :: 0 <= i < |instructions| && Instr(instructions[i]) !in OPCODES {
      var i :| 0 <= i < |instructions| && Instr(instructions[i]) !in OPCODES;
      UnknownThrowsAt(instructions, i, labels, s);
    } else {
      AllKnownNoFailure(instructions, labels, s);
    }
  }

  /**
   * The error names the first unknown mnemonic; the bytes and variables are
   * those of the lines before it.
   */
  lemma ThrowsAtFirstUnknown(instructions: seq<string>, i: nat, labels: map<string, nat>, s: Slots)
    requires i < |instructions| && Instr(instructions[i]) !in OPCODES
    requires forall k :: 0 <= k < i ==> Instr(instructions[k]) in OPCODES
    ensures var before := EncodeLines(instructions[..i], labels, s);
            EncodeLines(instructions, labels, s)
            == Encoding(before.bytes, before.slots, Some(UnknownInstruction(Instr(instructions[i]))))
  {
    UnknownInstructionThrows(instructions[..i], labels, s);
    assert instructions[..i + 1][..i] == instructions[..i];
    FailureSticks(instructions, i + 1, labels, s);
  }

  /** `UTF-8(ws.join(" "))` is the words' bytes plus one byte per separating space. */
  lemma {:induction false} JoinedBytes(ws: seq<string>)
    requires |ws| >= 1
    ensures |Utf8(Join(ws))| + 1 == WordBytes(ws) + |ws|
  {
    if |ws| == 1 {
      assert WordBytes(ws) == WordBytes([]) + |Utf8(ws[0])| by {
        assert ws[..0] == [];
      }
    } else {
      JoinedBytes(ws[1..]);
      Utf8Append(ws[0] + " ", Join(ws[1..]));
      Utf8Append(ws[0], " ");
      assert Utf8(" ") == [32];
      WordBytesCons(ws);
    }
  }

  /** Total UTF-8 length of some words. */
  function WordBytes(ws: seq<string>): nat {
    if ws == [] then 0 else WordBytes(ws[..|ws| - 1]) + |Utf8(ws[|ws| - 1])|
  }

  lemma {:induction false} WordBytesCons(ws: seq<string>)
    requires |ws| >= 1
    ensures WordBytes(ws) == |Utf8(ws[0])| + WordBytes(ws[1..])
  {
    if |ws| > 1 {
      var prefix := ws[..|ws| - 1];
      WordBytesCons(prefix);
      assert prefix[1..] == ws[1..][..|ws[1..]| - 1];
    } else {
      assert ws[..0] == [] && ws[1..] == [];
    }
  }

  lemma {:induction false} StringOperandBytes(args: seq<string>, labels: map<string, nat>, s: Slots)
    ensures |EncodeArgs("PUSH_STR", args, labels, s).0| == 2 * |args| + WordBytes(args)
  {
    if args != [] {
      StringOperandBytes(args[..|args| - 1], labels, s);
    }
  }

  /**
   * The two passes disagree on `PUSH_STR`: pass 1 reserves one length field for
   * the joined text, pass 2 writes one per space-separated word, so the encoding
   * is longer by the number of spaces (and shorter by two with no operand).
   */
  lemma PushStrSizes(line: string, labels: map<string, nat>, s: Slots)
    requires Instr(line) == "PUSH_STR"
    ensures var encoded := 1 + |EncodeArgs("PUSH_STR", Args(line), labels, s).0|;
            if Args(line) == [] then encoded + 2 == LineSize(line)
            else encoded == LineSize(line) + |Args(line)| - 1
  {
    StringOperandBytes(Args(line), labels, s);
    if Args(line) != [] {
      JoinedBytes(Args(line));
    }
  }
}
