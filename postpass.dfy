/**
 * `postProcessAssembly`: inside a function body (from a `LABEL_<letter>...`
 * line up to a `RET`/`RETURN` line) every `LOAD` line is deleted.
 */
module PostPass {
  import opened Strings

  predicate IsAsciiLetter(c: char) {
    'a' <= c <= 'z' || 'A' <= c <= 'Z'
  }

  /** The line matches `/^LABEL_[a-zA-Z]/`: a function's entry label. */
  predicate OpensFunction(line: string) {
    |line| > 6 && line[..6] == "LABEL_" && IsAsciiLetter(line[6])
  }

  predicate ClosesFunction(line: string) {
    line == "RET" || line == "RETURN"
  }

  predicate IsLoad(line: string) {
    StartsWith(line, "LOAD ")
  }

  /** The `inFunction` flag after one more line. */
  function NextFlag(inFunction: bool, line: string): bool {
    if OpensFunction(line) then true
    else if inFunction && IsLoad(line) then inFunction
    else if inFunction && ClosesFunction(line) then false
    else inFunction
  }

  /** Whether the loop skips `line` when the flag is `inFunction`. */
  predicate Dropped(inFunction: bool, line: string) {
    !OpensFunction(line) && inFunction && IsLoad(line)
  }

  /** The flag after the loop has seen `lines`. */
  function InFunction(lines: seq<string>): bool {
    if lines == [] then false else NextFlag(InFunction(lines[..|lines| - 1]), lines[|lines| - 1])
  }

  /** What the loop has pushed after seeing `lines`. */
  function PostProcess(lines: seq<string>): seq<string> {
    if lines == [] then []
    else
      var prefix, line := lines[..|lines| - 1], lines[|lines| - 1];
      PostProcess(prefix) + if Dropped(InFunction(prefix), line) then [] else [line]
  }

  lemma Snoc(prefix: seq<string>, line: string)
    ensures InFunction(prefix + [line]) == NextFlag(InFunction(prefix), line)
    ensures PostProcess(prefix + [line])
            == PostProcess(prefix) + if Dropped(InFunction(prefix), line) then [] else [line]
  {
    assert (prefix + [line])[..|prefix|] == prefix;
  }

  method PostProcessAssembly(assembly: seq<string>) returns (result: seq<string>)
    ensures result == PostProcess(assembly)
  {
    result := [];
    var inFunction := false;
    for i := 0 to |assembly|
      invariant result == PostProcess(assembly[..i])
      invariant inFunction == InFunction(assembly[..i])
    {
      var line := assembly[i];
      assert assembly[..i + 1][..i] == assembly[..i];
      if OpensFunction(line) {
        inFunction := true;
        result := result + [line];
        continue;
      }
      if inFunction && IsLoad(line) {
        continue;
      }
      if inFunction && ClosesFunction(line) {
        result := result + [line];
        inFunction := false;
        continue;
      }
      result := result + [line];
    }
    assert assembly[..|assembly|] == assembly;
  }

  lemma LoadNeitherOpensNorCloses(line: string)
    requires IsLoad(line)
    ensures !OpensFunction(line) && !ClosesFunction(line)
  {
    assert line[..5] == "LOAD ";
    assert line[0] == 'L' && line[1] == 'O';
  }

  /**
   * The flag is set exactly when some entry label has been seen with no
   * `RET`/`RETURN` line after it.
   */
  lemma {:induction false} InFunctionMeaning(lines: seq<string>)
    ensures InFunction(lines) <==>
              exists j :: 0 <= j < |lines| && OpensFunction(lines[j])
                          && forall m :: j < m < |lines| ==> !ClosesFunction(lines[m])
  {
    if lines != [] {
      var prefix, line := lines[..|lines| - 1], lines[|lines| - 1];
      InFunctionMeaning(prefix);
      if OpensFunction(line) {
        assert OpensFunction(lines[|lines| - 1]);
      } else if InFunction(lines) {
        if IsLoad(line) {
          LoadNeitherOpensNorCloses(line);
        }
        assert InFunction(prefix) && !ClosesFunction(line);
        var j :| 0 <= j < |prefix| && OpensFunction(prefix[j])
                 && forall m :: j < m < |prefix| ==> !ClosesFunction(prefix[m]);
        assert OpensFunction(lines[j]);
        forall m | j < m < |lines| ensures !ClosesFunction(lines[m]) {
          if m < |prefix| {
            assert lines[m] == prefix[m];
          }
        }
      } else {
        forall j | 0 <= j < |lines| && OpensFunction(lines[j])
          ensures exists m :: j < m < |lines| && ClosesFunction(lines[m])
        {
          if j == |lines| - 1 {
            assert false;
          } else if ClosesFunction(line) && InFunction(prefix) {
            assert ClosesFunction(lines[|lines| - 1]);
          } else {
            assert !InFunction(prefix);
            assert prefix[j] == lines[j];
            var m :| j < m < |prefix| && ClosesFunction(prefix[m]);
            assert lines[m] == prefix[m];
          }
        }
      }
    }
  }

  /** The deleted lines are `LOAD`s, which never move the flag. */
  lemma {:induction false} FlagSurvives(lines: seq<string>)
    ensures InFunction(PostProcess(lines)) == InFunction(lines)
  {
    if lines != [] {
      var prefix, line := lines[..|lines| - 1], lines[|lines| - 1];
      FlagSurvives(prefix);
      assert lines == prefix + [line];
      Snoc(prefix, line);
      if Dropped(InFunction(prefix), line) {
        LoadNeitherOpensNorCloses(line);
        assert PostProcess(lines) == PostProcess(prefix) + [];
        assert PostProcess(lines) == PostProcess(prefix);
        assert InFunction(lines) == InFunction(prefix);
      } else {
        Snoc(PostProcess(prefix), line);
      }
    }
  }

  /** Running the pass on its own output deletes nothing more. */
  lemma {:induction false} PostProcessIdempotent(lines: seq<string>)
    ensures PostProcess(PostProcess(lines)) == PostProcess(lines)
  {
    if lines != [] {
      var prefix, line := lines[..|lines| - 1], lines[|lines| - 1];
      PostProcessIdempotent(prefix);
      FlagSurvives(prefix);
      assert lines == prefix + [line];
      Snoc(prefix, line);
      if !Dropped(InFunction(prefix), line) {
        Snoc(PostProcess(prefix), line);
      } else {
        assert PostProcess(lines) == PostProcess(prefix) + [];
        assert PostProcess(lines) == PostProcess(prefix);
      }
    }
  }

  /** The lines that are not `LOAD`s. */
  function NonLoads(lines: seq<string>): seq<string> {
    if lines == [] then []
    else NonLoads(lines[..|lines| - 1]) + if IsLoad(lines[|lines| - 1]) then [] else [lines[|lines| - 1]]
  }

  lemma {:induction false} NonLoadsAppend(a: seq<string>, line: string)
    ensures NonLoads(a + [line]) == NonLoads(a) + if IsLoad(line) then [] else [line]
  {
    assert (a + [line])[..|a + [line]| - 1] == a;
  }

  /** Every line that is not a `LOAD` survives, in order. */
  lemma {:induction false} NonLoadsKept(lines: seq<string>)
    ensures NonLoads(PostProcess(lines)) == NonLoads(lines)
  {
    if lines != [] {
      var prefix, line := lines[..|lines| - 1], lines[|lines| - 1];
      NonLoadsKept(prefix);
      assert lines == prefix + [line];
      Snoc(prefix, line);
      NonLoadsAppend(prefix, line);
      if !Dropped(InFunction(prefix), line) {
        NonLoadsAppend(PostProcess(prefix), line);
      } else {
        assert PostProcess(lines) == PostProcess(prefix) + [];
        assert PostProcess(lines) == PostProcess(prefix);
        LoadNeitherOpensNorCloses(line);
        assert NonLoads(lines) == NonLoads(prefix) + [];
        assert NonLoads(lines) == NonLoads(prefix);
      }
    }
  }

  /** No `LOAD` line comes while the flag is set. */
  predicate NoLoadInside(lines: seq<string>) {
    forall i :: 0 <= i < |lines| && IsLoad(lines[i]) ==> !InFunction(lines[..i])
  }

  lemma NoLoadInsidePrefix(lines: seq<string>)
    requires lines != [] && NoLoadInside(lines)
    ensures NoLoadInside(lines[..|lines| - 1])
  {
    var prefix := lines[..|lines| - 1];
    forall i | 0 <= i < |prefix| && IsLoad(prefix[i]) ensures !InFunction(prefix[..i]) {
      assert lines[i] == prefix[i] && lines[..i] == prefix[..i];
    }
  }

  lemma {:induction false} UnchangedOnlyIfNoLoadInside(lines: seq<string>)
    requires PostProcess(lines) == lines
    ensures NoLoadInside(lines)
  {
    if lines != [] {
      var prefix, line := lines[..|lines| - 1], lines[|lines| - 1];
      LengthBound(prefix);
      if Dropped(InFunction(prefix), line) {
        assert false;
      }
      assert PostProcess(prefix) == prefix by {
        assert PostProcess(lines)[..|prefix|] == PostProcess(prefix);
      }
      UnchangedOnlyIfNoLoadInside(prefix);
      forall i | 0 <= i < |lines| && IsLoad(lines[i]) ensures !InFunction(lines[..i]) {
        if i < |prefix| {
          assert lines[i] == prefix[i] && lines[..i] == prefix[..i];
        } else {
          LoadNeitherOpensNorCloses(line);
          assert lines[..i] == prefix;
        }
      }
    }
  }

  lemma {:induction false} NoLoadInsideUnchanged(lines: seq<string>)
    requires NoLoadInside(lines)
    ensures PostProcess(lines) == lines
  {
    if lines != [] {
      var prefix, line := lines[..|lines| - 1], lines[|lines| - 1];
      NoLoadInsidePrefix(lines);
      NoLoadInsideUnchanged(prefix);
      assert IsLoad(lines[|lines| - 1]) ==> !InFunction(lines[..|lines| - 1]);
      assert !Dropped(InFunction(prefix), line);
      assert lines == prefix + [line];
      Snoc(prefix, line);
    }
  }

  /** The pass changes nothing exactly when no `LOAD` line sits inside a function body. */
  lemma UnchangedIffNoLoadInside(lines: seq<string>)
    ensures PostProcess(lines) == lines <==> NoLoadInside(lines)
  {
    if PostProcess(lines) == lines {
      UnchangedOnlyIfNoLoadInside(lines);
    }
    if NoLoadInside(lines) {
      NoLoadInsideUnchanged(lines);
    }
  }

  lemma {:induction false} LengthBound(lines: seq<string>)
    ensures |PostProcess(lines)| <= |lines|
  {
    if lines != [] {
      LengthBound(lines[..|lines| - 1]);
    }
  }
}
