/**
 * The Go program's state and its loops: the globals `labels` and `registers`,
 * the object file `binary.obj` (here a sequence of the strings written to
 * it), one method per function of main.go, and `parseFileContent` with its
 * two loops. Every method is proved to do what the functions of `Encoders`
 * and `Assembler` describe.
 */
module Driver {
  import opened Options
  import opened Seqs
  import opened GoStrings
  import opened Numerals
  import opened Tables
  import opened Bindings
  import opened Encoders
  import opened Assembler

  /** `strings.Contains(line, k)` for some key `k`: the `for ... range` over a
      keyword table followed by `break` at the first key found. */
  method AnyKeyIn(line: string, keys: seq<string>) returns (found: bool)
    ensures found == ContainsAny(line, keys)
  {
    for i := 0 to |keys|
      invariant forall j :: 0 <= j < i ==> !Contains(line, keys[j])
    {
      if Contains(line, keys[i]) {
        return true;
      }
    }
    return false;
  }

  class Session {
    var labels: seq<Binding>
    var registers: seq<Binding>
    /** The strings this run appends to `binary.obj`, in order; whatever the
        file held before the run is not modelled. */
    var out: seq<string>

    /** The state at program start: no labels, no registers, and nothing
        appended yet. */
    constructor()
      ensures labels == [] && registers == [] && out == []
    {
      labels, registers, out := [], [], [];
    }

    /** `createBinaryFile`: append one string to the object file. */
    method CreateBinaryFile(binary: string)
      modifies this
      ensures out == old(out) + [binary]
      ensures labels == old(labels) && registers == old(registers)
    {
      out := out + [binary];
    }

    /** `checkIfLabel`: the loop over the label maps, returning the first
        value bound to `name`, or "". */
    method LookupLabel(name: string) returns (v: string)
      ensures v == CheckIfLabel(labels, name)
    {
      for i := 0 to |labels|
        invariant Lookup(labels[i..], name) == Lookup(labels, name)
      {
        LookupSkip(labels, name, i);
        if labels[i].name == name {
          return labels[i].value;
        }
      }
      return "";
    }

    /** `findRegisterBinary`: the first value bound to `name`, or "0000". */
    method LookupRegister(name: string) returns (bin: string)
      ensures bin == FindRegisterBinary(registers, name)
    {
      for i := 0 to |registers|
        invariant Lookup(registers[i..], name) == Lookup(registers, name)
      {
        LookupSkip(registers, name, i);
        if registers[i].name == name {
          return registers[i].value;
        }
      }
      return "0000";
    }

    /** `parseBranch`. */
    method ParseBranch(line: string, ins: string)
      requires |ins| >= 1
      modifies this
      ensures out == old(out) + [BranchWord(ins)]
      ensures labels == old(labels) && registers == old(registers)
    {
      var cond := ins[1..];
      var idx := 0;
      for i := 0 to |Conditions|
        invariant idx == 0 && forall j :: 0 <= j < i ==> Conditions[j] != cond
      {
        if Conditions[i] == cond {
          idx := ScanConditions(cond);
          break;
        }
      }
      var condBin := FormatBinPadded(idx, 4);
      var binary := condBin + "1010";
      CreateBinaryFile(binary);
    }

    /** `parseBranchWithLink`. */
    method ParseBranchWithLink(line: string, ins: string)
      requires |ins| >= 1
      modifies this
      ensures out == old(out) + [BranchWithLinkWord(ins)]
      ensures labels == old(labels) && registers == old(registers)
    {
      var cond := ins[1..];
      var idx := ScanConditions(cond);
      var condBin := FormatBinPadded(idx, 4);
      var binary := condBin + "1011";
      CreateBinaryFile(binary);
    }

    /** `parseBranchAndExchange`. */
    method ParseBranchAndExchange(line: string, ins: string)
      requires |ins| >= 2
      modifies this
      ensures out == old(out) + BranchExchangeWord(line, ins, registers).ToSeq()
      ensures labels == old(labels) && registers == old(registers)
    {
      var cond := ins[2..];
      var trimmed := TrimSpace(line);
      var parts := Fields(trimmed);
      if |parts| < 2 {
        return;
      }
      var reg := parts[1];
      var idx := ScanConditions(cond);
      var condBin := FormatBinPadded(idx, 4);
      var regBin := LookupRegister(reg);
      var binary := condBin + "000100101111111111110001" + regBin;
      CreateBinaryFile(binary);
    }

    /** `parseSWP`. */
    method ParseSWP(line: string)
      modifies this
      ensures out == old(out) + SwapWord(line, registers).ToSeq()
      ensures labels == old(labels) && registers == old(registers)
    {
      var trimmed := TrimSpace(line);
      var parts := FieldsFunc(trimmed, IsSpaceOrComma);
      if |parts| < 4 {
        return;
      }
      var destRegBin := LookupRegister(parts[1]);
      var sourceRegBin := LookupRegister(parts[2]);
      var baseRegBin := LookupRegister(parts[3]);
      var binary := "000000010000" + baseRegBin + destRegBin + "00001001" + sourceRegBin;
      CreateBinaryFile(binary);
    }

    /** `parseSWI`. */
    method ParseSWI(line: string)
      modifies this
      ensures out == old(out) + SwiWord(line).ToSeq()
      ensures labels == old(labels) && registers == old(registers)
    {
      var trimmed := TrimSpace(line);
      var parts := Fields(trimmed);
      if |parts| < 2 {
        return;
      }
      var val := TrimPrefix(parts[1], "&");
      val := ToLower(val);
      var hexVal := ParseUintHex32(val);
      if hexVal.None? {
        return;
      }
      var valBin := FormatBinPadded(hexVal.value, 24);
      var binary := "0000" + "1111" + valBin;
      CreateBinaryFile(binary);
    }

    /** `parseSDT`: writes the transfer's word and appends its binding. */
    method ParseSDT(line: string)
      modifies this
      ensures var t := TransferEffect(line, old(labels), old(registers));
              registers == old(registers) + BindingOf(t) && out == old(out) + WordOfTransfer(t)
      ensures labels == old(labels)
    {
      var trimmed := TrimSpace(line);
      var parts := Fields(trimmed);
      if |parts| < 3 {
        return;
      }
      var sdt := parts[0];
      if sdt == "LDR" {
        var sourceReg := TrimSuffix(parts[1], ",");
        var baseReg := parts[2];
        var newBaseReg := LookupLabel(baseReg);
        var hexVal := TrimPrefix(newBaseReg, "&");
        hexVal := ToLower(hexVal);
        var intVal := ParseUintHex32(hexVal);
        if intVal.Some? {
          var newBaseRegBin := FormatBin(intVal.value);
          var binary := "0000" + "01" + "0" + "0" + "0" + "1" + newBaseRegBin + "00000000";
          CreateBinaryFile(binary);
          registers := registers + [Binding(sourceReg, newBaseRegBin)];
        }
      } else {
        var sourceReg := TrimSuffix(parts[1], ",");
        var baseReg := parts[2];
        var sourceRegBinary := LookupRegister(sourceReg);
        registers := registers + [Binding(baseReg, sourceRegBinary)];
        var binary := "0000010001" + sourceRegBinary + "00000000";
        CreateBinaryFile(binary);
      }
    }

    /** `parseDPI`; `panicked` is the run-time error of reading `parts[2]`
        on a line of exactly two words. */
    method ParseDPI(line: string) returns (panicked: bool)
      modifies this
      ensures panicked <==> DpiWord(line, old(registers)).IndexPanic?
      ensures out == old(out) + WordOf(DpiWord(line, old(registers)))
      ensures labels == old(labels) && registers == old(registers)
    {
      var trimmed := TrimSpace(line);
      var parts := Fields(trimmed);
      if |parts| < 2 {
        return false;
      }
      var opcode := parts[0];
      var opcodeBin := OpcodeField(opcode);
      var destReg, operandReg;
      if |parts| > 3 {
        destReg := TrimSuffix(parts[2], ",");
        operandReg := TrimSuffix(parts[3], ",");
      } else {
        if |parts| < 3 {
          return true;
        }
        operandReg := TrimSuffix(parts[2], ",");
        destReg := "";
      }
      var destRegBin := LookupRegister(destReg);
      var operandRegBin := LookupRegister(operandReg);
      var binary := "0000" + "00" + "0" + opcodeBin + "1" + operandRegBin + destRegBin;
      CreateBinaryFile(binary);
      return false;
    }

    /** `parseLabel`. */
    method ParseLabel(line: string)
      modifies this
      ensures labels == old(labels) + LabelEntry(line).ToSeq()
      ensures registers == old(registers) && out == old(out)
    {
      var trimmed := TrimSpace(line);
      var parts := Fields(trimmed);
      if |parts| < 3 {
        return;
      }
      var labelName := parts[0];
      var value := parts[2];
      labels := labels + [Binding(labelName, value)];
    }

    /** The body of the second loop of `parseFileContent` for one line;
        `completed` is false when the line stopped the program. */
    method ParseLine(raw: string) returns (completed: bool)
      modifies this
      ensures Run(registers, out, completed) == EncodeLine(labels, old(registers), old(out), raw)
      ensures labels == old(labels)
    {
      var line := raw;
      var idx := IndexOf(line, ';');
      if idx != -1 {
        line := line[..idx];
      }
      line := TrimSpace(line);
      assert line == CleanLine(raw);
      if line == "" {
        return true;
      }
      ParseBranches(line);
      completed := ParseFamilies(line);
    }

    /** The branch loop of the second pass, over the 14 conditions. */
    method ParseBranches(line: string)
      modifies this
      ensures out == old(out) + BranchPieces(line, old(registers), |Conditions|)
      ensures labels == old(labels) && registers == old(registers)
    {
      for i := 0 to |Conditions|
        invariant out == old(out) + BranchPieces(line, registers, i)
        invariant labels == old(labels) && registers == old(registers)
      {
        ConcatAssoc(old(out), BranchPieces(line, registers, i), BranchPiece(line, registers, Conditions[i]));
        ParseBranchChecks(line, Conditions[i]);
      }
    }

    /** One iteration of the branch loop: B, BL or BX with condition `c`,
        whichever occurs first in that order; the `continue` after each
        encoder ends the iteration, here a `return`. */
    method ParseBranchChecks(line: string, c: string)
      modifies this
      ensures out == old(out) + BranchPiece(line, old(registers), c)
      ensures labels == old(labels) && registers == old(registers)
    {
      var ins := "B" + c;
      if Contains(line, ins) {
        ParseBranch(line, ins);
        return;
      }
      ins := "BL" + c;
      if Contains(line, ins) {
        ParseBranchWithLink(line, ins);
        return;
      }
      ins := "BX" + c;
      if Contains(line, ins) {
        ParseBranchAndExchange(line, ins);
        return;
      }
    }

    /** The data-processing check: `parseDPI` when an opcode occurs. */
    method CheckDPI(line: string) returns (panicked: bool)
      modifies this
      ensures panicked <==> DpiStep(line, old(registers)).IndexPanic?
      ensures out == old(out) + WordOf(DpiStep(line, old(registers)))
      ensures labels == old(labels) && registers == old(registers)
    {
      panicked := false;
      var found := AnyKeyIn(line, Opcodes);
      if found {
        panicked := ParseDPI(line);
      }
    }

    /** The data-transfer check: `parseSDT` when LDR or STR occurs. */
    method CheckSDT(line: string)
      modifies this
      ensures var t := TransferStep(line, old(labels), old(registers));
              registers == old(registers) + BindingOf(t) && out == old(out) + WordOfTransfer(t)
      ensures labels == old(labels)
    {
      var found := AnyKeyIn(line, TransferMnemonics);
      if found {
        ParseSDT(line);
      }
    }

    /** The interrupt check: `parseSWI` when SWI or SVC occurs. */
    method CheckSWI(line: string)
      modifies this
      ensures out == old(out) + InterruptStep(line)
      ensures labels == old(labels) && registers == old(registers)
    {
      var found := AnyKeyIn(line, InterruptMnemonics);
      if found {
        ParseSWI(line);
      }
    }

    /** The swap check: `parseSWP` when SWP occurs. */
    method CheckSWP(line: string)
      modifies this
      ensures out == old(out) + SwapStep(line, old(registers))
      ensures labels == old(labels) && registers == old(registers)
    {
      if Contains(line, "SWP") {
        ParseSWP(line);
      }
    }

    /** The checks of the second pass after the branch loop. */
    method ParseFamilies(line: string) returns (completed: bool)
      modifies this
      ensures Run(registers, out, completed) == FamilySteps(labels, old(registers), old(out), line)
      ensures labels == old(labels)
    {
      var panicked := CheckDPI(line);
      if panicked {
        return false;
      }
      CheckSDT(line);
      CheckSWI(line);
      CheckSWP(line);
      return true;
    }

    /** `parseFileContent`: pass 1 collects every label of the file, then
        pass 2 encodes the lines in order until one stops the program. */
    method ParseFileContent(lines: seq<string>) returns (completed: bool)
      modifies this
      ensures labels == old(labels) + LabelPass(lines)
      ensures Run(registers, out, completed) == EncodePass(labels, Run(old(registers), old(out), true), lines)
    {
      CollectLabels(lines);
      completed := EncodeLines(lines);
    }

    /** The first loop of `parseFileContent`. */
    method CollectLabels(lines: seq<string>)
      modifies this
      ensures labels == old(labels) + LabelPass(lines)
      ensures registers == old(registers) && out == old(out)
    {
      for k := 0 to |lines|
        invariant labels + LabelPass(lines[k..]) == old(labels) + LabelPass(lines)
        invariant registers == old(registers) && out == old(out)
      {
        LabelPassStep(lines, k);
        ghost var before := labels;
        var line := lines[k];
        var idx := IndexOf(line, ';');
        if idx != -1 {
          line := line[..idx];
        }
        assert line == StripComment(lines[k]);
        if Contains(line, "DCW") || Contains(line, "DCD") {
          ParseLabel(line);
        }
        assert labels == before + LabelsOfLine(lines[k]);
        ConcatAssoc(before, LabelsOfLine(lines[k]), LabelPass(lines[k + 1..]));
      }
      assert lines[|lines|..] == [];
    }

    /** The second loop of `parseFileContent`. */
    method EncodeLines(lines: seq<string>) returns (completed: bool)
      modifies this
      ensures labels == old(labels)
      ensures Run(registers, out, completed) == EncodePass(labels, Run(old(registers), old(out), true), lines)
    {
      for k := 0 to |lines|
        invariant labels == old(labels)
        invariant EncodePass(labels, Run(registers, out, true), lines[k..])
                    == EncodePass(labels, Run(old(registers), old(out), true), lines)
      {
        EncodePassStep(labels, Run(registers, out, true), lines, k);
        var ok := ParseLine(lines[k]);
        if !ok {
          return false;
        }
      }
      assert lines[|lines|..] == [];
      return true;
    }
  }

  /** The assembler on the lines of a file: a fresh session, then
      `parseFileContent`; the words written and whether it ran to the end
      are those of `Assemble`. */
  method AssembleFile(lines: seq<string>) returns (words: seq<string>, completed: bool)
    ensures words == Assemble(lines).out && completed == Assemble(lines).completed
  {
    var s := new Session();
    completed := s.ParseFileContent(lines);
    assert s.labels == LabelPass(lines);
    words := s.out;
  }
}
