/**
 * The family encoders of main.go. Each Go function trims the line, splits it
 * into words and builds a 0/1 string from them; here each family has a
 * function of the line (the split, and the syntax-error case in which the Go
 * function prints a message and emits nothing) and a function of the words
 * (the string handed to `createBinaryFile`). The lemmas after each encoder
 * say where each field lands in that string.
 */
module Encoders {
  import opened Options
  import opened GoStrings
  import opened Numerals
  import opened Tables
  import opened Bindings

  // ---------------------------------------------------------------------------
  // B and BL

  /** `parseBranch`: the condition is what follows the "B" of the matched
      mnemonic; only the condition code and "1010" are emitted. */
  function BranchWord(ins: string): string
    requires |ins| >= 1
  {
    var cond := ins[1..];
    var idx := if cond in Conditions then FindConditionIndex(cond) else 0;
    FormatBinPadded(idx, 4) + "1010"
  }

  /** The branch matched for condition `i` emits `i` as 4 bits followed by
      "1010": 8 characters, with no link bit and no offset. */
  lemma BranchEncodesCondition(i: nat)
    requires i < |Conditions|
    ensures |BranchWord("B" + Conditions[i])| == 8
    ensures BranchWord("B" + Conditions[i]) == FormatBinPadded(i, 4) + "1010"
    ensures BitsValue(BranchWord("B" + Conditions[i])[..4]) == i
  {
    assert ("B" + Conditions[i])[1..] == Conditions[i];
    FindConditionIndexOfEntry(i);
    ConditionCodeWidth(i);
    assert BranchWord("B" + Conditions[i])[..4] == FormatBinPadded(i, 4);
  }

  lemma BranchWordBits(ins: string)
    requires |ins| >= 1
    ensures IsBits(BranchWord(ins))
  {
    var cond := ins[1..];
    assert IsBits("1010");
    CodeThenBits(if cond in Conditions then FindConditionIndex(cond) else 0, "1010");
  }

  /** A condition code followed by a bit string is a bit string. */
  lemma CodeThenBits(idx: nat, tail: string)
    requires IsBits(tail)
    ensures IsBits(FormatBinPadded(idx, 4) + tail)
  {
    BitsConcat(FormatBinPadded(idx, 4), tail);
  }

  /** `parseBranchWithLink`: like `parseBranch`, but with "1011". */
  function BranchWithLinkWord(ins: string): string
    requires |ins| >= 1
  {
    var cond := ins[1..];
    FormatBinPadded(FindConditionIndex(cond), 4) + "1011"
  }

  /** The condition of a BL is looked up with its "L" still attached, which
      no table entry matches, so every BL emits the same 8 characters. */
  lemma BranchWithLinkDropsCondition(i: nat)
    requires i < |Conditions|
    ensures BranchWithLinkWord("BL" + Conditions[i]) == "00001011"
  {
    var cond := ("BL" + Conditions[i])[1..];
    assert |cond| == 3;
    assert forall j :: 0 <= j < |Conditions| ==> |Conditions[j]| == 2;
    assert cond !in Conditions;
    assert FormatBinPadded(0, 4) == "0000";
  }

  lemma BranchWithLinkWordBits(ins: string)
    requires |ins| >= 1
    ensures IsBits(BranchWithLinkWord(ins))
  {
    assert IsBits("1011");
    CodeThenBits(FindConditionIndex(ins[1..]), "1011");
  }

  // ---------------------------------------------------------------------------
  // BX

  /** The BX word for a condition suffix and a register word. */
  function ExchangeBits(cond: string, reg: string, registers: seq<Binding>): string {
    var idx := FindConditionIndex(cond);
    FormatBinPadded(idx, 4) + "000100101111111111110001" + FindRegisterBinary(registers, reg)
  }

  /** `parseBranchAndExchange`: the condition is what follows "BX"; the
      register is the second word, and without one nothing is emitted. */
  function BranchExchangeWord(line: string, ins: string, registers: seq<Binding>): Option<string>
    requires |ins| >= 2
  {
    var cond := ins[2..];
    var parts := Fields(TrimSpace(line));
    if |parts| < 2 then None else Some(ExchangeBits(cond, parts[1], registers))
  }

  /** BX emits exactly when the line has a second word, which names Rm. */
  lemma BranchExchangeOfLine(line: string, ins: string, registers: seq<Binding>)
    requires |ins| >= 2
    ensures BranchExchangeWord(line, ins, registers).None? <==> |Fields(line)| < 2
    ensures |Fields(line)| >= 2 ==>
              BranchExchangeWord(line, ins, registers) == Some(ExchangeBits(ins[2..], Fields(line)[1], registers))
  {
    FieldsOfTrimSpace(line);
  }

  /** BX for condition `i`: the condition code `i` in the first 4 bits, the
      fixed pattern, and Rm in the last field; 32 characters when the
      register resolves to 4 bits. */
  lemma ExchangeLayout(i: nat, reg: string, registers: seq<Binding>)
    requires i < |Conditions|
    ensures var w := ExchangeBits(Conditions[i], reg, registers);
            var rm := FindRegisterBinary(registers, reg);
            |w| == 28 + |rm| && BitsValue(FormatBinPadded(i, 4)) == i
            && w[..4] == FormatBinPadded(i, 4) && w[4..28] == "000100101111111111110001" && w[28..] == rm
  {
    FindConditionIndexOfEntry(i);
    ConditionCodeWidth(i);
    var c := FormatBinPadded(i, 4);
    var rm := FindRegisterBinary(registers, reg);
    var w := ExchangeBits(Conditions[i], reg, registers);
    assert w == c + "000100101111111111110001" + rm;
    assert w[..4] == c;
    assert w[4..28] == "000100101111111111110001";
    assert w[28..] == rm;
  }

  lemma ExchangeBitsAreBits(cond: string, reg: string, registers: seq<Binding>)
    requires BitValues(registers)
    ensures IsBits(ExchangeBits(cond, reg, registers))
  {
    FindRegisterBinaryBits(registers, reg);
    ExchangeFieldsBits(FindConditionIndex(cond), FindRegisterBinary(registers, reg));
  }

  lemma ExchangeFieldsBits(idx: nat, rm: string)
    requires IsBits(rm)
    ensures IsBits(FormatBinPadded(idx, 4) + "000100101111111111110001" + rm)
  {
    assert IsBits("000100101111111111110001");
    BitsConcat3(FormatBinPadded(idx, 4), "000100101111111111110001", rm);
  }

  lemma BranchExchangeWordBits(line: string, ins: string, registers: seq<Binding>)
    requires |ins| >= 2 && BitValues(registers)
    ensures BranchExchangeWord(line, ins, registers).Some? ==> IsBits(BranchExchangeWord(line, ins, registers).value)
  {
    BranchExchangeOfLine(line, ins, registers);
    if |Fields(line)| >= 2 {
      ExchangeBitsAreBits(ins[2..], Fields(line)[1], registers);
    }
  }

  // ---------------------------------------------------------------------------
  // SWP

  /** The SWP word for its words: base, destination, the fixed "00001001",
      then source. */
  function SwapBits(parts: seq<string>, registers: seq<Binding>): string
    requires |parts| >= 4
  {
    var destRegBin := FindRegisterBinary(registers, parts[1]);
    var sourceRegBin := FindRegisterBinary(registers, parts[2]);
    var baseRegBin := FindRegisterBinary(registers, parts[3]);
    "000000010000" + baseRegBin + destRegBin + "00001001" + sourceRegBin
  }

  /** `parseSWP`: the words are split on spaces and commas, and fewer than
      four of them emit nothing. */
  function SwapWord(line: string, registers: seq<Binding>): Option<string> {
    var parts := FieldsFunc(TrimSpace(line), IsSpaceOrComma);
    if |parts| < 4 then None else Some(SwapBits(parts, registers))
  }

  /** SWP: Rn (the fourth word), Rd (the second), the fixed "00001001" and
      Rm (the third) follow "000000010000" at whatever width their lookups
      have; with registers that resolve to 4 bits they sit in characters
      12-15, 16-19 and 28-31 of a 32-character word. */
  lemma SwapLayout(parts: seq<string>, registers: seq<Binding>)
    requires |parts| >= 4
    ensures var w := SwapBits(parts, registers);
            var rd := FindRegisterBinary(registers, parts[1]);
            var rm := FindRegisterBinary(registers, parts[2]);
            var rn := FindRegisterBinary(registers, parts[3]);
            var k := 12 + |rn| + |rd|;
            |w| == k + 8 + |rm| && w[..12] == "000000010000"
            && w[12..12 + |rn|] == rn && w[12 + |rn|..k] == rd
            && w[k..k + 8] == "00001001" && w[k + 8..] == rm
    ensures var w := SwapBits(parts, registers);
            var rd := FindRegisterBinary(registers, parts[1]);
            var rm := FindRegisterBinary(registers, parts[2]);
            var rn := FindRegisterBinary(registers, parts[3]);
            |rn| == 4 && |rd| == 4 && |rm| == 4 ==>
              |w| == 32 && w[..12] == "000000010000"
              && w[12..16] == rn && w[16..20] == rd
              && w[20..28] == "00001001" && w[28..] == rm
  {
    SwapFieldsLayout(FindRegisterBinary(registers, parts[3]), FindRegisterBinary(registers, parts[1]),
                     FindRegisterBinary(registers, parts[2]));
  }

  lemma SwapFieldsLayout(rn: string, rd: string, rm: string)
    ensures var w := "000000010000" + rn + rd + "00001001" + rm;
            var k := 12 + |rn| + |rd|;
            |w| == k + 8 + |rm| && w[..12] == "000000010000"
            && w[12..12 + |rn|] == rn && w[12 + |rn|..k] == rd
            && w[k..k + 8] == "00001001" && w[k + 8..] == rm
  {
    var w := "000000010000" + rn + rd + "00001001" + rm;
    var k := 12 + |rn| + |rd|;
    assert w[..12] == "000000010000";
    assert w[12..12 + |rn|] == rn;
    assert w[12 + |rn|..k] == rd;
    assert w[k..k + 8] == "00001001";
    assert w[k + 8..] == rm;
  }

  lemma SwapBitsAreBits(parts: seq<string>, registers: seq<Binding>)
    requires |parts| >= 4 && BitValues(registers)
    ensures IsBits(SwapBits(parts, registers))
  {
    FindRegisterBinaryBits(registers, parts[1]);
    FindRegisterBinaryBits(registers, parts[2]);
    FindRegisterBinaryBits(registers, parts[3]);
    SwapFieldsBits(FindRegisterBinary(registers, parts[3]), FindRegisterBinary(registers, parts[1]),
                   FindRegisterBinary(registers, parts[2]));
  }

  lemma SwapFieldsBits(rn: string, rd: string, rm: string)
    requires IsBits(rn) && IsBits(rd) && IsBits(rm)
    ensures IsBits("000000010000" + rn + rd + "00001001" + rm)
  {
    assert IsBits("000000010000") && IsBits("00001001");
    BitsConcat5("000000010000", rn, rd, "00001001", rm);
  }

  lemma SwapWordBits(line: string, registers: seq<Binding>)
    requires BitValues(registers)
    ensures SwapWord(line, registers).Some? ==> IsBits(SwapWord(line, registers).value)
  {
    var parts := FieldsFunc(TrimSpace(line), IsSpaceOrComma);
    if |parts| >= 4 {
      SwapBitsAreBits(parts, registers);
    }
  }

  // ---------------------------------------------------------------------------
  // SWI / SVC

  /** The operand of `parseSWI`: the second word without a leading "&",
      lower-cased, read as a 32-bit hexadecimal number. */
  function SwiOperand(line: string): Option<nat> {
    var parts := Fields(TrimSpace(line));
    if |parts| < 2 then None
    else ParseUintHex32(ToLower(TrimPrefix(parts[1], "&")))
  }

  /** The SWI word for an operand value: "0000", "1111", then `%024b`. */
  function SwiBits(v: nat): string {
    "0000" + "1111" + FormatBinPadded(v, 24)
  }

  /** `parseSWI`: nothing for a missing or unreadable operand. */
  function SwiWord(line: string): Option<string> {
    match SwiOperand(line)
    case None => None
    case Some(v) => Some(SwiBits(v))
  }

  /** The operand is missing exactly when the line has fewer than two words,
      and an accepted operand is the hexadecimal value, below 2^32, of the
      second word after the "&" sigil. */
  lemma SwiOperandValue(line: string)
    ensures |Fields(line)| < 2 ==> SwiOperand(line).None?
    ensures |Fields(line)| >= 2 ==>
              var digits := ToLower(TrimPrefix(Fields(line)[1], "&"));
              (SwiOperand(line).Some? <==> digits != [] && IsHexString(digits) && HexValue(digits) < Max32)
              && (SwiOperand(line).Some? ==> SwiOperand(line).value == HexValue(digits))
  {
    FieldsOfTrimSpace(line);
  }

  /** The last part of an SWI word holds the operand's value; it fills
      exactly the 24-bit field when the value is below 2^24 and makes the
      word longer than 32 characters otherwise (nothing checks the range). */
  lemma SwiLayout(v: nat)
    ensures var w := SwiBits(v);
            w[..8] == "00001111" && IsBits(w[8..]) && BitsValue(w[8..]) == v
            && (v < Pow2(24) <==> |w| == 32)
            && (v >= Pow2(24) ==> |w| > 32)
  {
    var f := FormatBinPadded(v, 24);
    var w := SwiBits(v);
    assert w == "00001111" + f;
    assert w[..8] == "00001111" && w[8..] == f;
    FormatBinPaddedWidth(v, 24);
  }

  lemma SwiBitsAreBits(v: nat)
    ensures IsBits(SwiBits(v))
  {
    assert IsBits("0000") && IsBits("1111");
    BitsConcat3("0000", "1111", FormatBinPadded(v, 24));
  }

  lemma SwiWordBits(line: string)
    ensures SwiWord(line).Some? ==> IsBits(SwiWord(line).value)
  {
    if SwiOperand(line).Some? {
      SwiBitsAreBits(SwiOperand(line).value);
    }
  }

  // ---------------------------------------------------------------------------
  // LDR / STR

  /** What a single data transfer does: the word it emits and the register
      binding it appends. */
  datatype Transfer = Transfer(word: string, binding: Binding)

  /** The value an LDR reads through a label: the label's text without "&",
      lower-cased, as a 32-bit hexadecimal number. */
  function LabelValue(labels: seq<Binding>, name: string): Option<nat> {
    var newBaseReg := CheckIfLabel(labels, name);
    ParseUintHex32(ToLower(TrimPrefix(newBaseReg, "&")))
  }

  /** The transfer for the words of a line. A first word "LDR" binds the
      register in the second word to the label value's `%b` digits and
      emits them; any other first word (STR, but also an LDR with a
      condition suffix) binds the third word to the bits of the register
      in the second word and emits those. */
  function TransferOfWords(parts: seq<string>, labels: seq<Binding>, registers: seq<Binding>): Option<Transfer>
    requires |parts| >= 3
  {
    if parts[0] == "LDR" then
      var sourceReg := TrimSuffix(parts[1], ",");
      match LabelValue(labels, parts[2])
      case None => None
      case Some(v) =>
        var newBaseRegBin := FormatBin(v);
        Some(Transfer("0000" + "01" + "0" + "0" + "0" + "1" + newBaseRegBin + "00000000",
                      Binding(sourceReg, newBaseRegBin)))
    else
      var sourceReg := TrimSuffix(parts[1], ",");
      var baseReg := parts[2];
      var sourceRegBinary := FindRegisterBinary(registers, sourceReg);
      Some(Transfer("0000010001" + sourceRegBinary + "00000000", Binding(baseReg, sourceRegBinary)))
  }

  /** `parseSDT`: fewer than three words emit and bind nothing. */
  function TransferEffect(line: string, labels: seq<Binding>, registers: seq<Binding>): Option<Transfer> {
    var parts := Fields(TrimSpace(line));
    if |parts| < 3 then None else TransferOfWords(parts, labels, registers)
  }

  lemma TransferOfLine(line: string, labels: seq<Binding>, registers: seq<Binding>)
    ensures |Fields(line)| < 3 ==> TransferEffect(line, labels, registers).None?
    ensures |Fields(line)| >= 3 ==>
              TransferEffect(line, labels, registers) == TransferOfWords(Fields(line), labels, registers)
  {
    FieldsOfTrimSpace(line);
  }

  /** An LDR emits and binds exactly when its third word names a label whose
      value reads as hexadecimal. The word carries that value's binary digits
      between the fixed prefix and eight zeros, the destination register is
      bound to the same digits, and the register table is not consulted; an
      undefined label therefore emits and binds nothing. */
  lemma LoadEncoding(parts: seq<string>, labels: seq<Binding>, registers: seq<Binding>)
    requires |parts| >= 3 && parts[0] == "LDR"
    ensures var r := TransferOfWords(parts, labels, registers);
            (r.Some? <==> LabelValue(labels, parts[2]).Some?)
            && (!Binds(labels, parts[2]) ==> r.None?)
            && (r.Some? ==>
                  var v := LabelValue(labels, parts[2]).value;
                  var w := r.value.word;
                  |w| == 18 + |FormatBin(v)| && w[..10] == "0000010001"
                  && IsBits(w[10..|w| - 8]) && BitsValue(w[10..|w| - 8]) == v
                  && w[|w| - 8..] == "00000000"
                  && r.value.binding == Binding(TrimSuffix(parts[1], ","), FormatBin(v)))
    ensures forall other: seq<Binding> :: TransferOfWords(parts, labels, other) == TransferOfWords(parts, labels, registers)
  {
    if !Binds(labels, parts[2]) {
      assert CheckIfLabel(labels, parts[2]) == "";
      assert TrimPrefix("", "&") == "";
    }
    var r := TransferOfWords(parts, labels, registers);
    if r.Some? {
      var v := LabelValue(labels, parts[2]).value;
      var w := r.value.word;
      assert w == "0000010001" + FormatBin(v) + "00000000";
      assert w[10..|w| - 8] == FormatBin(v);
    }
  }

  /** Any other transfer emits the source register's bits between the fixed
      prefix and eight zeros and binds the base word, taken as written, to
      those same bits; no label is read. */
  lemma StoreEncoding(parts: seq<string>, labels: seq<Binding>, registers: seq<Binding>)
    requires |parts| >= 3 && parts[0] != "LDR"
    ensures var r := TransferOfWords(parts, labels, registers);
            var bits := FindRegisterBinary(registers, TrimSuffix(parts[1], ","));
            r.Some?
            && (var w := r.value.word;
                |w| == 18 + |bits| && w[..10] == "0000010001"
                && w[10..|w| - 8] == bits && w[|w| - 8..] == "00000000")
            && r.value.binding.name == parts[2] && r.value.binding.value == bits
    ensures forall other: seq<Binding> :: TransferOfWords(parts, other, registers) == TransferOfWords(parts, labels, registers)
  {
    var bits := FindRegisterBinary(registers, TrimSuffix(parts[1], ","));
    var w := TransferOfWords(parts, labels, registers).value.word;
    assert w == "0000010001" + bits + "00000000";
    assert w[10..|w| - 8] == bits;
  }

  /** Register lookups take the first binding, so a store whose base word is
      already bound adds a binding no later lookup of that name sees. */
  lemma StoreToBoundBaseIgnored(parts: seq<string>, labels: seq<Binding>, registers: seq<Binding>)
    requires |parts| >= 3 && parts[0] != "LDR" && Binds(registers, parts[2])
    ensures var t := TransferOfWords(parts, labels, registers);
            t.Some? && FindRegisterBinary(registers + [t.value.binding], parts[2])
                       == FindRegisterBinary(registers, parts[2])
  {
    var t := TransferOfWords(parts, labels, registers);
    LookupAppend(registers, t.value.binding, parts[2]);
  }

  lemma TransferBits(parts: seq<string>, labels: seq<Binding>, registers: seq<Binding>)
    requires |parts| >= 3 && BitValues(registers)
    ensures var t := TransferOfWords(parts, labels, registers);
            t.Some? ==> IsBits(t.value.word) && IsBits(t.value.binding.value)
  {
    if parts[0] == "LDR" {
      var v := LabelValue(labels, parts[2]);
      if v.Some? {
        LoadWordBits(FormatBin(v.value));
      }
    } else {
      FindRegisterBinaryBits(registers, TrimSuffix(parts[1], ","));
      StoreWordBits(FindRegisterBinary(registers, TrimSuffix(parts[1], ",")));
    }
  }

  lemma LoadWordBits(bin: string)
    requires IsBits(bin)
    ensures IsBits("0000" + "01" + "0" + "0" + "0" + "1" + bin + "00000000")
  {
    assert "0000" + "01" + "0" + "0" + "0" + "1" + bin + "00000000" == "0000010001" + bin + "00000000";
    StoreWordBits(bin);
  }

  lemma StoreWordBits(bin: string)
    requires IsBits(bin)
    ensures IsBits("0000010001" + bin + "00000000")
  {
    assert IsBits("0000010001") && IsBits("00000000");
    BitsConcat3("0000010001", bin, "00000000");
  }

  /** Over bit-string registers, a transfer emits a bit string and binds a
      bit string. */
  lemma TransferEffectBits(line: string, labels: seq<Binding>, registers: seq<Binding>)
    requires BitValues(registers)
    ensures var t := TransferEffect(line, labels, registers);
            t.Some? ==> IsBits(t.value.word) && IsBits(t.value.binding.value)
  {
    TransferOfLine(line, labels, registers);
    if |Fields(line)| >= 3 {
      TransferBits(Fields(line), labels, registers);
    }
  }

  // ---------------------------------------------------------------------------
  // Data processing

  /** What `parseDPI` does with a line: nothing, a word, or (exactly two
      words) the out-of-range index `parts[2]` that stops the Go program. */
  datatype DpiResult = NoWord | IndexPanic | Word(bits: string)

  /** The register word a data-processing line names last, and the one in the
      middle (only on lines with four words or more). */
  function DpiOperand(parts: seq<string>): string
    requires |parts| >= 3
  {
    TrimSuffix(parts[if |parts| > 3 then 3 else 2], ",")
  }

  function DpiMiddle(parts: seq<string>): string
    requires |parts| >= 3
  {
    if |parts| > 3 then TrimSuffix(parts[2], ",") else ""
  }

  /** The data-processing word for the words of a line: the opcode field of
      the first word, a "1", then the last operand's register and the middle
      operand's register ("" on a three-word line). The second word is never
      used. */
  function DpiBits(parts: seq<string>, registers: seq<Binding>): string
    requires |parts| >= 3
  {
    var opcodeBin := OpcodeField(parts[0]);
    var destRegBin := FindRegisterBinary(registers, DpiMiddle(parts));
    var operandRegBin := FindRegisterBinary(registers, DpiOperand(parts));
    "0000" + "00" + "0" + opcodeBin + "1" + operandRegBin + destRegBin
  }

  /** `parseDPI`. */
  function DpiWord(line: string, registers: seq<Binding>): DpiResult {
    var parts := Fields(TrimSpace(line));
    if |parts| < 2 then NoWord
    else if |parts| == 2 then IndexPanic
    else Word(DpiBits(parts, registers))
  }

  /** A data-processing line with fewer than two words emits nothing, one of
      exactly two words stops the program, and a longer one emits. */
  lemma DpiOfLine(line: string, registers: seq<Binding>)
    ensures DpiWord(line, registers).NoWord? <==> |Fields(line)| < 2
    ensures DpiWord(line, registers).IndexPanic? <==> |Fields(line)| == 2
    ensures |Fields(line)| >= 3 ==> DpiWord(line, registers) == Word(DpiBits(Fields(line), registers))
  {
    FieldsOfTrimSpace(line);
  }

  /** With opcode `i` as first word: four zeros for the condition, "00", a
      zero I bit, the opcode's 4 bits whose value is `i`, a set S bit, then the
      last operand's register and the middle one's; 20 characters when both
      registers resolve to 4 bits. */
  lemma DpiEncoding(parts: seq<string>, registers: seq<Binding>, i: nat)
    requires i < |Opcodes| && |parts| >= 3 && parts[0] == Opcodes[i]
    ensures var w := DpiBits(parts, registers);
            var rn := FindRegisterBinary(registers, DpiOperand(parts));
            var rd := FindRegisterBinary(registers, DpiMiddle(parts));
            w == "0000000" + FormatBinPadded(i, 4) + "1" + rn + rd
            && w[..7] == "0000000" && w[7..11] == FormatBinPadded(i, 4) && w[11] == '1'
            && w[12..12 + |rn|] == rn && w[12 + |rn|..] == rd
            && (|rn| == 4 && |rd| == 4 ==> |w| == 20)
    ensures |FormatBinPadded(i, 4)| == 4 && BitsValue(FormatBinPadded(i, 4)) == i
  {
    OpcodeFieldIsIndex(i);
    var rn := FindRegisterBinary(registers, DpiOperand(parts));
    var rd := FindRegisterBinary(registers, DpiMiddle(parts));
    DpiBitsOfFields(parts, registers);
    DpiLayout(FormatBinPadded(i, 4), rn, rd);
  }

  /** Whatever the first word, the condition and I bits are zero and the
      character after the opcode field, S, is "1". */
  lemma DpiFlagBit(parts: seq<string>, registers: seq<Binding>)
    requires |parts| >= 3
    ensures var w := DpiBits(parts, registers);
            var f := OpcodeField(parts[0]);
            w[..7] == "0000000" && w[7..7 + |f|] == f && w[7 + |f|] == '1'
  {
    var rn := FindRegisterBinary(registers, DpiOperand(parts));
    var rd := FindRegisterBinary(registers, DpiMiddle(parts));
    DpiBitsOfFields(parts, registers);
    DpiLayout(OpcodeField(parts[0]), rn, rd);
  }

  /** A first word that is not exactly one of the 16 opcodes ("MOVEQ",
      "ADDS", or a word that merely contains an opcode) has the empty opcode
      field, so its word is four characters short: 16 characters when both
      registers resolve to 4 bits. */
  lemma DpiUnknownOpcode(parts: seq<string>, registers: seq<Binding>)
    requires |parts| >= 3 && parts[0] !in Opcodes
    ensures var w := DpiBits(parts, registers);
            var rn := FindRegisterBinary(registers, DpiOperand(parts));
            var rd := FindRegisterBinary(registers, DpiMiddle(parts));
            w == "00000001" + rn + rd && (|rn| == 4 && |rd| == 4 ==> |w| == 16)
  {
    DpiBitsOfFields(parts, registers);
    assert "0000000" + "" + "1" == "00000001";
  }

  lemma DpiBitsOfFields(parts: seq<string>, registers: seq<Binding>)
    requires |parts| >= 3
    ensures DpiBits(parts, registers)
              == "0000000" + OpcodeField(parts[0]) + "1" + FindRegisterBinary(registers, DpiOperand(parts))
                 + FindRegisterBinary(registers, DpiMiddle(parts))
  {
    assert "0000" + "00" + "0" == "0000000";
  }

  /** Where the fields of a data-processing word sit, for an opcode field of
      any width. */
  lemma DpiLayout(f: string, rn: string, rd: string)
    ensures var w := "0000000" + f + "1" + rn + rd;
            var n := 7 + |f|;
            w[..7] == "0000000" && w[7..n] == f && w[n] == '1'
            && w[n + 1..n + 1 + |rn|] == rn && w[n + 1 + |rn|..] == rd && |w| == n + 1 + |rn| + |rd|
  {
    var w := "0000000" + f + "1" + rn + rd;
    var n := 7 + |f|;
    assert w[..7] == "0000000";
    assert w[7..n] == f;
    assert w[n + 1..n + 1 + |rn|] == rn;
    assert w[n + 1 + |rn|..] == rd;
  }

  /** The word does not depend on the second word: "MOV R1, R2" and
      "MOV R3, R2" encode identically. */
  lemma DpiIgnoresSecondWord(a: seq<string>, b: seq<string>, registers: seq<Binding>)
    requires |a| == |b| >= 3
    requires a[0] == b[0] && a[2..] == b[2..]
    ensures DpiBits(a, registers) == DpiBits(b, registers)
  {
    assert a[2] == a[2..][0] && b[2] == b[2..][0];
    if |a| > 3 {
      assert a[3] == a[2..][1] && b[3] == b[2..][1];
    }
  }

  lemma DpiBitsAreBits(parts: seq<string>, registers: seq<Binding>)
    requires |parts| >= 3 && BitValues(registers)
    ensures IsBits(DpiBits(parts, registers))
  {
    OpcodeFieldBits(parts[0]);
    FindRegisterBinaryBits(registers, DpiOperand(parts));
    FindRegisterBinaryBits(registers, DpiMiddle(parts));
    DpiFieldsBits(OpcodeField(parts[0]), FindRegisterBinary(registers, DpiOperand(parts)),
                  FindRegisterBinary(registers, DpiMiddle(parts)));
  }

  lemma DpiFieldsBits(f: string, rn: string, rd: string)
    requires IsBits(f) && IsBits(rn) && IsBits(rd)
    ensures IsBits("0000" + "00" + "0" + f + "1" + rn + rd)
  {
    assert "0000" + "00" + "0" == "0000000";
    assert IsBits("0000000") && IsBits("1");
    BitsConcat5("0000000", f, "1", rn, rd);
  }

  lemma DpiWordBits(line: string, registers: seq<Binding>)
    requires BitValues(registers)
    ensures DpiWord(line, registers).Word? ==> IsBits(DpiWord(line, registers).bits)
  {
    DpiOfLine(line, registers);
    if |Fields(line)| >= 3 {
      DpiBitsAreBits(Fields(line), registers);
    }
  }

  // ---------------------------------------------------------------------------
  // Label declarations

  /** `parseLabel`: a line of three words or more binds the first word to the
      third, as raw text; a shorter line binds nothing. */
  function LabelEntry(line: string): Option<Binding> {
    var parts := Fields(TrimSpace(line));
    if |parts| < 3 then None
    else
      var labelName := parts[0];
      var value := parts[2];
      Some(Binding(labelName, value))
  }
}
