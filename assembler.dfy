/**
 * The driver of the assembler, `parseFileContent`. Pass 1 collects the label
 * declarations of the whole file; pass 2 cleans every line and offers it to
 * each encoder family in a fixed order, appending what they emit to the
 * object file.
 *
 * The functions below specify both passes on values; the class `Session`
 * keeps the three globals of the Go program (`labels`, `registers` and the
 * object file) and runs the same loops, each method proved to do what the
 * functions describe.
 */
module Assembler {
  import opened Options
  import opened Seqs
  import opened GoStrings
  import opened Numerals
  import opened Tables
  import opened Bindings
  import opened Encoders

  /** The part of a line before its first ';'. */
  function StripComment(line: string): (r: string)
    ensures |r| <= |line| && r == line[..|r|]
    ensures ';' !in r
    ensures |r| < |line| ==> line[|r|] == ';'
  {
    var idx := IndexOf(line, ';');
    if idx != -1 then line[..idx] else line
  }

  /** The text pass 2 hands to the encoders: comment removed, trimmed. */
  function CleanLine(raw: string): string {
    TrimSpace(StripComment(raw))
  }

  // ---------------------------------------------------------------------------
  // Pass 1: label declarations

  predicate IsDeclaration(line: string) {
    Contains(line, "DCW") || Contains(line, "DCD")
  }

  /** What pass 1 adds for one line: the label a DCW or DCD line declares. */
  function LabelsOfLine(raw: string): seq<Binding> {
    var line := StripComment(raw);
    if IsDeclaration(line) then LabelEntry(line).ToSeq() else []
  }

  /** The label table after pass 1, in the order of the lines. */
  function LabelPass(lines: seq<string>): seq<Binding> {
    if lines == [] then [] else LabelsOfLine(lines[0]) + LabelPass(lines[1..])
  }

  /** Pass 1 treats the lines one at a time and in order. */
  lemma {:induction false} LabelPassAppend(a: seq<string>, b: seq<string>)
    ensures LabelPass(a + b) == LabelPass(a) + LabelPass(b)
  {
    if a == [] {
      assert a + b == b;
    } else {
      assert (a + b)[0] == a[0];
      assert (a + b)[1..] == a[1..] + b;
      LabelPassAppend(a[1..], b);
      ConcatAssoc(LabelsOfLine(a[0]), LabelPass(a[1..]), LabelPass(b));
    }
  }

  /** A declaration line whose code part has three words or more binds the
      first word to the third; a line whose code part mentions neither DCW nor
      DCD (a declaration inside a comment, say) declares nothing. */
  lemma DeclarationBinds(raw: string)
    ensures var line := StripComment(raw);
            IsDeclaration(line) && |Fields(line)| >= 3 ==>
              LabelsOfLine(raw) == [Binding(Fields(line)[0], Fields(line)[2])]
    ensures !IsDeclaration(StripComment(raw)) ==> LabelsOfLine(raw) == []
    ensures |Fields(StripComment(raw))| < 3 ==> LabelsOfLine(raw) == []
  {
    FieldsOfTrimSpace(StripComment(raw));
  }

  /** Because pass 1 completes before pass 2 starts, a label is visible to
      every line of the file, including the lines before its declaration; the
      first declaration of a name is the one that counts. */
  lemma LabelVisibleEverywhere(before: seq<string>, decl: string, after: seq<string>, name: string, value: string)
    requires LabelsOfLine(decl) == [Binding(name, value)]
    requires !Binds(LabelPass(before), name)
    ensures Lookup(LabelPass(before + [decl] + after), name) == Some(value)
    ensures CheckIfLabel(LabelPass(before + [decl] + after), name) == value
  {
    var b := Binding(name, value);
    LabelPassAppend(before + [decl], after);
    LabelPassAppend(before, [decl]);
    LabelPassOfOne(decl);
    assert LabelPass(before + [decl] + after) == LabelPass(before) + [b] + LabelPass(after);
    LookupConcat(LabelPass(before) + [b], LabelPass(after), name);
    LookupAppend(LabelPass(before), b, name);
  }

  lemma LabelPassOfOne(line: string)
    ensures LabelPass([line]) == LabelsOfLine(line)
  {
    assert [line][1..] == [];
    assert LabelPass([line]) == LabelsOfLine(line) + [];
  }

  // ---------------------------------------------------------------------------
  // Pass 2: one line

  /** The state pass 2 threads through the lines: the register table, the
      words written so far, and whether the program is still running (a
      data-processing line of two words ends it). */
  datatype Run = Run(registers: seq<Binding>, out: seq<string>, completed: bool)

  /** The branch check for condition suffix `c`: B is tried first, then BL,
      then BX, and the first mnemonic found in the line is the only one
      encoded. */
  function BranchPiece(line: string, registers: seq<Binding>, c: string): (ws: seq<string>)
    ensures |ws| <= 1
  {
    var b := "B" + c;
    var bl := "BL" + c;
    var bx := "BX" + c;
    if Contains(line, b) then [BranchWord(b)]
    else if Contains(line, bl) then [BranchWithLinkWord(bl)]
    else if Contains(line, bx) then BranchExchangeWord(line, bx, registers).ToSeq()
    else []
  }

  /** The words of the branch checks for the first `n` conditions, in order. */
  function BranchPieces(line: string, registers: seq<Binding>, n: nat): (ws: seq<string>)
    requires n <= |Conditions|
    ensures |ws| <= n
  {
    if n == 0 then []
    else BranchPieces(line, registers, n - 1) + BranchPiece(line, registers, Conditions[n - 1])
  }

  /** The data-processing check: `parseDPI` runs when an opcode occurs in the line. */
  function DpiStep(line: string, registers: seq<Binding>): DpiResult {
    if ContainsAny(line, Opcodes) then DpiWord(line, registers) else NoWord
  }

  /** The data-transfer check: `parseSDT` runs when LDR or STR occurs. */
  function TransferStep(line: string, labels: seq<Binding>, registers: seq<Binding>): Option<Transfer> {
    if ContainsAny(line, TransferMnemonics) then TransferEffect(line, labels, registers) else None
  }

  /** The interrupt check: `parseSWI` runs when SWI or SVC occurs. */
  function InterruptStep(line: string): seq<string> {
    if ContainsAny(line, InterruptMnemonics) then SwiWord(line).ToSeq() else []
  }

  /** The swap check: `parseSWP` runs when SWP occurs. */
  function SwapStep(line: string, registers: seq<Binding>): seq<string> {
    if Contains(line, "SWP") then SwapWord(line, registers).ToSeq() else []
  }

  function WordOf(d: DpiResult): seq<string> {
    if d.Word? then [d.bits] else []
  }

  function WordOfTransfer(t: Option<Transfer>): seq<string> {
    if t.Some? then [t.value.word] else []
  }

  function BindingOf(t: Option<Transfer>): seq<Binding> {
    if t.Some? then [t.value.binding] else []
  }

  /** One iteration of the second loop of `parseFileContent`. Every family is
      tried on every line, so one line may emit several words; the swap
      encoder sees the registers as the transfer left them. */
  function EncodeLine(labels: seq<Binding>, registers: seq<Binding>, out: seq<string>, raw: string): Run {
    var line := CleanLine(raw);
    if line == [] then Run(registers, out, true)
    else FamilySteps(labels, registers, out + BranchPieces(line, registers, |Conditions|), line)
  }

  /** The checks after the branch loop, on a cleaned line: data processing
      (which may stop the program), data transfer, interrupt, swap. */
  function FamilySteps(labels: seq<Binding>, registers: seq<Binding>, out: seq<string>, line: string): Run {
    var dpi := DpiStep(line, registers);
    if dpi.IndexPanic? then Run(registers, out, false)
    else
      var sdt := TransferStep(line, labels, registers);
      var registers' := registers + BindingOf(sdt);
      Run(registers', out + WordOf(dpi) + WordOfTransfer(sdt) + InterruptStep(line) + SwapStep(line, registers'), true)
  }

  /** The second loop of `parseFileContent`, stopping for good at a panic. */
  function EncodePass(labels: seq<Binding>, r: Run, lines: seq<string>): Run
    decreases |lines|
  {
    if lines == [] || !r.completed then r
    else EncodePass(labels, EncodeLine(labels, r.registers, r.out, lines[0]), lines[1..])
  }

  /** The whole program on a file: pass 1, then pass 2 from an empty session. */
  function Assemble(lines: seq<string>): Run {
    EncodePass(LabelPass(lines), Run([], [], true), lines)
  }

  // ---------------------------------------------------------------------------
  // Properties of pass 2

  /** Blank lines and lines that hold only a comment emit nothing and change
      nothing. */
  lemma BlankLineIsSkipped(labels: seq<Binding>, registers: seq<Binding>, out: seq<string>, raw: string)
    requires forall k :: 0 <= k < |StripComment(raw)| ==> IsSpace(StripComment(raw)[k])
    ensures EncodeLine(labels, registers, out, raw) == Run(registers, out, true)
  {
  }

  /** One line only appends: the words already written stay in front, at
      most 18 words are added (14 branch checks and the four other families),
      and the register table either stays as it is or gains one binding. */
  lemma EncodeLineAppends(labels: seq<Binding>, registers: seq<Binding>, out: seq<string>, raw: string)
    ensures var r := EncodeLine(labels, registers, out, raw);
            out <= r.out && |r.out| <= |out| + 18
            && registers <= r.registers && |r.registers| <= |registers| + 1
  {
    var line := CleanLine(raw);
    if line != [] {
      var pieces := BranchPieces(line, registers, |Conditions|);
      FamilyStepsAppends(labels, registers, out + pieces, line);
    }
  }

  lemma FamilyStepsAppends(labels: seq<Binding>, registers: seq<Binding>, out: seq<string>, line: string)
    ensures var r := FamilySteps(labels, registers, out, line);
            out <= r.out && |r.out| <= |out| + 4
            && registers <= r.registers && |r.registers| <= |registers| + 1
  {
    var dpi := DpiStep(line, registers);
    if !dpi.IndexPanic? {
      var sdt := TransferStep(line, labels, registers);
      var registers' := registers + BindingOf(sdt);
      assert registers' == registers + BindingOf(sdt) && registers <= registers';
      PrefixOfAppends(out, WordOf(dpi), WordOfTransfer(sdt), InterruptStep(line), SwapStep(line, registers'));
    }
  }

  /** One step of pass 1, from line `k` on. */
  lemma LabelPassStep(lines: seq<string>, k: nat)
    requires k < |lines|
    ensures LabelPass(lines[k..]) == LabelsOfLine(lines[k]) + LabelPass(lines[k + 1..])
  {
    assert lines[k..][0] == lines[k] && lines[k..][1..] == lines[k + 1..];
  }

  /** One step of pass 2, from line `k` on, while the program runs. */
  lemma EncodePassStep(labels: seq<Binding>, r: Run, lines: seq<string>, k: nat)
    requires k < |lines| && r.completed
    ensures EncodePass(labels, r, lines[k..]) == EncodePass(labels, EncodeLine(labels, r.registers, r.out, lines[k]), lines[k + 1..])
  {
    assert lines[k..][0] == lines[k] && lines[k..][1..] == lines[k + 1..];
  }

  /** Processing `a` and then `b` is processing `a + b`: the words come out in
      the order of the lines. */
  lemma {:induction false} EncodePassAppend(labels: seq<Binding>, r: Run, a: seq<string>, b: seq<string>)
    ensures EncodePass(labels, r, a + b) == EncodePass(labels, EncodePass(labels, r, a), b)
    decreases |a|
  {
    if a == [] {
      assert a + b == b;
    } else if r.completed {
      assert (a + b)[0] == a[0];
      assert (a + b)[1..] == a[1..] + b;
      EncodePassAppend(labels, EncodeLine(labels, r.registers, r.out, a[0]), a[1..], b);
    }
  }

  /** After a panic nothing more happens: the lines after it are never read. */
  lemma PanicStopsPass(labels: seq<Binding>, r: Run, a: seq<string>, b: seq<string>)
    requires !EncodePass(labels, r, a).completed
    ensures EncodePass(labels, r, a + b) == EncodePass(labels, r, a)
  {
    EncodePassAppend(labels, r, a, b);
    if b != [] {
      assert EncodePass(labels, EncodePass(labels, r, a), b) == EncodePass(labels, r, a);
    }
  }

  /** The object file and the register table are append-only over a pass. */
  lemma {:induction false} EncodePassAppends(labels: seq<Binding>, r: Run, lines: seq<string>)
    ensures r.out <= EncodePass(labels, r, lines).out
    ensures r.registers <= EncodePass(labels, r, lines).registers
    decreases |lines|
  {
    if lines != [] && r.completed {
      var r' := EncodeLine(labels, r.registers, r.out, lines[0]);
      EncodeLineAppends(labels, r.registers, r.out, lines[0]);
      EncodePassAppends(labels, r', lines[1..]);
    }
  }

  /** Per condition, B beats BL and BL beats BX: a line mentioning "B" + c
      emits just the plain branch word for c, whatever else it contains. */
  lemma BranchPieceOrder(line: string, registers: seq<Binding>, i: nat)
    requires i < |Conditions|
    ensures var c := Conditions[i];
            && (Contains(line, "B" + c) ==>
                  BranchPiece(line, registers, c) == [FormatBinPadded(i, 4) + "1010"])
            && (!Contains(line, "B" + c) && Contains(line, "BL" + c) ==>
                  BranchPiece(line, registers, c) == ["00001011"])
            && (!Contains(line, "B" + c) && !Contains(line, "BL" + c) && Contains(line, "BX" + c) ==>
                  BranchPiece(line, registers, c) == BranchExchangeWord(line, "BX" + c, registers).ToSeq())
            && (!Contains(line, "B" + c) && !Contains(line, "BL" + c) && !Contains(line, "BX" + c) ==>
                  BranchPiece(line, registers, c) == [])
  {
    BranchEncodesCondition(i);
    BranchWithLinkDropsCondition(i);
  }

  /** The branch loop only looks for B, BL and BX followed by one of the 14
      suffixes: a line in which no such pattern occurs (an unconditional
      "B loop", "BL f" or "BX R1") gets no branch word at all. */
  lemma {:induction false} UnconditionalBranchDropped(line: string, registers: seq<Binding>, n: nat)
    requires n <= |Conditions|
    requires forall i :: 0 <= i < n ==>
               !Contains(line, "B" + Conditions[i]) && !Contains(line, "BL" + Conditions[i])
               && !Contains(line, "BX" + Conditions[i])
    ensures BranchPieces(line, registers, n) == []
  {
    if n > 0 {
      UnconditionalBranchDropped(line, registers, n - 1);
    }
  }

  // ---------------------------------------------------------------------------
  // Every word written is a string of '0' and '1'

  predicate AllBits(words: seq<string>) {
    forall k :: 0 <= k < |words| ==> IsBits(words[k])
  }

  lemma AllBitsConcat(a: seq<string>, b: seq<string>)
    requires AllBits(a) && AllBits(b)
    ensures AllBits(a + b)
  {
    assert forall k :: 0 <= k < |a + b| ==> (a + b)[k] == if k < |a| then a[k] else b[k - |a|];
  }

  lemma BranchPieceBits(line: string, registers: seq<Binding>, c: string)
    requires BitValues(registers)
    ensures AllBits(BranchPiece(line, registers, c))
  {
    var b, bl, bx := "B" + c, "BL" + c, "BX" + c;
    if Contains(line, b) {
      BranchWordBits(b);
      OneBits(BranchWord(b));
    } else if Contains(line, bl) {
      BranchWithLinkWordBits(bl);
      OneBits(BranchWithLinkWord(bl));
    } else if Contains(line, bx) {
      BranchExchangeWordBits(line, bx, registers);
      OptionBits(BranchExchangeWord(line, bx, registers));
    }
  }

  lemma OneBits(w: string)
    requires IsBits(w)
    ensures AllBits([w])
  {
  }

  lemma OptionBits(w: Option<string>)
    requires w.Some? ==> IsBits(w.value)
    ensures AllBits(w.ToSeq())
  {
  }

  lemma {:induction false} BranchPiecesBits(line: string, registers: seq<Binding>, n: nat)
    requires n <= |Conditions| && BitValues(registers)
    ensures AllBits(BranchPieces(line, registers, n))
  {
    if n > 0 {
      BranchPiecesBits(line, registers, n - 1);
      BranchPieceBits(line, registers, Conditions[n - 1]);
      AllBitsConcat(BranchPieces(line, registers, n - 1), BranchPiece(line, registers, Conditions[n - 1]));
    }
  }
  lemma DpiStepBits(line: string, registers: seq<Binding>)
    requires BitValues(registers)
    ensures AllBits(WordOf(DpiStep(line, registers)))
  {
    DpiWordBits(line, registers);
  }

  lemma TransferStepBits(line: string, labels: seq<Binding>, registers: seq<Binding>)
    requires BitValues(registers)
    ensures AllBits(WordOfTransfer(TransferStep(line, labels, registers)))
    ensures BitValues(BindingOf(TransferStep(line, labels, registers)))
  {
    TransferEffectBits(line, labels, registers);
  }

  lemma InterruptStepBits(line: string)
    ensures AllBits(InterruptStep(line))
  {
    SwiWordBits(line);
  }

  lemma SwapStepBits(line: string, registers: seq<Binding>)
    requires BitValues(registers)
    ensures AllBits(SwapStep(line, registers))
  {
    SwapWordBits(line, registers);
  }

  lemma BitValuesConcat(a: seq<Binding>, b: seq<Binding>)
    requires BitValues(a) && BitValues(b)
    ensures BitValues(a + b)
  {
    assert forall k :: 0 <= k < |a + b| ==> (a + b)[k] == if k < |a| then a[k] else b[k - |a|];
  }

  /** One line keeps the invariant that every word written and every
      register value is a string of '0' and '1'. */
  lemma EncodeLineKeepsBits(labels: seq<Binding>, registers: seq<Binding>, out: seq<string>, raw: string)
    requires AllBits(out) && BitValues(registers)
    ensures AllBits(EncodeLine(labels, registers, out, raw).out)
    ensures BitValues(EncodeLine(labels, registers, out, raw).registers)
  {
    var line := CleanLine(raw);
    if line != [] {
      var pieces := BranchPieces(line, registers, |Conditions|);
      BranchPiecesBits(line, registers, |Conditions|);
      AllBitsConcat(out, pieces);
      var dpi := DpiStep(line, registers);
      if !dpi.IndexPanic? {
        var sdt := TransferStep(line, labels, registers);
        DpiStepBits(line, registers);
        TransferStepBits(line, labels, registers);
        InterruptStepBits(line);
        var registers' := registers + BindingOf(sdt);
        BitValuesConcat(registers, BindingOf(sdt));
        SwapStepBits(line, registers');
        var out1 := out + pieces;
        AllBitsConcat(out1, WordOf(dpi));
        AllBitsConcat(out1 + WordOf(dpi), WordOfTransfer(sdt));
        AllBitsConcat(out1 + WordOf(dpi) + WordOfTransfer(sdt), InterruptStep(line));
        AllBitsConcat(out1 + WordOf(dpi) + WordOfTransfer(sdt) + InterruptStep(line), SwapStep(line, registers'));
      }
    }
  }

  /** Over a whole pass, from any state that satisfies it, every word written
      to the object file and every register value is a string of '0' and '1'. */
  lemma {:induction false} EncodePassKeepsBits(labels: seq<Binding>, r: Run, lines: seq<string>)
    requires AllBits(r.out) && BitValues(r.registers)
    ensures AllBits(EncodePass(labels, r, lines).out)
    ensures BitValues(EncodePass(labels, r, lines).registers)
    decreases |lines|
  {
    if lines != [] && r.completed {
      EncodeLineKeepsBits(labels, r.registers, r.out, lines[0]);
      EncodePassKeepsBits(labels, EncodeLine(labels, r.registers, r.out, lines[0]), lines[1..]);
    }
  }

  /** The object file of any input is made of '0' and '1' only. */
  lemma AssembleEmitsBits(lines: seq<string>)
    ensures AllBits(Assemble(lines).out)
  {
    EncodePassKeepsBits(LabelPass(lines), Run([], [], true), lines);
  }
}
