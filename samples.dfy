/**
 * Worked instances of the general lemmas on concrete source lines: a
 * three-word MOV, a MOV with a condition suffix, the two-word MOV that stops
 * the program and an SWI.
 */
module Samples {
  import opened Options
  import opened GoStrings
  import opened Numerals
  import opened Tables
  import opened Encoders
  import opened Assembler

  /** Three words separated by single spaces. */
  lemma FieldsOfThree(a: string, b: string, c: string)
    requires a != [] && NoSeparator(a, IsSpace)
    requires b != [] && NoSeparator(b, IsSpace)
    requires c != [] && NoSeparator(c, IsSpace)
    ensures Fields(a + " " + b + " " + c) == [a, b, c]
  {
    FieldsFuncOfWord(a, IsSpace);
    FieldsFuncOfWord(b, IsSpace);
    FieldsFuncOfWord(c, IsSpace);
    FieldsFuncSplit(a + " " + b, ' ', c, IsSpace);
    FieldsFuncSplit(a, ' ', b, IsSpace);
    assert a + " " + b + " " + c == (a + " " + b) + [' '] + c;
    assert a + " " + b == a + [' '] + b;
  }

  /** How `strings.Fields` splits "MOV R1, R2": the comma stays on R1. */
  lemma MovWords()
    ensures Fields("MOV R1, R2") == ["MOV", "R1,", "R2"]
  {
    assert NoSeparator("MOV", IsSpace) && NoSeparator("R1,", IsSpace) && NoSeparator("R2", IsSpace);
    FieldsOfThree("MOV", "R1,", "R2");
    assert "MOV" + " " + "R1," + " " + "R2" == "MOV R1, R2";
  }

  /** With no register bound, both register fields fall back to "0000";
      MOV's opcode field is 1101. */
  lemma MovBits()
    ensures DpiBits(["MOV", "R1,", "R2"], []) == "00000001101100000000"
  {
    assert DpiOperand(["MOV", "R1,", "R2"]) == "R2";
  }

  /** "MOV R1, R2" yields a 20-character word. */
  lemma MovExample()
    ensures DpiWord("MOV R1, R2", []) == Word("00000001101100000000")
  {
    MovWords();
    DpiOfLine("MOV R1, R2", []);
    MovBits();
  }

  /** Two words separated by a single space. */
  lemma FieldsOfTwo(a: string, b: string)
    requires a != [] && NoSeparator(a, IsSpace)
    requires b != [] && NoSeparator(b, IsSpace)
    ensures Fields(a + " " + b) == [a, b]
  {
    FieldsFuncOfWord(a, IsSpace);
    FieldsFuncOfWord(b, IsSpace);
    FieldsFuncSplit(a, ' ', b, IsSpace);
    assert a + " " + b == a + [' '] + b;
  }

  /** A MOV with a single operand stops the program. */
  lemma MovPanics()
    ensures DpiWord("MOV R1", []) == IndexPanic
  {
    assert NoSeparator("MOV", IsSpace) && NoSeparator("R1", IsSpace);
    FieldsOfTwo("MOV", "R1");
    assert "MOV" + " " + "R1" == "MOV R1";
    DpiOfLine("MOV R1", []);
  }

  /** "SWI &A": the sigil is dropped and "a" is read as hexadecimal. */
  lemma SwiOperandExample()
    ensures SwiOperand("SWI &A") == Some(10)
  {
    SwiWords();
    SwiOperandValue("SWI &A");
    SwiDigits();
  }

  lemma SwiWords()
    ensures Fields("SWI &A") == ["SWI", "&A"]
  {
    assert NoSeparator("SWI", IsSpace) && NoSeparator("&A", IsSpace);
    FieldsOfTwo("SWI", "&A");
    assert "SWI" + " " + "&A" == "SWI &A";
  }

  lemma SwiDigits()
    ensures ToLower(TrimPrefix("&A", "&")) == "a"
    ensures IsHexString("a") && HexValue("a") == 10
  {
    assert TrimPrefix("&A", "&") == "A";
  }

  /** A string of zeros is worth 0. */
  lemma {:induction false} ZeroBits(s: string)
    requires forall k :: 0 <= k < |s| ==> s[k] == '0'
    ensures IsBits(s) && BitsValue(s) == 0
    decreases |s|
  {
    if s != [] {
      ZeroBits(s[..|s| - 1]);
    }
  }

  /** `%024b` of 10: twenty zeros and 1010. */
  lemma PaddedTen(v: nat, t: string)
    requires v == 10 && t == "000000000000000000001010"
    ensures FormatBinPadded(v, 24) == t
  {
    var z := "00000000000000000000";
    assert t == z + "1010";
    ZeroBits(z);
    assert IsBits("1010");
    BitsValueOfNibble("1010");
    BitsValueAppend(z, "1010");
    FormatBinPaddedWidth(v, 24);
    BitsValueInjective(FormatBinPadded(v, 24), t);
  }

  /** The whole word of "SWI &A": "0000", "1111", then 10 in 24 bits. */
  lemma SwiExample()
    ensures SwiWord("SWI &A") == Some("00001111000000000000000000001010")
  {
    SwiOperandExample();
    SwiBitsTen(SwiOperand("SWI &A").value);
  }

  lemma SwiBitsTen(v: nat)
    requires v == 10
    ensures SwiBits(v) == "00001111000000000000000000001010"
  {
    var t := "000000000000000000001010";
    PaddedTen(v, t);
    var w := "00001111000000000000000000001010";
    assert w[..8] == "0000" + "1111" && w[8..] == t;
    assert w == w[..8] + w[8..];
  }

  /** A data-processing mnemonic with a condition suffix is not a key of
      `dataProc`: its opcode field is empty and the word has 16 characters. */
  lemma MovEqBits()
    ensures DpiBits(["MOVEQ", "R1,", "R2"], []) == "0000000100000000"
  {
    assert "MOVEQ" !in Opcodes;
    DpiUnknownOpcode(["MOVEQ", "R1,", "R2"], []);
    assert DpiOperand(["MOVEQ", "R1,", "R2"]) == "R2";
  }
}
