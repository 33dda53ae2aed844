/** The assembler's fixed tables: the 14 condition mnemonics, the 16
    data-processing opcodes and the mnemonic sets the classifier looks for. */
module Tables {
  import opened Numerals

  /** The condition suffixes, in the order whose index is the 4-bit code. */
  const Conditions: seq<string> :=
    ["EQ", "NE", "CS", "CC", "MI", "PL", "VS", "VC", "HI", "LS", "GE", "LT", "GT", "LE"]

  /** The first position at or after `k` whose entry is `key`, or 0 when no
      entry from `k` on is `key`: the loop of `findConditionIndex`. */
  function IndexFrom(table: seq<string>, key: string, k: nat): (i: nat)
    requires k <= |table|
    ensures i <= |table| && (i < |table| || i == 0)
    ensures (exists j :: k <= j < |table| && table[j] == key) ==>
              k <= i < |table| && table[i] == key && forall j :: k <= j < i ==> table[j] != key
    ensures (forall j :: k <= j < |table| ==> table[j] != key) ==> i == 0
    decreases |table| - k
  {
    if k == |table| then 0
    else if table[k] == key then k
    else IndexFrom(table, key, k + 1)
  }

  /** `findConditionIndex`: the position of `cond` in the table, and 0 (the
      code of EQ) for anything that is not one of the 14 suffixes. */
  function FindConditionIndex(cond: string): (i: nat)
    ensures i < |Conditions|
    ensures cond in Conditions ==> Conditions[i] == cond && forall j :: 0 <= j < i ==> Conditions[j] != cond
    ensures cond !in Conditions ==> i == 0
  {
    IndexFrom(Conditions, cond, 0)
  }

  /** The loop of `findConditionIndex`: it returns at the first entry equal
      to `cond` and falls back to 0 after the whole table. */
  method ScanConditions(cond: string) returns (idx: nat)
    ensures idx == FindConditionIndex(cond)
  {
    for i := 0 to |Conditions|
      invariant forall j :: 0 <= j < i ==> Conditions[j] != cond
    {
      if Conditions[i] == cond {
        return i;
      }
    }
    return 0;
  }

  /** Every suffix is resolved to its own position. */
  lemma FindConditionIndexOfEntry(i: nat)
    requires i < |Conditions|
    ensures FindConditionIndex(Conditions[i]) == i
  {
    ConditionsDistinct();
  }

  /** No suffix appears twice in the table, so each has one code. */
  lemma ConditionsDistinct()
    ensures forall j, k :: 0 <= j < k < |Conditions| ==> Conditions[j] != Conditions[k]
  {
    forall j, k | 0 <= j < k < |Conditions|
      ensures Conditions[j] != Conditions[k]
    {
      assert Conditions[j][0] != Conditions[k][0] || Conditions[j][1] != Conditions[k][1];
    }
  }

  /** An unknown suffix is not told apart from EQ: both resolve to code 0. */
  lemma UnknownConditionIsEq(cond: string)
    requires cond !in Conditions
    ensures FindConditionIndex(cond) == FindConditionIndex("EQ") == 0
  {
  }

  /** The condition code field: index `i` written with `%04b`, always 4 bits. */
  lemma ConditionCodeWidth(i: nat)
    requires i < |Conditions|
    ensures |FormatBinPadded(i, 4)| == 4 && BitsValue(FormatBinPadded(i, 4)) == i
  {
    FormatBinPaddedWidth(i, 4);
  }

  /** The data-processing opcodes, in the order whose index is the opcode. */
  const Opcodes: seq<string> :=
    ["AND", "EOR", "SUB", "RSB", "ADD", "ADC", "SBC", "RSC",
     "TST", "TEQ", "CMP", "CMN", "ORR", "MOV", "BIC", "MVN"]

  /** `dataProc`: opcode mnemonic to its 4-bit field. */
  const DataProc: map<string, string> := map[
    "AND" := "0000", "EOR" := "0001", "SUB" := "0010", "RSB" := "0011",
    "ADD" := "0100", "ADC" := "0101", "SBC" := "0110", "RSC" := "0111",
    "TST" := "1000", "TEQ" := "1001", "CMP" := "1010", "CMN" := "1011",
    "ORR" := "1100", "MOV" := "1101", "BIC" := "1110", "MVN" := "1111"]

  /** The field of each opcode is `%04b` of its position in the list: the
      table spells the opcodes' indices in binary. */
  lemma DataProcIsIndex(i: nat)
    requires i < |Opcodes|
    ensures DataProc[Opcodes[i]] == FormatBinPadded(i, 4)
  {
    DataProcKeys();
    DataProcDigits();
    var f := DataProc[Opcodes[i]];
    BitsValueOfNibble(f);
    FormatBinPaddedWidth(i, 4);
    BitsValueInjective(f, FormatBinPadded(i, 4));
  }

  lemma DataProcFields()
    ensures forall i :: 0 <= i < |Opcodes| ==> DataProc[Opcodes[i]] == FormatBinPadded(i, 4)
  {
    forall i | 0 <= i < |Opcodes|
      ensures DataProc[Opcodes[i]] == FormatBinPadded(i, 4)
    {
      DataProcIsIndex(i);
    }
  }

  /** `dataProc[op]`: `%04b` of the opcode's position for one of the 16
      opcodes, and the empty string (a Go map's zero value) for any other
      mnemonic. */
  function OpcodeField(op: string): (f: string)
    ensures forall i :: 0 <= i < |Opcodes| && Opcodes[i] == op ==> f == FormatBinPadded(i, 4)
    ensures op !in Opcodes ==> f == ""
  {
    DataProcKeys();
    DataProcFields();
    if op in DataProc then DataProc[op] else ""
  }

  /** The table's keys are exactly the opcode list: the classifier walks the
      list where the Go code ranges over the map. */
  lemma DataProcKeys()
    ensures forall op :: op in DataProc <==> op in Opcodes
  {
  }

  /** Each opcode's field is a 4-bit pattern whose digits spell the opcode's
      position in the list. */
  lemma DataProcDigits()
    ensures forall i :: 0 <= i < |Opcodes| ==>
              var f := DataProc[Opcodes[i]];
              |f| == 4 && IsBits(f) && 8 * BitOf(f[0]) + 4 * BitOf(f[1]) + 2 * BitOf(f[2]) + BitOf(f[3]) == i
  {
    forall i | 0 <= i < |Opcodes|
      ensures var f := DataProc[Opcodes[i]];
              |f| == 4 && IsBits(f) && 8 * BitOf(f[0]) + 4 * BitOf(f[1]) + 2 * BitOf(f[2]) + BitOf(f[3]) == i
    {
      assert i == 0 || i == 1 || i == 2 || i == 3 || i == 4 || i == 5 || i == 6 || i == 7
          || i == 8 || i == 9 || i == 10 || i == 11 || i == 12 || i == 13 || i == 14 || i == 15;
    }
  }

  /** For all 16 opcodes the opcode field is 4 bits whose value is the
      opcode. */
  lemma OpcodeFieldIsIndex(i: nat)
    requires i < |Opcodes|
    ensures |OpcodeField(Opcodes[i])| == 4 && IsBits(OpcodeField(Opcodes[i]))
    ensures BitsValue(OpcodeField(Opcodes[i])) == i
    ensures OpcodeField(Opcodes[i]) == FormatBinPadded(i, 4)
  {
    FormatBinPaddedWidth(i, 4);
  }

  /** Every opcode field, including the "" of an unknown mnemonic, is a bit string. */
  lemma OpcodeFieldBits(op: string)
    ensures IsBits(OpcodeField(op))
  {
    if op in Opcodes {
      var i :| 0 <= i < |Opcodes| && Opcodes[i] == op;
      OpcodeFieldIsIndex(i);
    }
  }

  /** `singleDataTransfer`'s keys. */
  const TransferMnemonics: seq<string> := ["LDR", "STR"]

  /** `softwareInterrupt`'s keys. */
  const InterruptMnemonics: seq<string> := ["SWI", "SVC"]
}
