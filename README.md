# A model of a two-pass assembler for a subset of ARM

The system is a small assembler written in Go (`main.go`). It turns the lines of an assembly file into strings of `0` and `1` and appends them to an object file. It works in two passes:

- **Pass 1** removes comments (everything from the first `;`) and collects label declarations. A line is a declaration when it mentions `DCW` or `DCD`. When it has at least three words, it binds its first word to its third.
- **Pass 2** removes comments, trims the line and skips empty lines. It then offers each line to every instruction family in a fixed order:
  1. for each of the 14 condition suffixes, B, then BL, then BX;
  2. data processing, when one of the 16 opcodes occurs;
  3. LDR/STR;
  4. SWI/SVC;
  5. SWP.

Most encoders split the line into words and look registers up in a growing table of bindings. B and BL split nothing and read no register, and SWI reads no register. Only LDR and STR add to the table. Each encoder emits at most one string.

The project models this in Dafny, in layers that follow the Go program:

| module | file | what it holds |
|---|---|---|
| `Options` | `options.dfy` | The option type ("the Go code produced nothing here"). |
| `Seqs` | `seqs.dfy` | Two sequence facts the proofs call by name. |
| `GoStrings` | `gostrings.dfy` | The parts of Go's `strings` package the program uses: `Contains`, `Index`, `TrimSpace`, `TrimPrefix`, `TrimSuffix`, `ToLower`, `Fields`, `FieldsFunc`. Each comes with its properties. |
| `Numerals` | `numerals.dfy` | `fmt`'s `%b` and `%0Nb`, and `strconv.ParseUint(s, 16, 32)`. Each is tied to the value of the numeral it produces or reads. |
| `Tables` | `tables.dfy` | `conditions`, `dataProc`, the two small mnemonic maps, and `findConditionIndex`. |
| `Bindings` | `bindings.dfy` | The `labels` and `registers` tables as lists of one-entry maps searched from the front, and `checkIfLabel` and `findRegisterBinary`. |
| `Encoders` | `encoders.dfy` | One pure function per encoder (the word it emits, or nothing) and lemmas that say where each field lands. |
| `Assembler` | `assembler.dfy` | Both passes as functions on values: `LabelPass`, `EncodeLine`, `EncodePass`, `Assemble`. Also their properties: append-only output, line order, a panic stops the pass, labels are visible before their declaration, and every emitted word is a bit string. |
| `Driver` | `session.dfy` | The class `Session`, holding the program's global state (`labels`, `registers`, and the strings this run appends to the object file, as a sequence `out`). It has one method per Go function, with the same loops, early returns and `continue`/`break` structure. Each method is proved to produce exactly what the functions of `Encoders` and `Assembler` describe. `AssembleFile` runs a fresh session over a file. |
| `Samples` | `samples.dfy` | Worked instances: `MOV R1, R2`, `MOVEQ R1, R2`, `MOV R1` and `SWI &A`. |

## Where the code differs from a real ARM encoder

`main.go` encodes far less than an ARM assembler would. The model follows `main.go`:

- **Unconditional branches.** The branch loop only looks for B, BL and BX followed by one of the 14 listed suffixes. An unconditional `B loop`, `BL f` or `BX R1` therefore emits no branch word at all (`Assembler.UnconditionalBranchDropped`).
- **Unknown condition.** `findConditionIndex` gives 0, the code of EQ, for a suffix not in the table (`Tables.UnknownConditionIsEq`). The only such suffix that reaches it is BL's, described below.
- **B and BL words.** B and BL emit 8 characters: the condition code and `1010` or `1011`. There is no offset field, so no branch target is ever resolved (`Encoders.BranchEncodesCondition`).
- **BL's condition.** BL looks its condition up with the `L` still attached, so every BL emits `00001011` (`Encoders.BranchWithLinkDropsCondition`).
- **Data-processing words.** The condition field and the I bit are always zero and the S bit is always set (`Encoders.DpiFlagBit`). The word is 20 characters when the first word is exactly one of the 16 opcodes and both registers resolve to 4 bits (`Encoders.DpiEncoding`). Register values bound by LDR can have any width, and then so does the word. A mnemonic with a condition suffix, such as `MOVEQ`, still passes the opcode check because the opcode occurs in the line. Its opcode field is then empty, and with 4-bit registers the word has 16 characters (`Encoders.DpiUnknownOpcode`, `Samples.MovEqBits`). The second word of the line is never used (`Encoders.DpiIgnoresSecondWord`).
- **Two-word data-processing lines.** A data-processing line of exactly two words reads `parts[2]` out of range, which stops the Go program. The model marks the run as no longer `completed`: the words of that line's branch checks stay in the file and no later line is processed (`Encoders.DpiOfLine`, `Assembler.PanicStopsPass`).
- **SWI operand range.** Nothing limits an SWI operand to 24 bits. Any value below 2^32 is accepted, and a value of 2^24 or more makes the word longer than 32 characters (`Encoders.SwiLayout`).
- **LDR words.** LDR emits the `%b` digits of the label's value with no width. An LDR whose label is undefined emits nothing (`Encoders.LoadEncoding`).
- **Families are not exclusive.** Every family is tried on every line, so one line can emit several words: up to 18 (`Assembler.EncodeLineAppends`).

## Model

All source paths are in `main.go`.

| member | source | states |
|---|---|---|
| GoStrings.Contains | main.go:356 | `strings.Contains`: its meaning, an occurrence at some position, is stated by `GoStrings.ContainsOccurrence`. |
| GoStrings.ContainsOccurrence | main.go:356 | `strings.Contains(s, sub)` holds exactly when `sub` occurs in `s` at some position. |
| GoStrings.ContainsAny | main.go:373-378 | Some key of a keyword table occurs in the line exactly when some element of the table is contained in it. Visiting the map's keys in any order and stopping at the first hit therefore decides the same thing. |
| GoStrings.IndexOf | main.go:331 | `strings.Index(line, ";")` is -1 exactly when there is no `;`. Otherwise it is the position of the first `;`, with no `;` before it. |
| GoStrings.TrimSpace | main.go:348 | The result is a slice of the input with only white space before and after it. It is empty exactly when the line is all white space, and otherwise it neither starts nor ends with white space. |
| GoStrings.TrimPrefix | main.go:171 | With the prefix present, prefix + result is the input. Without it, the result is the input. |
| GoStrings.TrimSuffix | main.go:211 | With the suffix present, result + suffix is the input. Without it, the result is the input. |
| GoStrings.ToLower | main.go:172 | The result has the same length, and each character is the lower-case form of the input's. |
| GoStrings.FieldsFunc | main.go:141-143 | `strings.FieldsFunc`: the maximal runs of non-separators in order, as stated by the `FieldsFunc…` lemmas below. |
| GoStrings.Fields | main.go:123-124 | `strings.Fields`: `FieldsFunc` with white space as the separator. |
| GoStrings.FieldsFuncWords | main.go:141-143 | Every field is non-empty and holds no separator. |
| GoStrings.FieldsFuncSplit | main.go:141-143 | A separator splits the text: the fields of `a + [c] + b` are the fields of `a` followed by those of `b`. |
| GoStrings.FieldsFuncOfWord | main.go:141-143 | A word without separators is its own only field. |
| GoStrings.FieldsFuncSkipsLeading | main.go:124 | Leading separators do not change the fields. |
| GoStrings.FieldsFuncSkipsTrailing | main.go:124 | Trailing separators do not change the fields. |
| GoStrings.FieldsOfTrimSpace | main.go:123-124 | Trimming a line before `strings.Fields` never changes its words. |
| Numerals.FormatBin | main.go:223 | `%b` gives a non-empty bit string whose value is `v` and which has no leading zero (except for "0"). |
| Numerals.FormatBinPadded | main.go:106 | `%04b` and `%024b` give a bit string whose value is `v`. Its width is the requested width, or the unpadded width when that is larger. |
| Numerals.FormatBinPaddedWidth | main.go:180 | The padded numeral has exactly the requested width iff the value is below 2^width. Otherwise it is wider. |
| Numerals.ScanHex32 | main.go:174 | The digit loop accepts exactly a string of hexadecimal digits whose value stays below 2^32, and an accepted string yields that value. |
| Numerals.ParseUintHex32 | main.go:174 | `strconv.ParseUint(s, 16, 32)` succeeds iff `s` is a non-empty string of hexadecimal digits whose value is below 2^32, and then returns that value. |
| Tables.FindConditionIndex | main.go:289-296 | The result is a valid index. A listed suffix gets the position of its first occurrence. Anything else gets 0. |
| Tables.IndexFrom | main.go:290-295 | The first position at or after `k` holding the key, or 0 when none does. |
| Tables.ScanConditions | main.go:289-296 | The loop with its early return computes `FindConditionIndex`. |
| Tables.ConditionsDistinct | main.go:29-44 | No suffix appears twice in the table. |
| Tables.FindConditionIndexOfEntry | main.go:289-296 | Every suffix resolves to its own position, so the 14 suffixes get 14 distinct codes. |
| Tables.UnknownConditionIsEq | main.go:295 | A suffix not in the table resolves to 0, the code of EQ. |
| Tables.ConditionCodeWidth | main.go:106 | The condition field `%04b` of any table index is 4 bits worth that index. |
| Tables.OpcodeField | main.go:251 | `dataProc[op]` is `%04b` of the opcode's position for each of the 16 opcodes, and "" (the map's zero value) for any other mnemonic. |
| Tables.DataProcIsIndex | main.go:47-64 | The table entry of opcode `i` is `%04b` of `i`. |
| Tables.DataProcFields | main.go:47-64 | The same for all 16 opcodes at once. |
| Tables.DataProcKeys | main.go:373-378 | The map's keys are exactly the 16 opcodes of the list the model iterates. |
| Tables.DataProcDigits | main.go:47-64 | Each opcode's field is 4 binary digits that spell the opcode's position. |
| Tables.OpcodeFieldIsIndex | main.go:47-64 | The field of opcode `i` is 4 bits, worth `i`, and equal to `%04b` of `i`. |
| Tables.OpcodeFieldBits | main.go:251 | Every opcode field, including "" for an unknown mnemonic, is a bit string. |
| Bindings.CheckIfLabel | main.go:186-195 | `checkIfLabel`: the value of the earliest binding of the name, or "" (by `Bindings.Lookup`). |
| Bindings.FindRegisterBinary | main.go:299-308 | `findRegisterBinary`: the earliest binding's value, or "0000"; `Bindings.FindRegisterBinaryWidth` and `Bindings.FindRegisterBinaryBits` give its width and digits. |
| Bindings.Lookup | main.go:299-308 | There is no result exactly when no binding has the name. Otherwise the result is the value of the earliest binding with that name. |
| Bindings.LookupConcat | main.go:186-195 | Searching `a + b` searches `a` first and reaches `b` only when `a` has no binding. |
| Bindings.LookupSkip | main.go:187-193 | One step of the search loop: the current binding answers if its name matches; otherwise the search goes on. |
| Bindings.LookupAppend | main.go:226 | Appending a binding keeps every earlier answer and every other name's answer. Only a name unbound before gains the new value. |
| Bindings.FindRegisterBinaryWidth | main.go:299-308 | If every register value is 4 characters, so is every lookup result, the fallback "0000" included. |
| Bindings.FindRegisterBinaryBits | main.go:299-308 | Over bit-string register values, every lookup result is a bit string. |
| Encoders.BranchWord | main.go:97-109 | `parseBranch`'s word; its layout is stated by `Encoders.BranchEncodesCondition`. |
| Encoders.BranchEncodesCondition | main.go:97-109 | The B matched for condition `i` emits `%04b` of `i` then "1010". That is 8 characters, with the first four worth `i`. |
| Encoders.BranchWordBits | main.go:106-107 | A B word is a bit string. |
| Encoders.BranchWithLinkWord | main.go:112-118 | `parseBranchWithLink`'s word; stated by `Encoders.BranchWithLinkDropsCondition`. |
| Encoders.BranchWithLinkDropsCondition | main.go:112-118 | Every BL, whatever its condition, emits "00001011". |
| Encoders.BranchWithLinkWordBits | main.go:115-116 | A BL word is a bit string. |
| Encoders.BranchExchangeWord | main.go:121-136 | `parseBranchAndExchange`: nothing, or the word built by `ExchangeBits`; stated by `Encoders.BranchExchangeOfLine`. |
| Encoders.ExchangeBits | main.go:130-134 | The BX word for a condition and a register; stated by `Encoders.ExchangeLayout`. |
| Encoders.BranchExchangeOfLine | main.go:121-136 | BX emits nothing iff the line has fewer than two words. Otherwise it emits the exchange word for the second word. |
| Encoders.ExchangeLayout | main.go:130-134 | A BX word for condition `i` has: `%04b` of `i` in characters 0-3, the fixed 24-character pattern in 4-27, and Rm from character 28 on. |
| Encoders.ExchangeBitsAreBits | main.go:134 | Over bit-string registers, a BX word is a bit string. |
| Encoders.BranchExchangeWordBits | main.go:121-136 | An emitted BX word is a bit string. |
| Encoders.SwapWord | main.go:139-160 | `parseSWP`: nothing for fewer than four fields, else the word of `SwapBits`; stated by `Encoders.SwapLayout`. |
| Encoders.SwapBits | main.go:150-158 | The SWP word of the fields; stated by `Encoders.SwapLayout`. |
| Encoders.SwapLayout | main.go:150-158 | Splitting on spaces and commas, Rn (4th word), Rd (2nd), the fixed `00001001` and Rm (3rd) follow `000000010000`, each at its lookup's width. With 4-bit registers they sit in characters 12-15, 16-19 and 28-31 of a 32-character word. |
| Encoders.SwapBitsAreBits | main.go:154-158 | Over bit-string registers, an SWP word is a bit string. |
| Encoders.SwapWordBits | main.go:139-160 | An emitted SWP word is a bit string. |
| Encoders.SwiOperand | main.go:164-178 | The operand of an SWI line; stated by `Encoders.SwiOperandValue`. |
| Encoders.SwiBits | main.go:180-181 | The SWI word of an operand; stated by `Encoders.SwiLayout`. |
| Encoders.SwiWord | main.go:163-183 | `parseSWI`: nothing for a missing or unreadable operand, else `SwiBits` of it; stated by `Encoders.SwiOperandValue` and `Encoders.SwiLayout`. |
| Encoders.SwiOperandValue | main.go:164-178 | The operand is missing iff the line has fewer than two words. It is accepted iff the second word, without "&" and lower-cased, is hexadecimal below 2^32, and then it is that value. |
| Encoders.SwiLayout | main.go:180-181 | An SWI word starts with "00001111" and ends with the bits of the operand. It is 32 characters iff the operand is below 2^24 and longer otherwise. |
| Encoders.SwiBitsAreBits | main.go:180-181 | An SWI word is a bit string. |
| Encoders.SwiWordBits | main.go:163-183 | An emitted SWI word is a bit string. |
| Encoders.TransferEffect | main.go:198-238 | `parseSDT` as a value: the word and the binding, or nothing; stated by `Encoders.TransferOfLine`. |
| Encoders.TransferOfWords | main.go:210-237 | The LDR and STR branches; stated by `Encoders.LoadEncoding` and `Encoders.StoreEncoding`. |
| Encoders.TransferOfLine | main.go:199-205 | A transfer line of fewer than three words does nothing. Otherwise the transfer is that of its words. |
| Encoders.LoadEncoding | main.go:210-227 | An LDR emits and binds iff its label's value reads as hexadecimal; an undefined label gives nothing. The word is "0000010001", the value's `%b` digits, then "00000000". The register in the second word is bound to those digits. The register table is not consulted. |
| Encoders.StoreEncoding | main.go:228-237 | Any other first word always emits. The word has 18 characters plus the width of the source register's bits: "0000010001" in characters 0-9, those bits, then "00000000" at the end. The third word, as written, is bound to the same bits. The label table is not read. |
| Encoders.StoreToBoundBaseIgnored | main.go:233-234 | Lookups take the first binding, so a store whose base word is already bound adds a binding that no later lookup of that name sees. |
| Encoders.TransferBits | main.go:223-235 | Over bit-string registers, a transfer emits a bit string and binds a bit string. |
| Encoders.TransferEffectBits | main.go:198-238 | The same, from the line. |
| Encoders.DpiWord | main.go:241-270 | `parseDPI`: nothing, the panic, or the word; stated by `Encoders.DpiOfLine`. |
| Encoders.DpiBits | main.go:250-268 | The data-processing word of the fields; stated by `Encoders.DpiEncoding`, `Encoders.DpiFlagBit` and `Encoders.DpiUnknownOpcode`. |
| Encoders.DpiOfLine | main.go:241-263 | Nothing for fewer than two words. A panic iff exactly two words (the read of `parts[2]`). The word of the line's words otherwise. |
| Encoders.DpiEncoding | main.go:250-268 | For opcode `i`: seven zeros, `%04b` of `i` (4 bits worth `i`), a "1", the last operand's register, then the middle operand's. The word is 20 characters with 4-bit registers. |
| Encoders.DpiLayout | main.go:268 | The positions of the opcode field, the "1" and both register fields in the word, for an opcode field of any width. |
| Encoders.DpiFlagBit | main.go:268 | Every data-processing word starts with seven zeros (condition, "00", I) followed by the opcode field and a set S bit. |
| Encoders.DpiUnknownOpcode | main.go:251-268 | A first word that is not one of the 16 opcodes gives an empty opcode field: "00000001" then the two register fields, 16 characters with 4-bit registers. |
| Encoders.DpiIgnoresSecondWord | main.go:255-263 | Two lines that differ only in their second word encode identically. |
| Encoders.DpiBitsAreBits | main.go:265-268 | Over bit-string registers, a data-processing word is a bit string. |
| Encoders.DpiWordBits | main.go:241-270 | An emitted data-processing word is a bit string. |
| Assembler.StripComment | main.go:331-333 | The result is the longest prefix of the line without a ";". It is cut exactly at the first ";". |
| Assembler.LabelPass | main.go:329-339 | The first loop; stated by `Assembler.LabelPassAppend`, `Assembler.LabelPassStep` and `Assembler.LabelVisibleEverywhere`. |
| Assembler.LabelPassAppend | main.go:329-339 | Pass 1 over `a + b` is pass 1 over `a` followed by pass 1 over `b`. |
| Assembler.LabelPassStep | main.go:329-339 | Pass 1 from line `k` is line `k`'s declaration followed by pass 1 from line `k + 1`. |
| Assembler.LabelPassOfOne | main.go:336-338 | Pass 1 over one line is that line's declaration. |
| Encoders.LabelEntry | main.go:273-286 | `parseLabel`'s binding, or nothing; stated by `Assembler.DeclarationBinds`. |
| Assembler.LabelsOfLine | main.go:330-338 | One iteration of the first loop; stated by `Assembler.DeclarationBinds`. |
| Assembler.DeclarationBinds | main.go:273-286 | A DCW or DCD line with three words or more in its code part binds its first word to its third. A line mentioning neither in its code part, or having fewer than three words there, binds nothing. |
| Assembler.LabelVisibleEverywhere | main.go:327-342 | After pass 1, the first declaration of a label is found by every line, including the lines before it. |
| Assembler.BranchPiece | main.go:355-369 | One branch check emits at most one word. |
| Assembler.BranchPieces | main.go:354-370 | The first `n` branch checks emit at most `n` words. |
| Assembler.UnconditionalBranchDropped | main.go:354-370 | A line in which B, BL and BX never occur followed by a listed suffix gets no branch word. |
| Assembler.BranchPieceOrder | main.go:355-369 | Per condition, B is tried before BL and BL before BX. A line containing "B" + c emits only the B word. A line with "BL" + c and no "B" + c emits "00001011". Failing both, BX. Otherwise nothing. |
| Assembler.EncodeLine | main.go:343-399 | One iteration of the second loop; stated by `Assembler.BlankLineIsSkipped` and `Assembler.EncodeLineAppends`. |
| Assembler.FamilySteps | main.go:372-399 | The checks after the branch loop; stated by `Assembler.FamilyStepsAppends`. |
| Assembler.EncodePass | main.go:342-400 | The second loop; stated by `Assembler.EncodePassStep`, `Assembler.EncodePassAppend`, `Assembler.PanicStopsPass` and `Assembler.EncodePassAppends`. |
| Assembler.Assemble | main.go:327-401 | `parseFileContent` from an empty state; stated by `Assembler.AssembleEmitsBits` and `Assembler.LabelVisibleEverywhere`. |
| Assembler.BlankLineIsSkipped | main.go:348-351 | A blank or comment-only line emits nothing and changes nothing. |
| Assembler.EncodeLineAppends | main.go:353-399 | One line only appends: up to 18 words and at most one register binding. |
| Assembler.FamilyStepsAppends | main.go:372-399 | The checks after the branch loop append up to 4 words and at most one binding. |
| Assembler.EncodePassStep | main.go:342-400 | One iteration of pass 2, while the program runs. |
| Assembler.EncodePassAppend | main.go:342-400 | Pass 2 over `a + b` is pass 2 over `a` continued over `b`, so words come out in line order. |
| Assembler.PanicStopsPass | main.go:260-261 | Once a line has stopped the program, the lines after it change nothing. |
| Assembler.EncodePassAppends | main.go:342-400 | The object file and the register table only grow over a pass. |
| Assembler.BranchPieceBits | main.go:355-369 | Over bit-string registers, every branch word is a bit string. |
| Assembler.BranchPiecesBits | main.go:354-370 | The same for the whole branch loop. |
| Assembler.DpiStepBits | main.go:373-378 | The data-processing check emits only bit strings. |
| Assembler.TransferStepBits | main.go:381-386 | The transfer check emits and binds only bit strings. |
| Assembler.InterruptStepBits | main.go:389-394 | The interrupt check emits only bit strings. |
| Assembler.SwapStepBits | main.go:397-399 | The swap check emits only bit strings. |
| Assembler.EncodeLineKeepsBits | main.go:342-400 | One line preserves "every word written and every register value is a bit string". |
| Assembler.EncodePassKeepsBits | main.go:342-400 | A whole pass preserves the same invariant. |
| Assembler.AssembleEmitsBits | main.go:327-401 | The object file of any input consists of '0'/'1' strings only. |
| Driver.AnyKeyIn | main.go:373-378 | The range-and-break loop over a keyword table finds a key exactly when `ContainsAny` holds. |
| Driver.Session.constructor | main.go:79-81 | A session starts with no labels, no registers and nothing yet appended to the object file. |
| Driver.Session.CreateBinaryFile | main.go:86-94 | Appends exactly the given string to the object file and changes nothing else. |
| Driver.Session.LookupLabel | main.go:186-195 | The loop returns `CheckIfLabel`: the first bound value, or "". |
| Driver.Session.LookupRegister | main.go:299-308 | The loop returns `FindRegisterBinary`: the first bound value, or "0000". |
| Driver.Session.ParseBranch | main.go:97-109 | Appends exactly the B word and changes nothing else. |
| Driver.Session.ParseBranchWithLink | main.go:112-118 | Appends exactly the BL word and changes nothing else. |
| Driver.Session.ParseBranchAndExchange | main.go:121-136 | Appends the BX word, or nothing on a line of one word. Nothing else changes. |
| Driver.Session.ParseSWP | main.go:139-160 | Appends the SWP word, or nothing on a line of fewer than four fields. Nothing else changes. |
| Driver.Session.ParseSWI | main.go:163-183 | Appends the SWI word, or nothing for a missing or unreadable operand. Nothing else changes. |
| Driver.Session.ParseSDT | main.go:198-238 | Appends the transfer's word to the object file and its binding to the registers, or neither. Labels are unchanged. |
| Driver.Session.ParseDPI | main.go:241-270 | Reports a panic exactly on a two-word line. Otherwise it appends the data-processing word, or nothing on a line of one word. |
| Driver.Session.ParseLabel | main.go:273-286 | Appends the line's label binding, or nothing on a line of fewer than three words. |
| Driver.Session.ParseLine | main.go:343-399 | One iteration of the second loop: the new registers, object file and completion flag are those of `EncodeLine`. |
| Driver.Session.ParseBranches | main.go:354-370 | The branch loop appends exactly the 14 branch checks' words in condition order. |
| Driver.Session.ParseBranchChecks | main.go:355-369 | One iteration of the branch loop appends exactly `BranchPiece`. |
| Driver.Session.CheckDPI | main.go:373-378 | The data-processing check appends `DpiStep`'s word and reports its panic. |
| Driver.Session.CheckSDT | main.go:381-386 | The transfer check appends the word and the binding of `TransferStep`. |
| Driver.Session.CheckSWI | main.go:389-394 | The interrupt check appends `InterruptStep`. |
| Driver.Session.CheckSWP | main.go:397-399 | The swap check appends `SwapStep`. |
| Driver.Session.ParseFamilies | main.go:372-399 | The checks after the branch loop give the state `FamilySteps` describes. |
| Driver.Session.CollectLabels | main.go:329-339 | The first loop appends exactly `LabelPass` of the file to the labels. |
| Driver.Session.EncodeLines | main.go:342-400 | The second loop ends in the state `EncodePass` describes. It stops at the first panicking line. |
| Driver.Session.ParseFileContent | main.go:327-401 | Pass 1 and then pass 2: labels gain `LabelPass` of the file, and the rest of the state is `EncodePass` under those labels. |
| Driver.AssembleFile | main.go:327-401 | From a fresh session, the words written and the completion flag are those of `Assemble`. |
| Samples.MovWords | main.go:243 | `strings.Fields("MOV R1, R2")` is `["MOV", "R1,", "R2"]`. The comma stays on R1. |
| Samples.MovBits | main.go:250-268 | With no register bound, "MOV R1, R2" gives `00000001101100000000`. |
| Samples.MovExample | main.go:241-270 | The same through `parseDPI` on the line itself. |
| Samples.MovPanics | main.go:259-261 | "MOV R1" stops the program. |
| Samples.SwiOperandExample | main.go:170-174 | The operand of "SWI &A" is 10. |
| Samples.SwiExample | main.go:163-183 | "SWI &A" gives `00001111000000000000000000001010`. |
| Samples.MovEqBits | main.go:251-268 | With no register bound, the words of "MOVEQ R1, R2" give the 16-character `0000000100000000`. |

## Left out

- **File I/O.** Writing `binary.obj` is modelled as appending to the sequence `out`. The file is opened for appending and never truncated, so `out` holds only the strings this run appends. Whatever the file held before the run is not modelled. An error from opening or writing the file is not modelled (`createBinaryFile`'s error is ignored by every caller).
- **Rest of the program.** `main`, `getFile` (reading the file with a scanner) and `showDebug` (printing the tables) are I/O around the core and are not modelled.
- **Diagnostics.** The `fmt.Printf` syntax-error messages and the line numbers passed to every encoder are only used for them. They are left out; the model keeps only what each error path does to the state, which is emit nothing.
- **Unused state.** The global `operands` is never written, so it is left out. So are the variables the code computes and never uses: `bit` in `parseSDT`, `parts[2] = newBaseReg`, and `sourceReg` in `parseDPI`.
- **Map iteration order.** Go visits `dataProc`, `singleDataTransfer` and `softwareInterrupt` in an unspecified order. The model walks the keys as a list. Each loop stops at the first key that occurs and then calls the same encoder regardless of which key it was, so the outcome does not depend on the order (`GoStrings.ContainsAny`, `Tables.DataProcKeys`).
- **The panic.** The out-of-range index on a two-word data-processing line ends the Go process. The model records it as `completed == false`. Go's runtime message and exit status are not modelled.
- **Text.** Strings are sequences of characters, and white space is ASCII white space. Go's `strings.Fields` and `strings.TrimSpace` also treat Unicode spaces such as U+0085 and U+00A0 as separators, and Go slices strings by bytes. Neither matters for ASCII input, and neither is modelled. `strings.ToLower` is modelled on ASCII letters only.
- **Numbers.** `strconv.ParseUint` and `fmt.Sprintf` are modelled only for the verbs and bases the program uses. `ParseUint`'s error values are reduced to "no value".
- **Format catalogue.** The commented-out catalogue of instruction formats at the top of `main.go` is not code and is not modelled.
- **Encoder parameters.** The `line` parameter of `parseBranch` and `parseBranchWithLink` is unused, as in Go. The `SWP` mnemonic argument of `parseSWP` is unused and is dropped from `Driver.Session.ParseSWP`.
