# Turing-machine interpreter, modelled in Dafny

This project models the Turing-machine interpreter of `src/main.c` and the
small C string helpers it relies on:

- `strcmp`, `strlen2` and `memcpy2`. A pointer is an `Option` (`None` is
  NULL) over the characters or bytes it points to. A C string is a buffer
  that holds a terminator.
- `parse_line`, which reads a rule line `(<state>,<c>)->(<state2>,<c2>,<m>)`
  with the scan pattern `(%[^,],%c)->(%[^,],%c,%c)`. The result is a
  `Transition`, or nothing.
- The loop of `execute` after loading. It starts in the initial state with
  the head on cell 0. Each pass picks the first rule in file order that
  matches the current state and the symbol under the head. It writes the
  rule's symbol, moves the head one cell and changes state. The loop stops
  in the accept or the reject state. When no rule matches, it goes to the
  reject state. `execute` returns 1 when the final state is the accept
  state and 0 otherwise.
- The loading of rule lines. The model's loader takes the three header
  labels and the rule lines as already read from the file.

Files:

- `optional.dfy`: the `Option` and `Result` wrappers.
- `cstring.dfy`: the string and memory helpers.
- `parser.dfy`: the rule-line scan.
- `turing.dfy`: the tape, rule selection, one step, the bounded run,
  `execute` and the loader.
- `scenarios.dfy`: concrete machines, with their loads and verdicts proved
  from the model.

Choices the model makes:

- **Tape.** The tape is a map from every integer cell to a character.
  Unmapped cells read as `BLANK`, which is the zero character, because the
  tape is zero-filled (`calloc`). The model's tape has no bounds. The source
  allocates `2 * strlen(input)` cells and does not check the head against
  them.
- **Fuel.** Runs take a `fuel` bound on the number of loop passes. A machine
  that cycles runs out of fuel (`OutOfFuel`) and has no verdict.
  `RunFuelMonotone` shows that extra fuel never changes a verdict once one
  exists.
- **Label comparison.** State labels are compared with sequence equality.
  `LabelsCompareEqual` shows that this is exactly `strcmp(a, b) == 0` for
  labels without a terminator. A `%s` conversion can store a terminator
  inside a header label, and `strcmp` then reads only the part before it.
  `Load` therefore keeps each header label's `Content`, its characters
  before the first terminator (`AcceptLabelEndsAtTerminator`). A `%[^,]`
  conversion stops at a terminator, so rule states never hold one. A loaded
  machine is therefore `Labelled` (`LoadedMachineIsLabelled`), and every
  state of its runs is a label (`StepsKeepLabels`). For such machines the
  loop test, the rule lookup and the return value are the `strcmp` tests of
  the source (`HaltedIsStrCmp`, `MatchesIsStrCmp`, `VerdictIsStrCmp`).

Behaviour of `src/main.c` the model keeps:

- Movement is any character. Only `'R'` moves right; every other character,
  not only `'L'`, moves left (`src/main.c:222`).
- The rule pattern has a `(` after `->`. The closing `)` is never checked
  (`ClosingParenUnchecked`). A line that ends right after the movement
  character still parses.
- The loader does not check that the accept and reject labels differ. If
  they are equal, a missing rule leads to verdict 1 (`MissingRuleRejects`).
- A `%c` conversion never yields the terminator, so no loaded rule can read
  the blank symbol (`LoadedRulesNeverReadBlank`). In the source, the blank
  cells are the zero-filled cells from `strlen(input)` to
  `2 * strlen(input) - 1` (src/main.c:197-201). A loaded machine whose head
  reaches one of them in a running state rejects (`BlankCellRejects`).
  `IncrementRejectsAfterOnePass` and `CarryOntoBlankRejects` show the same
  on the model's unbounded tape, at cell -1. The source's tape has no such
  cell: reading `tape[-1]` there is outside the allocation (see the tape
  line under "## Left out").
- The source stores NULL for a line that fails to parse. Rule lookup
  dereferences that entry only when the scan reaches its index without an
  earlier match, and that is undefined behaviour. A run whose lookups never
  get that far is well defined: for example, a trailing empty line gives
  NULL (its length is below 3) and is never reached once an earlier rule
  matches. The model's loader instead rejects every description that holds
  an unparsable line, and reports the index of the first one
  (`MalformedTransition`).

## Model

| member | source | states |
|---|---|---|
| CString.StrCmp | src/main.c:22-31 | the result is 0 exactly when the two strings (up to their terminators) are equal, negative exactly when the first precedes the second in lexicographic order of character codes, positive exactly when it follows |
| CString.StrCmpPrefixIsLess | src/main.c:13-31 | a string that is a proper prefix of another compares less than it |
| CString.LabelsCompareEqual | src/main.c:207-210 | for labels without a terminator, `strcmp` returns 0 exactly when the labels are equal; this is why the model compares states with equality |
| CString.StrLen2 | src/main.c:40-52 | NULL gives ERROR (-1), and ERROR means NULL; otherwise the result is the index of the first terminator, every earlier character is not a terminator, and the result is the length of the string's content |
| CString.AsErrorCode | src/main.c:125 | the `size_t` length converted to the 32-bit return type stays in the `int` range, agrees with the length modulo 2^32, and equals the length below 2^31 |
| CString.MemCpy2 | src/main.c:113-126 | a NULL destination or source, or a zero length, gives ERROR and leaves the destination alone; otherwise the first `len` bytes of the destination equal those of the source, the bytes from `len` on are unchanged, and the result is `len` as an `int` |
| Parser.ScanSet | src/main.c:156 | a `%[^,]` conversion yields a non-empty run of the input with no comma and no terminator, and stops only at a comma, a terminator or the end of the string; it fails only when the next character is a comma or a terminator or none is left |
| Parser.ScanChar | src/main.c:156 | a `%c` conversion succeeds exactly when a character remains before the terminator, and yields that character |
| Parser.ScanSetAt | src/main.c:156 | a `%[^,]` conversion over a state field followed by a comma yields exactly that field and stops at the comma |
| Parser.ScanCharAt | src/main.c:156 | a `%c` conversion over any character other than the terminator yields that character |
| Parser.ScanGroup | src/main.c:154-162 | one group `<open>%[^,],%c` succeeds only on text that spells out the literal characters, a state field, a comma and one character |
| Parser.ScanGroupText | src/main.c:154-162 | a group scan over text built from a state field and a character yields that field and that character and stops right after them |
| Parser.Scan | src/main.c:154-169 | the scan yields a rule only when all five fields are converted; the rule is well formed and its text is a prefix of the line |
| Parser.ScanRuleText | src/main.c:154-169 | a well-formed rule's text, followed by anything at all, scans back to that rule |
| Parser.ParseLine | src/main.c:135-172 | NULL or a length below 3 gives nothing, whatever the line holds; any rule produced is well formed: non-empty comma-free state fields, single-character read, write and movement |
| Parser.ParseLineExactly | src/main.c:135-171 | a line parses to `t` exactly when the length is at least 3, `t` is well formed and the line starts with `t`'s rule text; no partial rule is ever produced |
| Parser.RuleLineRoundTrip | src/main.c:154-171 | a well-formed rule written out as a line parses back to the same rule |
| Parser.ClosingParenUnchecked | src/main.c:154-164 | the character after the movement field is never checked: a rule's text followed by any tail parses to the rule |
| Turing.InputTape | src/main.c:197-201 | cell i holds input character i for every i before the terminator; every other cell, negative ones included, reads as blank |
| Turing.FirstMatchFrom | src/main.c:209-215 | the result is the first index at or after `from` whose rule matches the state and the symbol; none means no rule from `from` on matches |
| Turing.FirstMatch | src/main.c:208-215 | the chosen rule matches the state and the symbol under the head and no earlier rule does; no choice exactly when no rule matches |
| Turing.SelectedIsUnique | src/main.c:208-215 | at most one rule is the first match for a state and a symbol |
| Turing.Step | src/main.c:216-219 | when no rule matches, one pass sets the state to the reject state and leaves tape and head unchanged |
| Turing.StepAppliesSelectedRule | src/main.c:220-222 | with the first matching rule, one pass writes the rule's symbol at the head, takes its next state, and moves the head +1 for 'R' and -1 for any other character; no other cell changes |
| Turing.Run | src/main.c:207-223 | a run that halts ends in the accept or the reject state; one that runs out of fuel ends in neither |
| Turing.RunIsSteps | src/main.c:207-223 | the run ends where `fuel` passes of the loop lead, halted there or still running |
| Turing.HaltedIsAbsorbing | src/main.c:207 | once the accept or the reject state is reached, further passes change nothing |
| Turing.RunHaltsAtFirstHalt | src/main.c:207-223 | the run halts within the bound exactly when some configuration within the bound is in the accept or the reject state, and it stops at the first one |
| Turing.RunFuelMonotone | src/main.c:207-223 | more fuel never changes the outcome of a run that has halted |
| Turing.MissingRuleRejects | src/main.c:216-225 | a running configuration with no matching rule halts in the reject state after one pass; the verdict is 0 unless the accept and reject labels are equal |
| Turing.VerdictIsStrCmp | src/main.c:225 | for labels without a terminator, the return value is 1 exactly when `strcmp` finds the final state equal to the accept label, and 0 exactly when it does not |
| Turing.HaltedIsStrCmp | src/main.c:207 | for a labelled machine, a configuration is halted exactly when `strcmp` finds its state equal to the accept or to the reject label |
| Turing.MatchesIsStrCmp | src/main.c:209-210 | a rule matches exactly when `strcmp` finds its state equal to the current state and its read symbol is the symbol under the head |
| Turing.StepsKeepLabels | src/main.c:203-221 | every state a labelled machine reaches, from a start state without a terminator, holds no terminator, so the `strcmp` lemmas above apply at every pass of the run |
| Turing.Execute | src/main.c:203-227 | a verdict exists exactly when the run halts; it is 1 exactly when the run ends in the accept state, and 0 only in the reject state |
| Turing.ParseAll | src/main.c:192-194 | success exactly when every rule line parses, with one rule per line in file order; otherwise the error names the first line that does not parse |
| Turing.Load | src/main.c:185-194 | a loaded machine keeps each header label up to its first terminator, as `strcmp` reads it, and holds one rule per line, each the parse of its line; loading fails exactly when some rule line fails, and the error names the first line that does not parse |
| Turing.LoadedMachineIsLabelled | src/main.c:185-194 | no label of a loaded machine holds a terminator: the header labels are cut at theirs and rule states come from `%[^,]` |
| Turing.LoadedRulesNeverReadBlank | src/main.c:154-162 | no rule of a loaded machine reads the blank symbol |
| Turing.BlankCellRejects | src/main.c:208-219 | in a machine none of whose rules reads the blank (every loaded machine), a running configuration with the head on a blank cell moves to the reject state |
| Scenarios.LoadsAcceptOne | src/main.c:185-194 | the one rule line `(q0,1)->(qA,1,R)` loads as the machine q0/qA/qR with that single rule |
| Scenarios.AcceptsOne | src/main.c:181-227 | the machine q0/qA/qR with the rule `(q0,1)->(qA,1,R)` returns 1 on input "1" |
| Scenarios.RejectsZero | src/main.c:181-227 | the same machine returns 0 on input "0", for want of a rule |
| Scenarios.LoadsIncrement | src/main.c:185-194 | the two rule lines `(q0,0)->(qA,1,R)` and `(q0,1)->(q0,0,L)` load as those two rules in file order |
| Scenarios.IncrementFirstPass | src/main.c:220-222 | on "111" the first pass writes '0' at cell 0, stays in q0 and moves the head to cell -1, which is blank |
| Scenarios.IncrementRejectsAfterOnePass | src/main.c:207-225 | on "111" the model's second pass finds no rule for cell -1, blank on the unbounded tape (the source's tape has no cell -1), and halts in the reject state |
| Scenarios.CarryOntoBlankRejects | src/main.c:181-227 | in the model that machine returns 0 on "111": after one pass its head is on cell -1 of the unbounded tape, which is blank, and no rule reads the blank; the source would read outside its tape there |
| Scenarios.AcceptLabelEndsAtTerminator | src/main.c:185-225 | with accept label "qA\0x", which `strcmp` reads as "qA", the one-rule machine returns 1 on input "1" |
| Scenarios.MalformedLineFailsLoad | src/main.c:154-169 | the line `(q0,1)->bad` does not parse, and loading reports rule line 0 |

## Left out

- `no_of_lines` and `readline`: file I/O through `fgetc` and `rewind`. The interpreter's model takes lines that are already read.
- The file handling in `execute` (`fopen`, the `fscanf` of the three header labels, the `fgets` loop, `fclose`, the ERROR return when the file does not open). `Load` takes the header labels and the rule lines as parameters.
- `main`: it holds only test stubs.
- `malloc`, `calloc`, `free` and the allocation-failure returns of `parse_line`. They are memory management with no effect on the rules.
- Fixed-size buffers, which can overflow in C: the 10-character state arrays, the 100-entry rule array, the 256-character line buffer (a longer line is split by `fgets`), and the `len + 1` field buffers of `parse_line`. Labels, rule lists, lines and the tape are unbounded in the model.
- The tape's `2 * strlen(input)` allocation and the unchecked head position, which can leave the buffer on either side (undefined behaviour, for example at cell -1). The model's tape is unbounded in both directions, and every cell outside the input reads as blank.
- NULL entries for unparsable lines. `execute` dereferences one only when a lookup reaches it; the model's loader rejects the description instead.
- Turing.Load: it fails on every description with an unparsable line, so it gives no verdict on some descriptions for which the source returns one, such as rules followed by a trailing empty line that no lookup reaches.
- CString.MemCpy2: the destination and the source are separate values, so the buffers are taken to be disjoint. The source copies forward one byte at a time, and on overlapping buffers (destination one byte past the source) it spreads the first source byte over the range, which this model does not describe.
- Non-termination: runs are bounded by fuel, and nothing is claimed about machines that need more passes than the bound.
- Parser.Scan: the exact count that `sscanf` returns after a partial match or at the end of input is not modelled. The source only compares it with 5, so only "all five fields converted" is modelled.
- CString.StrCmp: characters compare by their non-negative code. Where `char` is signed, bytes 0x80 to 0xFF are negative, and their order against ASCII characters differs from this model.
- CString.StrLen2: the `int` counter overflows for strings of 2^31 characters or more, which is undefined behaviour in C. The model's count is unbounded.
- Turing.Run: the `int` head position would overflow after 2^31 moves in one direction. The model's head is unbounded.
