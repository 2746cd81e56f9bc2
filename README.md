# A verified model of a teaching compiler's core passes

This project models, in Dafny, four passes of a small compiler for a
toy language with declarations (`int x;`), assignments, arithmetic
(`+ - *`) and `return`, whose back end emits RISC-V-style assembly:

- **Lexical analysis** (`Lexer`): the character loop of `loadFile`, which
  splits the file content into lexemes, and the classification loop of
  `run`, which turns each lexeme into a token (Semicolon, a keyword or
  operator kind, `IntConst` or `id`), adds new identifiers to the symbol
  table and appends the end-of-input token.
- **Semantic analysis** (`Semantic`): a parser observer that shadows the
  parser's symbol stack with the shifted tokens and, when reducing
  `S -> D id`, sets the declared identifier's type to `Int`.
- **IR generation** (`IRGeneration`): a parser observer with a stack of IR
  values and an append-only instruction list, dispatching on the
  production index (6 assignment, 7 return, 8/9/11 arithmetic).
- **Assembly generation** (`InstructionSelection`, `RegisterAllocation`,
  `AssemblyGeneration`): `loadIR` rewrites IR instructions (constant
  folding, moving an immediate into a fresh temporary, operand swapping)
  and records each value's last use; `regAlloc` allocates registers from
  a free list `t0..t6`, releasing one at its variable's last use; `run`
  writes `.text` and one assembly line per instruction.

Each stateful class of the program is a Dafny `class` with its fields
(`seq` for lists and stacks, `map` for hash maps) and methods with loops.
Two fields are renamed: the lexer's list of split words `tokens` is
`lexemes`, and the IR generator's `IL` is `il`. The generators also hold
`temps`, the counter behind `IRVariable.temp()`, which the program keeps
in a static field.
Every method is proved against a pure definition of what it computes
(`Scan`, `Tokens`, `Declare`, `Reduced`, `ReducedSem`, `Load`, `Allocate`,
`EmitFrom`), and the properties of the passes are lemmas about those
definitions. The code's quirks are modelled as written and stated as
lemmas: folding two immediates always adds, an ADD or SUB whose only
immediate is on the right is dropped while its position still counts, a
register released at a last use keeps its binding, loading stops at the
first RET, and a word still pending at the end of the input is never
emitted.

Modules: `Wrappers` (Option), `IR` (IR values and instructions, Java
`int` helpers, the temporary counter), `Symtab` (symbol table), `Lexer`,
`Grammar` (productions and parser events), `IRGeneration`, `Semantic`,
`InstructionSelection`, `RegisterAllocation`, `AssemblyGeneration`.

## Model

| member | source | states |
|---|---|---|
| IR.WrapAdd | src/cn/edu/hitsz/compiler/asm/AssemblyGenerator.java:53-54 | Java `int` addition: the result is congruent to the exact sum modulo 2^32, and equals it when the sum fits in 32 bits |
| IR.ParseInt | src/cn/edu/hitsz/compiler/parser/IRGenerator.java:29 | `Integer.parseInt` on a literal the lexer classified as IntConst: non-negative, and printing it gives the literal's digits without leading zeros |
| IR.IntText | src/cn/edu/hitsz/compiler/asm/AssemblyGenerator.java:157 | `toString` of an immediate: '-' followed by the digits of the magnitude when negative, the digits alone otherwise |
| IR.NatTextRoundTrip | src/cn/edu/hitsz/compiler/asm/AssemblyGenerator.java:157 | the decimal text of a non-negative immediate is non-empty digits without a leading zero that read back as the same number (a negative one is printed by `IntText` as '-' and this text) |
| IR.CanonicalRoundTrip | src/cn/edu/hitsz/compiler/parser/IRGenerator.java:29 | reading a digit string and printing the value gives the string with its leading zeros removed |
| IR.CanonicalIsPrinted | src/cn/edu/hitsz/compiler/parser/IRGenerator.java:29 | a digit string without leading zeros prints back exactly |
| IR.Swap | src/cn/edu/hitsz/compiler/asm/AssemblyGenerator.java:78 | `swap()` keeps kind, result and operand set and exchanges LHS and RHS |
| IR.TempSupply.constructor | src/cn/edu/hitsz/compiler/parser/IRGenerator.java:49 | the temporary counter starts at 0 |
| IR.TempSupply.Fresh | src/cn/edu/hitsz/compiler/parser/IRGenerator.java:49 | `IRVariable.temp()` returns the temporary numbered by the counter and advances it, so no temporary is handed out twice |
| Symtab.SymbolTable.constructor | src/cn/edu/hitsz/compiler/parser/SemanticAnalyzer.java:14 | a new table is empty |
| Symtab.SymbolTable.Has | src/cn/edu/hitsz/compiler/lexer/LexicalAnalyzer.java:89 | `has(text)`: whether the table holds an entry for the text |
| Symtab.SymbolTable.Add | src/cn/edu/hitsz/compiler/lexer/LexicalAnalyzer.java:89-91 | adding a new identifier creates an untyped entry for it and changes no other |
| Symtab.SymbolTable.SetType | src/cn/edu/hitsz/compiler/parser/SemanticAnalyzer.java:28 | setting a type changes only that entry's type |
| Lexer.Simple | src/cn/edu/hitsz/compiler/lexer/LexicalAnalyzer.java:94-96 | `Token.simple(kind)`: a token of that kind with empty text |
| Lexer.Eof | src/cn/edu/hitsz/compiler/lexer/LexicalAnalyzer.java:101 | `Token.eof()`: the end-of-input token |
| Lexer.ScanChar | src/cn/edu/hitsz/compiler/lexer/LexicalAnalyzer.java:46-66 | one iteration of the character loop: CR, LF and tab are dropped; a delimiter flushes the pending word and is a lexeme of its own; a space flushes the pending word; any other character extends it |
| Lexer.Scan | src/cn/edu/hitsz/compiler/lexer/LexicalAnalyzer.java:43-67 | the character loop over the whole content, from no lexemes and no pending word |
| Lexer.ScanWellFormed | src/cn/edu/hitsz/compiler/lexer/LexicalAnalyzer.java:45-67 | every lexeme is either one delimiter character or a non-empty word without space, CR, LF, tab or delimiter; the pending word has none of those either |
| Lexer.ScanConcat | src/cn/edu/hitsz/compiler/lexer/LexicalAnalyzer.java:45-67 | the lexemes followed by the unflushed pending word concatenate to the input with spaces, CR, LF and tabs removed |
| Lexer.SkippedCharIgnored | src/cn/edu/hitsz/compiler/lexer/LexicalAnalyzer.java:49-50 | for any input, a CR, LF or tab at any place can be deleted without changing the lexemes or the pending word: it never ends a word |
| Lexer.ScanRestarts | src/cn/edu/hitsz/compiler/lexer/LexicalAnalyzer.java:57-64 | once no word is pending, the rest of the input is scanned as if from the start and its lexemes follow the earlier ones |
| Lexer.SeparatorSplits | src/cn/edu/hitsz/compiler/lexer/LexicalAnalyzer.java:51-64 | for any input, a space or delimiter splits it: the lexemes before it, then the word pending before it if any, then the delimiter itself, then the lexemes of the rest, whose pending word is the final one |
| Lexer.LineBreakDoesNotSeparate | src/cn/edu/hitsz/compiler/lexer/LexicalAnalyzer.java:49-50 | a worked case of `SkippedCharIgnored`: "a\nb;" splits into "ab" and ";" |
| Lexer.TrailingWordDropped | src/cn/edu/hitsz/compiler/lexer/LexicalAnalyzer.java:59-67 | "x = 1" yields only "x" and "=": the final word is never emitted |
| Lexer.Classify | src/cn/edu/hitsz/compiler/lexer/LexicalAnalyzer.java:81-98 | ";" is Semicolon; an allowed kind is a simple token of that kind; otherwise the token keeps the text and is IntConst exactly when the text is a decimal literal fitting in `int`, and id exactly when it is not |
| Lexer.LongLiteralIsId | src/cn/edu/hitsz/compiler/lexer/LexicalAnalyzer.java:82-88 | a digit string of 11 or more digits without a leading zero overflows `int` and becomes an id |
| Lexer.Tokens | src/cn/edu/hitsz/compiler/lexer/LexicalAnalyzer.java:79-99 | the token list of `run` before the eof token: one `Classify` token per lexeme, in order |
| Lexer.TokensAt | src/cn/edu/hitsz/compiler/lexer/LexicalAnalyzer.java:79-101 | the token list of a lexeme list has one token per lexeme, token i being `Classify` of lexeme i |
| Lexer.DeclareOne | src/cn/edu/hitsz/compiler/lexer/LexicalAnalyzer.java:81-92 | one lexeme's effect on the table: a new identifier gets an untyped entry, anything else leaves the table as it was |
| Lexer.Declare | src/cn/edu/hitsz/compiler/lexer/LexicalAnalyzer.java:80-92 | the table after `run`: `DeclareOne` of each lexeme, in order |
| Lexer.DeclareSpec | src/cn/edu/hitsz/compiler/lexer/LexicalAnalyzer.java:89-91 | the table's keys grow by exactly the id texts; existing entries are unchanged and each new one is an untyped entry for its own text |
| Lexer.LexicalAnalyzer.constructor | src/cn/edu/hitsz/compiler/lexer/LexicalAnalyzer.java:27-29 | the analyzer keeps the given symbol table |
| Lexer.LexicalAnalyzer.LoadFile | src/cn/edu/hitsz/compiler/lexer/LexicalAnalyzer.java:38-67 | the character loop leaves exactly the lexemes of `Scan(content)` |
| Lexer.LexicalAnalyzer.Run | src/cn/edu/hitsz/compiler/lexer/LexicalAnalyzer.java:77-103 | one token per lexeme, in order, each `Classify` of its lexeme, then exactly one eof token; the table becomes `Declare` of the lexemes; requires a non-empty lexeme list (the assert) |
| Lexer.LexicalAnalyzer.ClassifyLexeme | src/cn/edu/hitsz/compiler/lexer/LexicalAnalyzer.java:81-98 | one lexeme yields its `Classify` token and enters it in the table exactly when it is a new identifier |
| IRGeneration.Shifted | src/cn/edu/hitsz/compiler/parser/IRGenerator.java:27-33 | `whenShift` on the value stack and instruction list |
| IRGeneration.Reduced | src/cn/edu/hitsz/compiler/parser/IRGenerator.java:36-73 | `whenReduce`, production by production, on the stack, the list and the temporary counter |
| IRGeneration.RunIR | src/cn/edu/hitsz/compiler/parser/IRGenerator.java:26-79 | the generator's state after handling a sequence of parser events in order |
| IRGeneration.ShiftEffect | src/cn/edu/hitsz/compiler/parser/IRGenerator.java:27-33 | a shift never touches the instruction list; IntConst pushes its parsed value, id a variable named by its text, any other token nothing |
| IRGeneration.ArithmeticReduceEffect | src/cn/edu/hitsz/compiler/parser/IRGenerator.java:46-66 | productions 8, 9, 11 pop right then left, append ADD/SUB/MUL of them into a new temporary and push it: height drops by one, the list grows by one |
| IRGeneration.AssignReduceEffect | src/cn/edu/hitsz/compiler/parser/IRGenerator.java:38-42 | production 6 pops value and target, appends MOV target := value, pushes nothing |
| IRGeneration.ReturnReduceEffect | src/cn/edu/hitsz/compiler/parser/IRGenerator.java:43-45 | production 7 pops one value and appends RET of it |
| IRGeneration.OtherReduceEffect | src/cn/edu/hitsz/compiler/parser/IRGenerator.java:67-71 | every other production can always be reduced and changes neither stack nor list |
| IRGeneration.CodeAppendOnly | src/cn/edu/hitsz/compiler/parser/IRGenerator.java:36-73 | over any run of events, earlier instructions are never changed and the list only grows at its end |
| IRGeneration.StepKeepsTempsFresh | src/cn/edu/hitsz/compiler/parser/IRGenerator.java:49-50 | one event keeps temporaries below the counter and arithmetic results pairwise distinct |
| IRGeneration.TempsStayFresh | src/cn/edu/hitsz/compiler/parser/IRGenerator.java:46-66 | temporaries of distinct arithmetic reductions stay pairwise distinct over any run |
| IRGeneration.LexedTokensShift | src/cn/edu/hitsz/compiler/parser/IRGenerator.java:28-29 | a token the lexer produces can be shifted exactly when it is not the simple token of a word spelled "IntConst" that the kind table admits (that token's empty text fails `parseInt`) |
| IRGeneration.IntConstWordFailsToShift | src/cn/edu/hitsz/compiler/parser/IRGenerator.java:28-29 | when the kind table admits "IntConst", the word `IntConst` in a program yields a token that cannot be shifted |
| IRGeneration.IRGenerator.constructor | src/cn/edu/hitsz/compiler/parser/IRGenerator.java:23-24 | empty stack and instruction list |
| IRGeneration.IRGenerator.Pop | src/cn/edu/hitsz/compiler/parser/IRGenerator.java:39-40 | pop returns the top and removes it; requires a non-empty stack |
| IRGeneration.IRGenerator.WhenShift | src/cn/edu/hitsz/compiler/parser/IRGenerator.java:27-33 | the new state is `Shifted` of the old one |
| IRGeneration.IRGenerator.WhenReduce | src/cn/edu/hitsz/compiler/parser/IRGenerator.java:36-73 | the new state is `Reduced` of the old one, the temporary coming from the shared counter |
| IRGeneration.IRGenerator.Observe | src/cn/edu/hitsz/compiler/parser/IRGenerator.java:26-87 | handling events in order gives `RunIR` of them |
| IRGeneration.IRGenerator.WhenAccept | src/cn/edu/hitsz/compiler/parser/IRGenerator.java:76-79 | `whenAccept` changes no state (it only prints) |
| IRGeneration.IRGenerator.GetIR | src/cn/edu/hitsz/compiler/parser/IRGenerator.java:85-87 | `getIR` returns the instruction list as built |
| Semantic.ShiftedSem | src/cn/edu/hitsz/compiler/parser/SemanticAnalyzer.java:44-47 | `whenShift` pushes the token |
| Semantic.ReducedSem | src/cn/edu/hitsz/compiler/parser/SemanticAnalyzer.java:23-41 | `whenReduce`, production by production, on the token stack and the table |
| Semantic.RunSem | src/cn/edu/hitsz/compiler/parser/SemanticAnalyzer.java:16-47 | the analyzer's state after handling a sequence of parser events in order |
| Semantic.ReduceSemEffect | src/cn/edu/hitsz/compiler/parser/SemanticAnalyzer.java:22-41 | production 4 types only the top token's identifier as Int, pops two and pushes a placeholder; production 5 changes nothing; others pop \|body\| and push a placeholder, table untouched |
| Semantic.StackHeight | src/cn/edu/hitsz/compiler/parser/SemanticAnalyzer.java:25-47 | over any run, the stack height moves by +1 per shift and 1 - \|body\| per reduction |
| Semantic.TableOnlyTyped | src/cn/edu/hitsz/compiler/parser/SemanticAnalyzer.java:26-40 | the analyzer never adds, removes or renames an entry; its only change is setting a type to Int |
| Semantic.SemanticAnalyzer.constructor | src/cn/edu/hitsz/compiler/parser/SemanticAnalyzer.java:13-14 | empty token stack and a fresh empty table |
| Semantic.SemanticAnalyzer.Pop | src/cn/edu/hitsz/compiler/parser/SemanticAnalyzer.java:36 | removes the top token; requires a non-empty stack |
| Semantic.SemanticAnalyzer.WhenShift | src/cn/edu/hitsz/compiler/parser/SemanticAnalyzer.java:43-47 | pushes exactly the shifted token |
| Semantic.SemanticAnalyzer.WhenReduce | src/cn/edu/hitsz/compiler/parser/SemanticAnalyzer.java:22-41 | the new stack and table are `ReducedSem` of the old ones, written into the current table object |
| Semantic.SemanticAnalyzer.SetSymbolTable | src/cn/edu/hitsz/compiler/parser/SemanticAnalyzer.java:49-54 | later reductions write into the given table; the stack is unchanged |
| Semantic.SemanticAnalyzer.Observe | src/cn/edu/hitsz/compiler/parser/SemanticAnalyzer.java:16-47 | handling events in order gives `RunSem` of them |
| Semantic.SemanticAnalyzer.WhenAccept | src/cn/edu/hitsz/compiler/parser/SemanticAnalyzer.java:16-20 | `whenAccept` changes no state (it only prints) |
| InstructionSelection.Select | src/cn/edu/hitsz/compiler/asm/AssemblyGenerator.java:45-105 | one loading step advances the position by one more exactly when it takes a temporary, and stops exactly on RET |
| InstructionSelection.Record | src/cn/edu/hitsz/compiler/asm/AssemblyGenerator.java:73-102 | the `lastUse.put(v, at)` calls of one iteration, for every recorded value |
| InstructionSelection.Advance | src/cn/edu/hitsz/compiler/asm/AssemblyGenerator.java:47-104 | one iteration's effect on the loaded state: the selected instructions appended, their values recorded, the counter moved on when a temporary was taken |
| InstructionSelection.LoadFrom | src/cn/edu/hitsz/compiler/asm/AssemblyGenerator.java:45-106 | the loading loop from a given index and position, stopping after the first RET |
| InstructionSelection.Load | src/cn/edu/hitsz/compiler/asm/AssemblyGenerator.java:41-107 | `loadIR` on the given state: the loop from index 0 at position 0 |
| InstructionSelection.SelectSound | src/cn/edu/hitsz/compiler/asm/AssemblyGenerator.java:47-104 | one loading step records only variables, appends at most two instructions, each binary one with a variable LHS and all its variables recorded |
| InstructionSelection.LoadKeepsInvariant | src/cn/edu/hitsz/compiler/asm/AssemblyGenerator.java:41-107 | `lastUse` keys are variables only, every appended binary has a variable LHS, every variable of an appended instruction has a last use |
| InstructionSelection.LastUseMonotone | src/cn/edu/hitsz/compiler/asm/AssemblyGenerator.java:73-102 | a recorded last use is never removed and only overwritten by a later position |
| InstructionSelection.LoadAppends | src/cn/edu/hitsz/compiler/asm/AssemblyGenerator.java:41-107 | loading only appends to the instruction list and never moves the temporary counter back |
| InstructionSelection.StopsAtFirstRet | src/cn/edu/hitsz/compiler/asm/AssemblyGenerator.java:91-97 | loading is the same as loading the input cut after its first RET, and the list then ends with that RET |
| InstructionSelection.FoldByAddition | src/cn/edu/hitsz/compiler/asm/AssemblyGenerator.java:51-55 | two immediates become one MOV of their wrapped sum, for SUB and MUL too |
| InstructionSelection.MaterializeImmediate | src/cn/edu/hitsz/compiler/asm/AssemblyGenerator.java:58-75 | MUL with one immediate, or SUB with it on the left, appends MOV tmp := imm then the same kind from tmp and the variable; tmp, variable and result share the second instruction's position |
| InstructionSelection.SwapOrDrop | src/cn/edu/hitsz/compiler/asm/AssemblyGenerator.java:76-83 | ADD with the immediate on the left is appended swapped; ADD or SUB with it only on the right appends nothing yet records its variables |
| InstructionSelection.DroppedInstructionShiftsPositions | src/cn/edu/hitsz/compiler/asm/AssemblyGenerator.java:80-105 | after a dropped instruction, recorded positions run one ahead of the indices `run` uses |
| InstructionSelection.LeftImmediateSubtraction | src/cn/edu/hitsz/compiler/asm/AssemblyGenerator.java:58-72 | `t = 5 - x` loads as MOV of 5 into a fresh temporary, then SUB from it |
| RegisterAllocation.Allocate | src/cn/edu/hitsz/compiler/asm/AssemblyGenerator.java:116-134 | a bound variable gets its register, appended to the free list iff pos is its last use, binding kept; an unbound one fails on an empty list, else takes and binds the head |
| RegisterAllocation.Opcode | src/cn/edu/hitsz/compiler/asm/AssemblyGenerator.java:153-158 | the binary opcode: the kind's lower-case name, with 'i' for an immediate RHS |
| RegisterAllocation.Mnemonic | src/cn/edu/hitsz/compiler/asm/AssemblyGenerator.java:153-185 | the first word of an instruction's line: its opcode, or li or mv for MOV and RET |
| RegisterAllocation.EmitInstruction | src/cn/edu/hitsz/compiler/asm/AssemblyGenerator.java:150-188 | one iteration of `run`: the registers taken in the code's order and the formatted line, or a failure |
| RegisterAllocation.EmitFrom | src/cn/edu/hitsz/compiler/asm/AssemblyGenerator.java:146-191 | the loop of `run` from a given position: lines appended in order, stopping at the first failed allocation |
| RegisterAllocation.OpcodeMarksImmediate | src/cn/edu/hitsz/compiler/asm/AssemblyGenerator.java:153-158 | the opcode is the lower-case kind name, with 'i' appended iff the RHS is immediate |
| RegisterAllocation.EmitInstructionShape | src/cn/edu/hitsz/compiler/asm/AssemblyGenerator.java:150-188 | each line starts with its mnemonic (li or mv for MOV by source, RET into a0); registers stay within t0..t6; a failure means the free list was empty |
| RegisterAllocation.BinaryLineShape | src/cn/edu/hitsz/compiler/asm/AssemblyGenerator.java:152-165 | a binary line starts with its opcode |
| RegisterAllocation.MovLineShape | src/cn/edu/hitsz/compiler/asm/AssemblyGenerator.java:167-178 | a MOV line starts with li for an immediate source and mv otherwise |
| RegisterAllocation.RetLineShape | src/cn/edu/hitsz/compiler/asm/AssemblyGenerator.java:180-186 | a RET line moves into a0, with li for an immediate and mv otherwise |
| RegisterAllocation.EmitInstructionState | src/cn/edu/hitsz/compiler/asm/AssemblyGenerator.java:126-133 | one instruction's allocations keep registers within t0..t6 and fail only on an empty free list |
| RegisterAllocation.EmitLines | src/cn/edu/hitsz/compiler/asm/AssemblyGenerator.java:146-190 | exactly one line per instruction, appended in order, up to the instruction whose allocation failed |
| RegisterAllocation.EmitShaped | src/cn/edu/hitsz/compiler/asm/AssemblyGenerator.java:150-189 | emission keeps every line aligned with its instruction: line j belongs to instruction j and starts with its mnemonic |
| RegisterAllocation.LinesShapedAt | src/cn/edu/hitsz/compiler/asm/AssemblyGenerator.java:164-185 | in aligned output, line j starts with the mnemonic of instruction j |
| RegisterAllocation.EmitRegisters | src/cn/edu/hitsz/compiler/asm/AssemblyGenerator.java:126-131 | emission only ever holds t0..t6, and stops early only when the free list is empty |
| RegisterAllocation.BinaryAllocationOrder | src/cn/edu/hitsz/compiler/asm/AssemblyGenerator.java:155-165 | registers are taken RHS first, then LHS, then result |
| RegisterAllocation.SelfUpdateReleasesTwice | src/cn/edu/hitsz/compiler/asm/AssemblyGenerator.java:118-124 | a loaded `x = x + c` at x's last use puts x's register back on the free list twice, the binding kept; loading produces this form only from `x = c + x` (swapped), since `x = x + c` and SUB with the immediate on the right are dropped and MUL is rewritten through a temporary |
| RegisterAllocation.NoReleaseOnFirstAllocation | src/cn/edu/hitsz/compiler/asm/AssemblyGenerator.java:126-133 | a variable first allocated at its last use keeps its register |
| AssemblyGeneration.AssemblyGenerator.constructor | src/cn/edu/hitsz/compiler/asm/AssemblyGenerator.java:26-30 | empty lists and maps, free list t0..t6 |
| AssemblyGeneration.AssemblyGenerator.LoadIR | src/cn/edu/hitsz/compiler/asm/AssemblyGenerator.java:41-107 | the new instruction list, last-use map and counter are `Load` of the old ones; the invariant `run` relies on is kept |
| AssemblyGeneration.AssemblyGenerator.LoadInstruction | src/cn/edu/hitsz/compiler/asm/AssemblyGenerator.java:46-105 | one loop iteration is `Select` applied to the state, stopping on RET |
| AssemblyGeneration.AssemblyGenerator.LoadBinary | src/cn/edu/hitsz/compiler/asm/AssemblyGenerator.java:47-90 | the two-operand branch is `Select` of the binary instruction |
| AssemblyGeneration.AssemblyGenerator.LoadMov | src/cn/edu/hitsz/compiler/asm/AssemblyGenerator.java:91-103 | a MOV step appends the MOV and records its source variable and result: the state is `Select` of the MOV applied to the old one |
| AssemblyGeneration.AssemblyGenerator.LoadRet | src/cn/edu/hitsz/compiler/asm/AssemblyGenerator.java:91-97 | a RET step appends the RET and records a returned variable: the state is `Select` of the RET applied to the old one |
| AssemblyGeneration.AssemblyGenerator.AdvanceFold | src/cn/edu/hitsz/compiler/asm/AssemblyGenerator.java:51-55 | with two immediates, one step appends MOV of their wrapped sum and records only the result, at the current position |
| AssemblyGeneration.AssemblyGenerator.AdvanceMaterialize | src/cn/edu/hitsz/compiler/asm/AssemblyGenerator.java:58-75 | MUL with an immediate, or SUB with it on the left, appends MOV into the next temporary and the operation from it, records temporary, variable and result one position on, and takes one temporary |
| AssemblyGeneration.AssemblyGenerator.AdvanceSwap | src/cn/edu/hitsz/compiler/asm/AssemblyGenerator.java:76-79 | ADD with the immediate on the left appends the swapped instruction and records the variable operand and the result |
| AssemblyGeneration.AssemblyGenerator.AdvanceDrop | src/cn/edu/hitsz/compiler/asm/AssemblyGenerator.java:80-82 | ADD or SUB with the immediate on the right leaves the list as it was yet records the variable operand and the result |
| AssemblyGeneration.AssemblyGenerator.AdvanceVariables | src/cn/edu/hitsz/compiler/asm/AssemblyGenerator.java:84-90 | with no immediate, the instruction is appended unchanged and both operands and the result are recorded |
| AssemblyGeneration.AssemblyGenerator.AdvanceMov | src/cn/edu/hitsz/compiler/asm/AssemblyGenerator.java:91-103 | a MOV is appended unchanged; a variable source, then the result, get the current position |
| AssemblyGeneration.AssemblyGenerator.AdvanceRet | src/cn/edu/hitsz/compiler/asm/AssemblyGenerator.java:91-97 | a RET is appended unchanged and only a variable return value gets the current position |
| AssemblyGeneration.AssemblyGenerator.RegAlloc | src/cn/edu/hitsz/compiler/asm/AssemblyGenerator.java:116-134 | the register and new maps are `Allocate` of the old state |
| AssemblyGeneration.AssemblyGenerator.EmitOne | src/cn/edu/hitsz/compiler/asm/AssemblyGenerator.java:151-188 | one iteration of `run` is `EmitInstruction` of the instruction |
| AssemblyGeneration.AssemblyGenerator.Run | src/cn/edu/hitsz/compiler/asm/AssemblyGenerator.java:146-191 | the output grows by ".text" and the lines of `EmitFrom`; register state and failure position as `EmitFrom` says; instructions and last uses unchanged |

The `whenAccept` handlers are methods with no `modifies` clause: they
change no state. `getIR` is `IRGenerator.GetIR`, which returns the list
that `CodeAppendOnly` proves append-only.

## Left out

- File and console I/O: `Files.readString` and its `IOException` branch (the content is a parameter of `LoadFile`), every `System.out.println`, and `dump`, `dumpIR` and `dumpTokens`.
- `test.java`, which only wires the lexer to configured paths; it is not part of this model.
- The LR parser driver, its tables and the observer dispatch are not part of this model: the handlers are driven by an explicit sequence of `Shift`, `Reduce` and `Accept` events. The unused `Status` argument is dropped.
- `TokenKind`, `Token`, `SymbolTable`, the IR classes and `Production` are not part of this model; they are minimal datatypes and a small class built from how the core uses them. `TokenKind.isAllowed` is the parameter `isAllowed`; the eof token's kind is written "$".
- `Instruction.toString`, echoed as the comment of each assembly line, is the parameter `show`; immediates are printed in decimal.
- IR variables are compared by value (a name, or a temporary's number); Java object identity of IR values is not modelled.
- The temporary counter of `IRVariable.temp()` is one shared `TempSupply` object passed to both generators.
- IR.ParseInt: only ASCII decimal digits with a value up to 2^31 - 1 are modelled; `Integer.parseInt` also accepts other Unicode digits, and signs cannot occur because + and - are delimiters.
- `regAlloc`'s "Not Enough regs" exception is a `false` result and `run` returns the failing position; stack traces and the message text are not modelled.
- Lexer.LexicalAnalyzer.Run: the Java `assert` that the token list is non-empty is a precondition.
- The `pos` counters are unbounded integers; a program with more than 2^31 instructions is out of scope.
- `IRGenerator.setSymbolTable` has an empty body and is not modelled.
- IRGeneration.IRGenerator.WhenShift: the `NumberFormatException` that `whenShift` throws on the token of a word spelled `IntConst` (when the kind table admits that kind) is not modelled as an outcome; `WhenShift` requires a shiftable token and `LexedTokensShift` states exactly which lexed tokens are.
- Exceptions from popping an empty stack, from a failed cast or from a missing table entry are not modelled as outcomes: the handlers require that they cannot happen.
