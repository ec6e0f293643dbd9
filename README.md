# Chaos bytecode lowering and function registry, modelled in Dafny

This project models two parts of the Chaos language implementation.

The **lowering engine** (`compiler/compiler.c`) walks the syntax tree of every
source file and appends 64-bit words — opcodes, register ids, immediates and
heap addresses — to a growable program buffer (`i64_array`). Declared
variables get consecutive heap slots from a bump cursor (`program->heap`). A
slot holds the value's shape tag, its payload, and for a string one word per
character. A later reference to the variable loads the same slot back.

The **function registry** (`functions/function.c`) keeps the defined functions
in a list, the function currently being defined (`function_mode`) and a
pending parameter list (`function_parameters_mode`). Definitions and calls
fill that list one symbol at a time.

Layout of the project:

- `wrappers.dfy` — `Option`.
- `bytecode.dfy` — opcode and register words, the `Instr` datatype, its word
  encoding `Encode` and a positional decoder that inverts it.
- `ast.dfy` — the syntax tree the engine consumes and the symbol-table entry.
- `lowering.dfy` — what each construct emits, as pure functions of the tree
  and of the environment (symbol table and heap cursor). It also gives the
  exact word count of each construct.
- `compiler.dfy` — the `Program` buffer class and the compile methods. Each
  method appends words in place through `PushInstr`. Each is proved to append
  exactly the encoding its `lowering.dfy` function specifies. It also holds
  the symbol table class.
- `layout.dfy` — the order of per-character blocks, and the fact that
  expressions never store, print or halt. It proves that a declaration's
  stores and a reference's loads cover the same slot.
- `emission.dfy` — whole-program properties. Statement lists run last to
  first. The heap is filled from `HEAP_BASE` upwards, each word once.
  Each print statement gives one `PRNT`. `HLT` appears only as the final
  instruction.
- `functions.dfy` — the `Registry` class: lookup, start/end of a definition,
  the pending list, and the argument binding of a call.

Modelling choices:

- Opcode and register numbers come from a header that is not part of this
  model. They are distinct placeholder constants (`LII = 0` … `HLT = 9`). The
  shape tags are fixed to `V_BOOL = 1`, `V_INT = 2`, `V_FLOAT = 3`,
  `V_STRING = 4`, because `compileExpr` returns these literals and
  `compileDecl` switches on the `V_*` names.
- The program buffer is an `array<int>` with `size`, `capacity` and `heap`.
  A ghost `words` sequence mirrors `arr[..size]`.
- Statement lists are compiled from the last statement to the first, as the
  loop at `compiler/compiler.c:39` does. Files are compiled in index order.
- An identifier reference emits its loads and then falls through to
  `return 0`. So a declaration whose initialiser is an identifier emits the
  loads, binds nothing and stores nothing. This is modelled as written.
- `compileDecl` reads the initialiser through the `basic_lit` member of the
  expression union (`compiler/compiler.c:246, 261, 276, 295, 307`), even when
  the initialiser is a unary expression node. That read is undefined
  behaviour. The model stands in for it with `Lowering.StrLen`: the length of
  the string literal beneath the unary operators. That length is used both
  for the number of character stores and for the new symbol's `len`.
- In the function registry, the linked list is a sequence in list order, and
  `function_mode` is an index into it.

## Model

| member | source | states |
|---|---|---|
| Compiler.Program.Init | compiler/compiler.c:342-350 | a fresh buffer is empty, has capacity 65535*32 and its heap cursor at 65535*2 |
| Compiler.Program.PushInstr | compiler/compiler.c:326-329 | writes the word at index `size`, grows `size` by one and leaves every other slot of the array unchanged: the contents become the old contents plus the word |
| Compiler.Program.Pop | compiler/compiler.c:331-334 | as written: returns `arr[size]`, the slot past the last word, then shrinks the contents by one |
| Compiler.PopAsWrittenIsShifted | compiler/compiler.c:331-334 | after pushing 7 and 8 and popping twice, the second pop returns 8, not 7 |
| Compiler.PopAsWrittenReadsStaleWord | compiler/compiler.c:326-334 | after pushing 7 and 8, popping twice and pushing 9, a pop returns the stale 8, not 9 |
| Compiler.Program.PopLast | compiler/compiler.c:331-334 | corrected: returns the last word written and removes exactly that word |
| Compiler.PopLastIsLifo | compiler/compiler.c:331-334 | after pushing 7 and 8, the corrected pops return 8 then 7 |
| Compiler.SymbolTable.AddSymbol | compiler/compiler.c:244-248 | binding a name maps it to the new symbol and leaves the other names' symbols unchanged |
| Compiler.PushStringChars | compiler/compiler.c:110-117 | appends the character blocks of a string literal, last character first |
| Compiler.CompileLiteral | compiler/compiler.c:66-131 | appends the literal's words and returns its shape tag (1..4, or 0 for any other literal) |
| Compiler.LoadStringChars | compiler/compiler.c:176-186 | appends the character loads of a string slot, from address a+n+1 down to a+2 |
| Compiler.CompileIdent | compiler/compiler.c:132-191 | appends the loads of the symbol's slot |
| Compiler.CompileExpr | compiler/compiler.c:59-231 | appends the expression's words and returns its shape tag; a unary expression returns its operand's tag, an identifier 0 |
| Compiler.StoreStringChars | compiler/compiler.c:307-315 | appends one pop and one store per character and advances the heap cursor by the length |
| Compiler.CompileStore | compiler/compiler.c:248-316 | stores the registers into the slot at the heap cursor and advances the cursor by the slot's width |
| Compiler.CompileDecl | compiler/compiler.c:233-324 | compiles the initialiser; for tags 1..4 binds the name to a slot at the old heap cursor and stores into it; for tag 0 binds and stores nothing |
| Compiler.CompileStmt | compiler/compiler.c:44-57 | a print appends its expression then PRNT; a declaration compiles the declaration; any other statement appends nothing |
| Compiler.CompileStmtList | compiler/compiler.c:37-42 | appends the statements' code, last statement first |
| Compiler.Compile | compiler/compiler.c:25-35 | returns a fresh buffer holding every file's code in index order, then HLT, and the final symbol table and heap cursor |
| Bytecode.DecodeEncode | compiler/compiler.c:59-231 | the emitted word stream decodes, opcode by opcode, back to exactly the instructions that were emitted |
| Lowering.TypeOfTag | compiler/compiler.c:242-292 | the value type a declaration gives its symbol has the shape tag that compileExpr returned |
| Lowering.PushCharsSize | compiler/compiler.c:110-117 | the character blocks of a string literal take 5 words per character |
| Lowering.LitCodeSize | compiler/compiler.c:66-131 | a bool or int literal takes 6 words, a float 9, a string of length n 5n+6 |
| Lowering.LoadCharsSize | compiler/compiler.c:178-185 | the character loads of a string slot take 5 words per character |
| Lowering.LoadCodeSize | compiler/compiler.c:132-191 | a reference takes 6 words for a bool or int, 9 for a float, 6+5n for a string of length n |
| Lowering.UnaryCodeSize | compiler/compiler.c:194-223 | `+` and `-` take 6 words, `!` and `~` 2, any other operator 0 |
| Lowering.ExprCodeSize | compiler/compiler.c:59-231 | an expression's encoding is exactly as long as the construct-by-construct word count |
| Lowering.StoreCharsSize | compiler/compiler.c:308-315 | the character stores of a string declaration take 5 words per character |
| Layout.LiteralWords | compiler/compiler.c:66-127 | the exact words of each literal: `LII R0 tag, LII R1 v` (a bool as 1/0), a float adding `LII R2 frac`, a string its blocks then `LII R0 4, LII R1 n` |
| Layout.PushCharsLayout | compiler/compiler.c:110-117 | block j of a string literal loads character n-1-j into R0 and pushes R0 |
| Layout.LoadCharsLayout | compiler/compiler.c:176-185 | block j of a string reference loads address a+n+1-j into R2 and pushes R2 |
| Layout.StoreCharsLayout | compiler/compiler.c:307-315 | block j of a string declaration pops into R0 and stores R0 at the slot's character address j |
| Layout.ExprCodeReadOnly | compiler/compiler.c:59-231 | expression code never stores to the heap, pops, prints or halts |
| Layout.StoreCharsAddrs | compiler/compiler.c:307-315 | the character stores write h, h+1, …, h+k-1 in that order and load and print nothing |
| Layout.StoreCodeAddrs | compiler/compiler.c:242-316 | a declaration's stores write its slot from the first address upwards, one store per slot word |
| Layout.LoadCharsAddrs | compiler/compiler.c:176-185 | a string reference loads its character addresses from a+n+1 down to a+2 |
| Layout.LoadCodeAddrs | compiler/compiler.c:132-191 | a reference loads each word of the symbol's slot, and only those, one load per word |
| Layout.LoadsMatchStores | compiler/compiler.c:132-191 | a reference loads exactly the addresses the symbol's declaration stores to, as many loads as stores |
| Emission.LastFirst | compiler/compiler.c:37-42 | the last statement of a list is compiled first, in the list's starting environment, and the rest after it |
| Emission.DeclStores | compiler/compiler.c:233-324 | a declaration writes exactly the words between the old and new heap cursor, in ascending order, prints nothing, and binds its name to the slot at the old cursor |
| Emission.StmtStores | compiler/compiler.c:44-57 | a statement writes exactly the heap it allocates; a print statement gives one PRNT, other statements none |
| Emission.StmtsStores | compiler/compiler.c:37-42 | a statement list fills the heap contiguously from its starting cursor, each word once, and prints once per print statement |
| Emission.FilesStores | compiler/compiler.c:29-31 | the same across the files, compiled in index order |
| Emission.ProgramStores | compiler/compiler.c:25-35 | a compiled program writes the heap from HEAP_BASE upwards without gaps and never twice to the same word; its PRNT count is its print-statement count |
| Emission.HaltOnlyAtEnd | compiler/compiler.c:25-35 | the program's last instruction is HLT, its last word is the HLT opcode, and no earlier instruction halts |
| Emission.DeclHaltFree | compiler/compiler.c:233-324 | declaration code contains no HLT |
| Emission.StmtsHaltFree | compiler/compiler.c:37-42 | statement-list code contains no HLT |
| Emission.FilesHaltFree | compiler/compiler.c:29-31 | the files' code contains no HLT |
| Functions.Find | functions/function.c:73-84 | the result is the first function in list order whose name is present and equal to the argument, or none if no function carries it |
| Functions.FindUnique | functions/function.c:73-84 | when names are unique, the function carrying a name is the one found |
| Functions.AppendFresh | functions/function.c:12-26 | appending a function under a new name keeps names unique and makes it found at the end |
| Functions.FindAppendOther | functions/function.c:12-26 | appending a function does not change the lookup of other names |
| Functions.FindBlankBody | functions/function.c:8-10 | blanking a body does not change any lookup |
| Functions.Registry.GetFunction | functions/function.c:73-84 | the cursor walk returns the first function with the name, or none, and agrees with `Find` |
| Functions.Registry.StartFunction | functions/function.c:6-41 | a known name adds no entry, blanks that function's body and makes it the one being defined; a new name appends exactly one function at the end, carrying the pending parameters, and clears the pending list; other names' lookups are unchanged and names stay unique |
| Functions.Registry.EndFunction | functions/function.c:43-47 | does nothing when no function is being defined; otherwise ends definition mode and clears the pending list |
| Functions.Registry.FreeFunctionMode | functions/function.c:49-52 | the pending list is gone |
| Functions.Registry.StartFunctionParameters | functions/function.c:86-89 | the pending list is a new, empty list |
| Functions.Registry.AddSymbolToFunctionParameters | functions/function.c:99-114 | starts an empty pending list if there is none, then appends the symbol as the last parameter, keeping the earlier ones |
| Functions.Registry.AddFunctionParameter | functions/function.c:91-97 | appends a declared parameter carrying its secondary name and type and no value |
| Functions.Registry.AddFunctionCallParameterBool | functions/function.c:116-121 | appends an argument of type bool with the given value |
| Functions.Registry.AddFunctionCallParameterInt | functions/function.c:123-128 | appends an argument of type int with the given value |
| Functions.Registry.AddFunctionCallParameterFloat | functions/function.c:130-135 | appends an argument of type float with the given value |
| Functions.Registry.AddFunctionCallParameterString | functions/function.c:137-142 | appends an argument of type string with the given value |
| Functions.Registry.AddFunctionCallParameterSymbol | functions/function.c:144-146 | appends the looked-up symbol as an argument |
| Functions.Registry.CallFunction | functions/function.c:54-65 | pairs declared parameter i with pending argument i for every i in order, then clears the pending list; a function without parameters may be called with no pending list |
| Functions.WalkFrom | functions/function.c:73-82 | the cursor walk from node `i`: a hit is the first node from `i` on whose name is present and equal; ending or meeting an unwritten pointer means no node from `i` on matches; it meets an unwritten pointer exactly when it passes the last node and that node is not linked |
| Functions.AppendAsWritten | functions/function.c:18-25 | as written: the function is appended at the end, and the new last node is linked to NULL exactly when the list was not empty |
| Functions.AppendLinked | functions/function.c:18-25 | corrected: the function is appended at the end and the new last node is linked to NULL in both branches |
| Functions.SecondNewNameReadsUnsetNext | functions/function.c:12-26 | as written: after defining a function `f` in an empty registry, the lookup of a name walks through `f`'s unwritten next pointer exactly when the name is not `f`'s, as the lookup made when defining a second new name does |
| Functions.WalkLinked | functions/function.c:73-82 | with the last node linked to NULL, the cursor walk from any node past which no match lies finds exactly the function `Find` finds, or reaches the end |
| Functions.LinkedWalkIsFind | functions/function.c:12-26 | corrected: after an append that links the new last node to NULL, the walk over the list never meets an unwritten pointer and agrees with `Find` |

## Left out

- `vm/cpu.c` is not part of this model. Its execution goes through a JIT library that is not available. No execution meaning is given to the opcodes, so the load/store alignment is stated over addresses, not values.
- `utilities/language.c` (terminal output and help text) is not part of this model.
- Float literals arrive already split into integer and fractional parts. The `%Lf` text formatting and `sscanf` split at `compiler/compiler.c:93-97` are floating point and are not modelled.
- Words are unbounded integers. The 64-bit width of `i64` and any wrap-around are not modelled.
- Compiler.CompileIdent: the cursor updates `addr += len - 1` are computed on unbounded integers. For an empty string the source's `size_t` arithmetic wraps instead. The cursor is not read after the loop, and the loop emits nothing for an empty string, so no emitted word differs.
- Strings are Dafny strings of characters, one character per byte of the source's `char*`. The model covers ASCII strings without NUL. A non-ASCII character is several bytes in the source: more push blocks, a wider slot, and with signed `char` a negative `s[i-1] - '0'`. An embedded NUL cuts the source's `strlen` short.
- The symbol table (`getSymbol`, `addSymbolBool/Int/Float/String`) is a `map` in `Compiler.SymbolTable` rather than its real implementation. Only a symbol's type, address and string length are kept, not its value.
- Identifiers must be declared (`Lowering.Declared`), because the source dereferences the lookup result without a check. A symbol of any type other than bool, int, float or string is not modelled.
- Memory management is not modelled: `malloc`, `realloc`, `free`, and `freeProgram` (which discards the result of `initProgram`).
- Compiler.Program.Pop: requires `0 < size < capacity`. On an empty buffer `popProgram` reads `arr[0]` and moves `size` below zero, and on a full buffer it reads past the array; neither is modelled. `popProgram` has no caller in the compiler.
- Compiler.Program.PushInstr: `push_instr` has no bounds check. The model requires `size < capacity`, and every compile method requires room for the words it emits.
- Functions.Registry.StartFunction: for a new name the source reads the pending list without a check. The model requires that a pending list exists.
- Functions.Registry.CallFunction: requires the function to exist, because the source dereferences the lookup result without a check. It also requires at least as many pending arguments as declared parameters (counting an absent pending list as empty), because the loop reads argument i for every declared parameter i. `createCloneFromSymbol` is modelled by returning the bindings it would be asked to create; its fourth argument, the pending argument's `secondary_type`, is not modelled.
- `injectCode` (which runs the body), `removeSymbolByName` (the removal loop after the body), and `recordToken` call into code outside this model. Body text is not recorded: a new function's body is empty.
- The `previous`/`next` links of the function list are represented by sequence order. The global `function_cursor` is a local variable of `GetFunction`.
- Functions.Registry.AddFunctionCallParameterSymbol takes the symbol that `getSymbol` returns, not the name.
- The symbol-table side effects of `addSymbol` in `addFunctionParameter` and in the other `addFunctionCallParameter*` calls are not modelled.
- Functions.Registry.AddFunctionCallParameterInt and Functions.Registry.AddFunctionCallParameterFloat: the C `int` and `float` parameters are unbounded `int` and `real` in the model. 32-bit wrap-around and single-precision rounding are not modelled.
- The registry's sequence model is the corrected list, in which every appended function ends the list. The uninitialised next pointer of the first function (see Findings) is modelled separately, by `Functions.AppendAsWritten` and `Functions.WalkFrom`.
- The `sizeof(Symbol)` versus `sizeof(Symbol*)` mismatch in the `realloc` calls of `functions/function.c` is not modelled.

## Findings

| source | as written | input that shows it | evidently intended | confidence | as-written member | corrected member |
|---|---|---|---|---|---|---|
| compiler/compiler.c:333 | `popProgram` returns `arr[size]`, the slot past the last word, and then decrements `size` | push 7, push 8, pop twice: the second pop returns 8 (the first returns the unwritten slot) | return `arr[--size]`, the last word written | not executed | Compiler.PopAsWrittenIsShifted | Compiler.PopLastIsLifo |
| functions/function.c:18-20 | on an empty list `startFunction` makes the freshly allocated function both start and end, but never writes its `next` pointer (only the non-empty branch sets `end_function->next = NULL`) | define `f`, then define `g`: the `getFunction("g")` call at the start of the second `startFunction` moves the cursor from `f` to the uninitialised `f->next` | set `function_mode->next = NULL` in the empty-list branch too | not executed | Functions.SecondNewNameReadsUnsetNext | Functions.LinkedWalkIsFind |
