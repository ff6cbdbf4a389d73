# COR24 development group: a verified model of its central programs

The repository holds software for the COR24, a 24-bit processor. This project models the
parts of it with the most intricate behaviour and proves what they are meant to do.

**Tiny Macro Lisp** (`suites/combined-lisp/src`), a Lisp whose values are single 24-bit words
with a 2-bit tag:

- `Tml`, `Reachability`, `Collector`, `Mutator`, `HeapRuns`: the cell heap, the mark-sweep
  collector and the allocator, over the source's parallel arrays. Marking is proved to reach
  exactly the reachable cells, sweeping to free exactly the others, allocation to fail only
  when every cell is reachable; and a program run on this heap, by the allocator and the
  collector as they are, cannot be told apart from one on a heap that never reuses a cell.
- `Words24`, `LispSource`, `Cor24`, `Codegen`, `Labels`, `CompileCorrect`, `CompileCalls`,
  `CompileProgram`, `Compiler`: the compiler to COR24 assembly. `LispSource.Eval` gives the
  meaning of the source, `Cor24` is the machine, `Codegen` the code as a function,
  `Compiler.Compiler` the compiler as it runs (output stream, counters, growing tables).
  Running the compiled code computes what the source means. `CompileLaws` says what that is,
  symbol by symbol and on the pairs the reader makes.
- `Exceptions`, `Evaluator`, `EvalFuel`: the interpreter. `Exceptions` is a semantics in which
  a throw is an exceptional outcome; `Evaluator.Interp` is the interpreter as it runs, with
  its stack of catch frames and the flag every caller has to look at; the second is proved
  to compute the first.
- `Meaning`, `MeaningLaws`, `HeapMeaning`, `EvalMeans`, `ReadMeans`, `Primitives`: what forms mean as
  trees, with variables as places in a store and functions that remember their environment, and
  no heap. An evaluation on a heap that holds the form and the state computes that meaning; so
  does the interpreter, from the start on, for each form that is read. `Primitives` are those on
  numbers and lists.
- `FirstOrder`, `SameValues`, `Agreement`, `ProgramAgreement`: the compiler and the interpreter
  against each other. A first-order program has the same value compiled and interpreted.
- `FormText`, `EvalFrame`, `BehindThrow`, `QuasiThrow`, `ReadForms`, `BehindThrowExample`: what is
  evaluated while a throw is under way. Only the expansion of a quasiquote goes on without
  looking at the flag. `FormText` reads off a form what it then does, `EvalFrame` shows that
  evaluation never writes a form, `QuasiThrow` has the result, `ReadForms` shows that it is
  about the heap the reader leaves.
- `LispText`, `ReadPrint`, `ReadLaws`, `LispStore`, `LispReader`: the reader and the printer, as
  functions on text and as the programs that patch list tails in the heap. Reading takes back
  what printing wrote, and `ReadLaws` has what the printer never writes.
- `Snapshot`: the interpreter's memory written out as hexadecimal text and restored from the
  bytes it stands for.

**te2** (`te/te2`), the verified uploader: `Crc`, `CrcRemainder` (the register as the remainder of a
division by the generator), `Te2Wire`, `Te2Loader`, `Te2Confirm` (what the loader makes of any lines
whatever), `Te2Target` (the loader as it runs), `Te2Host` (the host as it runs), `Te2Protocol` (both,
over channels that lose lines and insert noise), `Te2Window` (what every event keeps),
`Te2Safety` (what the upload achieves over every run). `RomLoader` is the ROM's own monitor
(`reference/loadngo.c`) with its line buffer, `TwoLoaders` compares it with the uploader: the same
memory and the same entry for images whose lines it can take. `BinToLgo` is the converter that
writes its input files.

**Two smaller programs**: `MemTest`, the address-bus memory test, behind an arbitrary address
decoder; `UartRing`, the interrupt-driven echo program, with the handler running between
any two steps of the main loop.

`Wrappers` holds what several modules share, `Numerals` what the texts of numbers are.
`dafny verify dfyconfig.toml` checks the project.

## Hypotheses

- **Collector.** An explicit collection may start from stale words that name cells on the free
  list; marking then follows the link stored there. It must not be led to the end of that
  list, whose link names no cell: `MarksInside` says exactly when it is not. The
  collection inside the allocator, which runs when no cell is free, has no such condition.
  The words of the C stack are an arbitrary sequence of words, of which the scan takes those
  that look like pointers to cells that have been handed out
  (`suites/combined-lisp/src/gc.h:95-120`). Out of memory is the result `None`.
- **Compiler.** The runtime routines `_cons`, `_car`, `_cdr` and `_print_val` are not part of the
  repository's compiler output; they are known by their calling convention: arguments from
  `sp` up, result in r0, and whatever else they leave in r1, r2, the condition bit and the
  `need` bytes below `sp` is arbitrary. Memory is a map from addresses to words and words are
  three bytes apart, as the code uses them; branch distance and instruction encoding are
  left to the linker (`Cor24.Wired`). The theorem is for expressions that evaluate: operands
  are evaluated right to left as the code does, exactly the first two operands of an inlined
  operator are read and a missing one is nil, an inlined name is an operator even where a
  parameter has it, a function sees its own parameters and the globals only, an unset global
  is the word 0, surplus arguments are allowed, and the empty `begin`, for which no code is
  emitted, has no value. The tables of 32 functions and 64 globals are unbounded here.
  `Eval` also computes how many bytes of stack an evaluation needs; the machine must have them.
- **Interpreter.** The heap never reuses a cell (`Mutator.CollectionInvisible` and `HeapRuns.Run`
  are why this is enough) and has no end. The primitives that neither throw nor evaluate are
  an arbitrary function of their number, their argument list and the world. An evaluation
  that does not end or that comes to `dynamic-wind` has the outcome `Out`, about which nothing
  is claimed; all forms, macros and quasiquote included, are covered. `EvalFrame` and
  `QuasiThrow` ask of the primitives that they write no cell that is there, leave the global
  environment alone and make no closures (`EvalFrame.PrimsOk`, which `QuietPrims` shows can be
  met), and start from a typed heap, in which extended words name extended objects and
  environments are lists of bindings: the heap of registered primitives is one
  (`RegisterTyped`), and reading (`ReadFits`) and evaluating (`EvalFrames`) keep it so. Reading
  through nil reads cell 0, the first primitive registered (`FirstRegistered`).
- **Meaning.** `Meaning` has no value, `Stuck`, for forms that are none (an `if` without parts, a
  parameter that is no symbol), for a throw inside a template and for `dynamic-wind`; of those
  `EvalFuel`, `EvalFrame` and `QuasiThrow` speak. Symbols are the words of their names, strings the
  words that name them. The primitives are to compute given functions on values and messages
  (`EvalMeans.PrimsMean`); those on numbers and lists are proved to (`Primitives.StandardMeans`),
  print, the string primitives and those on the machine are any others. Circular lists, which
  only writing a cdr could make, are not asked about.
- **Agreement.** A first-order expression (`FirstOrder.First`) is built of numbers, nil, t, variables
  and quoted data, if, begin, the compiled operators on as many operands as they have, and
  calls; a program besides defines variables and functions of one body form, each name once and
  none that is a special form or a primitive. Both must come to a value, and the interpreter
  must not print a complaint: where it complains, of an unbound variable or of `=` on what are
  no numbers, the compiled code goes on with another value.
- **Reader.** Strings must start in the first 2048 bytes of the string pool, see
  `LispStore.PackedExactly`. Tables do not run full, and no cell is reclaimed while reading.
- **te2.** The loader starts fresh: attaching to a running one leaves its expected sequence
  number (`te/te2/te2-loader.c:282-284`). Its memory keeps what is written. A damaged line on the
  way to the target is one the loader refuses; lines damaged by a short burst are proved
  to be of this kind (`Te2Loader.BurstRefused`). A damaged answer, having no checksum, must not
  equal the awaited one. Timeouts are nondeterministic: the host may repeat its line at any
  time, and giving up after a number of tries is a run that ends early.
- **ROM loader.** L and G lines that the ROM carries out are in upper case. Lines of any length and
  anywhere are covered; those over 79 characters or behind a G line are lost in the ROM. A G
  line calls the address (`reference/loadngo.c:116-165`); that control does not come back, to
  read on behind it, is a hypothesis. The memory has the whole 24-bit address space. What it
  prints is not modelled.
- **Snapshot.** The words saved are 24-bit words. Turning the text into bytes is left to whoever
  carries it; a stream with the three letters in front is as long as its counts say and its
  counts fit the tables.

## Where the code does less than it seems

- `JumpExactly`, `JumpAboveLoader`: the G command compares addresses as signed numbers, so it
  turns away entries from the loader's base up to 0x7FFFFF but none from 0x800000 up. The
  host never sends those.
- `ThreeOperandsDiffer`: compiled code reads two operands of an operator and the interpreter all of
  them, so `(+ x y z)` has the same value in both if and only if z is 0.
- `FirstRecord`: a host that attaches to a loader which has taken exactly one record gets its
  first record acknowledged and not stored.
- `PackedExactly`: a string's offset is stored in 11 bits while the pool has 8192 bytes; the
  string is found again exactly when its offset is below 2048.
- `MemTestAddressBus`: one of its checks, of address zero in the second part, can never fail.
- `DefinedBehind`, `DefinedBehindThrow`: the interpreter does not look at the throwing flag while
  it expands a quasiquote (`suites/combined-lisp/src/eval.h:598-646`), so the unquoted
  expressions behind one that throws are evaluated too. The throw keeps its frame and its
  value, and each of them gets as far as its first evaluated subform, and so on down: that
  chain ends in a symbol, in `(define (f ..) ..)` or `defmacro`, in a template, or in a form that
  does nothing. The global environment is changed behind the throw if and only if one of
  the chains ends in a definition; something is printed if and only if one ends in a symbol
  bound neither at the throw nor by a definition since, and exactly these messages. The
  form's text and what is bound at the throw decide both.
- `MarkInside`, `MarksInside`, `StaleEnd`: the link of the last free cell is the one word in the heap
  that names no cell; an explicit collection comes to it, and leaves the heap, if and only if a
  stale word leads to that cell, as a pointer to the cell itself does.
- `LineAgrees`, `TwoLoadersAgree`: the ROM drops the first 80 characters of a longer line, takes
  the rest for a line, and reads nothing behind a G line, while an upload takes every line. An
  L line stores in the ROM what it stores by upload if and only if it has at most 79
  characters or changes nothing; a whole image gives the same memory and the same entry if
  and only if the lines the ROM does not carry out leave no byte behind and are no later entry.

## Model

| member | source | states |
|---|---|---|
| Collector.Heap.GcMarkVal | suites/combined-lisp/src/gc.h:51-71 | whatever is marked already, exactly the cells reachable from the argument along unmarked cells are added to the marks, with sharing and cycles; car recursion and cdr iteration end |
| Reachability.WalkStep | suites/combined-lisp/src/gc.h:55-66 | one turn of the marking loop: the cell, what its car reaches and what its cdr still has to reach make up what the cell reaches |
| Reachability.WhiteIsReach | suites/combined-lisp/src/gc.h:51-71 | when the marked cells are closed under successors, what is reachable through unmarked cells is all that is reachable and not marked |
| Reachability.RootStep | suites/combined-lisp/src/gc.h:134-158 | marking one root after another marks what the roots reach together |
| Collector.ChainAcyclic | suites/combined-lisp/src/gc.h:82-86 | a free list ends in -1, names no cell twice, and the links alone determine it |
| Collector.Heap.FreeCell | suites/combined-lisp/src/gc.h:82-86 | pushing an unmarked cell extends the free list in front and touches no other cell |
| Collector.Heap.GcSweep | suites/combined-lisp/src/gc.h:75-89 | the free list holds exactly the unmarked cells below heap_next, in order; marked cells keep car and cdr; all marks are clear |
| Collector.Heap.GcScanStack | suites/combined-lisp/src/gc.h:95-120 | every stack word that looks like a pointer to a cell handed out is marked from, and no other |
| Collector.Heap.MarkProtected | suites/combined-lisp/src/gc.h:137-142 | everything reachable from the protected words and the global environment is marked |
| Collector.Heap.MarkFrames | suites/combined-lisp/src/gc.h:144-155 | everything reachable from wind thunks, catch tags and catch values is marked |
| Collector.Heap.GcCollect | suites/combined-lisp/src/gc.h:124-162 | the live heap becomes its restriction to the reachable cells, each with its old car and cdr; the free list is exactly the rest below heap_next; marks are clear; also when it starts from words that name free cells |
| Collector.Heap.OnlyEndLeadsOut | suites/combined-lisp/src/gc.h:82-86 | of all words in cells handed out, free ones included, only the link of the last free cell names no cell |
| Collector.Heap.MarkInside | suites/combined-lisp/src/gc.h:51-71 | the marking loop with its index checked finds a word that names no cell, the link of the last free cell, if and only if it has marked that cell |
| Collector.Heap.MarksInside | suites/combined-lisp/src/gc.h:134-158 | marking from all roots leaves the heap if and only if they lead to the last cell of the free list |
| Collector.Heap.StaleEnd | suites/combined-lisp/src/gc.h:113-118 | a stale stack word that leads there: a pointer to the last free cell |
| Collector.Heap.CollectsInside | suites/combined-lisp/src/gc.h:124-162 | GcCollect's condition, some part of the heap that no word leads out of and that holds the roots, is met if and only if they do not lead there |
| Collector.Heap.GcAllocCell | suites/combined-lisp/src/gc.h:166-205 | a NIL/NIL cell that was not in use, every reachable cell kept; out of memory exactly when all HEAP_SIZE cells are reachable |
| Collector.Heap.AllocCell | suites/combined-lisp/src/heap.h:18-32 | the same through the switch gc_enabled, with the bump allocator before the collector is on: out of memory exactly when all cells are reachable, before when all have been handed out |
| Collector.Heap.Cons | suites/combined-lisp/src/heap.h:34-39 | a new pair with the two words, all that the roots reach kept; none exactly when there is no cell to hand out |
| Collector.Heap.SetCdr | suites/combined-lisp/src/eval.h:204-204 | a cdr update changes that one cell and keeps the heap in order |
| Collector.Heap.GcCountFree | suites/combined-lisp/src/gc.h:207-215 | the count ends and is heap_next minus the number of cells in use |
| Collector.Heap.GcProtect | suites/combined-lisp/src/gc.h:34-43 | the word becomes a root, or the root stack is full |
| Mutator.CollectionInvisible | suites/combined-lisp/src/gc.h:124-205 | in any run of constants, moves, allocations, reads, updates and collections the registers show at the end what they would show on a heap that never reuses a cell: same non-pointers, same equalities between pointers, same tags |
| Mutator.SimStep | suites/combined-lisp/src/gc.h:166-205 | each step, with a collection or the reuse of a dropped cell inside it, keeps the correspondence with the ideal heap |
| HeapRuns.Allocate | suites/combined-lisp/src/eval.h:111-135 | allocating a pair or an extended object from registers on the stack is a step of this kind, whatever other words the stack holds, and fails exactly when memory is exhausted |
| HeapRuns.Step | suites/combined-lisp/src/gc.h:124-205 | so is every other action, explicit collections included |
| HeapRuns.Run | suites/combined-lisp/src/gc.h:124-205 | a program run on a fresh heap by the allocator and the collector as they are goes on until memory is exhausted and shows what it would show on a heap without reuse |
| Mutator.IdealDetermined | suites/combined-lisp/src/heap.h:18-41 | the heap without reuse has one outcome for each program |
| Mutator.FreshReads | suites/combined-lisp/src/heap.h:36-44 | reading a fresh pair gives the words it was made of, in order, and after an update of its cdr that word and the old car |
| Words24.FixAdd | suites/combined-lisp/src/compile.h:391-399 | adding two tagged fixnums modulo 2^24 is the tagged sum folded into 22 bits |
| Words24.FixSub | suites/combined-lisp/src/compile.h:401-409 | the same for subtraction |
| Words24.FixMul | suites/combined-lisp/src/compile.h:411-421 | untagging one operand by an arithmetic shift and multiplying modulo 2^24 gives the tagged product folded into 22 bits, negative operands included |
| Words24.FixLess | suites/combined-lisp/src/compile.h:423-444 | signed comparison of tagged words orders the fixnums |
| Codegen.GenGrown | suites/combined-lisp/src/compile.h:199-607 | compiling an expression only adds labels, globals and functions, and the bodies it defers are together smaller than the expression |
| Codegen.GenFnPending | suites/combined-lisp/src/compile.h:610-630 | emitting a deferred body, which may defer more, makes the total size of what is pending smaller: the draining loop ends |
| Labels.LabelsOnce | suites/combined-lisp/src/compile.h:645-672 | each label below the final counter is defined exactly once in a program, no other is defined |
| Labels.TextKnown | suites/combined-lisp/src/compile.h:645-672 | each label and each global the code refers to is one the program defines |
| Labels.GlobalsOnce | suites/combined-lisp/src/compile.h:633-642 | each global in the table has exactly one data word and no other symbol has one |
| CompileCorrect.VarRuns | suites/combined-lisp/src/compile.h:218-233 | a parameter is found at its frame offset, another symbol in its global word |
| CompileCorrect.QuoteRuns | suites/combined-lisp/src/compile.h:134-150 | the code for a quoted datum allocates the pairs evaluation allocates and leaves the datum's word in r0 |
| CompileProgram.QuoteBuilds | suites/combined-lisp/src/compile.h:134-150 | the pairs made for a quoted datum rebuild it and leave older pairs alone |
| CompileCorrect.MulRuns | suites/combined-lisp/src/compile.h:411-421 | the code behind `*` leaves the folded product |
| CompileCorrect.CompareRuns | suites/combined-lisp/src/compile.h:423-467 | the comparison sets the condition bit as the operator asks |
| CompileCorrect.TruthRuns | suites/combined-lisp/src/compile.h:432-442 | the tail of a predicate leaves t or nil by the condition bit and joins |
| CompileCorrect.ConsRuns | suites/combined-lisp/src/compile.h:469-479 | the call of _cons leaves the new pair's word and takes both operands off the stack |
| CompileCorrect.TestedRuns | suites/combined-lisp/src/compile.h:501-564 | null?, not and pair? test what they are named for |
| CompileCalls.IfRuns | suites/combined-lisp/src/compile.h:282-317 | the test and exactly the chosen branch are executed, the machine arrives behind the other |
| CompileCalls.DefineRuns | suites/combined-lisp/src/compile.h:329-363 | the value is left in r0 and in the global's word |
| CompileCalls.ArgsRuns | suites/combined-lisp/src/compile.h:190-195 | arguments are evaluated right to left and lie on the stack first to last |
| CompileCalls.ParamsFrame | suites/combined-lisp/src/compile.h:177-187 | after the prologue the parameters are at fp+9, fp+12, ... |
| CompileCalls.BodyRuns | suites/combined-lisp/src/compile.h:610-622 | a call runs prologue, body and epilogue and returns with sp, fp, r2 and the caller's stack restored |
| CompileCalls.CallRuns | suites/combined-lisp/src/compile.h:579-607 | a call evaluates arguments, then the function, runs its body on them and takes them off the stack |
| CompileCalls.Correct | suites/combined-lisp/src/compile.h:199-607 | semantic preservation: for every expression with a value, at any call depth, running its code leaves the value's word in r0, sp, fp and all stack words from sp up as on entry, and globals, pairs and output as evaluation leaves them |
| CompileProgram.ProgramWhole | suites/combined-lisp/src/compile.h:624-672 | a compiled program contains the code of every function it refers to |
| CompileProgram.ProgramCorrect | suites/combined-lisp/src/compile.h:645-672 | a compiled program, run from _cmain, prints what the source prints, leaves the last value in r0 and returns to its caller with the stack and the saved registers as they were |
| CompileProgram.EvalMono | suites/combined-lisp/src/compile.h:5-17 | the meaning of a source program does not depend on the bound on call depth |
| CompileLaws.ArithmeticMeans | suites/combined-lisp/src/compile.h:391-467 | the pairs `(s a b)` with symbol 14, 15, 16, 19 or 20 for s have the folded sum, difference or product of the numbers that a and b have, or t exactly when the first is less than, or equal to, the second |
| CompileLaws.ConsMeans | suites/combined-lisp/src/compile.h:469-479 | symbol 21 makes one more pair, of the first value and the second |
| CompileLaws.PartsMean | suites/combined-lisp/src/compile.h:481-499 | symbols 22 and 23 give the first and the second value of the pair |
| CompileLaws.TestsMean | suites/combined-lisp/src/compile.h:501-564 | symbols 25 and 29 give t exactly for nil, symbol 26 exactly for a pair |
| CompileLaws.PrintMeans | suites/combined-lisp/src/compile.h:566-577 | symbol 30 hands the value back and adds it to what is printed |
| CompileLaws.IfLaw | suites/combined-lisp/src/compile.h:282-317 | symbol 3: the third form when the test is nil, else the second; nil when there is no third |
| CompileLaws.BeginLaw | suites/combined-lisp/src/compile.h:320-327 | symbol 7: the value of the last form, each in the world the one before left |
| CompileLaws.DefineLaw | suites/combined-lisp/src/compile.h:329-363 | symbol 4 sets the one global to the value it hands back |
| CompileLaws.LambdaLaw | suites/combined-lisp/src/compile.h:329-381 | symbol 5 is the function of these parameters and this body, by itself and in a definition |
| CompileLaws.QuoteLaw | suites/combined-lisp/src/compile.h:276-280 | symbol 2: a copy of the datum in new pairs |
| CompileLaws.ParamIs | suites/combined-lisp/src/compile.h:177-187 | a parameter stands for the argument at its place, the last of the same name counting |
| CompileLaws.VariableLaw | suites/combined-lisp/src/compile.h:218-233 | a variable is a parameter or else a global, which is 0 until it is defined |
| CompileLaws.ArgsLaw | suites/combined-lisp/src/compile.h:190-195 | arguments are evaluated last to first |
| CompileLaws.CallsLaw | suites/combined-lisp/src/compile.h:579-607 | a call evaluates the body with each parameter bound to its argument and no other local variable |
| CompileLaws.ArithmeticRuns | suites/combined-lisp/src/compile.h:391-467 | the code of such an expression leaves the tagged word of the result, modulo 2^24, or the word of t or nil in r0, and the stack as it was |
| CompileLaws.PrintsThree | suites/combined-lisp/src/compile.h:566-577 | the program `(print (+ 1 2))` prints 3 |
| FirstOrder.EvalKeeps | suites/combined-lisp/src/compile.h:199-607 | evaluating a first-order expression changes no global, prints nothing and makes no functions |
| SameValues.LookupSame | suites/combined-lisp/src/eval.h:146-168 | a variable means the same in the frame or global word of compiled code and in the environments of the interpreter, whatever has been defined since its function was made |
| SameValues.OperatorsSame | suites/combined-lisp/src/eval.h:212-275 | where the interpreter does not complain, its operator gives what the compiled one gives |
| Agreement.AgreeArgs | suites/combined-lisp/src/eval.h:190-210 | the arguments have the same values, found last to first by compiled code and first to last by the interpreter |
| Agreement.AgreeCall | suites/combined-lisp/src/eval.h:809-845 | so has a call, of any depth |
| Agreement.Agree | suites/combined-lisp/src/eval.h:648-847 | a first-order expression has the same value compiled and interpreted, if both come to one and the interpreter does not complain |
| ProgramAgreement.ProgramAgrees | suites/combined-lisp/src/compile.h:645-672 | so has a whole program with definitions of variables and functions, from the start of either |
| ProgramAgreement.CompiledAsInterpreted | suites/combined-lisp/src/compile.h:645-672 | a compiled program leaves in r0 the word of the number or symbol that the interpreter makes of the same program, and returns to its caller |
| ProgramAgreement.ThreeOperandsDiffer | suites/combined-lisp/src/compile.h:384-389 | with three numbers `+` has the same value compiled and interpreted if and only if the third is 0 |
| Compiler.Compiler.CgAdd | suites/combined-lisp/src/compile.h:75-83 | a symbol is entered in the table of globals once |
| Compiler.Compiler.CQuote | suites/combined-lisp/src/compile.h:134-150 | the compiler as it runs appends the code the specification gives for a quoted datum |
| Compiler.Compiler.CPushArgs | suites/combined-lisp/src/compile.h:190-195 | the same for pushing arguments |
| Compiler.Compiler.CExpr | suites/combined-lisp/src/compile.h:199-607 | the same for every expression, together with counters and tables |
| Compiler.Compiler.CemitFns | suites/combined-lisp/src/compile.h:625-630 | the loop over a table that grows while it is drained emits all deferred functions, and ends |
| Compiler.Compiler.CemitData | suites/combined-lisp/src/compile.h:633-642 | one word for each global, in order of entry |
| Compiler.Compiler.CompileProgram | suites/combined-lisp/src/compile.h:645-672 | a fresh compiler writes exactly the program the theorems are about |
| Evaluator.Interp.EvalExpr | suites/combined-lisp/src/eval.h:648-847 | every evaluation with an outcome is computed: a value with no throw pending, or a pending throw aimed at the innermost live frame with its tag, holding its value, in the world it leaves; the frame stack is as before; with a throw already under way, the throw keeps its target frame and its value |
| Evaluator.Interp.CatchForm | suites/combined-lisp/src/eval.h:776-795 | a catch form answers exactly the throws to its tag from inside its body, lets others pass and restores the depth |
| Evaluator.Interp.Throw | suites/combined-lisp/src/eval.h:527-551 | a throw is aimed at the innermost live frame with its tag, or reported when there is none |
| Evaluator.Innermost | suites/combined-lisp/src/eval.h:531-546 | the frame found has the tag and no later one has it |
| Evaluator.InnermostPushed | suites/combined-lisp/src/eval.h:783-792 | inside a catch form the target of a throw is the new frame exactly for its own tag, and else what it was outside |
| Evaluator.Interp.EvalList | suites/combined-lisp/src/eval.h:190-210 | the values left to right in a fresh list; nothing is evaluated or allocated behind an argument that throws |
| Evaluator.Interp.BeginForm | suites/combined-lisp/src/eval.h:797-807 | the forms before the last one in order, stopping at a throw; the last is a tail call |
| Evaluator.Interp.CallForm | suites/combined-lisp/src/eval.h:809-845 | macros get their operands unevaluated and their expansion is evaluated, closures their arguments bound, primitives are applied |
| Evaluator.Interp.SetForm | suites/combined-lisp/src/eval.h:715-744 | the innermost binding, local before global, is changed in place, and nothing when the value throws |
| Evaluator.Interp.DefineForm | suites/combined-lisp/src/eval.h:691-713 | a new global binding in front, and none when the value throws |
| Evaluator.Interp.Bind | suites/combined-lisp/src/eval.h:170-186 | parameters to arguments in order, a dotted parameter takes the rest |
| Evaluator.Interp.Lookup | suites/combined-lisp/src/eval.h:146-168 | the first binding of the symbol, local before global |
| Evaluator.Interp.ApplyFn | suites/combined-lisp/src/eval.h:849-863 | apply_fn computes the application of a closure or a primitive to a list |
| Evaluator.Interp.QuasiExpand | suites/combined-lisp/src/eval.h:598-646 | a template is expanded as the semantics says, its unquoted parts evaluated in order, spliced lists copied; parts behind one that throws are evaluated too and the throw stays under way |
| Evaluator.Interp.SpliceCells | suites/combined-lisp/src/eval.h:615-624 | the cells of a spliced list are copied behind the last cell |
| Evaluator.Interp.MacroExpand | suites/combined-lisp/src/eval.h:473-493 | a form whose head names a global macro is expanded once, any other is handed back |
| EvalMeans.Means | suites/combined-lisp/src/eval.h:648-847 | an evaluation of any form on a heap that holds the form, its environment and the state comes to the value, or the throw, that the tree means, with enough fuel, and leaves a heap that holds the state behind it |
| EvalMeans.IfMeans | suites/combined-lisp/src/eval.h:678-690 | an if: the second form's value when the test is not nil, the third's when it is, nil without a third |
| EvalMeans.BeginMeans | suites/combined-lisp/src/eval.h:798-807 | a begin: the value of its last form |
| EvalMeans.DefineMeans | suites/combined-lisp/src/eval.h:692-713 | a define: one more global variable, in front |
| EvalMeans.SetMeans | suites/combined-lisp/src/eval.h:716-744 | a set!: the place of the variable, local before global, gets the value |
| EvalMeans.CatchMeans | suites/combined-lisp/src/eval.h:776-795 | a catch: the value thrown to its tag, or its form's own |
| EvalMeans.CallMeans | suites/combined-lisp/src/eval.h:809-845 | a call: the value of the body where the function was made, with its parameters bound; a macro's expansion is evaluated in turn |
| EvalMeans.ArgsMeans | suites/combined-lisp/src/eval.h:190-210 | the loop that patches the list of values makes the list of the arguments' values, left to right |
| EvalMeans.ExpandMeans | suites/combined-lisp/src/eval.h:473-493 | macroexpand-1 |
| EvalMeans.QuasiMeans | suites/combined-lisp/src/eval.h:598-646 | a template: itself with its unquoted forms replaced by their values and spliced lists by their elements |
| HeapMeaning.Binds | suites/combined-lisp/src/eval.h:170-186 | env_bind makes the environment in which each parameter has its argument |
| HeapMeaning.LookupStands | suites/combined-lisp/src/eval.h:146-168 | a lookup finds the binding that holds the variable's place |
| HeapMeaning.Splices | suites/combined-lisp/src/eval.h:615-624 | copying the cells of a spliced list adds its elements |
| MeaningLaws.ParameterIs | suites/combined-lisp/src/eval.h:170-186 | a parameter stands for the argument at its place, the last of the same name counting |
| MeaningLaws.RestIs | suites/combined-lisp/src/eval.h:181-184 | a dotted parameter stands for the list of the arguments that are left |
| MeaningLaws.OthersKept | suites/combined-lisp/src/eval.h:170-186 | other names keep their places |
| MeaningLaws.IfExample | suites/combined-lisp/src/eval.h:678-690 | `(if t 1 2)` is 1, `(if nil 1 2)` is 2 |
| Primitives.RunArithmetic | suites/combined-lisp/src/eval.h:224-247 | the loop over any number of operands, each result wrapped to a C int, computes its specification |
| Primitives.ArithmeticMeans | suites/combined-lisp/src/eval.h:224-247 | and comes to the folded exact sum, difference, negation or product, or to a complaint when an operand is no number |
| Primitives.QuotientExact | suites/combined-lisp/src/eval.h:256-263 | division rounds towards zero and the remainder has the sign of the dividend |
| Primitives.LengthBelow | suites/combined-lisp/src/eval.h:229-244 | a list that stands for a value has no more pairs than the heap has cells, so the loop over it ends |
| Primitives.StandardMeans | suites/combined-lisp/src/eval.h:212-330 | + - * / % < =, cons, car, cdr, list and the tests compute their functions on values, complaints included: they meet what EvalMeans.Means asks of primitives |
| Primitives.StandardOk | suites/combined-lisp/src/eval.h:212-330 | they write no cell that is there and make no functions: what EvalFrame.EvalFrames asks |
| ReadMeans.FormNames | suites/combined-lisp/src/eval.h:876-887 | the symbol words of the special forms are those of their names, as interned at the start |
| ReadMeans.PrimitiveNames | suites/combined-lisp/src/eval.h:894-943 | so are those of the primitives |
| ReadMeans.AllCarries | suites/combined-lisp/src/eval.h:867-943 | registering the primitives leaves a heap that holds the state in which each name is its primitive |
| ReadMeans.StartFinds | suites/combined-lisp/src/eval.h:894-943 | in that state each name finds the primitive of its number |
| ReadMeans.ReadStands | suites/combined-lisp/src/read.h:180-249 | a form that has been read stands for its tree, in a heap that still holds the state |
| ReadMeans.EvalTop | suites/combined-lisp/src/combined-suite.c:46-49 | a form read at the prompt and evaluated: the interpreter hands back a word for the value the tree means, no throw is left, and its memory holds the state behind it, ready for the next form |
| EvalFrame.EvalFrames | suites/combined-lisp/src/eval.h:648-847 | from a typed heap on, an evaluation of any form, closures, macros and primitives included, writes no cell that is there but the cdr of a binding, and leaves a typed heap: forms are never written |
| EvalFrame.PartsFrames | suites/combined-lisp/src/eval.h:606-645 | the loop over a template writes besides only the last cell of the list it builds |
| EvalFrame.FoundBinding | suites/combined-lisp/src/eval.h:146-168 | what an environment lookup finds is a binding |
| FormText.ProperLegal | suites/combined-lisp/src/read.h:98-150 | forms whose lists all end in nil are covered |
| FormText.TemplateEffects | suites/combined-lisp/src/eval.h:598-646 | a template does what its unquoted expressions do one after the other, in nested templates too |
| BehindThrow.PrintsExactly | suites/combined-lisp/src/eval.h:146-168 | something is printed if and only if some symbol looked up is bound neither before nor by the definitions in front of it |
| BehindThrow.Behind | suites/combined-lisp/src/eval.h:648-847 | an evaluation behind a throw does exactly what the chain of first evaluated subforms ends in: every cell is kept, the messages are those of unbound symbols looked up, the symbols bound those before and the names defined, the global environment another one exactly after a definition |
| BehindThrow.RestBehind | suites/combined-lisp/src/eval.h:606-645 | from the end of a part that throws on: the throw goes on with its tag and value, and exactly the effects of the later parts take place |
| QuasiThrow.DefinedBehind | suites/combined-lisp/src/eval.h:598-646 | a quasiquote form that throws: one of its unquoted expressions throws, and from then to the end of the form the global environment changes if and only if a later one defines, the symbols bound are those bound at the throw and the names defined, and exactly the messages of symbols unbound then are printed |
| ReadForms.RegisterTyped | suites/combined-lisp/src/eval.h:867-871 | registering a primitive keeps the heap typed |
| ReadForms.ReadFits | suites/combined-lisp/src/read.h:180-249 | what the reader leaves meets what QuasiThrow.DefinedBehind asks for: the heap is typed, the word read is the root of its form, no cell of it is a binding |
| BehindThrowExample.DefinedBehindThrow | suites/combined-lisp/src/eval.h:598-646 | ``(catch 'a `(,(throw 'a 1) ,(define (f) 2) ,x))``, with x unbound, has the value 1, binds f and reports x |
| BehindThrowExample.BehindHere | suites/combined-lisp/src/eval.h:598-646 | the general statement at this input: the first expression throws, and f is bound behind it |
| Exceptions.EvalCatch | suites/combined-lisp/src/eval.h:776-795 | a throw that leaves a catch form is aimed at a frame outside it |
| Exceptions.Eval | suites/combined-lisp/src/eval.h:648-847 | a throw never has a tag that is not live, so none leaves the top level; one that is under way when an evaluation starts is neither lost nor replaced |
| EvalFuel.EvalMore | suites/combined-lisp/src/eval.h:648-847 | more fuel changes no outcome |
| EvalFuel.OneOutcome | suites/combined-lisp/src/eval.h:648-847 | two evaluations that finish agree: the semantics is one function |
| LispText.ReadExpr | suites/combined-lisp/src/read.h:180-249 | reading never goes back and takes at least one character unless it stands at the end, a `)` or a `.`; it terminates on every text |
| LispText.ReadRest | suites/combined-lisp/src/read.h:123-150 | the list loop terminates on every text |
| ReadPrint.IntReads | suites/combined-lisp/src/read.h:70-83 | every 22-bit fixnum, negative ones and the least included, reads back from its decimal text |
| ReadPrint.NameReads | suites/combined-lisp/src/read.h:85-95 | a readable name of up to 63 characters reads back as itself |
| ReadPrint.StringReads | suites/combined-lisp/src/read.h:153-178 | a string of up to 119 characters reads back through its escapes |
| ReadPrint.Reads | suites/combined-lisp/src/print.h:7-50 | the text printed for a value, wherever it stands and whatever delimiter follows, reads back as that value and exactly it is consumed |
| ReadPrint.RestReads | suites/combined-lisp/src/print.h:10-20 | the same behind an element, for proper and dotted lists |
| ReadPrint.RoundTrip | suites/combined-lisp/src/read.h:251-254 | read_str of a printed value is the value |
| ReadLaws.IntDecimal | suites/combined-lisp/src/io.h:100-120 | what is printed for a number is its decimal text without a zero in front |
| ReadLaws.DecimalReads | suites/combined-lisp/src/read.h:70-83 | any decimal text, zeros in front and a minus sign included, reads as the number folded into 22 bits, and exactly it is consumed |
| ReadLaws.HexReads | suites/combined-lisp/src/read.h:52-68 | `#x` and any hexadecimal text of a number, in either case, reads as the number folded into 22 bits, and exactly it is consumed |
| ReadLaws.NameReadsWhole | suites/combined-lisp/src/read.h:26-33 | a text of up to 63 characters that are no white space, parenthesis, quoting mark or dot, up to one of these, reads as the symbol of that name |
| ReadLaws.TrueReads | suites/combined-lisp/src/read.h:224-224 | `#t` is t |
| ReadLaws.FalseReads | suites/combined-lisp/src/read.h:225-225 | `#f` is nil |
| ReadLaws.ShortReads | suites/combined-lisp/src/read.h:193-218 | a quote, a backquote, a comma or a comma and an at sign in front of a value reads as the printed long form does |
| ReadLaws.LiteralReads | suites/combined-lisp/src/read.h:153-178 | a string literal reads as what its characters and escapes mean, each escape as its character |
| ReadLaws.CommentReads | suites/combined-lisp/src/read.h:39-43 | a comment up to the end of its line reads as nothing |
| ReadLaws.SpaceReads | suites/combined-lisp/src/read.h:35-48 | so does any white space character |
| ReadLaws.DatumCommentReads | suites/combined-lisp/src/read.h:226-231 | so do `#_` and the value behind it |
| LispStore.PackedExactly | suites/combined-lisp/src/string.h:45-61 | the length of a string comes back from its cell; its offset modulo 2048, hence exactly when below 2048 |
| LispStore.SpineGrows | suites/combined-lisp/src/read.h:127-130 | hanging one more cell behind the tail adds one element and changes no other |
| LispStore.SpineEnds | suites/combined-lisp/src/read.h:134-143 | with its last cdr set the list denotes its elements and that end |
| LispReader.Machine.SkipWhitespace | suites/combined-lisp/src/read.h:35-48 | white space and comments are skipped, nothing else |
| LispReader.Machine.Intern | suites/combined-lisp/src/symbol.h:42-73 | the word returned names the symbol; no name is in the table twice |
| LispReader.Machine.MakeString | suites/combined-lisp/src/string.h:25-50 | the word returned denotes the string exactly if the pool holds the string at its offset modulo 2048, so whenever it starts below 2048 |
| LispReader.Machine.ReadStringLiteral | suites/combined-lisp/src/read.h:153-178 | the literal up to its quote or the end of the buffer, unescaped, as a new string |
| LispReader.Machine.ReadElements | suites/combined-lisp/src/read.h:123-150 | the loop that patches tails builds a list of exactly the elements read, earlier cells untouched |
| LispReader.Machine.ReadExpression | suites/combined-lisp/src/read.h:180-249 | the reader as it runs returns a word that denotes what the text says, and stops where the specification says; of extended objects it makes only strings |
| LispReader.Machine.ReadStr | suites/combined-lisp/src/read.h:251-254 | the same from the start of a text |
| LispReader.Machine.PrintInt | suites/combined-lisp/src/io.h:100-120 | the digit buffer, emptied backwards, gives the decimal text |
| LispReader.Machine.PrintVal | suites/combined-lisp/src/print.h:23-50 | what is written for a word is the text of the value it denotes |
| LispReader.Machine.PrintList | suites/combined-lisp/src/print.h:7-21 | the same for lists, with a dot before an end that is not nil |
| Crc.TargetCrcByte | te/te2/te2-loader.c:87-101 | the loader's crcbyte on 24-bit words, masked after each step, is the CRC with generator x^16+x^12+x^5+1 (ITU-T Recommendation V.41, section 2) |
| Crc.HostCrcByte | te/te2/te2.c:399-406 | the host's crc_byte on 32-bit words, masked once at the end, is the same function |
| Crc.BytesAreBits | te/te2/te2.c:399-421 | adding a byte to the upper half and eight steps is feeding its bits one at a time |
| Crc.BitsInjective | te/te2/te2-loader.c:103-122 | with the same message different registers stay different |
| Crc.CodewordsApart | te/te2/te2-loader.c:195-199 | two messages of one length, each with its own CRC behind it, that differ only within a burst of at most 16 bits are the same, wherever the burst lies |
| Crc.BurstDetected | te/te2/te2-loader.c:195-199 | two messages of one length that are not equal but differ only within a burst of at most 16 bits never have the same CRC |
| CrcRemainder.RemainderExactly | te/te2/te2-loader.c:87-101 | feeding bits to the empty register leaves it empty if and only if the bits are a multiple, without carries, of the 17 bits 1 0001 0000 0010 0001 |
| CrcRemainder.InitialInverts | te/te2/te2-loader.c:87-101 | the initial value 0xFFFF stands for the first 16 bits inverted |
| CrcRemainder.CrcExactly | te/te2/te2-loader.c:103-122 | a CRC is that of a message if and only if the message and the CRC behind it, the first 16 bits inverted, are a multiple of these 17 bits |
| CrcRemainder.ValueFirst | te/te2/te2-loader.c:87-101 | the number a register stands for has its first bit highest |
| Te2Wire.DataLineRoundTrip | te/te2/te2.c:447-451 | the loader reads from a D line exactly the sequence number, address, count, data and CRC the host wrote |
| Te2Wire.EndLineRoundTrip | te/te2/te2.c:525-525 | the same for the E line |
| Te2Wire.SpellsExactly | te/te2/te2-loader.c:67-85 | a field is read as a number if and only if its characters spell it in hexadecimal digits of either case |
| Te2Wire.RecordBytesInjective | te/te2/te2-loader.c:103-122 | the bytes the record CRC is over tell the sequence number, the address and the data apart |
| Te2Loader.AnswersTellTruth | te/te2/te2-loader.c:165-276 | an N or T answer means nothing changed, F that only the stream was confirmed, J that a jump follows from a confirmed state; one record is stored in memory or memory, stream CRC and expected number are unchanged |
| Te2Loader.RecordAccepted | te/te2/te2-loader.c:208-238 | the expected record is stored at its address, added to the stream CRC and acknowledged |
| Te2Loader.DuplicateAcknowledged | te/te2/te2-loader.c:200-203 | the record before is acknowledged again and changes nothing |
| Te2Loader.FirstRecord | te/te2/te2-loader.c:200-207 | record 0 is stored if and only if the loader expects it, and acknowledged without being stored if and only if the loader expects record 1, so the upload needs a fresh loader |
| Te2Loader.BurstRefused | te/te2/te2-loader.c:195-199 | a record damaged by a burst of at most 16 bits, in its numbers, its data or its CRC, is refused and changes nothing |
| Te2Confirm.EndExactly | te/te2/te2-loader.c:241-257 | an E line is answered F, and the stream confirmed, if and only if it has nine characters, its number is the expected one and its CRC that of the stream; else it is refused with E and nothing changes |
| Te2Confirm.DamagedEnd | te/te2/te2-loader.c:241-257 | an E line damaged in a digit, or in its letter, is refused and changes nothing |
| Te2Confirm.DataExactly | te/te2/te2-loader.c:165-239 | a D line is stored if and only if it is well formed with its own CRC and has the expected number; the number before is acknowledged, any other refused with S |
| Te2Confirm.ConfirmedExactly | te/te2/te2-loader.c:241-257 | whatever lines a fresh loader is fed, it is confirmed if and only if some E line carried the count and the CRC of exactly the records stored up to it and none has been stored since |
| Te2Confirm.JumpsConfirmed | te/te2/te2-loader.c:259-276 | it jumps only then |
| Te2Loader.JumpExactly | te/te2/te2-loader.c:259-276 | a jump is taken if and only if the stream is confirmed and the address is below the loader or at least 0x800000 |
| Te2Loader.JumpAboveLoader | te/te2/te2-loader.c:267-267 | an address above the loader that the guard lets pass |
| Te2Target.FieldIsNum | te/te2/te2-loader.c:67-85 | a field that starts in the line is read from the buffer as from the line's text: the terminator stops it, older text behind it is never taken |
| Te2Target.Loader.GetLine | te/te2/te2-loader.c:143-163 | the next line without carriage returns, or -1 for one that does not fit, consumed through its newline |
| Te2Target.Loader.Number | te/te2/te2-loader.c:67-85 | the value of a field of hexadecimal digits, or a cleared flag |
| Te2Target.AddRecord | te/te2/te2-loader.c:103-122 | record_crc and the running CRC take in the same bytes |
| Te2Target.PutHex | te/te2/te2-loader.c:43-56 | the digits of the number, also of the signed reading of an address |
| Te2Target.Loader.DataRecord | te/te2/te2-loader.c:165-239 | data_record computes the specified reaction to every line, in the order of its checks |
| Te2Target.Loader.StoreRecord | te/te2/te2-loader.c:208-238 | the bytes are written, read back and folded in as specified |
| Te2Target.Loader.EndRecord | te/te2/te2-loader.c:241-257 | the same for end_record |
| Te2Target.Loader.GoRecord | te/te2/te2-loader.c:259-276 | the same for go_record |
| Te2Target.Loader.Serve | te/te2/te2-loader.c:278-303 | one turn of the main loop is one step of the loader of the protocol |
| Te2Host.AddRecord | te/te2/te2.c:408-435 | record_crc and update_stream_crc take in the same bytes as the loader |
| Te2Host.FormatRecord | te/te2/te2.c:447-451 | the command of send_record is the D line of the protocol |
| Te2Host.ChunksStore | te/te2/te2.c:498-516 | cutting a line into records of any size writes the same memory as the line as a whole |
| Te2Host.Host.SendLoad | te/te2/te2.c:498-516 | the inner loop sends the pieces of a line in order, up to the first that is bad |
| Te2Host.PiecesAre | te/te2/te2.c:498-516 | cutting a line up piece by piece succeeds exactly if all its digits are good and it ends below the loader, and gives the records of the line |
| Te2Host.SentIs | te/te2/te2.c:478-517 | the host stops at no line exactly if the whole image can be read, and has then sent its records |
| Te2Host.Host.SendImage | te/te2/te2.c:464-537 | an image is sent exactly when every line is good and an entry is given, as the lines of the protocol in order, E with the stream CRC of all records; at a fault exactly the records in front of it have been sent |
| Te2Window.NextLine | te/te2/te2-loader.c:165-276 | the line the target is due makes it one step further and is answered with what the host awaits |
| Te2Window.LastLineAgain | te/te2/te2-loader.c:200-203 | the line before is answered again and changes nothing, for records past the wrap at 65536 too |
| Te2Window.AnswersDiffer | te/te2/te2.c:452-457 | an answer to the phase before, or a refusal, is never taken for the awaited one |
| Te2Window.StepKeeps | te/te2/te2.c:454-460 | sending, receiving, damage and loss in either direction keep the window |
| Te2Window.WindowInvariant | te/te2/te2.c:437-537 | at every moment of every run, for any number of records, the target is level with the host or one step ahead, and the channels hold only lines and answers of the current phase and the one before |
| Te2Safety.UploadSafe | te/te2/te2.c:522-534 | at every moment of every run: once the host has seen F the memory is the initial memory with all records written, each once and in order, both stream CRCs agree; a jump is taken only from there and to the entry |
| Te2Safety.StoredIsPrefix | te/te2/te2-loader.c:200-207 | at every moment what has been stored is a prefix of the image, as long as the host's count or one longer, and memory is exactly that |
| Te2Safety.OneExchange | te/te2/te2.c:454-460 | with quiet channels one line and one answer move the host on |
| Te2Safety.CanFinish | te/te2/te2.c:437-537 | every run that has not come to F goes on to one that has: from wherever losses and noise have led, the upload can still be completed |
| RomLoader.Rom.ReadLine | reference/loadngo.c:66-83 | getline takes a line of at most 79 characters whole, drops the first 80 characters of a longer one and waits when its input is used up; a carriage return ends a line too |
| RomLoader.RomDigitExactly | reference/loadngo.c:85-101 | a hexadecimal digit is one in upper case, at its place in the alphabet |
| RomLoader.Rom.DoLoad | reference/loadngo.c:166-214 | the ROM's L command stores nibble by nibble as specified and complains about short or odd lines |
| RomLoader.Rom.DoGo | reference/loadngo.c:116-165 | the G command jumps exactly for one to six hexadecimal digits in upper case, to the number they stand for |
| RomLoader.Rom.MainLoop | reference/loadngo.c:216-252 | the monitor carries out the command lines in its input in order, up to a jump |
| RomLoader.JumpStays | reference/loadngo.c:116-165 | as long as control does not come back, nothing is loaded behind a jump |
| RomLoader.ScanData | reference/loadngo.c:188-212 | a well formed line stores exactly its bytes from its address on |
| TwoLoaders.TextTaken | reference/loadngo.c:66-83 | the command lines the ROM finds in a text: its lines, or what is left of them behind every 80 characters |
| TwoLoaders.LongLinesIgnored | reference/loadngo.c:66-83 | the ROM loads an image as if the L lines over 79 characters were not there |
| TwoLoaders.RomLoadsTaken | reference/loadngo.c:216-252 | what the ROM loads of an image with lines of any length, and where it goes, is what an upload of the commands up to the first entry gives |
| TwoLoaders.SameOverlay | te/te2/te2-loader.c:208-238 | records give the same memory from any other if and only if they leave the same bytes behind |
| TwoLoaders.TwoLoadersAgree | te/te2/te2.c:478-517 | the text of an image read by the ROM and its records applied in order, for any record size, leave the same memory, from whatever memory, and go to the same entry, if and only if the lines the ROM does not carry out make no difference |
| TwoLoaders.ShortAgree | te/te2/te2.c:478-517 | so they do for an image in lines of at most 79 characters with its entry last |
| TwoLoaders.LineAgrees | te/te2/te2.c:478-517 | for one L line the two agree if and only if it fits the ROM's buffer or changes nothing |
| TwoLoaders.UploadLoadsImage | te/te2/te2.c:464-537 | under the condition of TwoLoadersAgree a confirmed upload leaves the memory the ROM would have left, and its entry is where the ROM would have gone |
| BinToLgo.ConvertFile | suites/plsw-snobol4/tools/bin_to_lgo.py:21-34 | the loop writes the specified lines and ranges |
| BinToLgo.LineLoads | suites/plsw-snobol4/tools/bin_to_lgo.py:34-34 | a written line fits the ROM's buffer and stores exactly its bytes |
| BinToLgo.LinesFit | suites/plsw-snobol4/tools/bin_to_lgo.py:34-34 | every line written arrives in the ROM as it is |
| BinToLgo.OmittedOrdered | suites/plsw-snobol4/tools/bin_to_lgo.py:26-33 | the omitted ranges are in order, disjoint and maximal: no two touch |
| BinToLgo.OmittedExactly | suites/plsw-snobol4/tools/bin_to_lgo.py:26-33 | an address is in them exactly when its record holds only zeros |
| BinToLgo.LoadsExactly | reference/loadngo.c:166-214 | the ROM writes the bytes of the records not left out and touches nothing else |
| BinToLgo.FileLoads | suites/plsw-snobol4/tools/bin_to_lgo.py:21-42 | the text typed at the ROM's monitor: clearing the omitted ranges, before or after loading, makes the result the full load, whatever was in memory |
| BinToLgo.NothingOmitted | suites/plsw-snobol4/tools/bin_to_lgo.py:26-26 | without the option nothing is left out |
| MemTest.MemTestAddressBus | reference/memtest.c:98-159 | behind any address decoder the result is zero if and only if zero and the powers of two under the mask reach different cells; else it is an address that shares its cell |
| MemTest.FillAndCheckHigh | reference/memtest.c:110-132 | the first part finds every address that shares a cell with address zero |
| MemTest.CheckOthers | reference/memtest.c:146-152 | the inner loop finds every other address that shares a cell with the tested one |
| UartRing.EchoesInOrder | reference/uartcint.c:15-47 | with the handler between any two steps, bytes sent, the byte in flight and the ring together are the bytes received, in order |
| UartRing.HandlerKeeps | reference/uartcint.c:15-25 | the handler adds a byte at the end or, when the ring is full, overwrites nothing |
| UartRing.SwitchedOnAgain | reference/uartcint.c:38-47 | with the interrupt off the main loop switches it on within 63 steps |
| UartRing.Program.Uartcisr | reference/uartcint.c:15-25 | the character is appended to the ring, or, exactly when 15 wait in it, nothing moves and the interrupt is switched off; what has been received stays in order |
| UartRing.Program.MainStep | reference/uartcint.c:38-47 | a step moves nothing but the oldest character of the ring towards the UART, loses none, and comes one step nearer to switching the interrupt on, or does so |
| UartRing.Program.Execute | reference/uartcint.c:15-47 | the program under any schedule of interrupts: sent, in flight, ring and what is still to come are the input, in order |
| Snapshot.Machine.Save | suites/combined-lisp/src/snapshot.h:12-49 | the text written is three letters and the hexadecimal form of the scalars and of the tables as far as they are in use |
| Snapshot.Machine.Restore | suites/combined-lisp/src/snapshot.h:57-106 | without the three letters nothing at all changes; with them the state in use is the image the stream holds, as long as its own counts say, the rest of the heap is untouched and the runtime state is reset |
| Snapshot.TextDecodes | suites/combined-lisp/src/snapshot.h:7-8 | the text of any bytes stands for those bytes |
| Snapshot.WordSpelled | suites/combined-lisp/src/snapshot.h:7-8 | a word's text spells its 24 bits, two digits a byte, least byte first |
| Snapshot.ImageBack | suites/combined-lisp/src/snapshot.h:52-54 | the bytes of an image, negative words included, read back as that image wherever they stand and whatever follows |
| Snapshot.BytesBackAgain | suites/combined-lisp/src/snapshot.h:52-54 | and any image that is read has exactly the bytes it was read from |
| Snapshot.Transfer | suites/combined-lisp/src/snapshot.h:12-106 | saving one machine and restoring another gives it the first one's state |

## Left out

- The assembly form, `peek`, `poke`, `delay`, `format`, `gensym` and `dynamic-wind`: raw effects, or behaviour that departs from the standard meaning (a throw runs every active wind thunk, also those outside its catch form).
- Exhaustion of the compiler's tables, the symbol table, the string pool and, in the interpreter, the heap: the programs halt or overrun there.
- C stack depth of the recursive functions: marking, compiling, evaluating, reading and printing recurse as deeply as their input.
- Overlap of words at addresses that are not a multiple of three bytes apart, branch reach and instruction encoding.
- The runtime routines behind compiled code, which are not part of this model beyond their calling convention.
- Memory that does not keep what is written: the loader's M answer, which leaves the stream CRC half updated (`te/te2/te2-loader.c:217-229`).
- Bootstrapping the loader through the ROM's echo (`te/te2/te2.c:330-374`), serial ports, clocks and flow control.
- read_line's editing (`suites/combined-lisp/src/io.h:37-98`), the sieve (`reference/sieve.c`), the data-bus and device memory tests (`reference/memtest.c`): easier than what is here.
- UartRing.Program.MainStep: each step is one access to the shared variables; waiting inside putchar is part of the step that sends.
- LispReader.Machine.Intern: names are strings; their place in the name pool is not modelled.
- Collector.Heap.GcScanStack: the stack is a sequence of words; reading it through the stack pointer is assembly.
- Evaluator.Interp.Throw: no wind thunks run before the unwinding, because `dynamic-wind`, which alone makes them, is left out.
- EvalMeans.Means: nothing is claimed where Meaning has no value: forms without the parts they need, fewer arguments than parameters, throws inside templates (QuasiThrow has these), `dynamic-wind`.
- Primitives.StandardMeans: whether two pairs or two functions are the same one, which `eq?` asks, cannot be told from their values; printing and the string primitives are among the arbitrary others.
- Agreement.Agree: functions and definitions inside expressions, strings and printing are not first-order.
- QuasiThrow.DefinedBehind: forms in which a list that is evaluated behind the throw ends in something else than nil, like `(if . x)`, are not `FormText.Legal`: the source reads the cell whose index is in that word, whatever it holds.
- Compiler.Compiler.CExpr: the assembly form, whose text is passed on as it stands, is not among the expressions.
- LispReader.Machine.ReadExpression: strings start in the first 2048 bytes of the string pool, beyond which the word of a string leads elsewhere (LispStore.PackedExactly).
- LispReader.Machine.ReadStr: the same.
- Snapshot.Machine.Save: the eleven symbols of the forms are one sequence, written and read in the order of the source's variables.
- LispReader.Machine.ReadStringLiteral: a text that ends in a backslash inside a string is read past its end by the source; the model finds zeros there.
