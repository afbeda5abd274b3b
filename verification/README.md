# MiniHLS: a verified model

MiniHLS is a small hardware compiler. One typed syntax tree is given three
meanings: an interpreter runs it, the emitter turns it into SSA code in the func,
arith and scf dialects, and the lowering turns that into a combinational circuit
in hw and comb. The three must agree on every program, width and input. This
project states that agreement as theorems and proves it, together with the passes
in front of it: lexing, parsing, printing, name resolution, type checking,
constant folding and trip counts.

`dafny verify dfyconfig.toml` checks everything.

## Shape

| layer | files |
|---|---|
| integers, fixed-width values and their limits | `Arith`, `Bits`, `BitsLimits` |
| typed tree, what expressions and programs mean over unbounded integers | `Ast`, `Meaning`, `Means` |
| the interpreter, its exactness, and its agreement with the meaning on runs within its limits | `Interp`, `InterpExact`, `ExecFacts`, `Scoping`, `Within` |
| what the text of a program says, by names and nested scopes | `Scopes`, `Naming` |
| SSA code with a semantics and a verifier; the emitter as functions and as the source's object; what it takes; correctness | `Ir`, `IrFacts`, `Emit`, `MlirGen`, `Emittable`, `EmitExact`, `EmitTotal`, `StmtExact`, `Returns`, `CompileCorrect` |
| netlists, the lowering as functions and as the source's object; correctness | `Hw`, `Lower`, `HwGen`, `HwCorrect`, `CircuitCorrect` |
| where compiler and interpreter part | `Divergences` |
| type checking and what it accepts, constant folding and its exactness, trip counts, loops as written, name resolution | `TypeCheck`, `TypeChecker`, `Accepts`, `Denotes`, `Literals`, `Rules`, `ConstFold`, `Folding`, `TripCount`, `Written`, `Resolve`, `Resolver` |
| text: positions, tokens, lexing, parsing and the documented grammar, printing, round trips | `Source`, `Syntax`, `Tokens`, `Lex`, `Lexemes`, `Words`, `Lexer`, `Grammar`, `ProgramGrammar`, `Derivation`, `Legality`, `Parser`, `Printer`, `AstPrinter`, `ParsePrinted`, `LexPrinted`, `ParseProgramPrinted`, `LexProgramPrinted`, `Layout` |
| all passes together | `FrontEnd`, `Acceptance`, `EndToEnd`, `ScopesCorrect`, `SourceToCircuit` |

Where the source changes an object step by step (emitter, lowering, interpreter,
resolver and scope stack, type checker, constant evaluator, lexer, parser, printer, source
file), the model has a class whose methods are proved against specification
functions, and the theorems are about those functions.

The top of it is `SourceToCircuit.FileIsCircuit`: from the characters of a file to the
word the circuit puts out, against a meaning of the text (`Scopes`) that knows nothing
of symbols, annotations or counts. Each pass is also pinned from the other side, by what
it accepts: `Lexemes.LiteralIff` and `Words.WordIs` (words), `Derivation.FileIff` (files),
`Naming.ProgramIff` (names), `Accepts.AcceptIff` (types), `TripCount.AcceptedIff`
(headers), `ConstFold.UnfoldIff` (constants), `Acceptance.AcceptedIff` (all of these),
`Emittable.EmitIff` (code) and `CircuitCorrect.CircuitIff` (circuits). Tables of the
language (digits, operators, keywords, precedences) are written out apart from the code
they are compared with.

An SSA operation the dialect leaves undefined (division by zero, an overflowing
signed quotient, a shift by the width or more) has no result in the model, and
neither has an ill-formed one. That the emitted code always has a result, even
when both arms of every `if` are executed, is therefore both the well-formedness
of the code and the soundness of hoisting.

## Hypotheses, and where they come from

What the emitter is correct on is `Meaning.Regular`: the operator table, `!` on one
bit, and literal arithmetic pinned to a type that holds its result. Emitted code is
well formed and total for all programs made of such expressions (`EmitTotal`); with
distinct symbols and readable constants it returns what the program means
(`CompileCorrect.FunctionMeans`), and so does the circuit. `EndToEnd.AcceptedIsOk`
derives this from what resolver, checker and evaluator accept plus rules of the
language that no pass enforces (`Rules.Allowed`, `EndToEnd.Obeys`). Agreement with the
interpreter asks that the run stay within its value operations: a property of the
values met (`Within.Inside`, `CompileCorrect.RunInside`), which the types can promise
for all inputs (`Rules.Limited`, `EndToEnd.LimitedRuns`). Each rule and limit has its
reason, stated exactly:

- literal arithmetic fits the type it is pinned to; a literal, and its negation at a
  signed type, need no rule, because the checker tests them
  (`Literals.AcceptedChains`, `Literals.ChainsIff`, `Divergences.PinnedMinusIff`,
  `Divergences.PinnedMinusAccepted`);
- no value above 128 bits, which the table alone never yields; `Rules.TableWidth`;
- `!` on u1 only; `Divergences.BangWidthIff`, `Divergences.WideBang`;
- shift amounts the 32-bit cut leaves alone; `BitsLimits.ShlExactIff`,
  `BitsLimits.ShrExactIff`, `BitsLimits.AmountCut`;
- unsigned remainders of operands without bit 127, or by one bit;
  `BitsLimits.RemainderExactIff`, `BitsLimits.RemainderWithin`,
  `BitsLimits.RemainderWitnessDividend`;
- left of `<<`, a value whose shift its own width does not cut otherwise than its
  type's, as of every quotient; as a shift amount, one that has its type's width or is
  not negative; under an unsigned `~`, one that has its type's width;
  `BitsLimits.ShiftFitsIff`, `Divergences.ShiftAgreesIff`, `Divergences.QuotientShift`,
  `Divergences.NarrowShift`;
- constants that are non-negative or as wide as their declared type;
  `CompileCorrect.ConstReadIff`, `Divergences.NegativeConstant`;
- in constant expressions, operands of `<<` whose width their own operators settle,
  and values for which some bound on widths stays within 128 bits;
  `Divergences.FoldShiftIff`, `Divergences.NarrowConstant`;
- loop headers that read constants only and whose step, when the loop is entered, is
  positive and toward the limit; `TripCount.TripCountIff`, `TripCount.Contradicted`.

Nothing bounds the number of `return` statements: emitted code means the body up to
the first one, and `CompileCorrect.ReturnsIff` says when that is the whole body.

## Where code and documentation disagree

The model follows the code.

- LANGUAGE.md:586 promises 0 for `a / 0` at the operator table's type; a signed one
  is a bit narrower at run time, which an over-wide `<<` makes visible
  (`Divergences.NarrowShift`).
- LANGUAGE.md:590-593 puts no bound on shift amounts; the interpreter reads their
  low 32 bits (`BitsLimits.AmountCut`).
- LANGUAGE.md:588-589 holds for every unsigned width; at 128 bits the interpreter's
  remainder reads operands as signed (`BitsLimits.RemainderWitnessDividend`).
- LANGUAGE.md:123 offers `u8(42)`; the checker leaves the literal inside a cast
  untyped (`TypeCheck.AcceptedIsChecked`, `Divergences.CastOfLiteral`), so the
  emitter refuses it and the interpreter reads it at one bit
  (`Divergences.CastOfLiteralIff`).
- LANGUAGE.md:782-784 lets underscores end a number or follow each other; the lexer, as
  LANGUAGE.md:112-113, wants digits on both sides (`Lexemes.LiteralIff`).
- LANGUAGE.md:730 asks for an element in an array initialiser; the parser takes none
  (`Derivation.Elements`).
- LANGUAGE.md:272-274 lets nothing shadow a loop variable; a block inside the body may
  (`Naming.ShadowedInside`).
- LANGUAGE.md:445-447 makes names of constants untyped; the checker gives them their
  declared types. LANGUAGE.md:471-476 compares the value of an untyped expression with
  its type; the checker computes it for sums and products only, in 128 bits, and takes
  the left operand's otherwise (`Accepts.UntypedIff`, `Accepts.DifferenceTakesLeft`), and
  gives a shifted literal the type of its amount (`Accepts.ShiftedTakesAmount`).
- LANGUAGE.md:519-526 wants unsigned shift amounts and u1 under `!`, `&&` and `||`; the
  checker asks for none of it (`Accepts.AcceptIff`), the emitter for `&&` and `||`
  (`Emittable.EmitIff`).
- A local that an arm declares and assigns is refused by the emitter, which no document
  says (`Emittable.LocalAssigned`).
- LANGUAGE.md:234-236 allows one `return`, at the end; the checker counts none, the
  emitter stops at the first and the interpreter keeps the last
  (`CompileCorrect.ReturnsIff`).
- A constant expression is folded at the widths of the values it finds, not of their
  declared types, so `K << 8` can lose bits the language keeps
  (`Divergences.FoldShiftIff`, `Divergences.NarrowConstant`).
- LANGUAGE.md:533-535 makes every result above 128 bits an error; negation is not
  tested (`TypeCheck.AcceptedIsChecked`, `Divergences.WideNegation`).
- LANGUAGE.md:321-325 asks that a loop end on a value of its type; for unsigned
  types only values below 0 are refused. `TripCount.TerminalInRangeIff` gives the
  headers that are accepted and break the rule, `TripCount.Overrun` one. A header
  whose comparison contradicts its step is refused only when the loop would be
  entered by the comparison with the step's own direction; otherwise it counts 0
  iterations (`TripCount.TripCountIff`, `TripCount.Contradicted`).
- LANGUAGE.md:757 allows any expression between `?` and `:`; the parser stops at a
  second `?` (`Grammar.NestedThenArm`).
- The chain of LANGUAGE.md:298 loses its last `else` when printed
  (`ParseProgramPrinted.CutIff`, `ParseProgramPrinted.LostElse`).

## Model

| member | source | states |
|---|---|---|
| SourceToCircuit.FileIsCircuit | src/mlirgen/mlirgen.cpp:121-160 | From the characters of a file: for every text the front end reads and accepts within the rules and the emitter takes, and all numbers passed, the emitted function, and the circuit where there is one, return what the text says, its names meaning their innermost declarations and its loops tested before each pass |
| SourceToCircuit.CodeIsText | src/mlirgen/mlirgen.cpp:121-160 | The same from the parsed program, with the emitted function well formed, and a circuit exactly when no loop that runs is reached |
| SourceToCircuit.RunIsText | src/interp/interpreter.cpp:202-265 | The interpreter returns it too, on every run within its limits |
| SourceToCircuit.SaysMeans | src/sema/resolver.cpp:57-106 | What the text says, name by name, is what the emitted part of the resolved and checked body means, symbol by symbol |
| SourceToCircuit.OneSource | src/sema/const_eval.cpp:268-277 | Exactly one assignment of numbers to the constants, in whatever order they stand, is what their definitions ask for, and folding finds it |
| ScopesCorrect.NumberNamed | src/sema/resolver.cpp:108-150 | A resolved expression denotes what the text does: operands in their places, each name its innermost declaration |
| ScopesCorrect.StmtNamed | src/sema/resolver.cpp:152-239 | A resolved, checked and counted statement leaves in every symbol the number its name has by the text, through blocks, arms and loops with scopes of their own |
| ScopesCorrect.LoopNamed | src/sema/resolver.cpp:216-228 | By induction over the passes, each with a scope of its own that holds the loop variable |
| ScopesCorrect.StopBlockNamed | src/sema/resolver.cpp:101-106 | A body up to its first return gives the result the text returns |
| Denotes.CheckedDenotes | src/sema/type_check.cpp:168-178 | What the checker leaves of an accepted expression has the number of the expression before it was annotated, untyped operands taking the type of the other operand or of the place |
| Denotes.SettledMeans | src/sema/type_check.cpp:58-166 | Likewise for every subexpression, pinned or typed |
| Acceptance.AcceptedIff | src/sema/type_check.cpp:234-242 | A program is accepted if and only if its names are declared, its expressions have types that fit their places, its constants have values and its loop headers pass the checks |
| Acceptance.CheckedIsAcceptable | src/sema/type_check.cpp:184-232 | A statement that passes analysis keeps these rules |
| Acceptance.AcceptableChecks | src/sema/type_check.cpp:184-232 | And one that keeps them passes, with the typed and counted statement it becomes |
| EndToEnd.CodeIsMeaning | src/mlirgen/mlirgen.cpp:121-160 | For every program the front end accepts within the rules of the language, and all numbers passed: the emitted function and the circuit return what the body up to its first return means, loops run as written with their tests; the function verifies; a circuit exists exactly when no loop that runs is reached. No limit of the interpreter is involved |
| EndToEnd.WholeCompiler | src/interp/interpreter.cpp:202-265 | And on every input whose run stays within the interpreter's limits, the interpreter returns the same bits for that part, which with at most one return are those of the whole body |
| EndToEnd.AcceptedIsOk | src/sema/type_check.cpp:234-242 | What resolver, checker and constant evaluator accept, within the rules, meets every hypothesis of the translation theorems |
| EndToEnd.AcceptedIsCounted | src/sema/const_eval.cpp:268-277 | Every loop of an accepted program has the count of its header, and no constant is declared again or assigned |
| EndToEnd.MeansAsWritten | src/sema/const_eval.cpp:170-223 | An accepted program, and what is emitted of it, means what it does with every loop tested as written |
| EndToEnd.RunsAsWritten | src/interp/interpreter.cpp:169-188 | On every run within its limits the interpreter, which only counts iterations, returns what the whole body means, loops tested as written |
| EndToEnd.LimitedRuns | src/interp/interpreter.cpp:36-111 | Programs whose types keep to the limits run within them on every input |
| EndToEnd.AcceptedIsScoped | src/sema/resolver.cpp:57-106 | Every name of an accepted program is read after its symbol has a value |
| EndToEnd.ConstsFold | src/sema/const_eval.cpp:268-277 | The evaluator's definitions, as checked, meet the hypotheses of exact folding, and the constants hold the values derived from them |
| EndToEnd.LoopIsCounted | src/sema/const_eval.cpp:170-223 | An accepted header's count is the number of iterations of the loop it writes, in unbounded integers |
| FrontEnd.StmtIsRegular | src/sema/type_check.cpp:184-232 | Checked statements within the rules are regular, conditions u1 |
| FrontEnd.StmtIsTyped | src/sema/type_check.cpp:184-232 | Where the types keep to the limits too, they are well typed |
| FrontEnd.ResolvedScoped | src/sema/resolver.cpp:152-239 | Resolution, then checking, leaves no read of a symbol before its declaration, however names are shadowed |
| CompileCorrect.FunctionMeans | src/mlirgen/mlirgen.cpp:121-160 | For every accepted scalar program and all numbers passed the emitted function returns the number the body up to its first return means, in unbounded integers, through any nesting of blocks, shadowing, reassignment, `if` and `for`; also when both arms of every `if` are executed |
| CompileCorrect.RunMeans | src/interp/interpreter.cpp:202-265 | A run of the interpreter that stays within its limits returns the number the program means |
| CompileCorrect.CompilePreserves | src/mlirgen/mlirgen.cpp:121-160 | So on every such input the emitted function returns the interpreter's bits for that body |
| CompileCorrect.ProgramInside | src/interp/interpreter.cpp:36-111 | A program whose types keep to the limits runs within them on every input |
| CompileCorrect.ReturnsIff | src/mlirgen/mlirgen.cpp:428-433 | It agrees with the interpreter on the whole body exactly when the interpreter's result does not depend on what follows that return |
| CompileCorrect.OneReturnAgrees | LANGUAGE.md:234-236 | It does not when at most one return can run |
| CompileCorrect.OneReturnMeaning | LANGUAGE.md:234-236 | Nor does what the program means |
| Returns.EmitUpTo | src/mlirgen/mlirgen.cpp:428-433 | What follows the first return of a block is never emitted |
| Returns.StopsReturns | src/mlirgen/mlirgen.cpp:435-499 | An emitted statement stops its block exactly when it ends in a return; otherwise no return in it can run |
| Emittable.EmitIff | src/mlirgen/mlirgen.cpp:121-160 | A function is emitted if and only if, read off the program: every name read has a value or is a constant; what an arm or a loop assigns had a value before it; `&&` and `||` stand between single bits; loop counts are known and below 2^63; no return is reached inside an arm or a loop; the body ends in one |
| Emittable.StmtIff | src/mlirgen/mlirgen.cpp:435-499 | Likewise for one statement, with the symbols bound after it |
| Emittable.BlockIff | src/mlirgen/mlirgen.cpp:423-433 | Likewise for a block, which ends with its first return |
| Emittable.IfIff | src/mlirgen/mlirgen.cpp:538-585 | Likewise for `if`, whatever number of variables its arms assign |
| Emittable.ForIff | src/mlirgen/mlirgen.cpp:620-724 | Likewise for a loop with an iteration |
| Emittable.ExprIff | src/mlirgen/mlirgen.cpp:164-258 | Likewise for an expression |
| Emittable.LocalAssigned | src/mlirgen/mlirgen.cpp:545-557 | A local assigned in the arm that declares it makes the program refused, though nothing unset is read |
| EmitTotal.EmittedVerifies | src/mlirgen/mlirgen.cpp:538-744 | The function emitted for any regular program, whatever its shift amounts, remainders and returns, is well formed (definitions dominate uses, types and yields agree, no value defined twice) |
| EmitTotal.FunctionRuns | src/mlirgen/mlirgen.cpp:338-412 | And on all words of its parameters' types every operation is defined, even on arms not taken: the emitted guards suffice |
| EmitTotal.StmtRuns | src/mlirgen/mlirgen.cpp:435-499 | By induction over statements, with nothing assumed of the bindings but that they hold words of their types |
| CompileCorrect.ProgramIsRegular | src/mlirgen/mlirgen.cpp:164-258 | The programs compiler and interpreter agree on are regular |
| CircuitCorrect.CircuitIsFunction | src/hwgen/hwgen.cpp:359-394 | The circuit of any regular program outputs what the emitted function returns, on all words |
| CircuitCorrect.CircuitMeans | src/hwgen/hwgen.cpp:359-394 | So it outputs the number the body up to its first return means, for all numbers passed |
| CircuitCorrect.CircuitPreserves | src/hwgen/hwgen.cpp:359-394 | And the interpreter's result for that body, on every input whose run stays within the interpreter's limits |
| CircuitCorrect.CircuitIff | src/hwgen/hwgen.cpp:317-325 | A regular program yields a circuit exactly when no loop with an iteration is reached before the return |
| CircuitCorrect.EmittedCombinational | src/mlirgen/mlirgen.cpp:601-618 | The emitted code is free of loops exactly when the source reaches none that runs; a zero-trip loop emits nothing |
| FixedWidth.CastExact | LANGUAGE.md:595-597 | A cast keeps the low bits of the number, and the number itself when it fits |
| FixedWidth.AddExact | src/support/bits.hpp:34 | The sum at max+1 bits is the integer sum, both signednesses |
| FixedWidth.SubExact | src/support/bits.hpp:35 | The always-signed difference at max+1 bits is the integer difference |
| FixedWidth.MulExact | src/support/bits.hpp:36 | The product at wa+wb bits is the integer product |
| FixedWidth.NegExact | src/support/bits.hpp:44 | Negation at w+1 bits is exact, the least number included |
| FixedWidth.DivideExact | src/support/bits.hpp:37 | The quotient is the integer quotient truncated toward zero, 0 for a zero divisor |
| FixedWidth.QuotientResidue | LANGUAGE.md:588-589 | (a/b)*b + a%b == a, the remainder is smaller than the divisor and has the dividend's sign |
| FixedWidth.DivideWidth | src/sema/type_check.cpp:40-41 | A quotient has the checker's width exactly unless it is signed and the divisor is 0 |
| FixedWidth.RemainderExact | src/support/bits.hpp:38 | The remainder at min(wa,wb) bits is exact, signed or below 128 bits |
| FixedWidth.BitwiseExact | src/support/bits.hpp:41-43 | Bit operations agree with two's complement of unbounded width |
| FixedWidth.BitNotExact | src/support/bits.hpp:45 | The complement is -1-n, or 2^w-1-n unsigned |
| FixedWidth.CompareExact | src/support/bits.hpp:50-51 | A comparison yields the u1 truth of the integer comparison |
| FixedWidth.ShlExact | LANGUAGE.md:590 | A left shift keeps the low w bits of a*2^k, 0 when over-wide |
| FixedWidth.ShrExact | LANGUAGE.md:591-594 | A right shift is floor division by 2^k, all sign bits when over-wide |
| BitsLimits.ShlExactIff | src/support/bits.hpp:39 | Amounts are cut to 32 bits: a left shift by b is right for every operand exactly when the cut loses nothing that matters |
| BitsLimits.AmountCut | src/support/bits.hpp:39 | The failing instance: 1 << 2^32 is 1 |
| BitsLimits.ShrExactIff | src/support/bits.hpp:40 | The same for right shifts, with the one extra amount at which a signed shift is still right |
| BitsLimits.RemainderExactIff | src/support/bits.hpp:38 | Unsigned remainder is right for all operands of widths wa, wb exactly when none is read as a negative 128-bit number |
| BitsLimits.RemainderWitnessDividend | src/support/bits.hpp:38 | A failing instance: (2^128 - 1) % 2 comes out as -1 % 2 cut |
| BitsLimits.RemainderWithin | src/support/bits.hpp:38 | Of two given operands it is right when neither needs bit 127 or the divisor has one bit |
| Meaning.BinaryRange | src/sema/type_check.cpp:33-56 | Every operator's integer result fits the type of the operator table |
| Meaning.UnaryRange | src/sema/type_check.cpp:84-91 | So does every unary operator's |
| Meaning.IdealFits | src/sema/type_check.cpp:58-134 | The integer a regular expression denotes fits its static type: no overflow anywhere |
| InterpExact.EvalExact | src/interp/interpreter.cpp:36-111 | Where the types keep to the limits of the value operations, evaluation gives canonical bits that denote exactly that integer, at the static signedness, and at the static width or as a shorter zero where it matters |
| Within.EvalStays | src/interp/interpreter.cpp:36-111 | It does for all operands at hand that do: amounts read whole, sums and products within 128 bits, remainders without bit 127, shifts whose number fits both widths |
| Within.StmtMeans | src/interp/interpreter.cpp:122-200 | Executing a statement within the limits keeps the interpreter's variables and return value at the numbers the language gives them |
| Within.LoopMeans | src/interp/interpreter.cpp:169-188 | By induction over the count, for the counted loop and its wrapped induction value |
| Scoping.EmittedScoped | src/mlirgen/mlirgen.cpp:169-190 | What is emitted reads only symbols set before, and the emitter binds nothing else |
| InterpExact.NonZeroValue | src/sema/type_check.cpp:40-41 | A divisor that is visibly not zero is not zero, so its quotient has the checker's width |
| ExecFacts.ExecTyped | src/interp/interpreter.cpp:122-200 | Every variable keeps a value of its declared type |
| ExecFacts.CollectIsAssigned | src/mlirgen/mlirgen.cpp:509-536 | collectAssigned adds exactly the assigned symbols, none twice |
| ExecFacts.ExecTouches | src/mlirgen/mlirgen.cpp:509-536 | The phi set is complete: executing a statement changes only symbols it declares or collectAssigned finds |
| ExecFacts.NoReturnKeeps | src/interp/interpreter.cpp:190-194 | Without a `return` the return value is unchanged |
| Means.DoesTouches | src/mlirgen/mlirgen.cpp:509-536 | Nor does what a statement means change any symbol but those it declares or assigns |
| Means.DoesFits | LANGUAGE.md:595-597 | Every variable keeps a number of its declared type |
| Interp.Interpreter.ExecuteBlock | src/interp/interpreter.cpp:115-120 | The loop over statements reaches the specified state |
| Interp.Interpreter.Execute | src/interp/interpreter.cpp:122-200 | One scalar statement takes the variable table from state to state as specified, counted loops included |
| Interp.Interpreter.Run | src/interp/interpreter.cpp:204-265 | run resets the tables, binds constants and parameters at their types, and returns the coerced result |
| EmitExact.CoerceAt | src/mlirgen/mlirgen.cpp:87-95 | coerce yields the low bits of the number held, whichever way the width goes |
| EmitExact.TableAt | src/mlirgen/mlirgen.cpp:303-322 | Sum, difference, product and bit operations at the working width hold the exact number |
| EmitExact.RelAt | src/mlirgen/mlirgen.cpp:278-285 | Comparisons at max(wa,wb) are the integer comparisons |
| EmitExact.LogicAt | src/mlirgen/mlirgen.cpp:292-299 | Bitwise and/or of u1 values are the logical ones |
| EmitExact.DivRemAt | src/mlirgen/mlirgen.cpp:338-365 | The guarded division at max(wa,wb,result), narrowed afterwards, is the language's quotient or remainder; no divisor is 0 and no quotient overflows, whatever the operands |
| EmitExact.BitsForFits | src/mlirgen/mlirgen.cpp:115-119 | bitsFor(v) bits hold v, and at least one bit is used |
| EmitExact.ShiftAt | src/mlirgen/mlirgen.cpp:381-412 | The tested, clamped or selected, resized shift is the language's shift for every width of amount; no shift amount reaches the width |
| EmitExact.UnaryAt | src/mlirgen/mlirgen.cpp:200-231 | Negation, complement and `!` hold the exact number |
| EmitExact.EmittedReads | src/mlirgen/mlirgen.cpp:169-190 | An emitted expression read only bound symbols |
| EmitExact.ExprAt | src/mlirgen/mlirgen.cpp:164-258 | An emitted expression's value has the checked width and holds the number the expression denotes, and every operation appended is defined |
| StmtExact.StmtAt | src/mlirgen/mlirgen.cpp:435-499 | After the code emitted for a statement every bound symbol's value holds the number the statement leaves in its variable |
| StmtExact.BlockAt | src/mlirgen/mlirgen.cpp:428-433 | So does a block, up to its first return |
| StmtExact.IfAt | src/mlirgen/mlirgen.cpp:538-585 | scf.if: both regions start from the bindings before, each result is the variable after, whichever arm runs |
| StmtExact.ForAt | src/mlirgen/mlirgen.cpp:601-724 | scf.for: results are the variables after the loop; a zero-trip loop leaves every binding unchanged |
| StmtExact.LoopAt | src/mlirgen/mlirgen.cpp:682-717 | By induction over any trip count: at iteration k the region arguments are the variables' words |
| StmtExact.IvSteps | src/interp/interpreter.cpp:178-186 | Stepping the induction variable k times gives init +/- k*step modulo 2^N, in its type |
| StmtExact.IvAt | src/mlirgen/mlirgen.cpp:686-693 | The value rebuilt from the counter is that number |
| CompileCorrect.ConstReadIff | src/mlirgen/mlirgen.cpp:184-186 | A constant read by its bits is the interpreter's value exactly when it is non-negative or at least as wide as its declared type |
| IrFacts.EveryRefines | src/hwgen/hwgen.cpp:35-42 | An execution that runs every operation, both arms included, is an ordinary execution |
| IrFacts.CallVerifies | src/mlirgen/mlirgen.cpp:764-780 | A function that can be so executed passes the verifier |
| IrFacts.RunVerifies | src/mlirgen/mlirgen.cpp:538-744 | Code that can be so executed defines every operand before its use, in the same or an enclosing region |
| MlirGen.MLIRGen.Coerce | src/mlirgen/mlirgen.cpp:87-95 | Appends the one operation the functional emitter appends, or none |
| MlirGen.MLIRGen.BitsFor | src/mlirgen/mlirgen.cpp:115-119 | The loop counts the bits of a number |
| MlirGen.MLIRGen.EmitExpr | src/mlirgen/mlirgen.cpp:164-258 | The object emits exactly what the functional emitter does, or refuses when it does |
| MlirGen.MLIRGen.EmitBinary | src/mlirgen/mlirgen.cpp:268-325 | Likewise for binary operators |
| MlirGen.MLIRGen.EmitDivRem | src/mlirgen/mlirgen.cpp:338-365 | Likewise for guarded division |
| MlirGen.MLIRGen.EmitShift | src/mlirgen/mlirgen.cpp:381-412 | Likewise for guarded shifts |
| MlirGen.MLIRGen.EmitBlock | src/mlirgen/mlirgen.cpp:428-433 | Likewise for blocks: the loop stops after a terminator |
| MlirGen.MLIRGen.EmitStmt | src/mlirgen/mlirgen.cpp:435-499 | Likewise for statements |
| MlirGen.MLIRGen.EmitIf | src/mlirgen/mlirgen.cpp:538-585 | Likewise for `if`; which are refused says Emittable.IfIff |
| MlirGen.MLIRGen.EmitFor | src/mlirgen/mlirgen.cpp:601-724 | Likewise for `for` |
| MlirGen.MLIRGen.EmitThen | src/mlirgen/mlirgen.cpp:728-744 | A region's block is closed by a yield; bindings and insertion point are back as before |
| MlirGen.MLIRGen.EmitBody | src/mlirgen/mlirgen.cpp:672-719 | The same for a loop body entered with region arguments |
| MlirGen.MLIRGen.LookupAll | src/mlirgen/mlirgen.cpp:632-641 | The values of all carried symbols, or a refusal |
| MlirGen.MLIRGen.EmitFunction | src/mlirgen/mlirgen.cpp:121-160 | The emitted function, or a refusal, is the functional emitter's |
| HwCorrect.SignBits | src/hwgen/hwgen.cpp:96-105 | The replicated top bit above a word is its sign extension |
| HwCorrect.SextAt | src/hwgen/hwgen.cpp:96-105 | extract, replicate and concat settle to the sign-extended word |
| HwCorrect.ZextAt | src/hwgen/hwgen.cpp:106-111 | Zeros concatenated above settle to the zero-extended word |
| HwCorrect.TruncAt | src/hwgen/hwgen.cpp:112-116 | extract from bit 0 settles to the low bits |
| HwCorrect.SignedQuotient | src/hwgen/hwgen.cpp:232-267 | Dividing magnitudes and fixing signs afterwards is the truncated quotient and remainder of the signed numbers, in w bits, wrap-around included |
| HwCorrect.SameShift | src/hwgen/hwgen.cpp:232-267 | Dropping and filling bits is scaling and floor division of the number |
| HwCorrect.SameArith | src/hwgen/hwgen.cpp:232-267 | Where the arith operation is defined, the comb operation of its row, defined on bit patterns alone, settles to the same word |
| HwCorrect.SameCompare | src/hwgen/hwgen.cpp:118-134 | Comparing sign bits and then patterns is the predicate on numbers |
| HwCorrect.SimpleAt | src/hwgen/hwgen.cpp:202-305 | Lowering one operation keeps every value's wire at the value's word |
| HwCorrect.HoistAt | src/hwgen/hwgen.cpp:157-200 | Both arms hoisted into the body and one mux per result carry the words of the arm taken |
| HwCorrect.OpsAt | src/hwgen/hwgen.cpp:150-155 | By induction over the block: the netlist settles, and tracks every value |
| HwCorrect.LoweringPreserves | src/hwgen/hwgen.cpp:359-394 | The module outputs what the function returns |
| HwCorrect.LowerIff | src/hwgen/hwgen.cpp:317-325 | Verified code is lowered exactly when it holds no loop |
| HwCorrect.ModuleIff | src/hwgen/hwgen.cpp:359-394 | A verified function yields a module exactly when it holds no loop |
| HwGen.HWGen.Sext | src/hwgen/hwgen.cpp:96-105 | Appends what the functional lowering does |
| HwGen.HWGen.LowerOp | src/hwgen/hwgen.cpp:202-325 | The object's map and nodes follow the functional lowering, or it refuses when that does |
| HwGen.HWGen.LowerBlock | src/hwgen/hwgen.cpp:150-155 | Likewise for a block |
| HwGen.HWGen.LowerIf | src/hwgen/hwgen.cpp:157-200 | Likewise for a hoisted `if` |
| HwGen.HWGen.Muxes | src/hwgen/hwgen.cpp:194-199 | Likewise for the muxes |
| HwGen.HWGen.Run | src/hwgen/hwgen.cpp:359-394 | The module, or the refusal, is the functional lowering's |
| Divergences.TwoReturnsIff | src/mlirgen/mlirgen.cpp:428-433 | An instance of CompileCorrect.ReturnsIff: two literal returns agree exactly when they return the same byte |
| Divergences.NarrowQuotient | src/sema/type_check.cpp:40-41 | A signed quotient by 0 is one bit narrower than the checker says |
| BitsLimits.ShiftFitsIff | src/interp/interpreter.cpp:81 | A value of width v shifted left is its number shifted at width w exactly when the wider cut fits the narrower width |
| Divergences.QuotientShift | src/support/bits.hpp:37-39 | A quotient shifts at its full width for every divisor, 0 included: the short value is 0 |
| Divergences.ShiftAgreesIff | src/mlirgen/mlirgen.cpp:381-412 | For any operands the emitter is correct on, `l << r` holds its number; the interpreter has the same one exactly under that condition on the width it finds |
| Divergences.NarrowAccepted | src/sema/type_check.cpp:95-111 | ~(a / b) << w is accepted, its amount typed as the other operand |
| Divergences.NarrowShift | src/mlirgen/mlirgen.cpp:381-412 | The failing instance: that tree, with b = 0, is evaluated to 0 and emitted as -2^w |
| Divergences.FoldShiftIff | src/sema/const_eval.cpp:53-56 | In any constant expression l << r folding agrees with the language exactly when the value found for l allows it at its own width |
| Divergences.NarrowConstant | src/sema/const_eval.cpp:53-56 | The failing instance: with `const u16 K = u8(1)`, both accepted, K << 8 folds to 0 and denotes 256 |
| Divergences.NegativeConstant | src/sema/const_eval.cpp:157-162 | `const i16 K = i8(-1)` is accepted and folds to 8 bits, read as 255 by the emitter and as -1 by the interpreter |
| Divergences.WideNegation | src/sema/type_check.cpp:84-91 | i64(-(a * b)) is accepted and fully typed although its negation has 129 bits |
| Divergences.PinnedMinus | src/mlirgen/mlirgen.cpp:210-217 | An untyped -k pinned to an unsigned type is emitted as its residue |
| Divergences.PinnedMinusAccepted | src/sema/type_check.cpp:142-178 | That tree is what the checker leaves of -k at an unsigned type |
| Divergences.PinnedMinusIff | src/sema/type_check.cpp:142-166 | The interpreter's value is that residue exactly when k is 0 |
| Divergences.CastOfLiteral | src/sema/type_check.cpp:78-83 | A cast of a literal is accepted with the literal left untyped |
| Divergences.CastOfLiteralIff | src/interp/interpreter.cpp:39-55 | Evaluating the tree the checker leaves of an accepted cast of a literal yields the literal's value exactly for 0 and 1 |
| Divergences.WideBang | src/sema/type_check.cpp:84-91 | !x is accepted for a u8 x, at eight bits |
| Divergences.BangWidthIff | src/sema/type_check.cpp:84-91 | `!` is emitted at the checked width exactly on one-bit operands |
| Accepts.AcceptIff | src/sema/type_check.cpp:168-178 | An expression is accepted where a type is wanted if and only if it has a sort that can be used there: the type of the operator table within 128 bits, signs agreeing, or the integer an untyped one stands for, modulo 2^128 a number of the type |
| Accepts.InferIs | src/sema/type_check.cpp:58-134 | Inference finds that sort, and fails exactly when there is none |
| Accepts.UntypedIff | src/sema/type_check.cpp:96-101 | Sums and products of literals are accepted at a type exactly when their integer, modulo 2^128, is one of its numbers |
| Accepts.DifferenceTakesLeft | src/sema/type_check.cpp:96-101 | Of other untyped operations only the left operand is compared: 300 - 100 is refused as u8, 100 - 300 is not |
| Accepts.ShiftedTakesAmount | LANGUAGE.md:462-469 | A shifted literal takes the type of its amount and is accepted |
| TypeCheck.FitsIff | src/sema/type_check.cpp:21-27 | fits: the constant is a number of the type |
| TypeCheck.AssignableIff | src/sema/type_check.cpp:29-31 | Between types of one signedness, assignable means no number is lost |
| TypeCheck.InferStrip | src/sema/type_check.cpp:58-134 | Checking annotates the tree and changes nothing else |
| TypeCheck.InferSound | src/sema/type_check.cpp:58-134 | Accepted inference types every node by the operator table, or leaves a tree of untyped literals |
| TypeCheck.PinSound | src/sema/type_check.cpp:142-166 | pinPoly gives the whole untyped tree its context's type |
| TypeCheck.AcceptedIsChecked | src/sema/type_check.cpp:168-178 | Accepted: the same tree, fully typed exactly when no cast is applied to an untyped constant; as folding reads it, by the operator table exactly when negations fit 128 bits; storable where expected |
| Literals.AcceptedChains | src/sema/type_check.cpp:168-173 | In an accepted expression every literal under prefix operators only, and in no larger untyped tree, is a number of its type |
| Literals.AcceptedNegation | src/sema/type_check.cpp:168-173 | -k is accepted at a signed type exactly when k is at most its maximum; then -k is in range |
| Literals.AcceptedLiterals | src/sema/type_check.cpp:168-173 | Where every untyped tree is such a chain, every accepted literal fits its type |
| Literals.ChainsIff | src/sema/type_check.cpp:96-101 | For a tree of untyped literals, acceptance makes the literals fit whatever they are exactly when the tree is a chain |
| Literals.CutLiteral | src/sema/type_check.cpp:96-101 | An instance: `1 - 300` is accepted as a u8 with a literal that does not fit |
| Rules.TableWidth | LANGUAGE.md:505-555 | Where every operator follows the table, no value is wider than its type, so the 128-bit limit holds by itself |
| Rules.SoundRules | src/sema/type_check.cpp:168-178 | In an accepted tree the rules of the language give the emitter's: negated literals fit because the checker tested them |
| Rules.AcceptedIsRegular | src/sema/type_check.cpp:168-178 | Accepted expressions within the rules are what emitter and folding are correct on, casts of untyped literals in constants and limits included |
| Rules.AcceptedIsWellTyped | src/sema/type_check.cpp:168-178 | Within the limits of the value operations too, they are what emitter and interpreter agree on |
| TypeChecker.TypeChecker.Infer | src/sema/type_check.cpp:58-134 | The object annotates the tree as the functional checker does, and reports exactly when that refuses, which is when Accepts.InferIs finds no sort |
| TypeChecker.TypeChecker.PinPoly | src/sema/type_check.cpp:142-166 | Likewise for pinning |
| TypeChecker.TypeChecker.WidthRule | src/sema/type_check.cpp:33-56 | The operator table's type, reported exactly when wider than 128 bits |
| TypeChecker.TypeChecker.CheckExpr | src/sema/type_check.cpp:168-178 | Likewise for an expression against its expected type |
| TripCount.AcceptedIff | src/sema/const_eval.cpp:170-223 | A header is accepted if and only if its step is not 0, a loop it enters steps toward its limit, the value it ends on passes the range checks, and it runs fewer than 2^64 times |
| TripCount.CountExact | src/sema/const_eval.cpp:183-197 | The closed form counts the iterations of the loop that tests every time |
| TripCount.TripCountIff | src/sema/const_eval.cpp:170-223 | A count that is accepted, by TripCount.AcceptedIff, is exact if and only if the condition fails at once or a positive step moves toward the limit |
| TripCount.Contradicted | src/sema/const_eval.cpp:185-193 | The failing instance: `for (u8 i = 0; i < 10; i = i - 1)` is accepted with no iteration, though its condition holds |
| TripCount.TerminalCheckIff | src/sema/const_eval.cpp:211-216 | The last range check can fail only for a 128-bit unsigned value |
| TripCount.UpTo | src/sema/const_eval.cpp:194-198 | Where a loop that counts up ends, in closed form, for both comparisons |
| TripCount.TerminalInRangeIff | src/sema/const_eval.cpp:198-216 | An accepted loop ends on a value of its type exactly when it is signed, counts down, is not entered, or end + (start-end)%a, for `<=` end + a - (end-start)%a, is below 2^w |
| TripCount.StepOneIff | src/sema/const_eval.cpp:198-216 | With step 1 `<` always does, and `<=` unless the limit is the greatest number of the type |
| TripCount.Overrun | LANGUAGE.md:321-325 | The failing instance: `for (u3 i = 0; i <= 7; i = i + 1)` is accepted and ends on 8 |
| TripCount.NoWrap | LANGUAGE.md:340-344 | No induction value the body sees wraps |
| TripCount.CountedIsRetested | src/interp/interpreter.cpp:169-188 | Counting without testing runs the body on the same values as testing every time in unbounded integers |
| TripCount.AcceptedLoop | src/sema/const_eval.cpp:170-223 | So the interpreter runs an accepted loop as written |
| Written.StmtAsWritten | src/sema/const_eval.cpp:225-262 | Where counts are those of the headers, any nesting of statements means what it does with every loop tested as written |
| Written.LoopAsWritten | LANGUAGE.md:340-346 | By induction over the count, with the body's own loops tested too, the counted value cut at its type |
| Written.AcceptedCounts | src/sema/const_eval.cpp:178-223 | A count evaluateFor accepts is that of the header's numbers, when 127 bits hold them and the step goes the way of the condition |
| Folding.FoldIs | src/sema/const_eval.cpp:46-112 | Folding is exact: the value derived for a constant expression denotes its number, a number of its type, for definitions in any order |
| Folding.ConstantFits | src/sema/const_eval.cpp:157-168 | Every constant's value is the number of its definition and one of the constant's type |
| Folding.OneSolution | src/sema/const_eval.cpp:29-112 | Numbers that solve the definitions are the folded ones |
| Folding.FoldedSolves | src/sema/const_eval.cpp:268-277 | And the folded ones solve them |
| Folding.ConstantHeld | src/interp/interpreter.cpp:204-230 | So the variable table holds that number |
| ConstFold.UnfoldIff | src/sema/const_eval.cpp:29-112 | An expression has a value if and only if evaluation meets no name without a definition and no cycle: no operator fails |
| ConstFold.AcyclicUnfolds | src/sema/const_eval.cpp:29-112 | So everything that reads acyclic definitions has a value, in whatever order they stand |
| ConstFold.UnfoldMore | src/sema/const_eval.cpp:46-112 | A value reached by unfolding definitions stays the same at any greater depth |
| ConstFold.DerivesUnique | src/sema/const_eval.cpp:46-112 | At most one value is derivable |
| ConstFold.CycleFails | src/sema/const_eval.cpp:33-36 | A name on the path of its own evaluation has no value: refusing it is right |
| ConstFold.AnswersTernary | src/sema/const_eval.cpp:104-109 | A ternary answers with its chosen arm |
| ConstFold.ConstantEvaluator.Eval | src/sema/const_eval.cpp:46-112 | Ends on every set of definitions and returns v exactly when v is derivable without the cache; every cached value is derivable; untyped literals are read at 128 bits |
| ConstFold.ConstantEvaluator.EvalConstant | src/sema/const_eval.cpp:29-44 | Likewise for a name, whatever is in progress |
| ConstFold.ConstantEvaluator.Evaluate | src/sema/const_eval.cpp:268-277 | Every declaration folds to its derivable value, in whatever order they come |
| Naming.ProgramIff | src/sema/resolver.cpp:57-106 | A program resolves if and only if every name is declared in an enclosing scope, none twice in one, and only locals and parameters are assigned |
| Naming.StmtIff | src/sema/resolver.cpp:152-239 | Likewise for a statement, with the names in sight after it |
| Naming.ShadowedInside | src/sema/resolver.cpp:216-228 | A loop variable can be declared again in a block inside the body, and not in the body itself |
| Resolve.StmtFresh | src/sema/resolver.cpp:152-239 | A statement declares only new symbols, each once, and assigns no later one |
| Resolve.ProgramUnique | src/sema/resolver.cpp:5-10 | Distinct declarations own distinct symbols, across constants, parameters and nested locals |
| Resolve.StmtProtects | src/sema/resolver.cpp:171-190 | A symbol no visible name lets a statement write is assigned nowhere in it, however names are shadowed |
| Resolve.LoopVariableKept | LANGUAGE.md:340-341 | A loop variable is never assigned in its body |
| Resolve.ConstantsKept | src/sema/resolver.cpp:57-106 | No constant is ever assigned |
| Resolver.ScopeStack.Lookup | src/sema/scope.hpp:17-23 | The backwards loop finds the innermost declaration |
| Resolver.ScopeStack.Declare | src/sema/scope.hpp:26-28 | Fails exactly on a redeclaration in the same scope |
| Resolver.Resolver.ResolveExpr | src/sema/resolver.cpp:108-150 | Without a diagnostic, the tree is that of environment passing, which keeps operands and names as ScopesCorrect.NumberNamed says |
| Resolver.Resolver.ResolveStmt | src/sema/resolver.cpp:152-239 | Likewise for statements; outer scopes and depth are unchanged, diagnostic or not |
| Resolver.Resolver.ResolveFor | src/sema/resolver.cpp:216-228 | The initialiser sees the outer scope; limit, step and body the loop variable |
| Resolver.Resolver.ResolveBlock | src/sema/resolver.cpp:101-106 | Likewise for the loop over statements |
| Resolver.Resolver.ResolveAll | src/sema/resolver.cpp:57-70 | The whole program resolves as by environment passing, or a diagnostic is raised exactly when that refuses |
| Source.SourceFile.constructor | src/frontend/source.cpp:8-13 | The loop records the start of every line |
| Source.SourceFile.Line | src/frontend/source.cpp:21-24 | Bisection finds the line reached by reading up to the offset |
| Source.SourceFile.Column | src/frontend/source.cpp:26-29 | And its column |
| Source.WalkInjective | src/frontend/source.cpp:21-29 | A position belongs to one offset |
| Source.RangeOf | src/hwgen/hwgen.cpp:64-76 | The scan finds the offset of a position that exists, and 0 for one that does not |
| Source.RoundTrip | src/mlirgen/mlirgen.cpp:47-50 | Line and column of an offset inside the text lead back to it; the end of the text leads to 0 |
| Grammar.PowerIsLevel | LANGUAGE.md:758-765 | Binding powers are the documented levels, written out operator by operator, and the tokens their operators |
| Grammar.ClimbingIsLayered | src/frontend/parser.cpp:53-64 | parseExpr(0) is logical_or of the written-out levels: same tree, same tokens, on every token sequence |
| Grammar.ExprIsLevel | src/frontend/parser.cpp:28-39 | parseExpr(m) is the grammar's level m, whose operators are listed apart from the binding powers |
| Grammar.ConditionalIsLevel | src/frontend/parser.cpp:43-51 | The parser is the layered grammar whose middle arm is a logical_or, refusals included |
| Grammar.ParserFollowsGrammar | LANGUAGE.md:755-773 | Whatever it accepts, the documented grammar reads as the same tree |
| Grammar.NestedThenArm | src/frontend/parser.cpp:46 | `1 ? 2 ? 3 : 4 : 5` is in the documented grammar and refused |
| Parser.Parser.ParseConditional | src/frontend/parser.cpp:43-51 | The object finds the tree, and stops at the token, that the grammar functions do |
| Parser.Parser.ParseExpr | src/frontend/parser.cpp:53-64 | Likewise, by its loop; the precedences are those of Grammar.ExprIsLevel |
| Parser.Parser.ParseUnary | src/frontend/parser.cpp:72-81 | Likewise |
| Parser.Parser.ParsePostfix | src/frontend/parser.cpp:87-98 | Likewise |
| Parser.Parser.ParsePrimary | src/frontend/parser.cpp:107-132 | Likewise |
| Parser.Parser.ParseBlock | src/frontend/parser.cpp:137-156 | Likewise, statements up to the block's own brace |
| Parser.Parser.ParseStmt | src/frontend/parser.cpp:168-183 | Likewise |
| Parser.Parser.ParseDeclaration | src/frontend/parser.cpp:191-227 | Likewise |
| Parser.Parser.ParseIf | src/frontend/parser.cpp:272-281 | Likewise |
| Parser.Parser.ParseHeader | src/frontend/parser.cpp:294-329 | Likewise, the rigid loop header |
| Parser.Parser.ParseProgram | src/frontend/parser.cpp:486-498 | Likewise, constants around exactly one function |
| Derivation.FileIff | src/frontend/parser.cpp:486-498 | The parser reads a file as a program if and only if the documented grammar derives it: constants around one function, and nothing else |
| Derivation.StatementIff | src/frontend/parser.cpp:168-183 | Likewise for every statement, its brackets, separators and keywords in their places |
| Derivation.EnclosedIff | src/frontend/parser.cpp:137-156 | Likewise for a block up to its own brace |
| Derivation.PragmaIff | src/frontend/parser.cpp:347-389 | A pragma line is read exactly when it is spelled as documented, with a factor below 2^32 |
| Legality.ReadIsLegal | src/frontend/parser.cpp:486-498 | Whatever is read of a text has names that are no keyword and no type, types of 1 to 64 bits, literals below 2^128, and the shapes the later passes are proved for |
| Lexemes.LiteralIff | src/frontend/lexer.cpp:155-213 | A word that starts with a digit is read as the number it denotes in base 10, 16 after 0x or 0X, 2 after 0b or 0B, underscores only between digits, and is refused exactly when it denotes none below 2^128; digit values by a table |
| Lexemes.TypeWordIff | src/frontend/lexer.cpp:131-142 | A word of the shape of a type is one exactly up to 64 bits |
| Lexemes.OperatorRead | src/frontend/lexer.cpp:235-272 | The longest operator of a written-out table is read |
| Lexemes.OperatorRefused | src/frontend/lexer.cpp:235-272 | And nothing where none starts |
| Lexemes.TextsApart | src/frontend/lexer.cpp:17-24 | Texts with a blank between them are read as the tokens of the one and the other |
| Lexemes.LineCommentInvisible | src/frontend/lexer.cpp:56-96 | Text with a line comment reads as without it |
| Lexemes.BlockCommentInvisible | src/frontend/lexer.cpp:56-96 | Likewise with a block comment |
| Words.WordRead | src/frontend/lexer.cpp:107-148 | The longest run of letters, figures and underscores that a letter starts is one word |
| Words.WordIs | src/frontend/lexer.cpp:107-148 | A word is one of the ten keywords, or else a type of at most 64 bits, or else a name |
| Words.BlankIsGap | LANGUAGE.md:68-69 | The four blanks are gaps |
| Words.OpenComment | LANGUAGE.md:77 | An unterminated block comment is refused |
| Words.PragmaRead | src/frontend/lexer.cpp:219-227 | A line that starts with # is a pragma line if it starts with that word, and else refused |
| Words.TokensLegal | src/frontend/lexer.cpp:17-24 | Every token of a text is one the language has |
| Lex.AddDigitIff | src/frontend/lexer.cpp:192-195 | The overflow test is exact |
| Lex.ScanExact | src/frontend/lexer.cpp:174-197 | The scan of digits yields their number, or overflow exactly when it is 2^128 or more |
| Lex.DecimalIff | src/frontend/lexer.cpp:155-213 | A decimal literal is read as its number exactly when that is below 2^128 |
| Lexer.Lexer.SkipTrivia | src/frontend/lexer.cpp:56-96 | The loop skips blanks and comments as specified |
| Lexer.Lexer.LexWord | src/frontend/lexer.cpp:107-148 | The maximal word, classified |
| Lexer.Lexer.TypeWidth | src/frontend/lexer.cpp:131-142 | The width in 32 bits, saturated exactly when it does not fit |
| Lexer.Lexer.LexNumber | src/frontend/lexer.cpp:155-213 | The literal, or a refusal, as the lexing function has it, which Lexemes.LiteralIff characterises |
| Lexer.Lexer.LexOperator | src/frontend/lexer.cpp:235-272 | The longest match |
| Lexer.Lexer.Tokenize | src/frontend/lexer.cpp:17-24 | All tokens of the text, as specified |
| Printer.Number | src/frontend/ast_printer.cpp:9-18 | The loop and reversal give the decimal digits |
| AstPrinter.Expression | src/frontend/ast_printer.cpp:34-66 | The string built is the specified text |
| AstPrinter.AstPrinter.PrintStmt | src/frontend/ast_printer.cpp:82-140 | The stream grows by the specified text |
| AstPrinter.AstPrinter.PrintBlock | src/frontend/ast_printer.cpp:72-76 | Likewise |
| AstPrinter.AstPrinter.PrintProgram | src/frontend/ast_printer.cpp:146-170 | The stream holds the specified text of the program |
| Layout.ProgramTidy | src/frontend/ast_printer.cpp:68-76 | Every line of a printed program is indented by two blanks for each block open at it, and no other blank follows a blank or ends a line |
| Layout.OperandText | src/frontend/ast_printer.cpp:26-32 | An operand that is a literal, a name or a binary stands as it is; any other is parenthesised |
| LexPrinted.ExprReads | src/frontend/lexer.cpp:17-50 | The printed text of an expression is read as its tokens, whatever follows |
| ParsePrinted.UnaryParses | src/frontend/parser.cpp:53-132 | Those tokens parse to that expression, and parsing stops after them |
| LexProgramPrinted.ExprRoundTrip | src/frontend/ast_printer.cpp:34-66 | From characters: reading a printed expression gives it back, for all legal names, types and literals below 2^128 |
| ParseProgramPrinted.CutIff | src/frontend/ast_printer.cpp:116-122 | The printer loses nothing exactly when no chain goes past its first `else if` |
| ParseProgramPrinted.LostElse | src/frontend/ast_printer.cpp:116-122 | The failing instance: `if`, `else if`, `else` loses its last arm |
| ParseProgramPrinted.ProgramParses | src/frontend/parser.cpp:486-498 | The tokens of a printed program parse to what the printer wrote |
| LexProgramPrinted.ProgramReads | src/frontend/lexer.cpp:17-50 | The printed program is read as its tokens, pragma lines included |
| LexProgramPrinted.ProgramRoundTrip | src/frontend/ast_printer.cpp:146-170 | From characters: a printed program reads back, exactly when no chain is cut, with arrays, streams, pragmas and loop headers |
| LexProgramPrinted.PrintIdempotent | src/frontend/ast_printer.cpp:146-170 | Printing what was read back prints the same text, always |

## Left out

- Arrays and streams in the interpreter, resolver and emitter: the emitter refuses them, and the resolver of the model refuses what it cannot pass on. Syntax, parsing and printing include them.
- MLIR, CIRCT, their verifiers and Verilog export: the model has an intermediate representation and a netlist of its own. Values are two-valued; X and Z are not modelled.
- `arith.remsi` of the least number by -1 is taken to be 0; the emitter can produce that case and the dialect does not say.
- Arithmetic of the compiler itself on the host: the value operations wrap at 128 bits as written, but trip-count arithmetic is unbounded, and a shift by 128 or more inside the checker's `fits` is not modelled.
- Symbols are numbers, not addresses; SSA values carry their type; DenseMap and unordered_map are maps.
- TypeCheck: annotations are returned in a new tree, not written into the nodes. Sharing of nodes cannot occur.
- TypeCheck.Combine: a tree already refused is left without a type; the source goes on and may report more.
- Diagnostics: a diagnostic is a plain refusal, without text or position. Lexer and parser stop at the first one, so recovery is not modelled; the resolver goes on, as the source does.
- Offsets, lines and columns are unbounded; the source's are 32 bits wide.
- EndToEnd.CodeIsMeaning: assumes the rules listed above; written types are those of the lexer, 1 to 64 bits.
- SourceToCircuit.CodeIsText: assumes the rules listed above; whether the emitter takes a program is read off the checked program, not off its text.
- Acceptance.AcceptedIff: the folded values of loop headers and constants are those of the evaluator's own value operations; that these are the language's numbers is Folding's, within its limits.
- CompileCorrect.CompilePreserves: assumes the rules and, for the run, the limits listed above, and says nothing of a program the emitter refuses (Emittable.EmitIff).
- Interp.Interpreter.Execute: array and stream statements, and the failure flag that an exhausted stream sets, are not modelled.
- Interp.Interpreter.Run: array and stream parameters and their tables are not modelled; the only failure is a wrong number of arguments.
- Resolver.Resolver.ResolveExpr: index and stream expressions are refused.
- Resolver.Resolver.ResolveStmt: array declarations, element assignments and stream statements are refused.
- Resolver.Resolver.ResolveAll: a program with arrays or streams raises a diagnostic that the source does not raise.
- TypeChecker.TypeChecker.Infer: index expressions and names left unresolved do not occur.
- ConstFold.ConstantEvaluator.Eval: an index expression, which never folds, does not occur.
- ConstFold.ConstantEvaluator.Evaluate: array constants, array sizes and the bounds test of constant indices are not modelled; loop headers are TripCount's.
- HwCorrect.SameArith: nothing is said where the arith operation is undefined.
- Divergences.PinnedMinusIff: below 128 bits, where negation has room.
- The driver, the command line, test files, pragma effects and anything planned but not written.
