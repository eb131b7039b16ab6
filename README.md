# abfc compile-time core, modelled in Dafny

abfc compiles a small macro language to Brainfuck. A program is a table of
user macros. Each macro body is a list of tuple-shaped statements. The
compiler works in two phases:

1. The rewriter desugars each macro: `local`, `while` and `if`, until no rule
   changes anything, then wraps the body in one scope. It then inlines every
   call to a user macro into the main macro, until no pass changes anything.
2. Phase two evaluates the inlined statements. It uses a chain of
   environments, a stack-cell allocator and a tape machine that emits
   Brainfuck. The emitted code is then cut into 70-column lines.

A separate tool translates raw Brainfuck to assembly for a given architecture.

The modules follow the source files:

| module | file | what it holds |
|---|---|---|
| `Wrappers` | `wrappers.dfy` | `Option`, `Result`, `Outcome` and the closed set of errors. Each error stands for the Python exception or assertion it replaces. |
| `PatternMatch` | `pattern_match.dfy` | `abfc/pattern_match.py`. Values are trees of string atoms, integer atoms and sequences. The patterns are sequence, string, `Star`, `One`, `Zero` and `Cons`. `Match` returns the binding list, `AttemptMatch` the dictionary, `Replace` the rewrite rule. |
| `Sugar` | `sugar.dfy` | `abfc/sugar.py`. Every constructor of the intermediate form has a decoder, with a round-trip lemma both ways. |
| `Opcodes` | `opcodes.dfy` | The eight-instruction alphabet and bracket depth, shared by the machine and the translator. |
| `Allocator` | `allocator.dfy` | `StackMan` (`abfc/compile.py:68-89`), as a class over its set of occupied offsets. It is its own module because the built-ins of `abfc/codegen.py` use it. |
| `Codegen` | `codegen.dfy` | The tag helpers and aliasing check of `abfc/codegen.py`, and `Machine` as a class. Its methods update `bf_ptr`, `code` and `loop_stack` (only `grow_stack` and `shrink_stack` in `Frames` move `stack_ptr`), and report a cursor off the tape as their outcome (`OutOfRange`). A machine is valid when its text is all instructions and well bracketed, with one open loop per loop-stack entry. Appending any piece other than a raw run keeps it valid, except a `]` with no loop open (`Codegen.PieceKeepsValid`). `do_unvalidated_bf` checks only the alphabet, so a raw `[` or a `]` with no loop open leaves it invalid, and so does `do_end_loop` on an empty loop stack. Every successful built-in keeps it valid (`Registry.ResultKeepsValid`, `Registry.Invoke`). |
| `BuiltinCode` | `builtin_code.dfy` | For each built-in macro, a function giving either the first error it meets or the exact pieces it appends and where it leaves the cursor. Lemmas about those pieces sit beside them. |
| `Builtins` | `builtins.dfy` | The built-in macros as methods driving a `Machine` and a `StackMan`. Each is proved to do what its `BuiltinCode` function says and to give back every scratch cell it takes. |
| `Frames` | `frames.dfy` | `grow_stack` and `shrink_stack`, with their loops over the occupied offsets. |
| `Registry` | `registry.dfy` | The table of built-in names, arities and `_invoke_macro`. |
| `Expr` | `expr.dfy` | `abfc/expr.py`: the three desugaring rules, the fixed-point loop, body wrapping, `expand_macro_call`, inlining and `compile_macro`. |
| `Compile` | `compile.dfy` | `abfc/compile.py`: `BaseEnv` and `Env`, `CompilerState` with the handlers of `compile_phase_2`, `eval_expr`, `compile_phase_2` and `formatted_code`. |
| `BootstrapBf` | `bootstrap_bf.dfy` | `compile_for_arch` of `abfc/bootstrap_bf.py`. The architecture's assembly fragments are a parameter. |

Loops in the source are methods with loop invariants. Each method is proved
equal to a recursive function, and the properties are lemmas about that
function. The one exception is the loop of `_match_list`
(`abfc/pattern_match.py:26-33`): it is part of the recursive matcher, so it
is the recursive function `PatternMatch.MatchFold`, with no method beside it. The environment chain of `abfc/compile.py` is a stack of scope
records held by `CompilerState`. The record below a scope is its parent
(`Env.parent`), and the empty stack is the `BaseEnv`. An `Env` is only ever
reached from the current scope or its ancestors, so the stack is the whole
chain.

Phase two is specified by functions on a `Compile.Snapshot` of the whole
state: the scopes, the occupied stack offsets, the code, the two cursors
and the loop stack. `OpSpec` is one handler, `DispatchSpec` is `dispatch`,
`EvalSpec` and `EvalItems` are `eval_expr` and its list comprehension,
`EvalStatements` is the statement loop and `Compiled` is the whole of
`compile_phase_2`. Each method of `CompilerState` is proved to give the
result of its function and to leave the state it gives. The built-ins enter
these functions as a parameter of type `Runner`, so that the properties of
the evaluator hold for any built-ins that only append code and keep it
valid; `BuiltinsOn(n)` is the compiler's own table, run on a machine of `n`
cells, and `RunnerKeeps` proves it is such a table.

## Model

| member | source | states |
|---|---|---|
| Opcodes.Rep | abfc/codegen.py:74-76 | `c * n` is the string of `n` copies of `c` and nothing else |
| Opcodes.DepthAppend | abfc/codegen.py:104-114 | the bracket depth of joined code is the sum of the parts' depths |
| Opcodes.BracketFreeDepth | abfc/codegen.py:70-102 | code without brackets leaves the loop depth unchanged |
| Opcodes.WellbracketedAppend | abfc/codegen.py:104-114 | code whose every prefix keeps the depth non-negative stays so when followed by code that never closes more loops than are open |
| Opcodes.StaysOpenAppend | abfc/codegen.py:104-114 | "never closes more than is open" composes over concatenation, and depths add |
| Opcodes.ClosedAppend | abfc/codegen.py:104-114 | two balanced pieces of code concatenate to balanced code |
| Opcodes.ClosedLoop | abfc/codegen.py:104-114 | `[` + balanced code + `]` is balanced |
| Opcodes.ClosedKeepsWellbracketed | abfc/codegen.py:104-114 | appending balanced code keeps valid code valid at the same depth |
| Opcodes.AllOpcodesAppend | abfc/codegen.py:124-128 | code over the eight opcodes `<>+-[].,` stays so under concatenation |
| Codegen.MakeStackAddress | abfc/codegen.py:1-2 | the address built from an offset is recognised as a stack address and matches back to that offset |
| Codegen.StackAddressRoundTrip | abfc/codegen.py:4-16 | `match_stack_address` succeeds exactly on stack addresses, and rebuilding from its result gives the input back |
| Codegen.MakeConstant | abfc/codegen.py:22-23 | a built integer constant is recognised and matches back to its integer |
| Codegen.ConstantRoundTrip | abfc/codegen.py:25-37 | `match_constant` succeeds exactly on constants, and rebuilding from its result gives the input back |
| Codegen.MakeStringConstant | abfc/codegen.py:39-40 | a built string constant is recognised and matches back to its string |
| Codegen.StringConstantRoundTrip | abfc/codegen.py:42-54 | `match_string_constant` succeeds exactly on string constants, and rebuilding gives the input back |
| Codegen.Offsets | abfc/codegen.py:18-19 | the offsets of the arguments, one per argument in order; fails (as a malformed address) exactly when some argument is not a stack address |
| Codegen.ElementsDistinct | abfc/codegen.py:20 | `len(set(offsets)) <= len(offsets)`, with equality exactly when no offset repeats |
| Codegen.NoAliasingSpec | abfc/codegen.py:18-20 | `assert_no_aliasing` passes exactly when every argument is a stack address and no two offsets are equal; it fails as malformed exactly when some argument is not an address |
| Codegen.NoAliasingPair | abfc/codegen.py:18-20 | the two-argument check: malformed, aliasing or pass, by cases |
| Codegen.NoAliasingTriple | abfc/codegen.py:18-20 | the three-argument check: malformed, aliasing (some pair equal) or pass |
| Codegen.MoveCodeShape | abfc/codegen.py:70-77 | a move of `k` is `k` `>`s or `-k` `<`s (nothing for 0), all opcodes and bracket-free |
| Codegen.PieceOpcodes | abfc/codegen.py:70-122 | every chunk the machine appends is made of opcodes; only the loop chunks hold brackets, and those are exactly `[` and `]` |
| Codegen.TextAppend | abfc/codegen.py:130-131 | `''.join` of concatenated chunk lists is the concatenation of the joins |
| Codegen.PlainKeepsValid | abfc/codegen.py:70-102 | appending bracket-free opcodes keeps the code valid at the same loop depth |
| Codegen.OpenKeepsValid | abfc/codegen.py:104-107 | appending `[` keeps the code valid with one more open loop |
| Codegen.CloseKeepsValid | abfc/codegen.py:109-114 | appending `]` keeps the code valid, one loop fewer, exactly when a loop is open |
| Codegen.PieceKeepsValid | abfc/codegen.py:70-128 | appending any non-raw chunk keeps the code valid with the depth adjusted, unless it is a `]` with no loop open |
| Codegen.AppendKeepsOpcodes | abfc/codegen.py:124-128 | appending a chunk keeps the code over the eight opcodes when a raw chunk is itself made of opcodes |
| Codegen.Machine.constructor | abfc/codegen.py:57-62 | a fresh machine: pointers at 0, no code, no open loop, and valid |
| Codegen.Machine.DoMove | abfc/codegen.py:70-78 | appends the move chunk, shifts `bf_ptr` by the offset, leaves the rest, and validates the new pointer |
| Codegen.Machine.DoMoveToStackAddress | abfc/codegen.py:80-84 | fails on a non-address and changes nothing; otherwise moves by `stack_ptr + offset - bf_ptr`, so `bf_ptr` lands on the address |
| Codegen.Machine.DoLeft | abfc/codegen.py:86-87 | a move by -1 |
| Codegen.Machine.DoRight | abfc/codegen.py:89-90 | a move by +1 |
| Codegen.Machine.DoInc | abfc/codegen.py:92-96 | refuses a negative count; otherwise appends `n` `+`s (nothing for 0) and validates; pointers unchanged |
| Codegen.Machine.DoDec | abfc/codegen.py:98-102 | refuses a negative count; otherwise appends `n` `-`s and validates; pointers unchanged |
| Codegen.Machine.DoBeginLoop | abfc/codegen.py:104-107 | appends `[` and pushes the relative pointer on the loop stack |
| Codegen.Machine.DoEndLoop | abfc/codegen.py:109-114 | appends `]`; pops the loop stack, failing on an empty stack and when the popped relative pointer differs from the current one |
| Codegen.Machine.DoRead | abfc/codegen.py:116-118 | appends `,` and validates |
| Codegen.Machine.DoWrite | abfc/codegen.py:120-122 | appends `.` and validates |
| Codegen.Machine.DoUnvalidatedBf | abfc/codegen.py:124-128 | appends the raw text exactly when every character is one of `<>+-[].,`, and fails on any other character without appending |
| BuiltinCode.NetLowAppend | abfc/codegen.py:104-114 | the net loop depth of joined chunks adds up, and the lowest depth reached is the lower of the first part's and the second part's shifted by the first's net |
| BuiltinCode.LowAtMostZero | abfc/codegen.py:104-114 | the lowest depth a chunk list reaches is never above its start |
| BuiltinCode.EmittableAppend | abfc/codegen.py:173-176 | two balanced, raw-free chunk lists emitted one after the other are balanced and raw-free |
| BuiltinCode.EmittableAppend3 | abfc/codegen.py:178-195 | the same for three lists |
| BuiltinCode.PlainEmittable | abfc/codegen.py:70-102 | chunks without brackets or raw text are balanced |
| BuiltinCode.LoopEmittable | abfc/codegen.py:104-114 | `[` + a balanced list + `]` is balanced |
| BuiltinCode.TextShape | abfc/codegen.py:70-122 | the joined text of raw-free chunks is made of opcodes, its depth is the chunks' net, and started at a depth that covers their lowest point it never closes a loop that is not open |
| BuiltinCode.EmittableText | abfc/codegen.py:70-122 | the text of balanced chunks is balanced code over the eight opcodes |
| BuiltinCode.EmittableKeepsValid | abfc/codegen.py:104-114 | appending balanced chunks keeps the machine's code valid at the same loop depth |
| BuiltinCode.SimpleLoopEmittable | abfc/codegen.py:145-171 | a move followed by a loop over plain chunks is balanced |
| BuiltinCode.ClearPiecesShape | abfc/codegen.py:145-149 | the chunks of `clear` are balanced |
| BuiltinCode.DrainPiecesShape | abfc/codegen.py:152-171 | the chunks of `destructive_add`/`destructive_sub` are balanced |
| BuiltinCode.CopyLoopPiecesShape | abfc/codegen.py:184-192 | the loop of `copy` is balanced |
| BuiltinCode.NormLoopPiecesShape | abfc/codegen.py:228-233 | the loop of `as_logical`/`logical_not`, with the nested `clear`, is balanced |
| BuiltinCode.RunPiecesShape | abfc/codegen.py:295-304 | the body of `put_string_constant` has no bracket and no raw text |
| BuiltinCode.ClearEmits | abfc/codegen.py:145-149 | whatever `clear` emits on success is balanced |
| BuiltinCode.DrainEmits | abfc/codegen.py:152-171 | whatever `destructive_add`/`destructive_sub` emit on success is balanced |
| BuiltinCode.MoveEmits | abfc/codegen.py:174-176 | whatever `move` emits on success is balanced |
| BuiltinCode.CopyEmits | abfc/codegen.py:179-195 | whatever `copy` emits on success is balanced |
| BuiltinCode.StackArithEmits | abfc/codegen.py:197-215 | whatever `stack_add`/`stack_sub` emit on success is balanced |
| BuiltinCode.LogicalEmits | abfc/codegen.py:223-250 | whatever `as_logical`/`logical_not` emit on success is balanced |
| BuiltinCode.AccumulateEmits | abfc/codegen.py:258-261 | one normalise-and-add step of `logical_or`/`logical_and` emits balanced code |
| BuiltinCode.LogicalPairBodyEmits | abfc/codegen.py:257-275 | the body of `logical_or`/`logical_and` emits balanced code |
| BuiltinCode.LogicalPairEmits | abfc/codegen.py:253-277 | whatever `logical_or`/`logical_and` emit on success is balanced |
| BuiltinCode.ConstantEmits | abfc/codegen.py:204-221 | whatever `constant_add`/`constant_sub` emit on success is balanced |
| BuiltinCode.PutStringEmits | abfc/codegen.py:289-306 | whatever `put_string_constant` emits on success is balanced |
| BuiltinCode.AtEmits | abfc/codegen.py:279-287 | a move followed by one plain chunk (`get_char`, `put_char`) is balanced |
| BuiltinCode.RunPiecesWrites | abfc/codegen.py:295-304 | `put_string_constant` writes exactly one `.` per character of the string |
| BuiltinCode.WritesAppend | abfc/codegen.py:295-304 | the count of `.` chunks adds up over concatenation |
| BuiltinCode.RunPiecesAB | abfc/codegen.py:289-306 | for the string "AB" the body is 65 `+`, `.`, one `+`, `.` (each character reached by its difference from the previous one) |
| Builtins.OpenAt | abfc/codegen.py:308-311 | moves to the address and appends `[`, pushing the address's offset on the loop stack; fails when the cell is off the tape |
| Builtins.BumpAt | abfc/codegen.py:242-243 | moves to the address and appends one `+` (or `-`) |
| Builtins.CloseAt | abfc/codegen.py:313-316 | moves to the address and appends `]`, popping the loop stack whose top is that offset |
| Builtins.CheckNoAliasing2 | abfc/codegen.py:18-20 | the two-operand aliasing check, by cases |
| Builtins.CheckNoAliasing3 | abfc/codegen.py:18-20 | the three-operand aliasing check, by cases |
| Builtins.Clear | abfc/codegen.py:145-149 | `clear(dst)`: fails (malformed, off the tape) as the result function says, else appends exactly its chunks `move [ - ]` |
| Builtins.Drain | abfc/codegen.py:152-171 | `destructive_add`/`destructive_sub`: the aliasing check comes first and fails without emitting; else exactly the drain loop |
| Builtins.DestructiveAdd | abfc/codegen.py:152-160 | `destructive_add`: the drain adding one to the destination per unit of the source |
| Builtins.DestructiveSub | abfc/codegen.py:163-171 | `destructive_sub`: the drain subtracting one per unit |
| Builtins.MoveValue | abfc/codegen.py:174-176 | `move`: `clear(dst)` then `destructive_add(src, dst)`, failing at the first failing step |
| Builtins.ConstantStep | abfc/codegen.py:204-221 | `constant_add`/`constant_sub`: the constant is matched, then the move, then the sign check; on success one `+`/`-` run of the constant's size |
| Builtins.CharIO | abfc/codegen.py:279-287 | `get_char`/`put_char`: a move to the cell and one `,`/`.` |
| Builtins.BeginLoop | abfc/codegen.py:308-311 | `begin_loop(src)`: move, `[`, and the loop stack grows by the cell's offset |
| Builtins.EndLoop | abfc/codegen.py:313-316 | `end_loop(src)`: move, `]`, then the loop stack must be non-empty with the cell's offset on top, and is popped |
| Builtins.CopyLoop | abfc/codegen.py:184-192 | the loop of `copy`: exactly its chunks, ending at the source |
| Builtins.CopyWith | abfc/codegen.py:181-193 | `copy` once its scratch cell is taken: the whole chunk list of `copy`, or the first failure |
| Builtins.Copy | abfc/codegen.py:179-195 | `copy(src, dst)` with its scratch at the least free offset: the result function's chunks; on success the allocator is as before |
| Builtins.StackArith | abfc/codegen.py:197-215 | `stack_add`/`stack_sub`: copy into scratch, drain into the destination, free the scratch; the allocator is restored on success |
| Builtins.NormLoop | abfc/codegen.py:228-233 | the normalising loop of `as_logical`/`logical_not`: always succeeds once its cells are on the tape, and emits exactly its chunks |
| Builtins.LogicalWith | abfc/codegen.py:225-249 | `as_logical`/`logical_not` after the aliasing check: the first failing step, or the copy, the clear, the set-to-one of `logical_not` and the loop |
| Builtins.Logical | abfc/codegen.py:223-250 | `as_logical`/`logical_not`: the result function's outcome and chunks; the scratch is freed on success |
| Builtins.Accumulate | abfc/codegen.py:258-261 | one operand of `logical_or`/`logical_and`: normalise into the scratch, then `stack_add` it into the destination |
| Builtins.LogicalPairWith | abfc/codegen.py:257-263 | the body of `logical_or`/`logical_and` with the scratch taken |
| Builtins.LogicalPair | abfc/codegen.py:253-277 | `logical_or`/`logical_and`: the result function's outcome and chunks; the scratch is freed on success |
| Builtins.PutCharCode | abfc/codegen.py:296-304 | one character of `put_string_constant`: the step from the previous code (nothing for equal codes) and one `.` |
| Builtins.PutString | abfc/codegen.py:289-306 | `put_string_constant`: a malformed argument fails; else clear a scratch cell and print the string through it, freeing the scratch |
| Builtins.PrintRun | abfc/codegen.py:294-304 | the loop over the characters appends exactly the run of steps and writes, pointers unchanged |
| Frames.ReverseIndex | abfc/codegen.py:324 | `reversed(offsets)` has the same length and lists the offsets back to front |
| Frames.GrowOrderSafe | abfc/codegen.py:323-327 | growing by a positive size visits the offsets highest first, so no move lands on an offset still waiting to be moved |
| Frames.ShrinkOrderSafe | abfc/codegen.py:339-343 | shrinking visits the offsets lowest first, so no move lands on an offset still waiting to be moved |
| Frames.MovesStep | abfc/codegen.py:324-327 | one more iteration of the move loop appends that offset's `move` |
| Frames.MovesPrefixErr | abfc/codegen.py:324-327 | once one `move` fails, the whole loop fails with that error |
| Frames.ClearsPrefixErr | abfc/codegen.py:328-330 | once one `clear` fails, the whole loop fails with that error |
| Frames.MovesEmits | abfc/codegen.py:324-327 | the move loop emits balanced code |
| Frames.ClearsEmits | abfc/codegen.py:328-330 | the clear loop emits balanced code |
| Frames.GrowEmits | abfc/codegen.py:318-331 | whatever `grow_stack` emits on success is balanced |
| Frames.ShrinkEmits | abfc/codegen.py:334-344 | whatever `shrink_stack` emits on success is balanced |
| Frames.BadSizeRefused | abfc/codegen.py:319-320 | a size that is not a constant fails as malformed and a negative one as a negative count, for both operations |
| Frames.MoveEach | abfc/codegen.py:324-327 | the loop of `move(x, x + k)` over the given offsets: the loop's result function, stopping at the first failure |
| Frames.ClearEach | abfc/codegen.py:328-330 | the loop of `clear(x)` for `x` in `range(n)` |
| Frames.GrowStack | abfc/codegen.py:318-331 | `grow_stack(size)`: the result function's outcome and chunks; on success `stack_ptr` grows by the size |
| Frames.ShrinkMoves | abfc/codegen.py:339-343 | a shrink by a positive size is exactly the moves of the occupied offsets in ascending order |
| Frames.ShrinkStack | abfc/codegen.py:334-344 | `shrink_stack(size)`: the result function's outcome and chunks; on success `stack_ptr` drops by the size |
| Allocator.PrefixCardinality | abfc/compile.py:72-76 | a set holding `0 .. n-1` has at least `n` elements (hence the search loop ends) |
| Allocator.LeastFreeFrom | abfc/compile.py:72-76 | the search from `k`, over a set holding everything below `k`, ends at the least number not in the set |
| Allocator.LeastFree | abfc/compile.py:72-76 | `next_free_cell` is the least natural number not allocated |
| Allocator.LeastFreeUnique | abfc/compile.py:72-76 | there is only one least free cell |
| Allocator.MinOf | abfc/compile.py:88-89 | the least element of a non-empty set is in it and below every element |
| Allocator.SortedOfElements | abfc/compile.py:88-89 | the sorted list holds exactly the set's elements, as many as the set has |
| Allocator.SortedOfIncreasing | abfc/compile.py:88-89 | the sorted list is strictly increasing |
| Allocator.SortedOfHead | abfc/compile.py:88-89 | the sorted list starts with the least element, and the rest is larger |
| Allocator.IncreasingCons | abfc/compile.py:88-89 | a smaller element put in front of a strictly increasing list keeps it strictly increasing |
| Allocator.StackMan.AllocateThenFree | abfc/compile.py:78-86 | `free_local` of the address `allocate_local` just returned succeeds and leaves the allocator with exactly the offsets occupied before |
| Allocator.StackMan.constructor | abfc/compile.py:69-70 | a fresh allocator has no cell allocated |
| Allocator.StackMan.NextFreeCell | abfc/compile.py:72-76 | the loop returns the least free cell |
| Allocator.StackMan.AllocateLocal | abfc/compile.py:78-81 | returns the address of the least free offset, and that offset is now allocated |
| Allocator.StackMan.FreeLocal | abfc/compile.py:83-86 | a value that is not a stack address fails as malformed; a free offset fails as a double free; otherwise exactly that offset is released |
| Allocator.StackMan.AllocatedCells | abfc/compile.py:88-89 | the allocated offsets in strictly increasing order, exactly those of the set |
| Allocator.FreeAddressOf | abfc/compile.py:81-84 | the address `allocate_local` hands out matches the `free_local` pattern with `i` bound to its offset |
| Registry.AllRegistered | abfc/codegen.py:140-142 | every built-in macro is in the registration table |
| Registry.SignatureOfName | abfc/codegen.py:140-142 | a built-in's registered name determines its signature |
| Registry.NameInjective | abfc/codegen.py:140-142 | no two built-ins are registered under the same name (each is keyed by its function name) |
| Registry.FindName | abfc/codegen.py:135-138 | searching the table for a registered built-in's name finds that built-in |
| Registry.NameOfFind | abfc/codegen.py:135-138 | a found built-in carries the searched name; a failed search is an unknown-built-in error |
| Registry.LookupName | abfc/codegen.py:135-138 | looking up a built-in's name gives that built-in |
| Registry.NameOfLookup | abfc/codegen.py:135-138 | whatever a lookup returns is registered under the looked-up name |
| Registry.LookupIffName | abfc/codegen.py:135-138 | a lookup returns `b` exactly when `b` is registered under the name |
| Registry.LookupError | abfc/codegen.py:135-137 | a lookup fails exactly when no built-in has the name, and fails as an unknown built-in |
| Registry.BuiltinEmits | abfc/codegen.py:144-344 | every built-in except `begin_loop`/`end_loop` emits balanced, raw-free code on success |
| Registry.MoveThenBracket | abfc/codegen.py:308-316 | a move followed by `[`, or by `]` with a loop open, keeps the code valid at the adjusted depth |
| Registry.BeginKeepsValid | abfc/codegen.py:308-311 | a successful `begin_loop` keeps the code valid with one more open loop |
| Registry.EndKeepsValid | abfc/codegen.py:313-316 | a successful `end_loop` keeps the code valid with one loop fewer |
| Registry.ResultKeepsValid | abfc/codegen.py:144-344 | any successful built-in keeps the code valid against the new loop stack |
| Registry.Invoke | abfc/codegen.py:138 | calling a built-in with the wrong number of arguments fails and changes nothing; otherwise its outcome and code are the built-in's result; on success only `grow_stack`/`shrink_stack` move the frame, only the loop built-ins change the loop stack, the allocator ends as it started, and a valid machine stays valid |
| Registry.Run | abfc/codegen.py:144-344 | the call of the selected built-in method: the result function's outcome and code, and the frame and loop-stack effects |
| Registry.InvokeMacro | abfc/codegen.py:135-138 | `_invoke_macro`: an unknown name fails as such and changes nothing, a wrong argument count likewise; otherwise the built-in's result, and a valid machine stays valid |
| Compile.ConstantPatternMatch | abfc/compile.py:12-27 | one `BaseEnv` matcher `L((tag, Star('x')))` matches exactly a literal-wrapped pair whose first element is the tag, binding `x` to the second |
| Compile.BaseGetFromSpec | abfc/compile.py:11-28 | trying the matchers in order succeeds exactly on a literal-wrapped pair tagged with one of them, giving the unwrapped pair; otherwise a missing key |
| Compile.BaseGetSpec | abfc/compile.py:11-28 | `BaseEnv.get` resolves exactly the literal-wrapped `int_constant`, `char_constant`, `string_constant` and `stack_address` pairs, to themselves unwrapped; anything else is a missing key |
| Compile.ConstantsResolve | abfc/compile.py:11-28 | integer constants, string constants and stack addresses resolve to themselves; a bare literal string does not resolve |
| Compile.ConstantResolves | abfc/compile.py:11-28 | every constant kind `BaseEnv` knows resolves to itself |
| Compile.LookupInnermost | abfc/compile.py:44-50 | a key bound in some scope, and in none inside it, resolves to that binding |
| Compile.LookupFallsThrough | abfc/compile.py:44-50 | a key bound in no scope resolves as `BaseEnv.get` does |
| Compile.LookupAllSpec | abfc/compile.py:133-134 | `arguments` succeeds exactly when every key resolves, giving the values in order |
| Compile.ReleaseAddresses | abfc/compile.py:116-118 | freeing a deallocation list of distinct occupied addresses releases exactly those offsets; any address that is not occupied makes it a double free |
| Compile.ReleaseHead | abfc/compile.py:117-118 | freeing the list frees its first address, then the rest; a first address that is not occupied is a double free |
| Compile.ReleaseDistinct | abfc/compile.py:116-118 | distinct occupied addresses are all released |
| Compile.DistinctTail | abfc/compile.py:117-118 | after the first address, the rest are still distinct and all still occupied |
| Compile.RemoveHead | abfc/compile.py:117-118 | removing the first offset, then the rest, removes all of them |
| Compile.ReleaseMissing | abfc/compile.py:117-118 | an address not occupied anywhere in the list makes freeing it a double free |
| Compile.DropNewlinesAppend | abfc/compile.py:197-206 | removing newlines distributes over concatenation |
| Compile.LinesSpec | abfc/compile.py:197-205 | the lines of `formatted_code` concatenate back to the code, are non-empty and at most 70 characters, all but the last exactly 70, and number `ceil(len / 70)` |
| Compile.JoinedDrop | abfc/compile.py:206 | removing the newlines from the joined output gives the lines concatenated, when the lines have none |
| Compile.NoNewlineDrop | abfc/compile.py:206 | a text without newlines is unchanged by removing them |
| Compile.PiecesNoNewline | abfc/compile.py:201-205 | lines cut from text without newlines contain none |
| Compile.FormatRoundTrip | abfc/compile.py:197-206 | for Brainfuck code, removing the newlines from `formatted_code` gives the code back, and the output is empty exactly when the code is |
| Compile.FormattedCode | abfc/compile.py:197-206 | the loop of `formatted_code` produces each 70-character line and the rest, each followed by a newline |
| Compile.PushedLookup | abfc/compile.py:113-114 | entering a fresh environment hides nothing: every lookup, and the outer lookup from inside it, is as before |
| Compile.DeclareThenSet | abfc/compile.py:36-46 | a freshly declared key reads as `None`, can then be set, and then reads as the set value |
| Compile.OthersUnchanged | abfc/compile.py:36-57 | declaring or setting one key, or deferring a free, leaves the lookup of every other key as it was |
| Compile.TopReplaced | abfc/compile.py:44-50 | replacing the innermost scope by one that binds a key alike leaves that key's lookup unchanged |
| Compile.OuterReadsCaller | abfc/compile.py:52-54 | `outer_get` inside a scope reads the bindings of the scope around it |
| Compile.NameLookupSpec | abfc/compile.py:148-151 | the name lookup gives built-in `b` exactly for the literal holding `b`'s name; every failure is a malformed literal or an unknown name |
| Compile.FindOpName | abfc/compile.py:156-169 | a tag found in the dispatch table is that entry's name |
| Compile.SignatureOfOp | abfc/compile.py:156-169 | the length and three characters of each tag, the facts that tell the tags apart |
| Compile.OpNameInjective | abfc/compile.py:156-169 | no two handlers share a tag |
| Compile.FindOpOf | abfc/compile.py:156-169 | searching the table for a handler's tag finds that handler |
| Compile.ParseOpSpec | abfc/compile.py:156-169 | the dispatch table maps a tag to a handler exactly when the tag is that handler's name |
| Compile.CompilerState.constructor | abfc/compile.py:92-96 | a state over the root environment, the given allocator and the given machine |
| Compile.CompilerState.EnvBegin | abfc/compile.py:113-114 | `do_env_begin` pushes a fresh scope |
| Compile.CompilerState.FreeLocal | abfc/compile.py:141-142 | `do_free_local`: the allocator's `free_local` on the value, with its outcome |
| Compile.CompilerState.EnvEnd | abfc/compile.py:116-119 | `do_env_end`: at the root it fails (there is no parent); otherwise it frees the deallocation list in order, stopping at the first failure, then pops the scope |
| Compile.CompilerState.Declare | abfc/compile.py:36-38 | `declare`: at the root it fails; a key already bound in the innermost scope fails; otherwise the key is bound to `None` there |
| Compile.CompilerState.Set | abfc/compile.py:40-42 | `set`: at the root it fails; a key not bound in the innermost scope fails; otherwise its value there is replaced |
| Compile.CompilerState.FreeOnExit | abfc/compile.py:56-57 | `free_local_on_env_exit`: at the root it fails; otherwise the value is appended to the innermost deallocation list |
| Compile.CompilerState.AllocateLocal | abfc/compile.py:138-139 | `do_allocate_local`: the address of the least free offset, which becomes allocated |
| Compile.CompilerState.CallBuiltin | abfc/compile.py:153-154 | `do_call_macro`: a callee that is not a built-in fails, arguments that are not expression trees are malformed, a wrong argument count fails, all with nothing changed; otherwise the result and the new state are those of `CallSpec` with the compiler's built-ins, and a valid machine stays valid |
| Compile.CompilerState.Query | abfc/compile.py:127-151 | `env_get`, `outer_env_get`, `arguments` and `name` give the value `OpSpec` gives and change nothing |
| Compile.CompilerState.ChangeScopes | abfc/compile.py:113-125 | `env_begin`, `env_end`, `env_declare` and `env_set` give the result `OpSpec` gives and, on success, leave the state it gives; a valid machine stays valid |
| Compile.CompilerState.ChangeCells | abfc/compile.py:138-154 | `allocate_local`, `free_local`, `free_local_on_env_exit` and `call_builtin` give the result `OpSpec` gives and, on success, leave the state it gives; a valid machine stays valid |
| Compile.CompilerState.DispatchOp | abfc/compile.py:113-169 | every handler of the table gives the result `OpSpec` gives and, on success, leaves the state it gives; a valid machine stays valid |
| Compile.CompilerState.Dispatch | abfc/compile.py:171-179 | `dispatch` gives the result of `DispatchSpec` and, on success, its state; an unknown tag, or a known tag with the wrong number of arguments, fails and changes nothing |
| Compile.CompilerState.EvalExpr | abfc/compile.py:181-189 | `eval_expr` gives the result of `EvalSpec` (a literal is itself; a non-empty tuple has its elements after the head evaluated left to right and is then dispatched on its head; anything else is malformed) and, on success, leaves the state `EvalSpec` gives; a valid machine stays valid |
| Compile.CompilerState.EvalItemsFrom | abfc/compile.py:188 | the list comprehension evaluates the elements after the head in order, each in the state the previous left, as `EvalItems` says; it stops at the first failure |
| Compile.CompilerState.EvalBody | abfc/compile.py:191-193 | the statement loop succeeds exactly when `EvalStatements` does, then leaves its state; otherwise it fails with the first statement's error |
| Compile.HeadTailMatch | abfc/compile.py:186 | `Cons(Star('head'), Star('tail'))` matches exactly the non-empty tuples, binding the first element and the rest |
| Compile.RunnerKeeps | abfc/codegen.py:144-344 | the compiler's built-ins only append to the code, and keep valid code valid for the loop stack they leave |
| Compile.OpKeeps | abfc/compile.py:113-154 | a successful handler only appends to the code and keeps valid code valid |
| Compile.EvalKeeps | abfc/compile.py:181-189 | a successful evaluation only appends to the code: the code before it is a prefix of the code after it; and valid code stays valid |
| Compile.ItemsKeeps | abfc/compile.py:188 | the same for the elements of a tuple evaluated left to right |
| Compile.StatementsKeep | abfc/compile.py:191-193 | the same for a whole body of statements |
| Compile.StatementsFirst | abfc/compile.py:192-193 | a body is its first statement, then the rest in the state that statement left; a failing first statement fails the body |
| Compile.ItemsStep | abfc/compile.py:188 | evaluating one more element of a tuple appends its value, in the state the earlier ones left |
| Compile.ItemsFailure | abfc/compile.py:188 | once an element fails to evaluate, evaluating more elements fails with the same error |
| Compile.LiteralItems | abfc/compile.py:182-188 | the literal elements of a tagged list evaluate to themselves and change nothing |
| Compile.EvalCompound | abfc/compile.py:185-189 | a tuple that is not a literal is its elements after the head evaluated, then dispatched on its head |
| Compile.DispatchTag | abfc/compile.py:175-177 | a handler's own tag dispatches to that handler |
| Compile.EvalTagged | abfc/compile.py:185-189 | a tuple headed by a handler's tag, whose elements evaluate, is that handler applied to their values |
| Compile.ArgumentsOpSpec | abfc/compile.py:133-134 | `do_argument_lookup` succeeds exactly when every key resolves, giving the list of values and changing nothing |
| Compile.NameOpSpec | abfc/compile.py:148-151 | `do_macro_name_lookup` gives the name lookup's value or error and changes nothing |
| Compile.CallOpSpec | abfc/compile.py:153-154 | `do_call_macro` as a handler is the built-in call of `CallSpec` |
| Compile.ArgumentsEvaluate | abfc/compile.py:181-189 | `ARGS(*xs)` evaluates to the values its arguments are bound to, in order, or fails with the first lookup error, changing nothing |
| Compile.NameEvaluates | abfc/compile.py:181-189 | `NAME(name)` of a built-in's name evaluates to that built-in and changes nothing |
| Compile.WrapperItems | abfc/compile.py:188 | the name and the argument list of a wrapper call evaluate first, to the built-in and the bound values |
| Compile.WrapperRuns | abfc/compile.py:185-189 | once its name and arguments evaluate, a wrapper call is the built-in call on them |
| Compile.WrapperEvaluates | abfc/sugar.py:5-8 | a built-in's wrapper `CALL_BUILTIN(name, *xs)` evaluates as that built-in run on the values its arguments are bound to; an argument bound nowhere fails the lookup and nothing runs |
| Compile.ConstantArguments | abfc/compile.py:11-28 | constants that no scope binds as names resolve to themselves, and the built-ins receive exactly those constants |
| Compile.WrapperOnConstants | abfc/compile.py:133-154 | a wrapper called with constants that no scope binds runs the built-in on exactly those constants: the value is `None` and the state is the one the built-in leaves, or the call fails with the built-in's error |
| Compile.CompilePhase2 | abfc/compile.py:98-195 | `compile_phase_2` on a fresh state gives exactly `Compiled`: the main macro's statements evaluated in turn from the initial state, and the code formatted; a value that is not a macro, or the first failing statement, is an error |
| Compile.CompiledShape | abfc/compile.py:191-206 | a successful compilation, with its newlines removed, is Brainfuck instructions only with no `]` before its `[`, and the output is exactly that code cut into 70-character lines |
| PatternMatch.MatchFoldSpec | abfc/pattern_match.py:24-33 | matching a pattern list against an equally long list succeeds exactly when every element matches its pattern, and then yields the element bindings concatenated in order |
| PatternMatch.SequencePattern | abfc/pattern_match.py:18-33 | a list pattern matches exactly a list of the same length whose elements all match, with the bindings concatenated in order |
| PatternMatch.ConsOfSequence | abfc/pattern_match.py:75-94 | `Cons(h, [t1, ...])` matches exactly what the list pattern `[h, t1, ...]` matches, with the same bindings |
| PatternMatch.LeafPatterns | abfc/pattern_match.py:35-73 | `Star(n)` matches anything and binds it to `n`, `One()` matches anything with no binding, `Zero()` matches nothing, a string matches only itself |
| PatternMatch.ConsNeedsNonEmptySequence | abfc/pattern_match.py:81-94 | a `Cons` pattern matches exactly a non-empty list whose head matches the head pattern and whose tail matches the tail pattern |
| PatternMatch.ToMapFromSpec | abfc/pattern_match.py:106 | building the dictionary from a binding list gives each bound name the value of its last binding and leaves other names as they were |
| PatternMatch.LastValueOfTail | abfc/pattern_match.py:106 | the last binding of a name is in the tail, or else it is the first binding |
| PatternMatch.LastValueSome | abfc/pattern_match.py:106 | a name has a last binding exactly when some binding names it |
| PatternMatch.AttemptMatchLastWins | abfc/pattern_match.py:103-107 | `attempt_match` of a successful match is the dictionary holding exactly the bound names, each mapped to its last bound value |
| PatternMatch.ReplaceUnmatched | abfc/pattern_match.py:114-117 | a rule whose pattern does not match returns the expression unchanged |
| PatternMatch.MatchPair | abfc/pattern_match.py:24-33 | a two-pattern list against a two-element list matches exactly when both match, with both binding lists in order |
| PatternMatch.ToMapTwo | abfc/pattern_match.py:106 | a two-binding list builds the two-entry dictionary, the later binding winning |
| PatternMatch.ToMapThree | abfc/pattern_match.py:106 | a three-binding list builds the three-entry dictionary, later bindings winning |
| PatternMatch.MatchFoldCons | abfc/pattern_match.py:27-33 | the fold stops at a failing first element and otherwise carries its bindings on to the rest |
| PatternMatch.MatchTriple | abfc/pattern_match.py:18-33 | a three-pattern list matches exactly a three-element list whose elements all match, with the bindings in order |
| PatternMatch.MatchQuad | abfc/pattern_match.py:18-33 | a four-pattern list matches exactly a four-element list whose elements all match, with the bindings in order |
| PatternMatch.MatchFoldThree | abfc/pattern_match.py:27-33 | the fold over three patterns appends the three binding lists to the accumulator when all match, and fails otherwise |
| PatternMatch.MatchSingle | abfc/pattern_match.py:18-33 | a one-pattern list against a one-element list matches as the pattern against the element |
| PatternMatch.DemoLocalRule | abfc/pattern_match.py:129-140 | the outcomes of `test_a`: only `[('local', 'violin_tuna')]` is rewritten, to the greeting, and the other four inputs come back unchanged |
| PatternMatch.WordsSplit | abfc/pattern_match.py:81-91 | the head of a word list is its first word and the tail is the list of the rest |
| PatternMatch.ConsStarStep | abfc/pattern_match.py:81-94 | `Cons(Star(n), t)` on a non-empty word list binds the first word to `n` and continues with the rest |
| PatternMatch.ConsLitStep | abfc/pattern_match.py:81-94 | `Cons(s, t)` on a non-empty word list requires the first word to be `s` and continues with the rest |
| PatternMatch.DogSentence | abfc/pattern_match.py:142-146 | the `test_b` rule rewrites any word list of at least five words that starts with `hello` and has `dog` fifth into `ohai`, the three middle words and `cat`; every other word list is returned unchanged |
| PatternMatch.DogLong | abfc/pattern_match.py:142-146 | on five or more words the `test_b` pattern matches exactly when the first is `hello` and the fifth is `dog`, binding `x`, `y`, `z` to the second to fourth |
| PatternMatch.DogBindings | abfc/pattern_match.py:106 | the `x`, `y`, `z` bindings build the dictionary of those three names |
| PatternMatch.DogOhai | abfc/pattern_match.py:146 | the `test_b` action builds `['ohai', x, y, z, 'cat']` |
| PatternMatch.DogShort | abfc/pattern_match.py:142-146 | fewer than five words never match the `test_b` pattern |
| PatternMatch.DemoHeadTailRule | abfc/pattern_match.py:142-152 | the outcomes of `test_b`: the two five-word sentences ending in `dog` are rewritten and the plain strings, the four-word list and the sentence ending in `cat` come back unchanged |
| Sugar.LiteralRoundTrip | abfc/sugar.py:18-19 | unwrapping `L(x)` gives `x`, and whatever unwraps was made by `L` |
| Sugar.UnliteralsRoundTrip | abfc/sugar.py:27-31 | the `map(L, ...)` lists of `PARAMS`/`ARGS` unwrap to their inputs, and whatever unwraps was made that way |
| Sugar.TaggedRoundTrip | abfc/sugar.py:27-31 | a tagged tuple such as `PARAMS`/`ARGS` decodes to its items, and whatever decodes was built so |
| Sugar.WrappedRoundTrip | abfc/sugar.py:21-25 | `NAME(x)` and `LOCAL(x)` decode to `x`, and whatever decodes was built by them |
| Sugar.CallRoundTrip | abfc/sugar.py:33-37 | `CALL` and `CALL_BUILTIN` decode to their name and arguments, and whatever decodes was built by them |
| Sugar.BodyRoundTrip | abfc/sugar.py:39-40 | `BODY(...)` decodes to its statements, and whatever decodes was built by it |
| Sugar.MacroRoundTrip | abfc/sugar.py:42-45 | `MACRO(name, *params)(*body)` decodes to its name, parameters and body, and whatever decodes is rebuilt exactly |
| Sugar.RebuildRoundTrip | abfc/sugar.py:42-45 | rebuilding decoded macro parts and decoding again gives the parts back |
| Sugar.ConstantsAgree | abfc/sugar.py:47-61 | `CHAR_CONSTANT(c)` is `INT_CONSTANT(ord(c))`, the constants and stack addresses are what the code generator's matchers accept, and `HIDDEN` is neither a bare nor a literal string |
| Sugar.BlockRoundTrip | abfc/sugar.py:63-71 | `WHILE(...)(...)` and `IF(...)(...)` decode to their arguments and body, and whatever decodes was built by them |
| Sugar.UpperRoundTrip | abfc/sugar.py:13 | upper-casing a string without capitals keeps its length, and lower-casing the result gives the string back |
| Sugar.WrapperSignature | abfc/sugar.py:13 | upper-casing a built-in name keeps its length and upper-cases its first and last letters, which still tell the built-ins apart |
| Sugar.WrapperNameInjective | abfc/sugar.py:10-14 | two built-ins get the same upper-cased wrapper name exactly when they are the same built-in, so no wrapper overwrites another |
| Sugar.WrapperCalls | abfc/sugar.py:5-14 | each generated wrapper builds the `CALL_BUILTIN` of its own built-in name, and that name resolves to the built-in |
| Sugar.MatchTagPair | abfc/sugar.py:18-25 | the pattern `(tag, p)` matches exactly a pair whose first element is `tag`, as `p` matches the second |
| Sugar.MatchOneOf | abfc/sugar.py:18-25 | a one-pattern list matches exactly a one-element list, as the pattern matches the element |
| Sugar.MatchLiteral | abfc/sugar.py:18-19 | the pattern `L(Star(n))` matches exactly the literals, binding `n` to the wrapped value |
| Sugar.MatchConsTag | abfc/sugar.py:27-40 | `Cons(tag, Star(n))` matches exactly a non-empty tuple headed by `tag`, binding `n` to the rest |
| Expr.UnliteralsLength | abfc/expr.py:26-29 | unwrapping a list of literals keeps its length |
| Expr.MatchUserMacro | abfc/expr.py:17-21 | the `user_macro` matcher matches exactly the values built by `MACRO`, binding `name`, `params` and `statements` to their parts |
| Expr.LocalSiteMatch | abfc/expr.py:46 | the `allocate_locals` site pattern matches exactly a one-statement list holding a `LOCAL(x)`, binding `x` |
| Expr.MatchOneArgument | abfc/expr.py:68 | `ARGS(Star('x'))` matches exactly an `arguments` tuple with one literal, binding `x` to its value |
| Expr.BlockSiteMatch | abfc/expr.py:67-69 | the `while`/`if` site pattern matches exactly a one-statement list holding such a block with one argument, binding `x` and `statements` |
| Expr.CallSiteMatch | abfc/expr.py:143-151 | the call-site pattern matches exactly a one-statement list holding a `call_macro`, binding `macro_name` and `args` |
| Expr.RuleOrderSorted | abfc/expr.py:161-170 | the rules run in sorted order of their names: `allocate_locals`, `expand_if_block`, `expand_while_block` |
| Expr.StringLessAt | abfc/expr.py:170 | two names that first differ at position `k` sort by the characters there |
| Expr.StepByMatcher | abfc/expr.py:46-50 | for each rule, applying its match-and-replace to `[stmt]` gives the statement's rewrite (`abfc/expr.py:59-69` and `abfc/expr.py:78-94` for the blocks) |
| Expr.StepShape | abfc/expr.py:46-98 | a statement is kept as it is exactly when the rule's construct does not occur in it; an occurrence is rewritten into at least three statements |
| Expr.ExpansionSettles | abfc/expr.py:46-50 | the three statements `allocate_locals` puts in place of a `LOCAL` hold no `LOCAL` |
| Expr.ExpandSnoc | abfc/expr.py:51-54 | the loop over the statements: the rewrite of a list is the rewrite of all but the last, then the last one's |
| Expr.SettledSnoc | abfc/expr.py:51-54 | a list holds no occurrence exactly when its prefix holds none and its last statement is not one |
| Expr.SettledAppend | abfc/expr.py:51-54 | two lists hold no occurrence exactly when their concatenation holds none |
| Expr.ExpandAppend | abfc/expr.py:51-54 | rewriting distributes over concatenation |
| Expr.FlatMapAppend | abfc/expr.py:51-54 | any statement-by-statement rewrite distributes over concatenation |
| Expr.ExpandIdentity | abfc/expr.py:51-54 | the rewrite leaves a statement list unchanged exactly when the construct occurs in none of its statements, and otherwise makes it strictly longer |
| Expr.LocalsGone | abfc/expr.py:44-54 | after one `allocate_locals` pass no top-level `LOCAL` is left |
| Expr.ApplyRuleParts | abfc/expr.py:44-98 | a rule keeps a macro's name and parameters and rewrites its statements; a value that is not a macro is returned unchanged |
| Expr.ApplyRuleIdentity | abfc/expr.py:44-98 | a rule leaves a macro unchanged exactly when it is no macro or none of its statements holds the construct |
| Expr.ExpandStatements | abfc/expr.py:51-53 | the loop building `statements_prime` produces the statement-by-statement rewrite |
| Expr.ExpandOne | abfc/expr.py:53 | one iteration: `list(f([expr]))` is the statement's rewrite |
| Expr.ExpandPrefix | abfc/expr.py:51-53 | one more iteration extends the rewrite of the prefix by the next statement's |
| Expr.RunRule | abfc/expr.py:44-98 | applying a rule builds the macro with the rewritten statements |
| Expr.RoundUnchanged | abfc/expr.py:168-176 | a round that reports no change left the macro as it was, and every rule leaves it unchanged |
| Expr.RoundShape | abfc/expr.py:168-176 | a round keeps a macro's name and parameters; a value that is not a macro is unchanged |
| Expr.WrapFinished | abfc/expr.py:37-41 | a macro none of the rules changes, wrapped in `env_begin`/`env_end`, is finished: same name and parameters, and no `LOCAL`, `if` or `while` left between the two |
| Expr.FinishedTransfer | abfc/expr.py:168-177 | a result finished for a later round is finished for the macro that round started from |
| Expr.FixedPointStep | abfc/expr.py:168-176 | a round that changes the macro continues from the new macro |
| Expr.FixedPointDone | abfc/expr.py:168-177 | a round with no change ends the loop with the body wrapped, and the result is finished |
| Expr.FixedPointChanged | abfc/expr.py:168-177 | the outcome after a changing round carries back to the macro it started from |
| Expr.FixedPointSpec | abfc/expr.py:160-177 | `rewrite_macro_until_fixed_point` either runs out of rounds or returns a finished macro: same name and parameters, the body wrapped in one scope, with no `LOCAL`, `if` or `while` left at the top level |
| Expr.RunRound | abfc/expr.py:169-176 | one pass over the rules in sorted order, reporting whether any rule changed the macro |
| Expr.RewriteUntilFixedPoint | abfc/expr.py:160-177 | the loop of `rewrite_macro_until_fixed_point` computes the fixed point the rounds define |
| Expr.ParamsMatch | abfc/expr.py:26-29 | the `parameters` matcher matches exactly a `parameters` tuple, binding `p` to the names |
| Expr.ParamNamesOfMacro | abfc/expr.py:24-29 | the parameter names of `MACRO(name, *params)` are the literals of `params` |
| Expr.HeaderSpec | abfc/expr.py:111-117 | the header is built exactly when every parameter has a substitution (otherwise the name is unbound), and then holds, for each parameter in order, its `env_declare` and its `env_set` from `outer_env_get` |
| Expr.HeaderDefined | abfc/expr.py:112-113 | the header fails exactly when some parameter has no substitution |
| Expr.HeaderContents | abfc/expr.py:114-117 | the header has two statements per parameter, the declaration and the assignment of that parameter |
| Expr.ExpandMacroCall | abfc/expr.py:100-125 | the `rewrite_macro` code: a macro is rebuilt with the header, its statements and the footer, and no parameters |
| Expr.BuildHeader | abfc/expr.py:111-117 | the header loop stops at the first parameter without a substitution |
| Expr.HeaderFailsOn | abfc/expr.py:112-113 | once a prefix of the parameters fails, the whole header fails |
| Expr.ZipKeys | abfc/expr.py:139 | `dict(zip(params, args))` has exactly the parameters as keys |
| Expr.ZipSize | abfc/expr.py:139 | that dictionary has as many entries as parameters exactly when they are distinct |
| Expr.DistinctSnoc | abfc/expr.py:139 | a list is distinct exactly when its prefix is and its last element is new |
| Expr.ZipValues | abfc/expr.py:139 | with distinct parameters, each one is mapped to its own argument |
| Expr.InlineMacroFails | abfc/expr.py:136-140 | an unknown macro name fails, and a wrong argument count or a repeated parameter name fails the count check |
| Expr.HeaderedBody | abfc/expr.py:111-121 | the header, the statements and the footer form the inlined body |
| Expr.InlineMacroExpands | abfc/expr.py:132-141 | inlining a known macro with distinct parameters and the right number of arguments succeeds, giving `env_begin`, each parameter declared and set from its argument, the macro's statements and `env_end` |
| Expr.InlineMacroCall | abfc/expr.py:132-141 | the `inline_macro` steps compute the inlined statements |
| Expr.InlineStepShape | abfc/expr.py:143-155 | a statement that is no call is kept; an inlined call becomes at least two statements |
| Expr.InlineAllIdentity | abfc/expr.py:153-156 | inlining leaves the statements unchanged exactly when none is a call, and otherwise makes them strictly longer |
| Expr.InlineAllFirstError | abfc/expr.py:153-155 | the first call that fails to inline makes the whole pass fail with its error |
| Expr.ExpandAllMacroCalls | abfc/expr.py:128-158 | the loop of `expand_all_macro_calls_rule` computes the inlining pass, a value that is not a macro unchanged |
| Expr.InlineSettled | abfc/expr.py:193-196 | a macro the inlining pass leaves unchanged holds no call at the top level |
| Expr.RewriteMacros | abfc/expr.py:180-185 | every definition is rewritten to its fixed point |
| Expr.SettleUnfold | abfc/expr.py:193-196 | one iteration of the inlining loop: an unchanged macro is the result, a changed one goes round again |
| Expr.SettleNext | abfc/expr.py:193-196 | the same step, for the loop's remaining rounds |
| Expr.InlinePass | abfc/expr.py:194-196 | one pass either fails with the loop's error or brings the loop nearer its result; a pass with no change ends it with a macro that holds no call |
| Expr.InlineUntilFixedPoint | abfc/expr.py:190-197 | the inlining loop computes its fixed point, which holds no call at the top level |
| Expr.CompileMacro | abfc/expr.py:179-197 | `compile_macro` rewrites every definition, fails when the main macro is unknown, and returns a macro with no call at the top level |
| BootstrapBf.DigitRoundTrip | abfc/bootstrap_bf.py:25 | every hex digit reads back as its value |
| BootstrapBf.HexRoundTrip | abfc/bootstrap_bf.py:25 | the hex text of a number is non-empty hex that reads back as the number |
| BootstrapBf.LeadingZeros | abfc/bootstrap_bf.py:25 | leading zeros do not change a hex value |
| BootstrapBf.RepZeros | abfc/bootstrap_bf.py:25 | a run of zeros reads as 0 |
| BootstrapBf.HexLength | abfc/bootstrap_bf.py:25 | a number below 16^k has at most k hex digits |
| BootstrapBf.LabelValue | abfc/bootstrap_bf.py:25-26 | `'%04x' % i` is hex of at least four digits that reads back as `i` |
| BootstrapBf.LabelWidth | abfc/bootstrap_bf.py:25-26 | labels below 0x10000 are exactly four digits |
| BootstrapBf.LabelInjective | abfc/bootstrap_bf.py:19-35 | two labels are equal exactly when their counters are, so loop labels are unique |
| BootstrapBf.DeadStaysDead | abfc/bootstrap_bf.py:29-31 | after the `die`, nothing more is emitted |
| BootstrapBf.ScanAppend | abfc/bootstrap_bf.py:48-52 | translating `a + b` is translating `a`, then `b` |
| BootstrapBf.OthersIgnored | abfc/bootstrap_bf.py:49-52 | characters other than the eight instructions are ignored |
| BootstrapBf.ScanDepth | abfc/bootstrap_bf.py:19-35 | a run survives exactly when no `]` lacks its `[`; the label stack then grows by the bracket depth and the counter by the number of `[`; a dying run dies of the unmatched `]` |
| BootstrapBf.ScanKeepsOuter | abfc/bootstrap_bf.py:20-35 | code that closes no outer loop leaves the labels already open in place below its own |
| BootstrapBf.StaysOpenSnoc | abfc/bootstrap_bf.py:29-32 | the depth condition of a text holds exactly when it holds for the prefix and the depth stays non-negative |
| BootstrapBf.OutGrows | abfc/bootstrap_bf.py:47-53 | output only grows: what was emitted stays a prefix |
| BootstrapBf.Pairing | abfc/bootstrap_bf.py:22-35 | a loop `[ ... ]` with balanced inside opens with `begin_while` for the next counter and closes with `end_while` for the same label |
| BootstrapBf.TranslateSpec | abfc/bootstrap_bf.py:18-53 | `compile_for_arch` completes exactly when every `]` has a matching `[`, and otherwise dies of the unmatched `]` |
| BootstrapBf.Framing | abfc/bootstrap_bf.py:47-53 | the output starts with `PROGRAM_START`; a completed run ends with `PROGRAM_END` and emits only what the instructions give |
| BootstrapBf.CompileForArch | abfc/bootstrap_bf.py:18-53 | the source's loop, counter and label stack emit the translation the specification function defines, stopping at an unmatched `]` |

## Left out

- Files outside the core are not part of this model: `abfc/compile_macro.py` (runs user code with `exec`, reads `sys.argv` and files), `abfc/prelude.py` (a global macro registry filled by side effects), the architecture modules under `abfc/arch/`, the example macro programs and `tools/testreport.py`. Macro definitions are an explicit map from names to macro trees. An architecture is the `BootstrapBf.Arch` record of its assembly fragments.
- Printing and debugging: `expr_print`, `pretty_print_env`, `Machine.dump_code`, the verbose messages of the rewriter, and the `print` that ends `compile_phase_2`. `Compile.CompilePhase2` returns the formatted text; the one extra newline that `print` adds is not modelled.
- `bootstrap_bf.py` as a program: argument checking, the usage message, reading the input file (and joining its lines with `'\n'`), writing to stdout, and the message on stderr and `sys.exit(1)` of `die`. `emit` appends to the returned text. `die` is an `UnmatchedClose` failure whose text is everything emitted before it, without `PROGRAM_END`.
- Python's dynamic mechanisms are replaced by closed datatypes and `match`: the `tag_dispatch` dictionary of closures (`Compile.Op` and its table), the `BUILT_IN_MACRO` decorator registry (`Registry.Builtin`), the `**m` keyword calls of rewrite actions (`PatternMatch.Bindings`), and the `globals()` assignments of `sugar.py`. Those assignments are the functions `Sugar.Wrapper` and `Sugar.WrapperName`; the order in which they are registered is not modelled.
- Python values: tuples and lists are one sequence constructor, and strings are atoms. The matcher therefore never iterates over the characters of a string. The demonstration inputs give the same results either way. For the same reason a `string_constant` must carry a string: `is_string_constant` and `match_string_constant` (`abfc/codegen.py:42-54`) accept any payload and `put_string_constant` iterates it (`abfc/codegen.py:287-292`), so `('string_constant', ['a', 'b'])` prints `ab` in Python, while the model reports it as `Malformed`. Every other non-string payload fails in Python too.
- Keys Python cannot hash: a list reaching `Env.declare`, `Env.get` or a set lookup raises `TypeError` in Python. The model compares it like any other value.
- The meaning of the emitted Brainfuck on a tape (for example that `copy` keeps its source, or cell wrap-around): the repository has no interpreter. The model proves what code is emitted, not what it computes.
- `Machine.code` is a list of pieces, one for each string the Python `code` list receives; only their concatenation (`''.join`) is observed. A move or count of zero is kept as a piece that spells nothing, where Python appends nothing; the joined text is the same.
- The state after a failure: a failed built-in, `env_end` or handler aborts the whole compilation, so where Python stops part-way (code already appended, a scratch cell not yet freed, a scope half released), the model only states the error.
- Unbounded loops: `rewrite_macro_until_fixed_point` and the inlining loop of `compile_macro` have no cap, and a recursive macro never terminates. `Expr.FixedPoint`, `Expr.Settle`/`Expr.InlineFixedPoint` and `Expr.CompileSpec` take a `fuel` bound and fail with `FuelExhausted` when it runs out.
- Python `assert`s and exceptions become errors: a parameter with no substitution is `UnboundName`; a wrong argument count (the `assert` in `expand_macro_call` and `inline_macro`, or the `TypeError` of calling a handler or built-in with the wrong number of arguments) is `ArityMismatch`; `compile_phase_2` on a value that is not a macro is `Malformed`, where Python would iterate over the value itself.
- `NoParent`: `Env.outer_get`'s assertion never fails in phase two, because every `Env` is created with a parent and applying `outer_get` to the `BaseEnv` is the `RootScope` error.
- Expr.InlineMacro: a definition that is not a `user_macro` is `Malformed`. In Python, `get_macro_param_names`, `expand_macro_call` and `get_macro_statements` are `match_user_macro_body` rules, so they pass such a value through unchanged and `inline_macro` carries on with it (`abfc/expr.py:136-141`). No definition built with `MACRO` reaches this case.
- The `Env` chain as linked objects: the environments are a stack of scope records held by `CompilerState` (the record below a scope is its parent), not separate objects with parent links or an arena with integer parent indices. The model therefore does not capture an `Env` reached other than through the current scope and its ancestors; `compile_phase_2` never does that.
