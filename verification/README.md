# Prothon in Dafny

Prothon is a prototype-based scripting language with an interpreter in C. This project models the parts of the
interpreter that do the hard work and proves what they promise:

- **Arbitrary-precision integers** (`Digits`, `Long*`): numbers are little-endian arrays of 15-bit digits whose sign is
  the sign of the size field. The digit loops work in place on arrays, with the 16-, 32- and 64-bit widths of the C
  types. Addition to power, division (Algorithm D of Knuth, vol. 2, section 4.3.1), Karatsuba multiplication (section
  4.3.3), shifts, bitwise operations, formatting and parsing are proved against the value of the digits.
- **The code generator and the stack machine** (`Machine`, `Language`, `CodeShape`, `ExprCorrect`, `Chains`,
  `ChainRules`, `StmtCorrect`, `JumpTargets`, `ProgramCorrect`, `Laws`, `CodeGen`): what the parser's routines write into code
  buffers, word by word and patched in place, runs on the interpreter's loop as the structured program says. Calls into
  objects are opaque; the trace of calls is the store.
- **The small-block allocator** (`PoolLists`, `Pools`, `PoolState`, `PoolSteps`, `Allocator`): pools of equal blocks,
  circular lists of used pools, free lists threaded through free blocks, cached pools and arenas.
- **Prototype linearisation and attribute lookup** (`Protos`, `ProtoLookup`), and the **attribute table**
  (`Probing`, `AttrTable`), open addressing with deleted slots.
- **Three-way quicksort** (`Quicksort`), the **reader/writer object lock** as steps of any number of threads (`Lock`),
  and **symbol interning** through a ternary search trie (`Trie`, `Symbols`).

`dafny verify dfyconfig.toml` verifies everything. Objects the source updates in place are classes or arrays here;
pool headers and heap words are maps from addresses, reassigned as the C code assigns fields. Loops are loops with
invariants, and each method is tied to a function or a predicate on values whose properties are proved as lemmas.

## Where the code falls short of the obvious claim

- A unary operator extends its operand's code block and with it the block's comparison flag
  (`src/parser_routines.c:721-735`), so in `(-(a < b)) < c` the second comparison is compiled as a link of a chain.
  Parentheses do not clear the flag either: `(a < b) < c` is a chain by the grammar. The theorems about programs hold
  for every program with chains recognised by the flag, and with chains recognised by the grammar for programs without
  such a unary operand (`Clean`). `AgreeIffClean` shows that this condition is exact: any other expression over literals
  has a host on which the two rules make different calls.
- The attribute table's load rule counts live entries and ignores deleted slots. `ProbeEndsIff` is the exact condition
  for a probe to stop; `SetAll` shows that runs without deletes always meet it, `FillWithDeleted` that others need not.
- Symbol keys are 3n mod 2^31, but setting an attribute asserts that keys are multiples of 3. `MultipleOfThreeIff`: that
  holds exactly for the first 715,827,882 symbols.
- `write_lock` on an object the caller read-locks takes the caller out of `rdlock_cnt` without popping its lock stack,
  `read_unlock` on an object not read-locked lowers the count for a while, and `write_unlock` by a thread that does not
  write gives another thread's flag back (`src/lock.c:324-341` asserts only that the flag is set). Exclusion holds in
  every run without these three calls; each of them has a run that breaks it.
- `get_proto_attr` follows single prototypes without a limit. `EndsIff`: the walk ends if and only if some number of steps
  comes to the root, to an object with none or several prototypes, to one that is its own prototype, or to a hit not
  before `super_obj`; `RepeatDecides`: once it is back where it was, it ends only if it has ended by then. `TwoCycleWalk`
  shows both outcomes on two objects that are each other's prototype, `LongChain` the chains on which `proto_list` reports
  a circular reference that is none and `get_proto_attr` answers. `CircularIff` is the exact condition for that report.
- The grammar gives a labelled `while` no else block (`src/prothon.y:305-306`), and the C routine reads the length of that
  NULL (`src/parser_routines.c:1246`). `CompileStmt`: code comes out if and only if no `while` of the program carries a
  label; `LabelledLoop` is the smallest program that fails. The theorems about labels, and those about whole programs
  where they have labelled loops, are about the code the routine lays out when it is given a block.
- The header comment of the allocator says requests up to 256 bytes are small; the sizes of long and pointer are fixed at
  4 bytes by `src/prmalloc.c:23-24`, which makes the limit 64 bytes and 8 classes on every platform
  (`src/prmalloc.c:154-158`). The pool header grows with the real pointers: everything is proved for both its sizes, 32
  and 56 bytes.
- `quicksort` reads `a[r]` before testing `r <= l` (`src/builtins-list.c:307-309`); the model reads it after the test. The
  early read is in range for every call but the one on an empty range at index 0, where it is `a[-1]`: the list is empty,
  or a call further down is on such a range, for example (`NothingLeft`) whenever the last item is below all others.
- The zero fill at the end of `long_from_binary_base` (`src/builtins-int.c:798-801`) has nothing to fill.

## Model

| member | source | states |
|---|---|---|
| `LongCore.Long.Normalize` | src/builtins-int.c:177-186 | drops leading zero digits: value and sign unchanged, top digit non-zero or size zero |
| `LongCore.CopyLong` | src/builtins-int.c:198-211 | the copy has the same value and sign, with `padding` extra zero digits on top |
| `LongCore.NewLong` | src/builtins-int.c:214-245 | a normalised number whose value is the machine integer, for every 64-bit value including the smallest |
| `LongCore.NormUnique` | src/builtins-int.c:126-136 | normalised numbers of equal value have the same size field and the same digits |
| `LongCore.NormBounds` | src/builtins-int.c:126-136 | a normalised magnitude of n digits lies between BASE^(n-1) and BASE^n; zero has no digits |
| `LongSum.VIAdd` | src/builtins-int.c:463-481 | in place: the window of x gains the value of y exactly, digits outside it stay, and the returned carry is what does not fit |
| `LongSum.VISub` | src/builtins-int.c:487-506 | in place: the window of x loses the value of y modulo its size, with the borrow returned, in 16-bit arithmetic that wraps |
| `LongSum.XAdd` | src/builtins-int.c:1072-1101 | sum of the magnitudes, normalised |
| `LongSum.XSub` | src/builtins-int.c:1105-1155 | difference of the magnitudes with its sign, for operands of any relative size |
| `LongSum.DiffDecides` | src/builtins-int.c:1118-1130 | scanning from the top, the highest differing digit decides which magnitude is larger and everything above cancels |
| `LongSum.LongAdd` | src/builtins-int.c:1157-1181 | signed sum for all four sign combinations |
| `LongSum.LongSub` | src/builtins-int.c:1183-1206 | signed difference for all four sign combinations |
| `LongSum.LongInvert` | src/builtins-int.c:1728-1742 | ~v == -(v + 1) |
| `LongSum.LongCompare` | src/builtins-int.c:1047-1070 | three-way comparison agrees with the order of the values |
| `LongSum.SizesDecide` | src/builtins-int.c:1047-1055 | comparing the signed size fields alone is right whenever they differ |
| `LongDiv.MulAdd1` | src/builtins-int.c:517-533 | |a| * n + extra, at most one digit longer |
| `LongDiv.InplaceDivRem1` | src/builtins-int.c:541-555 | in place, top digit first: the old value is quotient * n + remainder, digits beyond untouched |
| `LongDiv.DivRem1` | src/builtins-int.c:561-572 | quotient and remainder of |a| by one digit, quotient normalised |
| `LongDiv.TrialDigit` | src/builtins-int.c:986-1004 | the correction loop ends with the exact quotient of the top three digits by the top two, and no intermediate exceeds 32 bits |
| `LongDiv.TrialIsClose` | src/builtins-int.c:986-1004 | such a digit is at most one too large for the whole divisor, and never too small |
| `LongDiv.CarryIsBit` | src/builtins-int.c:1006-1018 | after multiply-and-subtract the final carry is 0 or -1, and 0 exactly when the digit was right |
| `LongDiv.DivStep` | src/builtins-int.c:974-1029 | one turn of Algorithm D: the partial dividend loses digit * divisor and ends below the divisor |
| `LongDiv.DivLoop` | src/builtins-int.c:970-1029 | the whole loop: dividend == quotient digits * divisor + what is left, which is below the divisor |
| `LongDiv.Unscale` | src/builtins-int.c:956-968 | dividing the remainder by the normalisation factor is exact and undoes the scaling of both operands |
| `LongDiv.XDivRem` | src/builtins-int.c:949-1042 | abs(v) == q * abs(w) + r with 0 <= r < abs(w), both normalised, for divisors of two digits or more |
| `LongDiv.LongDivRem` | src/builtins-int.c:905-945 | truncating division with remainder for all signs and sizes; refused exactly for a zero divisor |
| `LongDiv.LDivMod` | src/builtins-int.c:1570-1602 | floor division: v == div * w + mod, mod zero or of the sign of w and smaller than it |
| `LongDiv.FlooredUnique` | src/builtins-int.c:1556-1569 | these conditions determine quotient and modulus, so they are the floor quotient and modulus |
| `LongMul.XMul` | src/builtins-int.c:1211-1242 | school product of the magnitudes, every 32-bit column sum in range |
| `LongMul.KMulSplit` | src/builtins-int.c:1251-1273 | high and low part recombine to the number |
| `LongMul.WrapsCancel` | src/builtins-int.c:1385-1420 | the two middle subtractions may borrow past the top and the addition carry past it: the digits left are the true product all the same |
| `LongMul.MiddleFits` | src/builtins-int.c:1437-1488 | the middle product fits the room above the low half |
| `LongMul.KIdentity` | src/builtins-int.c:1275-1279 | the ring identity behind three half-size products instead of four |
| `LongMul.KMul` | src/builtins-int.c:1281-1435 | Karatsuba returns abs(a) * abs(b) for all digit arrays, leading zero digits included; the recursion shrinks the total size |
| `LongMul.KLopsidedMul` | src/builtins-int.c:1490-1541 | slicing the longer operand gives the same product |
| `LongMul.LongMult` | src/builtins-int.c:1543-1553 | signed product for all operands |
| `LongPower.LongPow` | src/builtins-int.c:1640-1726 | v^w exactly, or its residue with the sign of the modulus, across digit boundaries where all 15 bits are squared; refused exactly for modulus zero |
| `LongPower.PowDigit` | src/builtins-int.c:1654-1705 | the 15 (or, in the top digit, fewer) rounds of one exponent digit keep accumulator * base^rest congruent to the result |
| `LongPower.ResidueUnique` | src/builtins-int.c:1640-1726 | the residue is determined by the power and the modulus |
| `LongShift.LongToInt64` | src/builtins-int.c:1744-1765 | the shift count as a machine integer, refused exactly when out of range |
| `LongShift.LongRShift` | src/builtins-int.c:1744-1804 | floor division by 2^w for both signs; refused exactly for negative or oversized counts |
| `LongShift.LongLShift` | src/builtins-int.c:1806-1857 | multiplication by 2^w for both signs; refused exactly for negative or oversized counts |
| `LongBits.LongBitwise` | src/builtins-int.c:1862-1955 | every bit of the result, over infinite two's complement, is the and/or/xor of the operands' bits, whatever masks and result size were chosen |
| `LongBits.BitwiseUnique` | src/builtins-int.c:1862-1955 | no other integer has those bits |
| `LongBits.BitIsShift` | src/builtins-int.c:1862-1955 | bit i is the parity of the floor quotient by 2^i, for negative numbers too |
| `LongBits.NothingBeyond` | src/builtins-int.c:1898-1921 | the shortened result size loses nothing: beyond it the planned operation gives only zero bits |
| `LongBits.PlanMasks` | src/builtins-int.c:1873-1896 | the rewriting of operation and masks computes the wanted operation on complemented operands |
| `LongText.LongFormat` | src/builtins-int.c:577-716 | the canonical text of every integer in every base from 2 to 36, with letters of the case asked for only, never leaving the precomputed buffer |
| `LongText.TextUnique` | src/builtins-int.c:577-716 | an integer has one such text: the result is determined |
| `LongText.DigitTable` | src/builtins-int.c:586-589 | the 36 digits in both cases, spelled out |
| `LongText.FormatBinary` | src/builtins-int.c:606-636 | the power-of-two path writes the numeral of the magnitude inside the buffer |
| `LongText.FormatDivide` | src/builtins-int.c:637-700 | the repeated-division path writes the same numeral, chunk by chunk, inside the buffer |
| `LongParse.LongFromBinaryBase` | src/builtins-int.c:724-803 | the digits of the text packed into base 2^15 denote the text's value; the final zero fill has nothing to fill |
| `LongParse.Cstr2Longp` | src/builtins-int.c:805-879 | accepts exactly the described texts (spaces, sign, prefix, digits, trailer) and returns the value they denote |
| `LongParse.SpaceInFront` | src/builtins-int.c:816-825 | a space in front changes neither acceptance nor meaning |
| `LongParse.SignInFront` | src/builtins-int.c:818-823 | a plus sign in front leaves the number, a minus sign negates it |
| `LongParse.HexPrefix` | src/builtins-int.c:826-835 | with base 0 or 16 the digits behind 0x or 0X are hexadecimal |
| `LongParse.OctalPrefix` | src/builtins-int.c:826-833 | with base 0 the digits behind 0 are octal |
| `LongParse.DecimalDefault` | src/builtins-int.c:826-828 | with base 0 all other digits are decimal |
| `LongParse.OneMoreBehind` | src/builtins-int.c:864-877 | behind the digits a long suffix or a space is read over; any other character that is no digit refuses the text |
| `LongParse.TextReadsBack` | src/builtins-int.c:805-879 | every formatted text is accepted and denotes the number it was made from |
| `LongParse.FormatThenParse` | src/builtins-int.c:577-879 | formatting then parsing returns the same number, for every number and every base from 2 to 36 |
| `Machine.StepAdd` | src/interp.c:873-1730 | runs of the loop compose |
| `Machine.PushWords` | src/interp.c:943-946 | OP_PUSH pushes its operand words in order or, when one is not data, leaves the stack alone |
| `Machine.StackTurn` | src/interp.c:947-968 | the operand-stack opcodes do what the step function says |
| `Machine.CallTurn` | src/interp.c:1465-1470 | OP_CALL takes the object, the method name, the binding and the argument pairs off the stack and pushes the answer |
| `Machine.Turn` | src/interp.c:938-1183 | one turn of exec_loop, including the pc-advance rule, is one step |
| `Machine.ExecLoop` | src/interp.c:873-1730 | the loop makes exactly the steps of the step function until it cannot go on or the limit is reached |
| `ExprCorrect.ExprRuns` | src/parser_routines.c:721-832 | wherever its code stands, an expression runs from its first word to just behind its last, leaving one value on top of the stack as it was |
| `Chains.ReadingsAgree` | src/parser_routines.c:736-832 | recognising chains by the flag, as the generator does, means what the grammar says, for expressions in which no comparison takes a flag over from a unary operand |
| `Chains.ProgramsAgree` | src/parser_routines.c:855-1281 | the same for whole programs of such expressions |
| `ChainRules.AgreeIffClean` | src/parser_routines.c:721-765 | and for no other expression over literals: the two meanings agree on every host and trace if and only if no comparison takes a flag over from a unary operand |
| `ChainRules.CanDiffer` | src/parser_routines.c:721-832 | for any other expression a host exists that leads the evaluation past every and, or and chain link to the flag, and sees different calls there |
| `ChainRules.Local` | src/parser_routines.c:721-832 | an evaluation depends on the host only in the calls it makes itself |
| `Chains.FlaggedUnary` | src/parser_routines.c:721-735 | against a constant, a comparison behind such a unary operand makes different calls on every host and trace, not only on some |
| `Chains.ChainMeaning` | src/parser_routines.c:736-800 | a chain of comparisons evaluates left to right, each operand at most once, stops at the first false link, and is the conjunction of its links |
| `Laws.ChainTruth` | src/interp.c:952-959 | asking a chain of any length for its truth gives True with no further call exactly when every link answered True (src/builtins-core.c:492); a chain that failed is the object False |
| `Laws.AndOrMeaning` | src/parser_routines.c:801-832 | and/or is the conjunction or disjunction of the truths of its operands, and the right one is evaluated exactly when the left one does not decide |
| `Laws.IfChain` | src/parser_routines.c:834-892 | if on a chain runs its first block if and only if all links held |
| `Laws.CompiledIfChain` | src/parser_routines.c:721-892 | and so does the compiled code, run to its stop |
| `Laws.IfRule` | src/parser_routines.c:855-892 | the first block whose condition is true runs, else the last |
| `Laws.SeqRule` | src/parser_routines.c:306-337 | the second statement runs exactly after a normal end of the first |
| `Laws.WhileRule` | src/parser_routines.c:1235-1281 | the rule of while/else in both directions: the else block when the condition is false, else a turn, and round again, out by an own break, or on with a foreign jump |
| `Chains.ChainSnoc` | src/parser_routines.c:736-765 | one more link is run exactly when the chain so far held, starting from the value compared last |
| `StmtCorrect.PlacedPatched` | src/parser_routines.c:904-926 | the distances written by the patching loop resolve every jump to the right target of its own loop, leaving those of outer loops open |
| `StmtCorrect.StmtPlaced` | src/parser_routines.c:855-1281 | contiguous generated code is laid out construct by construct, with every jump resolved to the innermost loop its label names |
| `StmtCorrect.CondRuns` | src/parser_routines.c:834-853 | a condition, its truth test and the POP at either end of the branch leave the stack as it was |
| `StmtCorrect.StmtRuns` | src/parser_routines.c:855-1281 | simulation: from the first word the machine follows the statement's outcome, to the end, to the target of an outer jump, or for as many turns as the loops ask, with the operand stack restored |
| `StmtCorrect.WhileRuns` | src/parser_routines.c:1235-1281 | the case of while/else, with nested and labelled break and continue |
| `StmtCorrect.ArmsRun` | src/parser_routines.c:855-892 | the case of if/elif/else |
| `ProgramCorrect.MoreIsSame` | src/parser_routines.c:855-1281 | a finished run of the structured program does not depend on the bound on loop turns |
| `ProgramCorrect.StopsIffTerminates` | src/parser_routines.c:855-1281 | the machine stops on the code the routines lay out exactly when the program terminates, for every program (chains by the flag) and by the grammar's chains where the two agree; labelled loops are those given an else block |
| `ProgramCorrect.StopsWhereProgramEnds` | src/parser_routines.c:855-1281 | and then at the last word (or at a jump no loop handles), with the program's calls made in order and the stack restored |
| `ProgramCorrect.NeverWrong` | src/interp.c:873-1730 | after any number of turns the machine stands on an opcode word or at the end; it never meets a bad opcode or an empty stack |
| `ProgramCorrect.CompileAndRun` | src/parser_routines.c:721-1281 | generator and loop together: no code exactly when a `while` is labelled; otherwise, whatever the turn limit, a stop means the program's own end |
| `JumpTargets.ExprTiled` | src/parser_routines.c:721-832 | the instructions of an expression tile its code and its jumps land on opcode words |
| `JumpTargets.PatchedTiled` | src/parser_routines.c:904-926 | patching keeps the tiling; patched jumps reach at most one word past the body |
| `JumpTargets.StmtTiled` | src/parser_routines.c:855-1281 | every jump in the code of any statement lands on the first word of an instruction or at the end |
| `CodeGen.AddCode` | src/parser_routines.c:221-228 | copies a block behind the first k words |
| `CodeGen.AppendCode` | src/parser_routines.c:306-337 | the first block becomes the concatenation of both |
| `CodeGen.Unary` | src/parser_routines.c:721-735 | the operand's block grows by the call of the operator; the comparison flag stays |
| `CodeGen.Binary` | src/parser_routines.c:736-800 | fills the block of a plain operator, a comparison, or a further link of a chain, as the flag says |
| `CodeGen.ExprAndOrExpr` | src/parser_routines.c:801-832 | fills the block of and/or |
| `CodeGen.PatchBreakContinues` | src/parser_routines.c:904-926 | the in-place walk rewrites exactly the breaks and continues this loop handles and nothing else |
| `CodeGen.IfExprBodyElifElse` | src/parser_routines.c:855-892 | all arms and the else block in one buffer, each arm jumping to the common end |
| `CodeGen.WhileExprBodyElse` | src/parser_routines.c:1235-1281 | patches the body in place, then fills the loop's block when it is given an else block; without one it fails |
| `CodeGen.CompileStmt` | src/prothon.y:286-307 | code comes out if and only if no `while` is labelled, and then the buffers filled step by step hold the code the simulation is about |
| `CodeGen.LabelledLoop` | src/prothon.y:305-306 | the one-line labelled loop fails |
| `PoolLists.RingPush` | src/prmalloc.c:426-430 | linking a pool in behind the list end touches four links and yields the longer ring |
| `PoolLists.RingRemove` | src/prmalloc.c:414-417 | unlinking a pool joins its neighbours and yields the shorter ring |
| `Pools.BlockInside` | src/prmalloc.c:398-400 | every block starts behind the pool header, ends inside the pool and is 8-aligned |
| `Pools.BlocksApart` | src/prmalloc.c:398-400 | different blocks of a pool do not overlap |
| `Pools.CapacityAtLeastTwo` | src/prmalloc.c:459 | every class has at least two blocks to a pool |
| `Pools.PoolCarve` | src/prmalloc.c:391-405 | when the free list runs dry the virgin block is the one whose index is the allocation count, and it is in no carved block |
| `Pools.PoolGive` | src/prmalloc.c:550-552 | a block given back was counted: the count is positive and carved == count + free |
| `PoolState.LiveApart` | src/prmalloc.c:360-601 | blocks in use at the same time never overlap |
| `PoolState.LiveInside` | src/prmalloc.c:360-601 | a block in use lies in one pool behind its header, is 8-aligned, and its pool has a positive count |
| `PoolState.LiveClear` | src/prmalloc.c:360-601 | no block in use overlaps a pool header, a block from the system allocator, or the first word of its arena |
| `PoolSteps.TakeAny` | src/prmalloc.c:376-418 | taking a block from a used pool, in all three cases, keeps the invariant and puts exactly one block in use |
| `PoolSteps.InitAny` | src/prmalloc.c:426-462 | setting up an empty pool, reusing its free list or laying it out anew, keeps the invariant and puts exactly one block in use |
| `PoolSteps.Uncache` | src/prmalloc.c:419-425 | taking a cached pool leaves all blocks as they are |
| `PoolSteps.Commit` | src/prmalloc.c:466-476 | the next page of the arena is inside the system block and was no pool yet |
| `PoolSteps.PageUp` | src/prmalloc.c:507-509 | rounding up to a page leaves all 63 pools inside the system block and clear of its first word |
| `PoolSteps.NewArena` | src/prmalloc.c:493-510 | a fresh arena keeps the invariant |
| `PoolSteps.GiveAny` | src/prmalloc.c:550-601 | giving a block back, in all three cases, keeps the invariant and takes exactly that block out of use |
| `PoolSteps.SystemBlockInNoPool` | src/prmalloc.c:543-548 | an address from the system allocator is never taken for a pool block |
| `PoolSteps.ProgramWrites` | src/prmalloc.c:360-601 | a program writing only in memory it holds disturbs neither the free lists nor any other memory held |
| `Allocator.Heap.constructor` | src/prmalloc.c:262-312 | the initial tables: empty rings, no pools, nothing in use |
| `Allocator.Heap.Malloc` | src/prmalloc.c:360-522 | keeps the invariant; a request of 1 to 64 bytes gets a block not in use before, of the smallest sufficient multiple of 8, and no other block in use changes size, address or contents, nor does memory held from the system; it comes from the first used pool of the class, else the pool cached last, else the next page, and only then a new arena; everything else goes to the system |
| `Allocator.Heap.Free` | src/prmalloc.c:527-601 | keeps the invariant; exactly the given block leaves use, or goes back to the system, and no other contents change; the block is in front of its pool's free list, a full pool in front of its class, an empty one in front of the cached pools |
| `Allocator.Heap.FreeThenMalloc` | src/prmalloc.c:360-601 | a block freed from a full pool is the next one its class gives, and then the same blocks are in use as before |
| `Allocator.Heap.Realloc` | src/prmalloc.c:606-661 | all cases: NULL is a malloc; a block stays where its class suffices, is freed for size zero and otherwise moves; memory from the system moves to the pools for small sizes and goes to the system's realloc otherwise; a move keeps the words, and all other memory held stays as it is |
| `PoolSteps.MemoryKept` | src/prmalloc.c:360-601 | memory held, block or not, keeps size and words through a step that changes words only in pools and outside live blocks |
| `Allocator.Heap.Store` | src/prmalloc.c:360-601 | a store by the program keeps the invariant |
| `Protos.KidBehind` | src/object.c:813-829 | every prototype of an entry stands behind it on the complete worklist |
| `Protos.ChildFirst` | src/object.c:804-852 | an object comes before each of its prototypes in the list |
| `Protos.KidsInOrder` | src/object.c:816-822 | prototypes are taken in the order the object lists them, and none but the root is dropped |
| `Protos.SiblingsInOrder` | src/object.c:804-852 | of two prototypes of an object the one listed first comes first, unless it is met again further down |
| `Protos.FlatList` | src/object.c:804-852 | different prototypes with only the root above them: the object, they as listed, the root |
| `Protos.RootLast` | src/object.c:836-841 | the root object comes last |
| `Protos.OrderIsReachable` | src/object.c:804-852 | the list holds exactly the object, what it reaches, and the root, each once |
| `Protos.CompleteMeansAcyclic` | src/object.c:825-829 | a worklist that completes has no cycle below it; around a cycle it never completes |
| `Protos.CompleteIffRanked` | src/object.c:813-831 | the worklist completes if and only if the graph below the object is acyclic (has a ranking) |
| `Protos.RankedCompletes` | src/object.c:813-831 | and then has exactly one entry for every way down from the object |
| `Protos.CircularIff` | src/object.c:825-829 | the circularity error means a cycle, or more than 101 ways down, and nothing else |
| `ProtoLookup.KeepLasts` | src/object.c:837-848 | nulling equal earlier entries in place leaves exactly the last occurrences in order |
| `ProtoLookup.ProtoList` | src/object.c:804-852 | the linearisation when the worklist completes within 101 entries, the circularity error exactly when it does not |
| `ProtoLookup.HasProto` | src/object.c:855-899 | membership in that list whenever there is one; a positive answer always means the target is reachable |
| `ProtoLookup.GetProtoAttr` | src/object.c:905-1006 | whenever the walk along single prototypes ends: the answer of the object where it ends (hit, root, own prototype, or the breadth-first list with its limit), and, when there is a linearisation, the first hit along it, strictly behind super_obj when given |
| `ProtoLookup.FirstProtoWins` | src/object.c:928-1000 | of several such prototypes the first that has the attribute answers |
| `ProtoLookup.EndsIff` | src/object.c:910-927 | exactly when the walk ends, without reference to the walk's state |
| `ProtoLookup.RepeatDecides` | src/object.c:910-927 | a walk that repeats itself ends if and only if it has ended before; a cycle without a hit is walked forever |
| `ProtoLookup.TwoCycleWalk` | src/object.c:910-927 | two objects that are each other's prototype: never an end without a hit, an end at once with one, never a linearisation |
| `ProtoLookup.LongChain` | src/object.c:825-829 | on every chain of more than 101 objects, and on no shorter one, `proto_list` reports a cycle that is none, and `get_proto_attr` answers |
| `ProtoLookup.SearchFirst` | src/object.c:905-1006 | nothing between the starting point and the hit has the attribute |
| `ProtoLookup.ChildNotHidden` | src/object.c:905-1006 | a prototype never hides an attribute of its child |
| `Probing.AtIsMod` | src/object.c:553-568 | the probe index modulo the table size goes round the slots from the home slot |
| `Probing.ProbeEndsIff` | src/object.c:553-568 | an unbounded probe for a key stops if and only if a slot is empty or the key is there |
| `Probing.RoomLeft` | src/object.c:638-660 | without deleted slots, fewer entries than slots means an empty slot |
| `AttrTable.Attrs.Probe` | src/object.c:553-561 | the probe finds the key exactly when the table holds it |
| `AttrTable.Attrs.GetAttr` | src/object.c:553-568 | agrees with the map |
| `AttrTable.Attrs.DelAttr` | src/object.c:571-586 | removes the key from the map by a mark; all other keys stay reachable |
| `AttrTable.Attrs.AttrsRealloc` | src/object.c:606-635 | same entries, no deleted slots, room to spare |
| `AttrTable.Attrs.SetAttr` | src/object.c:638-660 | updates the map; reuses a deleted slot or an empty one; rehashes exactly when overloaded |
| `AttrTable.SizeHasRoom` | src/object.c:606-616 | the new size leaves room and is below the load limit |
| `AttrTable.SetAll` | src/object.c:638-660 | any run of sets without deletes ends with the map of what was set and an empty slot |
| `AttrTable.FillWithDeleted` | src/object.c:571-586 | with deletes the rule is not enough: eight sets and deletes leave a table of no entries on which no probe ever stops |
| `Quicksort.ScanUp` | src/builtins-list.c:312 | the scan up stops at the first key not below the pivot, at the sentinel at the latest |
| `Quicksort.ScanDown` | src/builtins-list.c:313 | the scan down stops at the first key not above the pivot or at l |
| `Quicksort.Scan` | src/builtins-list.c:311-319 | afterwards equal keys are at both ends, the others on their sides, nothing lost |
| `Quicksort.FoldLeft` | src/builtins-list.c:321-323 | the equal keys of the left end come to the middle, one stays |
| `Quicksort.FoldRight` | src/builtins-list.c:324 | the equal keys of the right end come to the middle, one stays |
| `Quicksort.QuickSort` | src/builtins-list.c:305-326 | items l to r are sorted under any total preorder, are a permutation of what they were, and nothing outside moves; the C routine's early read is outside the array in some call only when the range starts at 0, and is when the range is empty or its last item least |
| `Quicksort.NothingLeft` | src/builtins-list.c:320-325 | when the last item is below all others the left range of the recursion is empty |
| `Lock.StepInv` | src/lock.c:220-342 | every atomic step of every thread keeps the invariant, the three misuses excepted |
| `Lock.Exclusion` | src/lock.c:220-342 | in every state of every interleaving, while a thread writes no thread reads and no other writes |
| `Lock.CountersExact` | src/lock.c:220-342 | rdlock_cnt is the number of lock-stack entries up to threads in mid-call, wrlock_req_cnt the number of waiting writers |
| `Lock.NoNewReaders` | src/lock.c:236-246 | while a writer waits, no thread that does not read becomes a reader |
| `Lock.WritersGetIn` | src/lock.c:289-322 | in every step of every run a waiting writer goes on waiting or gets the lock; a refusal comes before any waiting, the lock only when no reader is counted |
| `Lock.ReadersGetIn` | src/lock.c:220-246 | a waiting reader goes on waiting or gets the read lock; a thread that reads already never waits |
| `Lock.CallsEnd` | src/lock.c:220-342 | a call that is refused or done leaves the thread idle and the flag free, and nothing else changes |
| `Lock.WriterWaitsOut` | src/lock.c:289-322 | a run without misuse: a writer waits for a reader, a reader waits behind it, and the writer then writes |
| `Lock.ReaderWaitsOut` | src/lock.c:236-246 | and its end: the writer unlocks and the reader that had to wait reads |
| `Lock.UpgradeBreaksExclusion` | src/lock.c:303-308 | a run: asking for the write lock while reading uncounts the reader, and the next writer gets in beside it |
| `Lock.StrayUnlockBreaksExclusion` | src/lock.c:250-266 | a run: unlocking what was not read-locked lets a writer in beside another reader |
| `Lock.StrayWriteUnlockBreaksExclusion` | src/lock.c:324-341 | a run: `write_unlock` without the lock lets a second writer in |
| `Trie.InsTrie` | src/symbol.c:189-205 | inserting changes the entry of its own string and no other |
| `Trie.SearchTrie` | src/symbol.c:206-220 | search agrees with the map the trie stands for |
| `Symbols.KeyZero` | src/symbol.c:257-261 | the key counter returns to zero after 2^31 steps and not before |
| `Symbols.KeysDistinct` | src/symbol.c:257-261 | no key comes twice until then |
| `Symbols.MultipleOfThreeIff` | src/symbol.c:257-261 | a key is a multiple of 3, as setting attributes demands, if and only if the counter has not wrapped round |
| `Symbols.CheckName` | src/symbol.c:240-250 | accepts exactly the valid names |
| `Symbols.Table.Injective` | src/symbol.c:233-283 | different names have different positive keys |
| `Symbols.Table.Sym` | src/symbol.c:233-283 | equal names share a symbol, a new name gets the next key, all other names keep theirs; fails exactly on invalid names and when the keys run out |
| `Symbols.EndingsSpelled` | src/symbol.c:239-240 | for every stem `_BANG` at the end spells `!` and `_QUES` spells `?`; names with these marks stand as they are |
| `Symbols.OthersStand` | src/symbol.c:239-240 | and names with neither ending stand as they are |
| `Symbols.BothSpellings` | src/symbol.c:230-278 | a name and its spelled-out form are one symbol, whichever comes first |

## Left out

- LongPower.LongPow: negative exponents, which its only caller turns into floats; operands must be normalised, which the
  conversion at the start of the C function sees to.
- LongShift.LongToInt64: other uses of the conversion; immediate integers and their fast paths, which do not agree with
  the long operations.
- LongCore.NewLong: `long` has 64 bits; memory exhaustion and 31-bit overflow of digit counts are not modelled.
- ProgramCorrect.StopsIffTerminates: by the grammar's chains only where no unary operator passes on a comparison flag (see
  above); exceptions raised by called methods; jump distances beyond the 24-bit parameter field.
- CodeGen: static stack-depth estimates, source maps, freeing of blocks, documentation strings, attribute references,
  assignments, function calls with parameters, `for`, `try`, generators and definitions.
- Machine: opcodes outside control flow; what a called method does, beyond its result and the trace of calls.
- Allocator.Heap.Malloc: the lock around it, the list of arenas and allocation hooks; the answers of the system allocator
  are parameters, assumed fresh and aligned.
- Allocator.Heap.Free: the magic number that tells pool pages from others; here a page is a pool when it has a header.
  Headers are fields by address, not bytes; `LiveClear` shows that no block reaches them.
- Allocator.Heap.Realloc: for memory that is not from the pools and smaller than asked for, the C code copies beyond its
  end; the contract speaks of the words it holds. The answer of the system's realloc, with the words after it, is a
  parameter.
- ProtoLookup: the read lock on every object visited, and lookups that fail because a lock is refused.
- AttrTable: the prototype slots in front of the table; slot indices beyond 32 bits.
- Quicksort.QuickSort: whether the early read falls outside is not stated for every input, since it depends on the order
  of the scans; comparison calls that raise exceptions or answer inconsistently; the recursion depth.
- Lock: the mutex and condition that put waiting writers to sleep, time-outs, permission levels other than as a
  possible refusal, notification callbacks other than as giving the flag back and taking it again, immutable objects;
  fairness and freedom from deadlock.
- Symbols.Table.Sym: the symbol object around the key, its attributes and the dictionary of symbols; the comparison of
  endings reads in front of names shorter than five characters.
- The garbage collector, dictionaries, strings, floats, exceptions, imports, input and output.
