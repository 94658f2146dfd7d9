# KM10: a verified model

KM10 emulates a KL10 processor (a PDP-10): 36-bit words, sixteen accumulators that double as the first
sixteen memory locations, 18-bit addresses in section 0, a 13-bit flag field, and a seven-level priority
interrupt system. This project models the parts of it whose behaviour spans many steps or many words, and
proves what they compute, what every run of them keeps, and exactly where they fall short.

* **Numbers** (`Bits`, `Words`): powers, shifts, masks and bitwise or of unbounded numbers, and the fields of
  a 36-bit word. Every C++ width is written out as a truncation.
* **Multi-precision arithmetic** (`Wide`, `LongDivision`, `DWordGroup`, `Rotation`): the 256-bit accumulator,
  the 70 by 70 bit schoolbook product, the four-word carry chain of negation, the two division prototypes,
  double-word add, subtract, multiply and divide, and the rotates. The 256-bit accumulator and the word with its
  increment are classes, as they are in the source.
* **The processor** (`EffectiveAddress`, `Machine`, `JumpGroup`, `StackLaws`, `IntBinGroup`, `Emulator`,
  `Instructions`, `ControlFlow`, `Traps`, `BytePointer`): the class `KM10` holds the registers, the accumulators and memory; each handler is
  a method on it, proved equal to a function on a snapshot (`Cpu`) of the whole state. The theorems are about
  those functions: stack runs, block transfers, XCT chains, vectors, calls and returns. `Instructions` says what
  each opcode does in terms of the numbers in the words before and after, independently of how it is defined.
* **Interrupts** (`Interrupts`, `InterruptLaws`, `ConditionLaws`, `Service`): the PI device and the devices it polls, the nesting
  invariant of every run, the function word of CONO PI bit by bit, and the processor and the PI system stepping together.
* **Two data structures** (`TSQueue`, `History`): the thread-safe queue as a protocol of atomic steps under
  every interleaving, and the program-counter history as a window on a sequence.

Instructions that are not spelled out enter the instruction loop as a function from state to state and outcome,
a new one with every iteration, since what they do may depend on the devices. The theorems that need it ask of
these functions only what `WellBehaved` says, which the spelled-out handlers are proved to satisfy.

## Where the code differs from what it is meant to do

The code is modelled as it is. Where a promised property fails, a lemma says exactly when it holds.

* The product treats the magnitude field of a negative two's-complement operand as its absolute value (the
  results of `negate()` are dropped, src/word.cpp:342-354). `ProductExactIff` lists the operands that come out
  right; -1 times 1 is not among them (`ProductCounterexample`).
* Negating zero gives -2^140, and negating -2^140 gives zero: `NegateNegatesIff`.
* `x += x` on a 256-bit accumulator loses the carry between its halves: `W256.AddAssign`.
* The 192 by 128 bit division returns the remainder of the upper two words, and drops quotient bits when that
  remainder needs more than 64 bits (possible only for divisors above 2^64): `Udiv192by128`. So 1 divided by 2
  leaves 0 (`RemainderCounterexample`).
* DDIV's guard lets only dividends below the divisor through, whose quotient is zero, and the remainder stored is
  that of the second of three steps (src/word.cpp:404, src/i-dword.cpp:151-157). So it divides nothing but zero,
  and otherwise traps or leaves a zero remainder: `DdivDividesIff`, and for 1 by 2 `DdivCounterexample`.
* BLT up to the last address 0777777 never ends: `BltEndsIff`.
* JFFO does not jump on a word whose first bit is set: `JffoJumpsIff`.
* In its extended form `push` stores with address and value exchanged (src/i-jump.cpp:115): `PushStoresIff` says
  when the right state comes of it all the same, and `PushCounterexample` is a push whose word is lost.
* JRSTF and JEN through an indirect word restore the address but none of the saved flags, because an indirect
  reference keeps 18 bits: `ReturnIndirectIff`, and for a saved overflow `ReturnCounterexample`. Through an index
  register they do: `ReturnIndexedIff`.
* An XCT in an interrupt vector whose chain ends in a normal instruction continues after that instruction, not
  after the vector word: `XctChainIff`, and for a ROT `XctCounterexample`.
* With the pager on, the trap vector is fetched again after every instruction that leaves a trap flag up
  (`TakesTrapIff`). Of the instructions spelled out, only JSR, JSP, PUSHJ with room, and JRSTF, JEN and JRST 10
  from a word that does not hold them take both flags down (`LowersIff`), and the loop stays in the vector exactly as long as none of these is executed
  (`TrapLoopIff`). An XCT there, or a ROT by zero, is executed for ever: `XctInTrapVectorNeverEnds`,
  `RotInTrapVectorNeverEnds`.
* A skip in a vector resumes after the interrupted instruction, which is lost; the note at src/pi.cpp:23-32 has
  it return to the interrupted program: `SkipLeavesVector`, and for the instruction at 80 `SkipCounterexample`.
* A trap saves the address that the program counter holds after the instruction (`TrapSavesNext`); the note at
  src/km10.hpp:28-30 says that it points to the instruction that caused the trap. Outside a vector the two agree
  exactly when that instruction halted, was an XCT or jumped to itself: `TrapSavesItselfIff`. A PUSH at 80 that fills
  its stack saves 81: `TrapCounterexample`.
* A dismissal ends every service there is, not only the innermost, so that a service that was interrupted goes on
  with nothing held. The note at src/pi.cpp:14-16 has no service interrupted by a request that is not more urgent.
  For a service so resumed this is true exactly if nothing is requested, or something more urgent is:
  `ResumedSafeIff`. A request at level 6 interrupting the service of level 5 is `ResumedCounterexample`.
* A programmed request that names no level searches for ever: `SearchEndsIff`.
* `getByte` returns 32 bits, so wider bytes can be cut: `ByteReadIff`.
* Asked for more than 1024 entries of a full buffer, `mostRecent` starts at the wrong place:
  `MostRecentInOrderIff`, and for 1025 different entries `MostRecentCounterexample`.

## Model

| member | source | states |
|---|---|---|
| Wide.W256.AddAssign | src/word.cpp:221-225 | the 256-bit sum is exact, carry included; added to itself, the accumulator loses the carry exactly when its low half is at least 2^127 |
| Wide.W256.ShlAssign | src/word.cpp:235-246 | shifting the two halves is shifting the 256-bit number, for every count below 256 |
| Wide.W256.ShrAssign | src/word.cpp:249-260 | the same to the right |
| Wide.W36.IncMag | src/word.cpp:14-18 | adds one to the 35-bit magnitude under an unchanged sign, and reports just the overflow of all ones |
| Wide.Negate | src/word.cpp:149-181 | complementing four limbs and rippling the carry takes the 140-bit magnitude from 2^140 and flips the sign, for every four words |
| Wide.RippleNegates | src/word.cpp:149-181 | the carry goes through exactly the limbs that are zero, and what results is the negated 140-bit magnitude |
| Wide.NegateInvolution | src/word.cpp:149-181 | negating twice gives every word of a number with equal signs back |
| Wide.NegateNegatesIff | src/word.cpp:149-181 | the signed value is negated if and only if the magnitude is not zero |
| Wide.FromMagsRoundTrip | src/word.cpp:197-204 | two 70-bit magnitudes spread over four words are read back unchanged, with the sign in every word |
| Wide.ReadBackRoundTrip | src/word.cpp:393-399 | any four words with equal signs are rebuilt from their upper and lower 70 bits, which weigh 2^70 and 1 in the magnitude |
| Wide.Schoolbook | src/word.cpp:361-374 | the four partial products make up the whole 140-bit product, and none exceeds 70 bits |
| Wide.Multiply | src/word.cpp:361-386 | accumulating the partial products in 256 bits loses nothing: the four words returned hold exactly the product of the two 70-bit operands |
| Wide.Product | src/word.cpp:327-390 | the method returns the product of the raw magnitudes, negated when the signs differ |
| Wide.ProductValue | src/word.cpp:327-390 | the signed value of that result for all operands |
| Wide.ProductExactIff | src/word.cpp:327-390 | the signed product is exact if and only if both operands are non-negative or they are among the listed negative pairs |
| Wide.ProductCounterexample | src/word.cpp:327-390 | -1 times 1 comes out as 1 - 2^70 |
| LongDivision.Divlllu | tests/test128.cpp:198-222 | quotient times divisor plus remainder is the 256-bit dividend with the remainder below the divisor, if and only if the high half of the dividend is below the divisor |
| LongDivision.RemainderStep | tests/test128.cpp:203-214 | with the bit shifted out of x taken for all ones, the comparison and the subtraction modulo 2^128 are those of the 129-bit remainder |
| LongDivision.ShiftOut | tests/test128.cpp:209-210 | the dividend bits left and the quotient bits so far share y without meeting: one shift consumes exactly the top dividend bit |
| LongDivision.BringDown | src/i-dword.cpp:151-157 | one base 2^64 step extends quotient and remainder exactly, and its digit fits in 64 bits |
| LongDivision.Udiv192by128 | tests/test128.cpp:231-241 | for every 192-bit dividend and every divisor: the quotient is exact if and only if the second remainder fits in 64 bits, as it does for divisors up to 2^64; and when the returned remainder is the true one |
| LongDivision.LostBits | tests/test128.cpp:231-241 | shifting a remainder of more than 64 bits always loses quotient |
| LongDivision.StaleRemainder | src/i-dword.cpp:151-157 | the second step's remainder is the final one if and only if the divisor divides the given difference |
| LongDivision.LastDigit | tests/test128.cpp:238-240 | the last step's digit completes the quotient if and only if the remainder before it fits in 64 bits, and when that remainder is the true one |
| LongDivision.RemainderCounterexample | tests/test128.cpp:231-241 | dividing 1 by 2 returns quotient 0 and remainder 0, which do not add up to 1 |
| Rotation.RotIsRotation | src/i-intbin.cpp:630-646 | for every signed count, ROT moves the 36 bits cyclically by the count modulo 36 |
| Rotation.RotCompose | src/i-intbin.cpp:630-646 | two ROTs add their counts, and opposite counts cancel |
| Rotation.RotConserves | src/i-intbin.cpp:630-646 | ROT keeps the number of one bits |
| Rotation.RotcIsRotation | src/i-intbin.cpp:680-698 | despite the 128-bit intermediate, ROTC moves the 72 bits cyclically by the count modulo 72 |
| Rotation.RotcCompose | src/i-intbin.cpp:680-698 | two ROTCs add their counts, and opposite counts cancel |
| Rotation.RotcConserves | src/i-intbin.cpp:680-698 | ROTC keeps the number of one bits |
| IntBinGroup.RotateWord | src/i-intbin.cpp:630-646 | the stepwise shifts and masks on a word produce the rotation the laws above are about |
| IntBinGroup.RotatePair | src/i-intbin.cpp:680-698 | the same for the pair, out to the two words stored |
| IntBinGroup.DoROT | src/i-intbin.cpp:630-646 | the instruction changes its accumulator alone, to the rotated word |
| IntBinGroup.DoROTC | src/i-intbin.cpp:680-698 | the instruction changes its two accumulators alone |
| IntBinGroup.RotcPair | src/i-intbin.cpp:680-698 | the two accumulators ROTC leaves, read as one 72-bit number, are the rotated pair |
| Instructions.RotIs | src/i-intbin.cpp:630-646 | after opcode 0241, bit i of the accumulator is bit (i - count) mod 36 of what it was, for the signed count in the effective address |
| Instructions.RotcIs | src/i-intbin.cpp:680-698 | the same for opcode 0245 and the 72 bits of both accumulators |
| DWordGroup.DoDADD | src/i-dword.cpp:6-44 | the word-wise addition stores the 71-bit sum with its sign copied to the low word, and sets CY0 and CY1 on the carries out of and into bit 70 of the 71-bit operands |
| DWordGroup.DoDSUB | src/i-dword.cpp:47-64 | the word-wise subtraction with borrow is the 71-bit addition of the complement and one, in result, flags and trap |
| DWordGroup.SumByWords | src/i-dword.cpp:12-36 | adding by words is adding 71-bit numbers, and three sign bits tell both of its carries |
| Machine.KM10.SetADDFlags | src/km10.cpp:336-374 | the case split on three signs raises CY0 and CY1 on the carries out of and into the sign position, and OV, TR1 and the trap when these differ in user mode |
| Machine.KM10.SetSUBFlags | src/km10.cpp:378-415 | the same for a plus the complement of b plus one |
| DWordGroup.SignedSumIff | src/km10.cpp:336-415 | the signed sum is exact if and only if the two carries agree |
| DWordGroup.DaddTrapsIff | src/i-dword.cpp:6-44 | DADD traps if and only if in user mode and the signed sum does not fit in 71 bits |
| DWordGroup.DsubTrapsIff | src/i-dword.cpp:47-64 | DSUB stores the difference modulo 2^71 and traps if and only if in user mode and the signed difference does not fit |
| DWordGroup.DsubUndoesDadd | src/i-dword.cpp:6-64 | DSUB after DADD of the same operand restores the accumulators, low sign normalised, whatever overflowed |
| Instructions.DaddIs | src/i-dword.cpp:6-44 | opcode 0114 leaves the sum of the two double words modulo 2^71 in its accumulators, both with one sign; CY0 is raised exactly by a sum of 2^71 or more, CY1 by the same of the low 70 bits; OV, TR1 and the trap in user mode where these differ; nothing else changes |
| Instructions.DsubIs | src/i-dword.cpp:47-64 | opcode 0115 leaves the difference modulo 2^71; CY0 is raised exactly if the whole operand is not below the other, CY1 if its low 70 bits are not; traps and the rest as for DADD |
| Instructions.DmulIs | src/i-dword.cpp:76-120 | opcode 0116 leaves four words of one sign whose signed 140-bit value is the product of the signed operands if and only if these are among the ones listed; flags and outcome for two most negative operands |
| DWordGroup.DoDMUL | src/i-dword.cpp:76-120 | the four words stored, the flags and the outcome in all three cases, the last through the full product |
| DWordGroup.DmulExactIff | src/i-dword.cpp:76-120 | the 140-bit result is the signed product if and only if an operand is zero or the product itself is exact; never for two most negative operands |
| DWordGroup.ToMagIsLow | src/word.cpp:81-83 | the divisor DDIV compares and divides by is the 70-bit magnitude modulo 2^64 |
| DWordGroup.DoDDIV | src/i-dword.cpp:123-167 | guard, dividend words, division steps and stores come to a trap, or to zero magnitudes under the two signs |
| DWordGroup.DdivIs | src/i-dword.cpp:123-167 | on a trap just TR1, OV and NDV go up; otherwise four zero magnitudes are stored, two with the quotient's sign and two with the dividend's |
| DWordGroup.DdivDividesIff | src/i-dword.cpp:123-167 | DDIV traps on a quotient of more than 70 bits and otherwise stores quotient and remainder, if and only if the quotient is that large or the dividend is zero under a non-zero divisor modulo 2^64 |
| DWordGroup.DdivCounterexample | src/i-dword.cpp:123-167 | 1 divided by 2 does not trap and leaves a zero remainder |
| EffectiveAddress.EARecursion | src/km10.cpp:300-327 | the effective address satisfies the recursive definition of indexing and indirection, free of any bound |
| EffectiveAddress.EAByFields | src/km10.cpp:300-327 | in numbers: Y plus the whole index register, register 0 excepted, is the address of a direct reference, and its 18 low bits name the word an indirect one goes on with |
| EffectiveAddress.InstructionLayout | src/word.hpp:55-115 | a word put together from opcode, accumulator, I, X and Y is taken apart into the same fields |
| EffectiveAddress.NotEndedIff | src/km10.cpp:300-327 | the calculation has not ended after n fetches if and only if the indirect bit is set in every word up to the n-th |
| EffectiveAddress.LongChainsNeverEnd | src/km10.cpp:300-327 | a chain still going after 2^18 fetches never ends |
| EffectiveAddress.Pigeonhole | src/km10.cpp:300-327 | more than 2^18 addresses must repeat: two equal positions of a sequence are found |
| EffectiveAddress.EAIsTheAddress | src/km10.cpp:300-327 | whatever bound is put on the fetches, an address that is reached is the effective address |
| Machine.KM10.GetEA | src/km10.cpp:300-327 | the loop ends and returns the effective address whenever there is one |
| Machine.KM10.MemGetN | src/km10.cpp:266-271 | reads the location named by the right half, accumulators below 020 |
| Machine.KM10.MemPutN | src/km10.cpp:274-283 | changes that one location of the address space and nothing else, memory behind the accumulators included |
| Machine.UnpackPack | src/km10.hpp:160-198 | packing the thirteen flags into their field and unpacking them is the identity |
| Machine.SavedFlagsRestoredIff | src/km10.cpp:420-441 | flags saved in a word and restored from it come back if and only if the present mode may set them |
| Instructions.FlagsWordIs | src/km10.hpp:160-198 | each of the thirteen flags stands at its own bit of a saved word, from NDV at bit 23 to OV at bit 35, above the 23 bits of the address |
| Instructions.RestoredIs | src/km10.cpp:428-441 | restoring takes each flag from that bit, but keeps USR and PUB and does not take UIO in user mode |
| JumpGroup.Push | src/i-jump.cpp:103-119 | the new state of every register and location, TR2 in place of the store when the count runs out, and the exchanged store of the extended form |
| JumpGroup.Pop | src/i-jump.cpp:122-137 | the word read before the pointer moves, the pointer, and TR2 on underflow |
| JumpGroup.DoADJSP | src/i-jump.cpp:241-270 | pointer, TR2 and trap outcome for every form of pointer and every signed count |
| Instructions.PushIs | src/i-jump.cpp:103-156 | opcode 0261 stores the word at the effective address where the new pointer points, or raises TR2 when the left half was all ones; in numbers, for every pointer, the extended form included |
| Instructions.PopIs | src/i-jump.cpp:122-161 | opcode 0262 stores the word the pointer named at the effective address, after the pointer; TR2 exactly when the left half was zero |
| Instructions.PushThenPop | src/i-jump.cpp:103-161 | a PUSH followed by a POP moves the word and leaves pointer and flags as they were |
| Instructions.AdjspIs | src/i-jump.cpp:241-270 | opcode 0105 in numbers for every form of pointer: halves or word counted by the signed count, TR2 and trap exactly when the left half changes sign in that direction |
| StackLaws.AdjspIsPushes | src/i-jump.cpp:241-263 | in section 0, ADJSP by n leaves the pointer and flags of n pushes of any words, and traps if and only if one of them would have raised TR2 |
| StackLaws.AdjspIsPops | src/i-jump.cpp:241-263 | ADJSP by a negative count leaves the state of that many pops, trap included |
| StackLaws.PushAllPointer | src/i-jump.cpp:103-119 | where any number of pushes up to 2^17 leaves the pointer, and that TR2 is up if and only if one of them crossed |
| StackLaws.PopAllPointer | src/i-jump.cpp:122-137 | the same for pops, which change no other location |
| StackLaws.RunsAreStacks | src/i-jump.cpp:103-161 | every run of pushes, pops and other stores that has room, does not underflow and stores nothing into the stack or its pointer returns what a mathematical stack returns, keeps its contents in memory and raises no flag |
| StackLaws.BalancedRunRestoresPointer | src/i-jump.cpp:103-137 | a run back to its starting depth restores the pointer exactly and returns each pushed word in turn |
| StackLaws.PushRunPop | src/i-jump.cpp:103-161 | a word pushed, any run balanced above it, with any stores outside the stack, and a pop: the word comes back and the pointer is where it was, whatever happened to the other registers |
| StackLaws.PushStoresIff | src/i-jump.cpp:107-118 | for every extended push, the state is the one a store at the new top would leave if and only if the word and the locations it and the top name agree in the way listed, the pointer's own location included |
| StackLaws.PushCounterexample | src/i-jump.cpp:107-118 | in section 1, 5 pushed on a stack at 010000 overwrites location 5 and is not stored |
| JumpGroup.DoJSR | src/i-jump.cpp:168-176 | the word saved, with the program counter itself in a vector and its successor elsewhere, the jump address and the flags |
| JumpGroup.DoJSP | src/i-jump.cpp:178-185 | the same into an accumulator |
| JumpGroup.DoPUSHJ | src/i-jump.cpp:140-150 | the same onto the stack, the flags being cleared before they are saved |
| JumpGroup.DoPOPJ | src/i-jump.cpp:163-166 | leaves the state that `PopjStep` and `CallReturns` are about: one word popped, its right half the jump address, the rest as it was |
| JumpGroup.DoJRST | src/i-jump.cpp:27-78 | flags, halt and end of interrupt for each of the sixteen variants |
| Instructions.JrstIs | src/i-jump.cpp:27-78 | opcode 0254 for every accumulator field: which restore the flags, which one halts, which end the vector state, and that nothing else changes |
| Instructions.ExtendedCalls | src/i-jump.cpp:168-185 | JSR and JSP to another section save the 23-bit address alone, the next one or in a vector the interrupted one |
| Instructions.ExtendedPushj | src/i-jump.cpp:140-150 | the same for PUSHJ from another section, on a stack with room |
| IntBinGroup.DoBLT | src/i-intbin.cpp:720-746 | for every last address but 0777777 the loop ends, after exactly the number of words given by destination and last address |
| IntBinGroup.BltEndsIff | src/i-intbin.cpp:720-746 | the loop test ever fails if and only if the last address is not 0777777 |
| IntBinGroup.BltAddresses | src/i-intbin.cpp:720-746 | after k words the accumulator holds both addresses advanced by k, whatever was stored on the way |
| IntBinGroup.BltReplicates | src/i-intbin.cpp:720-746 | after any k words clear of the accumulator, a destination ahead of its source repeats the source with the distance as period, any other is a copy, and nothing else changed |
| IntBinGroup.BltTransfers | src/i-intbin.cpp:720-746 | that for the whole instruction, with the accumulator it leaves |
| IntBinGroup.BltRestart | src/i-intbin.cpp:720-746 | stopped after any number of words and executed again, BLT reaches the same final state, overlapping or not |
| Instructions.BltIs | src/i-intbin.cpp:720-746 | opcode 0251 in numbers: each word of the destination, the accumulator and everything else, clear of the accumulator |
| Instructions.BltOneWord | src/i-intbin.cpp:720-746 | a transfer of one word wherever source and destination are, the accumulator included: the pointers are stored last |
| IntBinGroup.DoJFFO | src/i-intbin.cpp:662-678 | the loop ends for every word, with the shift count stored and the outcome it decides |
| IntBinGroup.JffoJumpsIff | src/i-intbin.cpp:662-678 | the number stored is the position of the first one bit; JFFO jumps if and only if there is one and it is not bit 0 |
| Instructions.JffoIs | src/i-intbin.cpp:662-678 | that for opcode 0243, nothing else changing |
| Emulator.Iterate | src/km10.cpp:668-827 | one iteration on the machine does what trap, vector, effective address, instruction and outcome prescribe |
| Emulator.Fetch | src/km10.cpp:678-745 | a trap goes before an interrupt, neither moves the program counter, and the effective address is that of the word fetched |
| Emulator.Dispatch | src/km10.cpp:748 | every opcode comes to its own handler, and the rest to the parameter |
| Emulator.Conclude | src/km10.cpp:753-821 | the program counter, next fetch, vector state and running state after each of the ten outcomes |
| Emulator.Emulate | src/km10.cpp:658-831 | the loop, starting with the word at the program counter, refines the run of the specification over any sequence of external events |
| ControlFlow.FinishContinues | src/km10.cpp:753-821 | after every outcome but a UUO, an XCT or a normal instruction in a vector, the word at the program counter is the next instruction; and the program counter has moved by the offset, from the effective address of a jump |
| ControlFlow.FinishInVector | src/km10.cpp:754-806 | after a normal instruction in a vector the next word of the vector is next, after an XCT the word at its effective address; the program counter stays |
| ControlFlow.FinishKeeps | src/km10.cpp:753-821 | no outcome changes flags or locations; just skips and jumps end a vector, and just a halt stops the machine |
| ControlFlow.ExecuteIgnoresFetch | src/km10.hpp:14-30 | no spelled-out instruction depends on where it was fetched, and none changes the fetch address |
| ControlFlow.ExecuteKeepsPC | src/km10.hpp:14-30 | none of them moves the program counter or the vector state unless it jumps or halts |
| ControlFlow.ChainRun | src/i-jump.cpp:201-208 | following an XCT chain of any length changes only the instruction, address and fetch registers |
| ControlFlow.XctChainIff | src/km10.cpp:745-821 | an XCT chain of any length ends in the program counter, accumulators, memory and flags of its last word executed at the start; the next fetch agrees if and only if it is not a normal instruction in a vector |
| ControlFlow.XctCounterexample | src/km10.cpp:745-821 | an XCT in the vector at 34 of a ROT at 200 is followed by the word at 201, the ROT itself in that vector by the word at 35 |
| ControlFlow.UnimplementedIsWellBehaved | src/km10.cpp:813-816 | a handler that only reports a missing instruction meets what is asked of the handlers not spelled out |
| ControlFlow.VectorKeepsPC | src/km10.cpp:754-766 | any run of normal instructions and XCTs in a vector, interrupted in turn or not, leaves the program counter at the interrupted instruction |
| ControlFlow.SkipLeavesVector | src/km10.cpp:768-780 | a skip in a vector resumes after the interrupted instruction, never at it |
| ControlFlow.SkipCounterexample | src/km10.cpp:768-780 | a skip in the vector at 34 while the instruction at 80 is interrupted goes on at 81 |
| ControlFlow.JsrStep | src/i-jump.cpp:168-176 | from a vector JSR saves the interrupted address, elsewhere the next one; it ends the vector and leaves user and public mode |
| ControlFlow.JspStep | src/i-jump.cpp:178-185 | the same for JSP |
| ControlFlow.PushjStep | src/i-jump.cpp:140-150 | the same for PUSHJ on a stack with room |
| ControlFlow.PopjStep | src/i-jump.cpp:163-166 | an iteration that executes POPJ ends at the address in the word popped, out of any vector |
| ControlFlow.CallReturns | src/i-jump.cpp:140-166 | a PUSHJ in section 0 leaves the return address on a stack of one word; whatever is executed then, after a POPJ that finds that stack the instruction after the PUSHJ, or the interrupted one if it stood in a vector, is the next one fetched, with the stack pointer restored |
| ControlFlow.CallReturnsAfterRun | src/i-jump.cpp:140-166 | it finds it after any run of pushes and pops balanced above the return address, with any stores outside the stack |
| ControlFlow.ReturnStep | src/i-jump.cpp:27-78 | JRSTF and JEN come back to the address and restore the flags in their 36-bit effective address |
| ControlFlow.ReturnIndirectIff | src/i-jump.cpp:27-78 | through an indirect word the address comes back, and the saved flags if and only if they were just the mode flags still in force |
| ControlFlow.ReturnIndexedIff | src/i-jump.cpp:27-78 | through an index register both come back, the flags if and only if the present mode may set them |
| ControlFlow.ReturnCounterexample | src/i-jump.cpp:27-78 | JRSTF through an indirect word with overflow saved in it comes back without overflow |
| ControlFlow.InterruptRoundTrip | src/km10.cpp:668-827 | from the interrupted instruction through any vector code, a JSR and a later return, execution resumes at the interrupted instruction; and when its flags do |
| Traps.TrapSavesNext | src/km10.cpp:678-821 | an instruction that leaves a trap flag up, with any outcome but a UUO, followed by the JSR of the trap vector: what is saved is the address of the instruction to follow, the target of a jump included, and both trap flags are down |
| Traps.FollowingIsNext | src/km10.cpp:753-821 | outside a trap, the same address is where the next instruction is fetched, unless a vector or an XCT chain goes on |
| Instructions.TrapAddresses | src/km10.cpp:678-683 | a pending trap is taken at 0421 for TR1 and at 0422 for TR2 alone, as vector code |
| Traps.TrapSavesItselfIff | src/km10.hpp:28-30 | outside a vector, the address saved is that of the instruction itself if and only if it halted, was an XCT or jumped to itself |
| Traps.TrapCounterexample | src/km10.cpp:678-821 | a PUSH at 80 that fills its stack: the JSR at 0422 saves 81 |
| Traps.TakesTrapIff | src/km10.cpp:678-683 | after any instruction with any outcome, the next iteration fetches the trap vector for a trap if and only if the pager is on and the instruction left a trap flag up |
| Traps.LowersIff | src/i-jump.cpp:27-185 | of the spelled-out instructions, exactly the listed calls and returns take both trap flags down |
| Traps.TrapAgainIff | src/km10.cpp:678-683 | in a trap cycle, the flags stay up if and only if the instruction in the vector is not one of those |
| Traps.TrapLoopIff | src/km10.cpp:668-827 | with the pager on, every state of a run that starts with a trap pending has one pending if and only if no instruction it executes takes the flags down |
| Traps.IdleTrapNeverEnds | src/km10.cpp:678-766 | an instruction in the trap vector that changes nothing, whatever the handlers of the moment, is executed for ever, with the program counter, locations and flags of the trap |
| Traps.XctInTrapVectorNeverEnds | src/km10.cpp:678-806 | so an XCT there never reaches the instruction it names |
| Traps.RotInTrapVectorNeverEnds | src/km10.cpp:678-766 | and a ROT by zero never reaches the next word |
| BytePointer.BytePointerL1.Inc | src/bytepointer.cpp:54-63 | the next byte down in the word, or the left-aligned one of the next word with the address wrapping at 18 bits |
| BytePointer.BytePointerL1.GetPSA | src/bytepointer.cpp:47-51 | position, size and the effective address of the pointer's own index and indirect fields, cut to the 32 bits of an `unsigned` |
| BytePointer.BytePointerL1.GetByte | src/bytepointer.cpp:24-27 | the field of the word addressed, cut to 32 bits |
| BytePointer.ByteIs | src/bytepointer.cpp:24-27 | in numbers, the word at the effective address divided by 2^P, modulo 2^S and modulo 2^32 |
| BytePointer.OversizeStep | src/bytepointer.cpp:54-63 | a size above 36 wraps the six-bit position around in the next word |
| BytePointer.SteppedTo | src/bytepointer.cpp:54-63 | from the left of a word, n steps lead to byte (n - 1) mod (36 / S) of the word (n - 1) / (36 / S) further on, for every size from 1 to 36 |
| BytePointer.BytesAreTheWord | src/bytepointer.cpp:24-27 | the first k bytes of a word, put together, are its first k times S bits |
| BytePointer.WordIsCovered | src/bytepointer.cpp:24-27 | all its bytes put together are the word without its last 36 mod S bits |
| BytePointer.ByteReadIff | src/bytepointer.cpp:24-63 | the n-th byte read through a stepping pointer is the n-th byte of memory if and only if it fits in 32 bits |
| Interrupts.PIDevice.constructor | src/pi.cpp:43-47 | registering the device resets it and touches no other |
| Interrupts.PIDevice.HighestPending | src/pi.cpp:72-93 | the polling loop finds the least level any enabled pending device asks for, and its mask |
| Interrupts.RequestedIsLeast | src/pi.cpp:72-93 | that level is below every enabled request and is one of them, or there is none |
| Interrupts.PIDevice.SetUpInterruptCycleIfPending | src/pi.cpp:69-131 | vector and PI state after a poll, over all device lists |
| Interrupts.PIDevice.DismissInterrupt | src/pi.cpp:135-142 | nothing is held or current afterwards, and the processor is out of its vector |
| Interrupts.PIDevice.ClearIO | src/pi.cpp:146-158 | keeps which levels are on and whether the system is; clears the rest and the device's own request, through its inner CONO |
| Interrupts.PIDevice.PutConditions | src/pi.cpp:168-214 | the whole new state for every function word that names a level with its request |
| ConditionLaws.ConoLevels | src/pi.cpp:180-212 | from the bits of the function word, for each level: on afterwards exactly if named with bit 10, or on before and not named with bit 9; requested exactly if named with bit 11, or before and not named with bit 13; the system on exactly if bit 8 is down and bit 7 up or it was on; the parity bits; and what does not change |
| ConditionLaws.ConoRequest | src/pi.cpp:192-204 | the level the PI device takes for a programmed request, from the bits naming levels and the requests there were |
| ConditionLaws.ConoAcceptsIff | src/pi.cpp:69-214 | after a CONO, the next poll accepts the level of a given pending device if and only if these bits leave that level and the system on and nothing more urgent is pending or as urgent running |
| ConditionLaws.ConoEndsIff | src/pi.cpp:192-198 | CONO PI ends if and only if it clears, requests nothing or names a level |
| ConditionLaws.ConoClears | src/pi.cpp:174-178 | the clear bit takes everything down, and nothing is accepted |
| ConditionLaws.ClearKeeps | src/pi.cpp:146-158 | after the partial reset an interrupt is accepted if and only if the system was on and another device has an enabled request |
| ConditionLaws.RequestsIff | src/pi.cpp:84-92 | a device is heard if and only if it has an interrupt pending at a level from 1 to 7 that is on |
| Interrupts.PIDevice.InitiatePR | src/pi.cpp:194-204 | the level taken up is the most urgent one named, just when none of them was requested before and it is more urgent than what is running |
| Interrupts.Search | src/pi.cpp:196-198 | the search ends with the most significant level of every non-empty set |
| InterruptLaws.SearchEndsIff | src/pi.cpp:196-198 | the search meets a level if and only if one is named |
| InterruptLaws.AcceptsIff | src/pi.cpp:69-131 | an interrupt is accepted if and only if the system is on and some enabled pending device is more urgent than what is running |
| InterruptLaws.AcceptedIsMostUrgent | src/pi.cpp:72-119 | the level accepted is the minimum over all enabled requests, strictly below the current one, with vector 040 + 2n |
| InterruptLaws.NothingUrgentAfterPoll | src/pi.cpp:69-131 | after any poll with the system on, no enabled request is below the current level and a second poll accepts nothing |
| InterruptLaws.AcceptedAgainAfterDismissal | src/pi.cpp:95-142 | acceptance does not withdraw the request: dismissed, it is accepted again with the same vector |
| InterruptLaws.DismissalOpensAllIff | src/pi.cpp:135-142 | after a dismissal an interrupt is accepted if and only if the system is on and any enabled request is pending, however urgent the services that were nested |
| InterruptLaws.ResumedSafeIff | src/pi.cpp:14-16 | in every nest of two or more, after a dismissal the service resumed is interrupted by nothing that is not more urgent if and only if, with the system on, no enabled request is pending or one of them is more urgent |
| InterruptLaws.ResumedCounterexample | src/pi.cpp:69-142 | a run in which a service at level 5, resumed after one at level 3, is interrupted at level 6 |
| InterruptLaws.StepNests | src/pi.cpp:69-214 | poll, dismissal, reset, CONO PI and any change in the devices keep the levels held a strictly descending nest whose last level is current |
| InterruptLaws.ReachedNests | src/pi.cpp:69-214 | that holds in every run |
| InterruptLaws.HeldLevels | src/pi.hpp:100-131 | in every run the current level is the most urgent one held, none if and only if nothing is held; and as many levels are held as interrupts were accepted since the last dismissal or reset, at most seven |
| Service.AcceptStep | src/km10.cpp:678-748 | the step that polls and accepts executes the JSR at 040 + 2n: the interrupted address is saved, the level is held and current, and a second poll accepts nothing |
| Service.DismissIff | src/i-jump.cpp:48-66 | XJEN and JEN, and no other instruction spelled out, leave nothing held and no level current |
| Service.PlainRunIsUndisturbed | src/km10.cpp:668-827 | code of any length and any opcodes during which nothing is accepted and no instruction changes the PI system runs as the processor alone would, and only the requests change |
| Service.LeaveStep | src/i-jump.cpp:63-66 | JEN through the saved word comes back and dismisses, both in one step |
| Service.ServiceReturns | src/km10.cpp:668-827 | from acceptance through JSR, whatever code, nested services included, and JEN: the interrupted instruction is the next one fetched and nothing is held |
| Service.ServiceEnds | src/km10.cpp:668-827 | with code that leaves the PI system alone, that system is as before if and only if nothing was being served and no request has changed; and a request not withdrawn is accepted again |
| Service.NestedServicesReturn | src/km10.cpp:668-827 | a service interrupted by another: the second is more urgent and both levels are held meanwhile; it returns to the interrupted instruction of the first with nothing held, and the first to that of the program, with the PI system as before but for levels held and requests |
| TSQueue.StepExclusive | src/tsqueue.hpp:23-42 | every step keeps at most one thread between taking and releasing the mutex, and an item found there until it is taken |
| TSQueue.StepCovered | src/tsqueue.hpp:23-42 | every step keeps a notified consumer or the mutex holder for each queued item while any consumer is blocked |
| TSQueue.RunKeepsInv | src/tsqueue.hpp:23-42 | the invariant holds over every interleaving of any number of threads, spurious wakeups included |
| TSQueue.FirstInFirstOut | src/tsqueue.hpp:23-42 | what was returned, what is in hand and what is queued are what was pushed, once each and in order |
| TSQueue.ItemsInLockOrder | src/tsqueue.hpp:23-42 | in every run, told from the calls: what was returned, is in hand, queued or about to be pushed are the items of the calls of `enqueue`, in the order in which their threads took the mutex |
| TSQueue.CallsAreAccounted | src/tsqueue.hpp:23-42 | no call is lost: the items of all calls of `enqueue` are those and the ones of threads still outside the mutex, and each call of `dequeue` has returned one item or is under way |
| TSQueue.EnqueueAlone | src/tsqueue.hpp:23-27 | a call that meets nobody runs to its end and leaves its item last in the queue |
| TSQueue.DequeueAlone | src/tsqueue.hpp:31-42 | a call that finds an item and the mutex free returns the first one |
| TSQueue.NoLostWakeup | src/tsqueue.hpp:31-42 | while a consumer is blocked and the mutex free, queued items never outnumber the consumers notified but not yet resumed; those woken spuriously do not count |
| TSQueue.InternalRunsEnd | src/tsqueue.hpp:23-42 | n threads left to themselves take at most 8n steps, under every schedule |
| TSQueue.StuckIff | src/tsqueue.hpp:23-42 | no thread has a step left if and only if all are outside or blocked in `wait`; and then, if any is blocked, the queue is empty |
| TSQueue.ItemsAreServed | src/tsqueue.hpp:23-42 | from every state in which a consumer is in `dequeue` and there are items, every schedule followed until no thread has a step left returns another item, and leaves no consumer waiting beside a queued item |
| TSQueue.SomeRunEnds | src/tsqueue.hpp:23-42 | there is such a schedule from every state |
| History.RingBuffer.Add | src/debugger.cpp:974-978 | the log the buffer remembers grows by the element |
| History.RingBuffer.Peek | src/debugger.cpp:981-985 | the last element ever added, or none |
| History.RingBuffer.MostRecent | src/debugger.cpp:988-999 | what is returned, as a part of the whole log of additions, for every n |
| History.SlotOfResult | src/debugger.cpp:988-999 | each slot read holds the addition it stands for, around the end of the buffer too |
| History.MostRecentInOrderIff | src/debugger.cpp:988-999 | the last min(n, additions, 1024) elements come in order if and only if n is at most 1024, or the buffer is not full or has just come round, or what it holds is not changed by starting from its first slot |
| History.DistinctNeverSame | src/debugger.cpp:988-999 | elements that are all different are never unchanged by starting elsewhere, so that the condition then comes down to n and the number of additions |
| History.MostRecentCounterexample | src/debugger.cpp:988-999 | of 1025 different elements, the newest comes first |

## Left out

- Emulator.Emulate: runs one iteration per given event instead of for ever, the event saying what the devices and the handlers not spelled out do; its specification has no result for a state in which an address chain, BLT or an accumulator number past 017 stops the program.
- JumpGroup.DoJRST: changes the processor only; what XJEN and JEN do to the levels held is `Service.ActOnPI`, and is proved in `Service`.
- DWordGroup.DoDDIV: takes the sign of the dividend as a parameter, because the source reads it from a field that is never set; for the same reason the instruction loop leaves DDIV to the functions of its events.
- Interrupts.PIDevice.constructor: is given the complete list of devices; how each adds itself to the source's map is not modelled.
- Interrupts.PIDevice.SetUpInterruptCycleIfPending: does not store the function word in ACBlocks[7][3], which nothing modelled here reads, and takes that word to be zero, as every device of the repository answers (src/device.cpp:20-22).
- TSQueue: modelled as a state machine on values, one step per access under the mutex, because its subject is the interleaving of threads; `isEmpty` reads without the lock and is left out.
- Opcodes other than ADJSP, DADD, DSUB, DMUL, ROT, ROTC, JFFO, BLT, JRST, XCT, PUSH, POP, PUSHJ, POPJ, JSR and JSP: functions that each event of the instruction loop brings. JSYS as it stands reports a UUO without setting the fetch address, and so is not `WellBehaved`.
- MUL, IMUL, DIV, ASH, ASHC, LSH, LSHC and the flags of ADD and SUB: unfinished, or easier than the double-word forms here.
- Breakpoints, step counts, instruction counters, the cache sweep timer, logging and the debugger's control of the loop: they do not change what instructions compute.
- Accumulator blocks other than the current one: no instruction modelled here reaches them.
- Other devices' `clearIO` and `putConditions`: any change in their level and request is a step of the interrupt runs and of `Service`.
- Paging, extended addressing beyond the pointer forms, floating point, MAP and PXCT: the repository does not implement them.
- Global byte pointers, `putByte` and `adjust`: inconsistent with their own comments. Storing a stepped pointer back in memory: the byte instructions do not do it.
- Console, DTE20, tape files and other input and output.
