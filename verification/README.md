# RFL: a verified model of the assembler and the virtual machine

RFL is a small assembly language. A Python compiler (`compiler.py`) splices includes, lays out constants and
locals, resolves labels and encodes bytes; a C virtual machine (`src/`) runs the bytes as cooperative tasks that
exchange messages. This project models the whole chain and proves that its parts agree: that compiled bytes do
what the labelled program says, that return addresses kept among ordinary bytes survive, that a task cannot tell
it is scheduled together with others, that every scheduling pass visits the tree as it grows, that no reachable
state has a task inside an instruction, and that one recursive program works on the resulting machine exactly as
long as its frames fit.

`dafny verify dfyconfig.toml` checks everything.

## How it is organised

There are two layers. The specification is pure: byte stacks, threads, instructions, worlds of tasks. The code that
updates things in place is imperative Dafny, each method proved to do what the pure function says, and the
theorems are lemmas about those functions. They carry over to the methods through their `ensures`.

| part | modules |
|---|---|
| bytes, words, bit operations, outcomes; what arithmetic means | `Bytes`, `Arithmetic` |
| byte stack (`src/stack.c`), and its meaning as a stack of typed values | `ByteStack`, `Values` |
| instruction set, machine steps, what each instruction does on typed values, the processor object with its handlers | `Isa`, `Machine`, `Meaning`, `Processor` |
| call frames, locals during an activation, message handlers and messages that interrupt them | `Frames`, `Activation`, `Handlers`, `Interrupts` |
| compiler passes, listing, whole pipeline | `Includes`, `Constants`, `Locals`, `Assembler`, `Listing`, `Compiler` |
| what the layout passes make of each name | `ConstantNames`, `LocalNames` |
| labelled programs and the compilation theorem | `Labelled`, `Boundaries` |
| messages and their wire format, inboxes as linked queues | `Wire`, `Inbox` |
| scheduler on values, growing traversal, fairness, removal, reachable states | `Scheduler`, `Traversal`, `Fairness`, `Removal`, `Reachable` |
| messages between tasks, and creation of tasks, from the program's bytes to the inboxes and the tree | `Mail` |
| task tree nodes and the whole VM as objects | `TaskTree`, `Cpu` |
| programs/recursion.rfl, also from power-on in the main loop | `Recursion`, `RecursionProgram`, `PowerOn` |

Conventions:

- `Outcome` is `Done`, `Exited(code)` for `exit(code)`, or `Undefined` for what C leaves undefined or what lies outside
  the program image: division by zero, shifts by 32 or more or out of the 32-bit `int`, a `uint16_t` product of 2^31 or more, accesses outside a
  stack array, a local larger than a pointer, fetches past the program.
- `Input` is what one instruction reads from outside (port, clock, memory counter, the bits of a float result, room for a
  task); `Event` is what it does outside (print, port write, spawn, send, end of the task). A step is a function of the
  thread and its input, so theorems over all inputs are theorems over all environments.
- The labelled program has a line number as its program counter. Return addresses on its call stack are opaque tokens, one
  for each line; the byte machine is the instance in which a token is an address.
- Sizes are parameters (`Config`, `Platform`, stack sizes); the constants of the headers are `QUEUE_SIZE` 4,
  `CONTEXT_MAX_CYCLES` 255, `MAX_TASKS` 4 (`src/messaging.h:27`, `src/cpu.h:17`, `src/task.h:9`).
- In `Cpu` the ghost field `world` is the pure state; `Valid()` says that the objects hold exactly it.

What turned out not to hold as one might expect, with the exact condition:

- Frame integrity holds exactly for instructions that keep `sp` and their writes at or above `bp` in 16-bit arithmetic:
  `Frames.Safe`, readable before each instruction. `Frames.SafeIsExact`: an instruction on locals that succeeds keeps `bp`, all bytes below
  it and `sp` above it, for every stored value, if and only if it is safe. `Frames.WrappedStoreRedirectsReturn` is an example: a
  POP_LOCAL at offset 65532 redirects the return.
- "Same inputs, same run" holds for a task among others only if the room left for new tasks counts as an input:
  `Scheduler.LimitIsVisible` shows that ASYNC_CALL, and no other instruction, tells the difference.
- Files are not expanded "at most once" if the root is among them, as it is not marked as included: its own lines occur a second time
  if and only if include lines lead from it back to it, all other files' lines once (`Includes.RootExpandsAgain`).
- Serialising a deserialised buffer reproduces it exactly when the buffer held the whole payload
  (`Wire.DeserializeSerialize`).
- programs/recursion.rfl prints its number exactly when `n >= 1` and `4 + 8 * n` bytes of call stack are there, otherwise the VM exits
  with a failure before printing (`RecursionProgram.CompiledProgramRuns`). For `n = 0` it would need 524292 bytes, which no 16-bit stack
  has (`RecursionProgram.DeepestRecursion`).
- A `$name` that compiles need not name a local of its own function: function and variable are joined by an underscore, so `$b_c` in
  function `a` finds variable `c` of function `a_b` (`LocalNames.OtherFunctionsVariable`). `LocalNames.NamesAreOffsets` states exactly
  when a program passes; function names without underscores exclude the case (`LocalNames.NamesTheirOwn`).
- PUSH_U16 of a U16 constant yields its low byte (`Constants.PushU16IsLowByte`).

## Model

| member | source | states |
|---|---|---|
| Bytes.LowHighInjective | compiler.py:28-36 | the little-endian encoding of a word determines the word |
| Bytes.BitwiseBits | src/instructions.c:375-411 | bit `i` of AND, OR, XOR is the operation on bit `i` of the operands |
| ByteStack.PushLive | src/stack.c:105-132 | a push appends the value byte-reversed to the live bytes and changes nothing above them, or exits exactly when it does not fit |
| ByteStack.PopLive | src/stack.c:134-159 | a pop takes the last live bytes in host order, or exits exactly on underflow |
| ByteStack.PushPop | src/stack.c:105-159 | popping what was pushed returns it and restores the stack below `sp` |
| ByteStack.WriteRead | src/stack.c:115-179 | a value written at an address is read back there, whatever the address |
| ByteStack.WriteShape | src/stack.c:115-132 | a write inside the array replaces exactly its bytes and raises `sp` only if it ends above it |
| ByteStack.PushWordLive | src/stack.c:91-95 | a word goes on high byte first, exactly when two bytes are left |
| ByteStack.PopWordLive | src/stack.c:97-103 | the word on top comes back off |
| ByteStack.Stack.constructor | src/stack.c:11-35 | a new stack is all zero with `sp` and `bp` 0 |
| ByteStack.Stack.CopyReversed | src/stack.c:125-128 | the copying loop writes the value reversed and nothing else |
| ByteStack.Stack.WriteDataAt | src/stack.c:115-132 | the method is the write of the model, the 16-bit bound check and both failures included |
| ByteStack.Stack.PushData | src/stack.c:105-113 | push is a write at `sp` |
| ByteStack.Stack.PopData | src/stack.c:139-159 | the loop returns the popped bytes in host order |
| ByteStack.Stack.ReadDataAt | src/stack.c:166-179 | the loop reads in host order; the only check compares the size with `sp` |
| ByteStack.Stack.PushByte | src/stack.c:54-62 | one byte more, or exit exactly when full |
| ByteStack.Stack.PopByte | src/stack.c:43-52 | one byte less, or exit exactly when empty |
| ByteStack.Stack.Push16 | src/stack.c:91-95 | the byte-wise push of a word has the same layout as the data push |
| ByteStack.Stack.Pop16 | src/stack.c:83-103 | the byte-wise pop of a word agrees with the data pop |
| Isa.DecodeCode | src/cpu.c:93-273 | the VM dispatches the opcode of the compiler's table to that instruction, so no two share an opcode |
| Isa.OpcodesAgree | src/instructions.h:6-59 | the opcodes of the compiler and of the VM's dispatch are the places of the VM's enumeration |
| Isa.OpcodesEnd | src/instructions.h:6-59 | the bytes above 50 are no opcodes, all others are |
| Machine.StepFetches | src/cpu.c:80-91 | an instruction lying at `ip` is the one executed, with `ip` past it |
| Machine.StepAdvances | compiler.py:67-118 | every handler but the jumps, calls and returns consumes exactly the bytes that the compiler emits for its instruction |
| Arithmetic.U16Meaning | src/instructions.c:99-137 | sums and differences wrap once, products agree mod 2^16, quotients round down; undefined exactly for a product of 2^31 or more and for division by zero |
| Arithmetic.I16Meaning | src/instructions.c:189-227 | the exact result whenever it is an `int16_t`, else congruent mod 2^16; quotients round toward zero, -32768 / -1 giving -32768 |
| Arithmetic.LogicMeaning | src/instructions.c:375-411 | AND, OR, XOR and NOT are always defined and act bit by bit |
| Arithmetic.BitMeaning | src/instructions.c:413-431 | bit `j` of both shifts in terms of the operands' bits; a right shift is defined exactly below 32, a left shift exactly when the result also fits the 32-bit `int` |
| Values.StackRefines | src/instructions.c:99-241 | on a stack that holds typed values, literals, pops, arithmetic mod 2^16, compares and bit operations do the abstract operation, or exit exactly when the result does not fit; what the operations are is said by `Arithmetic` and by the rows of `Meaning` |
| Values.BranchRefines | src/instructions.c:308-318 | POP_JUMP_IF_FALSE takes a flag and jumps exactly when it is 0 |
| Meaning.CompareInstrs | src/instructions.c:320-373 | for numbers `a`, `b` below and on top, each of the five compares pushes 1 if and only if the signed `a` is ==, <, >, <=, >= the signed `b` |
| Meaning.UnsignedInstrs | src/instructions.c:99-137 | the number below is the minuend and the dividend |
| Meaning.SignedInstrs | src/instructions.c:189-227 | likewise on signed numbers |
| Meaning.ShiftInstr | src/instructions.c:413-431 | the number below is shifted by the number on top, bit by bit |
| Meaning.AsyncCallInstr | src/cpu.c:24-37 | with room the handler is taken and the operand spawned with it, nothing else changes; without room nothing changes |
| Meaning.SendInstr | src/builtin.c:77-93 | destination, address and size lie below each other on the stack and are taken; the payload is byte by byte that part of the data |
| Meaning.OtherSysCalls | src/builtin.c:107-134 | SYSCALL 4 pushes the memory in use, numbers without a meaning change nothing |
| Meaning.PrintInstr | src/builtin.c:6-55 | for every format text: one value is taken for each conversion, the first from the top, and they are shown in the order of the format |
| Meaning.TopInstr | src/instructions.c:93-97 | the value on top is shown and stays |
| Meaning.PushAddressInstr | src/instructions.c:27-42 | below the port count the value read from the port, above it one byte of the data |
| Meaning.PopAddressInstr | src/instructions.c:44-59 | the low byte of the number goes to the port; at another address the VM exits |
| Meaning.ReadInstr | src/instructions.c:151-158 | the word at the address is pushed |
| Meaning.WriteInstr | src/instructions.c:160-167 | the number is taken, put at the address, and no other byte changes |
| Meaning.PopLocalInstr | src/instructions.c:501-510 | offset, size and value are taken, the value put at `bp` + offset, no other byte changes |
| Meaning.PushLocalInstr | src/instructions.c:490-499 | offset and size are taken, the value at `bp` + offset is pushed |
| Meaning.MoveInstrs | src/instructions.c:169-181 | `sp` moves by two up or down and nothing else changes; ALLOC_LOCAL moves it by the number that it takes |
| Meaning.EndInstrs | src/instructions.c:7-12 | HALT exits with 0, DELAY changes nothing |
| Meaning.UnknownSkips | src/cpu.c:93-273 | a byte that is no opcode is skipped |
| Frames.DataOpKeepsFrames | src/instructions.c:480-510 | a safe instruction keeps every byte below `bp`, keeps `bp`, and keeps `sp` at or above it |
| Frames.SafeIsExact | src/instructions.c:480-510 | and only a safe one does so for every stored value |
| Frames.PushFrameShape | src/instructions.c:440-446 | CALL adds four bytes, return address and old `bp`, and changes no other byte |
| Frames.PushFrameHolds | src/instructions.c:440-446 | the chain of frames is extended by the new one |
| Frames.PopFrameHolds | src/instructions.c:448-455 | RETURN pops the innermost frame and only moves registers |
| Frames.StepFrames | src/instructions.c:433-455 | one safe step changes the frames as CALL and RETURN say and leaves all else below `bp` |
| Frames.ReturnsToFrame | src/instructions.c:440-455 | a run that leaves `n` frames behind ends at the return address, `bp` and base of the outermost, the bytes below unchanged |
| Frames.CallReturns | src/instructions.c:440-455 | frame integrity for arbitrarily nested calls: `ip`, `bp`, `sp` restored, every byte below `sp` unchanged |
| Frames.WrappedStoreRedirectsReturn | src/instructions.c:501-510 | an unsafe POP_LOCAL at offset 65532 replaces the return address |
| Activation.VariableIsRead | src/instructions.c:490-510 | from the entry of a function through any computation and nested calls: PUSH_LOCAL of a variable pushes what the last POP_LOCAL of it took |
| Activation.SlotsLaidOut | compiler.py:499-514 | the slots of a function, in textual order, lie one after the other from offset 0 |
| Activation.CompiledVariableIsRead | compiler.py:495-536 | end to end: the same for a variable of the source, a call of its function, the offset that the compiler puts into the line and the size declared before the ALLOC_LOCAL |
| Handlers.DrainFits | src/cpu.c:341-356 | a drain succeeds exactly when there are four bytes for each message |
| Handlers.DrainShape | src/cpu.c:341-356 | after a drain the task is at its handler, one frame up per message; without handler or messages nothing changed |
| Handlers.DrainLast | src/cpu.c:345-355 | one message more is one call more |
| Handlers.HandledOnce | src/cpu.c:341-356 | if each activation returns, the handler is entered exactly once per message and the interrupted code resumes with its `ip`, `bp`, `sp` and live bytes |
| Interrupts.HandledOnceInterrupted | src/cpu.c:341-356 | the same when later drains interrupt handlers and their calls: as many entries as messages taken in all, then the interrupted code resumes |
| Interrupts.CyclesAreMoves | src/cpu.c:294-311 | the cycles of a task are such a sequence of drains and instructions |
| Assembler.CollectLabels | compiler.py:411-428 | the first loop removes the labels and records their addresses |
| Assembler.BuildJumps | compiler.py:411-434 | both loops together, undefined labels failing |
| Assembler.Uint8ListWord | compiler.py:28-36 | the two bytes are the value mod 2^16, low byte first |
| Assembler.Int16RoundTrip | compiler.py:39-53 | a value of -32768..32767 survives the encoding |
| Assembler.Int8List | compiler.py:39-53 | the signed list agrees mod 256 with the unsigned one and is read back as the original |
| Assembler.Assemble | compiler.py:635-638 | label resolution and encoding line by line |
| Labelled.LineOfUnique | compiler.py:415-420 | with distinct names a label stands for the instruction after its definition |
| Labelled.TableIsLineAddress | compiler.py:411-428 | the address table maps a label to the byte address of its line, and has no other entries |
| Labelled.EncodedAt | compiler.py:637-638 | instruction `k` lies in the code exactly at the sum of the sizes before it |
| Labelled.CompiledIsValid | compiler.py:411-434 | what assembles has all labels defined and operands in form, and addresses identify lines |
| Labelled.WellFormedAssembles | compiler.py:552-562 | conversely such a program always assembles |
| Labelled.FetchesLine | compiler.py:67-118 | at the address of line `k` lie its opcode and operand, exactly as many bytes as the VM's handler consumes |
| Labelled.StepSimulates | src/cpu.c:80-273 | one line is one instruction: same stacks, event and ending, and `ip` is the address of the next line, for jumps, calls and returns too |
| Labelled.RunSimulates | compiler.py:411-434 | compilation preserves meaning for runs of any length |
| Boundaries.StepStays | src/instructions.c:301-318 | a step of a closed program leads from a line to a line, with all return addresses on the call stack tokens of lines |
| Boundaries.RunStays | src/instructions.c:433-455 | the same over whole runs |
| Boundaries.FreshIsSound | src/task.c:8-23 | a fresh stack qualifies |
| Boundaries.DrainIsSound | src/cpu.c:341-356 | and so does a stack on which handler frames were pushed |
| Boundaries.AlwaysAtInstruction | src/cpu.c:80-91 | however long one task runs, `ip` is an instruction boundary inside the code and all return addresses on its stack are |
| Listing.PrintCode | compiler.py:610-619 | the walk by instruction sizes |
| Listing.ListingInvertsEncoding | compiler.py:610-619 | it visits exactly the encoded instructions, with addresses, opcodes and operands |
| Listing.ListedOperand | compiler.py:76-107 | a 16-bit operand is listed modulo 2^16, signed or not |
| Includes.ProcessIncludes | compiler.py:570-594 | the recursive loop with its shared set terminates on any finite map of files, cyclic or not, and is the expansion |
| Includes.ExpansionIsFlat | compiler.py:578-594 | no include line is left and no path is included twice |
| Includes.ExpansionConserves | compiler.py:578-594 | the result is the program's own lines and, once for each included path, that file's own lines |
| Includes.ExpansionSucceeds | compiler.py:565-594 | it succeeds if every file named in an include line is there |
| Includes.IncludedIsReached | compiler.py:573-585 | a file is included if and only if a chain of include lines leads to it |
| Includes.FailsForMissingFiles | compiler.py:565-594 | expansion fails if and only if a chain of include lines leads to a missing file |
| Includes.ExpansionIsRewriting | compiler.py:570-594 | order: lines come out in textual order, each file in place of its first include line |
| Includes.RootExpandsAgain | compiler.py:573-585 | the root's own lines occur twice if and only if a chain leads from it back to it, every other included file's once |
| Includes.NoIncludesUnchanged | compiler.py:591-592 | a program without includes is unchanged |
| Includes.RootExpandsOnceMore | compiler.py:573-585 | example: a root that includes itself in its first line is expanded twice |
| Constants.BuildConstData | compiler.py:467-492 | the two loops |
| Constants.BlockIsThere | compiler.py:471-484 | each constant's bytes lie at its start in the data |
| Constants.BlocksDisjoint | compiler.py:467-484 | blocks of different constants do not overlap |
| Constants.TableIsStart | compiler.py:480 | a name stands for its block, counted from the number of ports |
| Constants.ConstantIsFound | src/instructions.c:33-40 | the substituted address is where the VM looks: `data_address + address - ports` |
| Constants.StringIsRead | src/builtin.c:8-17 | a string without zero bytes, read up to the first zero, is exactly its UTF-8 bytes |
| Constants.PushU16IsLowByte | src/instructions.c:37-41 | PUSH_U16 of a U16 constant pushes its low byte |
| ConstantNames.NamesAreAddresses | compiler.py:467-492 | line by line: definitions go, the other lines stay in order, a name of a constant or port becomes its address, any other operand stays |
| ConstantNames.PortsAgree | src/io.c:20-25 | the address for a port's name is where the VM has that register |
| Locals.AllocateLocals | compiler.py:495-514 | the first loop, double allocation failing |
| Locals.BuildLocalVariables | compiler.py:516-536 | both loops are the functions that the rows of `LocalNames` speak of |
| LocalNames.NamesAreOffsets | compiler.py:495-536 | the pass succeeds if and only if every ALLOC_LOCAL is acceptable and every name has a declaration; then a name becomes the bytes allocated before its declaration, and all other lines stay |
| LocalNames.AllocatesIff | compiler.py:504-513 | an ALLOC_LOCAL is accepted if and only if a number is in the line before, it is in a function, and its key is new |
| LocalNames.LocalIsOffset | compiler.py:521-536 | a variable of a function is replaced by its offset in that function |
| LocalNames.OffsetCounts | compiler.py:504-513 | offsets start at 0 in each function and grow by the numbers in the lines before the ALLOC_LOCALs |
| LocalNames.OtherFunctionsVariable | compiler.py:507 | a name of another function is found when the joined keys meet |
| LocalNames.NamesTheirOwn | compiler.py:507 | not if the names of functions have no underscore |
| Locals.OffsetGiven | compiler.py:504-513 | a local's offset is the number of bytes its function allocated before it |
| Locals.LayoutSound | compiler.py:499-514 | the locals of a function lie one after the other from 0 and do not overlap |
| Locals.KeysDistinct | compiler.py:507 | two variables of a function never share a table entry |
| Locals.AllocsCover | src/instructions.c:480-488 | the ALLOC_LOCALs move `sp` by exactly the sum of the sizes |
| Locals.FrameHoldsLocals | src/instructions.c:480-488 | after them every slot lies in [bp, sp) |
| Locals.LocalsAreVariables | src/instructions.c:501-510 | under stores to slots, a slot holds what was last stored in it, whatever was stored in the others, and nothing below the frame changes |
| Locals.LocalIsRead | src/instructions.c:490-499 | a read at the slot after those stores gives that value |
| Locals.InstructionsAreStores | src/instructions.c:480-510 | POP_LOCAL and ALLOC_LOCAL are those stores and allocations |
| Compiler.CompileRfl | compiler.py:622-643 | the pipeline |
| Compiler.LayoutIsPlain | compiler.py:627-635 | after the layout passes only labels and instructions are left |
| Compiler.ImageOfCompilation | compiler.py:622-643 | the image of a successful compilation satisfies the hypotheses of the simulation and of the constant theorem |
| Recursion.IncrCall | programs/recursion.rfl:21-54 | for all `i`, `n`: a call of `.incr` returns `n` after `23 + 28 m` lines with a call-stack peak of exactly `8 (m + 1)` bytes, `m = (n - i) mod 2^16`, if and only if that room is left |
| RecursionProgram.LayoutPasses | programs/recursion.rfl:11-54 | what the layout passes make of the source text |
| RecursionProgram.ProgramRuns | programs/recursion.rfl:13-19 | the labelled program prints `n` and halts if its frames fit, else exits with a failure |
| RecursionProgram.CompiledProgramRuns | programs/recursion.rfl:11-54 | the same for the compiled bytes on the byte machine from power-on |
| RecursionProgram.DeepestRecursion | src/cpu.h:9-15 | the frames fit if and only if `n >= 1` and `4 + 8 n` bytes are there: 1 to 511 with 4096 bytes, 1 to 7 with 64 |
| PowerOn.RoundsAreRun | src/cpu.c:358-365 | pass after pass of the main loop, a program that creates no task does what the byte machine does, with the same ending |
| PowerOn.RecursionFromPowerOn | src/cpu.c:294-311 | from power-on in cycles of 255 instructions, the compiled recursive program ends with code 0 if its frames fit and with a failure otherwise |
| Wire.ComputeCrc | src/messaging.c:13-21 | the loop computes the xor of the payload |
| Wire.CrcIsParity | src/messaging.c:13-21 | bit `j` is 1 if and only if an odd number of payload bytes have bit `j` |
| Wire.CrcSeesOneByte | src/messaging.c:13-21 | changing one byte always changes the checksum |
| Wire.MessageCreate | src/messaging.c:136-154 | all fields of a new message |
| Wire.HeaderFields | src/messaging.c:169-204 | at which place of the buffer each field lies |
| Wire.MessageSerialize | src/messaging.c:169-204 | the buffer filled through an advancing pointer |
| Wire.MessageDeserialize | src/messaging.c:206-252 | the reads through an advancing pointer; a short buffer is refused, a cut-off payload left null |
| Wire.SerializeDeserialize | src/messaging.c:169-252 | a consistent message comes back with all its fields |
| Wire.DeserializeSerialize | src/messaging.c:206-252 | a buffer is written back up to the end of its payload exactly when it holds the whole payload |
| Inbox.MessageQueue.constructor | src/messaging.c:108-122 | an empty queue without history |
| Inbox.MessageQueue.Append | src/messaging.c:35-46 | the message is linked at the end; accepted is drained followed by the chain, head, tail and count agree with it |
| Inbox.MessageQueue.TakeHead | src/cpu.c:347-354 | the oldest message is unlinked and becomes the last of the drained |
| Inbox.DeliverLocal | src/messaging.c:23-54 | exactly one of queued, full, not found, for the first queue of the task; all other queues are untouched |
| Inbox.QueueAppend | src/messaging.c:35-46 | the list of queues stays well formed and separate |
| Inbox.QueueTake | src/cpu.c:345-355 | the same when a message is taken |
| Inbox.LastQueue | src/cpu.c:47-51 | the walk ends at the last queue |
| Inbox.AddQueue | src/cpu.c:43-53 | a new queue becomes the last one |
| Scheduler.StepSelf | src/cpu.c:300-310 | in a cycle the current task makes exactly its own machine step |
| Scheduler.SwitchView | src/cpu.c:275-292 | a context switch changes no task's `ip` and stacks |
| Scheduler.CycleOther | src/cpu.c:294-311 | another task's cycle changes neither `ip`, stacks nor handler of a task |
| Scheduler.CycleSelf | src/cpu.c:294-311 | a cycle of a task is a solo cycle: drain of its inbox, then its instructions |
| Scheduler.InterleavingInvisible | src/cpu.c:275-311 | in any run, projected on one task, states and events are those of a solo run with the same inputs and inbox counts |
| Scheduler.LimitIsVisible | src/cpu.c:24-30 | the task limit makes a difference to ASYNC_CALL, always, and to no other instruction |
| Traversal.BootFits | src/cpu.c:60-71 | the loaded program is a one-node tree within the limit |
| Traversal.WithChildTree | src/tasktree.c:30-46 | adding a last child keeps parent and child links in agreement |
| Traversal.SpawnedGrew | src/cpu.c:24-41 | creating a task adds one node below the current one and stays within the limit |
| Traversal.CycleGrew | src/cpu.c:294-311 | during its cycle a task adds children to its own node only |
| Traversal.Visit | src/tasktree.c:86-97 | the traversal of a tree that grows under it terminates, and adds nodes only in the subtree it visits |
| Traversal.VisitKids | src/tasktree.c:93-96 | the same for the loop over the children |
| Traversal.VisitLocal | src/tasktree.c:86-97 | a visit leaves the children of all nodes outside its subtree alone |
| Traversal.VisitIsPreorder | src/tasktree.c:86-97 | the visited tasks are exactly the preorder of the tree as it stands at the end |
| Traversal.SiblingsApart | src/tasktree.c:8-24 | subtrees of two children have nothing in common |
| Fairness.PreorderMembers | src/tasktree.c:86-97 | the preorder of a subtree lists exactly its nodes |
| Fairness.PreorderNoRepeats | src/tasktree.c:86-97 | each once |
| Fairness.PassVisitsEachOnce | src/cpu.c:358-365 | in one pass every task existing at its end has exactly one cycle |
| Fairness.PassIsRun | src/cpu.c:358-365 | a pass is a run of cycles |
| Fairness.PassInvisible | src/cpu.c:358-365 | hence a pass is invisible to each task too |
| Fairness.OrderKept | src/tasktree.c:44 | new tasks never change the relative preorder of existing ones |
| Fairness.BoundedWaiting | src/cpu.c:294-311 | between two consecutive cycles of a task every other task has at most one, at most `maxTasks` in all, with at most `maxTasks * 255` instructions |
| Removal.RemovesTheSubtree | src/tasktree.c:49-66 | after removing a task the preorder is the old one with exactly its subtree taken out |
| Removal.RemovedMembers | src/tasktree.c:49-66 | the tree then holds exactly the tasks outside the subtree |
| Reachable.StepSound | src/cpu.c:302-304 | one safe instruction leads from a sound thread to a sound thread; a task it creates starts at a line and has a handler at a line |
| Reachable.RunCyclesSound | src/cpu.c:294-311 | any run of cycles, with drains, messages and created tasks, keeps every task sound |
| Reachable.BootSound | src/cpu.c:60-71 | the loaded program is sound |
| Reachable.ReachedAtInstruction | src/cpu.c:80-91 | in every world reached from power-on every task's `ip` is an instruction boundary inside the code and its return addresses are too |
| Reachable.PassSound | src/cpu.c:358-365 | the same from pass to pass of the main loop |
| Mail.StepMail | src/messaging.c:23-54 | a sent message, from the current task, to the named task and with the named payload, joins the inbox of that task if it has fewer than 4; every other inbox stays as it is |
| Mail.SendReaches | src/builtin.c:77-93 | the same from the bytes 11, 3, 0 of the program and the numbers on the stack |
| Mail.SpawnReaches | src/cpu.c:24-53 | the bytes of ASYNC_CALL create a task at the operand, with the handler of the stack, fresh stacks, an empty inbox, as last child; at the limit only `ip` changes |
| Mail.CycleMail | src/cpu.c:294-356 | in one cycle: what was waiting and what was given is what is taken and what is waiting then |
| Mail.MailConserved | src/cpu.c:341-356 | in any run no accepted message is lost, repeated or reordered, and as many are taken as the drains of the task's solo run are given |
| Mail.InboxesBounded | src/messaging.h:27 | no inbox ever holds more than four messages |
| TaskTree.TaskTreeNode.constructor | src/tasktree.c:11-27 | a new node has no children and no parent |
| TaskTree.TaskTreeNode.AddChild | src/tasktree.c:30-46 | the child becomes the last one; a full array is replaced by one of twice the capacity, 2 the first time |
| TaskTree.TaskTreeNode.Grow | src/tasktree.c:34-43 | the reallocation keeps the children; capacities are 0 or 2 doubled some number of times |
| TaskTree.TaskTreeNode.RemoveChild | src/tasktree.c:53-65 | the child with the id goes, the others move down in order |
| TaskTree.TaskTreeNode.ShiftDown | src/tasktree.c:58-61 | the inner loop |
| TaskTree.WithoutIsExact | src/tasktree.c:49-66 | with distinct ids exactly one child goes |
| TaskTree.WithoutIds | src/tasktree.c:49-66 | on ids this is the removal of the tree lemmas |
| Processor.Processor.FetchData | src/cpu.c:80-91 | the bytes at `ip`, with `ip` advanced; outside the program the outcome is undefined |
| Processor.Processor.Delay | src/instructions.c:294-299 | the operand is consumed |
| Processor.Processor.Jump | src/instructions.c:301-306 | the handler does what the machine says of JUMP |
| Processor.Processor.PopJumpIfFalse | src/instructions.c:308-318 | of POP_JUMP_IF_FALSE |
| Processor.Processor.CallAddress | src/instructions.c:440-446 | of a call, handler frames included |
| Processor.Processor.Call | src/instructions.c:433-438 | of CALL |
| Processor.Processor.Ret | src/instructions.c:448-455 | of RETURN |
| Processor.Processor.Compare | src/instructions.c:320-373 | of the five compares (see Meaning.CompareInstrs) |
| Processor.Processor.ArithmeticU16 | src/instructions.c:99-137 | of the U16 arithmetic |
| Processor.Processor.ArithmeticI16 | src/instructions.c:189-227 | of the I16 arithmetic |
| Processor.Processor.BitwiseU16 | src/instructions.c:375-431 | of the bit operations and shifts |
| Processor.Processor.BitwiseNot | src/instructions.c:405-411 | of NOT |
| Processor.Processor.ArithmeticF32 | src/instructions.c:254-292 | of the float operations up to the value of the result |
| Processor.Processor.PushLiteral | src/instructions.c:14-19 | of the three literals |
| Processor.Processor.PushMillis | src/instructions.c:474-478 | of PUSH_MILLIS |
| Processor.Processor.PopValue | src/instructions.c:21-25 | of POP_U16 and POP_F32 |
| Processor.Processor.PopI16 | src/instructions.c:146-149 | of POP_I16, which moves `sp` unchecked |
| Processor.Processor.Top | src/instructions.c:93-97 | of the three TOP instructions |
| Processor.Processor.PushU16 | src/instructions.c:27-42 | of PUSH_U16, port or constant |
| Processor.Processor.PopAddressU16 | src/instructions.c:44-59 | of POPA_U16, exit for a non-port address |
| Processor.Processor.AllocateLocal | src/instructions.c:480-488 | of ALLOC_LOCAL |
| Processor.Processor.PushLocal | src/instructions.c:490-499 | of PUSH_LOCAL |
| Processor.Processor.PopLocal | src/instructions.c:501-510 | of POP_LOCAL |
| Processor.Processor.LoadI16 | src/instructions.c:151-158 | of READ_I16 |
| Processor.Processor.StoreI16 | src/instructions.c:160-167 | of WRITE_I16 |
| Processor.Processor.MoveI16 | src/instructions.c:169-181 | of ALLOC_I16 and FREE_I16 |
| Processor.Processor.AsyncCall | src/instructions.c:457-462 | of ASYNC_CALL (see Meaning.AsyncCallInstr): at the task limit nothing is popped |
| Processor.Processor.Print | src/builtin.c:6-55 | the format loop takes from the operand stack what the conversions ask for |
| Processor.Processor.SendMessage | src/builtin.c:77-93 | of SYSCALL 3 (see Meaning.SendInstr) |
| Processor.Processor.SysCall | src/builtin.c:107-134 | of SYSCALL |
| Processor.Processor.Execute | src/cpu.c:93-273 | the dispatch as a whole |
| Processor.Processor.Step | src/cpu.c:302-304 | fetch and dispatch are the step of the machine model |
| Cpu.Cpu.constructor | src/cpu.c:60-71 | loading gives the main task alone, at address 0, with its inbox |
| Cpu.Cpu.SetTaskNode | src/cpu.c:275-282 | the registers are those of the node's task |
| Cpu.Cpu.ContextSwitch | src/cpu.c:284-292 | on the objects of all tasks this is the switch of the pure scheduler |
| Cpu.Cpu.ProcessContextInbox | src/cpu.c:341-356 | the loop over the linked queue is the drain of the pure scheduler |
| Cpu.Cpu.Deliver | src/messaging.c:23-54 | a message changes exactly the inbox of its task, found as the queue with its id, or nothing |
| Cpu.Cpu.SendMessage | src/messaging.c:162-167 | a message of the current task is created and delivered |
| Cpu.Cpu.CreateTask | src/cpu.c:24-53 | the new node, its task, stacks and queue are linked in, every other object holds what it held |
| Cpu.Cpu.StepTask | src/cpu.c:302-308 | one instruction and its effect on the other tasks (see Mail.StepMail, Mail.SpawnReaches) |
| Cpu.Cpu.CheckIncomingMessages | src/cpu.c:313-339 | a received message is delivered like a local one |
| Cpu.Cpu.RunInstructions | src/cpu.c:299-310 | the loop runs exactly 255 instructions |
| Cpu.Cpu.RunCycle | src/cpu.c:294-311 | reception, switch, drain and instructions are the cycle of the pure scheduler |
| Cpu.Cpu.TraverseDfs | src/tasktree.c:86-97 | the recursive traversal over the growing node objects terminates and is the visit of the pure scheduler |
| Cpu.Cpu.Pass | src/cpu.c:358-365 | one round of the main loop: every task that exists at its end had exactly one cycle |

## Left out

- ASYNC_RETURN inside a running traversal: it frees the node being visited and leaves its queue in the list
  (`src/tasktree.c:49-66`); in the scheduler the outcome is `Undefined`, and the run theorems speak of runs without it. Removal is
  modelled as an operation on a tree at rest.
- Handlers.HandledOnce: an activation counts as returning only if its steps satisfy `Frames.Safe`, the exact condition under which a
  step keeps the frames for every stored value. The same holds of `Interrupts.HandledOnceInterrupted`.
- Reachable.ReachedAtInstruction: the same condition on steps; jumps, calls and ASYNC_CALLs go to labels, handler words are 0 or
  addresses of lines, and the last instruction is a JUMP, RETURN or HALT. `Boundaries.AlwaysAtInstruction` likewise.
- Activation.VariableIsRead: the activation stores only into its variables, and the called functions are safe; a store at an offset of
  two variables' bytes would change both.
- RecursionProgram.CompiledProgramRuns: the operand stack has at least 8 bytes and the stacks fewer than 65534; the sizes in
  `src/cpu.h:9-15` are 32 to 4096.
- Values.StackRefines: speaks of stacks of fewer than 65532 bytes, for the same reason.
- Processor.Processor.ArithmeticF32: float results are inputs; IEEE 754 arithmetic and the packing of literals are not modelled.
- Processor.Processor.Print: the printed text is not modelled, only the values taken; an address below the number of ports, which
  reads before the data, is `Undefined`.
- Cpu.Cpu.Pass: `cpu_run` repeats it forever; a method that returns cannot.
- Cpu.Cpu.SendMessage: only to tasks of this VM; sending to other machines is a stub in `src/messaging.c:57-60`.
- Cpu.Cpu.CreateTask: the limit is taken below 256, as a task id is a byte; the source uses 4. The limit check and the pop of the
  handler are part of `Processor.Processor.AsyncCall`, so creation follows the pop.
- Inbox.Message: `next` of a new message is taken to be null; `message_create` does not set it (`src/messaging.c:136-154`).
- Freed memory and allocation failures: objects that the source frees are no longer referenced; the accounting of `src/sys.c`
  and the unused `src/memory.c` are not modelled.
- A 16-bit `int` (AVR): the model has `int` of 32 bits, which matters for the `uint16_t` product and for shifts only.
- TaskTree.TaskTreeNode.RemoveChild: freeing the removed child's subtree is not modelled, and as ASYNC_RETURN is left out, `Cpu` never
  calls it on its nodes.
- Python string handling: the model starts from tokenised lines; comments, blank lines, `strip`, quoting, bare port names
  (`map_ports`) and float parsing are not part of it. The operand of an ALLOC_LOCAL is a
  variable, a label or a number in canonical decimal form; a float there counts as an error.
- Sockets, serial lines, timers, LED, port hardware (`src/server.c`, `src/serial.c`, `src/delay.c`, `src/io.c`): clock, ports and received
  messages are inputs.
