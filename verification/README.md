# Verification of bVisor's core libraries

Dafny models of the parts of bVisor (a fork of gVisor) where a mistake is hard to
see in any one function: a BPF compiler, a lock-free control transfer, a worker
pool, a hash-chained stream, copy-on-write buffers, a file-server tree with
reference counts, an on-disk directory search and a bitmap. Each operation is
written in the form the source has (passes over an array in place, classes with
updated fields, loops) and proved against a specification; the properties the
system relies on are then proved of that specification for every input, run or
reachable state. `dafny verify dfyconfig.toml` checks all of it.

## What is modelled

**Classic BPF** (`pkg/bpf`). `Instructions`, `Interpreter` and `Validator` give the
machine, its one-step semantics and the checks of `Compile`; an instruction is
accepted exactly if the machine can execute it in every state, and `OpcodeMeaning`
says of every opcode, as a number, what it computes, by integer arithmetic and bit by
bit. The eight optimizer
passes are array programs (`JumpPasses`, `RemovalPasses`, `ReturnPass`); their
soundness is a simulation (`Simulation`, `Removal`, `RedundantLoads`) in which
every run has the same outcome in no more steps, and the fixpoint loop of
`Optimizer` terminates by a lexicographic measure (`Progress`). What it ends with is
described on the instruction text alone (`OptimizedForm`). Outcomes are compared by
return value or error code.

*A finding.* `removeRedundantLoads` follows writes to A only
(`pkg/bpf/optimizer.go:327`), so `Optimize` is not lossless as its comment says: an
indirect load also depends on X and a memory load on its cell.
`OptimizerCounterexample` has an accepted program whose result changes, and
`LoadExactness` the exact rule, as an equivalence, for which instruction may stand
between two equal loads. Programs without such a pair (`LoadsUndisturbed`, a
condition every pass preserves) keep their meaning.

`Builder` covers the program builder: labels resolve to the instruction after
`AddLabel` for every history and every map order, and the outcomes computed for a
fragment before resolution cover every way out of it in the finished program. A failed
resolution leaves a builder that can go on but not, in general, resolve again. Asking
for them when a label is gone, as it is after resolution, is a nil dereference, and
when that happens is stated exactly.

**Flipcall** (`pkg/flipcall`). A transition system of four threads, a user and a
Shutdown thread per endpoint, with one step for each atomic operation, an atomic
check-and-sleep for the futex wait, and spurious wakes. Safety holds over every
interleaving (`Flipcall`): exclusive control, strict alternation with the right
lengths, panic branches never reached, the connection shut down once, no lost
wakeup, and a final shutdown word. The lengths that arrive are, in order, those the
calls of the peer were made with (`FlipcallData`). `FlipcallLiveness` adds, for every fair infinite
run, that a shutdown takes effect, that calls in progress return, and that Shutdown
returns; `FlipcallCalls` that calls made after a shutdown return shutdown errors, and
that without one every message is sent and received.

**Compressed streams** (`pkg/compressio`). `Pool` is the round-robin pool under every
interleaving of its workers, including the step that passes no callback because a
slot was just freed: it can proceed exactly when fewer than three chunks per worker
are outstanding, which the call site guarantees. `Framing` is the keyed simple
reader and writer with its hash chain, up to the round trip under any write sizes,
read sizes and short reads.

*Findings.* Lengths are cut to 32 bits in three places. A read into a buffer whose
length is a nonzero multiple of 2^32 never progresses
(`pkg/compressio/nocompressio.go:118`); the buffer of a writer is too short for the 36
largest chunk sizes, so its first buffered write panics (`:221`, `:246`); and a stretch
of 2^32 bytes or more sent past the buffer does not read back (`:266`), while a write
of that length whose beginning completes a chunk may. Each has its exact condition, on
the chunk size and the lengths alone, and a concrete witness; for the last, data that
happens to embed the right hash gets past the first check.

**Copy-on-write buffers** (`pkg/buffer`). Views own reference-counted chunks. Every
method says what the buffer then holds as a byte sequence, and, for an arbitrary set
`others` of views outside it, that they show what they showed before; `others` is a
ghost parameter, so it stands for every other view there is. `BufferRuns` and
`BufferPools` put this together: any sequence of operations on any number of buffers
and views, clones, merges and views given to buffers included, acts as on separate
byte sequences, and leaks no chunk reference.

*Two findings.* On its fill path `Prepend` sets `src.write` to an offset that is
relative to `src.read` (`pkg/buffer/buffer.go:238`), so it is right exactly when that
path is not taken or the source starts at zero. `GrowTo` clears bytes of a chunk
without asking whether it is shared (`pkg/buffer/buffer.go:194`), so a view, of the
same buffer or another, is kept exactly when it shows no nonzero byte of that stretch.

**LISAFS** (`pkg/lisafs`). `LisafsTree` and `LisafsServer` are the node tree under
rename, exchange, unlink and walk, with the path of every node before and after;
`LisafsChildren` is the child table in its two representations, as one map;
`LisafsRefs` is the conservation of references over nodes and FDs, from which an
object is live if and only if something in use leads to it, and closing a connection
frees its FDs. `LisafsLink` and `LisafsRuns` join the tree and the counts in one state
machine: in every run its nodes are exactly the live ones. `LisafsNames` shows that
the names let through are exactly those that lead one level down.

*A finding.* `Node.DecRef` unlinks a destroyed node by name
(`pkg/lisafs/node.go:118`). The tree stays consistent exactly when no other node has
taken the name since; `ReuseName` builds such a tree, and `FaultIsReached` the run of
three steps that leads there.

**EROFS directories** (`pkg/erofs`). The two-level binary search agrees with the linear
scan. `ErofsLayout` says what is scanned: the blocks, inline tail included, are the
data of the inode, and a directory written by an encoder is read back entry by entry.

**Bitmap** (`pkg/bitmap`). Blocks are 64-bit words; `BitWords` gives the set of bits of
every mask and operator, and `Bitmap` proves the loops against sets of indexes: which
bits a range operation changes, that the cached count stays right, and the searches
and visits. Formatting and parsing is a round trip, and no list is shorter than the
formatted one.

*Findings.* `FlipRange` and `ClearRange` panic for a short range that ends where the
bitmap ends, and an empty range that starts a block changes the blocks around it and
spoils the count. `ForEach` visits nothing when rounding its end up wraps
(`pkg/bitmap/bitmap.go:262-289`). `ParseList` never returns when a range ends at
2^32-1 (`pkg/bitmap/format.go:132`). All of these are equivalences.

## Model

| member | source | states |
|---|---|---|
| `Interpreter.Exec` | pkg/bpf/interpreter.go:241-386 | the loop that updates pc, A, X and M returns exactly what the recursive one-step semantics gives from the zeroed machine, on every program, valid or not, panics included; what each opcode computes is pinned by the rows of OpcodeMeaning |
| `OpcodeMeaning.TestMeaning` | pkg/bpf/interpreter.go:357-372 | for all words: a program that loads X and A and then jumps by opcode 0x15, 0x25, 0x35 or 0x45 on K, or by 0x1d, 0x2d, 0x3d or 0x4d on X, takes the true branch if and only if A equals, exceeds, is at least, or shares a set bit with the operand |
| `OpcodeMeaning.DirectJumpMeaning` | pkg/bpf/interpreter.go:355-356 | opcode 0x05 skips K instructions, from every state |
| `OpcodeMeaning.AluMeaning` | pkg/bpf/interpreter.go:305-354 | for all words and each of the ten two-operand opcodes, with K or X: the run returns the sum, difference, product, quotient or remainder modulo 2^32, or the word whose bits are the or, and, exclusive or, or the shifted bits |
| `OpcodeMeaning.ComputesOneWord` | pkg/bpf/interpreter.go:305-354 | and that description fits one word only |
| `OpcodeMeaning.ZeroDivisorMeaning` | pkg/bpf/interpreter.go:317-352 | dividing by X equal to zero is an error at that instruction, dividing by a zero constant a crash |
| `OpcodeMeaning.NegationMeaning` | pkg/bpf/interpreter.go:341-342 | the result of negation and A add up to zero modulo 2^32 |
| `OpcodeMeaning.LoadMeaning` | pkg/bpf/interpreter.go:249-284 | a number of four, two or one bytes stored in the input in its byte order at K, or at X plus K modulo 2^32, is the number loaded; the load fails if and only if some of the bytes are outside the input |
| `OpcodeMeaning.HeaderLengthMeaning` | pkg/bpf/interpreter.go:295-300 | X becomes four times the low nibble of the byte at K, or the load fails |
| `OpcodeMeaning.MemoryMeaning` | pkg/bpf/interpreter.go:285-304 | what is stored from A or X in a memory cell is loaded from that cell into A or X, every other cell is still zero, and a cell that does not exist is a crash |
| `OpcodeMeaning.MovesMeaning` | pkg/bpf/interpreter.go:287-380 | the two register moves and the two loads of the input length |
| `Validator.CheckSplits` | pkg/bpf/interpreter.go:120-217 | the per-instruction switch accepts an instruction if and only if its opcode is one the machine can execute and, for a jump, every target lies inside the program |
| `Validator.OpValidIffExecutable` | pkg/bpf/interpreter.go:119-217 | an opcode and its operand pass the switch if and only if no machine state and input make the interpreter panic or report an invalid opcode on it |
| `Validator.CheckMeaning` | pkg/bpf/interpreter.go:119-217 | the reported code says what the instruction would do: an invalid opcode fails as such in every state, an invalid register is an index panic in every state, division by zero a division panic in every state, and an invalid target an executable jump that leaves the program |
| `Validator.WellFormedIffFlowsInside` | pkg/bpf/interpreter.go:104-223 | the conditions Compile checks are equivalent to: every instruction is runnable and no successor of any instruction leaves the program |
| `Validator.StepSuccessor` | pkg/bpf/interpreter.go:246-383 | one step of a valid instruction never panics, fails only with a run-time error, and otherwise goes to one of the successors read off the instruction text |
| `Validator.EqualSteps` | pkg/bpf/bpf.go:164-220 | instructions that Equal identifies do the same in every machine state on every input |
| `Validator.EqualReturns` | pkg/bpf/bpf.go:164-220 | two valid instructions that Equal identifies, one of them a return, are both returns and step alike in every machine state |
| `Optimizer.Compile` | pkg/bpf/interpreter.go:104-223 | accepts exactly the programs of at most the maximum length whose instructions the machine can execute in every state and whose successors stay inside; a rejection has the first fault, with the code that says what executing it would do, and leaves the slice alone; an accepted, possibly optimized program is accepted again, is in optimized form with every pass settled, and means the same when no load is disturbed |
| `Optimizer.AcceptedIffRunnable` | pkg/bpf/interpreter.go:104-223 | the checks of Compile hold if and only if every instruction is executable in every state and no successor leaves the program |
| `Executions.FlowsInsideRuns` | pkg/bpf/interpreter.go:241-386 | from any pc and any machine state a valid program halts within the instructions that remain, by a return or a run-time error, never by an invalid opcode, a missing end or a panic |
| `Executions.AcceptedRunsCleanly` | pkg/bpf/interpreter.go:241-386 | every accepted program, on every input, halts in between one and its length many steps without an invalid opcode, end-of-program error, memory index or division panic |
| `Executions.TraceCountsSteps` | pkg/bpf/interpreter.go:500-659 | the executed pcs form a strictly increasing sequence inside the program, one per counted step |
| `Executions.ReadsDetermineRun` | pkg/bpf/interpreter.go:488-659 | two inputs of equal length and byte order that agree on the offsets a run reads give the same result, the same trace and the same reads |
| `Executions.EveryReadMatters` | pkg/bpf/interpreter.go:488-569 | no byte is marked without need: changing any one byte a step reads changes the result of that step |
| `Executions.ExecutionMetrics.constructor` | pkg/bpf/interpreter.go:500-509 | fresh separate coverage and access arrays of the right lengths, all false |
| `Executions.ExecutionMetrics.MarkInputRead` | pkg/bpf/interpreter.go:488-495 | marks exactly the offsets of the read and keeps the marks already there |
| `Executions.InstrumentedExec` | pkg/bpf/interpreter.go:500-659 | agrees with Exec on outcome and value; coverage is exactly the set of executed pcs and the access marks are exactly the offsets read |
| `Simulation.ImprovesTransitive` | pkg/bpf/optimizer.go:638-647 | same outcome in no more steps on every input composes, so passes can be chained |
| `Simulation.RetargetedRuns` | pkg/bpf/optimizer.go:55-137 | from every pc and machine state, a program whose jumps were moved to where they lead anyway has the same outcome in no more steps |
| `Simulation.RetargetedImproves` | pkg/bpf/optimizer.go:55-137 | retargeting keeps a program valid and is an improvement on every input |
| `JumpPasses.ThreadTarget` | pkg/bpf/optimizer.go:61-84 | the new offset skips one direct jump when the sum still fits eight bits, and reports a change exactly when it differs |
| `JumpPasses.ThreadOne` | pkg/bpf/optimizer.go:56-86 | one turn of the loop threads both branches of one conditional jump against the program as it was and touches no other slot |
| `JumpPasses.OptimizeConditionalJumps` | pkg/bpf/optimizer.go:55-88 | in place, every conditional jump of the old program is threaded, nothing else changes, and changed is reported exactly when the program differs |
| `JumpPasses.ThreadedConditionalsSound` | pkg/bpf/optimizer.go:55-88 | the result is valid, improves on the old program, adds no plain instruction, and is progress if it differs |
| `JumpPasses.OptimizeSameTargetConditionalJumps` | pkg/bpf/optimizer.go:97-110 | in place, exactly the conditional jumps with equal offsets become direct jumps; no conditional jump with equal offsets is left |
| `JumpPasses.MergedTargetsSound` | pkg/bpf/optimizer.go:97-110 | that rewrite is valid, an improvement, and progress if it differs |
| `JumpPasses.OptimizeUnconditionalJumps` | pkg/bpf/optimizer.go:114-137 | in place, exactly the direct jumps to direct jumps are shortened, where the sum of the offsets still fits |
| `JumpPasses.ThreadedDirectsSound` | pkg/bpf/optimizer.go:114-137 | that rewrite is valid, an improvement, and progress if it differs |
| `JumpPasses.OptimizeJumpsToReturn` | pkg/bpf/optimizer.go:266-280 | in place, exactly the direct jumps whose target returns become that return |
| `JumpPasses.CopiedReturnsSound` | pkg/bpf/optimizer.go:266-280 | that rewrite is valid, an improvement, and progress if it differs |
| `Removal.ShiftedSuccessors` | pkg/bpf/optimizer.go:155-198 | after one instruction is removed and jumps across it are decremented, the successors of every other instruction are the old ones shifted |
| `Removal.ShiftedStep` | pkg/bpf/optimizer.go:155-198 | and its step in every machine state is the old step with the target shifted |
| `Removal.RemoveRuns` | pkg/bpf/optimizer.go:155-198 | if at the removed pc the machine would pass through unchanged whenever an invariant of the run holds, then removing it gives the same outcome in no more steps from every pc |
| `Removal.RemoveAllDead` | pkg/bpf/optimizer.go:219-262 | removing all instructions outside a set closed under successors keeps validity and is an improvement |
| `Removal.RemoveAllZeroJumps` | pkg/bpf/optimizer.go:203-212 | removing any set of jumps by zero keeps validity and is an improvement |
| `RemovalPasses.CodeRemoval.MarkRemoved` | pkg/bpf/optimizer.go:146-151 | any index of the program joins those to remove, also one that is there already |
| `RemovalPasses.CodeRemoval.Apply` | pkg/bpf/optimizer.go:155-166 | removes the marked indexes from the largest down, and panics exactly when one of those removals is outside what is left; distinct marks never panic and remove exactly the marked set |
| `RemovalPasses.Delete` | pkg/bpf/optimizer.go:162-162 | closes the gap in place |
| `RemovalPasses.DecrementJumps` | pkg/bpf/optimizer.go:175-198 | decrements exactly the offsets before the target that reach past it, and nothing at or after it |
| `RemovalPasses.RemoveInstruction` | pkg/bpf/optimizer.go:161-163 | one removal in place equals the removal of the specification |
| `RemovalPasses.RemoveDescending` | pkg/bpf/optimizer.go:160-164 | the loop from the largest index down gives the one-by-one removal, and panics exactly when that is undefined |
| `RemovalPasses.RemoveEachIsAll` | pkg/bpf/optimizer.go:160-164 | for increasing indexes inside the program, removing them one by one from the end is removing the set |
| `RemovalPasses.MarkedTwice` | pkg/bpf/optimizer.go:146-166 | an index marked twice takes away the next instruction too, and panics at the last one |
| `RemovalPasses.SortIntsIncreasing` | pkg/bpf/optimizer.go:159-159 | the sort yields the same distinct indices, increasing and in bounds |
| `RemovalPasses.RemoveZeroInstructionJumps` | pkg/bpf/optimizer.go:203-212 | removes exactly the jumps by zero |
| `RemovalPasses.MarkReachable` | pkg/bpf/optimizer.go:224-252 | the worklist marks exactly the instructions reachable from the start |
| `RemovalPasses.RemoveDeadCode` | pkg/bpf/optimizer.go:219-262 | removes exactly the unreachable instructions and reports a change exactly when there are any |
| `RemovalPasses.DeadCodeSound` | pkg/bpf/optimizer.go:219-262 | that removal keeps validity and is an improvement |
| `RemovalPasses.BuildReverseWalk` | pkg/bpf/optimizer.go:288-304 | the reverse table holds exactly the predecessors of every instruction |
| `RemovalPasses.WalkBack` | pkg/bpf/optimizer.go:314-338 | the backward loop finds the last instruction that modified A on the single path in, or none |
| `RemovalPasses.IsRedundantLoad` | pkg/bpf/optimizer.go:308-342 | the test the pass makes on one load equals its specification |
| `RemovalPasses.RemoveRedundantLoads` | pkg/bpf/optimizer.go:285-344 | removes exactly the loads the pass calls redundant, all judged on the program as it was |
| `RedundantLoads.ChainStep` | pkg/bpf/optimizer.go:308-342 | along the undisturbed chain from the first load, every step keeps the machine in a state where repeating the load would change nothing |
| `RedundantLoads.RemoveLoadAt` | pkg/bpf/optimizer.go:285-344 | removing one redundant load whose chain is undisturbed is an improvement on every input |
| `RedundantLoads.RemoveAllLoads` | pkg/bpf/optimizer.go:285-344 | removing all redundant loads keeps validity, and is an improvement if no instruction of the program disturbs a load |
| `RedundantLoads.LoadsUndisturbedMonotone` | pkg/bpf/optimizer.go:638-664 | the hypothesis that no load is disturbed survives every pass that adds no plain instruction |
| `LoadExactness.NoInterferenceDrops` | pkg/bpf/optimizer.go:285-344 | a load repeated after an instruction that does not touch what it reads may be dropped in every surrounding program |
| `LoadExactness.ProbeBreaks` | pkg/bpf/optimizer.go:308-342 | a run in which the repeated load brings a different value refutes dropping it |
| `LoadExactness.WriterOfXBreaks` | pkg/bpf/optimizer.go:308-342 | for every indirect load and every instruction that writes X there is a program and input on which dropping the repeat changes the result |
| `LoadExactness.StoreOfXBreaks` | pkg/bpf/optimizer.go:308-342 | likewise for a memory load and a store of X to the same cell |
| `LoadExactness.DropsSafelyIffNoInterference` | pkg/bpf/optimizer.go:308-342 | the exact condition: dropping the repeat is right in every surrounding program if and only if the instruction between does not write X before an indirect load or store X to the loaded cell |
| `OptimizerCounterexample.OptimizeChangesMeaning` | pkg/bpf/optimizer.go:285-344 | an accepted five-instruction program on which only this pass acts; it removes one load, every pass is then settled, and the result changes from 1 to 0 on every input |
| `ReturnPass.CollectRewrites` | pkg/bpf/optimizer.go:379-425 | finds every jump to the old return if and only if all of them can reach the new one with their offset width, and no other instruction |
| `ReturnPass.RewritesAreRedirections` | pkg/bpf/optimizer.go:368-443 | applying the collected rewrites one after the other redirects every jump to the old return and changes nothing else |
| `ReturnPass.ApplyRewrites` | pkg/bpf/optimizer.go:430-441 | the rewrites are applied in place, in order |
| `ReturnPass.RewriteAllJumpsToReturn` | pkg/bpf/optimizer.go:368-443 | true if and only if some jump exists and all can be redirected; then all are, otherwise the program is untouched |
| `ReturnPass.MeasurePopularity` | pkg/bpf/optimizer.go:562-593 | the score counts the jump branches that lead to a return, plus the program length if control can fall into it, and the flag says exactly whether it can |
| `ReturnPass.SameKeyIsEqual` | pkg/bpf/optimizer.go:553-561 | two returns get the same map key if and only if Equal identifies them |
| `ReturnPass.GroupReturns` | pkg/bpf/optimizer.go:549-597 | the groups hold every return exactly once, under its key, in program order, with its score and flag |
| `ReturnPass.SortByScoreSorted` | pkg/bpf/optimizer.go:601-608 | the sort orders a group by score, ties by pc, with the same members |
| `ReturnPass.MergeStep` | pkg/bpf/optimizer.go:609-624 | redirecting all jumps from one return to an equal one keeps the program valid and improved, and orphans the first |
| `ReturnPass.MergeReturn` | pkg/bpf/optimizer.go:615-623 | one return is orphaned by sending its jumps to a more popular equal return, or left alone, and in an untouched program only if no such merge is possible |
| `ReturnPass.MergeGroup` | pkg/bpf/optimizer.go:609-624 | a group merged in place: a change exactly when some return was orphaned, and none only if no merge is possible |
| `ReturnPass.OrphanUnreachable` | pkg/bpf/optimizer.go:609-624 | a return that lost its jumps and cannot be fallen into is unreachable |
| `ReturnPass.MergingProgress` | pkg/bpf/optimizer.go:487-627 | when everything was reachable before, as dead-code removal guarantees, orphaning a return lowers the reachable count |
| `ReturnPass.OptimizeJumpsToSmallestSetOfReturns` | pkg/bpf/optimizer.go:487-627 | for any order of the groups the pass redirects jumps between equal returns only, reports a change exactly when it orphaned one, and otherwise no merge is possible |
| `Progress.ThreadsReachableCount` | pkg/bpf/optimizer.go:638-647 | threading jumps never makes more instructions reachable |
| `Progress.LosesReachable` | pkg/bpf/optimizer.go:638-647 | losing one reachable instruction at equal length lowers the termination measure of the fixpoint loop |
| `Optimizer.RunPass` | pkg/bpf/optimizer.go:653-664 | every pass keeps validity, adds no plain instruction, improves the program if no load is disturbed, lowers the measure if it reports a change, and changes nothing and is settled if it does not |
| `Optimizer.Sweep` | pkg/bpf/optimizer.go:640-644 | one turn of the fixpoint loop: progress, or an unchanged program on which every pass is settled |
| `Optimizer.Optimize` | pkg/bpf/optimizer.go:638-664 | terminates on every valid program with a valid program, no longer, on which all eight passes are settled and which is in the optimized form of the next row; if no load is disturbed it has the same outcome in no more steps on every input |
| `OptimizedForm.SettledIsOptimized` | pkg/bpf/optimizer.go:55-627 | the form, on the instruction text alone: no conditional jump has equal offsets; none branches to a direct jump whose summed offset is at most 255; no direct jump is by zero, goes to a return, or to a direct jump whose summed offset is at most 65535; something leads to every instruction but the first; no load repeats the last write to A on the only way to it; of two equal returns, one that is only jumped to cannot be replaced by the other because a jump to it does not reach that far |
| `OptimizedForm.EqualReturnsApart` | pkg/bpf/optimizer.go:487-627 | two equal returns are both left only if merging them is out of reach: always for one that is only jumped to against one that is fallen into, and in one of the two directions otherwise |
| `OptimizedForm.WalkFindsStart` | pkg/bpf/optimizer.go:308-342 | the backward walk finds the start of every path on which each step is the only way to the next and only the start writes A |
| `Builder.ProgramBuilder.AddStmt` | pkg/bpf/program_builder.go:87-89 | appends the statement; labels and sources stay consistent and the build only grows |
| `Builder.ProgramBuilder.AddJump` | pkg/bpf/program_builder.go:92-94 | likewise for a jump with numeric offsets |
| `Builder.ProgramBuilder.AddDirectJumpLabel` | pkg/bpf/program_builder.go:97-100 | appends a direct jump and records its label as used at that line |
| `Builder.ProgramBuilder.AddJumpTrueLabel` | pkg/bpf/program_builder.go:103-106 | likewise for the true branch |
| `Builder.ProgramBuilder.AddJumpFalseLabel` | pkg/bpf/program_builder.go:109-112 | likewise for the false branch |
| `Builder.ProgramBuilder.AddJumpLabels` | pkg/bpf/program_builder.go:115-119 | likewise for both branches |
| `Builder.ProgramBuilder.AddLabelSource` | pkg/bpf/program_builder.go:151-163 | each branch of each line gets at most one label, so the duplicate panic never happens from the public methods |
| `Builder.ProgramBuilder.AddLabel` | pkg/bpf/program_builder.go:123-138 | succeeds exactly for a used label without a target or an unused new name, and then marks the next line or the name as unusable; fails without effect otherwise |
| `Builder.ProgramBuilder.ResolveLabel` | pkg/bpf/program_builder.go:166-215 | succeeds exactly if the label has a target after each of its sources within the width of the field, and then patches exactly those fields; a failure has patched some of them and nothing else |
| `Builder.ProgramBuilder.Instructions` | pkg/bpf/program_builder.go:144-218 | for any order of the labels: succeeds exactly if every used label resolves, and the code is then the one resolution of the build; a failure returns the code with some uses patched, keeps every label, and leaves a builder that can go on |
| `Builder.FailureSticks` | pkg/bpf/program_builder.go:144-218 | after a failure that has patched a jump the same build cannot be resolved again, unless the offset happens to be the mark for a label |
| `Builder.ResolvedSlot` | pkg/bpf/program_builder.go:165-218 | in the resolved code every labelled branch lands on the instruction that followed its AddLabel, inside the program, and every other field is as added |
| `Builder.ExtendsTransitive` | pkg/bpf/program_builder.go:87-138 | growth of a build composes over any history |
| `Builder.ProgramBuilder.OffsetOutcomes` | pkg/bpf/program_builder.go:352-373 | the outcomes of the branches of one jump; dereferences nil exactly when one of them is labelled and its label is no longer in the map |
| `Builder.ProgramBuilder.FragmentOutcomes` | pkg/bpf/program_builder.go:329-381 | the loop computes the union of the outcomes of the fragment, and falling through for an empty one; it panics exactly when some labelled jump inside has lost its label |
| `Builder.KnownUntilResolved` | pkg/bpf/program_builder.go:329-381 | no label is lost before resolution; after a complete one the outcomes exist only for fragments without a labelled jump |
| `Builder.OutcomesAfterResolution` | pkg/bpf/program_builder.go:144-218 | a concrete builder that resolves and then panics on asking for the outcomes |
| `Builder.OutcomesCover` | pkg/bpf/program_builder.go:329-381 | in every program finished from this build, every way control leaves the fragment and every value it returns is among the outcomes computed before resolution |
| `Builder.OutcomesAreReal` | pkg/bpf/program_builder.go:329-381 | and nothing else is: each outcome is a successor, a label reached or a return of some instruction of the fragment in the finished program |
| `Flipcall.EntryOwn` | pkg/flipcall/ctrl_futex.go:46-174 | starting a call, storing the length and entering the futex section keep the endpoint invariant and the frame owed to the peer |
| `Flipcall.CasOwn` | pkg/flipcall/futex_linux.go:28-38 | handing over by compare-and-swap keeps them, whether it succeeds or finds the shutdown word |
| `Flipcall.WakeOwn` | pkg/flipcall/futex_linux.go:40-45 | so do the wake after it and its failure branch |
| `Flipcall.WaitOwn` | pkg/flipcall/futex_linux.go:47-66 | so do the load, the flag check and the atomic check-and-sleep |
| `Flipcall.ReadOwn` | pkg/flipcall/flipcall.go:223-283 | so does reading the length after the wait, which returns the length of the matching send |
| `Flipcall.ExitOwn` | pkg/flipcall/ctrl_futex.go:163-174 | so does leaving the futex section, in each of the states of the control bits |
| `Flipcall.ConnOwn` | pkg/flipcall/ctrl_futex.go:201-215 | so do the two steps of shutting down the connection from the user thread |
| `Flipcall.ShutdownOwn` | pkg/flipcall/ctrl_futex.go:176-199 | so does every step of the Shutdown thread |
| `Flipcall.UserSleeps` | pkg/flipcall/futex_linux.go:28-66 | no step of a user thread leaves a peer or itself asleep without a wake still to come |
| `Flipcall.ShutdownSleeps` | pkg/flipcall/ctrl_futex.go:176-215 | nor does a step of a Shutdown thread |
| `Flipcall.StepKeepsInv` | pkg/flipcall/flipcall.go:145-304 | every enabled step of any of the four threads, and every spurious wake, keeps the invariant |
| `Flipcall.RunKeepsInv` | pkg/flipcall/flipcall.go:145-304 | so it holds after every interleaving |
| `Flipcall.ControlIsExclusive` | pkg/flipcall/flipcall.go:206-304 | in every run at most one endpoint has control, and sends and receives alternate strictly, each receive by the other side and with the length of the send before it |
| `FlipcallData.LengthsArrive` | pkg/flipcall/flipcall.go:206-304 | in every run from the start: the lengths a side has sent are, in order, those its calls were made with, all but perhaps the last, and all of them once its last call has returned without an error; the lengths a side has received are, in order, those the calls of its peer were made with |
| `FlipcallData.RunData` | pkg/flipcall/flipcall.go:206-304 | the invariant behind it, that each user thread still owes exactly the length of its own call until it has sent it, holds after every run |
| `FlipcallData.ReceivedIsSent` | pkg/flipcall/flipcall.go:206-304 | in a log that alternates what one side received is what the other sent, up to a last message not yet read |
| `Flipcall.ShutdownRunsOnce` | pkg/flipcall/ctrl_futex.go:149-215 | in every run the control bits stay between 0 and 3, the panics are unreachable, the connection is shut down at most once per endpoint and only after its flag, and exactly once when its Shutdown has returned and no user thread still owes it |
| `Flipcall.NoLostWakeup` | pkg/flipcall/futex_linux.go:47-81 | in every run a sleeper whose word has changed has a wake pending on the peer, one whose flag is set has a wake pending on its own side, and the two users never sleep at once |
| `Flipcall.ShutdownStepIsFinal` | pkg/flipcall/ctrl_futex.go:201-215 | no step leaves the shutdown word, moves control or sends after it |
| `Flipcall.ShutdownIsFinal` | pkg/flipcall/ctrl_futex.go:201-215 | nor does any run |
| `FlipcallLiveness.EventuallyGoal` | pkg/flipcall/ctrl_futex.go:149-215 | on every fair infinite run, a plan whose helper thread is always runnable and lowers a rank reaches its goal |
| `FlipcallLiveness.SwapPlanSound` | pkg/flipcall/ctrl_futex.go:149-215 | such a plan leads from a set flag to the shutdown word |
| `FlipcallLiveness.ReturnPlanSound` | pkg/flipcall/ctrl_futex.go:124-174 | and from the shutdown word to the return of the call in progress |
| `FlipcallLiveness.StopPlanSound` | pkg/flipcall/ctrl_futex.go:176-199 | and to the return of Shutdown |
| `FlipcallLiveness.ShutdownTakesEffect` | pkg/flipcall/ctrl_futex.go:176-215 | on every fair run, once an endpoint has set its flag the shared word becomes the shutdown word |
| `FlipcallLiveness.EveryCallReturns` | pkg/flipcall/flipcall.go:189-304 | and then the call in progress on either side returns |
| `FlipcallLiveness.ShutdownReturns` | pkg/flipcall/ctrl_futex.go:176-199 | and Shutdown itself returns |
| `FlipcallCalls.ReturnedMeansShutDown` | pkg/flipcall/flipcall.go:137-151 | after Shutdown has returned and no call of that endpoint is in progress, the shared word is the shutdown word |
| `FlipcallCalls.DoomedStays` | pkg/flipcall/flipcall.go:137-151 | once the word is the shutdown word, a call at a point where it still has to look at the word stays on its way to a shutdown error in every run |
| `FlipcallCalls.CallAfterShutdownFails` | pkg/flipcall/flipcall.go:137-151 | in every run, a call made after the shutdown is still in progress or has returned a shutdown error |
| `FlipcallCalls.CallAfterShutdownReturns` | pkg/flipcall/flipcall.go:137-151 | on every fair run it does return one |
| `FlipcallCalls.SendPlanSound` | pkg/flipcall/futex_linux.go:28-45 | a plan of helpers and ranks leads from the start of a send, without any Shutdown, to the hand-over |
| `FlipcallCalls.MessageIsSent` | pkg/flipcall/futex_linux.go:28-45 | on every fair run an endpoint that has control and is sending hands it over, or a shutdown comes in between |
| `FlipcallCalls.ReceivePlanSound` | pkg/flipcall/futex_linux.go:47-66 | likewise from a message for a waiting endpoint to its receipt |
| `FlipcallCalls.MessageIsReceived` | pkg/flipcall/futex_linux.go:47-66 | on every fair run a waiting endpoint that has been handed control receives the message, or a shutdown comes in between |
| `Pool.StepKeepsHeld` | pkg/compressio/compressio.go:141-209 | a worker step moves a chunk along without losing, repeating or reordering what the worker holds |
| `Pool.SettledChannels` | pkg/compressio/compressio.go:337-364 | when no worker can step, the next input channel is free exactly if fewer than three chunks per worker are outstanding, and the next output is ready exactly if any is |
| `Pool.ForcedSchedule` | pkg/compressio/compressio.go:543-550 | worker steps alone always end, and then the forced schedule can proceed exactly if fewer than three chunks per worker are outstanding |
| `Pool.AtMostThreePerWorker` | pkg/compressio/compressio.go:282-296 | never more than three chunks per worker are outstanding |
| `Pool.SendKeeps` | pkg/compressio/compressio.go:353-356 | sending to the worker whose turn it is keeps every queue the round-robin share of the jobs |
| `Pool.ReceiveKeeps` | pkg/compressio/compressio.go:357-361 | receiving from the worker whose turn it is gets the result of the oldest job |
| `Pool.Pool.constructor` | pkg/compressio/compressio.go:282-296 | a pool with idle workers and nothing scheduled |
| `Pool.Pool.Select` | pkg/compressio/compressio.go:353-362 | for every choice of worker steps, waiting ends with one of the wanted channels ready |
| `Pool.Pool.Send` | pkg/compressio/compressio.go:343-356 | the job joins the end of the schedule and goes into the input channel of the worker after the last one used, and into no other |
| `Pool.Pool.Receive` | pkg/compressio/compressio.go:343-361 | the next result is the work of the next job in scheduling order, taken from the worker after the last one read |
| `Pool.Pool.Schedule` | pkg/compressio/compressio.go:317-364 | results reach the callback in scheduling order under every interleaving; every result but the last came without an error of its worker and of the callback, and the last decides: the error of the worker if there is one, else the answer of the callback; the job is scheduled exactly if there was no error; without a job it drains the pool |
| `Pool.Pool.Stop` | pkg/compressio/compressio.go:299-315 | every outstanding result is received in order and every worker ends idle |
| `Pool.Pool.ScheduleOrForce` | pkg/compressio/compressio.go:543-555 | after a callback that asks for a new buffer, the forced schedule is always within bounds, so the job is scheduled; any other error is returned as it came from a worker or the callback, and the pool is stopped with all results in order |
| `Framing.Uint32RoundTrip` | pkg/compressio/nocompressio.go:103-116 | the four-byte big-endian length decodes to itself |
| `Framing.HeaderDigits` | pkg/compressio/nocompressio.go:264-300 | byte 3 - j of a header is digit j of the length in base 256: the most significant first |
| `Framing.StreamSnoc` | pkg/compressio/nocompressio.go:264-315 | adding one chunk appends its frame, hashed over the chain so far |
| `Framing.ChainCommits` | pkg/compressio/nocompressio.go:264-287 | the last hash of a stream fixes all its chunks and their order: equally many other chunks end in the same hash only if two byte strings collide |
| `Framing.SimpleWriter.constructor` | pkg/compressio/nocompressio.go:206-223 | nothing written yet, with a buffer of the 32-bit sum of header, chunk and hash size, which is short for the 36 largest chunk sizes |
| `Framing.SimpleWriter.Fill` | pkg/compressio/nocompressio.go:245-251 | the buffer takes as much of the data as fits |
| `Framing.SimpleWriter.Write` | pkg/compressio/nocompressio.go:226-261 | accepted, refused after Close, or a panic, and the panic exactly when the buffer size wrapped and this data would be sliced beyond it; accepted data of any length goes where the chunking of the specification puts it: one chunk if the buffer is empty and it is at least a chunk long, else the open chunk is completed first; the output stays the framing of the chunks with a correct hash chain |
| `Framing.PutStep` | pkg/compressio/nocompressio.go:238-259 | that chunking, defined without the loop, is what filling a chunk at a time gives |
| `Framing.ChunksFlat` | pkg/compressio/nocompressio.go:226-347 | the chunks of any writes join to the written data |
| `Framing.ChunksFit` | pkg/compressio/nocompressio.go:238-287 | every chunk has a 32-bit length if and only if every stretch sent past the buffer has, which depends only on the chunk size and the lengths of the writes |
| `Framing.PositionMatters` | pkg/compressio/nocompressio.go:238-266 | a write of 2^32 bytes is too long on its own and not after one byte |
| `Framing.SimpleWriter.DirectWrite` | pkg/compressio/nocompressio.go:264-287 | one frame for data that bypasses the buffer, whatever its length |
| `Framing.SimpleWriter.Flush` | pkg/compressio/nocompressio.go:289-315 | the buffered data becomes one frame, an empty buffer none, and what was written stays the same |
| `Framing.SimpleWriter.Close` | pkg/compressio/nocompressio.go:318-347 | flushes and closes once, and fails the second time without effect |
| `Framing.SimpleReader.constructor` | pkg/compressio/nocompressio.go:82-92 | a reader at the start of a stream |
| `Framing.SimpleReader.NextChunk` | pkg/compressio/nocompressio.go:103-116 | any four bytes are taken as the length, and zero as no progress; on a written stream the end is reported exactly when no data is left |
| `Framing.SimpleReader.ReadData` | pkg/compressio/nocompressio.go:118-134 | delivers the next bytes of the chunk, however short the underlying read |
| `Framing.SimpleReader.EndChunk` | pkg/compressio/nocompressio.go:136-162 | on any input the chunk is accepted if and only if the hash that follows is that of the data, the length and the chain; on a written stream it always is |
| `Framing.SimpleReader.Deliver` | pkg/compressio/nocompressio.go:118-162 | data and, at the end of the chunk, its hash; bytes arrive exactly if both the capped request and the underlying read allow one |
| `Framing.SimpleReader.Read` | pkg/compressio/nocompressio.go:95-165 | on a written stream never fails and delivers the data in order, with progress if and only if the length of the buffer is not a multiple of 2^32, and the end exactly when nothing is left; a whole chunk of any stream is accepted if and only if its hash is right |
| `Framing.WriteAll` | pkg/compressio/nocompressio.go:226-347 | any writes and a close panic if and only if some write overruns the wrapped buffer, and otherwise give exactly the framing of their chunks |
| `Framing.ReadAll` | pkg/compressio/nocompressio.go:95-165 | reading a framing of chunks that fit gives a prefix, all of it at the end, the end after enough productive reads, and nothing from reads that cannot progress; if a frame follows that the reader refuses, the end is never reported, at most its data is let through, and enough productive reads fail |
| `Framing.RoundTrip` | pkg/compressio/nocompressio.go:95-347 | for any writes, read sizes and short reads: the writer panics exactly as in WriteAll; if the writes are sendable, a prefix of them comes back, all of it when the end is reported, and the end after enough reads of lengths that are not multiples of 2^32; if they are not, never the end and never all of the data, and enough such reads fail, unless the first oversized chunk embeds the hash of its own beginning |
| `Framing.BigFrame` | pkg/compressio/nocompressio.go:264-287 | a chunk of 2^32 bytes or more is read as a frame of its length modulo 2^32, which is refused if and only if that is zero or the data there is not the hash |
| `Framing.StalledReads` | pkg/compressio/nocompressio.go:118-118 | a stream whose reads into a buffer of 2^32 bytes deliver nothing, however many |
| `Framing.OverrunByOne` | pkg/compressio/nocompressio.go:221-246 | the smallest chunk size whose buffer wraps, and a one-byte write that panics |
| `Framing.Oversized` | pkg/compressio/nocompressio.go:264-287 | for any writes that are not sendable: all that was sent before the first oversized chunk comes back, and the next read makes no progress or finds a hash mismatch, exactly unless the data embeds the hash |
| `BufferViews.ChunkPoolIsTightest` | pkg/buffer/chunk.go:59-71 | the pool computed from the top bit is the first whose chunks are large enough, and exists up to the maximum size |
| `BufferViews.ChunkReturnsToItsPool` | pkg/buffer/chunk.go:96-103 | a chunk of a pool is put back into that pool |
| `BufferViews.CapacitySuffices` | pkg/buffer/chunk.go:81-94 | a new chunk is large enough |
| `BufferViews.Chunk.constructor` | pkg/buffer/chunk.go:81-94 | zeroed, with one reference |
| `BufferViews.Chunk.DecRef` | pkg/buffer/chunk.go:105-107 | takes one owner away and keeps the count equal to the owners |
| `BufferViews.Chunk.IncRef` | pkg/buffer/view.go:90-100 | adds one owner |
| `BufferViews.View.constructor` | pkg/buffer/view.go:59-64 | an empty view with a chunk of its own |
| `BufferViews.View.OfSize` | pkg/buffer/view.go:68-72 | a view of zeros with its own chunk |
| `BufferViews.View.WithData` | pkg/buffer/view.go:78-84 | a view of the given bytes with its own chunk |
| `BufferViews.View.Clone` | pkg/buffer/view.go:90-100 | a view of the same bytes on the same chunk; every other view shows what it did |
| `BufferViews.View.Release` | pkg/buffer/view.go:103-110 | the view no longer owns the chunk; every other view shows what it did |
| `BufferViews.View.TrimFront` | pkg/buffer/view.go:149-154 | drops the first bytes; every other view shows what it did |
| `BufferViews.View.Unshare` | pkg/buffer/view.go:249-252 | copies the chunk exactly when it is shared; the contents stay and no other view is affected |
| `BufferViews.View.GrowCap` | pkg/buffer/view.go:332-342 | a larger chunk of its own with the same contents; no other view is affected |
| `BufferViews.View.Grow` | pkg/buffer/view.go:319-330 | shows exactly as many bytes more, of its chunk if it has room and zeros of a new one otherwise; no other view is affected |
| `BufferViews.View.Leave` | pkg/buffer/view.go:332-342 | moving to a new chunk gives back exactly one reference to the old one and leaves every other view as it was |
| `BufferViews.View.Write` | pkg/buffer/view.go:243-259 | appends the bytes, on a chunk of its own; no other view is affected |
| `BufferViews.View.WriteAt` | pkg/buffer/view.go:300-316 | overwrites in place what fits, reports a short write or bad offset; no other view is affected |
| `BufferViews.View.Extend` | pkg/buffer/buffer.go:186-199 | grows the view into its chunk; with clearing, another view keeps its bytes if and only if it shows no nonzero byte of the cleared stretch |
| `BufferViews.SharedIsCounted` | pkg/buffer/view.go:121-123 | two views on one chunk are seen as sharing by the count alone |
| `BufferViews.RefCountIsSharers` | pkg/buffer/view.go:90-123 | the count of a chunk is never below the number of live views on it, and equal to it if and only if no view outside them still has a reference |
| `BufferViews.ClosedWithNew` | pkg/buffer/view.go:59-84 | a view with a chunk of its own can join a set of views that hold all the references to their chunks |
| `BufferViews.ClearingReachesClone` | pkg/buffer/buffer.go:192-195 | a concrete clone whose bytes are cleared by growing the original |
| `Buffers.Buffer.AppendOwned` | pkg/buffer/buffer.go:292-295 | the contents gain the view at the end, and with it its reference |
| `Buffers.Buffer.PrependOwned` | pkg/buffer/buffer.go:297-300 | the contents gain the view at the front, and with it its reference |
| `Buffers.Buffer.Append` | pkg/buffer/buffer.go:253-290 | the contents become the old ones followed by the source, in all of its branches; views outside are unaffected |
| `Buffers.Buffer.AppendView` | pkg/buffer/buffer.go:253-290 | the same for a source that is not nil, and the reference of a source that is used up is given back |
| `Buffers.Buffer.Prepend` | pkg/buffer/buffer.go:204-250 | the contents become the source followed by the old ones if the fill path is not taken or the source starts at zero; on the fill path the size is short by exactly the read offset of the source, so the condition is exact |
| `Buffers.Buffer.PrependView` | pkg/buffer/buffer.go:204-250 | the same for a source that is not nil, and no reference is lost on any path |
| `Buffers.PrependLosesByte` | pkg/buffer/buffer.go:234-242 | a concrete buffer that holds one byte, is given another, and still has size one |
| `Buffers.Buffer.PopFront` | pkg/buffer/buffer.go:35-38 | removing the first view drops exactly its bytes |
| `Buffers.Buffer.PopBack` | pkg/buffer/buffer.go:35-38 | removing the last view drops exactly its bytes |
| `Buffers.Buffer.AdvanceRead` | pkg/buffer/buffer.go:114-137 | drops the first bytes across views; the size stays the sum of the views and none is empty |
| `Buffers.Buffer.TrimFront` | pkg/buffer/buffer.go:79-85 | drops the first bytes, or all of them |
| `Buffers.Buffer.Truncate` | pkg/buffer/buffer.go:145-166 | keeps the first bytes across views |
| `Buffers.Buffer.Release` | pkg/buffer/buffer.go:71-76 | gives up every view; views outside are unaffected |
| `Buffers.CloneViews` | pkg/buffer/buffer.go:412-421 | one clone per view, in order, all distinct and new |
| `Buffers.Buffer.Clone` | pkg/buffer/buffer.go:412-421 | a new buffer with the same contents; no view is affected |
| `Buffers.Buffer.Merge` | pkg/buffer/buffer.go:486-493 | the contents become the concatenation and the other buffer empty |
| `Buffers.Buffer.ReadAt` | pkg/buffer/buffer.go:88-109 | delivers exactly the window of the contents, and the end exactly if short or at the end |
| `Buffers.Buffer.Read` | pkg/buffer/buffer.go:556-579 | moves bytes from the front of the contents to the output; what is read and what is left join to the old contents |
| `Buffers.Buffer.Locate` | pkg/buffer/buffer.go:312-338 | finds the view that holds the offset |
| `Buffers.Buffer.Extent` | pkg/buffer/buffer.go:341-347 | finds how many views the range spans and their length |
| `Buffers.CopyAll` | pkg/buffer/buffer.go:351-364 | the bytes of all the views are copied in order, and all but the first are released; other views are unaffected |
| `Buffers.Gather` | pkg/buffer/buffer.go:350-367 | one new unshared view holds the bytes of all the views, which are released |
| `Buffers.Buffer.MergeRange` | pkg/buffer/buffer.go:350-367 | the spanned views are replaced by one; the contents stay |
| `Buffers.Buffer.PullWithin` | pkg/buffer/buffer.go:316-333 | the slice of one view, unshared first |
| `Buffers.Buffer.PullAcross` | pkg/buffer/buffer.go:341-375 | the slice across views after merging them |
| `Buffers.Buffer.PullUp` | pkg/buffer/buffer.go:303-376 | succeeds exactly for a range inside the buffer; the slice is exactly those bytes, in an unshared chunk of the buffer; the contents and all other views stay |
| `Buffers.Buffer.GrowLast` | pkg/buffer/buffer.go:183-199 | one extension of the last view, with the exact condition under which another view changes |
| `Buffers.Buffer.GrowOnce` | pkg/buffer/buffer.go:176-200 | one turn of the loop |
| `Buffers.Buffer.GrowTo` | pkg/buffer/buffer.go:173-201 | reaches the length; the own contents are extended, with zeros if asked, if and only if clearing reaches no nonzero byte that a view of the buffer itself shows, and another view keeps its bytes under the same condition on it |
| `BufferRuns.Change` | pkg/buffer/buffer.go:71-376 | each of seven operations on one buffer does to its contents what it does to a byte sequence, keeps every view outside, and loses no chunk reference |
| `BufferRuns.OneChanged` | pkg/buffer/buffer.go:71-376 | so every other buffer of a store still holds what it held |
| `BufferRuns.CountsAreViews` | pkg/buffer/view.go:90-123 | with no leaks the count of every chunk is the number of views of the buffers and outside them on that chunk |
| `BufferRuns.CopyBuffer` | pkg/buffer/buffer.go:412-421 | a clone joins the store, shares every chunk, and holds the same bytes |
| `BufferRuns.MergeBuffers` | pkg/buffer/buffer.go:486-493 | the one buffer takes the bytes of the other and the rest of the store stays |
| `BufferRuns.Do` | pkg/buffer/buffer.go:71-493 | every step on a store refines the step on byte sequences, and keeps every view outside the store |
| `BufferPools.Edit` | pkg/buffer/view.go:149-316 | writing, overwriting or trimming one view does so to its bytes alone, however its chunk is shared |
| `BufferPools.CloneOf` | pkg/buffer/view.go:90-100 | a clone joins the views with the same bytes |
| `BufferPools.Free` | pkg/buffer/view.go:103-110 | a released view leaves, and its reference with it |
| `BufferPools.Give` | pkg/buffer/buffer.go:204-290 | an existing view given to the front or the back of a buffer adds exactly its bytes there, and nothing else changes |
| `BufferPools.Perform` | pkg/buffer/buffer.go:71-493 | every action that does not go wrong refines the action on byte sequences |
| `BufferPools.Execute` | pkg/buffer/buffer.go:71-493 | for every sequence of operations on any number of buffers and views, clones, merges, writes to shared chunks and views given to buffers included, up to the first trim past the end or faulty prepend: each buffer and view shows what the same run on separate byte sequences gives, and every chunk is counted exactly once for each view on it |
| `LisafsTree.PathsAreUnique` | pkg/lisafs/node.go:174-184 | two live nodes with the same path are the same node |
| `LisafsTree.PathSplits` | pkg/lisafs/node.go:174-184 | the path of a node under another is the path of that one followed by the names between |
| `LisafsTree.DetachKeeps` | pkg/lisafs/node.go:214-230 | taking a child out of its table keeps the tree invariant with that child loose |
| `LisafsTree.BuriedKeeps` | pkg/lisafs/node.go:280-293 | marking a whole subtree deleted keeps the invariant and settles its loose root |
| `LisafsTree.MoveKeeps` | pkg/lisafs/handlers.go:1321-1387 | placing a loose subtree under another directory keeps the tree acyclic and its tables in agreement |
| `LisafsTree.MovePath` | pkg/lisafs/handlers.go:1321-1387 | and rewrites exactly the paths in the subtree, by their prefix |
| `LisafsTree.RenamePath` | pkg/lisafs/handlers.go:1321-1387 | after a rename or exchange every node in a moved subtree has exactly its prefix replaced, and every other path is unchanged |
| `LisafsTree.RenameDeleted` | pkg/lisafs/handlers.go:1321-1387 | exactly the replaced subtree of a plain rename becomes deleted, and no node appears or disappears |
| `LisafsTree.RenameKeepsInv` | pkg/lisafs/handlers.go:1321-1387 | the tree stays acyclic, consistent and path-injective |
| `LisafsTree.RenameCorrect` | pkg/lisafs/handlers.go:1321-1387 | the three together, for every node |
| `LisafsServer.RenamedLive` | pkg/lisafs/handlers.go:1321-1387 | and every entry of a live directory is still live |
| `LisafsServer.Server.constructor` | pkg/lisafs/server.go:68-75 | a tree that is only its root |
| `LisafsServer.MarkIsBuried` | pkg/lisafs/node.go:280-293 | following the child tables reaches every live node of the subtree, so marking them equals marking everything under it |
| `LisafsServer.Server.MarkDeletedRecursive` | pkg/lisafs/node.go:280-293 | the recursion over the child tables terminates and marks exactly the nodes it reaches |
| `LisafsServer.MarkLive` | pkg/lisafs/node.go:280-293 | marking a detached subtree leaves no live directory with a dead entry |
| `LisafsServer.Server.RemoveChild` | pkg/lisafs/node.go:214-230 | returns and detaches the child of that name |
| `LisafsServer.Server.Rehome` | pkg/lisafs/handlers.go:1346-1385 | gives a node its new parent, name and table entry |
| `LisafsServer.Server.UpdateTree` | pkg/lisafs/handlers.go:1321-1387 | the sequence of updates equals the rename of the specification |
| `LisafsServer.Server.RenameAt` | pkg/lisafs/handlers.go:1297-1387 | the error is decided by the names, the deleted flags and the host in that order, and the tree is renamed exactly on success between two places and otherwise untouched |
| `LisafsServer.Server.Unlink` | pkg/lisafs/handlers.go:1239-1269 | the error likewise, and on success the child and everything under it is deleted |
| `LisafsServer.UnlinkCorrect` | pkg/lisafs/handlers.go:1239-1269 | after an unlink exactly the nodes under the child are newly deleted, no path changes and the invariant holds |
| `LisafsServer.UnlinkedLive` | pkg/lisafs/handlers.go:1239-1269 | and every entry of a live directory is still live |
| `LisafsServer.CreatedKeeps` | pkg/lisafs/node.go:133-141 | a new node under a live directory keeps the invariant |
| `LisafsServer.CreatedPath` | pkg/lisafs/node.go:133-141 | and changes no other path |
| `LisafsServer.CreatedLive` | pkg/lisafs/node.go:133-141 | and leaves every entry of a live directory live |
| `LisafsServer.Server.Step` | pkg/lisafs/handlers.go:119-133 | one component of a walk finds the child or makes it, unless the directory is deleted |
| `LisafsServer.Server.Walk` | pkg/lisafs/handlers.go:103-148 | fails exactly for an unsafe name or when the host does, and then the tree is as before; otherwise the node is live, has exactly the walked path, and is the one that had it if there was one, and every old node keeps its path and deleted flag |
| `LisafsNames.SafeNameIff` | pkg/lisafs/handlers.go:1570-1575 | a name is safe if and only if, put after the path of a directory and resolved with dots as usual, it leads to that directory followed by one more component, the name |
| `LisafsServer.Server.Unwind` | pkg/lisafs/handlers.go:106-111 | giving back the references of a failed walk takes out exactly the nodes it made |
| `LisafsServer.UndoCreated` | pkg/lisafs/node.go:109-141 | destroying a node just made is the inverse of making it |
| `LisafsServer.OnlyThatPath` | pkg/lisafs/node.go:174-184 | a node that had the walked path before is the one found |
| `LisafsServer.Server.FilePath` | pkg/lisafs/node.go:174-184 | the loop up the parents renders the path from the root |
| `LisafsServer.JoinInjective` | pkg/lisafs/node.go:174-184 | joining safe names with slashes loses nothing |
| `LisafsServer.FilePathsAreUnique` | pkg/lisafs/node.go:174-184 | two live nodes with the same rendered path are the same node |
| `LisafsNames.FilePathResolves` | pkg/lisafs/node.go:174-184 | and the rendered path, split at its slashes and resolved, is the path of the node |
| `LisafsServer.DestroyKeepsIffNameFree` | pkg/lisafs/node.go:109-126 | the exact condition: destroying a childless node keeps the tree invariant if and only if its name in its parent was not taken by another node since |
| `LisafsServer.DestroyKeepsServer` | pkg/lisafs/node.go:109-126 | the same condition for the whole invariant of the server: tables, live entries, safe names and fresh numbers |
| `LisafsServer.ReuseName` | pkg/lisafs/node.go:109-126 | a reachable tree in which destroying an unlinked node detaches the live node that took its name |
| `LisafsServer.Server.DestroyNode` | pkg/lisafs/node.go:109-126 | the destruction of the model is what the code does |
| `LisafsChildren.ChildTable.constructor` | pkg/lisafs/node.go:133-141 | an empty table |
| `LisafsChildren.ChildTable.Lookup` | pkg/lisafs/node.go:147-158 | both representations of the table are one map |
| `LisafsChildren.ChildTable.Remove` | pkg/lisafs/node.go:214-230 | removes exactly that name and returns its node |
| `LisafsChildren.ChildTable.Insert` | pkg/lisafs/node.go:235-258 | adds the name, in a free static slot, in the map, or after the shift; the table stays one map if and only if the name is not already there while a slot is free |
| `LisafsChildren.TwiceIsUntidy` | pkg/lisafs/node.go:235-245 | a name put into a second slot is a table with two answers |
| `LisafsChildren.ChildTable.Shift` | pkg/lisafs/node.go:246-255 | moving to the map loses and repeats no child |
| `LisafsRefs.LiveIsNeeded` | pkg/lisafs/node.go:109-126 | every object that is not the root is held, through a chain of parents and nodes, by one that is in use |
| `LisafsRefs.LiveIffNeeded` | pkg/lisafs/node.go:109-126 | an object is live if and only if it is the root or some tracked or borrowed object leads to it, so nothing leaks and nothing in use is destroyed |
| `LisafsRefs.UnusedIsEmpty` | pkg/lisafs/connection.go:276-282 | with no tracked and no borrowed reference only the root is left |
| `LisafsRefs.TakenKeeps` | pkg/lisafs/connection.go:285-295 | taking a reference keeps every count equal to its holders |
| `LisafsRefs.DroppedKeeps` | pkg/lisafs/fd.go:101-105 | so does giving back one that is not the last |
| `LisafsRefs.DestroyedKeeps` | pkg/lisafs/fd.go:108-117 | so does destroying the object with the last one, which passes a reference to its parent or node on to be dropped |
| `LisafsRefs.MadeKeeps` | pkg/lisafs/fd.go:125-135 | so does a new object that takes over a reference |
| `LisafsRefs.TrackedKeeps` | pkg/lisafs/connection.go:347-358 | so does handing a reference to the connection |
| `LisafsRefs.UntrackedKeeps` | pkg/lisafs/connection.go:361-370 | so does taking it back |
| `LisafsRefs.Server.constructor` | pkg/lisafs/server.go:68-75 | only the root, held by the server |
| `LisafsRefs.Server.IncRef` | pkg/lisafs/connection.go:285-295 | one more reference, and every count still right |
| `LisafsRefs.Server.Drop` | pkg/lisafs/fd.go:101-105 | one less, with nothing destroyed |
| `LisafsRefs.Server.Destroy` | pkg/lisafs/fd.go:108-117 | exactly this object goes, and the reference it held is next |
| `LisafsRefs.Server.DecRef` | pkg/lisafs/node.go:109-126 | the cascade of destructions terminates, gives back exactly one reference, destroys only what the object led to, keeps kind and target of the rest, and leaves every count right |
| `LisafsRefs.Server.InitNode` | pkg/lisafs/node.go:133-141 | a new node that holds its parent |
| `LisafsRefs.Server.InitControl` | pkg/lisafs/fd.go:125-135 | a control FD of this connection on that node, with one reference, tracked under a new number, that takes over the reference to its node; nothing else changes |
| `LisafsRefs.Server.InitOn` | pkg/lisafs/fd.go:271-332 | an open or bound FD of the connection of its control FD, tracked there under a new number, that holds the control FD; kind and target of everything else stay |
| `LisafsRefs.Server.LookupFD` | pkg/lisafs/connection.go:285-295 | a borrowed reference exactly when the number is tracked |
| `LisafsRefs.Server.InsertFD` | pkg/lisafs/connection.go:347-358 | a number not in use, given the reference; the FD is tracked under one number if and only if it was not tracked before |
| `LisafsRefs.TrackedAtMostOnce` | pkg/lisafs/connection.go:347-358 | so a connection holds at most one reference on an FD in every state of the server |
| `LisafsRefs.Server.RemoveFD` | pkg/lisafs/connection.go:361-370 | untracks exactly that number and drops its reference, or does nothing |
| `LisafsRefs.Server.Close` | pkg/lisafs/connection.go:276-282 | in any order, untracks everything of the connection and nothing of another; no FD of the connection is left unless a borrowed one of that connection leads to it, so none at all when none is borrowed |
| `LisafsRefs.UntrackedConn` | pkg/lisafs/connection.go:276-282 | with nothing tracked, every FD of a connection that is left is led to by a borrowed FD of that connection |
| `LisafsRefs.LeadsWithinConn` | pkg/lisafs/fd.go:271-332 | an FD is only ever led to by FDs of its own connection |
| `LisafsRefs.Server.Reparent` | pkg/lisafs/handlers.go:1357-1380 | dropping the reference to the old parent and taking one on the new keeps every count right and destroys nothing |
| `LisafsRefs.MovedKeeps` | pkg/lisafs/handlers.go:1357-1380 | the old parent has another reference at that point, and the counts are right after the move |
| `LisafsLink.LastReferenceIsChildless` | pkg/lisafs/node.go:109-126 | in the tree and the counts together, a node on its last reference has no children |
| `LisafsLink.LastReferenceDestroys` | pkg/lisafs/node.go:109-126 | destroying it keeps the two in agreement and the counts right, and the tree consistent if and only if its name has not been taken since |
| `LisafsLink.MoveMovesReference` | pkg/lisafs/handlers.go:1357-1380 | moving a node in the tree and moving its parent reference keep the two in agreement |
| `LisafsRuns.LeadsIsUnder` | pkg/lisafs/node.go:174-184 | being above in the tree and being led to by parent references are the same |
| `LisafsRuns.MoveStep` | pkg/lisafs/handlers.go:1357-1380 | one move of a rename on tree and counts together keeps both and their agreement |
| `LisafsRuns.RenameStep` | pkg/lisafs/handlers.go:1321-1387 | so does a whole rename or exchange, given FDs open on the two directories |
| `LisafsRuns.LastStep` | pkg/lisafs/node.go:109-126 | giving back a last reference keeps them if and only if the object is not a node that has lost its name to another |
| `LisafsRuns.StepKeeps` | pkg/lisafs/handlers.go:103-1387 | every step of lookups, creations, unlinks, renames, exchanges, FDs, tracking and drops keeps tree, counts and agreement if and only if it is not that one |
| `LisafsRuns.RunGoesOn` | pkg/lisafs/handlers.go:103-1387 | so after any run exactly the steps that are not faulty can follow |
| `LisafsRuns.RunIsSafe` | pkg/lisafs/handlers.go:103-1387 | in every run from a new server the nodes of the tree are exactly the live ones, the root and what FDs and references in hand lead to, and live nodes have distinct paths |
| `LisafsRuns.FaultIsReached` | pkg/lisafs/node.go:109-126 | a run of three steps after which giving back a reference is the faulty step |
| `Erofs.UpToZero` | pkg/erofs/erofs.go:760-764 | the name up to its first zero byte |
| `Erofs.DirentsBeforeNames` | pkg/erofs/erofs.go:772-782 | an accepted first entry lies inside the image and says how many whole entries come before the names, at least one and all inside the block |
| `Erofs.NameInBlock` | pkg/erofs/erofs.go:743-769 | an accepted name is a nonempty stretch of the block of legal length, ending where the next one begins or, for the last, at a zero byte or the end of the block |
| `Erofs.IterBlock` | pkg/erofs/erofs.go:884-898 | the loop over one block visits its entries in order up to the first error |
| `Erofs.IterDirents` | pkg/erofs/erofs.go:872-901 | the loop over the blocks visits the whole directory in order up to the first error; on a directory that was written from a list of entries that is the list, by DirectoryReadsBack |
| `ErofsLayout.BlockIsSlice` | pkg/erofs/erofs.go:700-714 | the stretch of the image given for a block is that stretch of the data of the inode, for every block, the inline tail included |
| `ErofsLayout.BlocksAreData` | pkg/erofs/erofs.go:654-714 | so all blocks in order join to the data as DataRanges gives it |
| `ErofsLayout.DirentReadsBack` | pkg/erofs/erofs.go:188-201 | a dirent written byte by byte in little-endian order is read with its inode number, name offset and type |
| `ErofsLayout.BlockReadsBack` | pkg/erofs/erofs.go:743-781 | a block written from entries, dirents first, then names, then zeros, is scanned to exactly these entries |
| `ErofsLayout.DirectoryReadsBack` | pkg/erofs/erofs.go:872-901 | a directory written from a list of names, types and inode numbers, cut into blocks in any way that fits, with or without an inline tail, is scanned back to the list |
| `ErofsLayout.WrittenIsFound` | pkg/erofs/erofs.go:785-868 | and if the list is sorted, the answer of the scan, which Lookup gives, is the inode number of the entry with the name, and not found if there is none |
| `Erofs.CompareOrder` | pkg/erofs/erofs.go:802-867 | byte order on names is zero only for equal names and antisymmetric |
| `Erofs.CompareTransitive` | pkg/erofs/erofs.go:802-867 | and transitive |
| `Erofs.CompareAtFirstDifference` | pkg/erofs/erofs.go:814-860 | and decided by the first byte that differs, a proper prefix coming first |
| `Erofs.CellScanned` | pkg/erofs/erofs.go:872-901 | every cell of the two-level table is the entry visited at its place |
| `Erofs.EntryInTable` | pkg/erofs/erofs.go:872-901 | and every visited entry is in a cell |
| `Erofs.CellsSorted` | pkg/erofs/erofs.go:802-867 | in a directory sorted as visited, cells are sorted across blocks |
| `Erofs.FindBlock` | pkg/erofs/erofs.go:802-830 | on a readable directory a hit is an entry the scan visits; on a sorted one a miss leaves the last block that starts below the name, with the next above it |
| `Erofs.FindDirent` | pkg/erofs/erofs.go:837-867 | likewise inside the block: a hit is visited, and on a sorted directory a miss excludes every cell |
| `Erofs.LookupIn` | pkg/erofs/erofs.go:832-868 | the second search decides the lookup once the block is known |
| `Erofs.Lookup` | pkg/erofs/erofs.go:785-868 | on any readable directory, sorted or not, a returned nid is one the linear scan visits under that name, and the only error is not found; if it is also strictly sorted and no block is at offset zero, a nid is returned if and only if the scan visits the name with it, and not found if and only if it never does |
| `BitWords.AndBits` | pkg/bitmap/bitmap.go:205-219 | the members of a bitwise and are the common ones |
| `BitWords.OrBits` | pkg/bitmap/bitmap.go:136-148 | of a bitwise or, those of either |
| `BitWords.XorBits` | pkg/bitmap/bitmap.go:190-203 | of a bitwise exclusive or, those of exactly one |
| `BitWords.NotBits` | pkg/bitmap/bitmap.go:190-219 | of a complement, the positions that are not set |
| `BitWords.HighBits` | pkg/bitmap/bitmap.go:190-219 | all ones shifted left by k are the positions from k on, also for a shift by the whole width |
| `BitWords.LowBits` | pkg/bitmap/bitmap.go:190-219 | one shifted left by k, minus one, are the positions below k, also where the shift drops the one |
| `BitWords.OneBits` | pkg/bitmap/bitmap.go:136-159 | one shifted left by k is position k alone |
| `BitWords.NonzeroBits` | pkg/bitmap/bitmap.go:262-310 | a word is zero if and only if it has no members |
| `BitWords.LowestBits` | pkg/bitmap/bitmap.go:262-310 | the word and its negation leave the smallest member, the ones below it count its position, and the exclusive or takes exactly it away |
| `Bitmap.BitSet.constructor` | pkg/bitmap/bitmap.go:41-46 | an empty set; the number of blocks is computed in 32 bits, so the largest sizes give none |
| `Bitmap.BitSet.Add` | pkg/bitmap/bitmap.go:136-148 | for every 32-bit index: the set gains the bit, blocks are added as needed, and the count stays right |
| `Bitmap.BitSet.Remove` | pkg/bitmap/bitmap.go:151-159 | panics exactly beyond the last block, and otherwise the set loses the bit and the count stays right |
| `Bitmap.BitSet.GetNumOnes` | pkg/bitmap/bitmap.go:313-315 | the cached count is the size of the set if and only if the set is not all of 2^32 indexes, where it reads zero |
| `Bitmap.BitSet.FirstOne` | pkg/bitmap/bitmap.go:103-122 | the least member from the start on, or an error if and only if there is none |
| `Bitmap.BitSet.FirstZero` | pkg/bitmap/bitmap.go:81-100 | the least index from the start on that is inside the blocks and not a member, or an error if and only if there is none |
| `Bitmap.BitSet.CountBlocks` | pkg/bitmap/bitmap.go:170-178 | the ones of the blocks from the first to the last, both included |
| `Bitmap.BitSet.CountAll` | pkg/bitmap/bitmap.go:181-187 | the ones of all blocks |
| `Bitmap.TotalIsCard` | pkg/bitmap/bitmap.go:181-187 | that total is the size of the set |
| `Bitmap.BitSet.FlipBlocks` | pkg/bitmap/bitmap.go:190-203 | the mask arithmetic on 64-bit words, for every pair of bounds: exactly the range is flipped block by block when the blocks of the bounds are in order, and a stated other stretch when they are not; panics exactly outside the bitmap |
| `Bitmap.BitSet.ClearBlocks` | pkg/bitmap/bitmap.go:206-219 | likewise for clearing |
| `Bitmap.BitSet.FlipAcross` | pkg/bitmap/bitmap.go:194-202 | the first, the inner and the last block of a range over several blocks, also when the last comes first |
| `Bitmap.BitSet.ClearAcross` | pkg/bitmap/bitmap.go:210-218 | likewise for clearing |
| `Bitmap.FlippedBits` | pkg/bitmap/bitmap.go:190-203 | flipped by blocks, a bit is toggled if and only if it is in the range |
| `Bitmap.ClearedBits` | pkg/bitmap/bitmap.go:206-219 | cleared by blocks, a bit stays if and only if it is outside the range |
| `Bitmap.FlipIsRight` | pkg/bitmap/bitmap.go:190-203 | the words after the masks are the flipped range if and only if the range is handled: the end is not zero and the block of the start is not after that of the last index |
| `Bitmap.ClearIsRight` | pkg/bitmap/bitmap.go:206-219 | and the cleared range if and only if it is handled or none of the bits that would be cleared were set before |
| `Bitmap.ClearsNothing` | pkg/bitmap/bitmap.go:206-219 | clearing leaves the words as they were if and only if none of those bits were set |
| `Bitmap.Recount` | pkg/bitmap/bitmap.go:230-233 | adjusting the count by the blocks of the range gives the count of the whole set if and only if the blocks outside have as many ones as before |
| `Bitmap.AdjustedRight` | pkg/bitmap/bitmap.go:233-233 | the wrapping 64-bit subtraction and 32-bit addition give the true count modulo 2^32 |
| `Bitmap.FlipOutside` | pkg/bitmap/bitmap.go:238-251 | which of the unhandled flips leave the blocks outside with as many ones |
| `Bitmap.ClearOutside` | pkg/bitmap/bitmap.go:222-235 | and which of the unhandled clears |
| `Bitmap.BitSet.FlipRange` | pkg/bitmap/bitmap.go:238-251 | for all 32-bit bounds: panics exactly outside the bitmap and at its end when few blocks are covered; otherwise the effect is exact, flips exactly the range if and only if the range is handled, and the count is right afterwards if and only if a stated condition on the words holds |
| `Bitmap.BitSet.ClearRange` | pkg/bitmap/bitmap.go:222-235 | for all 32-bit bounds likewise: the range is cleared if and only if it is handled or, on the words before the call, there was nothing to clear; with the exact condition for the count |
| `Bitmap.EmptyRangeFlips` | pkg/bitmap/bitmap.go:238-251 | a concrete bitmap that the empty range at 64 changes and whose count is wrong afterwards |
| `Bitmap.EmptyRangeClears` | pkg/bitmap/bitmap.go:222-235 | a concrete bitmap that loses members to an empty clear |
| `Bitmap.EndRangePanics` | pkg/bitmap/bitmap.go:238-251 | two blocks and the range from 127 to 128: the count asks for the block after the last |
| `Bitmap.BitSet.ForEach` | pkg/bitmap/bitmap.go:262-289 | visits exactly the members of the range in increasing order up to the first refusal, unless rounding the end up to a block wraps, and then it visits nothing |
| `Bitmap.WrappedEndVisitsNothing` | pkg/bitmap/bitmap.go:262-266 | a concrete bitmap with a member that a visit of the whole 32-bit range does not see |
| `Bitmap.VisitBits` | pkg/bitmap/bitmap.go:276-286 | peeling the lowest bit off a masked word visits its members in order |
| `Bitmap.BitSet.ToSlice` | pkg/bitmap/bitmap.go:293-310 | the members, each once, in increasing order, by peeling off lowest bits |
| `BitmapFormat.DecimalValue` | pkg/bitmap/format.go:39-71 | decimal digits read back to the number |
| `BitmapFormat.SplitJoin` | pkg/bitmap/format.go:114-137 | splitting at a separator undoes joining parts without it |
| `BitmapFormat.TokenParses` | pkg/bitmap/format.go:76-103 | the token of a run parses to that run |
| `BitmapFormat.PaddedTokenParses` | pkg/bitmap/format.go:120-128 | so does it with any spaces around it |
| `BitmapFormat.CutAtEnd` | pkg/bitmap/format.go:117-119 | what follows the first newline or zero character is ignored |
| `BitmapFormat.ListParses` | pkg/bitmap/format.go:114-137 | the list of any runs parses to those runs |
| `BitmapFormat.ParsesAll` | pkg/bitmap/format.go:114-137 | the runs before the first bad token are all of them if and only if the list parses |
| `BitmapFormat.LoopEndsIff` | pkg/bitmap/format.go:132-134 | the 32-bit loop counter passes the end of the range if and only if that is not the largest number |
| `BitmapFormat.AddRange` | pkg/bitmap/format.go:132-134 | the loop adds exactly the range, if it ends |
| `BitmapFormat.Runs` | pkg/bitmap/format.go:39-71 | the loop cuts increasing indices into runs that cover exactly them, with a number missing between each and the next |
| `BitmapFormat.FormatList` | pkg/bitmap/format.go:28-74 | the text parses to runs that cover exactly the members and have a gap between each and the next |
| `BitmapFormat.FewestRuns` | pkg/bitmap/format.go:39-71 | no list of runs for the same numbers is shorter than one with gaps |
| `BitmapFormat.ParseList` | pkg/bitmap/format.go:114-137 | token by token: never returns if and only if a run before the first bad token ends at 2^32-1; fails if and only if it returns and some token is bad; otherwise holds exactly the union of the ranges |
| `BitmapFormat.LargestNumberIsEndless` | pkg/bitmap/format.go:114-137 | parsing 4294967295 does not end |
| `BitmapFormat.RoundTrip` | pkg/bitmap/format.go:28-137 | for every bitmap: parsing what was formatted never returns if and only if 2^32-1 is a member, and otherwise gives a bitmap with the same members |

## Left out

- Optimizer.Optimize: meaning is preserved under `LoadsUndisturbed`; that condition is exact for each pair of a load and an instruction between (`DropsSafelyIffNoInterference`), not for each whole program, since a disturbed program can return the same value by chance.
- Erofs.Lookup: on a directory that is not readable only termination and the not-a-directory error are stated.
- LisafsServer.Server.RenameAt: what the host allows is an input (`Allowed`): it refuses to move a directory under itself and to replace or exchange with a directory above the source.
- LisafsServer.Server.Walk: the errors of the host mount are one input, and a walk that meets a deleted node cannot happen in a tree of this server, since every entry of a live directory is live.
- LisafsRefs.Server.InitOn: a step taken as a whole; the code publishes the FD before it takes the reference on the control FD, and what another request could see in between is not modelled (also for InitControl).
- LisafsRefs.Server.Reparent: the code gives back the old parent's reference before it takes the new one; the model does the same, and asks for a second holder of the old parent, as the control FD of the directory is.
- Bitmap.BitSet.FlipRange: the partial writes before an index panic are not described (also for ClearRange).
- Bitmap.BitSet.Add: bitmaps of more than 2^32 bits, which only repeated `Grow` calls can make, are not modelled (also for the other methods).
- BitmapFormat.ParseList: what the bitmap holds while a parse does not end is not described.
- Framing.SimpleWriter.Write: the underlying writer never fails.
- BufferPools.Execute: `GrowTo` and `Grow` are not among the actions, since the one can change other buffers and both can show bytes that no model of contents gives; their own contracts say what they do.
- LisafsRuns.StepKeeps: a request is the sequence of its steps, each taken as a whole; requests that the host refuses take no step here.
- BufferViews.RefCountIsSharers: a view that is dropped without `Release` keeps its reference, as in the code.
- Position of a run-time error: removing instructions changes it, so outcomes are compared without it.
- Native byte order is taken as one of the two orders; BPF text decoding, `String` methods and raw bytecode casts.
- Slices of instructions are an array and a length; the capacity and sharing of Go slices beyond that.
- Flipcall: the handshake message is a token, futex calls do not fail, and memory is sequentially consistent. The comment on the shutdown flag says that a peer's acknowledgement sets it too; the code does not, and the model follows the code.
- Pool.Pool.Schedule: the work on a chunk is a function of the chunk; that a compressing worker keeps a used hash state after an error is not modelled.
- Compressio: flate and HMAC are arbitrary functions; `Reader.Read` and `Writer.Write` around the pool, inline buffer reuse, overflow of the job counters, and the unkeyed simple streams.
- Buffers: the memory of a chunk is a sequence replaced as a whole, chunk recycling through `sync.Pool` is not modelled, the intrusive view list is a sequence, and `ReadFrom`, `Apply`, `Checksum`, `Flatten` and the reader and writer adapters are easy on top of what is there.
- LISAFS: critical sections are atomic steps; the other handlers, `Listen` and `Accept`, FD number overflow, and host implementations.
- ErofsLayout.BlocksAreData: an inode with inline data has a nonempty tail, which the inode decoding checks (`pkg/erofs/erofs.go:485`) and the model takes from it (also for BlockIsSlice and DirectoryReadsBack).
- EROFS: a callback that stops the iteration, 64-bit wrap of block offsets, inode decoding, symlinks and the superblock.
- Bitmap: `Minimum`, `Maximum`, `Grow`, `Reset` and `Clone` would only add easy members; the population count is taken as the size of the set of bits.
- Other packages (asynchronous I/O, CPU features, time, logging, coverage, the rest of the sandbox).
