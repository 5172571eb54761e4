# Verification of the FFT library

A Dafny model of the parts of the library whose results are decided by the code alone, and proofs that they
give what they promise. Floating-point values are elements of an arbitrary commutative ring with roots of
unity; `Residues` shows that such rings exist, `Twins` that they exist with a conjugation. Methods follow the
loops and updates of the source and are proved against specification functions; the lemmas say what those mean.

- **Transforms and plans** (`Algebra`, `Roots`, `PrincipalRoot`, `Transform`, `NumberTheory`, `Generator`, `Rader`,
  `Bluestein`, `Memory`, `Buffers`, `Tables`, `Twiddle`, `Convolutions`, `Plans`, `ScratchMemory`, `Execution`): every tree of
  direct, loop, Cooley-Tukey, Rader and Bluestein nodes that solves a complex problem writes the textbook sums at
  exactly the output addresses, with the buffers the library uses.
- **The planner** (`Policies`, `Factorize`, `KernelChoice`, `Factorization`, `WisdomTable`, `Strategies`, `Choices`, `Recalling`,
  `Planner`, `Library`): the search ends, finds a plan exactly when one exists, remembers the strategy that made it, and
  never meets a remembered strategy it cannot rebuild, whatever the timing results are; without measurements its choice
  is the one that `Choices` describes. `Library.ComputeTransform` plans and executes; `Library.PlanTwice` plans again by
  what was remembered. Factor lists hold kernel lengths and primes.
- **The compositor and threads** (`Compositor`, `Parallel`): the older one-level-a-factor execution through two buffers,
  for every ordering of the factors, serial or split between threads.
- **Real transforms** (`RealSpectrum`, `RealKernels`, `RealStages`, `RealPlans`, `RealRader`): the stages from real input to half
  spectra, each index written once and nothing beyond, and the Rader stage that rebuilds columns by conjugation.
- **Register allocation** (`Liveness`, `Operations`, `LiveRanges`, `ColoredRun`, `Coloring`, `Spilling`, `SpilledFunction`,
  `Finalization`, `Turns`, `Allocation`): from instructions over virtual registers to instructions over physical registers and
  stack slots. `Allocation.Finalize` runs liveness, live ranges, interference, colouring and any number of spills,
  and says of the states it goes through why it gives up if it does;
  `Finalization.AllocationPreservesRuns` says that what it returns computes what the function computes.
- **Kernel passes** (`AlgoPasses`, `AlgoTwiddles`): renaming, isolation of reads and writes, and twiddle factors on
  straight-line kernel programs.
- **Object files** (`ElfFormat`, `ElfImage`, `ElfWriter`, `ElfReader`): the two-pass ELF writer fills the size it computed, and a
  reader that checks the file header recovers every function (System V gABI, chapter 4 "Object Files").
- **8-point Q0.7 kernels** (`DotKernels`): the four vector kernels against the scalar reference.

Where the code differs from its own comments the model follows the code: `factorize_square` calls the first useful
kernel length the highest one, which holds for the list of generated kernels; the lists of precompiled kernels ascend, so
with them it always takes the largest length that divides instead of one near the root (`KernelChoice.PickedGreedy`,
`Factorization.FloatingNotSquare`, and `KernelChoice.SquareSplit` for descending lists), and `factorize` never returns
the other list (`Factorization.FactorsOf`); `twiddle_algo` speaks of duplicate products of
an input, but each occurrence gets a variable of its own, so none is removed; `isolate_writes`
(src/providers/jit/algo.cpp:66) erases under a name that it has just replaced, so it fails for exactly the programs that
read an output (`AlgoTwiddles.IsolateWrites`).

## Model

| member | source | states |
|---|---|---|
| Library.ComputeTransform | src/planner/planner.cpp:287-372 | for every length, batch, stride, direction, option set and order of timing results, a floating-point complex problem is planned, and executing the plan leaves exactly the textbook sums at exactly the output addresses, also in place |
| Execution.Execute | src/planner/strategies/cooley_tukey.hpp:591-599 | any plan tree that solves a problem writes the transform of every batch member, touches nothing else, returns the buffer stack as it was, and touches the Rader and Bluestein buffers only if it contains such a node |
| Execution.ExecuteCooleyTukey | src/planner/strategies/cooley_tukey.hpp:591-599 | the two stages run through a stack buffer that no live plan holds and that is released again |
| Execution.ExecuteStages | src/planner/strategies/cooley_tukey.hpp:591-599 | stage 1 into the packed buffer and the twiddled stage 2 out of it compute the transform at exactly the output addresses |
| Execution.ExecuteAb | src/planner/strategies/cooley_tukey.hpp:110-119 | the untwiddled first column and one twiddled kernel call for the rest compute every twiddled column |
| Execution.ExecuteAc | src/planner/strategies/cooley_tukey.hpp:362-376 | one kernel call per column, with the row of factors found by offset, computes every twiddled column of every inner copy |
| Execution.ExecuteLoop | src/planner/strategies/loop.hpp:29-35 | batch members are transformed one after the other, in place without disturbing later inputs |
| Execution.ExecuteFft1 | src/planner/strategies/fft1.hpp:28-37 | length 1: copying is the transform |
| Execution.ExecuteDirect | src/planner/strategies/direct.hpp:44-48 | one kernel call transforms every batch member |
| Execution.ExecuteRaderSingle | src/planner/strategies/rader.hpp:268-286 | the single-member Rader plan computes the transform, in place included |
| Execution.ExecuteRaderBatch | src/planner/strategies/rader.hpp:108-126 | the batched Rader plan computes the transform of every member, in place included |
| Execution.ExecuteRaderTwid | src/planner/strategies/rader.hpp:408-432 | the twiddled Rader stage computes every twiddled column of every inner copy |
| Execution.ExecuteBluestein | src/planner/strategies/bluestein.hpp:127-147 | the single and batched Bluestein plans compute the transform of every member, in place included |
| Execution.ExecuteBluesteinTwid | src/planner/strategies/bluestein.hpp:371-392 | the twiddled Bluestein stage computes every twiddled column of every inner copy |
| Execution.ConvolveInPlace | src/planner/strategies/rader.hpp:40-49 | forward plan, multiplication and backward plan in place replace every buffer column by the transform of the product of transforms, and leave the rows past the columns alone |
| Execution.ConvolveRader | src/planner/strategies/rader.hpp:108-126 | pack, convolve and unpack act on the output like a base kernel with the given twiddle factors |
| Execution.ConvolveBluestein | src/planner/strategies/bluestein.hpp:127-147 | zero tail, pack, convolve and unpack act on the output like a base kernel with the given twiddle factors |
| ScratchMemory.Scratch.Push | src/planner/strategies/cooley_tukey.hpp:52-70 | the new frame is no live frame and no convolution buffer, live frames stay what they are, and a frame that is large enough is used again |
| ScratchMemory.Scratch.Release | src/planner/strategies/cooley_tukey.hpp:72-74 | the depth goes back by one |
| ScratchMemory.Scratch.GetRader | src/fft_buffers.cpp:51-68 | the buffer is grown by reallocation, exactly if it is too small, and is never a stack frame |
| Buffers.PackMember | src/planner/strategies/rader.hpp:446-472 | inputs in generator order, with their twiddle factors, and the sum of all inputs; other columns untouched |
| Buffers.PackRader | src/planner/strategies/rader.hpp:141-170 | every batch member is packed, with input 0 and the sum saved in two extra rows |
| Buffers.UnpackRader | src/planner/strategies/rader.hpp:207-222 | output 0 is the saved sum, output k the saved input plus the element at the reverse index; nothing else is written |
| Buffers.PackBluestein | src/planner/strategies/bluestein.hpp:410-424 | inputs times chirp times twiddle factor, zeros in the padded tail |
| Buffers.ZeroTail | src/planner/strategies/bluestein.hpp:38-40 | every column is zero from row n up to the padded length |
| Buffers.UnpackBluestein | src/planner/strategies/bluestein.hpp:426-435 | outputs are buffer elements times chirp; nothing else is written |
| Buffers.PointwiseMultiply | src/exec_convolution.cpp:33-46 | element k of every interleaved column is multiplied by b[k], the rest is untouched |
| Convolutions.RaderKerneled | src/planner/strategies/rader.hpp:108-126 | packed, convolved and unpacked data are the twiddled transforms of the inputs |
| Convolutions.BluesteinKerneled | src/planner/strategies/bluestein.hpp:127-147 | packed, convolved and unpacked data are the twiddled transforms of the inputs |
| Transform.CooleyTukey | src/planner/strategies/cooley_tukey.hpp:635-660 | output i + m k of a length r m transform is output k of a twiddled length-r transform of the outputs i of the r interleaved subsequences |
| Transform.ConvolutionTheorem | src/planner/strategies/rader.hpp:40-49 | the transform of a cyclic convolution is the product of the transforms, over any commutative ring with roots of unity |
| Transform.Inversion | src/planner/strategies/rader.hpp:75-79 | the backward transform of the forward transform is n times the input, which the tables divide out |
| Transform.ConvolveByTransforms | src/planner/strategies/rader.hpp:40-49 | forward, multiply, backward gives n times the cyclic convolution |
| Plans.CooleyTukeySolves | src/planner/strategies/cooley_tukey.hpp:635-735 | two stages with the strides of the strategies solve the problem, for one member or packed input with interleaved output |
| Plans.StageAddresses | src/planner/strategies/cooley_tukey.hpp:635-720 | the strides of both stages address the same elements as the whole problem |
| Plans.Stage2Room | src/planner/strategies/cooley_tukey.hpp:640-645 | the second stage writes every output element once and stays in range |
| Plans.Stage2Touches | src/planner/strategies/cooley_tukey.hpp:640-645 | the second stage writes no other address than the problem's outputs |
| Rader.RaderIsDft | src/planner/strategies/rader.hpp:141-222 | for every odd prime n: x[0] plus the convolution read through the reverse permutation is output v |
| Rader.RaderZero | src/planner/strategies/rader.hpp:153-169 | output 0 is the accumulated sum |
| Rader.KernelEntry | src/planner/strategies/rader.hpp:65-79 | the table entry that input perm[q] meets in output v is its root of unity over the length |
| Bluestein.BluesteinIsDft | src/planner/strategies/bluestein.hpp:67-99 | for every n and every padded length from 2 n - 1: chirp, padded convolution with the wrapped kernel and second chirp give the transform |
| Bluestein.ChirpUnreduced | src/planner/strategies/bluestein.hpp:75-79 | reducing the square of k modulo 2 n does not change the chirp |
| Bluestein.ChirpEntry | src/planner/strategies/bluestein.hpp:89-99 | the wrapped kernel entry that input q meets in output k |
| PrincipalRoot.PrincipalGivesRoots | src/generate_twiddles.hpp:99-105 | a principal root of unity of invertible order satisfies every law assumed of the roots |
| Generator.FindGroupGenerator | src/rader_generator.cpp:13-33 | the least candidate whose powers are pairwise different, 0 if there is none; for an odd prime it is never 0 and has order n - 1 |
| NumberTheory.PrimitiveRootExists | src/rader_generator.cpp:13-33 | every odd prime has a residue of order n - 1 |
| Generator.DistinctIffOrder | src/rader_generator.cpp:21-27 | the candidate's powers are pairwise different exactly when it has order n - 1 |
| Generator.PrepareRaderPermutations | src/planner/strategies/rader.hpp:51-63 | perm lists 1..n-1 as powers of the generator and the reverse index of perm[k] is (m - k) mod m |
| Rader.PermutationOfRest | src/planner/strategies/rader.hpp:57-62 | perm and the reverse index are inverse bijections |
| Tables.PrepareRader | src/planner/strategies/rader.hpp:80-91 | the constructed tables are a permutation pair and the transform of Rader's kernel |
| Tables.PrepareRaderKernel | src/planner/strategies/rader.hpp:65-79 | entry (m - k) mod m is the root of unity at perm[k], over m |
| Tables.PrepareBluestein | src/planner/strategies/bluestein.hpp:100-111 | the constructed tables are the chirp and the transform of the wrapped kernel |
| Tables.PrepareChirpKernel | src/planner/strategies/bluestein.hpp:81-99 | entries k and n_pad - k are the conjugate chirp over n_pad |
| Twiddle.GenerateTwiddles | src/generate_twiddles.hpp:100-131 | the flat triple loop puts the factor that SlotValue describes into every slot, zeros past the last row |
| Twiddle.SlotHoldsFactor | src/generate_twiddles.hpp:108-131 | the slot of row and column holds exactly that factor, and lies in the table |
| Tables.PrepareTwiddles | src/planner/strategies/cooley_tukey.hpp:104-105 | the table holds the factor of every row and column at the slot its reader uses and, with two slots a factor, the factor times the imaginary unit in the next one; its length is that of the source |
| Tables.PairMultiplies | src/generate_twiddles.hpp:108-131 | with the two slots a kernel multiplies by a factor through the products of the real and the imaginary part alone |
| Tables.PairTurns | src/generate_twiddles.hpp:108-131 | the imaginary unit times the second slot is the negated first one: the pair is a factor and its quarter turn |
| Roots.FourthRootImaginary | src/generate_twiddles.hpp:108-131 | a primitive fourth root of unity is an imaginary unit |
| Planner.MakePlan | src/planner/planner.cpp:287-372 | terminates; returns a plan exactly when convolutions are available or n is a product of kernel lengths; the plan solves the problem and has no Rader or Bluestein node without convolutions; remembered strategies can always be rebuilt, so the abort is unreachable; a plan that was searched for is remembered under the strategy that made it, a recalled plan is one of the recalled strategy, what is remembered for problems that are not planned on the way stays; convolution lengths and radices without kernel are the least ones |
| Library.PlanTwice | src/planner/planner.cpp:287-372 | planning a problem again under the same policy gives a plan of the same strategy, whatever the measurements say |
| Recalling.UpdateKeeps | src/planner/wisdom.cpp:72-87 | storing the winner adds its entry, and changes none of a problem and policy that is not planned on the way |
| Recalling.RecallKeeps | src/planner/planner.cpp:290-312 | rebuilding a remembered plan under its saved policy changes nothing that is not planned on the way |
| Planner.SearchStrategies | src/planner/planner.cpp:314-372 | whatever the clock and the measurements say, a plan is found if any strategy has one; the strategy stored for the problem and policy is the one that made the returned plan, with pruning the preferred one; what is remembered can be rebuilt |
| Choices.FirstIsChosen | src/planner/planner.cpp:50-185 | the first strategy that finds a plan: a kernel, else the largest radix with a kernel, else the least factor by Rader, or by Bluestein where its predecessor is no product of kernel lengths, else one batch member at a time |
| Choices.OneChoice | src/planner/planner.cpp:50-185 | that describes only one strategy, so without measurements the choice depends on the problem alone |
| Strategies.OneMaker | src/planner/planner.cpp:318-369 | no plan can come from two strategies, so a stored strategy says which plan was made |
| Planner.SavedFeasible | src/planner/planner.cpp:290-312 | an entry found for a policy is feasible under its own policy |
| Planner.TryCooleyTukey | src/planner/strategies/cooley_tukey.hpp:627-745 | a radix with a kernel gives a plan exactly when it divides n properly, the layout fits and the rest is plannable |
| Planner.TryLoop | src/planner/strategies/loop.hpp:57-81 | a batch is peeled exactly when its member is plannable |
| Planner.TryRader | src/planner/strategies/rader.hpp:790-848 | exactly for odd primes without kernel whose predecessor is a product of kernel lengths, with convolutions |
| Planner.TryBluestein | src/planner/strategies/bluestein.hpp:723-779 | exactly for odd primes without kernel, with convolutions |
| Planner.TryConvolvedRadix | src/planner/strategies/rader.hpp:850-930 | exactly for composite lengths whose least factor has no kernel, with convolutions and a fitting layout |
| Planner.MakeSubPlans | src/planner/strategies/rader.hpp:804-815 | the three sub-plans exist exactly when their length is a product of kernel lengths, and never convolve |
| Strategies.PlannableFeasible | src/planner/planner.cpp:55-185 | a plannable problem has a feasible strategy in the table |
| Strategies.FeasiblePlannable | src/planner/planner.cpp:55-185 | a feasible strategy means the length is plannable |
| Planner.UpdateSound | src/planner/planner.cpp:366-369 | remembering a strategy that worked keeps every entry rebuildable |
| WisdomTable.Wisdom.Lookup | src/planner/wisdom.cpp:45-70 | a maximal usable entry, the exact policy's own entry whenever one is stored, nothing only if nothing is usable |
| WisdomTable.Wisdom.Update | src/planner/wisdom.cpp:72-87 | replaces the entry of the same policy or appends, keeping one entry a policy |
| WisdomTable.UpdatedOnePerPolicy | src/planner/wisdom.cpp:72-87 | after an update the entries are the new one and those of other policies |
| Policies.SubsetOrder | src/planner/wisdom.cpp:14-17 | domination is a partial order |
| Policies.MinusRemoves | src/planner/policy.hpp:33-35 | removing an option leaves a subset without it |
| Policies.OptionsAllowConvolutions | src/planner/policy.hpp:57-66 | every public option set allows convolutions; pruning exactly without a time limit |
| Factorize.SmallestPrimeFactor | src/factorize.hpp:16-37 | the least prime factor of every n above 1, 1 for 1 |
| Factorize.NextLengthFactorableBy | src/factorize.hpp:72-87 | terminates below 2 n with the least length the division loop accepts; with the primes among the kernels that is the least product of kernel lengths |
| Factorize.StripDecidesSmooth | src/factorize.hpp:78-84 | with every prime factor of a kernel length a kernel length, dividing greedily reaches 1 exactly for products of kernel lengths |
| Factorize.StrippedIsSmooth | src/factorize.hpp:78-84 | a length that the division loop reduces to 1 is a product of kernel lengths |
| Factorization.FactorizeDescending | src/factorize.hpp:95-111 | the factors multiply to n and come in descending order; they are the kernel lengths divided out in the order of the list, and what dividing the rest gives, which no kernel length divides |
| Factorization.FactorizeSquare | src/factorize.hpp:113-171 | the factors multiply to n and come in descending order, whatever root the floating-point functions return; they are the kernel lengths picked by the target, and what dividing the rest gives |
| Factorization.FactorizePrimes | src/factorize.hpp:46-71 | what is left is divided out from 23 on or appended, and the product stays n; without a prime factor below 23, and with a root that is not too small, all that it adds is prime |
| Factorization.DivisionEnds | src/factorize.hpp:46-71 | the division loop ends in primes: a rest without a factor up to its root is prime or 1 |
| Factorization.KernelOrPrime | src/factorize.hpp:46-171 | with the primes below 23 among the kernel lengths, every factor is a kernel length or a prime that is none |
| Factorization.FloatingSmallPrimes | src/providers/aot/aot_kernel_data.cpp:297-299 | the floating-point kernel lengths hold the primes below 23 |
| Factorization.FactorsOf | src/factorize.hpp:173-179 | the shorter of both lists; with ascending kernel lengths that hold their prime factors always the picked one |
| KernelChoice.PickedGreedy | src/factorize.hpp:113-171 | with ascending kernel lengths the computed root does not matter: each picked length is the largest that divides what is left |
| KernelChoice.OneGreedy | src/factorize.hpp:113-171 | and there is only one such list |
| KernelChoice.PickedShorter | src/factorize.hpp:95-171 | the picked list is no longer than the one divided out in order, and leaves the same rest |
| KernelChoice.InOrderPrime | src/factorize.hpp:95-111 | dividing in ascending order takes primes only |
| Factorization.FloatingNotSquare | src/factorize.hpp:121-163 | with the precompiled lengths 64 becomes 16 and 4, not 8 and 8, although the code announces a split that is as square as possible |
| Factorization.KernelListsRise | src/providers/aot/aot_kernel_data.cpp:290-299 | both lists of precompiled kernel lengths ascend and hold their prime factors |
| KernelChoice.SquareSplit | src/factorize.hpp:121-163 | with descending lengths, b times b is split into b and b wherever the computed root is b |
| KernelChoice.PickNearest | src/factorize.hpp:140-152 | with descending lengths the least one that reaches the root is picked, if any does |
| KernelChoice.InOrderGreedy | src/factorize.hpp:95-111 | dividing in descending order takes the largest length that divides, every time |
| Factorization.GeneratedListFalls | src/providers/jit/jit_kernel_data.cpp:543-563 | the list of generated kernel lengths descends and holds the primes below 23 |
| Liveness.SolveLiveness | sloejit/src/ir.cpp:78-86 | the backward iteration terminates with the least solution of the liveness equations above the registers the function receives and returns |
| Operations.SolutionFlows | sloejit/src/ir.cpp:567-593 | in such a solution a register is live at a block boundary exactly if the code reads it before writing it, or it is live out there |
| LiveRanges.FillLiveRanges | sloejit/src/ir.cpp:109-160 | the ranges of a register in a block cover exactly the positions where it is live or written, and are those that one scan from the end produces |
| LiveRanges.OverlapMeansShared | sloejit/src/include/sloejit/interval.hpp:28-32 | two ranges overlap by the comparison of their ends exactly if some position is in both |
| Finalization.BuildRanges | sloejit/src/ir.cpp:648-671 | the ranges of all registers in all blocks cover exactly what the solved liveness needs; it gives up exactly if a register outlives an instruction that clobbers it |
| Coloring.Allocator.constructor | sloejit/src/ir.cpp:673-683 | the constraint sets are the interference graph of the ranges |
| Coloring.Allocator.InsertInterval | sloejit/src/ir.cpp:453-464 | the constraint sets stay the interference graph with one more range |
| Coloring.Allocator.EraseReg | sloejit/src/ir.cpp:468-474 | the constraint sets stay the interference graph without the register |
| Coloring.Allocator.Assign | sloejit/src/ir.cpp:861-897 | a choice no neighbour occupies keeps the colouring proper; nothing is assigned only if every choice is taken |
| Coloring.Allocator.AssignGroup | sloejit/src/ir.cpp:767-832 | a group gets consecutive places; the colouring stays proper if and only if members that wrap round to the same place do not interfere; nothing is placed only if the group fits nowhere |
| Turns.SortByWeight | sloejit/src/ir.cpp:722-744 | registers with longer ranges come first, each once |
| Coloring.GroupProper | sloejit/src/ir.cpp:777-829 | placing a group that passed all tests is proper exactly if there is room for it in the list |
| Coloring.ShortGroupRoomy | sloejit/src/ir.cpp:775-784 | a group no longer than the list of registers always has room, so its placement is proper |
| Coloring.Allocator.Spill | sloejit/src/ir.cpp:444-494 | replacing the ranges of a register by new ones and forgetting its colour keeps graph and colouring |
| Coloring.ColoringAllocates | sloejit/src/ir.cpp:950-953 | a complete proper colouring of ranges that cover all needs gives no written register the colour of another that is still wanted |
| ColoredRun.ColoringPreservesRuns | sloejit/src/ir.cpp:950-953 | after substitution every run is at the same block with the same memory, and live registers have their values in their colours |
| Spilling.SpillInBlock | sloejit/src/ir.cpp:209-347 | the rewritten block does the same work with the value in its slot: every read sees it, other registers keep their liveness, ranges cover all replacements, and none of them reaches across a reload |
| Spilling.SoundRuns | sloejit/src/ir.cpp:209-347 | if every read is available, running the rewritten code keeps every available register and slot equal to its original register |
| SpilledFunction.SpillRegister | sloejit/src/ir.cpp:349-411 | spilling a register in all blocks gives a function that does the same, can be spilled again, and is covered by the remaining and the new ranges; no new range reaches across a read that the cause of the spill separates from the occurrence before it |
| SpilledFunction.SpillKeeps | sloejit/src/ir.cpp:349-411 | liveness, slots, positions and unused names are again as the next spill needs them, also for a replacement of an earlier spill |
| SpilledFunction.SpillCovers | sloejit/src/ir.cpp:444-494 | the old ranges without those of the spilled register, with those of the edits, cover all that the rewritten blocks need |
| Finalization.StartsSpillable | sloejit/src/ir.cpp:567-663 | a function with its solved liveness meets what the first spill needs |
| Finalization.SpilledRuns | sloejit/src/ir.cpp:209-411 | after any number of spills every run is at the same block with the same memory, and what is available holds the original values |
| Allocation.SpillStep | sloejit/src/ir.cpp:899-946 | a spill for a register without a place keeps everything the loop relies on; it fails only without a candidate or for a register that is written in vain |
| Allocation.AllocateOne | sloejit/src/ir.cpp:760-946 | one turn of the loop colours the next register, places its group, or spills for it only when nothing is free; it keeps the colouring proper, the ranges covering and the meaning of the code, and refuses only for the two assertions of the source |
| Allocation.Finalize | sloejit/src/ir.cpp:496-953 | liveness, ranges, order, graph and the loop end in a complete proper colouring of a function that does what the given one does, and explicit choices are respected; there is no result only if clobbers are unsound, the steps are used up with work left, or a turn refuses, each said of the states the loop went through; with plenty of registers there always is one |
| Allocation.Prepare | sloejit/src/ir.cpp:567-744 | the loop starts from the least liveness, the exact ranges and the registers by weight, exactly if no register outlives an instruction that clobbers it |
| Turns.PlentySucceeds | sloejit/src/ir.cpp:760-946 | without groups, and with more options than coloured neighbours at every turn, no turn refuses and as many steps as registers suffice |
| Turns.FewNeighbours | sloejit/src/ir.cpp:834-897 | more options than neighbours in the interference graph are plenty in any order |
| Turns.FewHeavier | sloejit/src/ir.cpp:722-744 | in the order of weights, only the neighbours with longer ranges count |
| Allocation.SomeFunction | sloejit/src/ir.cpp:496-583 | a function that receives a register and computes another meets all that finalize asks of its input, and has plenty of registers |
| Allocation.AllocateSome | sloejit/src/ir.cpp:496-953 | finalize allocates that function, whatever its four registers are |
| Finalization.AllocationPreservesRuns | sloejit/src/ir.cpp:950-953 | the allocated function, entered with its inputs in their colours, is after any number of blocks where the given one is, with the same memory, and returns the outputs in their colours |
| AlgoPasses.PrettifyAlgo | src/providers/jit/algo.cpp:16-51 | succeeds exactly without dead writes; then every pointer is written once under a fresh name, and without uninitialised reads every output keeps its final value |
| AlgoPasses.IsolateReads | src/providers/jit/algo.cpp:93-117 | no operator reads an input any more, every pointer of the program keeps its value, and new names are fresh |
| AlgoTwiddles.TwiddleInputs | src/providers/jit/algo.cpp:119-172 | the result computes from plain inputs what the program computes from twiddled ones, under fresh names, without writing an input |
| AlgoTwiddles.TwiddleOutputs | src/providers/jit/algo.cpp:119-172 | every written output but the first is multiplied once by its factor, after all else; nothing else changes |
| AlgoTwiddles.IsolateWrites | src/providers/jit/algo.cpp:53-91 | succeeds exactly for programs that read no output, which it leaves as they are |
| ElfWriter.EmitElf | sloejit/src/gtelf_internal.cpp:29-308 | the bytes written are the image of the given size, part by part; no byte is left out or written outside |
| ElfImage.Parts | sloejit/src/gtelf_internal.cpp:29-308 | the image is its header, code and data, relocations, names, symbols and section headers, one after the other |
| ElfReader.FileHeader | sloejit/src/gtelf_internal.cpp:310-336 | the image begins with a relocatable little-endian 64-bit AArch64 header whose offsets, sizes and counts lead to the section headers |
| ElfFormat.EhdrReadsBack | sloejit/src/gtelf_internal.cpp:310-336 | all nineteen header fields read back by offset and number |
| ElfReader.EveryFunctionRecovered | sloejit/src/gtelf_internal.cpp:29-308 | a reader that checks the file type and follows headers, stored sizes and indices finds every function's name, code, data and relocations |
| ElfReader.RelocReadsBack | sloejit/src/gtelf_internal.cpp:148-157 | every relocation reads back with the name that its symbol leads to, its place, type and addend |
| ElfReader.FunctionSymbol | sloejit/src/gtelf_internal.cpp:233-256 | the symbol of a function's name is a global function symbol in its section and spans its whole code |
| ElfReader.SymbolNamed | sloejit/src/gtelf_internal.cpp:188-256 | every symbol reads back with its name |
| ElfReader.LocalsFirst | sloejit/src/gtelf_internal.cpp:202-299 | sh_info is one past the last local symbol: a symbol is local exactly below it |
| ElfReader.TableSectionNames | sloejit/src/gtelf_internal.cpp:298-304 | the symbol and string tables' sections read back under their names |
| ElfReader.EntrySectionValues | sloejit/src/gtelf_internal.hpp:50-105 | the section headers of code, relocations and data by number: type, flags, links, alignment and entry size |
| ElfReader.TableSectionValues | sloejit/src/gtelf_internal.hpp:74-91 | the headers of the symbol table and the string tables by number |
| ElfReader.SymbolValues | sloejit/src/gtelf_internal.cpp:202-256 | symbols by number: section symbols are local, functions global with their size, other names global and undefined |
| ElfReader.FirstsAreNull | sloejit/src/gtelf_internal.hpp:46-48 | section 0 and symbol 0 are all zeros |
| ElfReader.NamesSpelled | sloejit/src/gtelf_internal.cpp:40-182 | the section name prefixes and table names, spelled |
| ElfReader.BlobsApart | sloejit/src/gtelf_internal.cpp:266-296 | code and data of different functions do not overlap and lie between the header and the relocations |
| ElfReader.RelasApart | sloejit/src/gtelf_internal.cpp:266-296 | relocation sections do not overlap and lie between data and names |
| ElfReader.TablesApart | sloejit/src/gtelf_internal.cpp:297-308 | the tables follow each other, and the section headers end the file |
| ElfFormat.ShdrReadsBack | sloejit/src/gtelf_internal.cpp:338-351 | a stored section header reads back field by field |
| ElfFormat.SymReadsBack | sloejit/src/gtelf_internal.cpp:212-255 | a stored symbol reads back field by field |
| ElfFormat.RelaReadsBack | sloejit/src/gtelf_internal.cpp:150-156 | a stored relocation reads back field by field |
| Compositor.ComposeAndExecute | src/exec_compositor.cpp:19-50 | any ordering of factors of n, composed and executed, computes the transform of every batch member |
| Compositor.CompositeInit | src/compositor.cpp:58-140 | each level gets the length of the product of the factors before it, its kernel parameters and its twiddle table |
| Compositor.ExecuteLevels | src/exec_compositor.cpp:36-49 | after each level the buffer holds the transforms of the interleaved subsequences, the last level writes the output |
| Compositor.LevelStep | src/level_data.hpp:39-85 | the strides and batch of a level take the subsequences of one level to those of the next |
| Compositor.FactorizationsCompose | src/factorize.hpp:46-171 | what the factorizations return can be composed, for every n from 2 |
| Compositor.PermutedFactors | src/compositor.cpp:76-138 | every permutation of a list of factors can be composed, too |
| Parallel.Partition | src/plfft_parallel.hpp:114-154 | the threads' blocks of rows are consecutive, start at multiples of the interleave, end at the last row and are not empty |
| Parallel.Owner | src/plfft_parallel.hpp:114-154 | every row is in exactly one thread's block |
| Parallel.EvenShares | src/plfft_parallel.hpp:114-154 | as many threads as allowed and useful; their shares differ by at most one unit of the interleave, only the last is cut off |
| Parallel.BlockSlot | src/generate_twiddles.hpp:100-131 | the table offset a thread computes addresses exactly its rows of the blocked table |
| Parallel.ExecuteAbThreaded | src/level_ab_t_c2c.cpp:50-80 | threads in any order compute what the serial level computes, and nothing else changes |
| Parallel.ExecuteAcThreaded | src/level_ac_t_c2c.cpp:51-85 | the threads' kernel calls in any interleaving compute what the serial level computes, and nothing else changes |
| Parallel.ExecuteLevel | src/level_ab_t_c2c.cpp:50-80 | serial or threaded, by the size of the transform, a level computes the twiddled columns |
| RealSpectrum.Mirror | src/planner/strategies/cooley_tukey.hpp:192-220 | output n - k of a real input is the conjugate of output k |
| RealSpectrum.HalfSpectrum | src/planner/strategies/cooley_tukey.hpp:192-220 | from half spectra of the interleaved subsequences, with conjugated columns above half, to the outputs of the whole input |
| RealSpectrum.Tiling | src/planner/strategies/cooley_tukey.hpp:192-220 | the four kinds of columns cover exactly the indices up to half the length, for all radices and parities |
| RealStages.Tiles | src/planner/strategies/cooley_tukey.hpp:192-220 | the kernel calls of a stage write every place of the half spectrum exactly once |
| RealKernels.KernelConjReverse | src/plfft_kernels.hpp:34-41 | the first half through one pointer and the conjugated rest through the other; the two do not disturb each other |
| RealStages.ExecuteAbReal | src/planner/strategies/cooley_tukey.hpp:192-220 | the last stage writes the half spectrum of the batch and nothing beyond |
| RealStages.ExecuteAcReal | src/planner/strategies/cooley_tukey.hpp:443-467 | an internal stage writes the half spectra of all inner copies and nothing beyond |
| RealPlans.RealStagesSolve | src/planner/strategies/cooley_tukey.hpp:591-599 | two such stages give the half spectrum of the whole problem |
| RealPlans.ExecuteReal | src/planner/strategies/cooley_tukey.hpp:591-599 | every tree of direct, loop and Cooley-Tukey nodes for real input writes the half spectra of the batch and nothing else |
| RealRader.RebuiltOutput | src/planner/strategies/rader.hpp:605-620 | a column above half rebuilt by conjugation, with its own twiddle factors, gives the outputs the half spectrum wants |
| RealRader.PackReal | src/planner/strategies/rader.hpp:578-621 | rebuilt columns in generator order, with their twiddle factors, sums and saved inputs |
| RealRader.UnpackReal | src/planner/strategies/rader.hpp:623-652 | every place of the half spectrum gets its element, and nothing else is written |
| RealRader.ExecuteRaderReal | src/planner/strategies/rader.hpp:533-560 | the twiddled Rader stage for real input writes the half spectra of all inner copies and nothing beyond |
| RealSpectrum.RaderTiling | src/planner/strategies/rader.hpp:623-652 | what the stage unpacks is exactly the half spectrum, for every odd radix |
| RealSpectrum.BluesteinTiling | src/planner/strategies/bluestein.hpp:550-569 | what the stage unpacks is exactly the half spectrum, for every radix and batch |
| RealSpectrum.RebuiltColumn | src/planner/strategies/bluestein.hpp:516-548 | a column above half is the conjugate of its mirror |
| DotKernels.WithinOne | experimental/dot/neon_kernels.hpp:30-461 | every kernel output differs from the scalar reference by at most 1, for every block, and the narrowing to 16 bits does not saturate |
| DotKernels.BatchWithinOne | experimental/dot/neon_kernels.hpp:472-567 | the same for every block of a batch of any length |
| DotKernels.ExecuteBatch | experimental/dot/neon_kernels.hpp:472-567 | each block of the batch is replaced by the kernel's outputs, the rest of the array is untouched |
| DotKernels.ScalarDft | experimental/dot/n8_kernel.h:145-224 | the reference rows, rounded; all sums and their rounding fit into 32 bits |
| DotKernels.PackedSymbols | experimental/dot/n8_kernel.h:42-142 | the symbol read from a packed row is the one packed into it |
| DotKernels.SymbolsAreRoots | experimental/dot/n8_kernel.h:42-142 | the symbols of row k are the cosines and sines of k l eighths of a turn |
| DotKernels.DotsWithin | experimental/dot/neon_kernels.hpp:243-260 | every lane of four products stays within 2 to the 16th |
| DotKernels.SumsWithin | experimental/dot/neon_kernels.hpp:177-225 | pairwise sums, differences and Hadamard sums grow by a factor of at most 2 and 4 |
| DotKernels.PairsWithin | experimental/dot/neon_kernels.hpp:324-394 | the widening sums and differences of bytes fit into 16 bits |
| DotKernels.ShiftedWithin | experimental/dot/neon_kernels.hpp:324-394 | the same shifted left by 7 fit into 32 bits |
| Residues.RootsExist | src/planner/strategies/rader.hpp:65-79 | integers modulo a prime are a ring with roots of unity of the modulus' predecessor, so the laws assumed of values can be met |
| Twins.TwinIsRoots | src/planner/strategies/cooley_tukey.hpp:192-220 | for every system of roots there is one with a conjugation, so the laws assumed for real transforms can be met |
| Residues.PlanningIsPossible | src/planner/planner.cpp:287-372 | the environment that planning requires can be met for every n whose convolution lengths divide the order |

## Left out

- Floating-point rounding, overflow of 64-bit indices, alignment of buffers: values are elements of a commutative ring and integers are unbounded.
- Base kernels and their assembly: `Memory.Kernel` is the contract they meet, and its body only shows that it can be met.
- The clock, `benchmarker::measure`, auditions and SME2 strategies and levels: timing results are arbitrary booleans, and the table has no SME2 entries.
- The caches of twiddle tables and of smallest prime factors: tables and factors are computed anew.
- Kernel lists without 2 (half precision without vector arithmetic offers none at all): every provider modelled offers 2.
- The plan for a single-member Bluestein transform keeps its own loops in the library; the model runs the batched loops with one member.
- `gpos` sizes: sums of strides and bases are assumed to stay in the arrays, as the public interface's checks demand.
- Real plans: the real plan tree has direct, loop and Cooley-Tukey nodes and is not the result of the search. The Rader stage for real input is executed on its own (`RealRader.ExecuteRaderReal`), the Bluestein stage for real input only appears as the set of outputs it writes, and complex-to-real, real-to-real and in-place real transforms are not modelled.
- The levels `level_ab_n`, `rader.cpp` and `bluestein.cpp` of the compositor and the split of whole batches between threads; they repeat the arguments of the levels and plans that are modelled.
- Allocation.Finalize: takes a number of steps, since repeated spilling is not shown to end; when it gives no result is stated exactly, but that it gives one is shown where no spill is needed (`Turns.PlentySucceeds`). Preconditions are that no register other than an input is read before it is written (an uninitialised register has no value to preserve), and that groups are no longer than the list of their registers.
- Turns.SortByWeight: registers of equal weight come in any order, where the library keeps the order of their numbers.
- Allocation.SpillStep: which candidate is spilled is arbitrary, so the cost function is not modelled, and candidates are not filtered by the choices that the stuck register has; a register that has already been spilled at the function's boundaries is not chosen again. Only its boundary ranges are left then; the source does not test for this, and would stop at its assertion on recorded positions (sloejit/src/ir.cpp:246) or, for a register without occurrences, erase its store and reload.
- SpilledFunction.SpillRegister: replacements do not take over the register choices of single instructions, nor the places of register groups; members of groups keep their explicit choices only until they are spilled.
- Coloring.Allocator.Spill: edits are applied at once, and positions of inserted instructions are midpoints of unbounded precision.
- Stack slots by address, their colouring (`finalize_spills`), `post_regalloc_hook`, active-mask lanes, and the removal of unused instructions.
- AlgoPasses.PrettifyAlgo: values are preserved for programs that read no local variable or output before writing it; what an uninitialised variable holds is not part of a program's meaning.
- Factorization.KernelOrPrime: asks for the primes below 23 among the kernel lengths, which the fixed-point lists (powers of two) do not hold, and for a root that is not too small; without them a factor may be composite. The product and the order do not depend on either.
- Planner.SearchStrategies: which feasible strategy wins with measurements depends on them, so only that the stored one made the plan is stated; what nested planning chooses also depends on what is remembered.
- ElfWriter.EmitElf: the assertions on the alignment of the addresses of code and data (sloejit/src/gtelf_internal.hpp:54,62) are not modelled; any addresses are written.
- ElfReader.EveryFunctionRecovered: sizes, offsets and addends fit their fields, and names are different and contain no zero byte; the writer checks none of this.
- The variant of the sym kernel with matrix instructions, and the batch functions with distances other than 8.
- DotKernels.DotsWithin: ranges are stated for dot products, pairwise and Hadamard sums, widening sums and shifts, not for each intermediate register by name.
