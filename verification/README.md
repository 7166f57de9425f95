# Verification of the AGENTS abstract machine

AGENTS runs AKL, a concurrent constraint language, on an abstract machine
written in C. This project models the parts of it that are hard to get right
and proves what they are for:

- the finite-domain solver, from 32-bit words and the compiler's analyses up to
  the theorem that counting by labelling adds exactly the number of assignments
  that satisfy every constraint, and that the search for one solution succeeds
  if and only if there is one and finds the first (`Fd*.dfy`);
- the pointer-reversing scavenger of the garbage collector and of the copier:
  what it leaves is the reachable graph under new names, and after a copy the
  old graph is word for word what it was (`Gc*.dfy`);
- choice splitting: the and-box above a fork is copied with one alternative and
  keeps the others, and the two together can be resolved in exactly the ways
  the original could (`Split*.dfy`);
- unification of possibly cyclic terms, and suspending, re-entering and failing
  and-boxes, which loses no binding and leaves none behind (`Un*.dfy`);
- the hash tables as finite maps, and the printer's dictionary on top of them
  (`Hash*.dfy`);
- the standard order of terms, which is total, and the hash value of terms
  (`Term*.dfy`);
- the assembler's chains of label references and sorted tables, up to the
  binary search that goes where a linear search would (`Code*.dfy`);
- contracting a path in place (`Path*.dfy`), the stacks of the execution state
  and their contexts (`Stack*.dfy`), and arrays with strided sub-arrays
  (`ArrayViews.dfy`).

The files, from the bottom up:

- `FdWords.dfy` - words and blocks of eight words, and the set operations on them
- `FdExpr.dfy` - range expressions, what they denote, when they are defined
- `FdArith.dfy` - what the arithmetic operators stand for
- `FdMono.dfy`, `FdDeps.dfy`, `FdInstall.dfy` - the compiler's two analyses and the suspension of an indexical
- `FdCode.dfy` - compiling a range to tokens and loading it, with back-patched checks
- `FdMachine.dfy` - the stack machine on sets, and the correctness of compiled code
- `FdVar.dfy`, `FdVm.dfy` - variables as the evaluator sees them, and the evaluator with its two stacks
- `FdElement.dfy` - the two ranges of the element constraint
- `FdNarrow.dfy` - the intersection of a computed range with a domain
- `FdProblem.dfy`, `FdFixpoint.dfy` - problems, solutions, and the propagation loop as a machine on domains with its invariant
- `FdSetup.dfy` - a whole problem compiled, loaded and suspended
- `FdSafe.dfy`, `FdCalc.dfy` - the problems over which nothing stops
- `FdStore.dfy`, `FdState.dfy` - memory word by word, the value trail, and how memory represents a state of the loop
- `FdSolver.dfy` - the propagation loop on memory
- `FdEntail.dfy` - when an indexical is to be marked as entailed, and that it is
- `FdFirst.dfy` - which solution labelling finds first
- `FdSearch.dfy` - labelling: undoing, trying, counting, finding
- `GcHeap.dfy` - terms, old objects, and what a correct copy of an object is
- `GcScan.dfy` - the threaded stack inside the copied objects and its invariant
- `GcCollect.dfy` - the scavenger and the reference stack, word by word
- `GcMeaning.dfy` - a finished copy is isomorphic to what can be reached
- `SplitTree.dfy` - boxes in memory and the trees they spell out
- `SplitCopy.dfy` - copying the boxes below a box, and setting the links right again
- `SplitChoice.dfy`, `SplitBeside.dfy` - the split itself
- `SplitWays.dfy` - in how many ways a tree of boxes can be resolved
- `UnStore.dfy` - terms with cycles, the store, and its solutions by trees given depth by depth
- `UnUnify.dfy`, `UnMeaning.dfy` - one step of unification, and what a run means
- `UnLoop.dfy`, `UnTree.dfy`, `UnPairs.dfy` - when unification ends, and when it does not
- `UnLog.dfy`, `UnSuspend.dfy`, `UnForest.dfy` - the trail as a log, unifiers as equations, and why re-entry succeeds
- `UnExec.dfy` - the execution state: unify, suspend, install, fail, on memory
- `HashProbe.dfy` - odd strides in tables of a power of two
- `HashTable.dfy` - open addressing, growing, and the map a table stands for
- `HashDict.dfy` - the dictionary of the terms being printed
- `TermOrder.dfy`, `TermTotal.dfy` - the comparison of terms, and when it is a total order
- `TermLess.dfy` - the standard order, said without a comparison
- `TermHash.dfy` - the hash value of ground terms
- `CodeSort.dfy` - sorting the table of a switch
- `CodeLabels.dfy`, `CodeAssembler.dfy` - chains of references, and the assembler that builds and fixes them
- `CodeSwitch.dfy` - binary search at run time
- `CodeProgram.dfy` - a whole definition assembled, and its switches run
- `PathNames.dfy`, `PathContract.dfy` - path components, and contracting in place
- `StackSegments.dfy`, `StackContexts.dfy` - stacks cut into contexts: opening slots, copying, compacting
- `ArrayViews.dfy` - arrays, sub-arrays, and the bounds test

## Conventions

`hide` statements only keep definitions out of a proof that does not need them.

Solver. A word is its 32 bits, most significant first, as `mask` numbers them.
An outcome `Fatal`, `FATAL` or `Aborted` stands for every way the program stops
or leaves what C defines: the fatal errors, the failed assertions on the two
evaluator stacks, division by zero, a shift by a whole number of words, an
undetermined variable used as a number. What propagation and search compute is
stated for the runs that do not stop, and `FdSafe.Safe` is a condition on the
problem and the domains on entry under which no run stops. Where propagation
needs it, a problem is `WellPosed`: no indexical is suspended on the variable
it constrains, the two lists and the classes are those of the compiler, the
signs are those the monotonicity analysis supposes, variables used as numbers
are determined, and indexicals that share an entailment variable hold for the
same assignments. `SetUpReady` derives this from compiling, loading and
suspending the indexicals one after the other. A state of the loop also records,
for the proof alone, the domains each indexical was last run in; a search may
start with the present ones.

Scavenger. Memory is one sequence of words; a copy is appended to it. A word
holds a term with the scavenger's mark, a functor, a forwarding pointer, or a
reversed pointer. A heap is `WellFormed` when terms point to what their tags
say, objects do not overlap, chains of references end, and the variables of an
object are all external or all local, as the copier supposes when it takes a
copy back. One class serves both programs: collecting has no external variables
and saves nothing, copying saves every word it forwards.

Splitting. Both kinds of boxes have the same four links and are one datatype;
`copy_tree`, which walks choice-boxes and the and-boxes below them in two nested
loops, is one recursive loop over rows of boxes. What a box holds besides its
links is one number.

Execution state. The meaning of a store is the set of valuations of its cells by
possibly infinite trees that satisfy every binding. The ranks that show that
chains of references end are ghost state. The loop of unification is given a
number of rounds, because it need not end.

Hash tables. Both table packages probe alike and are one class; keys that
compare equal are one key, and `HashExactly` says when their hash values agree.
The alias table of unification is such a map.

Terms. The sign of a float tells the two zeros apart; NaN is not a term.
Functors are unique, so that equal functors are the same object.

Assembler. Offsets and addresses count words of code.

## Findings

Where the code and what it is meant to do disagree, the code was modelled and
the following was proved.

- Unification can run for ever on finite terms: the second term is not looked up
  in the table of aliases, so the table can come to lead in a circle
  (`LoopForever`, `LoopEqual`). It ends if and only if that never happens
  (`EndsIff`), always when the first term shares nothing (`TreeEnds`), and always
  when the pairs met side by side are matched (`PairsEnd`).
- The comment above the variable cases says that a variable without suspensions
  is bound to one with suspensions; the code binds the one with suspensions when
  the first variable is external and has none (emulator/unify.c:110-118).
  `UnifyMeaning` holds for the code.
- The compiler's monotonicity analysis is wrong for a negative factor, a set
  offset by a bound, and a varying dividend of `mod` (`AnalysisUnsound`).
- The class `min` that the compiler assigns to the `Y` of `0..min(Y)` does not see
  a label that is the minimum of `Y` already, though it changes the direction of
  the range. Solutions are then counted that are none (`LabelMissed`,
  `LabelMiscounts`). `DirectionWatched` says exactly when the classes suffice.
- In the same way the class `max` for the `Y` of `0..max(Y)` does not see a label
  that is the maximum of `Y` already, and a constraint that has come to hold is not
  marked as entailed (`EntailmentMissed`). Where the variables are watched it always
  is (`EntailmentReached`).
- `/u` rounds up for dividends greater than minus the divisor; below that, where C
  divides towards zero, only for some (`RoundsUpOnly`).
- The intersection of an empty computed range, kept as 1..0, with an interval
  domain whose minimum is 0 is taken for a narrowing. `IntersectFd` says exactly
  when the classification is right.
- A list cell and a structure named `.` with two arguments are each greater than
  the other (`DotsClash`); `FlipIff` says that nothing else breaks the order.
- The two floating-point zeros compare equal and need not hash alike, in which
  case a table does not find a key set under the other zero (`HashExactly`).
- A term pushed to the printer's dictionary twice and popped once is no longer
  seen (`DuplicateLost`, `SeenExactly`).
- On machine integers that wrap around, the bounds test of sub-arrays can pass
  one that reaches beyond its array (`WrapPasses`); it is exact where the
  products are machine integers (`TestExact`).

## Model

| member | source | states |
|---|---|---|
| `FdWords.ValueReaches` | emulator/fd.c:583-595 | the comparisons with powers of two in `min_b` ask whether a bit above the last m is set |
| `FdWords.MinB` | emulator/fd.c:583-595 | the halving search gives the first set bit of a nonzero word: that bit is set and none before it is |
| `FdWords.MaxB` | emulator/fd.c:558-569 | the same for the last set bit |
| `FdWords.FillRange` | emulator/fd.c:415-453 | a block is filled with exactly the values i..j clipped at 0; the fatal overflow comes exactly when i..j is not empty and reaches beyond 255; no other block changes |
| `FdWords.BitAdd` | emulator/fd.c:455-479 | every element moved up by k, what leaves 0..255 dropped, for every k from 0 on; ok exactly when C defines all the shifts (a shift by the full width of a word is taken to clear it) |
| `FdWords.BitSub` | emulator/fd.c:481-505 | every element moved down by k, what leaves 0..255 dropped, likewise |
| `FdWords.BitMod` | emulator/fd.c:507-524 | in place, the set of residues: a residue is never written to a word still to be read |
| `FdWords.BitCompl` | emulator/fd.c:526-534 | complement within 0..255 |
| `FdWords.BitUnion` | emulator/fd.c:536-545 | union of two blocks |
| `FdWords.BitIntersect` | emulator/fd.c:547-556 | intersection of two blocks |
| `FdWords.MinBit` | emulator/fd.c:597-607 | the least element of a row of words, 256 when there is none |
| `FdWords.MaxBit` | emulator/fd.c:571-581 | the greatest element, -1 when there is none |
| `FdWords.MaskTest` | emulator/fd.c:208-214 | testing a value against its word and mask is membership |
| `FdWords.IntersectDom` | emulator/fd.c:151-171 | the intersection of two sets, and the answer EMPTY, SUBSET or NONEMPTY exactly as the sets meet |
| `FdExpr.EvalWithin` | emulator/fd.c:455-556 | every inner range denotes a subset of 0..255 |
| `FdArith.ArithIs` | emulator/fd.c:862-893 | each operator's number, said by equations: the quotient is the one whose rest is smaller than the divisor and has the sign of the dividend, mod is that rest, and there is no other |
| `FdArith.BinValue` | emulator/fd.c:862-893 | so a compound term denotes that number of the numbers of its parts, the one `RunIndexical` and `EvaluateRange` speak of |
| `FdArith.RoundsDown` | emulator/fd.c:877-893 | on numbers from 0 on and positive divisors /d rounds down and mod is the rest |
| `FdArith.RoundsUpOnly` | emulator/fd.c:882-887 | /u rounds up if and only if the dividend is greater than minus the divisor, or one more than a multiple of it |
| `FdVm.Evaluator.Operate` | emulator/fd.c:862-893 | the arithmetic instructions compute these numbers |
| `FdMono.AnalysisSound` | oldcompiler/fd_mon.akl:66-118 | with the first list determined a range only shrinks as domains shrink, with the second it only grows, for every range whose factors keep their signs, whose divisors are constant or positive and whose mod dividends and offsets are constant over all narrower domains |
| `FdMono.ShapeSigns` | oldcompiler/fd_mon.akl:11-63 | signs read off the shape of a range are right over every store, a non-negative dividend over a positive divisor that varies included |
| `FdMono.AnalysisUnsound` | oldcompiler/fd_mon.akl:35-63 | three ranges for which the analysis is wrong: a negative factor, a set offset by a bound, a varying dividend of mod |
| `FdDeps.CoversTrans` | oldcompiler/fd_range.akl:23-44 | the class table gives the least upper bound of both classes joined, in a transitive order |
| `FdDeps.ClassesAdequate` | oldcompiler/fd_range.akl:14-44 | a range does not change as long as no argument changes in the aspect its class records |
| `FdInstall.Lists.SuspendIndexical` | emulator/fd.c:1182-1219 | each argument that is not determined gets the suspension with its class in front of its list, in the order of the loop; other lists are unchanged |
| `FdInstall.Extracted` | oldcompiler/fd_range.akl:58-80 | the two vectors extracted pair exactly the arguments used through a domain, a minimum or a maximum with their class numbers |
| `FdInstall.SuspendInstalls` | emulator/fd.c:1182-1219 | afterwards an indexical is on the list of an undetermined variable exactly with the classes under which it uses it |
| `FdSetup.SetUpInstalled` | emulator/fd.c:1182-1219 | after all the indexicals of a problem have been suspended each is on exactly the lists, with exactly the classes, under which it uses the variables |
| `FdInstall.InstalledWatches` | oldcompiler/fd_range.akl:14-80 | an indexical so suspended is woken by every change its range depends on |
| `FdInstall.DeterminationSeen` | emulator/fd.c:6-12 | a suspension class sees every variable becoming determined if and only if it is DOM or MINMAX |
| `FdFixpoint.SeenExactly` | emulator/fd.c:6-12 | the table of classes lets a suspension pass over a change exactly when no bound that its class watches has moved; the class of the whole domain sees every change |
| `FdInstall.DirectionWatched` | oldcompiler/fd_range.akl:14-80 | the compiled classes see every change of direction of a range if and only if each undetermined variable deciding it is used as a domain or with both bounds: for the list that keeps it from shrinking only, and for the list that keeps it from growing only |
| `FdInstall.LabelMissed` | emulator/fd.c:2243-2244 | where that fails a label can be missed: for X in 0..min(Y), labelling Y with its minimum passes over the indexical though X keeps values that solve nothing |
| `FdInstall.LabelMiscounts` | emulator/fd.c:2396-2430 | the consequence: the pass ends with X in {0, 1, 2}, and counting label by label gives 5 where 3 assignments solve the problem |
| `FdInstall.EntailmentMissed` | emulator/fd.c:2243-2244 | where it fails for the second list an entailment can be missed: for X in 0..max(Y), labelling Y with its maximum passes over the indexical, which stays unmarked though its range is constant and has the domain of X in it |
| `FdSetup.SetUpReady` | emulator/fd_akl.c:785-813 | a problem whose indexicals have all been compiled, loaded and suspended in any order of arguments is well posed wherever the classes see every change of direction, and the code area holds the code of each: what propagation and search suppose |
| `FdCode.Loader.LoadTokens` | emulator/parser.y:1902-1990 | the loader leaves in the code area what the token list says, every check operand patched, or stops with the fatal error |
| `FdCode.LoadIndexical` | emulator/fd_akl.c:785-813 | loading the compiled form of any range puts its byte code at the old top with every check jumping behind its guarded range, or the area is full; nothing before it changes |
| `FdMachine.RunIndexical` | emulator/fd.c:641-918 | the byte code of any range that is no element range yields the set the range denotes unless the program stops, and it does not stop when the evaluation is defined and the two stacks are deep enough; its numbers are those of `FdArith.BinValue` |
| `FdMachine.LoadedAt` | emulator/fd_akl.c:797-813 | a loaded indexical lies whole at the old top of the code area, and earlier code is a prefix of the new |
| `FdVar.DomFacts` | emulator/fd_akl.h:162-168 | the bounds kept for a variable are those of its domain, and it is determined exactly when the domain is a single value |
| `FdVar.GetDom` | emulator/fd.c:302-340 | a block is filled with exactly the domain of a variable in each of its three forms |
| `FdVar.InFd` | emulator/fd.c:229-236 | membership in a domain for a value between its bounds |
| `FdVm.Evaluator.EvaluateRange` | emulator/fd.c:641-918 | the imperative evaluator with its two stacks computes what the abstract machine does: the same set or interval, or stops when it stops; the heap top is eight words for every set on the stack throughout |
| `FdElement.ElementX` | emulator/fd.c:342-375 | the values of a list at the positions of a domain, exactly; what makes the instruction leave the list or the block, exactly |
| `FdElement.ElementI` | emulator/fd.c:377-412 | the positions of a list whose values are in a domain, exactly |
| `FdElement.BothHold` | oldcompiler/fd_akl.akl:63-83 | the two indexicals of element(I, L, X) hold for the same assignments, those with L(I) = X |
| `FdElement.BothShrink` | oldcompiler/fd_mon.akl:128-131 | both ranges shrink with the domain they depend on and lose no pair of the constraint |
| `FdSetup.ElementSame` | oldcompiler/fd_akl.akl:63-83 | as indexicals of a problem, the two that element(I, L, X) compiles to hold for the same assignments, those with L(I) = X, so the one entailment variable they share may be set by either |
| `FdVm.Evaluator.EvaluateElement` | emulator/fd.c:719-730 | the code of an element range, its instruction and the halt, yields the range of the element, and stops exactly when the list or the block would be left; propagation, counting and search include such indexicals |
| `FdVm.Evaluator.DoPair` | emulator/fd.c:839-850 | union and intersection drop the newest block and leave the result in the older one |
| `FdVm.Evaluator.DoCheck` | emulator/fd.c:851-861 | a nonempty set is popped from both stacks, an empty one stays |
| `FdNarrow.IntersectFd` | emulator/fd.c:173-227 | the classification is exact if and only if not (empty range against an interval starting at 0, or emptied variable against an interval holding 0 and 1); EMPTY and SUBSET are right in any case, and after NONEMPTY the range is the intersection; the fatal overflow is exactly characterised |
| `FdProblem.SolsAre` | emulator/fd.c:2396-2430 | the solution set is exactly the assignments within the domains that satisfy every indexical |
| `FdProblem.WellPosedNarrows` | emulator/fd.c:2221-2290 | what propagation supposes of a problem stays true as domains shrink |
| `FdProblem.RangeAtPoint` | emulator/fd.c:2152-2190 | with mon determined the range at any assignment in the box is within the range now, with amon determined it covers it |
| `FdProblem.NarrowKeepsSols` | emulator/fd.c:2265-2273 | cutting a domain to a range that can only shrink loses no solution |
| `FdFixpoint.SkipKeeps` | emulator/fd.c:2239-2249 | passing over a suspension (entailed, run since, unaffected, no direction) keeps the loop invariant: every indexical is done or still going to be run |
| `FdFixpoint.RanKeeps` | emulator/fd.c:2250-2267 | running an indexical that has nothing to say keeps it |
| `FdFixpoint.EntailKeeps` | emulator/fd.c:2262-2263 | binding the entailment variable of an indexical that holds throughout the box keeps it, for every indexical that shares the variable |
| `FdFixpoint.CutKeeps` | emulator/fd.c:2265-2279 | cutting a domain and queueing its variable keeps it: every indexical the change affects is pending |
| `FdFixpoint.AdvanceKeeps` | emulator/fd_akl.h:100-100 | leaving the head of the queue keeps it |
| `FdFixpoint.FixpointReached` | emulator/fd.c:2287-2289 | with the queue empty the domain of every indexical that is not entailed and can only shrink is within its range |
| `FdFixpoint.CoveredHolds` | emulator/fd.c:2259-2264 | SUBSET under a range that can only grow: the indexical holds for every assignment left |
| `FdFixpoint.CutHolds` | emulator/fd.c:2280-2283 | a constant range holds for every assignment left by the cut |
| `FdFixpoint.EmptyNoSols` | emulator/fd.c:2254-2258 | EMPTY under a range that cannot grow: no solution is left |
| `FdFixpoint.LabelKeeps` | emulator/fd.c:2111-2122 | labelling an undetermined variable with one of its values and queueing it starts propagation with the invariant |
| `FdFixpoint.LabelChange` | emulator/fd_akl.h:190-190 | the class used for a label says exactly which bounds move |
| `FdFixpoint.DeterminedSolves` | emulator/fd.c:2292-2305 | at rest with every variable determined the one assignment left is the one solution |
| `FdStore.UndoneAt` | emulator/fd.c:2089-2097 | undoing the trail gives every saved word its oldest saved value and changes nothing else |
| `FdStore.PushRestores` | emulator/fd_akl.h:195-196 | saving a word keeps the trail able to restore an earlier memory |
| `FdStore.WriteRestores` | emulator/fd_akl.h:195-196 | so does any write to a word that is saved or was not there |
| `FdStore.BeforeNext` | emulator/fd.c:2077-2087 | the stamps of an inner choice point are all later than those before it, so each record is saved once for each choice point |
| `FdState.QueuedTest` | emulator/fd_akl.h:102-102 | the test for a queued variable is right: a link, or being the last |
| `FdState.LinkQueue` | emulator/fd_akl.h:98-99 | enqueueing links the variable behind the last one of the list |
| `FdState.UnlinkQueue` | emulator/fd_akl.h:100-100 | dequeueing unlinks the head and keeps the rest of the list |
| `FdSolver.Solver.TrailOnce` | emulator/fd.c:2077-2087 | after the stamp test the five words of a record are saved for this choice point, saved before or now |
| `FdSolver.Solver.Monoton` | emulator/fd.c:2152-2190 | the direction of a range by its two lists, whose positions only pass determined variables |
| `FdSolver.Solver.PropInfo` | emulator/fd.c:2192-2219 | the new bounds, the value if only one is left, and the class of exactly the bounds that moved |
| `FdSolver.Solver.SetDom` | emulator/fd.c:2124-2150 | the words of the range become the domain, in a block of its own if the variable was an interval; every word overwritten is saved |
| `FdSolver.Solver.NarrowVar` | emulator/fd.c:2268-2273 | a variable's record shows the cut domain and nothing else in memory changes |
| `FdSolver.Solver.PutOnQueue` | emulator/fd.c:2274-2279 | the variable is queued once, its change classes united and its time set |
| `FdSolver.Solver.Evaluate` | emulator/fd.c:2250-2252 | the set computed for an indexical, element ranges included, is the one its range denotes over the current domains; it does not stop from an entry box in which every indexical stays evaluable (`FdSafe.Safe`) |
| `FdSolver.Solver.RunOne` | emulator/fd.c:2250-2285 | one indexical run: FALSE only when no solution is left; otherwise the invariant, the solutions and the restorability are kept and values or work have gone; an indexical that cannot shrink any more, and either cannot grow or has the whole domain in its range, is marked as entailed; it does not stop from an entry box in which every indexical stays evaluable (`FdSafe.Safe`) |
| `FdSolver.Solver.FdProp` | emulator/fd.c:2221-2290 | propagation ends (fewer values, then a shorter queue), loses no solution, answers FALSE only if none is left, and on TRUE leaves a fixpoint in which every indexical that was to be marked as entailed when last run is marked; everything it changed can be undone; it does not stop from an entry box in which every indexical stays evaluable (`FdSafe.Safe`) |
| `FdEntail.EntailmentReached` | emulator/fd.c:2259-2283 | at rest an indexical is marked as entailed that has come to be: all that keeps its range from growing only is determined, and was watched, and all that keeps it from shrinking only is determined too, or it is an ask whose range has come to contain the domain |
| `FdSearch.Try` | emulator/fd.c:2327-2338 | labelling and propagating: FALSE only when the value leaves no solution, otherwise rest with the same solutions, and every indexical that has come to be entailed is marked |
| `FdSafe.PlainSafe` | emulator/fd.c:641-918 | indexicals without arithmetic are safe in every box: nothing stops propagation or search over them |
| `FdCalc.BoundHolds` | emulator/fd.c:641-918 | bounds computed for a term from the domains on entry hold in every box they can narrow to |
| `FdCalc.CalcSafe` | emulator/fd.c:641-918 | indexicals with arithmetic are safe when, by those bounds, every divisor is positive, every offset can be shifted by and every interval ends within the universe; element ranges when every position of the domain is in the list |
| `FdSearch.ResetTrail` | emulator/fd.c:2089-2097 | memory holds again everything it held at the choice point: bounds, info, links, domain pointers and words, list positions, entailment, bindings |
| `FdSearch.SetValue` | emulator/fd.c:2111-2122 | the domain of the variable becomes the one value, undoably |
| `FdSearch.InDom` | emulator/fd.c:229-236 | membership in the domain for a value between the bounds |
| `FdSearch.CountStep` | emulator/fd.c:2419-2429 | the solutions of the next value are counted once more and no other |
| `FdSearch.NumberOfBits` | emulator/fd.c:292-300 | the number of set bits of a word |
| `FdSearch.WordsSize` | emulator/fd.c:2456-2459 | the bits of the words of a domain add up to its size |
| `FdSearch.Choose` | emulator/fd.c:2432-2477 | the variable to label and the list to go on with: the first of the list that is not determined, or the first of those with the smallest domain; done exactly when every variable of the list is determined |
| `FdSearch.NumbOf` | emulator/fd.c:2396-2494 | the counter goes up by exactly the number of assignments within the entry domains that satisfy every indexical, in either order of labelling, and memory and trail are as before; it does not stop from an entry box in which every indexical stays evaluable (`FdSafe.Safe`) |
| `FdSearch.OneSolution` | emulator/fd.c:2292-2394 | TRUE leaves the first solution in the order of labelling: each variable as it is chosen has the least value that leaves a solution, and so on below it; FALSE says that there is none and restores memory; it does not stop from an entry box in which every indexical stays evaluable (`FdSafe.Safe`) |
| `FdSearch.NumberOf` | emulator/fd_akl.c:937-967 | the builtins return the brute-force number of solutions; it does not stop from an entry box in which every indexical stays evaluable (`FdSafe.Safe`) |
| `FdSearch.One` | emulator/fd_akl.c:885-936 | the builtins succeed if and only if there is a solution; in the order of the list they leave the least one, variable by variable along the list; it does not stop from an entry box in which every indexical stays evaluable (`FdSafe.Safe`) |
| `FdFirst.FirstIsLeast` | emulator/fd.c:2292-2340 | taking for each variable of the list in turn the least value that leaves a solution gives the solution that comes before all others along the list |
| `FdFirst.FirstIsSolution` | emulator/fd.c:2292-2394 | in either order of labelling what is so found is a solution |
| `GcCollect.Scavenger.CopyPair` | emulator/copy.c:1227-1317 | a list cell is copied behind everything else, both its cells are forwarded when they are variables, and the copy is taken back exactly when one of them is external |
| `GcCollect.Scavenger.CopyStruct` | emulator/copy.c:1318-1416 | the same for a structure: every argument that is a local variable is forwarded, the header last, and nothing is left of the attempt when an argument is external |
| `GcCollect.Scavenger.GcLocations` | emulator/gc.c:1323-1639 | the loop with its stack threaded through the copied objects ends (objects left to copy, then cells left to scan); every location allocated holds its final word or waits on the reference stack, and every reversed pointer has been put back |
| `GcCollect.Scavenger.GcSavedRefs` | emulator/gc.c:1194-1242 | each variable met as a bare reference becomes the cell inside its copied object if there is one and a cell of its own otherwise; every location then holds the image of its old term |
| `GcCollect.Scavenger.ResetTrm` | emulator/copy.c:445-451 | putting the saved words back, last in first out, makes old space what it was, word by word, and leaves the copy alone |
| `GcMeaning.OnlyReached` | emulator/gc.c:1323-1639 | whatever is copied can be reached from the roots |
| `GcMeaning.CollectedIsomorphic` | emulator/gc.c:1194-1242 | the copy is the old graph under new names: roots, shapes, constants, sharing and cycles kept, one copy for each object and variable, nothing unreachable copied, nothing external copied |
| `GcMeaning.Collect` | emulator/gc.c:1323-1639 | a whole collection of any well-formed heap from any block of roots ends in such a copy |
| `GcMeaning.CopyTerms` | emulator/copy.c:1027-1067 | so does a whole copy; external variables stay shared, and afterwards old space is exactly what it was |
| `SplitCopy.Config.CopyTree` | emulator/copy.c:768-863 | everything below a box is copied below another: the copy is the same tree over new boxes, completely linked, and every old box is marked and leads to its copy |
| `SplitCopy.Config.ResetTree` | emulator/copy.c:489-509 | the father and previous links of everything below a box are right again, whatever they were, and nothing else changes |
| `SplitBeside.Unlink` | emulator/copy.c:364-376 | the candidate is taken out of the row of alternatives with the links of its two neighbours |
| `SplitBeside.InsertCopy` | emulator/copy.c:384-407 | the copy is linked in immediately to the left of its original |
| `SplitBeside.Copy` | emulator/copy.c:328-487 | from any well-linked tree: the copy stands immediately left of mother with the copy of the candidate as its only alternative, mother keeps the other alternatives in order, every father, next and previous link below the choice-box above is right, the copy is the same tree over new boxes, boxes outside are unchanged, the result is the copy of the candidate, and the candidate is dead |
| `SplitWays.SplitMeaning` | emulator/copy.c:361-471 | when the fork has no untried clauses, each way of resolving the original and-box is a way of resolving the copy or what is left, counted once |
| `SplitWays.SplitExactly` | emulator/copy.c:361-471 | the two boxes have together the ways of the original if and only if no way goes through an untried clause of the fork |
| `SplitWays.SplitOnTree` | emulator/copy.c:361-471 | read off the boxes: they have if and only if not: the fork has untried clauses, the and-box is not dead, and each other fork of it can be resolved |
| `SplitWays.SplitAbove` | emulator/copy.c:386-407 | the choice-box above has exactly the ways it had before the split |
| `UnUnify.BindsInward` | emulator/unify.c:100-128 | of two variables an external one is never bound to a local one |
| `UnMeaning.UnifyMeaning` | emulator/unify.c:82-274 | for terms with cycles: on success the solutions of the new store are those of the old store that make the terms equal, on failure there are none, whatever aliases the table has collected |
| `UnLoop.EndsIff` | emulator/unify.c:82-274 | the loop ends if and only if its table of aliases never leads in a circle |
| `UnLoop.EnterEnds` | emulator/unify.c:197-204 | entering an alias keeps every chain of aliases finite if and only if the chain of the new alias does not lead back |
| `UnLoop.NoCircle` | emulator/unify.c:197-201 | a table without such a chain cannot make the loop go round |
| `UnLoop.LoopForever` | emulator/unify.c:82-274 | unifying f(B,A,A) with f(A,B,C), the three being separate copies of [1], never ends |
| `UnLoop.LoopEqual` | emulator/unify.c:82-274 | although every solution gives the two terms the same tree |
| `UnTree.TreeEnds` | emulator/unify.c:82-274 | a condition on the two terms and the store alone: when no object of the first term is reached twice and none of its unbound variables from the second, unification ends |
| `UnTree.ConverseFails` | emulator/unify.c:82-274 | that condition is not necessary: a term that shares a part, unified with itself |
| `UnPairs.PairsEnd` | emulator/unify.c:82-274 | a second condition on the two terms and the store alone, for terms that share and terms with cycles: when, walking through both side by side, each object on the left meets one object on the right only and each unbound variable is met in one pair only, unification ends |
| `UnPairs.SelfMeets` | emulator/unify.c:82-274 | a term with itself fulfils it, whatever it shares |
| `UnPairs.RingsMeet` | emulator/unify.c:82-274 | so do two cyclic lists, though they are no finite trees |
| `UnPairs.LoopUnmatched` | emulator/unify.c:82-274 | the pair for which unification never ends does not |
| `UnExec.Exec.UnifyMore` | emulator/unify.c:55-274 | the imperative loop over memory, trail, stack and table does what the steps do, verdict for verdict and word for word |
| `UnLog.LastLogged` | emulator/exstate.c:675-727 | at every moment the trail tells exactly how to get from the store to the store on entry, for every external variable |
| `UnSuspend.Solvable` | emulator/exstate.c:460-487 | every well-formed store has a solution |
| `UnExec.Exec.Suspend` | emulator/engine.c:3355-3378 | every external variable is as on entry, each binding has become a unifier with suspensions on the variables it mentions, and the store with the unifiers has exactly the solutions the store had; unifiers of earlier suspensions are kept |
| `UnExec.Exec.Install` | emulator/examine.c:44-96 | on success the store has exactly the solutions the store and the unifiers had, on failure there were none; everything bound can be undone; it cannot fail on what a suspension left |
| `UnExec.Exec.InstallB` | emulator/examine.c:119-136 | the same for all the and-boxes from one box down to another: each is entered in a context that begins where the trail ended, whatever it binds is logged in its unifiers and its own stretch of the trail, and the store it was entered with has the solutions of the equations above it; so also for the boxes entered before a failure |
| `UnExec.Exec.Reenter` | emulator/engine.c:3360-3378 | suspend then install never fails, gives a store with the solutions it had before, and is ready to be suspended again |
| `UnExec.Exec.Fail` | emulator/engine.c:3510-3535 | failing puts every variable external to the box, and to boxes below it that have failed before, back to its word on entry |
| `UnExec.Exec.FailPath` | emulator/engine.c:3467-3535 | failing the boxes entered from the innermost one up: their contexts are gone, the trail is as it was, and every variable external to all of them has its word before the first was entered |
| `HashProbe.ProbesDiffer` | emulator/ptrhash.h:37-53 | an odd stride in a table whose length is a power of two probes no slot twice in a round |
| `HashProbe.EverySlot` | emulator/ptrhash.h:37-53 | so the first round probes every slot |
| `HashTable.Search` | emulator/hash.h:361-402 | the probe loop ends at the key, or at a vacant slot where the key belongs |
| `HashTable.LengthFor` | emulator/ptrhash.c:22-44 | a new table has a power of two of slots, at least as many as asked for, and exactly as many if a power of two is asked for |
| `HashTable.Rehash` | emulator/ptrhash.c:46-76 | growing: the new table holds the same map, and its limit counts the entries put into it |
| `HashTable.Table.Lookup` | emulator/ptrhash.h:37-53 | a key is found exactly when it is in the map the table stands for, with its value; otherwise the slot is vacant and on its path |
| `HashTable.Table.Enter` | emulator/ptrhash.h:62-69 | entering after a failed lookup is the update of the map, also when the table grows; a quarter of the slots stays vacant |
| `HashTable.Table.Grow` | emulator/hash.h:287-320 | growing keeps the map and doubles the table |
| `HashTable.Table.Set` | emulator/hash.h:469-493 | set is the update of the map, for new and for known keys |
| `HashTable.Table.Get` | emulator/hash.h:427-437 | get is the lookup in the map |
| `HashTable.Table.Clear` | emulator/ptrhash.c:7-20 | clearing leaves the empty map |
| `HashDict.Dict.Push` | emulator/inout.c:1391-1411 | the table tells the position of every term pushed and not lost |
| `HashDict.Dict.Pop` | emulator/inout.c:1413-1436 | popping the top; a term that is not in the table is refused; at the bottom the table is trimmed and everything forgotten |
| `HashDict.Dict.LookUp` | emulator/inout.c:1438-1460 | the distance from the top for a term that is seen, 0 otherwise |
| `HashDict.LostExactly` | emulator/inout.c:1391-1436 | after any last-in first-out run the terms on the stack that are not seen are exactly those whose last operation was a pop |
| `HashDict.SeenExactly` | emulator/inout.c:1438-1460 | a lookup agrees with the stack if and only if the term is not on it or was last pushed |
| `HashDict.SimpleSeen` | emulator/inout.c:1391-1460 | without duplicates it always agrees |
| `HashDict.DuplicateLost` | emulator/inout.c:1413-1436 | a term pushed twice and popped once is on the stack and is not seen |
| `TermOrder.AklCompareAux` | emulator/compare.c:115-295 | the comparison with its loops and its result variable computes the recursive comparison, refusals and suspensions included; for ground terms `TermLess.StandardOrder` says what that is |
| `TermOrder.CompareIs` | emulator/compare.c:115-295 | on ground trees it always answers, whatever the result variable held, and with the order by kind, value, functor and arguments |
| `TermLess.StandardOrder` | emulator/compare.c:115-295 | on ground terms LESS is answered exactly for the term that comes first: floats, integers, atoms, compound terms; the smaller number; the name that is a part from the start or has the smaller character where they first differ; name, arity, features of the functor; the first argument that differs |
| `TermLess.AtomOrder` | emulator/compare.c:169-182 | atoms are in the order of their names, in both directions |
| `TermLess.StrAnswers` | emulator/compare.c:174-180 | the three answers of strcmp on two names |
| `TermOrder.EqualIff` | emulator/compare.c:115-295 | terms compare equal exactly when they are equal up to the signs of zeros |
| `TermTotal.FlipIff` | emulator/compare.c:235-266 | comparing the other way round gives the converse if and only if the comparison does not come down to a list cell and a structure `.` of two arguments |
| `TermTotal.OrderChained` | emulator/compare.c:115-295 | comparisons of three terms without such structures chain: transitivity of less, of greater and of equal |
| `TermTotal.TotalOrder` | emulator/compare.c:115-295 | on ground terms without such structures the order is reflexive, total, antisymmetric up to the signs of zeros, and transitive |
| `TermTotal.DotsClash` | emulator/compare.c:235-266 | with them it is not: each of two terms is greater than the other |
| `TermHash.GroundHashFunc` | emulator/ghash.c:37-101 | the accumulating function with its loop computes the recursive hash value |
| `TermHash.GroundHashes` | emulator/ghash.c:37-101 | every ground tree has a hash value |
| `TermHash.HashedWhen` | emulator/ghash.c:39-117 | there is a hash value if and only if every part of a term is a number or an atom; otherwise the first part that is none decides: a variable suspends, anything else is no tree |
| `TermHash.HashMixes` | emulator/ghash.c:39-108 | the value is that of all parts from left to right, and of name and arity of each structure behind its arguments, mixed one after the other |
| `TermHash.HashExactly` | emulator/ghash.c:37-115 | terms that compare equal have the same hash value if and only if the two floating-point zeros hash alike |
| `TermHash.KeyFound` | emulator/ghash.c:635-700 | then a key set under one term is looked up under every term that compares equal, with the same hash value |
| `CodeSort.SortPairs` | emulator/code.c:117-146 | the bubble sort ends and leaves the pairs of the table sorted, the same pairs, and no other word changed |
| `CodeAssembler.Assembler.PutLabel` | emulator/encodeinstr.h:17-20 | a reference puts the old head of the chain into the code and becomes the head; the chain of every label has exactly the words that refer to it |
| `CodeAssembler.Assembler.StoreLabel` | emulator/code.c:46-54 | the first definition of a label counts |
| `CodeAssembler.Assembler.SortSwitchTable` | emulator/code.c:117-157 | the table is sorted and each label word becomes a reference in the chain of its label; too high a label is the fatal error |
| `CodeAssembler.Assembler.FixLabelrefs` | emulator/code.c:70-108 | following the chains ends with every word that refers to a label holding its address and no other word changed; undefined labels are reported |
| `CodeSwitch.Search` | emulator/engine.c:1692-1723 | the binary search ends at a pair with the key, or at the else label if there is none; what it does on an empty table |
| `CodeSwitch.Dispatch` | emulator/engine.c:1692-1723 | in the assembled code the instruction branches to the address of the label of a pair with the key, or of the else label if there is none; where equal keys have equal labels, to that of the label a linear search of the table as it was written finds |
| `CodeSwitch.AgreeingIff` | emulator/engine.c:1692-1723 | any pair with the key is as good as the first one if and only if pairs with equal keys have equal labels |
| `CodeSwitch.EmitSwitch` | emulator/parser.y:926-934 | writing a switch as the parser does leaves its sorted table, with a reference for every label and the else label behind it, at the place it was begun; it fails exactly when a label is too high |
| `CodeProgram.RunSwitch` | emulator/engine.c:1692-1723 | a whole definition of words, references, label definitions and switches, assembled and fixed: each of its switches branches to the place where the label that a linear search finds was first defined; assembling fails exactly when a label is too high |
| `CodeProgram.FirstDefined` | emulator/code.c:46-54 | a label stands for the place of its first definition, whatever else the definition holds |
| `PathContract.Contract` | emulator/foreign.c:510-559 | contracting an absolute path in place gives the path of the components left when `.` is dropped, `..` takes back one but never the root, an empty component starts again and a trailing slash goes; what is written never passes what is read |
| `PathNames.NormalTwice` | emulator/foreign.c:510-559 | contracting a contracted path changes nothing |
| `PathNames.NormalNames` | emulator/foreign.c:510-559 | a contracted path is the root or has ordinary components only |
| `PathNames.NormalFollows` | emulator/foreign.c:510-559 | in every tree of directories a path that leads somewhere leads to the same directory when it has been contracted |
| `StackSegments.Stack.ShiftRecall` | emulator/exstate.c:202-244 | opens i slots where the segment of context n begins, growing the stack if it has to; every other segment, and the rest of this one, is as it was |
| `StackSegments.Stack.NewContext` | emulator/exstate.c:281-293 | a new context has an empty segment on top of the others |
| `StackSegments.Stack.Insert` | emulator/copy.c:750-759 | the slots opened get the saved entries, the last one first |
| `StackSegments.Stack.CopyContext` | emulator/copy.c:724-763 | in every context the copies of the copied entries come to lie in front of its segment, and nothing is lost |
| `StackSegments.Stack.GcContext` | emulator/gc.c:430-510 | hare and turtle: in every context the entries kept are forwarded in their order, and the marks of the contexts move along |
| `StackContexts.Exstate.GcContext` | emulator/gc.c:430-510 | the recall, wake and task stacks of boxes that have been copied: in every context the entries for copied boxes stay, in their order, each naming the copy; a task keeps its kind and its code, and tasks without a box are all kept |
| `ArrayViews.TestExact` | emulator/array.c:476-486 | the four-way bounds test passes exactly the sub-arrays all of whose elements are elements of the whole, for strides of either sign |
| `ArrayViews.ChainInside` | emulator/array.c:423-501 | through any chain of sub-arrays every valid index is an element of the first array, in the same cell, inside the data |
| `ArrayViews.CellsDiffer` | emulator/array.c:541-541 | different elements of a view are different cells |
| `ArrayViews.WrapPasses` | emulator/array.c:472-486 | with wrapped machine arithmetic the test can pass a sub-array of which only one element fits |
| `ArrayViews.Array.SubArray` | emulator/array.c:375-501 | which sub-arrays are made, which are refused, and when the numbers leave the machine integers, each exactly |
| `ArrayViews.Array.Get` | emulator/array.c:506-551 | an element is read exactly for an index in range |
| `ArrayViews.Array.Set` | emulator/array.c:557-604 | what is set is read back through every view of the same cell, and no other cell changes |
| `ArrayViews.NewArray` | emulator/array.c:292-343 | a new array has all its elements, from the index asked for, or from 0 |

## Left out

- FdWords.BitAdd: a shift by the full width of a word, which C leaves undefined, is taken to clear the word and reported by ok; nothing is said of negative numbers, which C leaves undefined too.
- FdWords.BitSub: the same.
- FdMono.AnalysisSound: the sign conditions are sufficient for each operator and not necessary for a whole range, where two wrong steps can cancel; they speak of all narrower domains, and `ShapeSigns` gives the part a compiler can read off.
- FdSolver.Solver.FdProp: the capacity of the value trail, which the source asserts, and the 24-bit width of time stamps are not modelled; trail and clock are unbounded.
- FdSolver.Solver.TrailOnce: an initial stamp is a number below the first choice point; a leftover environment pointer read as a stamp is not part of this model.
- FdVm.Evaluator.EvaluateRange: the two element instructions are run by `EvaluateElement`, as they are the whole code of their indexicals; their list is kept with the indexical and not among its domain arguments. `..` and single terms as ranges are the interval from a term to itself.
- FdInstall.Lists.SuspendIndexical: linking the constraint to the and-box, building the suspension record once for all variables, and marking boxes of external variables are not modelled; the lists of the variables are.
- FdNarrow.IntersectFd: the two numbers of an interval are kept beside the words, not overlaid on the first two words of the block.
- FdCode.Loader.LoadTokens: checks nested beyond the 50 entries of the label stack are outside the model, as nothing in the loader guards them.
- FdEntail.EntailmentReached: nothing is said of an indexical whose range comes to contain its domain because the domain shrinks, as nothing runs it then.
- FdFirst.FirstIsLeast: smallest domain first, which variable is chosen depends on what propagation leaves; that is said step by step (`FirstFound`) and not as one order of solutions.
- GcCollect.Scavenger.GcLocations: bignums, floats, constrained variables, generic objects and environments are not modelled, nor is the clearing of suspension lists; a term is an immediate, a variable, a list cell or a structure.
- GcMeaning.CopyTerms: suspensions of external variables (`external_suspensions`) and promoted environments are not modelled.
- SplitBeside.Copy: continuations, constraints and unifiers of a box are copied as one opaque value; the moves of task, wake and recall entries to the new context are not modelled.
- UnExec.Exec.UnifyMore: bignums, floats, generic objects and constrained variables are not modelled, nor are the growth of the stack and the table, promoted environments, and the wake and examine queues.
- UnExec.Exec.Install: constraints of an and-box are not modelled, only its unifiers.
- UnExec.Exec.InstallB: the same.
- UnExec.Exec.Suspend: constraints are not modelled; wake entries are kept as the set of variables an and-box waits for.
- UnTree.TreeEnds: the condition is sufficient and, as `ConverseFails` shows, not necessary; the exact condition is `EndsIff`.
- UnPairs.PairsEnd: sufficient too; the two conditions cover different pairs of terms.
- HashTable.Search: no slot is ever marked deleted, so the branch for such slots is not modelled.
- HashTable.Table.Enter: the key 0, which marks a vacant slot of the pointer tables, is no key; failing allocation is not modelled, and neither is deletion, which leaves its slot occupied.
- HashDict.Dict.Pop: popping a term of the table that is not on top is outside the model; the printer pops what it pushed last.
- TermOrder.CompareIs: functor objects and other objects are compared by `Compare` but are not ground trees; two equal functor objects without features leave the result variable as it was.
- TermHash.HashExactly: what integers, atoms and floats hash to are parameters; a bignum is its value.
- CodeAssembler.Assembler.StoreLabel: labels beyond the label table, which this routine does not check, are outside the model.
- CodeAssembler.Assembler.FixLabelrefs: tagged references of the alternative instruction set and overflow of the code area, which is noticed afterwards only, are not modelled.
- CodeSwitch.Dispatch: with an empty table the word behind it is compared, as `Search` says; that it is not taken for the key is supposed.
- CodeProgram.RunSwitch: labels defined beyond the label table are outside the model, as `StoreLabel` does not check them.
- PathContract.Contract: the first phase, which expands `~` and `$` from the environment, is not modelled; the path is supposed to be absolute, as that phase makes it.
- PathNames.NormalFollows: symbolic links are not part of this model; an empty component inside a path leads to the root, as the source reads it.
- StackSegments.Stack.CopyContext: the fixed size of the table of saved entries is not modelled.
- ArrayViews.Array.SubArray: suspension on unbound arguments and on arrays of other and-boxes is not modelled; a result outside the machine integers is reported as overflow, as C does not define it.
- Propagation in the concurrent engine (`fd_propagate`, trail constraints, promotion) differs from `fd_prop` by waking and locality and is not modelled.
- Walking the father links (`isdead`, `isunder`, `examine`) and swapping a domain with its record on a trail (`install_trail`, `deinstall_trail`) would add easy members.
- Copying and collecting of suspensions, printing and the disassembler.
