# Verified model of the swap planners, the process loop and their data structures

This project models, in Dafny, the parts of the repository whose correctness is hardest to see by reading, and proves
what they promise. Nothing was executed: every claim below is a contract or a lemma checked by the Dafny verifier.
`dafny verify dfyconfig.toml` checks the whole project.

- **Matrix planner** (`internal/matrix`). A DSL expression describes a family of model sets: a leaf is one model, `|` is
  a choice, `&` a pairwise union, `+name` a reference. `MatrixNodes.Expansion` is that family, written as the full
  Cartesian expansion which the program never builds. The lexer, the recursive-descent parser, the topological order,
  the removal of empty references, the linking, the support masks and the memoising evaluator over bit masks are
  modelled as the source runs them, and the planner's answers are proved equal to what the full expansion says.
- **Capacity planner** (`internal/router/capacity.go`, `internal/config/capacity.go`). Greedy seed, branch and bound
  with three prunes and a node budget, clean-up pass, all in a bounded `int64` type: every addition and subtraction is a
  proof obligation that the validation makes dischargeable.
- **Process loop** (`internal/process`). The single-writer loop, the start goroutine with its compare-and-swap progress
  reports, the reaping of children and the clients' requests as one transition system. `ProcessLoop.Inv` is what every
  reachable state keeps, and `ProcessAnswers` what has happened when a request is answered.
- **Event group** (`internal/event/event.go`). `Add`, `Del`, `Broadcast` and `Listen` as interleaved critical sections
  with a condition variable; the two swapped buffers also as real slices over arrays.
- **Buffers and merging**. The FIFO byte cache, the ring, the circular log buffer and the merge of configuration
  sources.

## How to read the contracts

- `Slices.Slice` is a Go slice: a backing array and a length, so that `states[:0]` followed by `append` overwrites the
  array that another slice may share. `MatrixEvaluator.Evaluator.Evaluate` has `modifies this` and nothing else, which
  is the frame property that no memoised (or any other existing) slice is written once it is stored.
- `MatrixTraversal.Traversal(relevant, n)` is the list of states an expression yields, in order, each as the relevant
  models it keeps and the models it names; `MatrixFrontier.Shows` says that a slice of states stands for such a list.
  `Represents` says that a list is pairwise incomparable, that each member is the projection of a set of a family which
  it names, and that every set's projection lies below some member.
- `MatrixSolver.Solved` states what `Solve` promises, in terms of the full expansion only: `Cheapest` quantifies over
  every set of every compiled expression that contains the target, and prefers the first compiled expression on ties.
  `MatrixSolver.Picked` determines the decision altogether, as the first of the cheapest states of the traversals;
  `MatrixTies.LeftMajor` is the full expansion as a list and `MatrixTies.FirstInExpansion` its first cheapest set.
- `MatrixSimplify.Meaning` is an expression's family with every term that stands for an empty set deleted;
  `MatrixSimplify.Vanishes` says which terms those are, through any chain of references.
- `MatrixSolver.Billed` and `MatrixFamilies.FamilyOf` are references of their own: the one adds up the configured costs
  of the running models outside a set, the other reads the family of a parsed text off the text.
  `MatrixFamilies.Describe` is the system of equations the texts state about each other, and
  `MatrixCompile.MeansItsTexts` says that a program solves it.
- `MatrixCompile.Compiles` ties a program to the ordered definitions; `ExactSupport` says that a support bit is set
  exactly when some described set contains the model.
- `CapacityPromise.Promised` states what a capacity decision promises, from the configured numbers and the characters of
  the IDs alone; `CapacitySwapper.Decides` is the same in the terms of the search.
- `ProcessAnswers.AnswerMeans` says what holds at the step that answers a request, by the call it answers; `Fine`,
  `Aborted` and `Failed` are no error, the error of an aborted start, and any other error.
- `ConfigMerge.At(y, path)` is the node reached through mappings; `Agrees` says what two sources become at a path;
  `Clash` says which two nodes cannot stand at one path.
- `MatrixOrder.PostOrder` is the depth-first post-order and `MatrixCompile.CompileOrder` the order of a compiled
  program: that of the definitions as written, with each expression's references in the order of first mention.
- `EventRuns.ReturnsAlone` says that a consumer can reach its return with nobody else taking a step;
  `EventRuns.Broadcasts` names the steps that wake it.

## Model

| member | source | states |
|---|---|---|
| BitMasks.SetBit | internal/matrix/program.go:509-510 | setting a bit of a 64-bit-word mask adds exactly that bit |
| BitMasks.UnionMask | internal/matrix/program.go:465-471 | the word-wise OR has exactly the bits of both masks |
| BitMasks.SubsetOf | internal/matrix/program.go:456-463 | true exactly when every bit of the one mask is in the other |
| Slices.Append | internal/matrix/program.go:576-582 | appending with spare capacity writes the shared backing array at one index only; otherwise it reallocates |
| MatrixNodes.ExpansionMentioned | internal/matrix/doc.go:6-8 | no described set has a model the expression does not mention |
| MatrixNodes.MentionedOccurs | internal/matrix/program.go:188-190 | in an expression without empty operands every mentioned model occurs in some described set |
| MatrixNodes.Inhabited | internal/matrix/doc.go:6-8 | an expression without empty operands describes at least one set |
| MatrixFrontier.SubsetIsSeen | internal/matrix/program.go:456-463 | comparing masks is comparing the relevant models they keep |
| MatrixFrontier.Dominated | internal/matrix/program.go:570-574 | the early return is taken exactly when some state keeps all the candidate keeps |
| MatrixFrontier.DropBelow | internal/matrix/program.go:576-581 | compacting in the slice's own array leaves exactly the states not below the candidate, in order |
| MatrixFrontier.AddToFrontier | internal/matrix/program.go:567-583 | in place: a dominated candidate changes nothing, otherwise the states below it go and it comes last |
| MatrixFrontier.InsertedShows | internal/matrix/program.go:567-583 | on what states keep and name, adding a candidate is one insertion of the specified order |
| MatrixTraversal.InsertIncomparable | internal/matrix/doc.go:37-41 | an insertion keeps the choices pairwise incomparable |
| MatrixTraversal.InsertCovers | internal/matrix/program.go:567-583 | dropping dominated choices never uncovers a set that was covered |
| MatrixTraversal.UniteKeeps | internal/matrix/program.go:549-555 | two choices united keep and name what the union of their sets does |
| MatrixFrontier.GrowAll | internal/matrix/program.go:536-538 | merging a child's states is inserting its choices one by one, in order, in the slice's own array |
| MatrixFrontier.CombineAll | internal/matrix/program.go:547-558 | uniting one left state with every right state inserts that row of the product in order |
| MatrixTraversal.OrRepresents | internal/matrix/program.go:534-539 | merging two representing lists represents the union of their families |
| MatrixTraversal.AndRepresents | internal/matrix/program.go:540-560 | pruning inside AND loses nothing: the pruned product represents all pairwise unions |
| MatrixTraversal.TraversalRepresents | internal/matrix/doc.go:26-41 | the traversal's states are incomparable, each is the projection of a set of the full expansion which it names, and every such set's projection lies below one of them |
| MatrixEvaluator.Evaluator.constructor | internal/matrix/program.go:492-504 | each relevant model gets a bit of its own, repetitions included once |
| MatrixEvaluator.Evaluator.FullMask | internal/matrix/program.go:506-512 | the mask has every relevant model |
| MatrixEvaluator.Evaluator.Evaluate | internal/matrix/program.go:514-565 | returns exactly the states of the traversal, in its order; stores them; keeps every memo entry; writes no existing array |
| MatrixEvaluator.Evaluator.Remember | internal/matrix/program.go:563-564 | storing an expression's states changes one memo entry |
| MatrixEvaluator.Evaluator.EvaluateLeaf | internal/matrix/program.go:523-531 | one state for the leaf, keeping its model if it is relevant and naming it in any case |
| MatrixEvaluator.Evaluator.EvaluateOr | internal/matrix/program.go:534-539 | the operands' states inserted one after the other, in a fresh array |
| MatrixEvaluator.Evaluator.EvaluateAnd | internal/matrix/program.go:540-560 | the pruned products of the operands' states from left to right, in fresh arrays |
| MatrixEvaluator.Evaluator.MergeAlternative | internal/matrix/program.go:535-539 | one operand of OR inserts its states behind those before it |
| MatrixEvaluator.Evaluator.CombineChild | internal/matrix/program.go:545-559 | one operand of AND turns the states so far into their pruned product with its own |
| MatrixEvaluator.Evaluator.CombineState | internal/matrix/program.go:547-558 | one left state adds its row of the product |
| MatrixSolver.CostIsEvicted | internal/matrix/program.go:355-387 | a decision's cost is the summed eviction cost of the models it evicts |
| MatrixSolver.CostMonotone | internal/matrix/doc.go:10-13 | keeping more never costs more when no cost is negative |
| MatrixSolver.CostIsBill | internal/matrix/program.go:434-439 | the summed eviction cost is the sum of the configured costs, 1 for each model without one |
| MatrixSolver.WithoutListsOutside | internal/matrix/program.go:376-381 | the victims are exactly the running models outside the chosen set, place by place and in order |
| MatrixSolver.SolvedIsBilled | internal/matrix/program.go:342-388 | the cheapest set has the smallest bill by the configured costs |
| MatrixSolver.FlattenWitness | internal/matrix/program.go:585-603 | lists the witness's named models once each, sorted |
| MatrixSolver.SupportsAll | internal/matrix/program.go:243-251 | is never false for an expression with a set that contains all the models |
| MatrixSolver.CanContainAll | internal/matrix/program.go:392-411 | true exactly when some fully expanded set contains all the models |
| MatrixSolver.FindContaining | internal/matrix/program.go:413-432 | names the first compiled expression with a set that contains all the models, or nothing |
| MatrixSolver.SetHolds | internal/matrix/program.go:399-408 | skipping by support and scanning the frontier together decide containment exactly |
| MatrixSolver.StatesContain | internal/matrix/program.go:404-407 | some state covers the full mask exactly when a described set contains all relevant models |
| MatrixSolver.ScanSet | internal/matrix/program.go:350-366 | the inner loop keeps the first of the cheapest states with the target, or the best before |
| MatrixSolver.StateUnder | internal/matrix/program.go:350-366 | for every described set with the target some state with the target costs no more |
| MatrixSolver.StateIsCandidate | internal/matrix/program.go:350-366 | every state with the target stands for a described set with the same cost and the same victims |
| MatrixSolver.ScanIsBest | internal/matrix/program.go:345-367 | after a scanned expression the best is the first of the cheapest states of all expressions so far |
| MatrixSolver.SkippedSet | internal/matrix/program.go:347-349 | an expression skipped by support has no state with the target |
| MatrixSolver.SolveSet | internal/matrix/program.go:345-367 | one expression of the loop, scanned or skipped, keeps the best so far |
| MatrixSolver.Solve | internal/matrix/program.go:323-389 | a running target evicts nothing and names the first expression holding all running models; otherwise the decision is the first of the cheapest states in compile and traversal order; its victims are the running models outside a described set with the target, its cost the sum of their configured costs (1 where none is), and no other such set leaves out a cheaper sum, nor an earlier expression an equal one; with no set for the target everything goes |
| MatrixSolver.PickedIsUnique | internal/matrix/program.go:342-388 | nothing of a decision is left open, whatever ties there are |
| MatrixSolver.PickedIsCheapest | internal/matrix/program.go:342-388 | the first of the cheapest states is a cheapest set of the full expansion, of the first expression that has one |
| MatrixPrices.CheaperVictimGoes | internal/matrix/program.go:345-388 | of the two expressions t & a and t & b, with a and b running, the target t takes the second exactly if a is configured cheaper; the whole decision in both cases |
| MatrixTies.LeftMajorElements | internal/matrix/doc.go:6-8 | the ordered expansion lists exactly the described sets |
| MatrixTies.PrunedIsSift | internal/matrix/program.go:567-583 | inserting a list one by one leaves its maximal choices, in order of first occurrence |
| MatrixTies.PrunedConcat | internal/matrix/program.go:534-539 | pruning the operands of OR before merging them changes nothing |
| MatrixTies.ProductOfPruned | internal/matrix/program.go:540-560 | where two operands share no relevant model, pruning them first does not change the order of their product |
| MatrixTies.TraversalIsPruned | internal/matrix/doc.go:37-45 | where no AND has operands that share a relevant model, the traversal is the ordered expansion, pruned once |
| MatrixTies.FirstOfSet | internal/matrix/doc.go:43-47 | there the first of the cheapest states comes from the first cheapest set of its ordered expansion |
| MatrixTies.FirstOfExpansionIsReported | internal/matrix/doc.go:43-47 | with positive costs and no such AND, Solve reports the first of the cheapest sets of the full expansion in compile and left-major order |
| MatrixReordered.ReorderedExpansion | internal/matrix/doc.go:6-8 | the full expansion of (a or b or (a and c)) and c is {a,c}, {b,c}, {a,c} in order |
| MatrixReordered.ReorderedTraversal | internal/matrix/program.go:540-560 | its traversal is {b,c}, {a,c}: pruning inside the choice moves the first behind |
| MatrixReordered.TieIsReordered | internal/matrix/program.go:342-388 | with target c and a and b running at the same price the decision evicts a and reports {b,c}, although {a,c} is the first cheapest set |
| MatrixResidency.StepKeepsCompatible | internal/matrix/program.go:323-389 | a swap or a stop leaves at most one model, or a subset of one described set |
| MatrixResidency.RunsStayCompatible | internal/matrix/program.go:323-389 | over every run of swaps and stops from nothing, the resident models are at most one or fit one described set |
| MatrixResidency.NoEvictionIffCoexist | internal/matrix/program.go:323-411 | with positive costs Solve evicts nothing exactly when the target runs already, nothing runs, or target and running models have a common set, as CanContainAll decides |
| MatrixDsl.ScanRun | internal/matrix/dsl.go:84-86 | the index stops behind the longest run of the character class |
| MatrixDsl.ReadToken | internal/matrix/dsl.go:54-88 | one token and the index behind it, or failure on `+` without a name and on any other character |
| MatrixDsl.Tokenize | internal/matrix/dsl.go:43-92 | the tokens of the text with the end marker, or failure, as the lexical definition says |
| MatrixParser.Parser.Next | internal/matrix/dsl.go:132-138 | takes one token and never moves past the end marker |
| MatrixParser.Parser.ParseOrExpr | internal/matrix/dsl.go:140-159 | parses an alternation and stops where the definition says |
| MatrixParser.Parser.ParseAndExpr | internal/matrix/dsl.go:161-180 | parses a conjunction and stops where the definition says |
| MatrixParser.Parser.ParseAtom | internal/matrix/dsl.go:182-201 | a name, a reference or a parenthesised expression; fails on anything else and on a missing parenthesis |
| MatrixParser.ParseDsl | internal/matrix/dsl.go:103-123 | accepts exactly the texts that lex and parse completely; blank text fails |
| MatrixParser.TrimLex | internal/matrix/dsl.go:104-112 | trimming space never changes the tokens |
| MatrixGrammar.ParsesOr | internal/matrix/dsl.go:140-201 | every derivation of the grammar is parsed to its meaning, leaving the rest |
| MatrixGrammar.DerivesOrList | internal/matrix/dsl.go:140-201 | everything parsed has a derivation that spells the tokens taken |
| MatrixGrammar.ParserDecidesGrammar | internal/matrix/dsl.go:103-201 | the parser accepts exactly the sentences of the grammar, with their meaning |
| MatrixGrammar.AcceptedIsWellFormed | internal/matrix/dsl.go:103-201 | every accepted text gives a tree of valid names whose operators have two or more operands |
| MatrixGrammar.WellFormedIsPrintable | internal/matrix/dsl.go:36-41 | every such tree can be printed |
| MatrixGrammar.OrFormMeaning | internal/matrix/dsl.go:140-201 | the printed derivation (parentheses except for AND directly inside OR) means the tree it was made from |
| MatrixGrammar.LexSpell | internal/matrix/dsl.go:43-92 | spelling tokens with any blank gaps and lexing gives the tokens back |
| MatrixGrammar.PrintThenParse | internal/matrix/dsl.go:43-201 | printing a well-formed tree with any spacing, tokenizing and parsing returns the same tree |
| MatrixGrammar.LexedIsSpelled | internal/matrix/dsl.go:43-92 | every text that has tokens is those tokens with blank gaps |
| MatrixGrammar.AcceptedTexts | internal/matrix/dsl.go:43-201 | the texts that parse are exactly the spellings of derivations with any blank gaps, with their meaning |
| MatrixTexts.PairTexts | internal/matrix/dsl.go:59-88 | two names with & between them parse to their conjunction, with the bar between them to their choice |
| MatrixTexts.PrecedenceText | internal/matrix/dsl.go:140-180 | & binds closer than the bar: x&y, bar, z is the choice of a conjunction and a name |
| MatrixTexts.GroupedText | internal/matrix/dsl.go:182-201 | parentheses group and + makes a reference: a grouped choice, &, +z is the conjunction of the choice and the reference |
| MatrixTexts.ReadCharacters | internal/matrix/dsl.go:43-92 | a text with any character but space, letters, digits and the DSL's marks, or with a colon outside a reference, cannot be read |
| MatrixOrder.OrderedIsAcyclic | internal/matrix/program.go:287-318 | an order with dependencies first leaves no cycle |
| MatrixOrder.PathCloses | internal/matrix/program.go:293-295 | reaching a set that is being visited exhibits a cycle |
| MatrixOrder.TopoSorter.Visit | internal/matrix/program.go:292-308 | lists the set behind all its dependencies, adds only what it reaches, fails only on a cycle, and terminates |
| MatrixOrder.TopoSorter.VisitDependencies | internal/matrix/program.go:300-304 | all dependencies are listed before the set itself, in the depth-first order of the list |
| MatrixOrder.TopoSorter.VisitDefined | internal/matrix/program.go:310-316 | a defined set is visited once, from the outside |
| MatrixOrder.TopologicalOrder | internal/matrix/program.go:287-318 | fails exactly when the references have a cycle; else the order is the depth-first post-order of the definitions and their dependency lists: each set once, dependencies before dependents, otherwise in definition order |
| MatrixTexts.TwoDependencies | internal/matrix/program.go:91-94 | an expression that mentions x and then y depends on x and then y |
| MatrixTexts.MentionedInOrder | internal/matrix/program.go:292-316 | definitions a, y, x where a mentions x and then y are ordered x, y, a |
| MatrixSimplify.EmptyIffVanishes | internal/matrix/program.go:253-280 | simplification yields the empty node exactly for terms that stand for no set |
| MatrixSimplify.SimplifiedMeans | internal/matrix/program.go:253-280 | a simplified expression describes exactly its family with the vanishing terms deleted |
| MatrixSimplify.MeansNothingIffVanishes | internal/matrix/program.go:253-280 | a term stands for no set at all exactly when it is deleted |
| MatrixSimplify.SimplifiedIsCompact | internal/matrix/program.go:264-279 | no empty node is left under an operator and every operator keeps two operands |
| MatrixSimplify.SimplifiedKeeps | internal/matrix/program.go:139-143 | an expression without empty terms keeps its meaning |
| MatrixSimplify.CompactStays | internal/matrix/program.go:139-143 | leaving out the pass when there are no orphans changes nothing |
| MatrixLink.SimplifyThenLink | internal/matrix/program.go:139-153 | simplifying names in order and then linking is the same as linking and then simplifying the graph |
| MatrixLink.SimplifiedEnvNext | internal/matrix/program.go:140-142 | one turn of the simplification loop, which reads the names simplified before, extends that to the next name |
| MatrixLink.LinkedAgree | internal/matrix/program.go:144-153 | a linked expression depends only on the names before it |
| MatrixLink.DependenciesAreRefs | internal/matrix/program.go:71-95 | the dependencies, listed at first mention, are exactly the sets an expression refers to |
| MatrixLink.WithNewConcat | internal/matrix/program.go:91-94 | collecting the references of two parts one after the other is collecting those of both |
| MatrixLink.PlainIsSimplified | internal/matrix/program.go:139-143 | without orphan references the linked graph is already simplified |
| MatrixFamilies.CheckedIffKnown | internal/matrix/program.go:73-90 | an expression is accepted exactly when every leaf in it resolves and every reference in it names a definition or the orphans |
| MatrixFamilies.ReferencesAreParts | internal/matrix/program.go:81-95 | the references kept are those that stand in the text |
| MatrixFamilies.LeavesAreParts | internal/matrix/program.go:74-80 | the models seen are those the leaves in the text resolve to |
| MatrixFamilies.LinkedMeansFamily | internal/matrix/doc.go:6-8 | a linked expression means the family of its text: a leaf its resolved model, OR the union, AND the pairwise unions of the operands that describe a set, a reference the family of the set it names |
| MatrixFamilies.GatheredIffUnderstood | internal/matrix/program.go:66-103 | the definitions are read exactly when every text parses and every part of it is known |
| MatrixFamilies.GatheredCounts | internal/matrix/program.go:101-103 | under each name stands its last definition, resolved, and that definition's text |
| MatrixFamilies.GatheredSees | internal/matrix/program.go:74-80 | the models seen are those some leaf of some text resolves to, in texts that do not count as well |
| MatrixFamilies.GatheredNotesOrphans | internal/matrix/program.go:82-85 | the orphans are made only if some text refers to them |
| MatrixFamilies.OrphansMean | internal/matrix/program.go:111-132 | the automatic orphan set means one single-model set for each model no text mentions |
| MatrixFamilies.OrphansInOrder | internal/matrix/program.go:115-126 | the automatic orphan set is the choice among the unmentioned models, in the order of their names |
| MatrixFamilies.CircularIffWritten | internal/matrix/program.go:293-303 | a circular chain of compiled references is one of the texts |
| MatrixFamilies.LinkedDescribe | internal/matrix/program.go:50-170 | the meanings of the linked expressions are families that solve the equations the texts state |
| MatrixFamilies.FamiliesAreUnique | internal/matrix/program.go:50-170 | in a dependency order these equations have one solution only |
| MatrixSupport.Collector.Collect | internal/matrix/program.go:192-216 | the memoised collection is exactly the models the expression mentions |
| MatrixSupport.Register | internal/matrix/program.go:222-226 | in any iteration order each model gets a bit of its own in range |
| MatrixSupport.SupportMask | internal/matrix/program.go:231-236 | the mask has exactly the bits of the set's models |
| MatrixSupport.ComputeSupport | internal/matrix/program.go:191-238 | a support bit is set exactly for the mentioned models; the program is valid |
| MatrixCompile.Walker.Walk | internal/matrix/program.go:73-97 | resolves every leaf, collects leaves and orphan use, and extends the reference list in the order of first mention; fails exactly on an unknown leaf or undefined reference |
| MatrixCompile.ReadDefinition | internal/matrix/program.go:66-103 | parses one definition, resolves it and lists its dependencies in the order of first mention, failing exactly when it cannot |
| MatrixCompile.ReadDefinitions | internal/matrix/program.go:63-104 | fails exactly when some definition does not parse, resolve or refer to a definition |
| MatrixCompile.SimplifyEmptyRefs | internal/matrix/program.go:253-280 | removes the references whose root is already empty and collapses their operators |
| MatrixCompile.SimplifyAll | internal/matrix/program.go:140-142 | afterwards every name links to the simplified form of what it linked to before |
| MatrixCompile.LinkAll | internal/matrix/program.go:144-153 | every name of the order gets its linked expression, whose family is that of its text (MatrixFamilies.LinkedMeansFamily) |
| MatrixCompile.SelectSets | internal/matrix/program.go:155-165 | all ordered names in order, except a synthesized orphan set |
| MatrixCompile.BuiltSet | internal/matrix/program.go:139-165 | a compiled set describes its expression with vanishing terms deleted, in compact form |
| MatrixCompile.SupportIsExact | internal/matrix/program.go:20-28 | support bits stand exactly for the models that occur in some described set |
| MatrixCompile.CircularIsCycle | internal/matrix/program.go:71-103 | cycles of the collected dependencies are the circular references of the expressions |
| MatrixCompile.OrderDefinitions | internal/matrix/program.go:134-137 | ordering fails exactly on circular references and else yields the one depth-first order, which can be linked |
| MatrixCompile.Build | internal/matrix/program.go:139-169 | the program lists the ordered sets with their meaning, texts and exact support |
| MatrixCompile.ProgramMeansTexts | internal/matrix/program.go:155-169 | every compiled set stands for the text that counts for its name and describes the family of that text |
| MatrixCompile.Compile | internal/matrix/program.go:50-170 | succeeds exactly when there are definitions, every text parses, every leaf resolves, every reference names a definition or the orphans, and no texts refer to each other in a circle; then there is one set for each name, with its last text, and its full expansion is the family of that text (references the families of the texts they name, empty terms deleted), listed in the fully determined depth-first order that decides ties |
| MatrixTexts.PairCompiles | internal/matrix/program.go:50-170 | one definition with & between two names compiles to the family of one set of both models, with the bar to that of two sets of one |
| CapacityConfig.TotalPick | internal/config/capacity.go:86-108 | a total does not depend on the order models are added in |
| CapacityConfig.OverflowIsUnacceptable | internal/config/capacity.go:100-107 | a partial sum out of range cannot come back: the configuration is unacceptable whatever follows |
| CapacityConfig.ValidateModelCapacity | internal/config/capacity.go:54-67 | accepts exactly non-negative costs and uses under non-blank pool names |
| CapacityConfig.PoolUseIsTotal | internal/config/capacity.go:92-104 | the total over models is the sum of the configured amounts, nothing where none is configured |
| CapacityConfig.AcceptableIsAdmissible | internal/config/capacity.go:71-111 | what is accepted, requirement by requirement: pools positive and named, costs not negative, every use of a known pool between zero and what it holds, and all sums below 2^63 |
| CapacityConfig.AddUses | internal/config/capacity.go:92-104 | adds a model's uses without overflow, or refuses only what is unacceptable |
| CapacityConfig.AddModel | internal/config/capacity.go:88-109 | one model of the loop, with cost, without overflow |
| CapacityConfig.ValidateCapacity | internal/config/capacity.go:71-111 | accepts exactly the configurations whose pools and models meet every requirement and whose true sums fit in int64, in any map order, never overflowing itself |
| CapacityPlan.AcceptableIsValidated | internal/config/capacity.go:69-71 | an accepted configuration gives the planner all the bounds it relies on |
| CapacityPlan.SumInRange | internal/config/capacity.go:69-71 | every sum over distinct models, configured or not, stays in int64 |
| CapacityPlan.BetterTransitive | internal/router/capacity.go:183-186 | the comparison of victim lists is transitive |
| CapacityPlan.BestIsUnique | internal/router/capacity.go:183-186 | it is total and strict, so the best victim list is unique |
| Strings.LessIsFirstDifference | internal/router/capacity.go:90-91 | IDs are ordered by the first character that differs, a proper prefix first |
| CapacityPromise.SeqLessIsLowerAt | internal/router/capacity.go:183 | victim lists of equal length are ordered by the lower ID at the first place where they differ |
| CapacityPromise.PreferredIsBetter | internal/router/capacity.go:183 | the comparison of plans is by configured price, then number, then that order |
| CapacityPromise.RoomIsFits | internal/router/capacity.go:105-118 | a plan fits exactly when the target and the running models that stay share every pool |
| CapacityPlan.SortedIsChosen | internal/router/capacity.go:86-104 | every sorted set of candidates is a choice the search can make |
| CapacityPlan.ChosenSum | internal/router/capacity.go:119-127 | a part of the candidates never sums to more than all of them |
| CapacityPlan.CostOrder | internal/router/capacity.go:130-143 | the keep order is a permutation by falling cost, by position on ties |
| CapacityPlanner.Tabulate | internal/router/capacity.go:82-104 | candidates without the target, their uses, and the summed use of target and candidates, never overflowing |
| CapacityPlanner.SuffixSums | internal/router/capacity.go:120-127 | entry i is exactly what candidates i and later use |
| CapacityPlanner.SubtractTotals | internal/router/capacity.go:113-115 | the need is the summed use less the pool, in range |
| CapacityPlanner.Pose | internal/router/capacity.go:79-127 | poses the covering problem for a running list with repetitions, without overflow |
| CapacityPlanner.FeasibleIffFits | internal/router/capacity.go:105-115 | freeing every need is exactly that the target and the models left fit every pool |
| CapacitySearch.FeasibleEndsBranch | internal/router/capacity.go:182-188 | nothing below a feasible choice beats it |
| CapacitySearch.CostEndsBranch | internal/router/capacity.go:189-194 | the cost prune loses nothing, also at equal cost and as many victims |
| CapacitySearch.SupplyEndsBranch | internal/router/capacity.go:195-199 | the suffix-sum prune loses nothing |
| CapacitySearch.BranchesExhaust | internal/router/capacity.go:200-209 | with and without a candidate together exhaust the branch |
| CapacitySearch.Search.Fits | internal/router/capacity.go:105-112 | decides whether the chosen victims free every need |
| CapacitySearch.Search.Coverable | internal/router/capacity.go:195-199 | decides whether chosen and remaining candidates together could cover every need |
| CapacitySearch.Search.Push | internal/router/capacity.go:200-203 | adds a victim and what it frees, without overflow |
| CapacitySearch.Search.Pop | internal/router/capacity.go:205-208 | undoes Push exactly |
| CapacitySearch.Search.Offer | internal/router/capacity.go:183-186 | the best becomes the better of the two, never worse |
| CapacitySearch.StubbornBranch | internal/router/capacity.go:182-199 | where only the last candidate frees or costs anything, no prune applies before it |
| CapacitySearch.Search.SearchFrom | internal/router/capacity.go:176-210 | restores the choice, never worsens the best, beats every completion unless cut off, is cut off only where the whole subtree would pass the budget, and visits all of it where no prune applies |
| CapacitySearch.Search.Branch | internal/router/capacity.go:200-209 | both branches of a node, under the same promises |
| CapacityGreedy.TryKeep | internal/router/capacity.go:149-160 | keeps a candidate exactly when the rest still makes room |
| CapacityGreedy.Seed | internal/router/capacity.go:144-160 | the greedy seed is feasible and is what keeping the dearest models first gives |
| CapacityGreedy.GreedyNeeds | internal/router/capacity.go:149-160 | the pass only spares candidates, and each one it has visited and not spared is needed in the end |
| CapacityGreedy.GreedyDecides | internal/router/capacity.go:149-160 | each candidate is kept exactly if the choices before it and everyone after it evicted free enough |
| CapacityGreedy.SeedKeepsDearest | internal/router/capacity.go:128-160 | the seed keeps, dearest first and by lower ID at the same price, exactly each running model that leaves room |
| CapacitySwapper.SeedIsIrredundant | internal/router/capacity.go:128-160 | no victim of the greedy seed could be kept |
| CapacitySwapper.Collect | internal/router/capacity.go:161-168 | the selected candidates and their exact cost |
| CapacitySwapper.StillNeeded | internal/router/capacity.go:222-234 | removing another victim never makes a needed one removable |
| CapacitySwapper.TryRemove | internal/router/capacity.go:223-233 | one step of the clean-up keeps the plan feasible, at least as good, and needed from here on |
| CapacitySwapper.CleanUp | internal/router/capacity.go:212-235 | one pass from the back leaves a plan no victim of which can be kept, at least as good as before |
| CapacitySwapper.OptimalIsIrredundant | internal/router/capacity.go:211-236 | the best plan needs no clean-up |
| CapacitySwapper.EveryoneSuffices | internal/router/capacity.go:128-147 | evicting every candidate makes room for a validated target |
| CapacitySwapper.PlanDecides | internal/router/capacity.go:73-76 | a feasible, needed plan at least as good as the seed decides; an exhaustive one is the least of all eligible victim sets |
| CapacitySwapper.DecisionIsPromised | internal/router/capacity.go:73-76 | a decision keeps all that, read off the configuration and the IDs |
| CapacitySwapper.Swapper.EvictionFor | internal/router/capacity.go:77-237 | for every budget, in terms of the configuration: victims by rising ID among the running models other than the target, that make room and none of which could stay, no worse than keeping the dearest first; uncut, every other list that makes room costs more, or as much with more victims, or has the higher ID at the first place where the two differ; cut only when the budget is used up and below the full tree |
| CapacitySwapper.Swapper.SearchPlan | internal/router/capacity.go:169-236 | search and clean-up never return a plan worse than the seed; with no prune the search is cut exactly if the budget is below the full tree |
| CapacitySwapper.BudgetCoversFifteen | internal/router/capacity.go:169-172 | the full tree over n candidates fits the default budget of 100000 nodes exactly up to fifteen candidates |
| CapacityWorst.StubbornModels | internal/router/capacity.go:176-210 | for every number of running models there are validated ones on which no prune applies, so that EvictionFor is cut off exactly if the budget is below the full tree |
| CapacityWorst.DefaultBudgetCuts | internal/router/capacity.go:169-181 | on these the default budget suffices exactly up to fifteen running models |
| ProcessLoop.InitKeeps | internal/process/process_command.go:180-211 | the initial state is sound |
| ProcessLoop.SetStateTraces | internal/process/process_command.go:181-200 | change events chain one into the next |
| ProcessLoop.UpstreamExitKeeps | internal/process/process_command.go:261-276 | an upstream exit answers the parked callers and returns to Stopped |
| ProcessLoop.WaitReadyKeeps | internal/process/process_command.go:281-289 | a WaitReady is answered or parked, never both |
| ProcessLoop.StartKeeps | internal/process/process_command.go:296-326 | a start is answered, rejected or begun from Stopped |
| ProcessLoop.StartResultKeeps | internal/process/process_command.go:336-385 | a finished start latches its child or returns to Stopped, and answers or parks its caller |
| ProcessLoop.StopDuringStartKeeps | internal/process/process_command.go:393-402 | a stop during a start keeps both requests in hand |
| ProcessLoop.ParentDoneDuringStartKeeps | internal/process/process_command.go:408-421 | a shutdown during a start publishes Shutdown at once |
| ProcessLoop.AbortedStartKeeps | internal/process/process_command.go:394-421 | a cancelled start that still produced a child has it killed before anyone is answered |
| ProcessLoop.ChildGoneKeeps | internal/process/process_command.go:431-454 | a kill ends with the child reaped and its requests answered once |
| ProcessLoop.ParentDoneKeeps | internal/process/process_command.go:241-255 | a shutdown releases all parked callers |
| ProcessLoop.CompareAndSwapKeeps | internal/process/loading_progress.go:86-97 | a progress report that wins or loses the race keeps the published state sound |
| ProcessLoop.StepKeeps | internal/process/process_command.go:175-457 | every step of the loop, the start goroutine and the environment keeps the invariant; what a step answers is in ProcessAnswers |
| ProcessLoop.RunKeeps | internal/process/process_command.go:175-457 | so does every run |
| ProcessLoop.HeadOfLoop | internal/process/process_command.go:235-236 | at the select the state is Stopped or Ready; Ready exactly with command and handler; waiters only while Stopped, a Run caller only while Ready |
| ProcessLoop.AnsweredOnce | internal/process/process_command.go:213-233 | no request is answered twice, so no reply blocks the loop; each is answered or held; at exit only a start that was in flight at the shutdown is unanswered |
| ProcessLoop.AbandonedInFlight | internal/process/process_command.go:408-421 | a request left unanswered was the start the loop was tearing down at the shutdown |
| ProcessLoop.OneChild | internal/process/process_command.go:722-755 | at most one child is alive, it is the one someone answers for, the previous one is reaped before a launch, and none outlives the loop |
| ProcessLoop.PublishedState | internal/process/process_command.go:180-200 | readers see the loop's state; progress only while Starting; a ready time exactly while Ready; events lead to that state |
| ProcessLoop.ReportNeverOverwrites | internal/process/loading_progress.go:86-97 | a report is published only on the status it loaded |
| ProcessLoop.NeverStuck | internal/process/process_command.go:322-455 | a loop that is not at its select can always be brought strictly closer to it or to its exit |
| ProcessLoop.TeardownStep | internal/process/process_command.go:393-421 | during a teardown every step of the loop or the start goroutine, whichever they choose, brings it closer to its end |
| ProcessLoop.TeardownIsShort | internal/process/process_command.go:393-454 | a teardown, a cancelled start included, takes at most ten steps of the loop and the start goroutine |
| ProcessAnswers.Receives | internal/process/process_command.go:235-431 | at its select the loop takes any request, inside a start a stop; at both it notices the shutdown, and at its select that the process has exited |
| ProcessAnswers.StartReceived | internal/process/process_command.go:296-326 | a start received while stopped begins a launch unanswered; while ready EnsureReady is told so, a second Run is refused, and nothing else changes |
| ProcessAnswers.StopReceived | internal/process/process_command.go:431-454 | a stop that finds a process begins its teardown unanswered; one that finds none is answered at once |
| ProcessAnswers.StopCancels | internal/process/process_command.go:393-402 | a stop during a start cancels it and answers nobody yet |
| ProcessAnswers.WaitReceived | internal/process/process_command.go:281-289 | a WaitReady is answered at once while ready and parked otherwise |
| ProcessAnswers.StopStep | internal/process/process_command.go:393-454 | a stop is held until the loop is back at its select, and then it is answered with the process stopped and every child reaped |
| ProcessAnswers.EnsureContinues | internal/process/process_command.go:336-427 | an EnsureReady is held until its start ends, then told without error exactly if the process is ready |
| ProcessAnswers.RunContinues | internal/process/process_command.go:227-454 | a Run is held through its start and as long as its process runs, and is told without error only by a stop of it |
| ProcessAnswers.WaitContinues | internal/process/process_command.go:218-385 | a parked WaitReady is answered exactly when the loop comes back to its select or ends, without error exactly if the process is ready then |
| ProcessAnswers.HeldUntilAnswered | internal/process/process_command.go:235-457 | in every run a request received is in hand or parked until it is answered, or left at the exit |
| ProcessAnswers.AnsweredMeans | internal/process/process_command.go:235-457 | in every run, at the step that answers: a Stop finds the process stopped, no command, no handler and every child reaped; an EnsureReady or WaitReady finds it ready, or gone with an error; a Run finds its process gone, or is refused because another runs |
| ProcessAnswers.ReadyWasPassed | internal/process/process_command.go:575-660 | the command of a ready process is a child whose health check succeeded, or that has none |
| ProcessAnswers.BecomesReady | internal/process/process_command.go:336-350 | a process becomes ready by a finished start alone, which publishes its time and latches its child as command and handler |
| ProcessAnswers.ReadyStatusStays | internal/process/process_command.go:181-192 | as long as it stays ready readers see the very same status |
| EventDispatch.AddKeeps | internal/event/event.go:269-282 | a new consumer starts with the events committed from now on |
| EventDispatch.DelKeeps | internal/event/event.go:285-298 | Del fixes the consumer's last event and removes it once |
| EventDispatch.CheckKeeps | internal/event/event.go:193-208 | the swap keeps order and loses nothing |
| EventDispatch.FinishKeeps | internal/event/event.go:210-216 | the broadcast behind a batch leaves nobody parked |
| EventDispatch.CommitKeeps | internal/event/event.go:256-265 | a commit reaches every subscriber, none beyond the limit |
| EventDispatch.AttemptKeeps | internal/event/event.go:231-266 | a publisher parks only while some consumer is awake with work left; what becomes of its event is in EventPublishing |
| EventDispatch.StepKeeps | internal/event/event.go:189-298 | every critical section keeps the invariant |
| EventDispatch.RunKeeps | internal/event/event.go:189-298 | so does every interleaving |
| EventDispatch.QueuesBounded | internal/event/event.go:243-254 | no queue ever exceeds maxQueue |
| EventDispatch.SleepersAreIdle | internal/event/event.go:194-202 | a consumer waits only with both buffers empty |
| EventDispatch.StrandedIffNoRoom | internal/event/event.go:243-265 | a publisher can be left parked with nobody awake to wake it exactly when maxQueue is not positive |
| EventDispatch.NoRoomStrands | internal/event/event.go:243-245 | the concrete run: a limit of zero or less parks the first publisher with nobody awake, even without subscribers |
| EventDispatch.BusyConsumerWakesPublishers | internal/event/event.go:189-218 | a busy consumer can always step towards its broadcast, which frees every parked publisher |
| EventPublishing.AttemptDecides | internal/event/event.go:231-266 | a publisher that is awake can always try; it parks, and nothing else happens, exactly if some subscriber's queue is at the limit or the limit is not positive; otherwise its event goes behind every subscriber's queue, everyone wakes and it is done |
| EventPublishing.LeavesWhenCommitted | internal/event/event.go:231-266 | in every run a publisher is done exactly when its own event has just been committed, and nothing else commits |
| EventPublishing.NothingLost | internal/event/event.go:155-266 | in every run each event is committed or still held by a publisher exactly as often as it has been published |
| EventPublishing.HandledWasPublished | internal/event/event.go:189-266 | no consumer handles an event that was not published, nor one more often than it was |
| EventRuns.DeliveredSinceAdd | internal/event/event.go:189-282 | in every run a subscribed consumer has handled, or holds in order, exactly the events committed since its Add |
| EventRuns.DeliveredBetweenAddAndDel | internal/event/event.go:189-298 | from its first Del on these are exactly the events committed between Add and Del, all handled once it has returned |
| EventRuns.StoppedStep | internal/event/event.go:194-216 | each own step brings a stopped consumer one closer to its return, a broadcast wakes it, nothing else touches it |
| EventRuns.AsleepUntilBroadcast | internal/event/event.go:284-298 | after Del a consumer is asleep exactly if it was asleep when Del ran and no batch has ended and no event was committed since |
| EventRuns.ReturnsByOwnSteps | internal/event/event.go:193-202 | after Del it takes a number of steps fixed at that moment and has returned exactly when it has taken them |
| EventRuns.NextOwnStep | internal/event/event.go:192-217 | unless asleep or returned it can take the next one |
| EventRuns.ReturnsAloneIffAwake | internal/event/event.go:284-298 | a consumer returns after Del with nobody else taking a step exactly if it was not asleep before the call |
| EventRuns.DelLeavesAsleep | internal/event/event.go:284-298 | the concrete run: Add, one look at the empty queue, Del; the consumer stays asleep with no step of its own left |
| EventRuns.NoRoomSilences | internal/event/event.go:243-256 | with a limit of zero or less no event is ever committed and nobody handles anything |
| EventRuns.NoRoomParksForEver | internal/event/event.go:243-254 | with such a limit a publisher that has tried is parked in every later state |
| EventRuns.ParkedWhileBusy | internal/event/event.go:210-254 | in every run, while a publisher stays parked a busy consumer stays busy and takes fewer steps of its own than it was from its broadcast |
| EventBuffers.Consumer.Enqueue | internal/event/event.go:258-262 | appending to the queue never touches the batch being handled |
| EventBuffers.Consumer.Swap | internal/event/event.go:204-208 | the two buffers change places and never share an array |
| ByteCache.Cache.constructor | internal/cache/cache.go:21-27 | an empty cache is sound for every limit |
| ByteCache.Cache.Add | internal/cache/cache.go:29-58 | fails exactly when the data exceeds the limit and then changes nothing; else keeps the new item behind the longest suffix of the old order (without the key) that fits |
| ByteCache.Cache.Evict | internal/cache/cache.go:44-52 | drops the fewest oldest items that make room |
| ByteCache.Cache.RemoveOrder | internal/cache/cache.go:60-67 | the order without the key |
| ByteCache.Cache.Get | internal/cache/cache.go:69-78 | finds exactly the stored keys with their data |
| ByteCache.Cache.Clear | internal/cache/cache.go:95-102 | leaves nothing |
| ByteCache.BytesWithout | internal/cache/cache.go:38-42 | replacing discounts exactly the old item's bytes |
| ByteCache.RemovedAt | internal/cache/cache.go:60-67 | cutting the first occurrence out of the order removes the key altogether |
| RingBuffer.LastOfLast | internal/ring/buffer.go:17-26 | forgetting before a push loses nothing that would be kept |
| RingBuffer.Overwritten | internal/ring/buffer.go:22-25 | writing over the oldest of a full buffer leaves the latest values in order |
| RingBuffer.Ring.constructor | internal/ring/buffer.go:9-14 | at least one slot, whatever is asked for |
| RingBuffer.Ring.Push | internal/ring/buffer.go:16-26 | the history grows by the value and the buffer still holds its tail |
| RingBuffer.Ring.Slice | internal/ring/buffer.go:28-39 | exactly the last min(count, capacity) values pushed, in order |
| LogHistory.WriteManyBehind | internal/logmon/logging.go:55-68 | writing a run of bytes behind the kept ones, around the end, keeps the latest |
| LogHistory.MovesStart | internal/logmon/logging.go:55-79 | head and size still give the start of the kept bytes |
| LogHistory.CircularBuffer.constructor | internal/logmon/logging.go:33-39 | an empty history for every capacity, zero included |
| LogHistory.CircularBuffer.Write | internal/logmon/logging.go:41-69 | the history grows by the bytes, of any number, and the buffer still holds its tail |
| LogHistory.CircularBuffer.GetHistory | internal/logmon/logging.go:71-90 | exactly the last min(total, capacity) bytes written |
| ConfigMerge.MergeMappings | internal/config/merge.go:166-213 | the two passes compute the merge of two mappings, failing when it fails |
| ConfigMerge.MergeEntities | internal/config/merge.go:219-236 | appends to an identity-keyed mapping, failing on a shared key or a non-mapping |
| ConfigMerge.MergeByKind | internal/config/merge.go:242-274 | merges two values by kind, null yielding to the other side |
| ConfigSources.LoadSources | internal/config/merge.go:74-90 | folds the sources in order, skipping empty ones and stopping at the first failure |
| ConfigMerge.FindMerged | internal/config/merge.go:166-213 | each key of the result comes from the one side that has it, or merges both |
| ConfigMerge.MergeAgrees | internal/config/merge.go:166-274 | at every path of every successful merge the result is the one side's node, or both combined by kind |
| ConfigMerge.FailureHasClash | internal/config/merge.go:219-274 | a failed merge has a path at which the sides clash |
| ConfigMerge.ClashFails | internal/config/merge.go:219-274 | every clash, at any depth, fails the merge |
| ConfigMerge.FailsIffClash | internal/config/merge.go:166-274 | any two sides, repeated keys included, fail to merge exactly when they clash at some path |
| ConfigMerge.WrittenNullConflicts | internal/config/merge.go:251-286 | beside another value a scalar yields, from either side, exactly if its tag is null or missing and nothing is written for it; a node of no kind always does |
| ConfigMerge.NullEntitiesConflict | internal/config/merge.go:219-222 | an empty null beside a mapping fails exactly under an identity path |
| ConfigPaths.FindIsLast | internal/config/merge.go:289-295 | of a repeated key the last value counts |
| ConfigPaths.MergedInOrder | internal/config/merge.go:166-236 | a merged mapping has the first side's keys in place and then, in order, exactly the other side's entries it lacked |
| ConfigPaths.DottedIsUnique | internal/config/merge.go:297-302 | paths of keys without dots are told apart by their dotted form |
| ConfigPaths.EntitiesByKeys | internal/config/merge.go:19-29 | such a path is an identity path exactly if it is one of the nine lists of keys, routing, router, settings, groups among them |
| ConfigPaths.SameEntityFails | internal/config/merge.go:215-236 | two sources that define the same key under one of these lists make the load fail |
| ConfigSources.NextAgrees | internal/config/merge.go:75-90 | one turn of the fold, empty sources included, agrees at every path |
| ConfigSources.ScalarsSurvive | internal/config/merge.go:74-90 | each non-null scalar of any source has the same value at the same path in the result |
| ConfigSources.PathsAreTheSources | internal/config/merge.go:74-90 | a path is in the result exactly when some source has it |
| ConfigSources.SequencesConcatenate | internal/config/merge.go:247-249 | a sequence is the sources' sequences concatenated in order, and no sequence is lost |
| ConfigSources.MergeIsDistinct | internal/config/merge.go:166-236 | merging keeps the keys of every mapping distinct |
| ConfigSources.ClashComesFromSource | internal/config/merge.go:75-90 | what has been merged clashes with one more source exactly if one of its sources does |
| ConfigSources.ClashingSourcesFail | internal/config/merge.go:87-89 | any two sources that clash at some path make the whole load fail |
| ConfigSources.SourcesFailIffClash | internal/config/merge.go:74-90 | any number of sources fail to merge exactly when two of them clash at some path |
| ConfigSources.EntitiesAreDisjoint | internal/config/merge.go:215-236 | under an identity path any two of the merged sources have mappings with disjoint keys |

## Where code and documentation disagree

The model follows the code.

- `internal/config/merge.go:276` calls a null "empty or !!null", but line 285 also demands an empty value: a scalar
  written `null` or `~` counts as a value and can conflict (`ConfigMerge.WrittenNullConflicts`). A null under an
  identity path (`models`, `groups`, ...) is an error rather than yielding to the other side
  (`ConfigMerge.NullEntitiesConflict`; lines 182-189 and 220-222).
- `internal/process/process_command.go:285-286` and `309-311` answer for a Shutdown state, which the loop never has when
  it stands at its select (`ProcessLoop.HeadOfLoop`).
- `internal/event/event.go:284-298`: `Del` sets the stop flag without waking the consumer. One that is asleep then stays
  asleep until the next broadcast of somebody else (`EventRuns.DelLeavesAsleep`, `EventRuns.AsleepUntilBroadcast`); it
  returns by itself exactly if it was awake before the call (`EventRuns.ReturnsAloneIffAwake`).
- A group made with a limit of zero or less parks every publisher for ever (`EventRuns.NoRoomParksForEver`); with a
  positive limit none is ever stranded (`EventDispatch.StrandedIffNoRoom`).
- `internal/matrix/doc.go:43-47` says that equal-cost choices retain traversal order. Pruning inside AND can change it:
  `(a | b | (a & c)) & c` yields {b,c} before {a,c} (`MatrixReordered.TieIsReordered`). The order of the full expansion
  is kept where no AND has operands that share a relevant model (`MatrixTies.FirstOfExpansionIsReported`).
- `internal/matrix/doc.go:39-41` argues from positive costs; `MatrixSolver.Solve` needs only that no cost is negative.

## Left out

- MatrixTies.FirstOfExpansionIsReported: goes one way. An AND whose operands share a relevant model may still keep the
  order; what is then reported is fixed by `MatrixSolver.Picked`.
- MatrixSolver.Solve: needs costs that are not negative, because the sentinel -1 and the pruning do; validation demands
  positive ones (`internal/config/matrix.go:77-81`). Costs are mathematical integers, as the source checks no bound. A
  model named "" is not listed in the target set, because the source skips it.
- Matrix nodes are values: two equal nodes share one memo entry, and renaming leaves, compacting children and setting
  `ref` build new values, so aliasing between tree nodes is not captured. Aliasing between frontier slices is.
- MatrixCompile.LinkAll: links names in dependency order, while the source sets pointers in map order; the graph is the
  same.
- Machine words are sequences of 64 booleans; a bit index below 64 stands for the shift.
- The list of synthesized orphans and its mode (`SynthesizedOrphans`) are reporting only.
- Unicode classes are parameters: letters, digits and space are predicates that exclude the punctuation of the DSL.
  Text is a sequence of characters, without decoding.
- Library sorting is modelled by insertion functions with the sort's specification; the order of map iteration is an
  arbitrary choice.
- The one-entry decision memos of both planners and their logging.
- In the capacity planner the suffix table is computed before the early return for a target that already fits, which no
  caller can observe.
- Client-side selects of Run, EnsureReady, WaitReady and Stop (time-outs and context cancellation), signals, command
  execution and the health check's request: a start is launched, inspected and probed step by step and each probe
  succeeds or fails, a kill ends when the child is reaped. An idle-time unload is an ordinary Stop. A caller that gives
  up still receives the reply in its buffered channel.
- The texts of errors: an answer is no error, an aborted start, or another error.
- Fairness: what is proved is that a step towards progress is always possible, not that it is taken.
- Finding groups and subscribing (`findGroup`, `SubscribeTo`), handlers that publish to their own group, closing the
  dispatcher.
- YAML decoding, anchors, aliases, comments and styles; the merge works on values, so a node shared by two documents is
  copied.
- ConfigSources.SourcesFailIffClash: assumes that no mapping of a source repeats a key. That clashing sources fail, and
  the case of two sources, hold without it.
- Locks of the cache, the ring and the log buffer: each operation is one step. `Has` and `Size` of the cache are
  one-line reads.
- The scheduler, the routers' in-flight accounting, HTTP, events of other packages, hardware probing and the commands
  are not part of this model.
