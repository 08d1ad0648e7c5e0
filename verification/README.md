# A verified model of the JRSRepair search core

JRSRepair repairs a Java program by random mutation. It collects the
statements that the failing tests cover (the *faulty* pool, weighted by
coverage) and those the passing tests cover (the *seed* pool). It then
runs a number of *candidates*. Each candidate is a depth-bounded
recursive search. Each *generation* of it makes at least one attempt and
at most `mutationAttempts`. An attempt applies a random mutation, compiles
the program and, when that succeeds, runs the tests. The loop stops at the
first attempt whose final status is non-negative. An attempt with a
negative status (it did not compile, or its tests failed) is undone at
once. A kept mutation is pushed on the `patches` stack, the next
generation runs on top of it, and it is popped and undone afterwards.

This project models that core in Dafny and proves its properties:

- `Statements.dfy` (module `Pool`): the weighted statement pool. It is a
  running-total map from cumulative weight to statement. A ceiling lookup
  on it turns a uniform draw into a weighted random choice. A pool's
  value is tied to the log of its `addStatement` calls.
- `Coverage.dfy` (module `Coverage`): the requestor and statement visitor.
  They route each assert statement into the faulty and seed pools by its
  (package, type, line) coverage key.
- `Rewriting.dfy` (module `Rewriting`): the replacement mutation and the
  document rewrite it works through. A block is a sequence of statement
  nodes. For each entry of the block's list the rewrite keeps the original
  node and the node it holds now. A replace addresses the first entry
  whose original or current node is its target. The document text is
  always re-rendered from the original text and the current entries.
- `FileObjects.dfy` (module `FileObjects`): the in-memory compiler file
  objects. This covers the `memo:///` URI rule, the source object with
  fixed content, and the output object with its byte buffer.
- `Search.dfy` (module `Search`): the repair controller. This covers
  `repair`, `mutationIteration` with its attempt loop, and
  `getRandomMutation`. The documents are represented by the sequence of
  mutations currently applied. The compiler, the test runner and the
  mutations' own apply and undo are oracles that may fail.

Exceptions become an `ok` result, or the `Aborted` outcome of `Repair`.
`null` becomes `Option`. Random draws are parameters or nondeterministic
choices of a value in [0, 1). Double-precision weights are reals.

## Model

All source paths are below `src/ca/uwaterloo/ece/qhanam/jrsrepair/`; the table gives them in full.

| member | source | states |
|---|---|---|
| Pool.Statements.constructor | src/ca/uwaterloo/ece/qhanam/jrsrepair/Statements.java:28-31 | a new pool has no entries, total 0, and an empty add log |
| Pool.Statements.AddStatement | src/ca/uwaterloo/ece/qhanam/jrsrepair/Statements.java:39-42 | the total grows by exactly the weight, the statement is stored under the new total (replacing any entry there), and the pool stays the value its add log builds |
| Pool.Put | src/ca/uwaterloo/ece/qhanam/jrsrepair/Statements.java:40-41 | one add on a pool value: the total grows by the weight, and the new total becomes a key holding the statement |
| Pool.Build | src/ca/uwaterloo/ece/qhanam/jrsrepair/Statements.java:28-42 | the pool a sequence of adds builds from a fresh one: after a non-empty sequence the total is a key holding the statement added last |
| Pool.BuildTotal | src/ca/uwaterloo/ece/qhanam/jrsrepair/Statements.java:40 | the pool's total is the sum of every weight ever added |
| Pool.BuildTotalUpTo | src/ca/uwaterloo/ece/qhanam/jrsrepair/Statements.java:40 | after the first m adds the total is the m-th running total |
| Pool.TotalIsKey | src/ca/uwaterloo/ece/qhanam/jrsrepair/Statements.java:40-41 | a non-empty pool holds its total as a key, under the statement added last |
| Pool.PrefixSumsIncrease | src/ca/uwaterloo/ece/qhanam/jrsrepair/Statements.java:40-41 | with positive weights the running totals, and so the keys in insertion order, strictly increase |
| Pool.BuildKeys | src/ca/uwaterloo/ece/qhanam/jrsrepair/Statements.java:40-41 | with positive weights there is one key per add, the j-th running total holds the j-th statement, and every key lies in (0, total], so the largest key is the total |
| Pool.KeysWithinTotalUpTo | src/ca/uwaterloo/ece/qhanam/jrsrepair/Statements.java:40-41 | after m adds with positive weights every key lies in (0, m-th running total] |
| Pool.KeyOfAddUpTo | src/ca/uwaterloo/ece/qhanam/jrsrepair/Statements.java:40-41 | after m adds with positive weights the j-th running total (j <= m) is a key and holds the j-th statement |
| Pool.KeyCountUpTo | src/ca/uwaterloo/ece/qhanam/jrsrepair/Statements.java:41 | m adds with positive weights leave exactly m entries |
| Pool.ZeroWeightOverwrites | src/ca/uwaterloo/ece/qhanam/jrsrepair/Statements.java:41 | an add of weight 0 keeps the total, replaces the statement at the total key, and adds no entry |
| Pool.Ceiling | src/ca/uwaterloo/ece/qhanam/jrsrepair/Statements.java:53 | the ceiling of r is absent exactly when every key is below r; otherwise it is a key at or above r and no larger than any other such key |
| Pool.MinOf | src/ca/uwaterloo/ece/qhanam/jrsrepair/Statements.java:53 | the least element of a non-empty key set is in the set and below or equal to every element |
| Pool.Statements.CeilingValue | src/ca/uwaterloo/ece/qhanam/jrsrepair/Statements.java:53 | the lookup yields the statement stored at the ceiling key of r, and yields one exactly when some key is at or above r |
| Pool.Statements.GetRandomStatement | src/ca/uwaterloo/ece/qhanam/jrsrepair/Statements.java:48-54 | for a uniform u in [0, 1), the result is the statement at the ceiling key of u * totalWeight; on an empty pool there is none |
| Pool.Statements.DrawSucceeds | src/ca/uwaterloo/ece/qhanam/jrsrepair/Statements.java:50-53 | on a non-empty pool with a non-negative total, every draw finds a statement |
| Pool.PickWithinTotal | src/ca/uwaterloo/ece/qhanam/jrsrepair/Statements.java:50-53 | a draw u * total with u in [0, 1), on a pool whose non-negative total is a key, always selects a statement |
| Pool.DrawHasCeiling | src/ca/uwaterloo/ece/qhanam/jrsrepair/Statements.java:50-53 | a draw u * t below a non-negative key t has a ceiling |
| Pool.DrawWithinTotal | src/ca/uwaterloo/ece/qhanam/jrsrepair/Statements.java:50 | the draw u * total lies in [0, total] |
| Pool.DrawSelectsInterval | src/ca/uwaterloo/ece/qhanam/jrsrepair/Statements.java:39-53 | weighted choice: with positive weights the i-th statement added is drawn for every draw in (PrefixSum(i), PrefixSum(i + 1)], an interval whose length is its weight |
| Pool.OnlyIntervalSelects | src/ca/uwaterloo/ece/qhanam/jrsrepair/Statements.java:39-53 | the converse, on keys: with positive weights the i-th running total is the ceiling of a draw only when the draw lies in (PrefixSum(i), PrefixSum(i + 1)], or is at most PrefixSum(1) for the first statement |
| Pool.DrawSelectsLast | src/ca/uwaterloo/ece/qhanam/jrsrepair/Statements.java:39-53 | a draw above every key that existed before the last add selects the statement added last |
| Pool.LaterAddKeepsPick | src/ca/uwaterloo/ece/qhanam/jrsrepair/Statements.java:39-53 | a later add does not change which earlier statement a covered draw selects |
| Pool.EarlierKeyBelowLast | src/ca/uwaterloo/ece/qhanam/jrsrepair/Statements.java:40-41 | an earlier running total is a key below the key the last add creates |
| Pool.PutPicksNew | src/ca/uwaterloo/ece/qhanam/jrsrepair/Statements.java:41-53 | an add whose new key is at or above r, when every old key is below r, becomes the pick of r |
| Pool.PutKeepsPick | src/ca/uwaterloo/ece/qhanam/jrsrepair/Statements.java:41-53 | an add whose new key lies above an old key at or above r keeps the pick of r |
| Pool.CeilingAtNewMaximum | src/ca/uwaterloo/ece/qhanam/jrsrepair/Statements.java:53 | a new key above all old ones and at or above r is the new ceiling of r |
| Pool.CeilingIgnoresLargerKey | src/ca/uwaterloo/ece/qhanam/jrsrepair/Statements.java:53 | a key above the ceiling of r does not change it |
| Pool.PrefixSumOfPrefix | src/ca/uwaterloo/ece/qhanam/jrsrepair/Statements.java:40 | running totals do not depend on later adds |
| Pool.WeightedDrawExample | src/ca/uwaterloo/ece/qhanam/jrsrepair/Statements.java:39-53 | weights 1, 2 and 0.5 give keys 1, 3 and 3.5; draws 0.5, 1, 1.1 and 3.5 pick the first, first, second and third statement |
| Pool.Statements.IsEmpty | src/ca/uwaterloo/ece/qhanam/jrsrepair/JRSRepair.java:148 | the emptiness test `repair` makes: the pool's map holds no entry |
| Pool.Statements.EmptyIffNothingAdded | src/ca/uwaterloo/ece/qhanam/jrsrepair/Statements.java:28-42 | a pool is empty exactly when nothing was ever added to it |
| Pool.SortedKeys | src/ca/uwaterloo/ece/qhanam/jrsrepair/Statements.java:62-63 | the iteration order of the entry set holds every key exactly once |
| Pool.SortedKeysAscending | src/ca/uwaterloo/ece/qhanam/jrsrepair/Statements.java:62-63 | that order is strictly ascending |
| Pool.SortedKeysStep | src/ca/uwaterloo/ece/qhanam/jrsrepair/Statements.java:62-63 | the iteration starts with the least key, then continues with the rest |
| Pool.ListingStep | src/ca/uwaterloo/ece/qhanam/jrsrepair/Statements.java:64 | one more entry appends exactly its "key : value" line |
| Pool.Statements.ToString | src/ca/uwaterloo/ece/qhanam/jrsrepair/Statements.java:60-67 | the text is one "key : value" line per entry, in ascending key order, and the pool is not changed |
| Coverage.KeyOf | src/ca/uwaterloo/ece/qhanam/jrsrepair/MutationASTRequestor.java:76-81 | the key is (package name, first declared type, start line); it cannot be built, and the source throws, exactly when the unit has no package declaration or no type |
| Coverage.FaultyArrival | src/ca/uwaterloo/ece/qhanam/jrsrepair/MutationASTRequestor.java:86-88 | a statement enters the faulty pool exactly when its key is covered there, once, with that coverage weight |
| Coverage.SeedArrival | src/ca/uwaterloo/ece/qhanam/jrsrepair/MutationASTRequestor.java:89-91 | a statement enters the seed pool exactly when its key is covered there, once, with weight 1 |
| Coverage.SeedWeightIgnoresCoverage | src/ca/uwaterloo/ece/qhanam/jrsrepair/MutationASTRequestor.java:89-91 | the seed route depends only on whether a key is covered, not on the coverage value |
| Coverage.RoutesAreIndependent | src/ca/uwaterloo/ece/qhanam/jrsrepair/MutationASTRequestor.java:86-91 | a statement may enter both pools, either one, or neither |
| Coverage.Reached | src/ca/uwaterloo/ece/qhanam/jrsrepair/MutationASTRequestor.java:52-55 | the walk visits exactly the statements before the first whose visit throws |
| Coverage.OnlyAssertsArrive | src/ca/uwaterloo/ece/qhanam/jrsrepair/MutationASTRequestor.java:97 | statements that are not assert statements never reach a pool |
| Coverage.FaultyArrivalsAreCovered | src/ca/uwaterloo/ece/qhanam/jrsrepair/MutationASTRequestor.java:86-97 | every faulty-pool entry of a walk is a covered assert statement of that walk, weighted by its coverage |
| Coverage.MutationASTRequestor.constructor | src/ca/uwaterloo/ece/qhanam/jrsrepair/MutationASTRequestor.java:37-42 | the requestor holds the two coverages and the two pools it is given |
| Coverage.MutationASTRequestor.AcceptBinding | src/ca/uwaterloo/ece/qhanam/jrsrepair/MutationASTRequestor.java:44 | a binding is ignored: neither pool changes |
| Coverage.MutationASTRequestor.InsertStatement | src/ca/uwaterloo/ece/qhanam/jrsrepair/MutationASTRequestor.java:74-92 | it fails exactly when the key cannot be built, and then changes nothing; otherwise it only appends the faulty and the seed arrival to the pools, faulty first when both fields hold the same pool |
| Coverage.MutationASTRequestor.Visit | src/ca/uwaterloo/ece/qhanam/jrsrepair/MutationASTRequestor.java:97 | only assert statements are routed, and their children are not visited; any other statement changes nothing |
| Coverage.MutationASTRequestor.VisitAll | src/ca/uwaterloo/ece/qhanam/jrsrepair/MutationASTRequestor.java:52-97 | a walk with no throwing visit appends exactly the walk's arrivals to each pool, in visit order |
| Coverage.MutationASTRequestor.AcceptAST | src/ca/uwaterloo/ece/qhanam/jrsrepair/MutationASTRequestor.java:52-59 | the walk succeeds exactly when no visit throws; the pools receive the arrivals of the statements visited before the first throw |
| Rewriting.Locate | src/ca/uwaterloo/ece/qhanam/jrsrepair/mutation/ReplacementMutation.java:38 | the entry a replace addresses is the first whose original or current node is the target; there is none exactly when no entry holds the target either way |
| Rewriting.Render | src/ca/uwaterloo/ece/qhanam/jrsrepair/mutation/ReplacementMutation.java:42-43 | the text of a block is its statements' texts in order: an empty block renders as the empty text and a one-statement block as that statement's text |
| Rewriting.RenderAppend | src/ca/uwaterloo/ece/qhanam/jrsrepair/mutation/ReplacementMutation.java:42-43 | rendering is compositional over a split block |
| Rewriting.RenderReplace | src/ca/uwaterloo/ece/qhanam/jrsrepair/mutation/ReplacementMutation.java:38-43 | changing one entry changes only that entry's text in the rendering; the text before and after it is kept |
| Rewriting.ReplaceRoundTrip | src/ca/uwaterloo/ece/qhanam/jrsrepair/mutation/ReplacementMutation.java:35-53 | after the addressed entry is given a copy found in no entry, a replace of the copy addresses that same entry, and writing the target back restores the entries when that entry held the target |
| Rewriting.NestedReplaceLosesOuter | src/ca/uwaterloo/ece/qhanam/jrsrepair/mutation/ReplacementMutation.java:38-53 | when an enclosing mutation already put its copy into the faulty statement's entry, a nested mutate and undo of the same statement write the statement itself back, and afterwards no entry holds the outer copy, so the outer undo is rejected |
| Rewriting.Bound | src/ca/uwaterloo/ece/qhanam/jrsrepair/mutation/ReplacementMutation.java:35 | every node of the block has an identity below the bound |
| Rewriting.DocumentASTRewrite.constructor | src/ca/uwaterloo/ece/qhanam/jrsrepair/mutation/ReplacementMutation.java:41 | a rewrite starts with every entry holding its original node and the document holding the original text |
| Rewriting.DocumentASTRewrite.ResetModifiedDocument | src/ca/uwaterloo/ece/qhanam/jrsrepair/mutation/ReplacementMutation.java:41 | the document text goes back to the original, and the entries are kept |
| Rewriting.DocumentASTRewrite.ApplyRewrite | src/ca/uwaterloo/ece/qhanam/jrsrepair/mutation/ReplacementMutation.java:42-43 | applied to the original text, the rewrite yields the rendering of the current entries |
| Rewriting.DocumentASTRewrite.Replace | src/ca/uwaterloo/ece/qhanam/jrsrepair/mutation/ReplacementMutation.java:38 | the entry the target addresses now holds the replacement and no other entry changes; a null target, or one no entry holds, is rejected and nothing changes |
| Rewriting.DocumentASTRewrite.CopySubtree | src/ca/uwaterloo/ece/qhanam/jrsrepair/mutation/ReplacementMutation.java:35 | the copy has the seed's text and an identity found in no entry, original or current |
| Rewriting.ReplacementMutation.constructor | src/ca/uwaterloo/ece/qhanam/jrsrepair/mutation/ReplacementMutation.java:13-17 | a new mutation remembers no replacement node |
| Rewriting.ReplacementMutation.ConcreteMutate | src/ca/uwaterloo/ece/qhanam/jrsrepair/mutation/ReplacementMutation.java:23-45 | outside a block nothing changes; in a block a copy of the seed, new to the document, is remembered and put into the faulty statement's entry, and in the re-rendered text only that entry's text changes; the node the entry held before is remembered for the corrected undo; when no entry holds the faulty statement the replace is rejected and the entries and text are kept; a text that was the rendering of the entries stays so |
| Rewriting.ReplacementMutation.ConcreteUndo | src/ca/uwaterloo/ece/qhanam/jrsrepair/mutation/ReplacementMutation.java:51-59 | as written: the undo succeeds exactly when mutate remembered a copy that some entry still holds; it then writes the faulty statement into that entry and re-renders, keeping the text the rendering of the entries |
| Rewriting.ReplacementMutation.ConcreteUndoRestoring | src/ca/uwaterloo/ece/qhanam/jrsrepair/mutation/ReplacementMutation.java:51-59 | corrected: when mutate replaced nothing it succeeds and nothing changes; otherwise it succeeds exactly when some entry still holds the copy, and that entry gets back the node it held before the mutate |
| Rewriting.NonBlockUndoFails | src/ca/uwaterloo/ece/qhanam/jrsrepair/mutation/ReplacementMutation.java:32-53 | outside a block, mutate followed by the undo as written always fails |
| Rewriting.NestedUndoAsWrittenFails | src/ca/uwaterloo/ece/qhanam/jrsrepair/mutation/ReplacementMutation.java:32-53 | as written: an outer mutate, an inner mutate and undo of the same statement, then the outer undo; the outer undo always fails when the statement is in a block in one of its original entries, and the inner undo already fails outside a block |
| Rewriting.MutateThenUndo | src/ca/uwaterloo/ece/qhanam/jrsrepair/mutation/ReplacementMutation.java:23-59 | with the corrected undo: outside a block nothing changes; in a block both steps succeed exactly when some entry holds the faulty statement; either way the entries end as they began, and a text that was their rendering is byte-identical to the text before |
| Rewriting.NestedMutateUndoRestores | src/ca/uwaterloo/ece/qhanam/jrsrepair/mutation/ReplacementMutation.java:23-59 | with the corrected undo, the nested sequence above succeeds when the statement is in one of the block's original entries (or outside a block), and whenever it succeeds the entries and a rendered text end as they began |
| FileObjects.DotsToSlashes | src/ca/uwaterloo/ece/qhanam/jrsrepair/compiler/Source.java:14 | the path has the name's length, turns every '.' into '/', keeps every other character in place, and holds no '.' |
| FileObjects.SlashesToDots | src/ca/uwaterloo/ece/qhanam/jrsrepair/compiler/Source.java:14 | the reverse rule turns every '/' back into '.' and keeps every other character |
| FileObjects.DotsToSlashesRoundTrip | src/ca/uwaterloo/ece/qhanam/jrsrepair/compiler/Source.java:14 | a class name without '/' is recovered from its path |
| FileObjects.MemoUri | src/ca/uwaterloo/ece/qhanam/jrsrepair/compiler/Source.java:14 | the URI starts with "memo:///" and is as long as the scheme, the name and the extension together |
| FileObjects.UriPathIsName | src/ca/uwaterloo/ece/qhanam/jrsrepair/compiler/Source.java:14 | the part of the URI between the scheme and the extension is the name with dots turned into slashes |
| FileObjects.UriInjective | src/ca/uwaterloo/ece/qhanam/jrsrepair/compiler/Output.java:15 | class names without '/' of the same kind get the same URI only when they are equal |
| FileObjects.SlashedNameCollides | src/ca/uwaterloo/ece/qhanam/jrsrepair/compiler/Source.java:14 | "a.B" and "a/B" get the same URI |
| FileObjects.NewSource | src/ca/uwaterloo/ece/qhanam/jrsrepair/compiler/Source.java:13-16 | a source object has the URI of its name and kind and holds the given content |
| FileObjects.GetCharContent | src/ca/uwaterloo/ece/qhanam/jrsrepair/compiler/Source.java:18-21 | the content read is the source object's content |
| FileObjects.CharContentIsConstructorContent | src/ca/uwaterloo/ece/qhanam/jrsrepair/compiler/Source.java:19-21 | the content read back is the constructor's content, whatever the flag |
| FileObjects.ByteArrayOutputStream.constructor | src/ca/uwaterloo/ece/qhanam/jrsrepair/compiler/Output.java:12 | the buffer starts empty |
| FileObjects.ByteArrayOutputStream.Write | src/ca/uwaterloo/ece/qhanam/jrsrepair/compiler/Output.java:12 | writing appends the bytes in order |
| FileObjects.ByteArrayOutputStream.ToByteArray | src/ca/uwaterloo/ece/qhanam/jrsrepair/compiler/Output.java:19 | the copy holds every byte written so far, in order |
| FileObjects.Output.constructor | src/ca/uwaterloo/ece/qhanam/jrsrepair/compiler/Output.java:12-16 | the URI follows the memo rule, and the object owns a fresh buffer that starts empty |
| FileObjects.Output.ToByteArray | src/ca/uwaterloo/ece/qhanam/jrsrepair/compiler/Output.java:18-20 | the result is everything written to the buffer, in order, and the buffer is not changed |
| FileObjects.Output.OpenOutputStream | src/ca/uwaterloo/ece/qhanam/jrsrepair/compiler/Output.java:22-25 | every call hands out the same buffer |
| FileObjects.OutputCollectsWrites | src/ca/uwaterloo/ece/qhanam/jrsrepair/compiler/Output.java:12-25 | bytes written through two streams handed out by one output object are read back concatenated, in write order |
| Search.KindOf | src/ca/uwaterloo/ece/qhanam/jrsrepair/JRSRepair.java:286-305 | code 100 gives the null mutation, 1 addition, 2 replacement, and every other code deletion |
| Search.Ceil | src/ca/uwaterloo/ece/qhanam/jrsrepair/JRSRepair.java:284 | the result is the least integer not below x |
| Search.DrawCode | src/ca/uwaterloo/ece/qhanam/jrsrepair/JRSRepair.java:284 | a draw from [0, 1) gives a code in 0..3, and 0 only for the draw 0 |
| Search.DrawnKind | src/ca/uwaterloo/ece/qhanam/jrsrepair/JRSRepair.java:284-305 | the null mutation is never drawn; addition is drawn on (0, 1/3], replacement on (1/3, 2/3], and deletion on 0 and (2/3, 1) |
| Search.Depth | src/ca/uwaterloo/ece/qhanam/jrsrepair/JRSRepair.java:228-230 | from generation g a candidate runs max(1, mutationGenerations - g + 1) generations |
| Search.Visits | src/ca/uwaterloo/ece/qhanam/jrsrepair/JRSRepair.java:228-230 | the generations entered from g are g, g + 1, ... in order, as many as Depth says |
| Search.CandidatesLength | src/ca/uwaterloo/ece/qhanam/jrsrepair/JRSRepair.java:151-154 | n candidates enter n * max(1, mutationGenerations) generations in all |
| Search.JRSRepair.constructor | src/ca/uwaterloo/ece/qhanam/jrsrepair/JRSRepair.java:67-111 | the controller starts with an empty patch stack, no mutation code and nothing applied |
| Search.JRSRepair.GetRandomMutation | src/ca/uwaterloo/ece/qhanam/jrsrepair/JRSRepair.java:281-308 | the code is drawn only when none is set; the mutation's kind is the code's kind and never the null mutation; the faulty statement comes from the faulty pool and a seed from the seed pool exactly for addition and replacement |
| Search.JRSRepair.Mutate | src/ca/uwaterloo/ece/qhanam/jrsrepair/JRSRepair.java:187 | a successful mutate applies the mutation on top of the documents |
| Search.JRSRepair.Undo | src/ca/uwaterloo/ece/qhanam/jrsrepair/JRSRepair.java:204-208 | undo may only take off the last mutation applied, and a successful undo does exactly that |
| Search.JRSRepair.Compile | src/ca/uwaterloo/ece/qhanam/jrsrepair/JRSRepair.java:195 | every compiler call is counted |
| Search.JRSRepair.RunTests | src/ca/uwaterloo/ece/qhanam/jrsrepair/JRSRepair.java:199 | a test run yields a status or fails, and leaves the controller's state alone |
| Search.JRSRepair.LogSuccessfulPatch | src/ca/uwaterloo/ece/qhanam/jrsrepair/JRSRepair.java:254-275 | a logged patch records the candidate, the generation and the current patch stack |
| Search.JRSRepair.Attempt | src/ca/uwaterloo/ece/qhanam/jrsrepair/JRSRepair.java:181-213 | one attempt compiles once; a negative status undoes its own mutation, any other status keeps it and pushes its description; a failing test run leaves the compile status in place |
| Search.JRSRepair.Attempts | src/ca/uwaterloo/ece/qhanam/jrsrepair/JRSRepair.java:169-217 | the loop runs at least once and at most max(1, mutationAttempts) times, and a negative final status means the budget is spent; one compile per attempt; exactly when the final status is non-negative one mutation stays applied and pushed; every attempt uses the one mutation code |
| Search.JRSRepair.Generation | src/ca/uwaterloo/ece/qhanam/jrsrepair/JRSRepair.java:167-224 | a generation compiles between 1 and max(1, mutationAttempts) times, clears the mutation code, and logs a patch exactly when its status is positive, with its own mutation on top of the stack |
| Search.JRSRepair.PopPatch | src/ca/uwaterloo/ece/qhanam/jrsrepair/JRSRepair.java:232-235 | the kept mutation's description is popped and the mutation, the last one applied, undone |
| Search.JRSRepair.MutationIteration | src/ca/uwaterloo/ece/qhanam/jrsrepair/JRSRepair.java:167-248 | on normal return the documents and the patch stack are as at entry and no code is set; generation g recurses to g + 1 exactly when g is below the limit; compile calls lie between Depth and Depth * max(1, mutationAttempts); a patch is logged for this generation exactly when its status is positive, and deeper generations log only deeper patches |
| Search.JRSRepair.Repair | src/ca/uwaterloo/ece/qhanam/jrsrepair/JRSRepair.java:147-159 | repair refuses to start, changing nothing, exactly when there are no documents or a pool is empty; otherwise candidates 1 to mutationCandidates run in order from generation 1; on completion the documents and the patch stack are as at entry and the compile calls are bounded per candidate |

## Left out

- Search.JRSRepair.MutationIteration: promises nothing about the documents or the patch stack when it fails (`ok` false). The source has no rollback on an exception either; it rethrows at lines 236-247.
- Search.JRSRepair.Repair: an exception in any candidate aborts the remaining candidates (`Aborted`), as the code at lines 150-158 does. It does not move on to the next candidate. The comment at line 238 describes such a recovery, but the code for it (lines 240-242) is commented out.
- Search.JRSRepair.GetRandomMutation: the seed draw is the plain weighted draw. The overload `getRandomStatement(faulty)` that line 294 calls, and the two-argument pool constructor at lines 76-77, are not defined in `Statements.java` in this revision of the repository, which has only a constructor without arguments and the plain draw.
- Search.JRSRepair.Mutate, Search.JRSRepair.Undo, Search.JRSRepair.Compile, Search.JRSRepair.RunTests: the addition, deletion and null mutations, the compiler and the test runner are not part of this model. They are oracles that may fail, or return any status. Only the replacement mutation is modelled in detail, in `Rewriting`.
- Search.JRSRepair.LogSuccessfulPatch: writes no files. Date stamps, the patch directory and the stored class files are file I/O, so a logged patch is a ghost record. `checkScope` (line 190) only parses the modified text and prints whether variables are in scope, and is left out. `logMutation` (line 192) appends the mutation to a log file and rethrows a failed write (lines 400-408). Such a failure aborts `mutationIteration` like any other exception, as a failing `Mutate` or `Compile` does in the model, so it is left out too.
- Search.JRSRepair.Attempts: the patch stack holds structured descriptions rather than the strings the source builds for it. `System.out` output is left out everywhere.
- Pool.Statements.GetRandomStatement: `Math.random()` is the parameter `u` in [0, 1). `double` weights and sums are exact reals, so rounding is not modelled. An empty pool gives `None` where the source throws a `NullPointerException`. `Pool.Statements.DrawSucceeds` states that a non-empty pool with a non-negative total always finds a statement.
- Pool.Statements.ToString: the texts of keys and statements are parameters. `Double.toString` and the AST printer are not part of this model.
- Pool.Statements.IsEmpty: `Statements.java` in this revision of the repository has no `isEmpty`, though `repair` calls it at line 148. It is modelled as "the map has no entries".
- Coverage.MutationASTRequestor.AcceptAST: the walk is given as the sequence of statement nodes in visit order. JDT parsing, `buildASTs` (lines 116-141) and the printing `VarASTVisitor` (lines 109-129) are left out. The line number is carried on the statement, in place of `cu.getLineNumber`.
- Coverage.KeyOf: the class name is the printed form of the first type declaration. `LineCoverage` and `LCNode` are defined outside the modelled files, so the coverage is a map from key to weight and the key is a record. A missing first type is modelled as a failure, where the source throws from `get(0)`.
- Rewriting.DocumentASTRewrite.ApplyRewrite: JDT's `ASTRewrite` and `TextEdit` are not part of this model. A block is one statement list, a sequence of nodes, and the text is the concatenation of their texts.
- Rewriting.DocumentASTRewrite.Replace: `replace` is modelled as the statement list's rewrite event, one slot per entry holding the original and the current node. Nested blocks, and JDT's checks of a node's parent and property, are not modelled; a null target or one that no entry holds is rejected.
- FileObjects.MemoUri: `URI.create` is not part of this model. The URI is its string, and no URI syntax is checked.
- Search.JRSRepair.Undo: a successful undo is assumed to remove exactly its own mutation, the last one applied, so that `MutationIteration` and `Repair` restore the documents. The replacement mutation's undo as written breaks this when a generation replaces a statement that an enclosing generation already replaced: the outer undo is then rejected (`Rewriting.NestedUndoAsWrittenFails`, `Rewriting.NestedReplaceLosesOuter`; see "## Findings"). The assumption holds for the corrected undo (`Rewriting.NestedMutateUndoRestores`). The other mutations are not part of this model.
- File discovery, loading of the source files, and the reading of coverage files are I/O and are left out.

## Findings

| source | as written | input that shows it | evidently intended | confidence | as-written member | corrected member |
|---|---|---|---|---|---|---|
| src/ca/uwaterloo/ece/qhanam/jrsrepair/mutation/ReplacementMutation.java:51-53 | `concreteUndo` always calls `rewrite.replace(replacementNode, faulty, null)`, but `concreteMutate` (line 32) sets `replacementNode` only when the faulty statement's parent is a `Block`. | A replacement mutation whose faulty statement is directly under an `if` without braces, mutated and then undone. `replacementNode` is null, and `replace(null, …)` is rejected with an exception. `mutationIteration` undoes every mutation it tries, at line 208 or at line 234, so the exception aborts the search. | Undo does nothing when mutate made no replacement, mirroring the guard in `concreteMutate`. | not executed | Rewriting.NonBlockUndoFails | Rewriting.ReplacementMutation.ConcreteUndoRestoring |
| src/ca/uwaterloo/ece/qhanam/jrsrepair/mutation/ReplacementMutation.java:38-53 | `concreteUndo` replaces the copy by the faulty statement itself (line 53), not by the node the entry held before `concreteMutate` replaced it (line 38). | Two nested generations both draw a replacement of the same assert statement, which sits in a block; this is certain for the statement when the faulty pool holds only it. The inner undo writes the statement back over the outer copy, so no entry holds that copy any more; the outer undo at line 234 then asks to replace a node the rewrite does not hold, is rejected with an exception, and the search aborts. | Each undo gives its entry back the node it held before its own mutate, so that nested mutations of one statement undo in last-in, first-out order. | not executed | Rewriting.NestedUndoAsWrittenFails | Rewriting.NestedMutateUndoRestores |
