# Verified models of the rx engine and five data structures

This project models, in Dafny, the `rx` regular-expression engine and the data
structures beneath the IRC services daemon, and proves what they are for.

- **The engine, from tree to match.** Syntax trees have a relational meaning
  (`RxNode.Match`: subject, span, registers before and after) and, without groups,
  anchors and back-references, a regular language (`RxNode.InLang`). The chain is:
  Thompson construction in place (`RxNfa`, `RxThompson`); closures by a depth-first walk
  that marks its path only (`RxEclose`, `RxStateSet`); one step of the subset
  construction as the engine takes it, character classes and all (`RxBitset`, `RxStep`,
  `RxTame`); the cache of superstates with its demotions, revivals and evictions
  (`RxCache`, `RxSuper`); a tree with its cache (`RxUnfa`); simplification (`RxSimp`);
  the static analyses (`RxAnal`); the context operators (`RxStr`); the resumable
  backtracking matcher (`RxOutcomes`, `RxSpencer`), the order of its answers (`RxWays`);
  where its tests are right (`RxRight`); and the search (`RxPosix`).
- **Data structures.** The threaded splay tree and the dictionary on it (`IrcCase`,
  `DictSplay`, `Dict`), the binary heap (`Heap`), G-lines with their timer (`Gline`), one
  size class of the slab allocator (`AllocSlab`), the hash tries (`RxHash`) and the
  permuting option scanner (`Getopt`, `GetoptSlips`).

Code that changes things in place is a class or a method with loops, proved against a
function or an invariant on values; what the function means is proved beside it.

The engine's statements come in two layers. Those about the cache, the matcher and the
search hold for *every* subject and say exactly what the code computes, its mistakes
included: `EngineStep`, `Accepts`, `Outcomes`, `Candidate`. `RxWays` says which outcomes
there are and in which order, by the choices made at the nodes of the tree. Lemmas then relate that to
the meaning of the tree: the engine misses nothing, and where no test is misled it adds
nothing (`RightOn`), with conditions that can be checked beforehand (`FollowedOn`,
`CleanOn`).

## Model

| member | source | states |
|---|---|---|
| RxNode.MatchFrame | rx/rxspencer.c:550-626 | a match leaves every register outside the tree's own groups as it was |
| RxAnal.FixedLenSound | rx/rxanal.c:37-150 | when the `len` field is not -1 it is the length of every match |
| RxAnal.UnobservedIsRegular | rx/rxanal.c:37-150 | a tree that is not observed matches exactly the words of its regular language and leaves all registers alone, so that an automaton may decide it |
| RxAnal.FillInFastmap | rx/rxanal.c:158-240 | the map gains exactly the characters the analysis marks, and the result is its verdict on empty matches |
| RxAnal.FastmapSound | rx/rxanal.c:158-240 | if the analysis denies empty matches, every match is not empty and begins with a marked character |
| RxAnal.AnchoredSound | rx/rxanal.c:248-286 | an anchored tree matches only where `^` holds |
| RxSimp.Simplifier.SimpleRexp | rx/rxsimp.c:37-145 | the memoised recursion terminates although it follows back-references, and returns the simplified tree; the memo stays right |
| RxSimp.SimplifyCompiles | rx/rxsimp.c:37-145 | the simplified tree has no groups, anchors or back-references left, so it can be compiled without side effects |
| RxSimp.SimplifyCovers | rx/rxsimp.c:37-145 | whatever a tree matches, given registers that span text of their own groups, is a word of the simplified tree; and the registers keep that property |
| RxNfa.Rx.BuildNfa | rx/rxnfa.c:216-394 | the construction in place, with states supplied by the caller or made on the way and shared between operands, yields the graph, start and end that the next rows are about |
| RxThompson.BuiltShape | rx/rxnfa.c:216-394 | new edges leave only the start and new states and lead only to the end, to new states or, being empty, from the start to itself; old edges stay |
| RxThompson.BuiltAccepts | rx/rxnfa.c:216-394 | every word of the tree is spelled by a path of added edges from start to end |
| RxThompson.BuiltLabel | rx/rxnfa.c:216-394 | there is a labelling of the states that every added edge respects and that gives the start only words of the tree followed by words of the end |
| RxThompson.BuildNfaExact | rx/rxnfa.c:216-394 | for any tree without side effects and any supplied states: the added edges from start to end spell exactly the tree's words, and no older state but the start gets or loses an edge |
| RxThompson.WholeNfaExact | rx/rxunfa.c:81-122 | the automaton built from nothing accepts exactly the language of the tree |
| RxEclose.EcloseNode | rx/rxnfa.c:677-778 | the walk that marks only its current path clears every mark it set, keeps the list sorted, and adds exactly the states reachable by empty moves through unmarked states |
| RxEclose.VisitedUnfold | rx/rxnfa.c:677-778 | what is reachable from a state is the state and what its successors reach without it, which is why unmarking on the way out loses nothing |
| RxEclose.VisitedIsClosure | rx/rxnfa.c:677-778 | with nothing marked these are all states that an empty path leads to |
| RxEclose.Futures.PossibleFutures | rx/rxnfa.c:783-805 | the remembered closure of a state is the sorted list of its whole closure |
| RxStateSet.EnjoinMerges | rx/rxnfa.c:628-654 | adding a state keeps the list sorted and adds that state only |
| RxStateSet.UnionIsUnion | rx/rxsuper.c:743-793 | merging two sorted lists yields the sorted list of their union |
| RxStateSet.SortedUnique | rx/rxsuper.c:697-736 | two sorted lists of the same states are the same list, so a set of states has one superset structure |
| RxBitset.IsEqual | rx/rxbitset.c:32-54 | the sentinel that ends the loop is taken out again and the answer is equality of all words |
| RxBitset.IsSubset | rx/rxbitset.c:60-72 | the loop answers inclusion of all words but the last |
| RxBitset.IsSubsetRight | rx/rxbitset.c:60-72 | that is inclusion if and only if it denies it or the last words are included too |
| RxBitset.IsEmpty | rx/rxbitset.c:78-93 | the answer is that word 0 is zero, and the set is left as it was |
| RxBitset.IsEmptyRight | rx/rxbitset.c:78-93 | that is wrong if and only if word 0 is zero and some member is beyond it |
| RxBitset.CalledEmpty | rx/rxbitset.c:78-93 | a set with a member that is called empty |
| RxBitset.Universe | rx/rxbitset.c:112-122 | afterwards every bit is in the set |
| RxBitset.Complement | rx/rxbitset.c:128-141 | a bit is in the set afterwards if and only if it was not before |
| RxBitset.Union | rx/rxbitset.c:164-175 | a bit is in the set afterwards if and only if it was in either set |
| RxBitset.Intersection | rx/rxbitset.c:182-193 | a bit is in the set afterwards if and only if it was in both sets |
| RxBitset.Difference | rx/rxbitset.c:199-210 | a bit is in the set afterwards if and only if it was in the first set and not in the second |
| RxStep.WordsTestChars | rx/rxbitset.c:60-72 | on sets of 256 characters the loop over words compares exactly the characters below 224 |
| RxStep.DestinationIsStep | rx/rxsuper.c:1032-1124 | for a class with a character below 224 the computed destination is the subset-construction successor on each character of the class |
| RxStep.EngineStepExact | rx/rxsuper.c:1032-1213 | the engine's step never misses a state; it is the subset-construction successor if and only if no edge carries the character, or its class has a character below 224, or the edges taken by mistake lead nowhere new |
| RxStep.EngineStepOfClass | rx/rxsuper.c:1143-1213 | the step is the same for all characters of a class, so one super edge may serve them |
| RxStep.EngineRunCovers | rx/rxanal.c:372-470 | after any text the engine has every state it should have |
| RxStep.EngineRunExact | rx/rxanal.c:372-470 | the engine follows the subset construction through a whole text if and only if every single step on the way is right |
| RxStep.TameIsRight | rx/rxbitset.c:60-72 | so it does when every character of the text has a twin below 224 that no edge tells from it |
| RxStep.SubsetConstruction | rx/rxsuper.c:1032-1213 | the subset construction accepts exactly what the automaton accepts |
| RxTame.TreeIsTame | rx/rxnfa.c:216-394 | a character that no set of the tree tells from one below 224 has that twin in the whole automaton |
| RxCache.InstallTransition | rx/rxsuper.c:60-92 | the answer is stored for exactly the characters of the set |
| RxCache.ComputeSuperEdge | rx/rxsuper.c:1143-1213 | the set computed is exactly the class of the character: the characters that every edge of the superstate treats like it; and an edge is reported if and only if one carries it |
| RxCache.Solution | rx/rxsuper.c:1032-1124 | the loops collect exactly the destination of the class, as a sorted list |
| RxCache.EdgeLinked | rx/rxsuper.c:1229-1268 | a new super edge shares no character with the others of its state |
| RxCache.FrameExact | rx/rxsuper.c:1032-1124 | an instruction frame of a super edge faults, or leads where the engine's step goes for each of its characters |
| RxCache.EntryExact | rx/rxsuper.c:1319-1414 | a table entry is empty, or faults on the edge for its character, or is right |
| RxCache.FrameInstalled | rx/rxsuper.c:268-306 | copying a new frame over the table of its state keeps every table right |
| RxCache.FlagFlipped | rx/rxsuper.c:188-306 | a state may be demoted or revived if the edges to it are patched accordingly |
| RxCache.OrphanedTables | rx/rxsuper.c:386-516 | freeing a semifree state leaves no table entry that leads to it |
| RxCache.JoinMeaning | rx/rxsuper.c:1032-1124 | linking the edges of an unsolved ring to a destination keeps what states and edges stand for |
| RxCache.AllLocked | rx/rxsuper.c:188-249 | if nothing is semifree and nothing can be demoted, every state is locked |
| RxSuper.Cache.Semifree | rx/rxsuper.c:183-249 | demotes exactly the first state of the queue that is not locked, if there is one; locks and contents stay, and the counters are the lengths of the queues |
| RxSuper.Cache.RefreshSemifree | rx/rxsuper.c:252-306 | the state goes to the end of the first queue and all edges to it are taken directly again |
| RxSuper.Cache.RefreshThis | rx/rxsuper.c:308-334 | the state becomes the last to be given up, revived if need be |
| RxSuper.Cache.ReallyFree | rx/rxsuper.c:381-516 | frees one state and succeeds if and only if some state is not locked; no locked state goes |
| RxSuper.Cache.RxSuperstate | rx/rxsuper.c:886-1019 | finds or makes the one state of a set of automaton states, whatever had to be freed for it |
| RxSuper.Cache.AddSuperEdge | rx/rxsuper.c:1221-1268 | adds the edge for the class of a character that some edge carries, with a frame that faults |
| RxSuper.Cache.SolveDestination | rx/rxsuper.c:1027-1124 | afterwards the edge has a way to go on, and locked states still are what they were |
| RxSuper.Cache.HandleCacheMiss | rx/rxsuper.c:1314-1414 | the frame returned is the fault of the edge for the character, or leads where the engine's step goes |
| RxSuper.Cache.StartSuperstate | rx/rxanal.c:290-365 | the matcher holds a locked state whose contents are the closure of the start |
| RxSuper.Cache.Follow | rx/rxanal.c:398-452 | however many faults it takes, one character leads where the engine's step goes |
| RxSuper.Cache.FitP | rx/rxanal.c:370-470 | cache transparency, for every text and any states, edges and tables left by earlier matches: the answer is the one of the engine's steps on the automaton, whatever is demoted, revived or freed on the way |
| RxSuper.Cache.AdvanceToFinal | rx/rxanal.c:564-688 | stops at the first final state after a character, before the character on which nothing is left, or at the end |
| RxUnfa.WholeChain | rx/rxunfa.c:81-122 | from tree to superstates the language is the same, if all steps are right |
| RxUnfa.AcceptsCovers | rx/rxspencer.c:205-259 | the engine rejects no word of the tree, whatever its bytes |
| RxUnfa.AcceptsFollowed | rx/rxspencer.c:205-259 | where every step on the text is right, so is the answer |
| RxUnfa.AcceptsTame | rx/rxspencer.c:205-259 | so it is for texts whose characters have twins below 224 for the tree |
| RxUnfa.LastWordMisjudged | rx/rxbitset.c:60-72 | a tree and a text on which the engine is wrong: it takes the byte 255 for a word of the pattern that asks for that byte and a `b`, or for an `a` |
| RxUnfa.Unfa.Fits | rx/rxspencer.c:205-259 | the test of a whole text against a tree answers the same after any earlier tests with the same cache, and leaves all locks as they were |
| RxUnfa.Unfa.Hopeless | rx/rxposix.c:318-329 | the pre-check says that the walk dies before a final state, and hands over the lock of its machine |
| RxUnfa.DiesSound | rx/rxposix.c:318-329 | a walk that dies has seen no match but perhaps the empty one |
| RxUnfa.DiesDecided | rx/rxposix.c:318-329 | what the walk returns decides whether it died |
| RxStr.StrncmpMeaning | rx/rxstr.c:72-96 | `strncmp` reports equality exactly for stretches that are equal, or equal up to a NUL that both have |
| RxStr.ContextFnExact | rx/rxstr.c:59-130 | the context function says what the meaning says, or is misled by a NUL into yes: exactly when the two stretches compared differ only behind a NUL; it is never misled into no |
| RxStr.AnchorsAtLines | rx/rxstr.c:98-118 | `^` holds exactly of empty spans where a line begins, the first line unless `not_bol`, the others with `newline_anchor`; and `$` where one ends, the last unless `not_eol` |
| RxStr.LinesCut | rx/rxstr.c:98-118 | the lines are the text cut at its bytes 10 |
| RxStr.NulHidesDifference | rx/rxstr.c:72-96 | a subject on which a back-reference is so misled |
| RxOutcomes.SafeBodiesExact | rx/rxspencer.c:864-993 | a check on the tree that passes if and only if, for every subject, no body of an observed star or plus matches the empty string, intervals are not reversed and groups have registers |
| RxOutcomes.SplitsHave | rx/rxspencer.c:750-862 | the outcomes over all splits are those of some first part followed by those of the rest |
| RxOutcomes.OutcomesFramed | rx/rxspencer.c:550-626 | every outcome keeps the registers outside the tree's groups, and all set registers in range |
| RxOutcomes.ScreenCovers | rx/rxspencer.c:515-541 | the test with the simplified tree screens out nothing that is allowed |
| RxOutcomes.OutcomesExact | rx/rxspencer.c:446-1191 | completeness for every subject: each match of the tree is among the outcomes; and soundness, where no test that decides alone is misled: each outcome is a match |
| RxOutcomes.RightOnNothing | rx/rxspencer.c:864-993 | on an empty span no test can be misled |
| RxOutcomes.StarUnfold | rx/rxspencer.c:864-993 | a star or plus is a non-empty choice of a first iteration and the rest, or nothing |
| RxOutcomes.IntervalUnfold | rx/rxspencer.c:994-1175 | an interval after x iterations ends in its bounds or makes one more iteration |
| RxWays.OutcomesListed | rx/rxspencer.c:441-1191 | on every subject the answers of the matcher are exactly the ways that its tests admit, each once, and in the order of preference: left branch before right, body before nothing, stopping an interval before another iteration, the later end of a first part, then its better match, then the better rest |
| RxWays.OutcomesMeant | rx/rxspencer.c:441-1191 | where no test that decides is misled, the ways are those that the tree means |
| RxWays.WayMatches | rx/rxspencer.c:441-1191 | every way that the tree means is a match with its registers |
| RxWays.MatchHasWay | rx/rxspencer.c:441-1191 | every match goes some way |
| RxWays.MeantIsTested | rx/rxspencer.c:515-541 | the tests admit every way that the tree means, with the same registers |
| RxWays.TestedIsMeant | rx/rxspencer.c:515-541 | they admit no other, where none that decides is misled |
| RxWays.BetterOrders | rx/rxspencer.c:629-1175 | the preference is a strict order |
| RxWays.FirstIsBest | rx/rxspencer.c:441-1191 | the first answer has the registers of the way preferred to all others |
| RxSpencer.Solutions.constructor | rx/rxspencer.c:32-147 | a new object stands for all outcomes of the tree on its span, from the registers as they are |
| RxSpencer.Solutions.NextSolution | rx/rxspencer.c:441-1191 | for every subject: a call takes the next outcome of the list, which `RxWays.OutcomesListed` puts in order, and puts it in the shared registers; when none is left it says no and the registers are those at creation; every call terminates |
| RxSpencer.Solutions.FitP | rx/rxspencer.c:205-259 | the answer of the engine for the node, or for its simplified form |
| RxSpencer.Solutions.FitStrP | rx/rxspencer.c:262-335 | the string node is compared byte by byte with the span |
| RxSpencer.Solutions.NextContext | rx/rxspencer.c:1176-1188 | a context operator yields one outcome or none |
| RxSpencer.Solutions.NextParens | rx/rxspencer.c:550-626 | a group records its span around each outcome of its body and takes it back before asking for the next |
| RxSpencer.Solutions.NextOpt | rx/rxspencer.c:629-671 | the outcomes of the body, and then one more on an empty span |
| RxSpencer.Solutions.NextAlternate | rx/rxspencer.c:673-748 | the outcomes of the left branch and then those of the right |
| RxSpencer.Solutions.NextSplit | rx/rxspencer.c:750-993 | the steps of concatenation, star and plus go through all splits, latest first |
| RxSpencer.Solutions.NextInterval | rx/rxspencer.c:994-1175 | the steps of a counted interval, with the iterations already made |
| RxSpencer.Solutions.RunSplits | rx/rxspencer.c:784-862 | the loop terminates: the split goes down, or the outcomes left of the first part do |
| RxRight.FollowedIsRight | rx/rxspencer.c:446-1191 | no test is misled where every step of the engine is right and back-references meet no NUL |
| RxRight.CleanIsFollowed | rx/rxspencer.c:446-1191 | that is so for subjects whose characters have twins below 224, in particular for characters below 224 |
| RxPosix.AttemptContext | rx/rxposix.c:231-236 | resetting `not_eol` for each end makes `$` in an attempt mean what it means in the whole subject |
| RxPosix.SameContextSameMatch | rx/rxposix.c:231-236 | a match depends on the subject only through its text and its anchors in the span |
| RxPosix.RegMatch | rx/rxposix.c:189-270 | tries ends from the longest down: the match reported is on the largest end that has one, with the registers of the preferred way there |
| RxPosix.HitsReach | rx/rxposix.c:189-270 | an attempt never misses a match, and where no test is misled it finds nothing else |
| RxPosix.LongestCovers | rx/rxposix.c:208-229 | the longest end at a start is never before the naive one, and is past the subject only for a pattern of fixed length |
| RxPosix.OutcomesAnchored | rx/rxanal.c:248-286 | an anchored tree has outcomes only where `^` holds, on every subject |
| RxPosix.AnchoredNowhere | rx/rxposix.c:337-349 | where a line does not begin an anchored pattern has no match in any attempt, so skipping to the next line loses nothing |
| RxPosix.NextStart | rx/rxposix.c:337-349 | no start that is skipped could have been taken |
| RxPosix.RegExec | rx/rxposix.c:274-353 | with first-character test, pre-check, anchoring and length bounds, the search reports the first start that passes them and has an outcome, and there its longest end |
| RxPosix.RegNComp | rx/rxposix.c:51-125 | the analyses of a compiled pattern are those of its tree |
| RxPosix.RegNExec | rx/rxposix.c:372-431 | the same from fresh registers and a fresh automaton |
| RxPosix.NothingMissed | rx/rxposix.c:274-353 | on every subject: the start reported is no later than that of any match which the pre-check does not give up |
| RxPosix.NaiveFound | rx/rxposix.c:274-353 | if there is a match and no test is misled, the search reports the leftmost start and the largest end for it if and only if the pre-check does not give that start up, which it does only where the longest match is empty |
| RxPosix.CandidateExact | rx/rxposix.c:189-353 | a start succeeds if and only if it has a match in the subject that is not given up, or an attempt of fixed length finds one that ends past the subject |
| RxPosix.NothingFound | rx/rxposix.c:208-229 | a subject without a match: one is reported if and only if some start has an attempt of fixed length that matches past the end of the subject |
| RxPosix.SearchExact | rx/rxposix.c:274-353 | for a subject of up to 30 characters or a start state that is not final: a match in the subject is reported if and only if there is one, and it is the leftmost longest |
| RxPosix.ReportedIsBest | rx/rxposix.c:274-353 | if no test is misled, the registers reported are those of the preferred way to match the pattern on the span reported, in the whole subject |
| RxPosix.SameContextSameWay | rx/rxposix.c:231-236 | a way depends on the subject only through its text and its anchors in the span |
| RxPosix.NoOverrun | rx/rxposix.c:208-229 | no attempt succeeds past the end if the byte behind the subject is in no set of the pattern, like the NUL behind a string |
| RxPosix.EmptyMatchLost | rx/rxposix.c:318-329 | the tree of `(ab)?` and a subject whose empty match the pre-check loses |
| RxPosix.PastTheEnd | rx/rxposix.c:208-229 | a pattern and a subject for which an attempt matches past the end |
| RxPosix.WrongMatchReported | rx/rxbitset.c:60-72 | a pattern and a subject for which the search reports a match that is none |
| IrcCase.IrcCaseCmp | src/tools.c:403-408 | the loop computes the difference at the first place where the folded keys differ |
| IrcCase.CompareEqual | src/tools.c:403-408 | with either table of lower-case letters, keys compare equal if and only if they are the same with their case folded |
| IrcCase.SameKeyExact | src/tools.c:403-408 | keys compare equal if and only if they have the same length and at each place the same character or a capital and its small letter: A to Z, and with WITH_PROTOCOL_P10 the brackets and the Latin-1 letters |
| IrcCase.FirstDifference | src/tools.c:403-408 | otherwise the first place where they differ decides, by the small letters as signed bytes |
| IrcCase.CompareTransitive | src/tools.c:403-408 | the comparison is transitive, strictly if either part is strict |
| IrcCase.CompareFlips | src/tools.c:403-408 | swapping the keys negates the comparison |
| DictSplay.RotateRight | src/dict-splay.c:91-96 | a rotation keeps the nodes in order |
| DictSplay.LinkRight | src/dict-splay.c:98-100 | hanging the node on the right side tree keeps the nodes in order, the dummy header holding both side trees |
| DictSplay.Assemble | src/dict-splay.c:116-120 | the side trees take the subtrees of the last node and become its subtrees |
| DictSplay.Splay | src/dict-splay.c:75-121 | top-down splaying terminates, keeps the in-order sequence and the set of nodes, and parts the tree at the key: smaller keys on the left of the new root, larger ones on its right |
| DictSplay.Nearest | src/dict-splay.c:75-121 | so the root is the node sought if there is one, and otherwise its immediate predecessor or successor |
| Dict.LinkedThreaded | src/dict-splay.c:165-192 | linking a node in next to the root keeps the thread equal to the in-order sequence |
| Dict.UnlinkedThreaded | src/dict-splay.c:242-245 | linking a node out does too |
| Dict.InsertedNode | src/dict-splay.c:150-217 | a node put where its key belongs keeps the order and adds one entry to the map |
| Dict.RemovedNode | src/dict-splay.c:225-255 | taking a node out keeps the order and removes one entry |
| Dict.Dictionary.Lookup | src/dict-splay.c:264-278 | after the splay the root alone decides whether the key is there |
| Dict.Dictionary.Find | src/dict-splay.c:264-278 | an entry is found if and only if there is one whose key is the same up to case, and then it is that; the entries do not change |
| Dict.Dictionary.Insert | src/dict-splay.c:150-217 | the entry is there afterwards, in the place of any whose key is the same up to case, and all others stay; thread, tree and count stay in step |
| Dict.Dictionary.Remove | src/dict-splay.c:225-255 | exactly an entry whose key is the same up to case goes, and the answer is whether there was one |
| Dict.Dictionary.OnePerKey | src/dict-splay.c:150-217 | no two entries have the same key up to case |
| Dict.Dictionary.Foreach | src/dict-splay.c:60-68 | the callback sees the entries in key order up to the first it stops at |
| Dict.Dictionary.SanityCheck | src/dict-splay.c:333-348 | the check never reports an error |
| Dict.SanityCheckNode | src/dict-splay.c:304-327 | no child is on the wrong side of its parent, and the nodes counted are those of the tree |
| Heap.TopIsLeast | src/heap.c:100-104 | the first entry of a heap is not after any other |
| Heap.UpStep | src/heap.c:58-76 | moving an item up keeps the order but for that item |
| Heap.DownStep | src/heap.c:110-132 | moving an item down keeps the order but for that item |
| Heap.WithoutDown | src/heap.c:138-149 | the last item in the place of a removed one may be out of order with its children and with its parent, and nothing else |
| Heap.Heap.HeapifyUp | src/heap.c:58-76 | restores the order and keeps the entries |
| Heap.Heap.HeapifyDown | src/heap.c:110-132 | restores the order below the item and keeps the entries |
| Heap.Heap.Insert | src/heap.c:82-91 | adds one entry to an ordered heap, growing the array when it is full |
| Heap.Heap.Remove | src/heap.c:138-149 | removes exactly the entry at the index and keeps the order, whichever way the replacement has to go |
| Heap.Heap.Pop | src/heap.c:155-158 | removes exactly the first entry |
| Heap.Heap.RemovePred | src/heap.c:169-191 | terminates and leaves an ordered heap of exactly the entries that the predicate does not hold of |
| Gline.SignExact | src/gline.c:52-56 | the truncated difference has the right sign if and only if its low 32 bits are as they should: zero for equal lifetimes, from 1 to 2^31 - 1 if the first is later, 2^31 or more if it is earlier |
| Gline.LaterOnTop | src/gline.c:52-97 | of two lifetimes just over 2^31 seconds apart the heap holds the later one on top, where the timer looks |
| Gline.CloseLifetimes | src/gline.c:52-56 | lifetimes less than 2^32 seconds apart are compared rightly by the truncated difference if and only if they are less than 2^31 seconds apart |
| Gline.ComparatorOrders | src/gline.c:52-56 | with lifetimes that are compared rightly the comparator orders the heap |
| Gline.Glines.Find | src/gline.c:125 | the exact target finds the entry of the dictionary |
| Gline.Glines.Refresh | src/gline.c:126-151 | taking the entry out of the heap, changing it and putting it back keeps heap and dictionary in step |
| Gline.Glines.Add | src/gline.c:112-159 | a new entry is as the call says; of an old one a later modification replaces expiry and reason, the lifetime only grows and the time of issue only goes back; dictionary and heap hold the same entries once each, and one timer is pending and no later than the least lifetime |
| Gline.HistoryOfEntry | src/gline.c:112-159 | after any number of additions for one target: target and issuer are those of the first; modification, expiry and reason those of the first with the latest modification; the lifetime is the longest asked for; the time of issue is the earliest of the first one and the later modifications |
| Gline.Glines.Remove | src/gline.c:100-110 | the entry stays and only its expiry changes |
| Gline.Glines.Expire | src/gline.c:81-97 | exactly the entries that are due go, and a timer is pending if and only if entries are left |
| Gline.Glines.TimeqRun | src/timeq.c:111-126 | after the timers of a moment exactly the entries due by then are gone, whether or not a timer was due |
| AllocSlab.IndexInRange | src/alloc-slab.c:271-284 | the index of a size class is in range for exactly the sizes up to 568 |
| AllocSlab.SmallRequest | src/alloc-slab.c:466-494 | every request that is sent to a size class is in range and gets at least seven items per page |
| AllocSlab.ItemInPage | src/alloc-slab.c:309-335 | every item lies in its page and before the trailer |
| AllocSlab.ItemsApart | src/alloc-slab.c:309-314 | two items share no byte |
| AllocSlab.TrailerFound | src/alloc-slab.c:366 | from any item the arithmetic of a free finds the trailer of its own page |
| AllocSlab.Populate | src/alloc-slab.c:309-314 | the loop strings all items of a page into one free list |
| AllocSlab.CursorFull | src/alloc-slab.c:292 | the cursor's slab is full if and only if all slabs are |
| AllocSlab.ShapedReopen | src/alloc-slab.c:371-387 | a full slab that gets an item back goes in front of the cursor and becomes it, and every slab before the cursor is full still |
| AllocSlab.LiveWrite | src/alloc-slab.c:286-358 | writes into live items do not disturb the free lists |
| AllocSlab.UsedCountsLive | src/alloc-slab.c:332-337 | `used` is the number of live items of the slab |
| AllocSlab.SlabSet.Alloc | src/alloc-slab.c:286-358 | returns an item that was not live, every byte of it cleared, and now live; nothing else in memory changes, but for the new page, which is taken if and only if every slab is full; `nallocs`, `used`, free lists and cursor stay right |
| AllocSlab.SlabSet.Unalloc | src/alloc-slab.c:360-464 | the item is no longer live, all others are; the slab moves before the cursor and becomes the cursor's if it was full, goes if it is empty, and stays where it is otherwise |
| RxHash.LowBitsOnly | rx/rxhash.c:115-126 | because of the macro's missing parentheses a bucket depends on four bits of the hash |
| RxHash.NeverSeparated | rx/rxhash.c:115-126 | what shares a bucket of the first table shares one at every depth |
| RxHash.Located | rx/rxhash.c:133-170 | any item with the same hash is in the list that a descent ends at |
| RxHash.SplitOk | rx/rxhash.c:246-277 | splitting a bucket keeps items, parents, counts and lists right |
| RxHash.Collapsed | rx/rxhash.c:326-336 | taking out an empty table does too |
| RxHash.HashTable.Find | rx/rxhash.c:133-170 | finds an equal item if and only if there is one |
| RxHash.HashTable.Store | rx/rxhash.c:206-293 | returns the equal item, or adds exactly one new item |
| RxHash.HashTable.Free | rx/rxhash.c:298-338 | removes exactly that item, and with it every table that becomes empty |
| RxHash.HashTable.DepthOf | rx/rxhash.c:310-316 | counting parents gives the depth |
| RxHash.RefsExact | rx/rxhash.c:206-338 | `refs` is the number of items and tables directly in a table; no table below the root is empty, and none is deeper than three |
| RxHash.AlwaysSplits | rx/rxhash.c:190-201 | the length of a list never keeps a store from splitting: the root holds no items and no list above the last level has more than two |
| RxHash.OneChain | rx/rxhash.c:115-126 | under each bucket of the root there is a chain of tables and no tree |
| Getopt.SwapBlocks | src/getopt.c:298-326 | the inner loops exchange two blocks of equal length |
| Getopt.Rotate | src/getopt.c:286-333 | swapping the shorter block to its end until nothing is left rotates the two blocks in place, each in its order |
| Getopt.RotatedPermutes | src/getopt.c:286-340 | the rotation is a permutation |
| Getopt.Scanner.Exchange | src/getopt.c:286-340 | ... and the indices of the non-options follow it |
| Getopt.Scanner.Gather | src/getopt.c:499-528 | moves the options found since behind the skipped arguments before them and skips more arguments |
| Getopt.Scanner.Advance | src/getopt.c:499-577 | at `--`, at the end and at an argument that is not permuted the scan ends or answers as a plain left-to-right parser says |
| Getopt.Scanner.Next | src/getopt.c:476-930 | each call gives the next answer of a parser that moves nothing; when it gives none, all options stand before all other arguments |
| Getopt.Scanner.DecodeLetter | src/getopt.c:727-925 | the letter, its argument and the place where the scan goes on, with the letters of the first call and those of later ones |
| Getopt.Scanner.DecodeWord | src/getopt.c:742-864 | `-W name` as a long option, with the element too many that an ambiguous name costs |
| Getopt.FindLong | src/getopt.c:602-632 | the loop finds the first exact name, or else the only name that the key begins, and says that there is none if and only if no name begins with it |
| Getopt.LookUpExact | src/getopt.c:602-632 | what is found, said of the table alone: one name, several, or none, each with its if-and-only-if |
| Getopt.LettersRead | src/getopt.c:727-925 | letters, with the colons or semicolon that say what they take, are read as they are spelled, the first of equal ones counting |
| Getopt.OrderingMeans | src/getopt.c:550-577 | what the first plain argument does: with `-` in front of the letters it is an answer, with `+` or POSIXLY_CORRECT the end, and otherwise it is left for later |
| Getopt.ReadOptions | src/main.c:148-180 | over a whole scan the answers are those of the parser, argv becomes options and then the rest, and `optind` stands at the rest |
| Getopt.ParseKeeps | src/getopt.c:422-434 | every element ends among the options or among the rest, each in its original order |
| Getopt.ReadBack | src/getopt.c:405-434 | letters known and unknown, clusters, joined, separate and missing optional arguments, long options by name or abbreviation, with values taken or refused, wrong names, the same after `-W`, and plain arguments are read back as they were written, in front of any tail |
| Getopt.ReadWhole | src/getopt.c:405-434 | a whole command line says what its words say in their order, and leaves the plain arguments and all that stands behind `--` |
| Getopt.SameAgain | src/getopt.c:422-434 | scanning the permuted command line again says the same if and only if no option at its end lacked its argument, or there are no other arguments |
| Getopt.NotTheSame | src/getopt.c:422-434 | a command line that reads differently once it is permuted |
| GetoptSlips.MarkExact | src/getopt.c:483-497 | with an ordering mark in front, a command line reads as if the mark were taken off before every answer if and only if, at no answer after the first, the mark is met as a letter that reads otherwise, or an argument is missing while a colon stands behind the mark |
| GetoptSlips.SlipsExact | src/getopt.c:483-497 | ... from any answer on and for any ordering |
| GetoptSlips.MarkSlipsExact | src/getopt.c:727-925 | what the mark says as a letter, with the colons at the head of the letters, and what it says where it stands among them, if anywhere: for each pair of kinds the answer differs or the whole step is the same |
| GetoptSlips.MarkHarmless | src/getopt.c:483-497 | so the mark does no harm if the letters do not begin with a colon and the mark is in no cluster of the command line |
| GetoptSlips.MarkIsALetter | src/getopt.c:492-497 | letters and a command line on which the mark is taken for an option |
| GetoptSlips.ColonForgotten | src/getopt.c:492-497 | letters and a command line on which the colon behind the mark is forgotten |
| GetoptSlips.CountedExact | src/getopt.c:742-818 | answers and places of the scan are those of a parser that counts an ambiguous name after `-W` once if and only if none is met |
| GetoptSlips.OverstepExact | src/getopt.c:742-818 | the scan leads past the last element if and only if an ambiguous name is met with nothing behind it |
| GetoptSlips.ArgumentSwallowed | src/getopt.c:742-818 | whenever a plain argument stands behind the first ambiguous name and arguments are not answered in order, the options are not those of the other parser |
| GetoptSlips.ScanIsParse | src/getopt.c:727-925 | the parser with places parses as the scanner does |
| GetoptSlips.NoWords | src/getopt.c:742 | without `W;` among the letters no such name is met |
| GetoptSlips.AmbiguousWord | src/getopt.c:742-818 | options and two command lines: the next element is swallowed, and the scan leads past the last one |
| GetoptSlips.PlacesTell | src/getopt.c:742-818 | in front of `--` the parse is the same and only the place differs |

## Findings

Where the code does not do what it is for, the model follows the code; each failure has
an input and an exact condition.

- The test for subsets leaves out the last word of a set (rx/rxbitset.c:60-72). A
  transition on a byte from 224 on can take edges that do not carry it:
  `RxUnfa.LastWordMisjudged`, `RxPosix.WrongMatchReported`. Exactly when a step is right:
  `RxStep.EngineStepExact`; a whole run: `RxStep.EngineRunExact`. Nothing is ever missed:
  `RxStep.EngineRunCovers`.
- The test for emptiness, which nothing in the repository calls, looks at word 0 only
  (rx/rxbitset.c:78-93): `RxBitset.CalledEmpty`, exactly when: `RxBitset.IsEmptyRight`.
- Back-references compare with `strncmp` (rx/rxstr.c:72-96), so a NUL hides what follows
  it: `RxStr.NulHidesDifference`, exactly when: `RxStr.ContextFnExact`.
- For subjects of more than 30 characters the pre-check gives up a start whose only match
  is empty (rx/rxposix.c:318-329): `RxPosix.EmptyMatchLost`, exactly when:
  `RxPosix.NaiveFound`.
- Attempts of fixed length are not bounded by the end of the subject
  (rx/rxposix.c:208-229): `RxPosix.PastTheEnd`, exactly when: `RxPosix.NothingFound`;
  ruled out by the byte behind the subject: `RxPosix.NoOverrun`.
- The bucket macro shifts the mask instead of the masked hash (rx/rxhash.c:115-126), and
  the overflow test is the wrong way round (rx/rxhash.c:190-201): `RxHash.LowBitsOnly`,
  `RxHash.OneChain`, `RxHash.AlwaysSplits`.
- The comparator of G-lines truncates (src/gline.c:52-56): exactly when its sign is right:
  `Gline.SignExact`; two lifetimes that the heap holds in the wrong order:
  `Gline.LaterOnTop`.
- The option scanner strips the ordering mark in its first call only
  (src/getopt.c:492-497): `GetoptSlips.MarkIsALetter`, `GetoptSlips.ColonForgotten`,
  exactly when: `GetoptSlips.MarkExact`; a check for the caller: `GetoptSlips.MarkHarmless`.
- It counts an ambiguous `-W` name twice (src/getopt.c:742-818):
  `GetoptSlips.AmbiguousWord`, exactly when the answers or their places are off:
  `GetoptSlips.CountedExact`, exactly when it leads past argv: `GetoptSlips.OverstepExact`.
- A permuted command line can read differently: `Getopt.NotTheSame`, exactly when:
  `Getopt.SameAgain`.

## Left out

- The pattern parser, translation tables and pattern text: the model starts from trees with non-empty strings and numbered groups.
- `r_cut` nodes and final tags; syntax-only parentheses with their own numbering; the word operators; case-insensitive back-references.
- Allocation failures and byte accounting: memory pressure is a free choice, at any time and for any number of states, in `RxSuper.Cache.MakeRoom`; hit and miss statistics are not kept.
- Reference counts of supersets and hash-consing of state lists: equal lists are the same value.
- One cache shared by several automata, and the staleness test on `rx_id`.
- The circular queues, the rings of `next_same_dest` and the edge lists of a superstate are sequences and ring names held in fields: the splices of their pointers are not modelled. A super edge and its one distinct future are one entity.
- Side-effect edges of the automaton, and closures with effects.
- The cache of automata per tree: each test of the matcher starts from a fresh automaton; `RxUnfa.Unfa.Fits` covers any history of one.
- The node states of `eclose_node` with a negative id: `rx_unfa_rx` numbers all states from 0 (rx/rxunfa.c:114-118), so every state has an id.
- RxPosix.RegExec: only searches that start at 0; the machine that stays locked after a search is handed out.
- RxPosix.RegNComp: starts from a parsed tree and its table of groups.
- RxPosix.RegNExec: leaves out the copying of registers to the caller, and `regexec`.
- Dict.Dictionary.Foreach: leaves out callbacks with effects.
- Getopt.ReadBack: only with permuting, and with a `-W` that begins its element; ambiguous names after `-W` are in `GetoptSlips`.
- Getopt.ReadOptions: excludes command lines on which the code reads beyond argv, which are those of `GetoptSlips.OverstepExact`.
- `rx_advance` and `rx_best_end_guess` with a bound other than the end of the span.
- Trees in which the body of an observed star or plus can be empty: the matcher does not terminate on them, and `RxOutcomes.SafeBodiesExact` says which they are.
- RxPosix.SearchExact: for longer subjects with a final start state see `RxPosix.NaiveFound`.
- Dictionary: the functions that free keys and data, and null keys; data is an opaque number.
- The heap's comparator is given with each call; items are numbers.
- Gline.Glines.Add: does not model lifetimes that the comparator gets wrong (see `Gline.SignExact`), announcements, or the search for alternate targets; the timer queue is a multiset.
- Slab allocator: the queue of free pages, debugging, protection, logging and unmapping; pages come from the caller. The prev and next pointers of the slab list are a sequence with a cursor. Memory holds one word per address.
- The branch of `slab_alloc` for a slab that is filled and is not the child cannot be reached.
- Hash tries: `rx_free_hash_table` and `rx_count_hash_nodes`; the `next_same_hash` links of a bucket are a sequence; changing an item's data after it is stored.
- Option scanner: messages, `optopt`, `flag` pointers, `getopt_long_only`, a caller that moves `optind`, and a second scan in one process.
