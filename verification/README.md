# Threads, index and names of mu 0.9.9

A Dafny model of the parts of the mail indexer mu (`mu4e-pack/lib/mu-0.9.9/lib/`)
whose correctness is not visible from any single function, with proofs of what
they promise together. `dafny verify dfyconfig.toml` checks everything.

## What is modelled

**Message threading.** mu arranges matching messages in threads with a variant
of the JWZ algorithm, in place, on containers with `parent`, `child`, `next`
and a cached `last` pointer. The model has two levels.

- The heap level: `Containers.dfy` (the container and the id table),
  `SiblingLists.dfy` (append, remove, splice), `ThreadBuilder.dfy` (step 1),
  `RootPruner.dfy` (step 2 and the pruning loops that unlink from and append to
  the list they walk), `ContainerSort.dfy` (list, sort, relink),
  `PathWalk.dfy` (the growing counter array and the thread table) and
  `MsgIter.dfy` (the whole computation and the iterator that sorts again by
  thread path). Every method is proved against a function on forests.
- The forest level: `Forests.dfy`, `ForestEdits.dfy`, `ThreadBuild.dfy`,
  `RootSet.dfy`, `Prune.dfy`, `Sort.dfy`, `ThreadKeys.dfy`, `ThreadPaths.dfy`
  and `Threading.dfy` define those functions, and what a user relies on is
  proved of them: `Confluence.dfy` (arrival order), `KeyOrder.dfy` (when path
  strings are in order), `ThreadOrder.dfy`, `RootOrder.dfy` and `ThreadProps.dfy`
  (what paths, levels and property bits mean), `Holders.dfy` and `Duplicates.dfy`
  (which container holds which message), `SortDirection.dfy` (what sorted lists
  look like), `UnsortedThreads.dfy`.

The two levels meet in `Cells.dfy` (how a heap spells a forest, with the state
of the caches) and `HeapSteps.dfy`; `PointerForest.dfy` restates the step 1
invariant on the heap alone.

**Incremental indexing.** `MaildirTree.dfy` is the directory tree and the rules
of the walk, `MuStore.dfy` the store with its transactions, `IndexRun.dfy` one
run and one cleanup as functions of the state, `Indexer.dfy` the callbacks as
methods that change the callback data and the store. `IndexSafety.dfy` proves
what a run keeps and achieves, `IndexEffect.dfy` exactly what a successful run
does to the documents, `Eligible.dfy` which messages it is about, by the names
on their way, `IndexCounts.dfy` and `IndexOutcome.dfy` what it counts and how it
ends, `IndexRerun.dfy` that a second run is quiet, `StoreBatches.dfy` what is
saved of a batch, `CleanupEffect.dfy` what a cleanup does and where it stops,
`IndexHistory.dfy` the stamp invariant over all histories of edits, complete,
stopped and failed runs, cleanups, and crashes inside runs and cleanups;
`IndexExamples.dfy` computes two such histories. Callbacks, the clock and
failures of the database are answers of the environment, for all of which the
statements hold.

**Names and strings.** `MsgFlags.dfy`, `MaildirNames.dfy`, `NameRoundTrips.dfy`
(flags in file names, renaming), `FlagLetters.dfy` (which letter stands for which
flag, in strings and in paths), `TargetMaildir.dfy` (recovering the root of the
maildirs), `EscapedStrings.dfy` (the quoted-argument tokenizer against the
escaper), `TokenLanguage.dfy` (what the tokenizer reads and refuses).
`Arithmetic.dfy` holds lemmas on quotients and remainders.

## Where the code departs from what it is for

The model follows the code; each of these is proved.

- A query limit that cuts the match list spoils threaded order. The iterator
  queries twice; the second query also finds documents that were not threaded,
  whose empty key sorts first. Sorted on a field, order holds if and only if
  nothing is cut (`MsgIter.ThreadedOrderIffNotCut`).
- Without a sort field the shells of spliced roots stay in front and push
  messages past the width that the match count asks for, where plain string
  order fails. `MsgIter.ThreadedOrderIff` gives the exact condition, on the
  numbers of the roots, and `UnsortedThreads.UnsortedOutOfOrder` match lists that
  fail it. A path can then also extend that of a stranger, exactly as
  `RootOrder.PathExtendsIff` says, and does in `UnsortedThreads.PathOfAStranger`.
- In step 1 an existing parent is never replaced, although the comments and the
  algorithm's description allow it for the last reference; this is what makes
  `ThreadBuild.AddMessageReached` true.
- A spliced root stays in the root list as an empty shell with docid 0
  (`Prune.PruneShape`). With two shells in a list, and only then, the comparator
  is no preorder (`Sort.PreorderIffOneShell`); shells end up last all the same.
- The cached end of a sibling list is right only if single trees are appended
  (`Cells.CacheNeedsSingleAppend`); all callers do that.
- Growing the counter array clears a quarter of the new cells. No cell is read
  before it is written, so this does no harm (`PathWalk.PathForeach`).
- Reading flags tests a variable that was never set when a folder other than the
  last is called `new`. The model passes what it happens to hold as `stale`.
  A `2` among the custom flags is taken for the info marker.
  `NameRoundTrips.FlagsReadBack` gives the exact condition for a right answer.
- Filtering custom flags can leave something that reads as an info marker
  (`:2D,` gives `:2,`). Renames collapse if and only if it does not
  (`NameRoundTrips.CollapseNeedsNoMarker`, with the failing names in
  `NameRoundTrips.MarkerAmongCustomFlags`).
- The target maildir of a top-level message is wrong if and only if the root
  still ends in a slash (`TargetMaildir.RootRecovered`).
- Stamps are compared as 32-bit numbers, which is right under the exact condition
  of `IndexSafety.StampComparedRightly`. The invariant over histories asks for
  times before 2^32; `IndexEffect.RunLeavesCurrentIff` does not.
- A moved directory brings files with old change times to stored paths, and runs
  miss them: exactly the outdated files (`IndexEffect.RunMissesTheOutdated`), and
  an edit is harmless if and only if it brings none (`IndexHistory.EditKeepsIff`).
  `IndexExamples.MovedMessageStaysStale` is such a history.
- Without quotes the escaper is not inverted by the tokenizer on strings with
  blanks or leading white space (`EscapedStrings.UnquotedInversion`).

## Model

| member | source | states |
|---|---|---|
| `MsgIter.ThreadedOrderIff` | mu4e-pack/lib/mu-0.9.9/lib/mu-msg-iter.cc:54-77 | for every non-empty match list, sorted on a field or not, the iterator delivers the documents in the preorder of the final forest if and only if `maxnum` does not cut the match list and the numbers of the roots ascend as keys |
| `RootOrder.WalkAscendsIffRootsDo` | mu4e-pack/lib/mu-0.9.9/lib/mu-container.c:478-503 | the messages of the walk ascend as keys if and only if the numbers of the roots that are no shells do, since below a root every segment fits |
| `MsgIter.ThreadedOrderIffNotCut` | mu4e-pack/lib/mu-0.9.9/lib/mu-msg-iter.cc:54-77 | sorted on a field, or unsorted with the shells last, it does if and only if nothing is cut |
| `UnsortedThreads.UnsortedOutOfOrder` | mu4e-pack/lib/mu-0.9.9/lib/mu-msg-iter.cc:54-77 | nine to fifteen messages that each answer a missing one, threaded without a sort field, come out of order under every enumeration of the hash table |
| `UnsortedThreads.PathOfAStranger` | mu4e-pack/lib/mu-0.9.9/lib/mu-container.c:478-503 | eight to fifteen such messages and one without references, threaded without a sort field under an enumeration that meets the latter second: its path is 1, and that of a message not below it is 10 |
| `UnsortedThreads.SomeLonerSecond` | mu4e-pack/lib/mu-0.9.9/lib/mu-threader.c:326-358 | there is such an enumeration |
| `MsgIter.ThreadedOrder` | mu4e-pack/lib/mu-0.9.9/lib/mu-msg-iter.cc:37-77 | for every uncut, non-empty match list, sorting by path string is the preorder walk of the threads if and only if the numbers of the roots ascend as keys |
| `MsgIter.CutListIsNotThreaded` | mu4e-pack/lib/mu-0.9.9/lib/mu-msg-iter.cc:58-71 | for every cut list the second query fetches documents outside the thread table, whose empty key sorts first, so the delivered list is never the walk |
| `MsgIter.Calculate` | mu4e-pack/lib/mu-0.9.9/lib/mu-threader.c:60-101 | steps 1 to 4 on the pointer heap give exactly the thread table of the final forest, for any References and any enumeration order of the hash table |
| `MsgIter.MsgIter.constructor` | mu4e-pack/lib/mu-0.9.9/lib/mu-msg-iter.cc:54-77 | the matches delivered are those of the second query under the thread keys; sorted on a field they are the preorder walk if and only if nothing is cut |
| `MsgIter.MsgIter.Next` | mu4e-pack/lib/mu-0.9.9/lib/mu-msg-iter.cc:186-201 | advances unless done, and says whether a match is left |
| `MsgIter.MsgIter.GetThreadInfo` | mu4e-pack/lib/mu-0.9.9/lib/mu-msg-iter.cc:231-251 | the thread info filed under the docid of the current match |
| `MsgIter.SortByKeySorts` | mu4e-pack/lib/mu-0.9.9/lib/mu-msg-iter.cc:37-50 | the second query permutes the matches into ascending order of their keys |
| `ThreadOrder.TableCoversDocs` | mu4e-pack/lib/mu-0.9.9/lib/mu-container.c:557-579 | every matched docid has a path, and no other docid has one except 0, which stands for empty containers |
| `RootOrder.PathExtendsIff` | mu4e-pack/lib/mu-0.9.9/lib/mu-container.c:478-503 | one message's path extends another's if and only if it is its descendant in the final forest, or the other is a root whose number is, digit for digit, the beginning of the wider number of its own root |
| `ThreadOrder.PathExtendsIffDescendant` | mu4e-pack/lib/mu-0.9.9/lib/mu-container.c:478-503 | with the shells last, as sorting leaves them, only descendants extend a path |
| `ThreadOrder.PathOrderIff` | mu4e-pack/lib/mu-0.9.9/lib/mu-container.c:478-503 | of two messages the one met first in preorder has the smaller path string if and only if their positions ascend as keys, else the larger one |
| `ThreadOrder.PathOrderIsPreorder` | mu4e-pack/lib/mu-0.9.9/lib/mu-container.c:478-503 | with the shells last it always has the smaller one |
| `ThreadOrder.LevelIsForestDepth` | mu4e-pack/lib/mu-0.9.9/lib/mu-container.c:505-527 | the level counted from the colons is the depth in the final forest |
| `ThreadOrder.PreorderListsDocs` | mu4e-pack/lib/mu-0.9.9/lib/mu-container.c:609-629 | the walk lists every document once and nothing else |
| `ThreadOrder.FinalHoldsDocs` | mu4e-pack/lib/mu-0.9.9/lib/mu-threader.c:60-101 | the final forest is pruned, has no container twice and holds exactly the matched documents, one message each |
| `ThreadProps.PropertiesDescribeForest` | mu4e-pack/lib/mu-0.9.9/lib/mu-container.c:557-579 | each property bit holds exactly when the forest says so: root, has children, first child of its parent, child of an empty container, duplicate |
| `Duplicates.DuplicatesFollowTheirMessage` | mu4e-pack/lib/mu-0.9.9/lib/mu-threader.c:151-205 | after all four steps the nearest message above a document whose Message-ID came before is the first document with that Message-ID |
| `Threading.FinalForestFacts` | mu4e-pack/lib/mu-0.9.9/lib/mu-threader.c:60-101 | threading keeps messages and the nearest-message relation of step 1, and the result is pruned and, when sorted, ordered at every depth: of two threads in a list the earlier one has the smaller first message by the sort field, the larger one in reverse order, and shells come last |
| `Threading.FinalDocs` | mu4e-pack/lib/mu-0.9.9/lib/mu-threader.c:60-101 | the final forest stores every matched document and nothing but matched documents |
| `Holders.FinalHolders` | mu4e-pack/lib/mu-0.9.9/lib/mu-threader.c:151-205 | step 1 and the final forest hold the first document with a Message-ID under that id, a document without one under its path, and a later one with a known id under its path, marked as duplicate |
| `ThreadBuilder.CreateContainers` | mu4e-pack/lib/mu-0.9.9/lib/mu-threader.c:293-324 | for any match list the table ends up holding the forest that step 1 is specified to build |
| `ThreadBuilder.AddDocument` | mu4e-pack/lib/mu-0.9.9/lib/mu-threader.c:297-324 | after every document the heap is a pointer forest (child lists and parent fields agree, parent chains are acyclic, parentless containers stand alone, caches are right), and no parent was replaced |
| `PointerForest.RootsArePointerForest` | mu4e-pack/lib/mu-0.9.9/lib/mu-container.c:113-194 | a heap that holds a forest during step 1 satisfies that invariant, stated on the pointers alone |
| `PointerForest.SibsCoherentEverywhere` | mu4e-pack/lib/mu-0.9.9/lib/mu-container.c:113-174 | after step 2 every list, the root list included, is spelled by its `next` pointers and has a coherent cached end |
| `ThreadBuild.AddMessageReached` | mu4e-pack/lib/mu-0.9.9/lib/mu-threader.c:297-324 | any message, with any References, leads from a reached state to a reached state that stores it and keeps every container and every parent |
| `ThreadBuilder.ChildEligible` | mu4e-pack/lib/mu-0.9.9/lib/mu-threader.c:207-222 | the two reachability walks accept a link exactly when the child has no parent and the parent is outside the child's own subtree |
| `ThreadBuilder.Reachable` | mu4e-pack/lib/mu-0.9.9/lib/mu-container.c:386-404 | decides membership in what `child` and `next` reach |
| `ThreadBuilder.ForeachUnequal` | mu4e-pack/lib/mu-0.9.9/lib/mu-container.c:247-264 | the recursive walk reports whether it met the needle |
| `HeapSteps.TopNotReached` | mu4e-pack/lib/mu-0.9.9/lib/mu-threader.c:207-222 | although the walk follows siblings, a parentless container is reached only from itself |
| `HeapSteps.FromTop` | mu4e-pack/lib/mu-0.9.9/lib/mu-threader.c:207-222 | from a parentless container the walk reaches its own tree and nothing else |
| `ThreadBuilder.HandleContainerReferences` | mu4e-pack/lib/mu-0.9.9/lib/mu-threader.c:225-291 | the loop over References builds the specified chain and links the message to its last reference when that is allowed |
| `ThreadBuilder.HandleOneReference` | mu4e-pack/lib/mu-0.9.9/lib/mu-threader.c:225-291 | one round of that loop |
| `ThreadBuilder.FindOrCreate` | mu4e-pack/lib/mu-0.9.9/lib/mu-threader.c:151-205 | null exactly for duplicates, which are filed under their path below the first; otherwise the message fills or makes the container of its Message-ID, or of its path if it has none |
| `ThreadBuilder.FindOrCreateReferred` | mu4e-pack/lib/mu-0.9.9/lib/mu-threader.c:131-149 | the container of a referred id, created empty if there was none |
| `ThreadBuilder.AddDuplicateContainer` | mu4e-pack/lib/mu-0.9.9/lib/mu-threader.c:151-205 | a duplicate is marked, filed under its path and made the last child of the first |
| `ThreadBuilder.LinkChild` | mu4e-pack/lib/mu-0.9.9/lib/mu-container.c:176-194 | linking an eligible child moves its tree to the end of the parent's child list and changes nothing else |
| `ThreadBuilder.TryLinkContainers` | mu4e-pack/lib/mu-0.9.9/lib/mu-threader.c:225-291 | the link of one reference is made exactly when it is not refused |
| `ThreadBuild.LinkEdges` | mu4e-pack/lib/mu-0.9.9/lib/mu-threader.c:225-291 | a link changes the parent of one container and no other |
| `Confluence.BuildFindsTheStory` | mu4e-pack/lib/mu-0.9.9/lib/mu-threader.c:207-324 | with distinct Message-IDs (paths, for messages without) and chains of references and own id that agree on one acyclic parent function, the links after step 1 are exactly the pairs the chains mention |
| `Confluence.ArrivalOrderIsIrrelevant` | mu4e-pack/lib/mu-0.9.9/lib/mu-threader.c:207-324 | then any two arrival orders give the same containers and the same parent relation |
| `Confluence.AgreedLinkIsMade` | mu4e-pack/lib/mu-0.9.9/lib/mu-threader.c:207-222 | the loop check refuses no link that agrees with what is linked already |
| `SiblingLists.AppendSiblings` | mu4e-pack/lib/mu-0.9.9/lib/mu-container.c:113-144 | appending one tree: the list grows at its end, with a coherent cache, and nothing else changes |
| `SiblingLists.FindSibling` | mu4e-pack/lib/mu-0.9.9/lib/mu-container.c:146-174 | the search stops at the sibling and yields the member before it, null if there is none |
| `SiblingLists.RemoveSibling` | mu4e-pack/lib/mu-0.9.9/lib/mu-container.c:146-174 | the member leaves the list, order and cache of the others are right, its subtree is untouched |
| `SiblingLists.AppendChildren` | mu4e-pack/lib/mu-0.9.9/lib/mu-container.c:176-194 | the tree becomes the last child |
| `SiblingLists.RemoveChild` | mu4e-pack/lib/mu-0.9.9/lib/mu-container.c:197-210 | a childless child leaves the child list |
| `SiblingLists.SpliceChildren` | mu4e-pack/lib/mu-0.9.9/lib/mu-container.c:267-282 | the child leaves and its only child goes to the end of the list |
| `SiblingLists.SetParents` | mu4e-pack/lib/mu-0.9.9/lib/mu-container.c:74-81 | every member of the chain gets the parent, and only that field changes |
| `SiblingLists.LastSibling` | mu4e-pack/lib/mu-0.9.9/lib/mu-container.c:113-144 | the walk to the end finds the last member |
| `Cells.CacheNeedsSingleAppend` | mu4e-pack/lib/mu-0.9.9/lib/mu-container.c:113-144 | the cached end is right after an append if and only if a single tree was appended |
| `Cells.LinkAtEndRep` | mu4e-pack/lib/mu-0.9.9/lib/mu-container.c:113-144 | linking a tree at the end with the cache set to it keeps list and cache coherent |
| `Cells.UnlinkRep` | mu4e-pack/lib/mu-0.9.9/lib/mu-container.c:146-174 | unlinking a member keeps them coherent |
| `RootPruner.FindRootSet` | mu4e-pack/lib/mu-0.9.9/lib/mu-threader.c:326-358 | the parentless containers, in any enumeration order, become one coherent sibling list |
| `RootPruner.FilterRootSet` | mu4e-pack/lib/mu-0.9.9/lib/mu-threader.c:327-344 | a container joins the root list exactly when it has no parent |
| `RootSet.RootListKeepsForest` | mu4e-pack/lib/mu-0.9.9/lib/mu-threader.c:326-358 | whatever the enumeration order, the root list is the same forest up to the order of its roots |
| `Prune.PrunePreservesThreads` | mu4e-pack/lib/mu-0.9.9/lib/mu-threader.c:360-429 | pruning keeps every message once and leaves each message's nearest message-carrying ancestor as it was |
| `Prune.PruneShape` | mu4e-pack/lib/mu-0.9.9/lib/mu-threader.c:360-429 | afterwards every non-root empty container has at least two children, and a root is a message, an empty container with at least two children, or a bare shell |
| `Prune.MarkSettles` | mu4e-pack/lib/mu-0.9.9/lib/mu-threader.c:360-401 | when a container is handled, its children carry final marks and what a splice promotes is free of marks |
| `RootPruner.PruneEmptyContainers` | mu4e-pack/lib/mu-0.9.9/lib/mu-threader.c:403-429 | the pruning loops on the heap give exactly the pruned forest, with coherent lists |
| `RootPruner.PruneMaybe` | mu4e-pack/lib/mu-0.9.9/lib/mu-threader.c:361-401 | the walk over the list it removes from and appends to ends, visits what it appended, and leaves the collapsed list |
| `RootPruner.PruneMember` | mu4e-pack/lib/mu-0.9.9/lib/mu-threader.c:361-401 | one round: the rest of the walk still computes what the whole list would give, and a measure falls |
| `RootPruner.ForeachPrune` | mu4e-pack/lib/mu-0.9.9/lib/mu-container.c:247-264 | the callback runs on children before their parent and marks the forest as specified |
| `RootPruner.PruneRoot` | mu4e-pack/lib/mu-0.9.9/lib/mu-threader.c:403-429 | one round over the root list, where a spliced root stays as a shell and its child moves to the end |
| `RootPruner.AfterSplice` | mu4e-pack/lib/mu-0.9.9/lib/mu-threader.c:361-401 | the promoted child is where the walk will find it, or the walk is over |
| `RootPruner.MarkContainer` | mu4e-pack/lib/mu-0.9.9/lib/mu-threader.c:361-401 | the mark a container gets from its own child list |
| `ContainerSort.SortContainers` | mu4e-pack/lib/mu-0.9.9/lib/mu-container.c:369-383 | the recursive sort on the heap gives exactly the sorted forest |
| `ContainerSort.ContainerSortReal` | mu4e-pack/lib/mu-0.9.9/lib/mu-container.c:344-366 | child lists first, then the list itself; nothing outside the list changes |
| `ContainerSort.SortFuncWrapper` | mu4e-pack/lib/mu-0.9.9/lib/mu-container.c:320-342 | the comparator walks down first children to messages and compares those by the sort field, the other way round in reverse order; shells are last |
| `ContainerSort.FromList` | mu4e-pack/lib/mu-0.9.9/lib/mu-container.c:296-317 | the list is relinked in order although the first round links the head to itself |
| `ContainerSort.ToList` | mu4e-pack/lib/mu-0.9.9/lib/mu-container.c:284-294 | the members in reverse order |
| `ContainerSort.RelinkedRep` | mu4e-pack/lib/mu-0.9.9/lib/mu-container.c:296-317 | relinking `next` alone makes the heap hold the permuted list |
| `Sort.SortKeepsForest` | mu4e-pack/lib/mu-0.9.9/lib/mu-container.c:344-383 | sorting keeps containers, parents, messages and the thread relation |
| `Sort.SortForestOrders` | mu4e-pack/lib/mu-0.9.9/lib/mu-container.c:320-383 | every sibling list at every depth is ordered by leftmost message under the comparator; `SortDirection.OrderedThreadsRun` says in which direction |
| `SortDirection.OrderedThreadsRun` | mu4e-pack/lib/mu-0.9.9/lib/mu-container.c:320-383 | in an ordered, pruned forest, of two threads in any sibling list the first message of the earlier is not greater than that of the later on the sort field, or not smaller when the order is reversed; threads without messages are last |
| `SortDirection.TiesComeReversed` | mu4e-pack/lib/mu-0.9.9/lib/mu-container.c:284-383 | threads whose first messages tie come out in the opposite order: the list is built from its end and the sort is stable |
| `Sort.ComparatorIsTotalPreorder` | mu4e-pack/lib/mu-0.9.9/lib/mu-container.c:320-342 | on the non-shell members of a pruned list the comparator is reflexive, total and transitive |
| `Sort.PreorderIffOneShell` | mu4e-pack/lib/mu-0.9.9/lib/mu-container.c:320-342 | on a list of a pruned forest the comparator is a total preorder if and only if the list holds at most one shell |
| `PathWalk.Path.Grow` | mu4e-pack/lib/mu-0.9.9/lib/mu-container.c:464-475 | the array is doubled, old cells keep their values, new cells may hold anything |
| `PathWalk.Path.Inc` | mu4e-pack/lib/mu-0.9.9/lib/mu-container.c:464-475 | one counter advances, the next becomes 0, lower counters stay |
| `PathWalk.Path.ToString` | mu4e-pack/lib/mu-0.9.9/lib/mu-container.c:478-503 | the counters up to the first 0 are printed as the position |
| `PathWalk.CountColons` | mu4e-pack/lib/mu-0.9.9/lib/mu-container.c:505-516 | the number of colons after the first character |
| `PathWalk.PathForeach` | mu4e-pack/lib/mu-0.9.9/lib/mu-container.c:214-244 | at every callback the counters are the declared position; the table is filled in preorder, for any depth |
| `PathWalk.AddToThreadInfoHash` | mu4e-pack/lib/mu-0.9.9/lib/mu-container.c:557-579 | the entry filed under the docid holds path, level and the property bits read from the pointers |
| `PathWalk.ThreadInfoHashNew` | mu4e-pack/lib/mu-0.9.9/lib/mu-container.c:581-629 | the table of the whole forest in the width for `matchnum` |
| `ThreadKeys.DigitsFrom` | mu4e-pack/lib/mu-0.9.9/lib/mu-container.c:581-595 | the least d with 16^d >= matchnum |
| `ThreadKeys.KeysEmbedPositions` | mu4e-pack/lib/mu-0.9.9/lib/mu-container.c:478-503 | when segments fit the width, string order is preorder and string prefix is position prefix |
| `KeyOrder.KeyOrderIff` | mu4e-pack/lib/mu-0.9.9/lib/mu-container.c:478-503 | for segments of any size: the path strings of two positions in preorder are in string order if and only if the leading digits of the first segments that differ are, else in the opposite order |
| `KeyOrder.KeyPrefixIff` | mu4e-pack/lib/mu-0.9.9/lib/mu-container.c:478-503 | for segments of any size: one path string starts with another if and only if the position does or a last segment is the beginning of a wider one |
| `KeyOrder.NarrowKeysMisorder` | mu4e-pack/lib/mu-0.9.9/lib/mu-container.c:478-503 | an input on which too narrow a width misorders |
| `KeyOrder.NarrowKeysLookAbove` | mu4e-pack/lib/mu-0.9.9/lib/mu-container.c:478-503 | an input on which one path string starts with another although the position does not |
| `ThreadKeys.LevelIsDepth` | mu4e-pack/lib/mu-0.9.9/lib/mu-container.c:505-516 | a path string holds one colon less than segments |
| `ThreadPaths.EntriesIncrease` | mu4e-pack/lib/mu-0.9.9/lib/mu-container.c:214-244 | positions come in strictly increasing preorder |
| `ThreadPaths.PrefixIsAncestor` | mu4e-pack/lib/mu-0.9.9/lib/mu-container.c:214-244 | a position extends another exactly when the container is a descendant |
| `ThreadPaths.MessagePositionBounded` | mu4e-pack/lib/mu-0.9.9/lib/mu-container.c:581-595 | in a pruned forest with shells last every segment of a message's position is below the number of messages |
| `IndexHistory.HistoryKeeps` | mu4e-pack/lib/mu-0.9.9/lib/mu-index.c:106-248 | the stamp invariant holds after every history of edits, complete, stopped and failed runs, cleanups, and crashes inside runs and cleanups |
| `IndexHistory.StepKeeps` | mu4e-pack/lib/mu-0.9.9/lib/mu-index.c:106-248 | every single event keeps it, also a crash in the middle of a run, which falls back to the last batch commit |
| `IndexHistory.NothingPending` | mu4e-pack/lib/mu-0.9.9/lib/mu-index.c:312-345 | between events nothing is pending, so a crash matters inside a run or a cleanup only |
| `IndexExamples.CrashLosesMessageAndStamp` | mu4e-pack/lib/mu-0.9.9/lib/mu-store-write.cc:42-66 | a crash before the flush of a first run loses the message together with the stamp of its directory |
| `IndexHistory.LastRunIsComplete` | mu4e-pack/lib/mu-0.9.9/lib/mu-index.c:312-345 | after any history from an empty store, a run that ends with MU_OK leaves every message it visits stored with its current content |
| `IndexHistory.RunThenCleanup` | mu4e-pack/lib/mu-0.9.9/lib/mu-index.c:312-453 | after a run and a cleanup that end with MU_OK every stored path is readable and every eligible message is current |
| `IndexHistory.CleanupRemoves` | mu4e-pack/lib/mu-0.9.9/lib/mu-index.c:409-453 | cleanup removes documents of unreadable files and nothing else, all of them if it ends with MU_OK |
| `CleanupEffect.CleanupExact` | mu4e-pack/lib/mu-0.9.9/lib/mu-index.c:409-453 | the cleanup handles the documents up to one place, removing and counting those without a readable file, and stops there because there is no more, because the last callback said so, or because a removal failed |
| `IndexHistory.EditKeepsIff` | mu4e-pack/lib/mu-0.9.9/lib/mu-index.c:100-123 | an edit keeps the stamp invariant if and only if no file it brings is outdated: stored with other content while older than the stamp of its directory |
| `IndexHistory.MovedFileStaysStale` | mu4e-pack/lib/mu-0.9.9/lib/mu-index.c:100-161 | a path that names another, older file after a run that ended with MU_OK stays stale through a further such run |
| `IndexExamples.MovedMessageStaysStale` | mu4e-pack/lib/mu-0.9.9/lib/mu-index.c:100-161 | a computed history in which this happens |
| `IndexEffect.RunEffect` | mu4e-pack/lib/mu-0.9.9/lib/mu-index.c:312-345 | from any store, a run that ends with MU_OK stores exactly the visited messages that need it and adds, changes or loses no other document |
| `IndexEffect.RunLeavesCurrentIff` | mu4e-pack/lib/mu-0.9.9/lib/mu-index.c:106-161 | such a run leaves a visited message current if and only if it was current before or needed indexing, at any time and for any store |
| `IndexEffect.RunMissesTheOutdated` | mu4e-pack/lib/mu-0.9.9/lib/mu-index.c:106-161 | before 2^32 seconds the messages an incremental run misses are exactly those outdated when it started |
| `IndexEffect.DirEffect` | mu4e-pack/lib/mu-0.9.9/lib/mu-maildir.c:502-540 | the walk of one directory has that effect on its own part of the tree and touches no stamp outside it |
| `Eligible.VisitedIffEligible` | mu4e-pack/lib/mu-0.9.9/lib/mu-maildir.c:298-540 | the walk visits a file exactly when from the root a way leads to it through directories that can be opened, hold no `.noindex`, hold no `.noupdate` unless all is indexed, and have no name that is passed by, the last one called cur or new, and its own name is none of the ignored ones |
| `Eligible.OpenIffNotShielded` | mu4e-pack/lib/mu-0.9.9/lib/mu-maildir.c:502-540 | a directory is gone into exactly when it can be opened, holds no `.noindex` and, in an incremental run, no `.noupdate` |
| `Eligible.OddNames` | mu4e-pack/lib/mu-0.9.9/lib/mu-maildir.c:298-350 | the names of directories and files that are passed by, written out |
| `Eligible.RunStoresTheEligible` | mu4e-pack/lib/mu-0.9.9/lib/mu-index.c:106-161 | a run that ends with MU_OK stores an eligible message that fits and parses with its content and maildir if all is indexed, it is not stored, or its change time is not below the stamp of its directory as 32-bit numbers; else it keeps the stored document |
| `Eligible.RunTouchesNothingElse` | mu4e-pack/lib/mu-0.9.9/lib/mu-index.c:312-345 | such a run leaves the paths of all other files as they were |
| `IndexCounts.RunCounts` | mu4e-pack/lib/mu-0.9.9/lib/mu-index.c:180-210 | such a run counts the visited messages that are not too big as processed, those stored as updated and the others as up to date |
| `IndexOutcome.RunSucceeds` | mu4e-pack/lib/mu-0.9.9/lib/mu-maildir.c:377-540 | if callbacks and database go along, a run ends with MU_OK exactly when every directory it goes into can be listed and every message it visits can be read, else with the error of one that cannot |
| `IndexOutcome.RunHeedsRefusals` | mu4e-pack/lib/mu-0.9.9/lib/mu-index.c:180-248 | once a callback or the database refuses, the run asks nothing more and ends with that answer, or MU_ERROR |
| `IndexSafety.RunIsSafe` | mu4e-pack/lib/mu-0.9.9/lib/mu-index.c:312-345 | every run leaves a store that satisfies the invariant; one that ends with MU_OK stored all it visited and flushed it |
| `IndexSafety.IncrementalEqualsFull` | mu4e-pack/lib/mu-0.9.9/lib/mu-index.c:106-123 | an incremental and a full run that end with MU_OK agree on every message the incremental one visits |
| `IndexRerun.RerunUpdatesNothing` | mu4e-pack/lib/mu-0.9.9/lib/mu-index.c:106-161 | with no edit in between, an incremental run after one that ended with MU_OK updates nothing and keeps all documents |
| `IndexRerun.DirStamps` | mu4e-pack/lib/mu-0.9.9/lib/mu-index.c:213-248 | a walk that goes well stamps the directory of every message it visits, and the one it started in with the time at which it leaves it |
| `IndexSafety.SkippedIsCurrent` | mu4e-pack/lib/mu-0.9.9/lib/mu-index.c:106-123 | a permitted message that is skipped is stored with its current content |
| `IndexSafety.CastComparison` | mu4e-pack/lib/mu-0.9.9/lib/mu-index.c:106-123 | the comparison of the casts is that of the times if and only if both lie in one period of 2^32 seconds or the remainders order as the periods do |
| `IndexSafety.StampComparedRightly` | mu4e-pack/lib/mu-0.9.9/lib/mu-index.c:106-123 | a stored file is indexed exactly when it is no older than the stamp if and only if the casts agree; a later file is skipped if and only if its remainder is smaller |
| `IndexSafety.AddKeeps` | mu4e-pack/lib/mu-0.9.9/lib/mu-store-write.cc:671-704 | adding keeps the invariant in the visible and in the saved database, whether it succeeds, commits a batch or rolls back |
| `StoreBatches.WholeBatchesAreSaved` | mu4e-pack/lib/mu-0.9.9/lib/mu-store-write.cc:671-704 | after any number of additions to a flushed store readers see all of them, saved are those of all whole batches, and a transaction is open exactly while a batch is begun |
| `StoreBatches.FailureRollsBack` | mu4e-pack/lib/mu-0.9.9/lib/mu-store-write.cc:671-704 | a failing addition leaves no transaction open and takes readers back to what was saved when one was |
| `IndexSafety.StampKeeps` | mu4e-pack/lib/mu-0.9.9/lib/mu-index.c:213-248 | stamping a directory whose own messages are all current keeps the invariant |
| `IndexSafety.DirWalk` | mu4e-pack/lib/mu-0.9.9/lib/mu-maildir.c:502-540 | the walk of one directory, with enter and leave callbacks, keeps the invariant and stores what it visits |
| `IndexSafety.EntriesWalk` | mu4e-pack/lib/mu-0.9.9/lib/mu-maildir.c:457-499 | so does the loop over its entries, which stops at the first result other than MU_OK |
| `MaildirTree.ItemsUnique` | mu4e-pack/lib/mu-0.9.9/lib/mu-maildir.c:377-422 | two message files of one tree with the same path are the same |
| `MaildirTree.VisitedAreItems` | mu4e-pack/lib/mu-0.9.9/lib/mu-maildir.c:502-540 | the message files outside shielded directories are message files in leaf directories; that the walk stores those and nothing else is `IndexEffect.RunEffect` |
| `Indexer.IndexRunOnce` | mu4e-pack/lib/mu-0.9.9/lib/mu-index.c:312-345 | walk and flush on the store object are the specified run |
| `Indexer.IndexCleanup` | mu4e-pack/lib/mu-0.9.9/lib/mu-index.c:430-453 | the cleanup loop on the store object is the specified cleanup |
| `Indexer.ForeachDoc` | mu4e-pack/lib/mu-0.9.9/lib/mu-index.c:408-428 | one document of the cleanup |
| `Indexer.CallbackData.InsertOrUpdateMaybe` | mu4e-pack/lib/mu-0.9.9/lib/mu-index.c:126-161 | stores a message exactly when it needs indexing and parses |
| `Indexer.CallbackData.OnRunMaildirMsg` | mu4e-pack/lib/mu-0.9.9/lib/mu-index.c:180-210 | size limit, callback, update and counters |
| `Indexer.CallbackData.OnRunMaildirDir` | mu4e-pack/lib/mu-0.9.9/lib/mu-index.c:213-248 | reads the stamp on entering, writes the clock on leaving |
| `Indexer.CallbackData.ProcessDirEntry` | mu4e-pack/lib/mu-0.9.9/lib/mu-maildir.c:377-422 | one entry of a directory |
| `Indexer.CallbackData.ProcessDirEntries` | mu4e-pack/lib/mu-0.9.9/lib/mu-maildir.c:457-499 | nothing is processed if the directory cannot be read to its end; otherwise the loop over the entries, up to the first result other than MU_OK |
| `Indexer.CallbackData.ProcessDir` | mu4e-pack/lib/mu-0.9.9/lib/mu-maildir.c:502-540 | one directory |
| `MuStore.Store.Add` | mu4e-pack/lib/mu-0.9.9/lib/mu-store-write.cc:671-704 | begin if needed, replace, commit every batch, roll back on failure |
| `MuStore.Store.FlushStore` | mu4e-pack/lib/mu-0.9.9/lib/mu-store-write.cc:189-200 | commit what is pending |
| `MuStore.Store.CommitTransaction` | mu4e-pack/lib/mu-0.9.9/lib/mu-store-write.cc:52-58 | what readers see becomes what is saved |
| `MuStore.Store.RollbackTransaction` | mu4e-pack/lib/mu-0.9.9/lib/mu-store-write.cc:60-66 | readers see what was saved when the transaction began |
| `MuStore.Store.BeginTransaction` | mu4e-pack/lib/mu-0.9.9/lib/mu-store-write.cc:42-49 | what is pending is saved and a transaction is open |
| `MuStore.Store.Remove` | mu4e-pack/lib/mu-0.9.9/lib/mu-store-write.cc:771-787 | the document of the path goes, the counter advances |
| `MuStore.Store.SetStamp` | mu4e-pack/lib/mu-0.9.9/lib/mu-store-write.cc:790-801 | the stamp of the directory is set |
| `MsgFlags.FlagsToStr` | mu4e-pack/lib/mu-0.9.9/lib/mu-flags.c:149-162 | the letters of the flags of the given types, in table order |
| `MsgFlags.FlagsFromStr` | mu4e-pack/lib/mu-0.9.9/lib/mu-flags.c:165-192 | the flags of the letters of the given types, or invalid |
| `MsgFlags.CustomFromStr` | mu4e-pack/lib/mu-0.9.9/lib/mu-flags.c:195-222 | the letters that are not file flags, null if there are none |
| `MsgFlags.FlagsRoundTrip` | mu4e-pack/lib/mu-0.9.9/lib/mu-flags.c:149-192 | writing and reading back gives the flags of the written types |
| `FlagLetters.LettersWritten` | mu4e-pack/lib/mu-0.9.9/lib/mu-flags.c:36-57 | the letters written are exactly those of the flags of the given types, each as in the table, in its order |
| `FlagLetters.FileLettersWritten` | mu4e-pack/lib/mu-0.9.9/lib/mu-flags.c:36-162 | among the letters written for file flags D, F, P, R, S, T stand exactly for DRAFT, FLAGGED, PASSED, REPLIED, SEEN, TRASHED, in this order, and there is no other |
| `FlagLetters.LettersRead` | mu4e-pack/lib/mu-0.9.9/lib/mu-flags.c:165-192 | reading gives exactly the flags of the given types whose letters occur, and is refused exactly when an unknown letter is not ignored |
| `FlagLetters.CustomLetters` | mu4e-pack/lib/mu-0.9.9/lib/mu-flags.c:195-222 | custom flags are the string without the letters D, F, P, R, S, T |
| `FlagLetters.PathLettersRead` | mu4e-pack/lib/mu-0.9.9/lib/mu-maildir.c:636-721 | a name in cur/ with an info part after `:2,` or `!2,` has exactly the file flags whose letters stand in it |
| `FlagLetters.UnmarkedHasNone` | mu4e-pack/lib/mu-0.9.9/lib/mu-maildir.c:636-721 | a path without an info marker has no flags, unless it passes through new/ |
| `FlagLetters.NameCut` | mu4e-pack/lib/mu-0.9.9/lib/mu-maildir.c:747-782 | a name is cut at its info part after either separator, and its custom flags are those of the info part |
| `FlagLetters.RenameLands` | mu4e-pack/lib/mu-0.9.9/lib/mu-maildir.c:725-782 | a renamed message is in the folder asked for, or its own, under new/ with the bare name if it is NEW, else under cur/ with the bare name, `:2,`, its letters and the custom flags |
| `MaildirNames.StripInfo` | mu4e-pack/lib/mu-0.9.9/lib/mu-maildir.c:747-782 | cuts the name at its last info marker and keeps its custom flags |
| `MaildirNames.GetNewPath` | mu4e-pack/lib/mu-0.9.9/lib/mu-maildir.c:745-782 | the renamed path, or none outside cur and new |
| `NameRoundTrips.FlagsReadBack` | mu4e-pack/lib/mu-0.9.9/lib/mu-maildir.c:636-721 | flags read from a generated path are those written (NEW for new/) if and only if no folder on the way is called new while the unset variable holds NEW, and the custom flags hold no 2 or there were no file flags |
| `NameRoundTrips.MaildirIff` | mu4e-pack/lib/mu-0.9.9/lib/mu-maildir.c:725-744 | a path has a maildir exactly when the name of its directory ends with cur or new |
| `NameRoundTrips.HistoryCollapses` | mu4e-pack/lib/mu-0.9.9/lib/mu-maildir.c:745-782 | after any non-empty sequence of renames to cur/ the path depends only on the original name, the last flags and the last folder |
| `NameRoundTrips.CollapseNeedsNoMarker` | mu4e-pack/lib/mu-0.9.9/lib/mu-maildir.c:745-782 | a second identical rename changes nothing if and only if the custom flags spell no info marker |
| `NameRoundTrips.MarkerAmongCustomFlags` | mu4e-pack/lib/mu-0.9.9/lib/mu-maildir.c:745-782 | any name followed by `:2,:2D,` has custom flags that spell a marker, and renaming it twice is not renaming it once |
| `TargetMaildir.GetTargetMdir` | mu4e-pack/lib/mu-0.9.9/lib/mu-msg.c:815-865 | the method that cuts the path is the function of its arguments |
| `TargetMaildir.TargetByParts` | mu4e-pack/lib/mu-0.9.9/lib/mu-msg.c:815-865 | what precedes the maildir in the folder of the message is the root that the target is put under; a folder that does not end with the maildir is a mismatch, unless that is "/", which stands for the folder itself; no maildir, no target |
| `TargetMaildir.NoTarget` | mu4e-pack/lib/mu-0.9.9/lib/mu-msg.c:815-865 | there is no target exactly when the directory of the message has a name that ends with neither cur nor new |
| `TargetMaildir.RootRecovered` | mu4e-pack/lib/mu-0.9.9/lib/mu-msg.c:815-865 | for every message the walk from R reports, the target lands in R ++ T, except for a top-level message under a root that ends in a slash |
| `TargetMaildir.ItemMdir` | mu4e-pack/lib/mu-0.9.9/lib/mu-maildir.c:361-422 | a message is reported with the maildir built from the names on its way |
| `TargetMaildir.LeafByString` | mu4e-pack/lib/mu-0.9.9/lib/mu-maildir.c:249-281 | a path string ends in /cur or /new exactly when its last name is cur or new |
| `EscapedStrings.TokenizerInvertsEscaper` | mu4e-pack/lib/mu-0.9.9/lib/mu-str.c:261-327 | for every non-empty list of strings, quoting, joining with blanks and tokenizing gives the list back |
| `EscapedStrings.EatEscString` | mu4e-pack/lib/mu-0.9.9/lib/mu-str.c:261-296 | the cursor loop is the recursive scan, and ends on every input |
| `EscapedStrings.EscStringsToList` | mu4e-pack/lib/mu-0.9.9/lib/mu-str.c:298-327 | the loop over tokens is the recursive tokenizer, and ends on every input |
| `EscapedStrings.EscapeCLiteral` | mu4e-pack/lib/mu-0.9.9/lib/mu-str.c:530-555 | the loop is the escaper |
| `TokenLanguage.TokenizerReads` | mu4e-pack/lib/mu-0.9.9/lib/mu-str.c:261-327 | the tokenizer returns a list exactly when the string is plain characters, quotes, and backslashes before a blank, a quote or a backslash, that fall into those tokens at the blanks outside quotes |
| `TokenLanguage.TokenizerRefuses` | mu4e-pack/lib/mu-0.9.9/lib/mu-str.c:261-327 | it refuses a string exactly when, after such pieces, a backslash is followed by something else or by nothing |
| `TokenLanguage.EscaperEscapes` | mu4e-pack/lib/mu-0.9.9/lib/mu-str.c:530-555 | the escaper puts a backslash before each quote and backslash, changes nothing else, and quotes both ends if asked |
| `EscapedStrings.EatQuoted` | mu4e-pack/lib/mu-0.9.9/lib/mu-str.c:261-296 | a quoted token is eaten back, with what follows the next blank left over |
| `EscapedStrings.UnquotedInversion` | mu4e-pack/lib/mu-0.9.9/lib/mu-str.c:530-555 | without quotes the escaper is inverted exactly on strings without blanks that do not start with white space |

## Left out

- Xapian, GMime and GLib themselves: the store is a map of documents and one of
  stamps with a saved copy; the hash table is a map whose enumeration order is a
  parameter; GLib's list sort is a stable merge sort; `g_ascii_isspace`,
  `g_path_get_dirname` and `g_path_get_basename` follow GLib's documentation.
- Comparison of messages (`mu_msg_cmp`): an arbitrary function, required to be a
  total preorder where order is claimed.
- The digit count is the integer ceiling that the floating-point logarithm is
  meant to give.
- Clashes in the id table between the path of a duplicate and a Message-ID: the
  two kinds of key are distinct by construction.
- Collisions of the 64-bit hash that identifies a path in the store.
- Counter widths (`int` in the path array, `unsigned` statistics) and the
  15 characters a printed segment may have.
- Memory ownership: reference counts and freeing of containers, messages, tables
  and strings.
- Files that change during a walk.
- IndexHistory.HistoryKeeps: no message directory inside `cur` or `new`, since
  leaving one does not restore the stamp of the directory around it; no edit that
  brings outdated files; change times below 2^32; one size limit throughout.
- Flushes that Xapian makes on its own outside a transaction: a crash leaves what
  the code saved.
- Failures to commit, to flush or to write a stamp; the refusal to run on an
  outdated database or a relative path.
- `mu_store_update_msg`, which follows the same transaction pattern as adding.
- Index paths are lists of names below the root of the walk; the strings they
  become are modelled in `TargetMaildir.dfy` only. Cutting at PATH_MAX is not.
- Relative paths such as `cur/x`, for which cutting off the leaf name runs
  before the start of the string (`LongEnough`).
- The order of a directory listing is that of the model's entries; sorting it by
  inode is not modelled.
- `mu_flags_from_str_delta`, normalization, dates, sizes, contacts, bookmarks,
  summaries, maildir creation and links.
- The command line, the server, guile, crypto, the graphical toys, configuration
  and all Emacs Lisp, PHP and JavaScript files.
