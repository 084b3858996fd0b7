# Verification of rotonda-store

rotonda-store keeps IP prefixes with metadata in two ways: a single-threaded tree bitmap over two
arenas (`src/local_vec`), and a multi-threaded tree whose prefixes and nodes sit in chained hash
stores (`src/local_array`). Both stand for one simple thing, a map from (network bits, length) to
metadata. This project models both in Dafny and proves that they do.

`dafny verify dfyconfig.toml` checks everything. Addresses are numbers below 2^`bits`; the width, the
stride list and the bits-per-level tables are parameters, so one model covers IPv4 and IPv6.

## How the files fit together

| files | contents |
|---|---|
| Bits, Af | words as bit strings, shifts, counts; nibbles, prefixes, truncation |
| Stride, Rank | the bitmaps of strides 3 to 8 (one, two and four words), rank and sorted vectors |
| Nodes, TreeShape, TreeState | one node and its search functions; the trie that the arenas stand for; its invariant |
| Below, LastNode, Collected | what a search gathers below and above its last node, and where it ends |
| Records, Answers, LessAnswers | the abstract map, and what the answers of a search mean in terms of it |
| LocalVec | the class `TreeBitMap`: insert, match, less and more specifics |
| Chain, PrefixStores | the hashing function, the chain invariant, the class `PrefixStore` |
| Walk, PrefixIters, LessSpecifics | the iterators over the store, the counts, the direct query |
| Agreement | both stores answer alike |
| Protocol, ProtocolInv, ProtocolSteps, ProtocolRuns | concurrent inserts as steps, the invariant, every step keeps it, whole runs |
| ProtocolLinks, ProtocolTries, ProtocolAlone | no pointer bit dangles; when a call gives up; progress of a call on its own |
| ProtocolTree, ProtocolShape | the nodes and bits are the ones that the inserts ask for, whatever the order of the steps |
| ProtocolHome, ProtocolRaces | when no update is lost, and schedules that lose one otherwise |
| ProtocolReads | lookups among the inserts |
| NodeIds, NodeIters | where a prefix lives; the iterator over the more specifics of one node |

The tree bitmap is proved in two layers. `Nodes.Sees` ties a node's bitmaps and vectors to two finite maps
(children and prefixes by nibble); `TreeShape.Inv` says which bit strings the nodes and prefixes stand for.
Every method is proved against these; the class then speaks about the map only. The structure follows
the tree bitmap linked at `src/lib.rs:7-8`, the longest-match rule is that of section 5.1 of RFC 4632.

In the chained stores a slot is named by its length and the indices that lead to it from the root bucket;
such a name stands for the pointer. In `Protocol` any number of insert calls run, and a schedule is any sequence
of calls, so a statement about all schedules is one about every interleaving. A step of a call is one access to
shared memory that another call can change: a look at a slot, a load of a bitmap, a compare-and-swap. A bucket
is set once, together with its slot, so a step that looks at a slot looks at the bucket it lies in, too; of the
two bitmaps that are loaded before a bit is tested, a step loads the one that it goes on to use. `log` lists the
calls that changed the prefix store, in order, with the prefix whose record each of them changed. In
`ProtocolReads` a lookup takes its steps among those of the calls.

## What is assumed

- The bits-per-level tables (kept in rotonda-macros, not part of this model) increase strictly, end at the
  length, have at most 26 levels of at most 32 bits, and have no level for length 0.
- Inserted and searched prefixes have no bits set beyond their length; merging metadata never fails.
- The two arenas stay below 2^32 entries: indices are kept in 32 bits, and the source casts without a check.
- Stride lists hold widths 3 to 8 only (3 to 5 in the multi-threaded tree), as the source's own matches do.
- Atomics are sequentially consistent, and a record that is swapped in is never mistaken for an old one.

## Where code and comments differ

The model follows the code.

- `src/af.rs:99-100` says that appending a nibble panics from `len + nibble_len >= 32` on; the code appends up to
  and including the full width (`Af.AddNibbleBits`).
- The plan at `src/local_array/store/custom_alloc.rs:381-396` repeats the whole upsert when storing fails; the code
  does so for an existing record only. If the slot of a new record was taken in between, it gives up with
  `PrefixAlreadyExist`, even if the slot now holds another prefix and its own is not stored
  (`ProtocolHome.CreateStores`, `ProtocolRaces.GivesUp`).
- The lookup hands an empty slot to the upsert to fill (`src/local_array/store/custom_alloc.rs:552-555`); the upsert
  loads it again and takes a record that has appeared in between for its own, whatever its prefix: it merges its
  metadata into it, renames the record, and returns Ok (`ProtocolRaces.Misdirects`).
- Both happen in some schedule if and only if two calls insert different prefixes of one length that the first
  storage level maps to one slot (`ProtocolRaces.SafeIffNoClash`); `ProtocolRaces.ClashExample` is an example. In a
  run in which no two such calls are under way at the same time, no update is lost (`ProtocolHome.NoUpdateLost`).
  A lookup goes by the name in the record, so where a record has been renamed it misses the prefix that was there,
  and again only then (`ProtocolReads.FoundIffNoClash`).
- An empty-match or longest-match query with more specifics is meant to return them all. The longest-match query
  returns none when its search ends in a node without a match. In terms of the stored prefixes: it returns all if and
  only if there are none, or some stored cover is longer than every stride boundary that a stored prefix on the way
  reaches (`LocalVec.AllMoreIff`, `LastNode.EndsOnCoverIff`); `LocalVec.MissedExample` is a search that misses one. The
  second condition also decides whether an empty-match query reports a prefix at all.
- A longest-match or empty-match query with less specifics is meant to collect the prefixes found along the way
  (`src/local_vec/node.rs:234-235`). For a prefix that is shorter than the nibble it asks whether there is a child to
  go on to with the bits so far read as a whole nibble (`src/local_vec/node.rs:238-240`), which is another child. So it
  lists all less specifics if and only if that child is there for each of them (`LessAnswers.LongestLessIff`);
  `LessAnswers.UnlistedExample` is a search that misses one.
- An exact-match query with less specifics drops what it has collected at every node that has no prefix as long as
  the nibble (`src/local_vec/node.rs:371-375`), not only when there is no exact match; exactly when it lists them all is
  `LessAnswers.ExactLessIff`. And where the search ends before the prefix does, it reports the prefix that ends there
  (`src/local_vec/node.rs:379-387`); exactly when its answer is the exact match is `LessAnswers.ExactReportIff`, and
  `LessAnswers.MisreportExample` is a search that is answered with a shorter prefix.

## Model

| member | source | states |
|---|---|---|
| Af.NibbleIsSlice | src/af.rs:64-66 | the shift pair of a nibble reads exactly the addressed bits, for every width, start and length; at length 0, where the shift wraps around, it yields all bits from the start on |
| Af.EmptyNibbleIff | src/af.rs:64-66 | so a nibble of length 0 is zero if and only if no bit is set from its start on |
| Af.TruncateIsKeyPrefix | src/af.rs:72-79 | truncation keeps the leading bits and clears the rest, and the result has no bits beyond its length |
| Af.AddNibbleBits | src/af.rs:112-116 | appending a nibble to a prefix appends its bits, up to and including the full width |
| Af.NibblesRebuildPrefix | src/af.rs:157-208 | for any stride list, cutting an address into nibbles and appending them again rebuilds the truncated prefix |
| Af.CoversIsPrefixOrder | src/af.rs:199-208 | covering, computed by truncation, is the prefix order on network bits |
| Stride.PosInjective | src/macros.rs:14-16 | no two nibbles share a place in the layout |
| Stride.BitPosIsOneHot | src/stride.rs:162-169 | the bit of a nibble is the only one set, at its place, in one, two or four words |
| Stride.PfxIndexIsRank | src/stride.rs:171-205 | for a set bit, the index is the number of set bits strictly before it, across word boundaries |
| Stride.PtrIndexIsRank | src/stride.rs:207-225 | the same for pointer bits |
| Stride.IntoStrideIsWidened | src/stride.rs:227-236 | widening puts the pointer bits onto the full-length prefix positions and onto no shorter one |
| Stride.IntoPtrIsMiddle | src/stride.rs:238-246 | narrowing cuts the pointer half out again |
| Stride.PtrRoundTrip | src/stride.rs:133-144 | narrowing after widening is the identity |
| Stride.SetPtrBit | src/local_vec/node.rs:102-106 | setting a pointer bit through the widened form sets that bit and changes no other |
| Stride.TestPtrBit | src/local_vec/node.rs:102-102 | the masked test on the widened bitmap reads the pointer bit of a full nibble, and nothing for a shorter one |
| Stride.GreaterThanZero | src/synth_int.rs:70-77 | the hand-written order on multi-word integers is right in a comparison with zero |
| Rank.PushAndSort | src/local_vec/macros.rs:35-36 | pushing the entry of a newly set bit and sorting puts it at the rank of the bit |
| Rank.SetKeepsDense | src/local_vec/macros.rs:66-69 | bitmap and vector stay in step, and every other entry is still found under its bit |
| Nodes.EvalNodeOrPrefixAt | src/local_vec/node.rs:81-200 | finds the child or prefix of the nibble, or sets its bit so that pushing the entry completes the node |
| Nodes.SearchStrideForLongestMatchAt | src/local_vec/node.rs:209-267 | the longest prefix this node offers for the address, the child to go on to, if there is one, and exactly the covers that are appended to the less specifics |
| Nodes.SearchStrideForExactMatchAt | src/local_vec/node.rs:274-320 | the prefix at exactly this nibble at the last stride, else the child |
| Nodes.SearchStrideForExactMatchWithLessSpecificsAt | src/local_vec/node.rs:326-394 | the child, or without one the prefix at the full nibble; all covers of the node are appended, or all that was collected is dropped |
| Nodes.AddMoreSpecificsAt | src/local_vec/node.rs:399-484 | exactly the children and prefixes of the node that extend the nibble, each once |
| Nodes.AllPrefixesListed | src/local_vec/tree.rs:366-366 | the prefix vector of a node lists each of its prefixes once |
| TreeShape.WithNodeInv | src/local_vec/macros.rs:31-45 | handing a node its new child keeps the trie in order |
| TreeShape.WithPrefixInv | src/local_vec/macros.rs:54-79 | storing a prefix at its hosting node keeps the trie in order |
| TreeShape.PathsDistinct | src/local_vec/macros.rs:23-97 | no two nodes stand for the same bits |
| TreeShape.StoredAtHost | src/local_vec/node.rs:142-157 | a prefix is stored if and only if its one hosting node has it at its last nibble |
| TreeState.StoreWithNode | src/local_vec/macros.rs:34-44 | adding a node keeps the whole-arena invariant |
| TreeState.StoreWithPrefix | src/local_vec/macros.rs:63-78 | adding a prefix keeps the whole-arena invariant and adds exactly that prefix to the map |
| TreeState.ArenaInvariant | src/local_vec/storage_backend.rs:122-221 | vectors sorted and as long as their bitmaps' counts, widths by depth, one node more than child references, one record per distinct prefix |
| TreeState.OneParent | src/local_vec/macros.rs:23-97 | every node but the root has exactly one parent and nibble, and that parent has a smaller index |
| TreeState.BestStep | src/local_vec/query.rs:187-226 | what one more stride adds to the best cover found |
| LocalVec.CycleStrides | src/local_vec/tree.rs:111-122 | a stride list is accepted if and only if some number of its repeated elements adds up to the address width |
| LocalVec.NewTree | src/local_vec/tree.rs:111-209 | a tree for every accepted list, empty, with one node, and with the strides of the list in order, repeated until they are as wide as an address; none otherwise |
| LocalVec.TreeBitMap.constructor | src/local_vec/tree.rs:135-209 | a fresh tree is valid, has a root node only, and stands for the empty map |
| LocalVec.TreeBitMap.AddChild | src/local_vec/macros.rs:31-45 | the taken node goes back with its entry, the new node is the last one, and the arenas agree again |
| LocalVec.TreeBitMap.AddPrefix | src/local_vec/macros.rs:54-79 | the same for a new prefix; the map gains it |
| LocalVec.MergedMeta | src/local_vec/tree.rs:333-346 | the entry found at the last nibble is the record of the prefix itself; merging into it keeps the arenas in order and changes the map as an upsert does |
| LocalVec.TreeBitMap.InsertStep | src/local_vec/macros.rs:23-97 | one level: the arenas agree again, and either the walk stands at the next node or the map has changed as asked |
| LocalVec.TreeBitMap.Insert | src/local_vec/tree.rs:242-291 | the map gets the prefix, or its metadata merged in, and nothing else changes; no node is left without a prefix below it; the arenas do not grow if the prefix is known |
| LocalVec.InsertAll | src/local_vec/store.rs:54-75 | a fresh tree after any run of inserts holds exactly what the run amounts to, as long as the distinct prefixes fit the arenas |
| Records.RunFolds | src/local_vec/tree.rs:333-346 | that is: a prefix is found if and only if it was inserted, with the first metadata and the later ones merged in, in order |
| LocalVec.TreeBitMap.SearchNode | src/local_vec/query.rs:159-194 | the search function chosen by the match type and the wish for less specifics reports the node's own answer, and collects what it should |
| LocalVec.TreeBitMap.SearchStrides | src/local_vec/query.rs:141-726 | the walk over the strides ends with the right index, with the less specifics of all nodes on the way, and with all, or exactly when it should none, of the more specifics |
| LocalVec.TreeBitMap.MatchPrefix | src/local_vec/query.rs:90-759 | exact match: the prefix if it is stored, or with less specifics the prefix stored where the search ends; longest match: the longest stored cover; the match type says which; less and more specifics exact in terms of the map |
| LocalVec.AllMoreIff | src/local_vec/query.rs:229-268 | the more specifics are all listed if and only if there are none or the stated condition holds |
| LocalVec.MissedExample | src/local_vec/query.rs:246-268 | two stored prefixes and a longest-match search that misses a more specific one |
| LessAnswers.LessAnswered | src/local_vec/query.rs:740-748 | the indices collected on the way lead to exactly the listed covers, in increasing length |
| LessAnswers.LongestLessIff | src/local_vec/node.rs:234-245 | a longest- or empty-match search lists all less specifics if and only if the child looked at for each of them is there |
| LessAnswers.ExactLessIff | src/local_vec/node.rs:352-375 | an exact-match search lists the prefix and all less specifics if and only if it is stored and so are, from each of them on, its prefixes at the stride boundaries |
| LessAnswers.ExactReportIff | src/local_vec/node.rs:379-393 | an exact-match search that collects answers with the exact match if and only if no other prefix is stored where it ends |
| LessAnswers.UnlistedExample | src/local_vec/node.rs:234-245 | two stored prefixes and a search that does not list a less specific one |
| LessAnswers.MisreportExample | src/local_vec/node.rs:379-393 | one stored prefix and an exact-match search that reports it for a longer one |
| LocalVec.TreeBitMap.GetAllMoreSpecificsForNode | src/local_vec/tree.rs:359-426 | exactly the prefixes at and below a node, each once; the recursion ends because children have larger indices |
| LocalVec.TreeBitMap.GetAllMoreSpecificsFromNibble | src/local_vec/tree.rs:430-458 | where a search stops, exactly the stored prefixes strictly more specific than the one searched for, each once |
| Below.GatheredMoreSpecifics | src/local_vec/tree.rs:430-458 | the entries beyond the nibble and all below the children beyond it are all there is |
| LastNode.EndsOnCoverIff | src/local_vec/query.rs:227-268 | whether the last node visited has a match, in terms of the stored prefixes alone |
| LastNode.LiveWithPrefix | src/local_vec/macros.rs:54-79 | once the prefix is stored, no node but the root is without a prefix below it |
| Records.LongestMatchUnique | src/local_vec/query.rs:90-759 | there is at most one longest match |
| Chain.HashIsSlice | src/local_array/store/custom_alloc.rs:823-843 | the index at a level is the slice of the address that the level handles, and within its bucket |
| Chain.PathInjective | src/local_array/store/custom_alloc.rs:801-843 | two ids of equal length with equal indices at every level are equal, for prefixes and for nodes |
| Chain.LastSlotIsOwn | src/local_array/store/custom_alloc.rs:527-533 | the last slot of an id never holds another id, so a missing bucket is never met |
| Chain.TakeSlot | src/local_array/store/custom_alloc.rs:418-446 | taking the first free slot of a chain keeps the chain invariant |
| Chain.StoredAtLevel | src/local_array/store/custom_alloc.rs:535-549 | all slots before a stored id's own hold other ids |
| Chain.FreeMeansAbsent | src/local_array/store/custom_alloc.rs:552-555 | a free slot behind slots of other ids means that the id is not stored |
| PrefixStores.FirstStored | src/local_array/store/atomic_types.rs:73-124 | a new record carries a bucket of the size its level calls for, and none at the last level |
| PrefixStores.PrefixStore.RetrieveMut | src/local_array/store/custom_alloc.rs:506-557 | ends at the slot of the id or at the first free one, within every bucket on the way |
| PrefixStores.PrefixStore.Upsert | src/local_array/store/custom_alloc.rs:398-503 | the map gets the prefix or its merged metadata; no record of another prefix changes |
| PrefixStores.PrefixStore.Retrieve | src/local_array/store/custom_alloc.rs:560-618 | finds a record if and only if the prefix is stored, with its metadata; the place returned is its slot or the first free one, and the stack of parents holds that place only |
| PrefixStores.UpsertAll | src/local_array/store/custom_alloc.rs:398-503 | a fresh store after any run of upserts holds what the run amounts to |
| Walk.LaterMeets | src/local_array/store/iterators.rs:60-236 | the depth-first walk meets exactly the taken slots |
| Walk.LaterOnce | src/local_array/store/iterators.rs:60-236 | and each of them once |
| PrefixIters.PrefixIter.constructor | src/local_array/store/iterators.rs:763-778 | a fresh iterator has the whole walk to come |
| PrefixIters.PrefixIter.Next | src/local_array/store/iterators.rs:65-236 | yields the head of what is left and leaves the tail, or None at the end; its two panics are never met |
| PrefixIters.AllPrefixes | src/local_array/store/iterators.rs:763-778 | run to its end, every stored prefix comes once with its metadata |
| PrefixIters.GetLenRecursive | src/local_array/store/atomic_types.rs:362-389 | counts the walk of a bucket |
| PrefixIters.GetPrefixesLen | src/local_array/store/custom_alloc.rs:694-702 | the counts of all lengths add up to the number of stored prefixes, which is what the iterator yields |
| LessSpecifics.LessSpecificPrefixIter.constructor | src/local_array/store/iterators.rs:728-760 | a fresh iterator starts one below the length of the prefix |
| LessSpecifics.LessSpecificPrefixIter.Next | src/local_array/store/iterators.rs:465-607 | yields the longest stored cover not above the current length, and steps below it; None if there is none |
| LessSpecifics.LessSpecificsFrom | src/local_array/query.rs:62-95 | exactly the stored covers of length 1 or more below the prefix's own, in strictly decreasing length |
| LessSpecifics.MatchPrefixByStoreDirect | src/local_array/query.rs:109-180 | the exact match if stored, otherwise the longest cover, unless only an exact match was asked for; the less specifics are the stored covers shorter than the answer, longest first |
| Agreement.SameAnswers | src/local_array/query.rs:109-155 | fed with the same inserts, both stores return the same prefix, metadata and match type for every exact and longest match of length 1 or more; for an empty match if and only if no stored prefix covers the one searched for, or one does past all levels |
| NodeIds.GetNodeIdForPrefix | src/local_array/store/custom_alloc.rs:724-749 | the node id and span of a prefix; appending the span to the id gives the prefix back |
| NodeIds.HostIsNamed | src/local_array/tree.rs:483-495 | that node and span are where the insertion loop sets the prefix bit |
| NodeIters.NodeMoreSpecificsPrefixIter.Next | src/local_array/node.rs:956-1057 | yields the head of what is left and leaves the tail, then None |
| NodeIters.SpansBelow | src/local_array/node.rs:938-1060 | what a fresh iterator has to come: exactly the set spans below the start span, itself only if not skipped, in order of length and bits |
| NodeIters.SpanPrefixKey | src/local_array/tree.rs:185-189 | a yielded prefix is the node's bits followed by those of the span |
| ProtocolSteps.RetrieveKeeps | src/local_array/store/macros.rs:155-186 | a step of the node lookup keeps the invariant; there always is a bucket to look into, and what is found is the node of the level |
| ProtocolSteps.EvalKeeps | src/local_array/node.rs:175-213 | so does the test of the bitmap, whichever way it goes |
| ProtocolSteps.CasPtrKeeps | src/local_array/node.rs:226-252 | so does the compare-and-swap on the pointer bitmap; on success the child is linked |
| ProtocolSteps.CasPfxKeeps | src/local_array/node.rs:268-294 | so does the one on the prefix bitmap; on success the prefix is hosted, and its bit is the only one of the node that changes; otherwise none does |
| ProtocolSteps.StoreKeeps | src/local_array/store/macros.rs:214-334 | so does a level of storing a node; the missing bucket and the missing level are not met |
| ProtocolSteps.StoreCasKeeps | src/local_array/store/macros.rs:239-281 | so does publishing a node, whose parent already points to it; what is published is the node asked for, without any bit |
| ProtocolSteps.LookupKeeps | src/local_array/store/custom_alloc.rs:506-557 | so does a level of the prefix lookup; the missing bucket is not met |
| ProtocolSteps.ReloadKeeps | src/local_array/store/custom_alloc.rs:405-413 | so does the second load of the slot, whatever it finds there |
| ProtocolSteps.CreateKeeps | src/local_array/store/custom_alloc.rs:419-446 | so does creating a record |
| ProtocolSteps.MergeKeeps | src/local_array/store/custom_alloc.rs:459-500 | so does swapping in merged metadata, into whichever record the slot holds |
| ProtocolRuns.InitialIsOk | src/local_array/store/custom_alloc.rs:147-169 | a fresh store, with any number of inserts about to start, satisfies the invariant |
| ProtocolRuns.StepKeeps | src/local_array/macros.rs:39-133 | every step of every insert call keeps the invariant, and memory only grows |
| ProtocolRuns.RunKeeps | src/local_array/node.rs:151-306 | every schedule can be run to its end and keeps the invariant; over the run no bit is lost, no slot changes its owner, and a record changes only with its version |
| ProtocolRuns.NeverStuck | src/local_array/store/macros.rs:311-337 | in no interleaving does a call run out of storage levels or miss a bucket, when it stores or looks up a node or looks up its prefix |
| ProtocolRuns.OneSlotPerNode | src/local_array/store/macros.rs:298-309 | no node id occupies two slots |
| ProtocolRuns.SearchFinds | src/local_array/store/macros.rs:11-52 | the node lookup finds an id if and only if it is stored |
| ProtocolRuns.StaysRetrievable | src/local_array/store/macros.rs:11-52 | an id that is stored is found, in the same slot, in every later state of every run |
| ProtocolRuns.BitsPrecede | src/local_array/macros.rs:39-133 | in every reachable state, every stored node's parent is stored with its bit set, and every stored prefix has its bit set in its stored hosting node |
| ProtocolRuns.BitIsSetAfterEval | src/local_array/node.rs:151-306 | when the evaluation of a node is over, the bit that the insert asked for is set in it |
| ProtocolRuns.OkChangesOnce | src/local_array/store/custom_alloc.rs:398-503 | in every reachable state the log lists exactly the inserts that returned Ok, each once, and the store holds what they amount to in that order, each applied to the record it is logged with |
| ProtocolLinks.ChildDetermined | src/local_array/node.rs:226-252 | a node id is determined by its parent's and its nibble there |
| ProtocolLinks.LinksStep | src/local_array/macros.rs:39-133 | no step of any call leaves a pointer bit that leads to a node neither stored nor being stored |
| ProtocolLinks.BitsLead | src/local_array/macros.rs:39-133 | in every reachable state every pointer bit leads to a stored node, or some call is storing that node |
| ProtocolLinks.DoneLeavesNoDangling | src/local_array/macros.rs:39-133 | when all calls are done, a node is stored if and only if its parent is stored with the bit for it set |
| ProtocolLinks.StoredWhenOk | src/local_array/store/macros.rs:214-334 | a call that is through with storing its node leaves it stored, and every later lookup finds it |
| ProtocolTries.LookGoes | src/local_array/macros.rs:111-130 | a look for a node that is in vain starts over, or ends the call if seven were in vain before; any other finds the node or goes on to the next storage level |
| ProtocolTries.GivesUpIff | src/local_array/macros.rs:111-130 | in every interleaving a call returns NodeCreationMaxRetryError if and only if eight steps of the schedule are looks of that call for one node, at an empty slot, while the node is not stored; it never looks in vain more often |
| ProtocolAlone.LookupFails | src/local_array/store/macros.rs:155-186 | a step of the node lookup finds the node, goes on to the next storage level, or another call is storing the node |
| ProtocolAlone.GivesUpDuringStore | src/local_array/macros.rs:111-130 | in no interleaving does a call return NodeCreationMaxRetryError unless another call is in the middle of storing the node it looks for, and it looks for that node in vain for the eighth time |
| ProtocolAlone.StepCloser | src/local_array/macros.rs:39-133 | every step takes a call in the tree strictly closer to its upsert, or makes it give up looking for a node |
| ProtocolAlone.ReachesLookup | src/local_array/macros.rs:39-133 | so, on its own, it gets there and leaves the prefix store alone; it gives up only if another call is in the middle of storing a node |
| ProtocolAlone.AloneEnds | src/local_array/tree.rs:468-543 | in every reachable state every call, run on its own from there on, ends; with Ok, unless another call took the slot that it was about to fill, or is in the middle of storing a node |
| ProtocolHome.SharedRoot | src/local_array/store/custom_alloc.rs:506-557 | prefixes that meet in a slot at any storage level share their slot of the root bucket |
| ProtocolHome.HomeStep | src/local_array/store/custom_alloc.rs:398-503 | while no two calls under way clash, no step makes a call take another prefix's record for its own, or give up although its prefix is not stored |
| ProtocolHome.NoUpdateLost | src/local_array/store/custom_alloc.rs:398-503 | after every schedule in which clashing calls never overlap, the store holds what the inserts that returned Ok amount to, each taken exactly once, in the order of their successful swaps |
| ProtocolHome.MetadataIsFold | src/local_array/store/custom_alloc.rs:449-500 | so the metadata of a prefix is the fold of the metadata of its Ok inserts, in that order |
| ProtocolHome.CreateStores | src/local_array/store/custom_alloc.rs:427-446 | after the swap that creates a record, the prefix is stored if and only if the slot was empty or the prefix was stored already |
| ProtocolRaces.SafeIffNoClash | src/local_array/store/custom_alloc.rs:405-446 | from a fresh store, no schedule loses an update, none misdirects a change, and none reports PrefixAlreadyExist for a prefix that is not stored, each if and only if no two calls insert different prefixes with one root slot |
| ProtocolRaces.Misdirects | src/local_array/store/custom_alloc.rs:405-500 | for any two calls that clash, a schedule from a fresh store after which both have returned Ok, and the one record carries the second's name in the first's slot |
| ProtocolRaces.GivesUp | src/local_array/store/custom_alloc.rs:427-446 | and a schedule after which one has returned PrefixAlreadyExist although its prefix is not stored |
| ProtocolRaces.CanGiveUpIff | src/local_array/store/custom_alloc.rs:427-446 | from a fresh store some schedule makes some call return PrefixAlreadyExist at all if and only if two calls insert prefixes of one length with one root slot, equal prefixes among them |
| ProtocolRaces.LosesSlot | src/local_array/store/custom_alloc.rs:427-446 | for any two such calls, a schedule after which the one has returned PrefixAlreadyExist and the other's prefix is in the slot |
| ProtocolRaces.ClashExample | src/local_array/store/custom_alloc.rs:405-446 | a fresh store and two calls that clash, 00/2 and 01/2 over three address bits |
| ProtocolReads.ReadTells | src/local_array/store/custom_alloc.rs:579-616 | a step of a lookup ends without a result only if the prefix is not stored at that moment, and reports the metadata stored at that moment |
| ProtocolReads.OkIsStored | src/local_array/store/custom_alloc.rs:398-503 | while clashing calls do not overlap, the prefix of an insert that returned Ok is stored |
| ProtocolReads.InsertedIsFound | src/local_array/store/custom_alloc.rs:560-618 | a lookup begun after an insert of its prefix returned Ok finds it, whatever other calls do in between, in at most two steps a storage level and one more, as long as clashing calls do not overlap |
| ProtocolReads.LookupTellsTrue | src/local_array/store/custom_alloc.rs:560-618 | in such runs what any lookup ends with, found with its metadata or missed, was true at some moment while it ran |
| ProtocolReads.FoundIffNoClash | src/local_array/store/custom_alloc.rs:560-618 | from a fresh store, no lookup in any interleaving misses a prefix whose insert returned Ok before it began, if and only if no two calls insert different prefixes with one root slot |
| ProtocolTree.TreeStep | src/local_array/node.rs:151-306 | no step of any call puts a node, a pointer bit or a prefix bit into the tree that no insert asked for |
| ProtocolShape.BitsAreInserts | src/local_array/node.rs:268-294 | in every reachable state a prefix bit of a node is set if and only if a call that is past the tree inserts the prefix it stands for, the node's id with the nibble appended; no other bit of the bitmap is ever set |
| ProtocolShape.DoneBitsAreStored | src/local_array/tree.rs:468-543 | when all calls are done and clashing calls never overlapped, a prefix bit of a node is set if and only if the prefix it stands for is stored |
| ProtocolShape.SpansAreStored | src/local_array/store/iterators.rs:329-341 | so after such a run the prefix iterator of any node yields exactly the spans below its start whose prefixes are in the store, so that the lookup of each finds a record |
| ProtocolShape.NodesAreNeeded | src/local_array/macros.rs:39-133 | in every reachable state a stored node, or one that is pointed to, is one that the prefix of some insert goes beyond; when all calls are past the tree, all of these are stored |
| ProtocolShape.PointersAreNeeded | src/local_array/node.rs:226-252 | in every reachable state a pointer bit is set only if some insert's prefix goes on to the node it stands for; when all calls are past the tree, all of these are set |
| ProtocolShape.OrderDoesNotMatter | src/local_array/macros.rs:39-133 | any two schedules of the same inserts after which none is in the tree or has given up there leave the same nodes with the same pointer and prefix bits |

## Left out

- Buckets, slots and arenas are values in fields that methods reassign, and a slot is named by its path: pointers, aliasing and reclamation (crossbeam epochs) are not modelled.
- Memory orderings and back-off: atomics are sequentially consistent, and a version number stands for the identity of a record.
- Protocol.Step: does not model a call that goes on after a failed `store_node` (src/local_array/tree.rs:526-533); it would have to return NodeNotFound, which is proved unreachable.
- Length-0 prefixes in the multi-threaded store: insert keeps the default route elsewhere (src/local_array/tree.rs:474-477), and the table row of length 0 is not part of this model.
- LessSpecifics.MatchPrefixByStoreDirect: leaves out the more specifics (src/local_array/query.rs:181-205), which come from an iterator over the tree that skips children for a non-empty start span (src/local_array/node.rs:778-782).
- Searching the multi-threaded tree by traversal (src/local_array/query.rs:230-766), which fixes the result prefix to None, and `retrieve_prefix_with_guard` (src/local_array/store/custom_alloc.rs:621-684), which drops the result of its recursion.
- NodeMoreSpecificChildIter, NodePrefixIter and the iterator built on them: the first does not shift a non-empty start span (src/local_array/node.rs:778-782), the second visits full-length nibbles only.
- NodeChildIter: it would add easy members only.
- Merge functions that fail: `update_prefix_meta` would then leave before the taken node is put back (src/local_vec/macros.rs:85-86).
- Nodes.SearchStrideForLongestMatchAt: does not model searched prefixes with bits beyond their length; `Prefix` of routecore, not part of this model, excludes them.
- The general order on the multi-word integers: only the comparison with zero is used.
- Statistics, display, the command line, loading of files, conversion to public records: presentation and I/O.
