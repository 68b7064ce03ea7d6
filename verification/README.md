# Models of Trace4J

Trace4J samples running Java methods with hardware counters and watchpoints, records what it saw in a tree of
calling contexts, dumps that tree as XML, and turns the dump into a timeline. This project models the data
structures and state machines on that way, and three cores of the vendored Perfetto, and proves what they keep.

One module per component:

- `IntervalSplay` (interval_splay.dfy) is the top-down splay tree of disjoint half-open intervals, on heap nodes
  whose links the loops rewrite; `ParentSplay` (parent_splay.dfy) is the bottom-up splay tree with parent links.
  Both use the plain trees of `Trees` (trees.dfy) as what the heap represents.
- `Samplers` (sampler.dfy) follows one sampled call from watchpoint to watchpoint: four stacks, the counters per
  call level and the cache of basic blocks.
- `CodeCaches` (code_cache.dfy) interleaves load, unload and query callbacks around a lock that is released in
  the middle of an add; `RangeSets` (range_set.dfy) is the range index below it; `LineTables` (line_tables.dfy)
  builds the line tables and reloads them on the other side of the dump.
- `ContextTrees` (context_tree.dfy) grows and dumps the context tree; `ContextXml` (context_xml.dfy) makes the XML
  object of a context, `XmlObjects` (xml_object.dfy) prints it, `Xml` (xml.dfy) reads it back; `HomoProtocol`
  (homo_protocol.dfy) and `HomoSplit` (homo_split.dfy) do so with several threads; `ContextManagers`
  (context_manager.dfy) rebuilds the tree from the contexts in any order; `DumpReload` (dump_reload.dfy) puts all of
  them together.
- `Flatten` (flatten.dfy) turns nested calls into one track of slices; `Welford` (welford.dfy) is the running
  mean and variance.
- `GnTargets` (gn_targets.dfy), `Base64` (base64.dfy) and `LogRingBuffers` (log_ring_buffer.dfy) are the three
  Perfetto cores. `Options` (options.dfy) is the type of values that may be missing, `Sequences` (sequences.dfy) has
  what several modules need of sequences.

What changes state in the program changes state in the model: classes over fields, arrays and heap links, each
method proved against a function or predicate on plain values. Parameters marked `ghost` carry the value that the
heap represents. Stack tops, C++ pointers and `uint64_t` addresses are unbounded integers except where a wrap is
visible: `pSize` wraps at 2^64, the context ids, the method versions and the log slot counter at 2^32.

## What the code does otherwise than one might expect

- `Flatten.OutputToPftrace`: the timestamps can go backwards even on nested calls. They stay in order exactly when the
  calls are nested and no two of them end at one instant at which a longer one starts (`Flatten.Clash`);
  `Flatten.ClashExample` is an input with such a clash. An empty trace list ends in an exception.
- `Samplers.NestedIff`: the intervals recorded for one sample need not be nested, because a caller is credited only
  with the last reading of a call it made. A call's interval lies inside its caller's exactly when the call was
  credited with no more before its last reading than its caller was after it; already at the return, it lies inside
  what the caller has counted exactly when nothing was counted for it before its last reading
  (`Samplers.ReturnInsideIff`). `Samplers.CalleeOutlastsCaller` is a run of two nested calls that breaks it. What
  always holds is that every followed call begins exactly where its caller has got to (`Samplers.RunAbuts`).
- `IntervalSplay.Delete`: for a reversed range (start > end) intervals can be lost when the right piece is linked:
  those behind the root that the last splay leaves. That root is the node at which the search for the range's end
  stops in the left piece (`IntervalSplay.LastOn`), so nothing is lost exactly if it is the last interval of that piece
  (`IntervalSplay.KeptAllIff`). `IntervalSplay.ReversedRangeLoses` is an input that loses an interval.
- `Xml.RoundTrip`: the comment at the head of pylib/xml.py excludes only double quotes from values. A value with
  `=` is printed, but cannot be read back.
- `Xml.UnclosedAccepted`: a text that ends before its last object is closed is read as if it were closed, while a close
  tag that does not name the innermost open object is refused (`Xml.WrongCloseRejected`).
- `HomoProtocol.ReturnsIff`: on a malformed file parsing does not end: once a task has failed, the master waits forever
  or fails with it (`HomoProtocol.NeverAfterCrash`).
- `CodeCaches.AnswersRightIff`: the source assumes that new code does not overlap other symbols. After an add, address
  lookup is right everywhere exactly if the new code overlaps no live code; otherwise it is wrong at the greater of
  the two starts (`CodeCaches.OverlapMisleads`). The disjointness check in `RangeSet::insert` is commented out. Code
  that is loaded where a method still lives replaces it in the group, but not in the range index
  (`CodeCaches.ReloadWithoutUnload`).
- `LineTables.AddrLookup`: an address is given the line of the first entry *after* it, as the source remarks.
- `ContextManagers.LoadContext`: loading a dump without any context fails, and so can one with repeated ids: a context
  that waits twice for its parent cannot be taken out of the roots twice (`ContextManagers.RepeatedFails`).

## Model

| member | source | states |
|---|---|---|
| IntervalSplay.Node.constructor | src/profiler/splay.cpp:165-174 | a new node holds its interval and context and links to nothing |
| IntervalSplay.Splay | src/profiler/splay.cpp:6-56 | on any heap tree of disjoint non-empty intervals in order, the pointer loop leaves exactly the tree of the splay on plain trees, with the same in-order sequence, in which everything left of the root ends at or before `addr` and everything right of it starts after `addr` |
| IntervalSplay.TopIsLastOn | src/profiler/splay.cpp:16-47 | the node on top after a splay is the one at which a plain search for the address stops |
| IntervalSplay.SplayHalves | src/profiler/splay.cpp:16-53 | after a splay the height is at most half the steps of the search, rounded up, plus the height of what lies beside its way, plus two: the rotations halve the depth |
| IntervalSplay.LinkRight | src/profiler/splay.cpp:27-29 | moving the focus's root to the right spine keeps left spine, focus and right spine together the whole in-order sequence, with both sides bounded by `addr` |
| IntervalSplay.LinkLeft | src/profiler/splay.cpp:41-43 | the same for the left spine |
| IntervalSplay.UnzippedRotateRight | src/profiler/splay.cpp:20-26 | the two pointer writes of a right rotation keep spines and focus laid out on the heap and the whole sequence |
| IntervalSplay.UnzippedRotateLeft | src/profiler/splay.cpp:34-40 | the same for a left rotation |
| IntervalSplay.Assembled | src/profiler/splay.cpp:49-53 | the four closing writes through the spine ends and the dummy yield one tree with the whole sequence, split at `addr` |
| IntervalSplay.Lookup | src/profiler/splay.cpp:58-69 | finds an interval that contains `addr` if and only if one is in the tree, reports its start, leaves the start argument alone otherwise, and keeps the contents |
| IntervalSplay.Insert | src/profiler/splay.cpp:71-112 | returns 0 exactly for a non-empty interval that overlaps nothing, and then exactly it is added in order; otherwise returns 1 and the contents stay |
| IntervalSplay.AddedAbove | src/profiler/splay.cpp:88-96 | an interval that ends before the splayed root starts was free, and hanging it above the root adds exactly it |
| IntervalSplay.AddedBetween | src/profiler/splay.cpp:98-107 | an interval between the splayed root and its successor was free, and hanging it there adds exactly it |
| IntervalSplay.NotFree | src/profiler/splay.cpp:109-111 | when both insertion tests fail, some interval of the tree overlaps the new one |
| IntervalSplay.Delete | src/profiler/splay.cpp:114-163 | cuts the in-order sequence into intervals that end by the start, intervals that overlap, and intervals that start from the end; the middle is returned as a tree of its own, disjoint from the rest; what remains is all of before and after in order when start <= end, and for any range before up to the node at which the search for the range's end stops in the left piece, and after |
| IntervalSplay.KeptAllIff | src/profiler/splay.cpp:160-161 | no interval before the range is lost exactly if there is none, or none behind the range, or the search for the range's end stops in the left piece at its last interval |
| IntervalSplay.ReversedRangeLoses | src/profiler/splay.cpp:160-161 | of [0, 1), [5, 6), [20, 30) the deletion from 10 to 0 leaves the first and the last and hands out nothing |
| IntervalSplay.RemainsAll | src/profiler/splay.cpp:160-161 | whatever the shape of the tree, nothing before the range is lost if it is not reversed, if at most one interval lies before or none behind, or if the last one before starts by the range's end; something is lost if intervals lie behind and the last but one before ends after the range's end |
| IntervalSplay.SplitLow | src/profiler/splay.cpp:131-139 | splits the tree's sequence into what ends by `lo`, as one definite tree, and what ends after it |
| IntervalSplay.SplitHigh | src/profiler/splay.cpp:140-152 | splits the rest into what starts before `hi` and what starts from it |
| IntervalSplay.Combine | src/profiler/splay.cpp:154-162 | the two outer pieces become one ordered tree, of the left one exactly the stretch up to the node at which the search for the range's end stops |
| IntervalSplay.SplayedOnTop | src/profiler/splay.cpp:160 | what the splay leaves on top: everything before it ends by the address, everything behind starts after it |
| IntervalSplay.NothingRight | src/profiler/splay.cpp:160-161 | nothing is behind the top, for the link to lose, if the last interval starts by the address or is the only one |
| IntervalSplay.SomethingRight | src/profiler/splay.cpp:160-161 | something is behind it if the last interval but one ends after the address |
| IntervalSplay.CutParts | src/profiler/splay.cpp:126-152 | the three stretches that the splits leave are the parts of the cut |
| IntervalSplay.SplitAround | src/profiler/splay.cpp:126-152 | the two splits leave three trees on disjoint nodes whose sequences are the stretches before, inside and behind the range |
| ParentSplay.RightRotation | src/util/splay-tree.h:39-51 | the writes of a right rotation leave the rotated tree in the hole of the old one, parent links included |
| ParentSplay.LeftRotation | src/util/splay-tree.h:24-37 | the same for a left rotation |
| ParentSplay.SplayTree.RightRotate | src/util/splay-tree.h:39-51 | the heap holds the rotated tree in the same place; without a left child the node's own subtree is still laid out, but is detached |
| ParentSplay.SplayTree.LeftRotate | src/util/splay-tree.h:24-37 | the same mirrored |
| ParentSplay.SplayTree.Splay | src/util/splay-tree.h:53-72 | the loop ends with `x` at the root of exactly the tree of the bottom-up splay on plain trees, all links right, with the in-order sequence unchanged |
| ParentSplay.SplayHalves | src/util/splay-tree.h:53-72 | such a splay halves the depth: of the path only every other node adds to the height |
| ParentSplay.SplayTree.Replace | src/util/splay-tree.h:74-79 | only the link that led to `u` and the parent of `v` change |
| ParentSplay.SplayTree.SubtreeMinimum | src/util/splay-tree.h:81-84 | returns the first node of the subtree in order, without changing the tree |
| ParentSplay.SplayTree.constructor | src/util/splay-tree.h:91 | an empty, consistent tree |
| ParentSplay.SplayTree.Insert | src/util/splay-tree.h:95-114 | exactly one fresh node with the key is added, at the root; links stay consistent, the order sorted, and the size is the node count modulo 2^64 |
| ParentSplay.SplayTree.Descend | src/util/splay-tree.h:99-103 | the search ends below `p`, at the empty link that has every key before it smaller and no key after it smaller |
| ParentSplay.SplayTree.Attach | src/util/splay-tree.h:105-110 | the new node is laid out in that hole |
| ParentSplay.SplayTree.Find | src/util/splay-tree.h:116-124 | finds a node with an equivalent key if and only if one is in the tree |
| ParentSplay.SearchStep | src/util/splay-tree.h:118-122 | one step down keeps every equivalent key inside the subtree searched |
| ParentSplay.SplayTree.Erase | src/util/splay-tree.h:126-148 | removes exactly one node with an equivalent key if there is one, and changes neither contents nor size otherwise; links, order and size stay consistent |
| ParentSplay.SplayTree.TakeOutRoot | src/util/splay-tree.h:132-144 | without the root, the two subtrees' sequences remain, concatenated |
| ParentSplay.SplayTree.LiftSuccessor | src/util/splay-tree.h:135-143 | the successor takes the root's place and nothing else moves in the order |
| ParentSplay.SplayTree.Unhook | src/util/splay-tree.h:136-140 | the successor is taken out of the right subtree, whether or not it is its root |
| ParentSplay.SplayTree.Seat | src/util/splay-tree.h:141-143 | the successor becomes the root over both subtrees |
| Samplers.Sampler.OnSample | src/profiler/profiler.cpp:216-278 | outside the selected compiled methods nothing changes; otherwise, whatever an earlier sample left behind, the stacks hold the sampled call only, with the tops at the bottom, and are then decoded from the sampled address; only the lowest counter is reset |
| Samplers.Sampler.Decoder | src/profiler/profiler.cpp:280-457 | whether the block's cache entry is absent, half-filled or filled, the watchpoint and the stacks come out as for the first terminator reached by the instruction walk: what a return pops and names, what a call counts, and what any other end of a block is watched as; the entry is made on the first visit and filled on the second |
| Samplers.CachedEnd | src/profiler/profiler.cpp:291-294 | a filled entry stores the very terminator that the walk reaches |
| Samplers.OneEnd | src/profiler/profiler.cpp:284-309 | a walk reaches at most one terminator, in one number of steps |
| Samplers.Sampler.OnBranchWatchPoint | src/profiler/profiler.cpp:542-920 | case by case on the instruction: tops, both stacks, counters and the next watchpoint after a return, a jump, a compiled call, and a call into the runtime, which is watched behind the call |
| Samplers.Sampler.OnRetWatchPoint | src/profiler/profiler.cpp:928-1149 | the same for any triggering watchpoint, and what the tops, stacks and watchpoint are at no address, outside compiled methods, after a runtime call, over the threshold, and at an address that cannot be made precise; a block end is asked for only where a block is decoded |
| Samplers.TriggerCases | src/profiler/profiler.cpp:928-1070 | the state after a trigger, case by case in the source's order, for every safe state |
| Samplers.MeteredCases | src/profiler/profiler.cpp:603-614 | which levels of the counters a trigger changes, and by how much, for every trigger inside the arrays |
| Samplers.Sampler.EndLevel | src/profiler/profiler.cpp:603-614 | the reading goes to the ended call and to its caller; the outermost call's end becomes the next start |
| Samplers.Sampler.BeginLevel | src/profiler/profiler.cpp:891-901 | the caller gets the reading; the callee starts at what was counted so far and counts from zero |
| Samplers.DecodeKeeps | src/profiler/profiler.cpp:318-344 | decoding from stacks in step leaves them in step, less what a pending return watchpoint took |
| Samplers.TriggerKeeps | src/profiler/profiler.cpp:570-647 | every trigger below the threshold finds the stack entries it pops and keeps the stacks in step, or empties them all |
| Samplers.RunKeeps | src/profiler/profiler.cpp:230-276 | in every run below the threshold, from any earlier state, both tops are equal and at most the number of calls decoded, `retCtxtStack` holds top+1 entries and `WP_Stack` top+1, or top while a return is pending, until the last return empties both |
| Samplers.RunIsSafe | src/profiler/profiler.cpp:1056-1104 | in every such run the assertion that fails for a non-zero top is not reached, nothing is popped from an empty stack, and a threshold of at most 64 keeps the 64-entry arrays in bounds |
| Samplers.RunFrames | src/profiler/profiler.cpp:260-275 | in every such run the two stacks hold exactly the calls that were followed and have not returned: the kept watchpoints are on their return addresses, the kept contexts are theirs, and the pending watchpoint belongs to the innermost of them or to the block it was set for |
| Samplers.RunAbuts | src/profiler/profiler.cpp:891-901 | in every such run each followed call began exactly where the interval recorded so far for its caller ends |
| Samplers.CreditsAddUp | src/profiler/profiler.cpp:603-608 | while a call is open, its count grows by exactly the readings credited to it, and its start stays |
| Samplers.CountedSinceCall | src/profiler/profiler.cpp:891-901 | an open call started where its caller was at the call, and has counted what it was credited with since |
| Samplers.ReturnInsideIff | src/profiler/profiler.cpp:603-611 | at each return in every run, the ended call lies inside what its caller has counted so far if and only if nothing was counted for it before its last reading |
| Samplers.EndedByIff | src/profiler/profiler.cpp:603-611 | wherever the caller gets to later, at its end or at its next call, the callee's recorded end lies before it if and only if the callee had counted no more before its last reading than the caller was credited with since |
| Samplers.NestedIff | src/profiler/profiler.cpp:603-614 | in every run, the interval recorded for a call lies inside its caller's if and only if the call was credited with no more before its last reading than its caller after it |
| Samplers.CalleeOutlastsCaller | src/profiler/profiler.cpp:603-607 | a run of two nested calls in which the callee's recorded interval ends after its caller's |
| CodeCaches.CodeCacheManager.BeginAdd | src/profiler/code_cache.cpp:399-417 | the critical section before the lock is released: the id leaves the uncompiled set and the method gets the next version; for code without overlap the invariant holds at the release |
| CodeCaches.CodeCacheManager.FinishAdd | src/profiler/code_cache.cpp:292-294 | the critical section after it is taken again: the method joins its group and, unless a range begins there already, the range index; for a pending method the invariant is kept |
| CodeCaches.CodeCacheManager.RemoveMethod | src/profiler/code_cache.cpp:425-433 | exactly the method at that address of that id leaves the group, and the range that begins there leaves the index; the assertion holds exactly if the id is unknown or such a range is found; for live code it holds, and so does the invariant |
| CodeCaches.CodeCacheManager.GetMethod | src/profiler/code_cache.cpp:435-440 | answers as a linear scan of the live methods |
| CodeCaches.CodeCacheManager.FindMethodByAddr | src/profiler/code_cache.cpp:469-478 | succeeds if and only if a live method covers the address, and gives that method's id and version |
| CodeCaches.CodeCacheManager.GetMethodById | src/profiler/code_cache.cpp:442-448 | the live method of that id with the strictly greatest version, or none exactly if none is live |
| CodeCaches.CodeCacheManager.CheckAndMoveMethodToUncompiledSet | src/profiler/code_cache.cpp:461-467 | an id without compiled methods joins the uncompiled set, and nothing else changes; the invariant holds |
| CodeCaches.GetMethodByVersion | src/profiler/code_cache.cpp:307-325 | version 0 gives a most recent method, any other version the method of that version, none exactly if there is none |
| CodeCaches.RunKeeps | src/profiler/code_cache.cpp:269-305 | every interleaving of begun adds, finished adds, unloads and moves keeps the invariant |
| CodeCaches.RunAnswers | src/profiler/code_cache.cpp:399-478 | after every such run the index and the groups hold the same methods, lookup by address is the linear scan, id and version determine a live method, and no id is both uncompiled and compiled |
| CodeCaches.LookupIsScan | src/profiler/code_cache.cpp:469-478 | the range found for an address is the live method that covers it |
| CodeCaches.BeginKeeps | src/profiler/code_cache.cpp:269-275 | releasing the lock in the middle of an add leaves the invariant intact |
| CodeCaches.EndKeeps | src/profiler/code_cache.cpp:292-294 | so does the end of the add, whatever happened in between |
| CodeCaches.UnloadKeeps | src/profiler/code_cache.cpp:297-305 | so does an unload |
| CodeCaches.MoveKeeps | src/profiler/code_cache.cpp:461-467 | so does the move to the uncompiled set |
| CodeCaches.AnswersRightIff | src/profiler/code_cache.cpp:417-421 | after an add, address lookup is the linear scan of the live methods at every address if and only if the new code overlaps no live code |
| CodeCaches.OverlapMisleads | src/profiler/code_cache.cpp:420-421 | if it overlaps a live method, lookup is wrong at the greater of the two starts |
| CodeCaches.ReloadWithoutUnload | src/util/range.h:38-43 | loading code where a method still lives makes the new method live, but address lookup still answers with the old one |
| RangeSets.RangeSet.Insert | src/util/range.h:38-43 | reports success always, and keeps a range that already starts there |
| RangeSets.RangeSet.GetRange | src/util/range.h:69-77 | the range with the greatest start not above the key, if it reaches the key, and none otherwise |
| RangeSets.RangeSet.GetData | src/util/range.h:79-86 | the data of that range |
| RangeSets.RangeSet.Remove | src/util/range.h:57-67 | removes the range that starts exactly there and is found there, and nothing else |
| RangeSets.FoundContains | src/util/range.h:69-77 | on disjoint ranges, the range found for a key is the one that contains it |
| LineTables.CompiledMethod.LoadBCILineTable | src/profiler/code_cache.cpp:68-119 | the non-empty ranges between consecutive entries, of those that begin together the first; from a sorted table these are disjoint and all there; nothing for native or already loaded methods |
| LineTables.TableRangesAre | src/profiler/code_cache.cpp:68-119 | for any table, in any order: which starts have a range, and that it is that of the first entry with this start |
| LineTables.BciLookup | src/profiler/code_cache.cpp:99-119 | lookup gives the line of the last entry that starts at or before the BCI and none beyond the end |
| LineTables.CompiledMethod.LoadAddrLocationMap | src/profiler/code_cache.cpp:137-186 | the ranges between consecutive addresses, each with the line of the entry that ends it, up to the first entry whose BCI has no line |
| LineTables.AddrLookup | src/profiler/code_cache.cpp:137-198 | an address gets the line of the first entry that starts after it |
| LineTables.LoadedLookup | src/profiler/code_cache.cpp:162-177 | with both tables loaded, that line is the line-table line of this entry's BCI, and none behind the first entry without one |
| LineTables.CompiledMethod.Addr2Line | src/profiler/code_cache.cpp:188-198 | the line found for an address, 0 when there is none; the assertion fails exactly for an address outside the code without a line in a non-empty table |
| LineTables.LineTree.IsOverlap | offlineprocess/pylib/code_cache.py:22-43 | true exactly if some range of the tree meets the new one, for all its early returns |
| LineTables.Neighbours | offlineprocess/pylib/code_cache.py:31-42 | between its floor and its ceiling a range meets another one only if it reaches the ceiling |
| LineTables.LineTree.AddRangeToTree | offlineprocess/pylib/code_cache.py:16-46 | accepts exactly the ranges that meet none, adds them, and keeps the ranges disjoint |
| LineTables.LineTree.QueryTree | offlineprocess/pylib/code_cache.py:48-57 | finds what the C++ lookup finds |
| LineTables.LineTree.LoadRanges | offlineprocess/process_raw_data.py:73-89 | every printed range is accepted, in whatever order, and the reloaded tree equals the printed one |
| ContextTrees.Context.FindChild | src/profiler/context.cpp:47-54 | a child whose frame agrees in byte code index, method id, binary address and method version, none exactly if there is none |
| ContextTrees.KeyIff | src/profiler/context.h:57-62 | two frames have the same key exactly if they agree in these four fields |
| ContextTrees.Context.AddChild | src/profiler/context.cpp:41-45 | the child's parent link is set, and it joins the children unless its key is taken |
| ContextTrees.Context.SetMetrics | src/profiler/context.h:37 | the context has metrics from then on |
| ContextTrees.ContextTree.constructor | src/profiler/context.cpp:92-97 | a tree with the root 0 only |
| ContextTrees.ContextTree.AddContext | src/profiler/context.cpp:113-136 | returns the one node whose path is the parent's path extended by the frame: a child of the parent that was there with the same four fields, or, if and only if there was none, a new one with this frame and no metrics; the tree stays consistent until the id counter wraps |
| ContextTrees.ContextTree.GiveMetrics | src/profiler/profiler.cpp:591-595 | a context of the tree gets metrics, and nothing else of the tree changes |
| ContextTrees.ContextTree.FindOrRegister | src/profiler/context.cpp:120-135 | the same for a context made beforehand |
| ContextTrees.ContextTree.Register | src/profiler/context.cpp:129-133 | the new node is linked below its parent, mapped by its id, and the counter moves on modulo 2^32 |
| ContextTrees.PathsDistinct | src/profiler/context.cpp:120-127 | two nodes with the same frame path are one node |
| ContextTrees.ChildIsPath | src/profiler/context.cpp:47-54 | a child with a key exists if and only if some node has the extended path |
| ContextTrees.AddedPath | src/profiler/context.cpp:129-133 | a new node makes exactly one new path and keeps all others |
| ContextTrees.StillTree | src/profiler/context.cpp:129-133 | every parent id stays below its children's ids, and siblings differ in their keys |
| ContextTrees.ContextTree.DumpUpwards | src/profiler/profiler.cpp:1269-1288 | a context with metrics is printed with all ancestors not yet printed, so that what is printed stays closed upwards |
| ContextTrees.ContextTree.Dump | src/profiler/profiler.cpp:1262-1290 | in any iteration order, exactly the contexts with metrics and their ancestors are printed, each once and with its parent |
| ContextTrees.DumpComplete | src/profiler/profiler.cpp:1262-1290 | once all contexts with metrics are printed, closed upwards, exactly the needed ones are |
| ContextTrees.OneRoot | offlineprocess/process_raw_data.py:128-130 | in a non-empty dump the only context whose parent is not in it is context 0 |
| ContextManagers.ContextManager.AddContext | offlineprocess/pylib/context.py:49-79 | fails exactly for an empty parent id or for a waiting context that is not a root any more, and otherwise does to parents, children, roots and waiting lists what one addition does, for new and repeated ids; a new id is always added, and after it the children sets are the inverse of the parent map and the root set holds exactly the contexts whose parent is not loaded |
| ContextManagers.ContextManager.Enter | offlineprocess/pylib/context.py:58-67 | the context replaces any of its id and takes those that wait for it, or fails at one that is not a root |
| ContextManagers.AddKeeps | offlineprocess/pylib/context.py:49-79 | on consistent tables a new id is added without failing, leaves them consistent, and the parent map grows by exactly it |
| ContextManagers.AddRepeated | offlineprocess/pylib/context.py:58-79 | on consistent tables a repeated id never fails; it loses the children of the context it replaces, is linked or waits, and everything else stays |
| ContextManagers.ContextManager.Place | offlineprocess/pylib/context.py:70-79 | it is linked below its loaded parent, or becomes a root and waits |
| ContextManagers.ContextManager.Adopt | offlineprocess/pylib/context.py:64-66 | the waiting children leave the root set and become children; fails exactly if one is listed twice or is not a root |
| ContextManagers.ContextManager.TakeWaiting | offlineprocess/pylib/context.py:62-67 | a new context adopts exactly those on its waiting list, which is given up |
| ContextManagers.ContextManager.Wait | offlineprocess/pylib/context.py:73-79 | a context without loaded parent becomes a root and waits under its parent's id |
| ContextManagers.RootsAfter | offlineprocess/pylib/context.py:62-76 | the root set after an addition, from the one before |
| ContextManagers.WaitingWith | offlineprocess/pylib/context.py:77-79 | the waiting lists stay the children of absent parents, each once, when a context must wait |
| ContextManagers.WaitingWithout | offlineprocess/pylib/context.py:67-72 | and when it need not |
| ContextManagers.ContextManager.GetAllPaths | offlineprocess/pylib/context.py:113-128 | terminates on acyclic parents and lists each path from the root to a leaf, or to any node, exactly once |
| ContextManagers.AddThrough | offlineprocess/pylib/context.py:120-123 | the paths through one more child are added without repetition |
| ContextManagers.OrderIrrelevant | offlineprocess/pylib/context.py:49-79 | the parent map, and with it children and roots, is the same for every order of loading |
| ContextManagers.LoadContext | offlineprocess/process_raw_data.py:94-132 | for every list of entries, loading fails exactly if one of the additions does, and otherwise succeeds exactly with a single root, with the tables of those additions; without repeated ids it succeeds exactly for a non-empty list with a single root, and gives the tree of the entries |
| ContextManagers.LoadsDistinct | offlineprocess/process_raw_data.py:97-126 | without repeated ids no addition fails, and the tables are consistent with the parent map of the entries |
| ContextManagers.RepeatedFails | offlineprocess/pylib/context.py:64-66 | an entry that comes twice before its parent makes loading fail |
| ContextManagers.ReloadedDump | offlineprocess/process_raw_data.py:128-130 | a non-empty dump, reloaded in any order, has the single root 0 and exactly the needed contexts |
| ContextManagers.ReloadedParent | offlineprocess/process_raw_data.py:105 | every reloaded context has the parent it had in the profiler |
| ContextManagers.ReloadedAcyclic | offlineprocess/process_raw_data.py:138 | its parents are acyclic, so that listing its paths terminates |
| ContextManagers.ValueOfDecimal | src/profiler/context.cpp:63-71 | ids printed in decimal stay distinct |
| XmlObjects.XMLObj.constructor | src/profiler/xml.cpp:5-7 | an object with its tag only |
| XmlObjects.XMLObj.AddAttr | src/profiler/xml.cpp:18-20 | the value is stored in quotes; an earlier value of the key is replaced |
| XmlObjects.XMLObj.AddChild | src/profiler/xml.cpp:22-24 | the child is stored under its id; an earlier child of the id is replaced |
| XmlObjects.XMLObj.OpenText | src/profiler/xml.cpp:30-33 | the open tag, with every attribute once in some order |
| XmlObjects.XMLObj.ChildrenText | src/profiler/xml.cpp:35-37 | the children's texts, one after the other |
| XmlObjects.XMLObj.GetXMLStr | src/profiler/xml.cpp:26-40 | the text of an object tree with the same tags and attributes and with the children in ascending id |
| XmlObjects.Ascending | src/profiler/xml.cpp:35 | the ids in ascending order, each once |
| XmlObjects.ReadBack | src/profiler/xml.cpp:18-20 | what is read back for such a text has the object's tag, keys and unquoted values |
| XmlObjects.ShownMirrors | src/profiler/xml.cpp:26-40 | so has every object below it, with the children in ascending id |
| XmlObjects.ShownOk | src/profiler/xml.cpp:26-40 | an object with well-formed names and values without double quotes prints as an object tree that the parser accepts |
| XmlObjects.ShownClean | offlineprocess/pylib/xml.py:57 | its printed form is free of `=` in values exactly if the object is |
| XmlObjects.TextReadBack | src/profiler/xml.cpp:26-40 | the text of any such object, behind the header, is parsed to one node that mirrors the object and everything below it if no value contains `=`, and is rejected otherwise |
| ContextXml.CreateContextObj | src/profiler/context.cpp:59-89 | the object has the six attributes of the context, from which id, parent (-1 if missing), method id, method version, binary address and byte code index can be read back, and the metrics as its one child |
| ContextXml.CreateMetricsObj | src/profiler/metrics.cpp:53-96 | one child per metric, under its index, from which measure, event and value can be read back: the integer if not zero, else the text, else the real |
| ContextXml.PrintContext | src/profiler/profiler.cpp:1270-1274 | the text written for a context is the printed form of its object |
| ContextXml.MirrorTells | src/profiler/context.cpp:63-79 | the parsed node of a context gives back its id, its parent, its frame and all its metrics in order |
| ContextXml.SignedReadBack | src/profiler/context.cpp:68 | signed numbers can be read back |
| ContextXml.PointerReadBack | src/profiler/context.cpp:65 | so can pointers in hexadecimal |
| ContextXml.ShownLevelOne | src/profiler/xml.cpp:26-40 | if no descendant has the object's tag and no value contains its close tag, the close tag occurs in the printed text only at its end |
| ContextXml.ShownNoHeader | src/profiler/xml.cpp:26-40 | if no value contains `<?`, nothing in the printed text looks like a header |
| ContextXml.ContextReadable | src/profiler/context.cpp:63-71 | the printed numbers and pointers of a context are harmless, so that only the texts of its metrics decide whether it can be cut and parsed |
| Xml.EvenMeansOutside | offlineprocess/pylib/xml.py:66 | in a text with an even number of quotes, a `>` is followed by an even number of them exactly if it lies outside quotes |
| Xml.TagEndOf | offlineprocess/pylib/xml.py:45-47 | the tag end found is the first `>` outside quotes |
| Xml.NextLine | offlineprocess/pylib/xml.py:34-48 | the next segment of printed lines is exactly the first line's tag |
| Xml.TokensOfTag | offlineprocess/pylib/xml.py:52 | an open tag is split into its name and its attributes, whatever blanks the values hold |
| Xml.RunQuotation | offlineprocess/pylib/xml.py:65 | a closed quotation of either kind stays in its token |
| Xml.ParsedOpenTag | offlineprocess/pylib/xml.py:50-59 | a printed open tag gives back name and attributes if no value contains `=`, and is rejected otherwise |
| Xml.AttributeIff | offlineprocess/pylib/xml.py:57-58 | a token is an attribute exactly if it has one `=`, and then key and unquoted value are what stands before and behind it |
| Xml.ParseFile | offlineprocess/pylib/xml.py:63-96 | the loop over the segments computes the recursive reading of the text, rejections included |
| Xml.DriveLines | offlineprocess/pylib/xml.py:81-96 | reading a printed forest adds exactly its objects to the open node, or fails if some value contains `=` |
| Xml.PrintedLines | src/profiler/xml.cpp:26-40 | a printed forest is a sequence of indented lines, one tag each |
| Xml.PrintedExample | src/profiler/xml.cpp:26-40 | a nested object, character by character |
| Xml.HeaderStripped | offlineprocess/pylib/xml.py:69-72 | the file header is cut off, and nothing else |
| Xml.RoundTrip | offlineprocess/pylib/xml.py:63-96 | header and printed forest read back as the same tags, attributes and children if no value contains `=`, and are rejected otherwise |
| Xml.RoundTripBare | offlineprocess/pylib/xml.py:63-96 | the same without header, for texts without `<?` |
| Xml.WrongCloseRejected | offlineprocess/pylib/xml.py:89-92 | a close tag that does not name the innermost open node is refused |
| Xml.NothingAfterRoot | offlineprocess/pylib/xml.py:87-92 | behind a close tag that empties the node stack nothing may follow |
| Xml.UnclosedAccepted | offlineprocess/pylib/xml.py:81-97 | an object that is still open at the end of the text is kept with its children |
| Xml.BadTextRefused | offlineprocess/pylib/xml.py:35-53 | text outside of tags, a tag that does not end, and a tag without a name are refused |
| HomoProtocol.RunKeeps | offlineprocess/pylib/special_xml.py:13-47 | every interleaving of producer, consumers and master, for every worker limit, keeps queue order, conservation of chunks, the lock discipline and the worker list |
| HomoProtocol.ExactlyOnce | offlineprocess/pylib/workers.py:55-57 | when `finish` returns, with a consumer at all, every chunk has been parsed and added exactly once |
| HomoProtocol.NoCrash | offlineprocess/pylib/special_xml.py:33-40 | on a well-formed file no task fails in any interleaving |
| HomoProtocol.AlwaysCloser | offlineprocess/pylib/workers.py:33-57 | from every reachable state some step brings the run closer to its end, so there is no deadlock |
| HomoProtocol.CanReturn | offlineprocess/pylib/workers.py:55-57 | every run on a well-formed file can be continued until `finish` returns |
| HomoProtocol.LimitKept | offlineprocess/pylib/workers.py:33-43 | in every run at most as many workers are active as the limit allows |
| HomoProtocol.InlineIffFull | offlineprocess/pylib/workers.py:36-48 | in every run the master does a task itself exactly if that many are active, and makes one worker otherwise |
| HomoProtocol.MasterFails | offlineprocess/pylib/workers.py:36-40 | a failure in a task that the master does itself ends the master |
| HomoProtocol.NeverAfterCrash | offlineprocess/pylib/workers.py:15-23 | once a task has failed, no continuation of the run lets the master return |
| HomoProtocol.ReturnsIff | offlineprocess/pylib/workers.py:55-57 | with at least one consumer the master can return exactly if the file is well formed |
| HomoProtocol.ConsumerTurn | offlineprocess/pylib/special_xml.py:33-47 | a consumer takes the first chunk whether or not the producer is done, and ends exactly if it sees the producer done and then no chunk |
| HomoProtocol.MasterKeeps | offlineprocess/pylib/workers.py:33-48 | assigning work, inline when the limit is reached, and polling keep the invariant |
| HomoProtocol.TaskKeeps | offlineprocess/pylib/special_xml.py:13-47 | so does every step of producer and consumers |
| HomoProtocol.FinishKeeps | offlineprocess/pylib/workers.py:20-23 | so does a worker that leaves the list |
| HomoSplit.GenerateLevelOneNodeStr | offlineprocess/pylib/special_xml.py:13-30 | the loop queues the chunks of the recursive cutting, and reports whether it got to the end |
| HomoSplit.CutOne | offlineprocess/pylib/special_xml.py:17-28 | fails exactly if the text does not start with the open tag or has no close tag; otherwise the chunk ends with the first close tag and the stripped rest remains |
| HomoSplit.CutPrinted | offlineprocess/pylib/special_xml.py:13-30 | a printed forest of level-one objects whose close tag occurs nowhere else is cut into exactly their texts |
| HomoSplit.CutFirst | offlineprocess/pylib/special_xml.py:17-28 | the first cut is the first object's text and leaves the text of the others |
| HomoSplit.FirstClose | offlineprocess/pylib/special_xml.py:19-20 | the first close tag found is the one at the end of the first object |
| HomoSplit.ParsedChunk | offlineprocess/pylib/special_xml.py:35-40 | one chunk parses to one node, the object's |
| HomoSplit.PickAll | offlineprocess/pylib/special_xml.py:42-44 | taking every element exactly once, in any order, gives the same multiset |
| HomoSplit.SameNodes | offlineprocess/pylib/special_xml.py:51-74 | whenever `finish` returns, each chunk was added once, and the nodes are as a multiset those that the plain parser finds in the whole text |
| DumpReload.DumpText | src/profiler/profiler.cpp:1262-1290 | for any iteration order the text of a thread is the printed objects of exactly the contexts to be dumped, in the order of the dump |
| DumpReload.DumpReadable | src/profiler/profiler.cpp:1270-1274 | if the texts of the metrics are harmless, what is dumped can be cut and parsed |
| DumpReload.EntriesArrive | offlineprocess/process_raw_data.py:97-105 | the nodes that the threads add, in any interleaving, mirror the printed contexts, each once, and give back their ids, parents, frames and metrics |
| DumpReload.Reloaded | offlineprocess/process_raw_data.py:94-132 | a non-empty dump of any context tree whose metrics hold no quote, `=`, close tag or header start in their texts, printed, cut and parsed by any number of threads in any interleaving, arrives with every context once, its frame and its metrics readable from its node, and is loaded without a failing assertion: its single root is 0, it holds exactly the contexts with metrics and their ancestors, with the parents they had, and without cycles |
| Flatten.SortedAndStable | offlineprocess/process_raw_data.py:158 | the rows are sorted by start, a permutation of the list, with equal starts in their old order |
| Flatten.OutputToPftrace | offlineprocess/process_raw_data.py:157-199 | fails exactly on an empty list; opens and closes alternate with at most 2n-1 opens; for every list the timestamps are in order exactly if the rows are nested without a clash, and then the track shows at each instant the innermost running row, and nothing when none runs; each row starts exactly one slice, in row order, with its own shortened call path, and a resumed slice carries the metrics of the row that ended, and the shortened call path of the first row that starts after it, or, if none does, the full call path of the row that ended |
| Flatten.ProcessRow | offlineprocess/process_raw_data.py:169-194 | one row keeps the track right up to its start, with the row on top of the stack |
| Flatten.Advance | offlineprocess/process_raw_data.py:179-181 | closing one slice and opening another keeps the track right, if the old row was innermost until the close and nothing ran until the open |
| Flatten.TopIsInnermost | offlineprocess/process_raw_data.py:177-178 | the row on top of the stack is innermost until it ends or the next row starts |
| Flatten.PushStep | offlineprocess/process_raw_data.py:178-190 | a row that starts inside the top keeps the invariant |
| Flatten.PopStep | offlineprocess/process_raw_data.py:183-186 | resuming the row below keeps the invariant |
| Flatten.SwapStep | offlineprocess/process_raw_data.py:191-194 | replacing the top keeps the invariant or meets a clash, and then the timestamps are bound to go back |
| Flatten.BreakDooms | offlineprocess/process_raw_data.py:176-194 | once a row that breaks the nesting is opened, the timestamps are bound to go back |
| Flatten.NestedIffUnbroken | offlineprocess/process_raw_data.py:176-194 | the rows are nested exactly if no row breaks the nesting of those before it |
| Flatten.DrainStep | offlineprocess/process_raw_data.py:195-198 | resuming outer rows at the end keeps the invariant |
| Flatten.LastClose | offlineprocess/process_raw_data.py:199 | the last close completes a right track |
| Flatten.Finish | offlineprocess/process_raw_data.py:195-199 | the finished track is faithful to the rows, whether they are nested or not |
| Flatten.ClashExample | offlineprocess/process_raw_data.py:183-194 | three nested rows, as sorting leaves them, for which the timestamps of every faithful track go back |
| Flatten.ResumedPath | offlineprocess/process_raw_data.py:172-198 | told by the later slices alone: a resumed slice has the shortened call path of the row that starts next, or the full one of the row that ended |
| Flatten.ApartMeansNoClash | offlineprocess/process_raw_data.py:183 | no clash if no row starts where an earlier one ends |
| Flatten.OneSlice | offlineprocess/process_raw_data.py:179-199 | slices do not overlap |
| Welford.UpdateVarianceAndMean | src/profiler/welford.h:4-16 | after readings 1 to n the mean is sum/n, M2 the sum of squared deviations from it, and the variance M2/(n-1), 0 for n = 1 |
| Welford.NextReading | src/profiler/welford.h:10-13 | the update formulas give mean and squared deviations of one more reading |
| Welford.Shift | src/profiler/welford.h:10-13 | squared deviations from one centre in terms of those from another |
| Welford.OrderIrrelevant | src/profiler/welford.h:4-16 | the order of the readings does not matter |
| GnTargets.GnParser.GetTarget | perfetto/tools/gn_utils.py:405-521 | for any order of queries, the memoised transitive dependencies are exactly the countable targets reachable along allowed edges without passing a linker unit; the memo stays right |
| GnTargets.ReachesIff | perfetto/tools/gn_utils.py:482-519 | reachability is what the direct dependencies contribute |
| GnTargets.PassedOn | perfetto/tools/gn_utils.py:485-519 | which kinds of dependencies are skipped, counted, and passed through |
| GnTargets.PartlyStep | perfetto/tools/gn_utils.py:482-519 | one dependency adds exactly its contribution |
| GnTargets.PartlyAll | perfetto/tools/gn_utils.py:482-521 | after all dependencies the set is exact |
| Base64.Base64Encode | perfetto/src/base/base64.cc:55-96 | fails exactly on a buffer shorter than 4*ceil(n/3), leaving it alone; otherwise writes the encoding and nothing else |
| Base64.EncodeGroup | perfetto/src/base/base64.cc:66-93 | one round writes exactly the next four characters of the encoding |
| Base64.EncodedLength | perfetto/include/perfetto/ext/base/base64.h:31-33 | the encoding of n bytes has 4*ceil(n/3) characters |
| Base64.Base64Decode | perfetto/src/base/base64.cc:106-137 | fails exactly on a buffer below the bound or a text that does not decode; otherwise the buffer begins with the decoded bytes; nothing beyond the bound is written |
| Base64.DecodeGroup | perfetto/src/base/base64.cc:120-131 | one round writes exactly the three bytes of the next group, or rejects it |
| Base64.CharRoundTrip | perfetto/src/base/base64.cc:47-51 | each of the 64 values decodes from its character, which is not the padding |
| Base64.KnownCharacters | perfetto/src/base/base64.cc:26-51 | the characters that decode are those of the two alphabets and the padding |
| Base64.CharacterValues | perfetto/src/base/base64.cc:26-44 | the value of a character is its place in the alphabet |
| Base64.GroupValue | perfetto/src/base/base64.cc:128-130 | four characters are the base-64 digits of the number that their three bytes are to the base of 256 |
| Base64.QuadValue | perfetto/src/base/base64.cc:66-95 | so are the digits that are written |
| Base64.RoundTrip | perfetto/src/base/base64.cc:55-137 | every byte sequence is decoded from its encoding, also without padding or in the URL-safe alphabet (sections 4 and 5 of RFC 4648) |
| Base64.AcceptedIff | perfetto/src/base/base64.cc:119-126 | a text decodes exactly if its length is not 1 modulo 4 and all its characters are in the alphabets or padding |
| Base64.DecodedLength | perfetto/src/base/base64.cc:135 | how many bytes any accepted text stands for, with padding at its last two places written or left out |
| LogRingBuffers.LogRingBuffer.Append | perfetto/src/base/log_ring_buffer.h:67-91 | the slot of the message holds the first 255 characters of its parts, each up to a NUL; the seven messages before it are kept, also across the wrap of the counter |
| LogRingBuffers.LogRingBuffer.Store | perfetto/src/base/log_ring_buffer.h:84-90 | only one slot changes, and holds the text cut to 255 characters and a NUL |
| LogRingBuffers.LogRingBuffer.CopyLine | perfetto/src/base/log_ring_buffer.h:110-127 | one sanitised line with its newline, as far as there is room |
| LogRingBuffers.LogRingBuffer.CopySlot | perfetto/src/base/log_ring_buffer.h:105-128 | the message at that position of the ring, if there is one, follows what is copied so far |
| LogRingBuffers.LogRingBuffer.Read | perfetto/src/base/log_ring_buffer.h:98-139 | exactly the first min(len-1, total) characters of the last eight messages in order, each sanitised and newline-ended, then a NUL; the rest of the buffer is left alone, and all of it for len = 0 |
| LogRingBuffers.CounterWraps | perfetto/src/base/log_ring_buffer.h:81-82 | the wrapped counter addresses the same slot as the number of messages |
| LogRingBuffers.Appended | perfetto/src/base/log_ring_buffer.h:67-91 | one more message overwrites exactly the oldest |

## Left out

- ParentSplay: `subtree_maximum`, `minimum`, `maximum`, `empty`, `size` and the `data` field only read or carry along; freeing the erased node is not modelled.
- ParentSplay.SplayTree.Insert: the comparison is a strict weak order; nothing is stated for a `comp` that is not.
- Flatten.OutputToPftrace: what the track shows is stated for nested rows; for others, that its timestamps go back, and the claims on alternation, number of opens, labels and call paths. The name cut out of a row's call path is represented by the row; the encoding of the track file is left out.
- Samplers.RunKeeps: says nothing beyond the threshold, where a pending call watchpoint is also taken for a return; `Samplers.Sampler.OnRetWatchPoint` still models that branch.
- Samplers.Sampler.OnSample: one counter column stands for all events, what a counter reads is an input, and every requested watchpoint is granted.
- Samplers.Sampler.OnBranchWatchPoint: flags, registers and instruction bytes are abstract: where execution goes on is an input, an instruction is a class, a length and a direct target, and code does not change below the cache. A direct jump has its displacement.
- Samplers.Sampler.OnRetWatchPoint: the correction of an imprecise address is an input that succeeds or not; metrics stored per context are represented by the counters only.
- CodeCaches.CodeCacheManager.BeginAdd: compiled methods are values, so that deletion and dangling pointers are not modelled; `addMethod` without the uncompiled set is the same protocol with less in it. The invariant is claimed for an id compiled fewer than 2^32 times.
- CodeCaches.CodeCacheManager.RemoveMethod: the assertion around the removal is compiled in; without assertions the range would stay.
- LineTables.BciLookup: for tables sorted by start, as line tables are delivered.
- LineTables.CompiledMethod.LoadAddrLocationMap: addresses increase strictly, above the code start and within the code, as the assertions in the loop demand; the map is loaded once.
- LineTables.LineTree.LoadRanges: numbers are numbers on both sides; their printing in decimal or hexadecimal is left out.
- ContextTrees.ContextTree.AddContext: the names in a frame are carried along as one field; the lookup of a parent by id is left out.
- ContextTrees.ContextTree.Dump: a context either has metrics or not; an object is made for every context, as `createXMLObj` does for metrics.
- ContextManagers.ContextManager.AddContext: that the tree stays consistent is claimed for new ids only, since the code does not keep it so for repeated ones. The accumulation of metrics is left out.
- ContextXml.CreateMetricsObj: how a floating-point number is printed is an input.
- DumpReload.DumpText: the records of a dump are listed first and their objects printed afterwards; nothing changes in between. Contexts that several threads dumped into one file are not mixed.
- DumpReload.Reloaded: what the offline side computes from the metrics of a context is left out.
- Xml.ParseFile: the stack of open nodes is a sequence of values; cutting segments and open tags are functions, since the source does them with string expressions. Attributes may be printed in any order.
- Xml.RoundTrip: tags and keys are well-formed names and values hold no double quote, as the source demands of its callers; single quotes outside double quotes do not occur in such texts.
- HomoProtocol.ExactlyOnce: the critical sections of the worker list are single steps; parsing is a step that succeeds or fails depending on the chunk. `HomoProtocol.CanReturn` shows a way to the end from every state; that the scheduler takes it is fairness, which is not modelled.
- HomoSplit.CutPrinted: the level-one name is plain text, without the special characters of a regular expression.
- GnTargets.GnParser.GetTarget: only the transitive dependencies are modelled, not the flags, headers and paths gathered along with them; the assertions on names (buildtools, generated actions of proto libraries) are taken to hold, and descriptions are closed and acyclic.
- Base64.Base64Encode: bits are joined by sums of disjoint ranges instead of shifts and masks; the two wrappers that allocate the buffer are left out.
- LogRingBuffers.LogRingBuffer.Append: one thread at a time.
- Welford.UpdateVarianceAndMean: exact reals instead of rounded doubles.
- The JVM tool interface, perf events and their ring buffer, signal handling, the watchpoint library, instruction decoding, file naming, argument parsing and the rest of the vendored Perfetto tree are not part of this model.
