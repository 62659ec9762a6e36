# Verified models of ucore+ and its build tools

A Dafny model of eight cores of the ucore+ teaching kernel and of the tools that build it, with
proofs of what each of them is for. The modules of a component share a prefix and the
components do not depend on each other, except that the two Kconfig ones share expressions
and that optional values and powers of two are defined once, in `Common`.

* **Red-black tree** (`Rb*`). Nodes are heap objects with parent, left, right and colour; `nil` and
  the fake root are nodes like in the C code. A ghost shape with a zipper (`RbShape`) describes the
  tree around the node at work; `RbHeap` ties it to the heap. Insertion, deletion with its splice
  and fixup, search and the neighbour functions are proved in place. The `root` that the deletion
  fixup remembers may be stale after a rotation; that turns out to be harmless.
* **Refcache** (`Refcache*`). A state machine over any number of CPUs with the steps inc, dec, flush
  and review, invariants over all runs, and a class whose loops compute the machine's steps. Two
  claims that one might expect are false: onzero can be called while a reference is held, and the
  assertion on a zero delta can fail. Each is shown by a run from the zeroed start, and for all
  runs it is proved when exactly the assertion fails and what exactly the true count is at an
  onzero call. No object is lost either: once at 0 it is watched until it is freed or used again. The
  review walk ends after an object is put back, because its link then leads to the
  list head; the model does the same.
* **Kconfig expressions** (`KconfigExpr`, `KconfigEq`, `KconfigJoin`, `KconfigDups*`, `KconfigDistinct`,
  `KconfigSame`, `KconfigFlaw`). The simplifier of three-valued expressions with `expr_calc_value` as its meaning. The second
  duplicate pass does not return after its second branch and rounds m to n or y; the value is
  proved to be kept wherever it is not m, and an example shows that m is not always kept. In the
  result no two operands are equal or could be joined.
* **Dependency check** (`KconfigDeps`). The flag-based search, which abandons a symbol at the first
  cycle, proved to print nothing exactly when there is no reachable cycle, and a symbol of every cycle it
  has visited otherwise.
* **Page tables** (`PageTables`, `PageMemory`, `Pmm`, `PmmRange`). Tables live in page frames and entries
  hold frame numbers; the invariant says where each frame is linked. All walks are proved against
  one flat map from directory and page to entry, and reference counts against the number of leaf
  entries plus references held elsewhere.
* **Slab allocator** (`Slab*`). Layout arithmetic, free chains, lists, page tags, descriptors inside or
  outside the slab, `kmalloc` and `kfree`, up to the absence of leaks.
* **SLOB allocator** (`Slob*`). Headers are maps from unit address to size and link; the free list is
  proved circular, sorted, disjoint and never adjacent through splitting and coalescing. Four things
  go wrong and have their exact condition: a request of no bytes can hand out the arena, some sizes
  below a page fail an assertion, a block of no bytes can be taken for a big block when it is freed,
  and a big block gets too few pages if its size does not fit an int or is just above a power of two
  pages.
* **SFS image builder** (`Sfs*`). Number allocation, cached index blocks, appends and the bitmap,
  proved against the kernel's own reader of block maps.

`dafny verify dfyconfig.toml` checks everything.

## Model

| member | source | states |
|---|---|---|
| `RbDelete.Delete` | ucore/src/kern-ucore/libs/rb_tree.c:291-323 | for every valid tree and every node in it, the tree afterwards is valid again (linked both ways, nil and the fake root black, no red-red edge, equal black heights, sorted) and its in-order sequence is the old one with exactly that node removed |
| `RbDelete.DeleteLeafward` | ucore/src/kern-ucore/libs/rb_tree.c:291-323 | the case of a node with at most one child, up to and including the fixup |
| `RbDelete.DeleteInner` | ucore/src/kern-ucore/libs/rb_tree.c:291-323 | the case of two children: the successor is cut out and takes over all fields of the deleted node, also when it was that node's own child or its right subtree became nil |
| `RbDelete.Unlink` | ucore/src/kern-ucore/libs/rb_tree.c:298-307 | cutting out a node with at most one child leaves the rest linked, and the spliced node's parent (nil's too) points to the hole |
| `RbDelete.Replace` | ucore/src/kern-ucore/libs/rb_tree.c:311-319 | copying all fields and redirecting the neighbours puts one node in the place of another and changes no shape; nil's parent follows if the right subtree is empty |
| `RbDelete.Extreme` | ucore/src/kern-ucore/libs/rb_tree.c:181-185 | walking left (right) ends at the first (last) node of the subtree |
| `RbDelete.DeleteUndoesInsert` | ucore/src/kern-ucore/libs/rb_tree.c:132-323 | on sequences, deleting a node just inserted restores the old sequence |
| `RbFixup.Fixup` | ucore/src/kern-ucore/libs/rb_tree.c:243-285 | from a tree that is one black node short at one place, the fixup loop with its stale `root` restores all red-black rules and keeps the in-order sequence |
| `RbFixup.FixStep` | ucore/src/kern-ucore/libs/rb_tree.c:247-281 | one turn either finishes or moves the missing black node up, in either mirror image |
| `RbFixup.Case1` | ucore/src/kern-ucore/libs/rb_tree.c:250-255 | red sibling: turned into a black one at the same shortage |
| `RbFixup.Case2` | ucore/src/kern-ucore/libs/rb_tree.c:256-259 | black sibling with black children: the shortage moves to the parent |
| `RbFixup.Case3` | ucore/src/kern-ucore/libs/rb_tree.c:261-266 | inner nephew red: turned into outer nephew red at the same shortage |
| `RbFixup.Case4` | ucore/src/kern-ucore/libs/rb_tree.c:267-271 | outer nephew red: the shortage is gone and the whole tree obeys the rules |
| `RbInsert.Insert` | ucore/src/kern-ucore/libs/rb_tree.c:132-170 | every insertion keeps the full invariant, and the new in-order sequence is the old one with the node placed right after all elements that compare less than or equal to it |
| `RbInsert.InsertBinary` | ucore/src/kern-ucore/libs/rb_tree.c:113-129 | the node becomes a leaf whose left context compares less or equal and right context greater |
| `RbInsert.FindHole` | ucore/src/kern-ucore/libs/rb_tree.c:115-122 | the descent ends at the nil position the comparison determines |
| `RbInsert.PlacedBetween` | ucore/src/kern-ucore/libs/rb_tree.c:113-129 | placing after all not-greater elements is what splitting a sorted sequence there gives |
| `RbInsert.FixStep` | ucore/src/kern-ucore/libs/rb_tree.c:139-165 | one turn of the insertion loop moves a red-red edge up or removes it, without changing the sequence |
| `RbInsert.Repair` | ucore/src/kern-ucore/libs/rb_tree.c:132-170 | the loop ends in a tree without red-red edge and with a black root |
| `RbHeap.RbTree.Rotate` | ucore/src/kern-ucore/libs/rb_tree.c:79-101 | a rotation, left or right, rewrites the links so that the heap shows the rotated shape, in every context |
| `RbHeap.RbTreeCreate` | ucore/src/kern-ucore/libs/rb_tree.c:29-66 | a valid empty tree if all three allocations succeed, else NULL |
| `RbShape.PlugRb` | ucore/src/kern-ucore/libs/rb_tree.c:374-400 | a subtree that obeys the rules in a context that does makes a whole tree that does |
| `RbShape.UnplugRb` | ucore/src/kern-ucore/libs/rb_tree.c:374-400 | and conversely, with the black height the context demands |
| `RbQuery.Search` | ucore/src/kern-ucore/libs/rb_tree.c:228-237 | a node is found if and only if the sequence holds one that compares equal; it is the highest one; with n nodes at most 2*log2(n+1) nodes are looked at |
| `RbQuery.StepsBound` | ucore/src/kern-ucore/libs/rb_tree.c:374-400 | 2^depth is at most (n+1)^2 at every place of a red-black tree with n nodes |
| `RbQuery.Next` | ucore/src/kern-ucore/libs/rb_tree.c:177-196 | the result is the right neighbour in the in-order sequence, or NULL exactly at its end |
| `RbQuery.Prev` | ucore/src/kern-ucore/libs/rb_tree.c:202-221 | the result is the left neighbour, or NULL exactly at the beginning |
| `RbQuery.NeighboursUnique` | ucore/src/kern-ucore/libs/rb_tree.c:337-351 | neighbours are unique, so the two undo each other |
| `RefcacheRuns.FlushedBeforeDecision` | ucore/src/kern-ucore/mm/refcache.c:94-204 | in every run, whatever a review decides about an object (drop it, put it back, call onzero), every CPU completed a flush since the object was last queued |
| `RefcacheRuns.FlushedWhenDue` | ucore/src/kern-ucore/mm/refcache.c:94-197 | the same at every moment at which a queued object is due, reviewed or not |
| `RefcacheRuns.OnzeroSafety` | ucore/src/kern-ucore/mm/refcache.c:83-204 | whenever onzero is called in any run: since the object was last queued its global count was 0, no step evicted it and every CPU completed a flush; its true count is congruent to the deltas still cached, so it is 0 exactly if those cancel, as they do if nobody used it since |
| `RefcacheRuns.Conservation` | ucore/src/kern-ucore/mm/refcache.c:83-165 | in every reachable state, refcount plus the deltas cached on all CPUs equals incs minus decs modulo 2^32 |
| `RefcacheRuns.QueuesAndEpochs` | ucore/src/kern-ucore/mm/refcache.c:94-104 | in every reachable state each local epoch is the global one or one behind, the counter counts those behind, and an object is on exactly one review queue if and only if its review epoch is not 0 |
| `RefcacheRuns.History` | ucore/src/kern-ucore/mm/refcache.c:83-204 | the log of a queued object says exactly what happened since its last queueing: whether it was evicted, whether it was used, which CPUs completed a flush |
| `RefcacheRuns.StepInv` | ucore/src/kern-ucore/mm/refcache.c:83-204 | every step of any CPU keeps the invariant |
| `RefcacheRuns.InitInv` | ucore/src/kern-ucore/mm/refcache.c:49-66 | the zeroed start satisfies it |
| `RefcacheProofs.EvictInv` | ucore/src/kern-ucore/mm/refcache.c:83-107 | an eviction with a non-zero delta keeps it |
| `RefcacheProofs.BumpInv` | ucore/src/kern-ucore/mm/refcache.c:111-141 | an inc or dec keeps it, also through a hash conflict |
| `RefcacheProofs.FlushInv` | ucore/src/kern-ucore/mm/refcache.c:144-174 | a flush keeps it and the epoch accounting |
| `RefcacheProofs.ReviewInv` | ucore/src/kern-ucore/mm/refcache.c:176-210 | a review keeps it |
| `RefcacheProofs.OnzeroState` | ucore/src/kern-ucore/mm/refcache.c:186-202 | at an onzero call the count is 0, no eviction touched the object and all CPUs flushed since queueing |
| `RefcacheFlaws.FreedWhileReferenced` | ucore/src/kern-ucore/mm/refcache.c:176-216 | a run of two CPUs, flush and review always together as in a tick, that hand a reference over after each tick and see onzero called at true count 1: the unconditional claim is false |
| `RefcacheAssert.AssertFailsIff` | ucore/src/kern-ucore/mm/refcache.c:83-123 | in every run, an inc or dec of an object on a CPU fails the assertion on a zero delta exactly if another object was the last one used in its slot there since that CPU's last flush and that object's incs and decs there cancel modulo 2^32 |
| `RefcacheAssert.OnzeroCount` | ucore/src/kern-ucore/mm/refcache.c:83-204 | the true count of an object at an onzero call, in events alone: modulo 2^32 it is the object's incs minus decs on each CPU since the last flush that CPU completed, summed over all CPUs |
| `RefcacheAssert.TenantHeld` | ucore/src/kern-ucore/mm/refcache.c:111-165 | in every reachable state each way holds the object and the delta that the events of the run say |
| `RefcacheAssert.ZeroDeltaTrips` | ucore/src/kern-ucore/mm/refcache.c:83-123 | a run from the zeroed start after which counting a second object fails the assertion |
| `RefcacheLive.WatchedUntilOnzero` | ucore/src/kern-ucore/mm/refcache.c:83-204 | no object is lost: in every run, from the moment a CPU adds what it cached for an object to its count until a review calls onzero for it, the count is not 0 or the object is on a review queue |
| `RefcacheLive.FreedIff` | ucore/src/kern-ucore/mm/refcache.c:176-204 | in every run, a review calls onzero exactly for the objects on its queue that are due, at count 0 and clean and before which nothing is put back |
| `RefcacheLive.NothingDueLeft` | ucore/src/kern-ucore/mm/refcache.c:176-210 | in every run, a review that puts nothing back leaves nothing on its queue that is due |
| `RefcacheLive.DueSoon` | ucore/src/kern-ucore/mm/refcache.c:83-204 | in every run, whatever is queued is due at most three epochs later, and what a review has put back exactly two after it |
| `Refcache.RefcacheSystem.EvictWay` | ucore/src/kern-ucore/mm/refcache.c:83-107 | the in-place eviction computes the specified state |
| `Refcache.RefcacheSystem.Count` | ucore/src/kern-ucore/mm/refcache.c:111-141 | so do inc and dec |
| `Refcache.RefcacheSystem.FlushOne` | ucore/src/kern-ucore/mm/refcache.c:155-165 | so does one turn of the flush loop |
| `Refcache.RefcacheSystem.FlushCpu` | ucore/src/kern-ucore/mm/refcache.c:144-174 | so does the whole flush |
| `Refcache.RefcacheSystem.Decide` | ucore/src/kern-ucore/mm/refcache.c:185-203 | so does the decision on one queued object, including which objects are handed to onzero |
| `Refcache.RefcacheSystem.ReviewCpu` | ucore/src/kern-ucore/mm/refcache.c:176-210 | so does the whole review, whose walk ends right after it has put an object back |
| `KconfigExpr.TransformMeans` | ucore/package/config/expr.c:641-776 | expr_transform keeps the value in every three-valued valuation in which boolean symbols are never m |
| `KconfigExpr.TransformNormal` | ucore/package/config/expr.c:641-776 | its result has negations only directly above non-constant symbols and no comparison of a boolean with a constant left to rewrite |
| `KconfigExpr.TransformIdempotent` | ucore/package/config/expr.c:641-776 | transforming again changes nothing, and exactly normal expressions are left alone |
| `KconfigEq.ElimYNMeans` | ucore/package/config/expr.c:236-320 | expr_eliminate_yn keeps the value in every three-valued valuation |
| `KconfigEq.ElimYNShrinks` | ucore/package/config/expr.c:236-320 | it never grows the expression and shrinks it if there is a constant to remove |
| `KconfigEq.ElimYNClean` | ucore/package/config/expr.c:236-320 | it leaves no constant operand |
| `KconfigEq.ExprEqSound` | ucore/package/config/expr.c:194-234 | expr_eq true implies equal values in every three-valued valuation; the recursion through expr_eliminate_eq terminates |
| `KconfigEq.ElimEqOpSound` | ucore/package/config/expr.c:135-167 | removing equal operands of one operator factors both expressions exactly |
| `KconfigEq.ElimEqFactors` | ucore/package/config/expr.c:169-190 | expr_eliminate_eq removes one common factor under one operator: it recombines with both results to both original values |
| `KconfigEq.OnePass` | ucore/package/config/expr.c:169-190 | at most one of its two switches removes anything |
| `KconfigSame.EqualsItself` | ucore/package/config/expr.c:194-234 | expr_eq of an expression with itself is true, for every expression |
| `KconfigSame.EqualIffSame` | ucore/package/config/expr.c:194-234 | expr_eq of two conjunctions (disjunctions) of symbols, negated symbols and comparisons is true exactly if they have the same operands equally often, in any order and nesting |
| `KconfigSame.ElimEqTakesCommon` | ucore/package/config/expr.c:135-190 | of two such expressions expr_eliminate_eq leaves exactly the multiset differences of their operands |
| `KconfigJoin.ExtractEqSound` | ucore/package/config/expr.c:853-880 | expr_extract_eq moves out a common factor and loses nothing |
| `KconfigJoin.JoinOrMeans` | ucore/package/config/expr.c:351-413 | a joined disjunction has the value of both operands joined, for all types of symbols |
| `KconfigJoin.JoinAndMeans` | ucore/package/config/expr.c:415-507 | likewise for conjunctions |
| `KconfigJoin.JoinsIff` | ucore/package/config/expr.c:351-507 | two operands are joined exactly if they are equal or form one of the listed pairs, in either order, such as a='y' with a!='n' |
| `KconfigDups.Dups1` | ucore/package/config/expr.c:509-559 | terminates on two pointers into one tree, keeps its spine, and every counted rewrite leaves a constant to remove |
| `KconfigDups.Dups1Means` | ucore/package/config/expr.c:509-559 | keeps the value in every valuation that respects the symbols' types |
| `KconfigDups.Dups2` | ucore/package/config/expr.c:561-615 | terminates, though it falls through after its second branch, and keeps the same shape facts |
| `KconfigDupsProofs.CancelRounds` | ucore/package/config/expr.c:579-611 | a cancellation makes the spine n (or y); it keeps the value if and only if that was not m |
| `KconfigDupsProofs.Dups2Rounded` | ucore/package/config/expr.c:561-615 | the second pass keeps every value other than m |
| `KconfigDupsProofs.Round` | ucore/package/config/expr.c:617-637 | a round that counts a rewrite strictly shrinks the expression after expr_eliminate_yn; one that counts none changes nothing |
| `KconfigDupsProofs.EliminateDupsLoop` | ucore/package/config/expr.c:617-637 | the loop terminates, computes the fixed point and restores trans_count |
| `KconfigDupsProofs.EliminateDupsRounds` | ucore/package/config/expr.c:617-637 | in every valuation that respects types, expr_eliminate_dups keeps every value other than m |
| `KconfigDupsProofs.EliminateDupsMeans` | ucore/package/config/expr.c:617-637 | so it keeps the value wherever no symbol is m |
| `KconfigDupsProofs.EliminateDupsKeeps` | ucore/package/config/expr.c:617-637 | and every value, m included, if no round cancels operands that exclude each other |
| `KconfigDupsProofs.EliminateDupsDecides` | ucore/package/config/expr.c:617-637 | if a cancellation in some round leaves a constant that decides the whole expression, the result is never m, and a value is kept exactly if it is not m |
| `KconfigDistinct.EliminateDupsDistinct` | ucore/package/config/expr.c:509-637 | in the result no two operands of a conjunction or disjunction, at any depth outside negations, are equal or could be joined, and none is excluded by the others |
| `KconfigDistinct.IdleIff` | ucore/package/config/expr.c:617-637 | a round of the loop rewrites something exactly if such a pair is left |
| `KconfigDistinct.ComparedAll` | ucore/package/config/expr.c:509-559 | a first pass that rewrites nothing has compared every operand with every other one and has gone through those that are themselves operator nodes |
| `KconfigDistinct.TriedAll` | ucore/package/config/expr.c:561-615 | likewise the second pass, with every node of the spine as its second argument |
| `KconfigSame.ExcludesIff` | ucore/package/config/expr.c:580-609 | a part of a spine excludes an operand exactly if it has all operands of the operand's negation |
| `KconfigDupsProofs.EliminateDupsStable` | ucore/package/config/expr.c:617-637 | its result is a fixed point |
| `KconfigFlaw.ValueChanges` | ucore/package/config/expr.c:561-639 | a concrete expression and valuation where the value changes from m to n |
| `KconfigDeps.Checker.CheckAll` | ucore/package/config/zconf.tab.c:2134-2136 | after the loop over all symbols no warning was printed if and only if no dependency cycle can be reached from them; every line printed is a real cycle, in the order printed; every symbol was visited, no symbol is on two lines, every cycle through a visited symbol has a symbol on some line, and once the printed symbols are taken out no cycle can be reached |
| `KconfigDeps.Checker.CheckDeps` | ucore/package/config/symbol.c:789-828 | one search keeps flags, printed cycles and the order of finished symbols right, and ends at the symbol that closes the cycle; it terminates on cyclic graphs |
| `KconfigDeps.Checker.CheckExprDeps` | ucore/package/config/symbol.c:759-787 | the part that follows an expression |
| `KconfigDeps.Checker.CheckInfo` | ucore/package/config/symbol.c:802-817 | the part that reads reverse dependencies and properties: no dependency is missed unless a cycle is being reported |
| `KconfigDeps.Checker.CheckPropDeps` | ucore/package/config/symbol.c:807-816 | one property: which of its expressions count |
| `KconfigDeps.RankedCut` | ucore/package/config/symbol.c:789-828 | a ranking of the symbols not printed that falls along every dependency, except where that leads to a printed one, rules out that a cycle is reached without meeting a printed symbol |
| `KconfigDeps.CutByNothing` | ucore/package/config/symbol.c:789-828 | where nothing is printed that is the absence of reachable cycles, and the other way round |
| `KconfigDeps.AcyclicEverywhere` | ucore/package/config/symbol.c:789-828 | if all symbols are visited, that means no cycle at all |
| `PmmRange.CopyRange` | ucore/src/kern-ucore/mm/pmm.c:391-473 | copies exactly the pages below the stopping point and none at or above it; skipped subtrees hold no entry; on success every page's reference count grows by exactly its number of new mappings; failure only when memory has run out; the only frames used are new tables, each on the way to the copy of a mapped page |
| `PmmRange.CopyOnWrite` | ucore/src/kern-ucore/mm/pmm.c:391-473 | after an unshared copy both directories map the same page at every address of the range, neither with write permission, and the user bit is kept |
| `PmmRange.CopyShared` | ucore/src/kern-ucore/mm/pmm.c:391-473 | after a sharing copy the source is unchanged and the target maps the same pages with the same rights |
| `PmmRange.CopyCounts` | ucore/src/kern-ucore/mm/pmm.c:391-473 | each page gains exactly the mappings that are new |
| `PmmRange.CopyEntry` | ucore/src/kern-ucore/mm/pmm.c:409-454 | one page: entry, target table, permissions, both insertions |
| `PmmRange.SkipTable` | ucore/src/kern-ucore/mm/pmm.c:398-408 | which table is absent decides the distance skipped |
| `PmmRange.SkipCopies` | ucore/src/kern-ucore/mm/pmm.c:398-408 | nothing is mapped in what is skipped |
| `PmmRange.UnmapRange` | ucore/src/kern-ucore/mm/pmm.c:327-332 | unmaps exactly the pages in [start, end) of one directory and nothing else, and gives back exactly the pages that lose their last reference |
| `PmmRange.UnmapTable` | ucore/src/kern-ucore/mm/pmm.c:259-325 | the same for the part below one table of any level: offsets, sizes and indices of the three range walks |
| `PmmRange.UnmapEntry` | ucore/src/kern-ucore/mm/pmm.c:270-280 | one turn of such a walk, absent tables included |
| `PmmRange.UnmapLeaves` | ucore/src/kern-ucore/mm/pmm.c:244-257 | the same for one table of leaf entries |
| `PmmRange.UnmapPages` | ucore/src/kern-ucore/mm/pmm.c:209-215 | the simple loop of page_remove over the range has the same contract |
| `PmmRange.WalkIsPageByPage` | ucore/src/kern-ucore/mm/pmm.c:244-332 | from the same memory the walk through the levels and the simple loop end in the same mappings, reference counts and free frames |
| `Pmm.Memory.PageInsert` | ucore/src/kern-ucore/mm/pmm.c:163-183 | the entry maps the page with the given permissions and nothing else changes, or memory has run out and no mapping changed; a mapped page is given back exactly when its last reference goes |
| `Pmm.Memory.RemovePte` | ucore/src/kern-ucore/mm/pmm.c:129-153 | clears one entry; the page is freed exactly when its count reaches 0 |
| `Pmm.Memory.PageRemove` | ucore/src/kern-ucore/mm/pmm.c:209-215 | page_remove clears exactly one page |
| `Pmm.Memory.GetTable` | ucore/src/kern-ucore/mm/pmm.c:16-100 | get_pud, get_pmd and get_pte find the table if and only if it exists, create missing ones, only on the way to the page and from the only frames used, without changing any mapping, and fail only when no frame is free |
| `PageTables.WalkIsFlat` | ucore/src/kern-ucore/mm/pmm.c:16-100 | walking the tables gives the flat map's entry, for every directory and page: the radix tree refines the flat map |
| `PageTables.RightsAreFlat` | ucore/src/kern-ucore/mm/pmm.c:16-100 | the permissions that count, those set on all levels of the walk, are those of the flat map's entry, for every directory and page: no table entry takes any away |
| `PageTables.MissingIsEmpty` | ucore/src/kern-ucore/mm/pmm.c:398-408 | no entry lies under a table that is missing, at any level |
| `PageTables.WriteLeaf` | ucore/src/kern-ucore/mm/pmm.c:179-180 | writing one leaf entry changes the flat map at one page of one directory |
| `PageMemory.PoolRemove` | ucore/src/kern-ucore/mm/pmm.c:132-138 | the count stays the number of leaf entries plus held references, and the frame becomes free exactly at 0 |
| `PageMemory.GrowLayout` | ucore/src/kern-ucore/mm/pmm.c:26-38 | a new table in a fresh frame keeps all tables disjoint and linked in one place each |
| `SlabLayout.CacheEstimate` | ucore/src/kern-ucore/mm/slab.c:166-194 | the number is the largest that fits and the remainder is exact, on-slab and off-slab |
| `SlabLayout.CalculateOrder` | ucore/src/kern-ucore/mm/slab.c:203-234 | the order is the smallest that wastes at most an eighth, or the code panics |
| `SlabLayout.GetOrder` | ucore/src/kern-ucore/mm/slab.c:237-246 | the smallest power of two that is large enough; a panic exactly above 128 KB |
| `SlabLayout.InitCache` | ucore/src/kern-ucore/mm/slab.c:249-278 | objects lie aligned inside the slab and clear of an on-slab descriptor, for on-slab, off-slab and flipped caches |
| `SlabLayout.SlabInit` | ucore/src/kern-ucore/mm/slab.c:121-131 | none of the thirteen caches panics, and each off-slab cache keeps its descriptors in a smaller cache that is on-slab |
| `SlabLayout.SearchEnds` | ucore/src/kern-ucore/mm/slab.c:203-234 | at which order the search for a power-of-two size ends, and with how many objects |
| `SlabState.ChainPop` | ucore/src/kern-ucore/mm/slab.c:370-372 | allocation takes the head off the free chain |
| `SlabState.ChainPush` | ucore/src/kern-ucore/mm/slab.c:450-453 | freeing puts an index back in front |
| `SlabState.ChainInit` | ucore/src/kern-ucore/mm/slab.c:344-349 | a new slab's chain visits every index once |
| `SlabState.InUseCount` | ucore/src/kern-ucore/mm/slab.c:446-463 | inuse is the number of indices that are not on the chain |
| `SlabSteps.TakenInv` | ucore/src/kern-ucore/mm/slab.c:368-379 | allocating one object keeps the invariant: chains, lists split by inuse = num, page tags, owners |
| `SlabSteps.GivenInv` | ucore/src/kern-ucore/mm/slab.c:446-463 | freeing an object that is not the last keeps it |
| `SlabSteps.DroppedInv` | ucore/src/kern-ucore/mm/slab.c:424-463 | freeing the last object, which destroys the slab, keeps it |
| `SlabSteps.AddedInv` | ucore/src/kern-ucore/mm/slab.c:321-364 | adding a slab keeps it |
| `SlabSteps.SlotsDisjoint` | ucore/src/kern-ucore/mm/slab.c:368-379 | any two object slots, of whatever slabs and caches, are disjoint |
| `SlabSteps.ObjectInside` | ucore/src/kern-ucore/mm/slab.c:160-278 | every object lies inside its slab's pages, aligned, behind the descriptor |
| `SlabSteps.AddressSplits` | ucore/src/kern-ucore/mm/slab.c:450-483 | page and index are recovered from an object's address |
| `SlabSteps.NothingLeaks` | ucore/src/kern-ucore/mm/slab.c:424-463 | once callers have freed everything no slab is left and every page is back |
| `Slab.CallersObjects` | ucore/src/kern-ucore/mm/slab.c:368-379 | the objects callers hold are pairwise disjoint, 16-byte aligned, inside the pages of their slab and clear of every slab descriptor, on-slab or in another cache |
| `Slab.Allocator.AllocOne` | ucore/src/kern-ucore/mm/slab.c:368-379 | hands out an object nobody held |
| `Slab.Allocator.CacheAlloc` | ucore/src/kern-ucore/mm/slab.c:383-407 | takes the first slab with room, and only if there is none grows the cache; fails exactly if no slab has room and the page allocator refuses the pages of a new one or of its descriptor's, and then changes nothing; no idle slab is left behind |
| `Slab.Allocator.Grow` | ucore/src/kern-ucore/mm/slab.c:321-364 | adds a slab, its descriptor in place or allocated from a smaller cache, or returns the pages; it fails exactly if the page allocator refuses |
| `Slab.Allocator.CacheFree` | ucore/src/kern-ucore/mm/slab.c:446-487 | finds the slab through the page and frees exactly this object, and with the last one the slab and its descriptor |
| `Slab.Allocator.Kmalloc` | ucore/src/kern-ucore/mm/slab.c:411-419 | the object is from the smallest sufficient cache; NULL exactly if that cache has no room and cannot grow, and then nothing changes; panics exactly above 128 KB |
| `Slab.StuckByRefusal` | ucore/src/kern-ucore/mm/slab.c:321-407 | no allocation fails unless the page allocator refuses a request |
| `Slab.Allocator.Kfree` | ucore/src/kern-ucore/mm/slab.c:490-497 | takes exactly this object back; NULL is ignored |
| `Slob.Heap.SlobAlloc` | ucore/src/kern-ucore/mm/slob.c:105-158 | for every size: hands out a block of the rounded size disjoint from all live ones, from the beginning of a run of free units, and exactly its units cease to be free; the invariant holds afterwards exactly if more than one unit is asked for, or one and the search does not begin at the arena (after one unit the list is still well formed: what is lost is that the arena is on it and that no unit is both free and live); fails only if no free block fits and no page is to be had; obtains at most one page, and only if nothing fitted |
| `Slob.Heap.Scan` | ucore/src/kern-ucore/mm/slob.c:114-143 | first fit from slobfree: all blocks passed over are too small, and a full round proves that none fits |
| `Slob.Heap.Take` | ucore/src/kern-ucore/mm/slob.c:130-141 | the invariant is kept exactly if something was asked for and the block is not the arena; exactly the block's units leave the free list |
| `Slob.CarvedListed` | ucore/src/kern-ucore/mm/slob.c:130-139 | on every list of two blocks or more, the field updates leave a circular, sorted list of disjoint blocks that are never adjacent, without the block taken or with its tail, and with its predecessor, the new slobfree, still on it |
| `Slob.TakenTiled` | ucore/src/kern-ucore/mm/slob.c:130-137 | on the state: live blocks and the tiling survive every such step, and the arena keeps its place exactly if it is not the block taken |
| `Slob.Heap.SlobFree` | ucore/src/kern-ucore/mm/slob.c:160-192 | gives back exactly the block's units and keeps the whole invariant, through all four ways of coalescing |
| `Slob.Heap.FindPlace` | ucore/src/kern-ucore/mm/slob.c:172-175 | the search around the circle terminates at the block after which the address belongs |
| `Slob.Heap.Join` | ucore/src/kern-ucore/mm/slob.c:177-189 | the field updates of coalescing with the next and the previous block |
| `SlobList.FreedListed` | ucore/src/kern-ucore/mm/slob.c:177-189 | their result is one circular sorted list without adjacent blocks |
| `SlobList.StopsIff` | ucore/src/kern-ucore/mm/slob.c:173-175 | the stopping test holds at exactly one block of the circle |
| `Slob.Heap.Kmalloc` | ucore/src/kern-ucore/mm/slob.c:215-224 | a block of the right size behind its header; the invariant is lost exactly by a request of no bytes when the search begins at the arena; the assertion of slob_alloc fails exactly for sizes 4064 to 4079, although the guard lets them through |
| `SlobBig.Malloc.Kmalloc` | ucore/src/kern-ucore/mm/slob.c:215-243 | the whole of kmalloc: small requests from the heap, others on pages of their own with an entry on the list, which is taken back if there are no pages; what the heap loses is exactly the block or the entry, and nothing if the request fails |
| `SlobBig.Malloc.Kfree` | ucore/src/kern-ucore/mm/slob.c:250-276 | frees the big block that begins at the address, if there is one, with its entry and pages, and else exactly the small block; the heap gets back exactly its units |
| `SlobBig.SmallTakenForBig` | ucore/src/kern-ucore/mm/slob.c:250-276 | a small block has the address of a big one, so that kfree frees that one in its place, exactly if it is a single unit at the end of a page and the next page belongs to a big block |
| `SlobBig.WrongBlock` | ucore/src/kern-ucore/mm/slob.c:215-276 | such a block, reached by three calls of kmalloc from the fresh heap: kfree of it gives the big block back and leaves it live |
| `SlobBig.FindOrder` | ucore/src/kern-ucore/mm/slob.c:207-213 | find_order counts the halvings |
| `SlobBig.OrderQuotient` | ucore/src/kern-ucore/mm/slob.c:207-213 | the order is the smallest at which the halved size is at most a page |
| `SlobBig.OrderBounds` | ucore/src/kern-ucore/mm/slob.c:207-213 | without division: order k is given exactly to sizes from 4097 * 2^(k-1) to below 4097 * 2^k |
| `SlobBig.OrderCovers` | ucore/src/kern-ucore/mm/slob.c:207-230 | for every size_t, kmalloc asks for enough pages exactly if the size fits an int and is not strictly between 4096 * 2^k and 4097 * 2^k for any k |
| `SlobBig.OrderTooSmall` | ucore/src/kern-ucore/mm/slob.c:207-230 | an input for each failure: 8193 bytes get 8192, and 2^31 bytes get 4096 |
| `SlobFacts.Conserved` | ucore/src/kern-ucore/mm/slob.c:105-192 | free units plus live units are 1 plus the units of all pages obtained |
| `SlobFacts.Canonical` | ucore/src/kern-ucore/mm/slob.c:160-192 | coalescing is complete: the free list is determined by which units are free, so freeing what was just allocated restores it block by block |
| `SlobFacts.ZeroBytes` | ucore/src/kern-ucore/mm/slob.c:215-224 | on a fresh heap kmalloc of no bytes returns the unit behind the arena and leaves the arena both live and on the free list, where the next one-unit request finds it again |
| `SlobFacts.JoinKeepsList` | ucore/src/kern-ucore/mm/slob.c:177-189 | coalescing keeps the list well formed exactly if the block is not directly below the only free block |
| `SlobFacts.OnlyBlockJoined` | ucore/src/kern-ucore/mm/slob.c:177-189 | in that case the links lead around two overlapping blocks |
| `SfsImage.ReadBack` | ucore/src/kern-ucore/fs/sfs/sfs_inode.c:211-269 | what the kernel reads through direct, indirect and double-indirect entries of the closed image is the i-th appended number, and 0 beyond the end |
| `SfsImage.NumbersDistinct` | ucore/src/ht-mksfs/mksfs.c:181-198 | data numbers are distinct within and across files, from index blocks and from inodes, and below next_ino |
| `SfsImage.IndexBlocksDistinct` | ucore/src/ht-mksfs/mksfs.c:426-453 | every index block belongs to one place of one file |
| `SfsImage.Bitmap` | ucore/src/ht-mksfs/mksfs.c:343-360 | exactly the numbers never handed out are marked free, over all bitmap blocks |
| `SfsImage.MapClear` | ucore/src/ht-mksfs/mksfs.c:338-360 | the bitmap blocks, written from block 2 on, overwrite no data block, no index block and no inode |
| `SfsImage.FirstBehindMap` | ucore/src/ht-mksfs/mksfs.c:253-255 | the first number handed out is the one right behind the bitmap |
| `SfsImage.BitmapBlock` | ucore/src/ht-mksfs/mksfs.c:344-358 | one bitmap block, including the partial first and last |
| `SfsImage.FlushBlocks` | ucore/src/ht-mksfs/mksfs.c:363-368 | every cached index block reaches the disk and nothing else is touched |
| `SfsImage.SearchFinds` | ucore/src/ht-mksfs/mksfs.c:200-207 | the hash search would find a block only if its number hashes to bucket 0 |
| `Sfs.Image.AppendBlock` | ucore/src/ht-mksfs/mksfs.c:426-453 | appends exactly this number to exactly this file; too big exactly at 32768 blocks; out of space exactly if fewer numbers are left than the index blocks that become necessary, and exactly that many are used |
| `Sfs.Image.AppendData` | ucore/src/ht-mksfs/mksfs.c:578-592 | the same with a new number for the data, as the copying loops do; which of the two errors is met is exact here too |
| `Sfs.Image.UpdateCache` | ucore/src/ht-mksfs/mksfs.c:411-424 | a new index block for a zero entry, else the cached one, else the one the search finds; fails exactly when no number is left, or when the cached pointer is stale and the block is not in the bucket searched |
| `Sfs.Image.SearchCacheBlock` | ucore/src/ht-mksfs/mksfs.c:200-207 | the walk along the bucket finds a block exactly if its number hashes to bucket 0 |
| `Sfs.SingleEntry` | ucore/src/ht-mksfs/mksfs.c:438-440 | before every append behind the indirect block the cached pointer is the entry's block, so nothing is searched |
| `Sfs.DoubleEntry` | ucore/src/ht-mksfs/mksfs.c:443-447 | likewise for both lookups behind the double-indirect block |
| `Sfs.Image.AllocIno` | ucore/src/ht-mksfs/mksfs.c:181-188 | numbers are never repeated and unused_blocks + next_ino = ninos throughout |
| `Sfs.Image.AllocCacheBlock` | ucore/src/ht-mksfs/mksfs.c:190-198 | a new zeroed index block, filed in the bucket of the number asked for |
| `Sfs.Image.AddInode` | ucore/src/ht-mksfs/mksfs.c:209-221 | a new file with an inode number of its own |
| `Sfs.CreateSfs` | ucore/src/ht-mksfs/mksfs.c:244-277 | an image too small for its bitmap is refused; otherwise the empty image with its root satisfies the invariant |
| `SfsMap.NewLeaf` | ucore/src/ht-mksfs/mksfs.c:444-447 | a new leaf block, with a new double-indirect block for the first, changes no lookup |
| `SfsMap.WriteLeaf` | ucore/src/ht-mksfs/mksfs.c:448-449 | writing an entry behind the double-indirect block changes exactly one lookup |
| `SfsMap.WriteSingle` | ucore/src/ht-mksfs/mksfs.c:439-442 | likewise behind the indirect block |
| `SfsMap.Unaffected` | ucore/src/ht-mksfs/mksfs.c:411-453 | appends to one file leave every other file's lookups alone |

## Left out

- Slob.Heap.SlobAlloc: without the alignment branch; the arena is assumed not to touch any page.
- SlobBig.Malloc.Kmalloc: what the page allocator delivers, for the heap and for the big block, is a parameter; ksize is not modelled.
- RefcacheProofs.EvictInv: takes the assertion that the delta is not zero as given; `RefcacheAssert.AssertFailsIff` says when it fails.
- RefcacheRuns.OnzeroSafety: the callback is assumed not to touch the object or the queue, and epochs not to overflow.
- KconfigDupsProofs.EliminateDupsRounds: one direction only; without a cancellation m is kept too (`EliminateDupsKeeps`), and where one decides the whole expression m is never kept (`EliminateDupsDecides`). Whether a cancellation deep inside an expression reaches a value m depends on the values of all operands around it; `CancelRounds` says what it does to its own operand.
- KconfigDupsProofs.EliminateDupsKeeps: a sufficient condition, for the same reason.
- Slab.Allocator.AllocPages: what alloc_pages answers is a parameter, any function of the number of the request, the free pages and the order that names free pages or refuses. AllocPage of the page tables takes any free frame and fails only when there is none.
- Kconfig expressions are values: update in place, sharing between expressions and freeing are not captured (the aliasing of the two pointers inside one tree is); neither are NULL expressions, choice, range and list nodes, expr_trans_compare, expr_trans_bool and printing.
- Symbol values, types and strings are given by a valuation; sym_calc_value is not modelled.
- Page tables: the swap, I/O-page, ARM and TLB branches, exit_range, and the kernel half of a directory; addresses are counted in pages, since the functions assert alignment; 64-bit wrap-around of addresses cannot occur below USERTOP.
- Red-black tree: comparison is a total preorder on an integer payload; rb_tree_destroy is not modelled.
- Refcache: the ways start zeroed, which refcache_init leaves to the loader (its loop clears the way of the wrong index); each flush and each review is one step; spinlocks, interrupts and the cleaner thread are not modelled.
- Slab: 64-bit sizes of slab_t and kmem_bufctl_t; locks and interrupts, slab_allocated and check_slab.
- SFS: walking host directories, file contents, directory entries, inode fields other than the block map, and sizes in bytes; bitmap words are sequences of bits.
- Menu front ends, parser tables, system calls, drivers, boot tools, file system calls above the block map, modules and inter-processor interrupts: thin plumbing, generated code or code that rests on parts outside these files.
