# Skip lists and small concurrent protocols, verified

A Dafny model of the concurrent programs of this repository, with proofs of what they promise.

* **The extent skip list** (`skiplist/ref/skiplist.c`) stores disjoint ranges `[key, key + size)` in leaves of up to
  32 slots, threaded on up to 32 doubly linked levels. `Leaves`, `Towers` and `SkipLists` hold its memory: arrays,
  pointer towers, cursors and the set of locks the CPU holds. `Lookup`, `TowerLinks`, `Inserting`, `InsertPath`,
  `Cursors`, `InsertWalk`, `SkipInsert`, `TowerErase`, `SkipDelete` and `SkipHole` are its operations, each run alone
  and proved against the functions of `IndexSpec` and `Holes`; `IndexTheorems` says what these functions add up to
  over whole runs. `LevelSteps` and `LevelBodies` let link, erase and mark-dead bodies of many writers interleave on
  one level. `LeafStores` and `InsertTraces` go through an insert store by store, in the leaves and in the links of
  every level; `Traversals` is the lock-free lookup, one read at a time, whose reads fall anywhere between those
  stores, and `StillWalks` says what it does while nothing is stored.
* **The sequential skip list** (`skiplist/src/skiplist.c`): `Rings` are its circular lists, `RingLists` its operations
  on pointer towers, `RingSpec` and `RingRuns` what they mean: a map, whatever levels are drawn.
* **Protocols**, as steps of any number of threads over sequentially consistent memory, every theorem about all runs:
  the sense-reversing barrier (`Barriers`), tick-based transactions (`Transactions`), reference-counted RCU
  (`CountedRcu`) and the grace period that visits every CPU (`VisitRcu`).

`Sequences` and `Extents` are small supporting theories. `dafny verify dfyconfig.toml` checks everything.

## Assumptions and reading notes

* Keys, sizes and ticks are unbounded naturals (integers in the sequential list): `key + size`, `last_end + size` and
  `tick` are taken not to wrap. Slots and queries have a positive size, and `align` is a power of two, given as its
  exponent `k`. Slots never change once stored, so a slot pointer is a value.
* The arrays of a leaf have 33 entries, because the last turn of the shifting loop of `delete_slot` reads entry `nr`,
  one past the 32 usable ones when the leaf is full (`skiplist/ref/skiplist.c:1727-1729`). The value read is never
  used.
* An operation run alone retries nothing: every recheck after a lock succeeds, and the branches that start over are
  proved unreachable (`assert false`). Unreachable too are the `pending_level` branch of `find_or_add`
  (`skiplist/ref/skiplist.c:1309-1316`) and the `!cursor[0]` branch before the first leaf is linked (1283-1289).
* `skiplist_preload` has filled the entry of the token before an insert: `Inserting.Preloaded` says with what. Drawn
  levels are arbitrary.
* Lookup only looks into the leaf with min <= key < max, so a query that starts between two leaves returns NULL even
  if it runs into the next one (`skiplist/ref/skiplist.c:1343-1395`). A query whose key lies in some leaf is exact
  over the whole list, of whatever size: `Lookup.RangeLookupExactIff`.
* `skiplist_insert_hole` calls its hint the place to start from. When the hint lies past a leaf, `last_end` is reset
  to the end of that leaf (line 1537), so the result may precede the hint: `SkipHole.HoleBeforeHintIff` says when.
* On one level a link or erase body is one step (`LevelBodies` shows that the body amounts to that step): it holds the
  locks of `prev` and `next`, and rechecks them, from before its first store to after its last, so no other body on
  the same pointers runs in between.
* Between the stores of an insert, a traversal reads one pointer, `max` or `min` at a time (`Traversals.Read`), at any
  moments that do not go backwards; `smp_rmb` and `smp_wmb` keep that order. The scan of the leaf found is one step;
  the pointer it hit is read after it (`skiplist/ref/skiplist.c:1417-1419`), and `min` and `max` are read again after
  a miss. There is one writer and no dead node. `InsertTraces.QuietWorld` lays any list out in memory at rest, which
  is where `InsertTraces.InsertStores` starts. The new leaf is filled before anything leads to it, so its filling is
  not part of the trace. A full leaf whose slot goes past its end is split by linking a leaf with that slot alone.
* "Strictly to the right" in the locking rule means the order of level 0, the head being leftmost.
* `sl_insert` links levels from the top before it can meet a duplicate further down
  (`skiplist/src/skiplist.c:191-212`), so "a failed insert changes nothing" holds iff the drawn level is at most the
  height of the node present: `RingSpec.FailedInsertKeepsIff`; `RingSpec.DuplicateTallDangles` says what else it
  leaves.
* Thread steps are single loads, stores, atomic operations and lock operations. In `CountedRcu`, code that runs under
  `head->sp` and touches only what that lock protects is merged into one step; the waiting, freeing and publishing are
  steps of their own.

## Model

| member | source | states |
|---|---|---|
| `Leaves.Leaf.SlotLocked` | skiplist/ref/skiplist.c:392-459 | Binary search of a leaf: 0 and a slot that overlaps the range, or 1 exactly when the range is free in the leaf, with the only index that keeps the slots in order. |
| `Leaves.Leaf.SlotRcu` | skiplist/ref/skiplist.c:466-521 | Sequential search of the same leaf, with the same meaning of 0 and 1; a hit is the last slot that starts before the range ends. |
| `Leaves.SearchesAgree` | skiplist/ref/skiplist.c:392-521 | The two searches agree on hit or miss and on the index of a miss; on a hit the sequential one gives the last overlapping slot, the same one whenever only one overlaps. |
| `Extents.FreeIffSeparates` | skiplist/ref/skiplist.c:392-459 | A range is free in ordered slots exactly when one index separates them, and that index is the number of slots that end at or before the key. |
| `Leaves.Leaf.InsertShift` | skiplist/ref/skiplist.c:643-691 | Shifting a slot into a leaf with room puts it at its index, moves no other slot out of order, and raises `max` only when it goes last. |
| `Leaves.Leaf.FillUpperHalf` | skiplist/ref/skiplist.c:595-619 | The copying loops of a split give the new leaf the upper half of the old one, with the new slot in order when it belongs there, and the old `max`. |
| `Leaves.Leaf.KeepLowerHalf` | skiplist/ref/skiplist.c:622-631 | The old leaf of a split keeps its first 16 slots and its `max` becomes the end of the sixteenth. |
| `Leaves.Leaf.DeleteSlot` | skiplist/ref/skiplist.c:1723-1737 | Exactly one slot goes, the rest keep their order, and `max` is again the end of the last slot unless none is left. |
| `Towers.LinkBetween` | skiplist/ref/skiplist.c:266-277 | The stores of a link: a doubly linked level with the node spliced in after its predecessor, the head caching the last node; no other pointer of any node changes. |
| `Towers.Unlink` | skiplist/ref/skiplist.c:1697-1703 | The stores of an unlink: the level without the node, still doubly linked, the head caching the last node or NULL. |
| `SkipLists.SkipList.constructor` | skiplist/ref/skiplist.c:1800-1816 | A new list satisfies every invariant, has level 0 and no leaf. |
| `SkipLists.SkipList.FindLiveNext` | skiplist/ref/skiplist.c:110-119 | The first live node to the right on a level, or NULL. |
| `SkipLists.SkipList.FindLivePrev` | skiplist/ref/skiplist.c:90-108 | The first live node to the left on a level; NULL for the head. |
| `SkipLists.SkipList.LockNode` | skiplist/ref/skiplist.c:127-130 | May be called only on a node at whose level-0 position and right of which nothing is held, so locks are taken strictly rightwards and never twice. |
| `SkipLists.SkipList.UnlockNode` | skiplist/ref/skiplist.c:132-136 | May be called only on a held node or NULL, and gives up exactly that lock. |
| `SkipLists.SkipList.LinkOneLevel` | skiplist/ref/skiplist.c:238-280 | One level of a link with its locking and rechecks: the level gains the node after `prev`, every other level is as before, and the locks held are those held before. |
| `TowerLinks.LinkAfterNode` | skiplist/ref/skiplist.c:303-316 | Linking through `after` and then the cursor puts the node right of `after` on every level of its tower, every level staying the tall nodes of level 0 in order; the cursor entries used are never NULL. |
| `TowerLinks.LinkNode` | skiplist/ref/skiplist.c:289-296 | Linking through the cursor alone does the same. |
| `Cursors.AddToCursor` | skiplist/ref/skiplist.c:168-190 | The entry is set and the node is held, locked anew only when it is not already in the entry or the one above; the node pushed out is unlocked unless it is also the entry above. |
| `Cursors.AddLockedToCursor` | skiplist/ref/skiplist.c:195-213 | The entry is replaced; the node pushed out is unlocked unless it is also the entry above. |
| `Cursors.FreeCursorLocks` | skiplist/ref/skiplist.c:218-229 | With duplicates consecutive, every node of the cursor is unlocked exactly once and the cursor is cleared. |
| `InsertWalk.EnteredConsecutive` | skiplist/ref/skiplist.c:1251-1256 | Recording a node at the end of a level keeps duplicates in the cursor consecutive. |
| `InsertWalk.EntryPrecedes` | skiplist/ref/skiplist.c:303-316 | A cursor entry above the tower of the home leaf is not NULL and is the last node on its level at or before that leaf, which is what a split links after. |
| `Lookup.HomeIsUnique` | skiplist/ref/skiplist.c:1343-1395 | At most one leaf has min <= key < max. |
| `Lookup.LookupLeaf` | skiplist/ref/skiplist.c:1343-1395 | Run alone the traversal terminates with the leaf that has min <= key < max, or NULL when there is none, whatever the tower heights. |
| `Lookup.SkiplistLookup` | skiplist/ref/skiplist.c:1431-1457 | A slot is returned exactly when the leaf with min <= key < max has one that overlaps the query, and then such a slot; a stored slot that contains the key is never missed; no lock is left held. |
| `Lookup.SkiplistLookupRcu` | skiplist/ref/skiplist.c:1406-1424 | The lock-free lookup, run alone, answers by the same rule. |
| `Lookup.PointLookupExact` | skiplist/ref/skiplist.c:1406-1457 | For size 1 that rule is exact: a slot is found iff one contains the key, and it is that one. |
| `Lookup.RangeLookupExactIff` | skiplist/ref/skiplist.c:1343-1457 | A query of any size finds a slot iff some stored slot overlaps it, exactly when the key has a home leaf or nothing overlaps; so every query whose key lies in some leaf from min to max is exact over the whole list. |
| `Lookup.GapQueryMisses` | skiplist/ref/skiplist.c:1343-1457 | An instance of the other case: a query that starts between two leaves and runs into the second finds nothing. |
| `IndexSpec.FreeAtHomeIsFree` | skiplist/ref/skiplist.c:700-752 | The range is free in the whole list exactly when it is free in the home leaf and ends by the min of the leaf after it. |
| `InsertPath.CheckOverlap` | skiplist/ref/skiplist.c:700-718 | 0 exactly when the range ends by the min of the next leaf, with no lock left over. |
| `InsertPath.FindOrAddKey` | skiplist/ref/skiplist.c:725-752 | In the home leaf of the key: 0 and the specified insert when the range is free in the whole list, otherwise -EEXIST and nothing changed. |
| `Inserting.TakePreload` | skiplist/ref/skiplist.c:543-563 | The leaf taken for a split is the one for the token, or the one of height 0 in reserve, if there is one, when the full leaf is tall and the token leaf no taller; its entry is cleared. |
| `Inserting.AddKeyToLeaf` | skiplist/ref/skiplist.c:530-693 | The leaf gains the slot, or becomes two leaves that hold its slots and the new one in order; the towers, `max`, the leaf sizes and `list->level` are right afterwards. |
| `IndexSpec.InsertRefines` | skiplist/ref/skiplist.c:530-693 | The specified insert puts the slot in its place in the concatenation of all leaves and keeps every invariant: 1 to 32 slots a leaf, all in order, the level up by at most one. |
| `IndexSpec.InsertHeights` | skiplist/ref/skiplist.c:543-571 | The towers: no leaf's height changes; a split of a leaf that is lower than the drawn level, or of height 0, adds a leaf of the drawn level and raises the list's level to it; with a reserve, a split of any other leaf adds one of height 0. |
| `IndexSpec.SplitsEvenly` | skiplist/ref/skiplist.c:580-640 | Only a full leaf is split; one past the end leaves it whole, any other leaves both leaves at least half full. |
| `InsertWalk.LockLeaf` | skiplist/ref/skiplist.c:1139-1150 | The next leaf is locked, to the right of everything held, and run alone the recheck never fails. |
| `InsertWalk.WalkLocked` | skiplist/ref/skiplist.c:1111-1249 | One level with the lock in hand: the leaf that takes the key, with exactly it and the cursor held, or the last node before the key, with exactly it and the cursor held. |
| `SkipInsert.VerifyKeyInPath` | skiplist/ref/skiplist.c:915-1015 | Run alone it succeeds at once, with the node locked and nothing else. |
| `SkipInsert.StartCursor` | skiplist/ref/skiplist.c:1087-1109 | The start level skips empty levels only, and the cursor holds the locked head from there up to `pending_level`. |
| `SkipInsert.TryLast` | skiplist/ref/skiplist.c:1061-1078 | The shortcut takes the last leaf only when it is the home of the key and a split there would need no cursor. |
| `SkipInsert.Descend` | skiplist/ref/skiplist.c:1111-1278 | The descent ends at the home leaf with exactly it and the cursor held and every entry a split needs in place, or at the bottom of an empty list. |
| `SkipInsert.InsertFirst` | skiplist/ref/skiplist.c:1280-1303 | Into an empty list: one leaf with the slot, linked on every level of its tower, and no lock held. |
| `SkipInsert.SkiplistInsert` | skiplist/ref/skiplist.c:1025-1330 | Run alone: 0 and the specified insert exactly when the range is disjoint from every stored slot, otherwise -EEXIST and nothing changed; every invariant holds and no lock is held. |
| `IndexTheorems.AscendingFillIsPacked` | skiplist/ref/skiplist.c:580-593 | Inserting n disjoint slots in ascending order into an empty list gives ceil(n/32) leaves, all full but perhaps the last, for every sequence of drawn levels. |
| `TowerErase.EraseOneLevel` | skiplist/ref/skiplist.c:1652-1708 | One level of an erase of a dead node: that level loses it, the others keep theirs, and no lock is left held. |
| `TowerErase.SlErase` | skiplist/ref/skiplist.c:1710-1717 | The dead node is gone from every level of its tower and everything else is in place. |
| `IndexSpec.DeleteRefines` | skiplist/ref/skiplist.c:1723-1797 | The specified delete takes one slot out of the concatenation of all leaves and keeps every invariant; a leaf goes exactly when it loses its only slot. |
| `SkipDelete.RemoveLeaf` | skiplist/ref/skiplist.c:1781-1790 | A leaf that loses its only slot is on no level afterwards. |
| `SkipDelete.SkiplistDelete` | skiplist/ref/skiplist.c:1753-1797 | Run alone: the slot returned overlaps the query and is the one slot taken out, NULL means nothing changed and no slot contains the key, every invariant holds and no lock is held. |
| `IndexTheorems.DeleteTakesOne` | skiplist/ref/skiplist.c:1753-1797 | The slot returned was stored, the concatenation of all leaves is the old one without it, and the invariants hold. |
| `IndexTheorems.DeleteUndoesInsert` | skiplist/ref/skiplist.c:1025-1797 | Deleting any point of a range just inserted returns that slot and restores the stored sequence. |
| `IndexTheorems.RunRefinesSet` | skiplist/ref/skiplist.c:1025-1797 | After any run of inserts, hole inserts and deletes from an empty list every invariant holds and the stored slots are those inserted with result 0 less those returned by deletes. |
| `IndexTheorems.LookupAfterRun` | skiplist/ref/skiplist.c:1406-1797 | After any such run, looking up a point finds the slot inserted there and not deleted since, and nothing else. |
| `Holes.AlignStartIsLeast` | skiplist/ref/skiplist.c:1461-1464 | Rounding gives the least multiple of a power of two at or past the value. |
| `Holes.ScanLeavesIsScan` | skiplist/ref/skiplist.c:1548-1589 | Walking leaf by leaf finds what walking the concatenated slots finds. |
| `Holes.ScanSkipsNoRoom` | skiplist/ref/skiplist.c:1548-1595 | From any start and over any stored keys the walk passes over no aligned free place. |
| `Holes.ScanBetweenKeys` | skiplist/ref/skiplist.c:1548-1595 | No stored slot begins inside the range it offers. |
| `Holes.ScanFromZero` | skiplist/ref/skiplist.c:1548-1589 | From 0, over slots whose keys are all aligned, the walk offers the least aligned free place, or nothing exactly when that place does not end by the limit. |
| `SkipHole.WalkHoles` | skiplist/ref/skiplist.c:1548-1589 | The walk over the leaves hand over hand computes the specified scan. |
| `SkipHole.SkiplistInsertHole` | skiplist/ref/skiplist.c:1483-1637 | For every hint and any stored keys: on 0 the key is a multiple of `align`, the range ends by `limit` and was free, and the slot is in place; no aligned free place lies from the hint up to the place tried, and -EEXIST means that all of them end past `limit`; -EAGAIN means that a slot begins before the place tried and reaches past it; otherwise nothing changed. The walk starts, for a hint in no leaf, after the last leaf that ends by it. With hint 0 and aligned keys, an exact first-fit allocator that never returns -EAGAIN. |
| `SkipHole.HoleBeforeHintIff` | skiplist/ref/skiplist.c:1525-1589 | A hint in no leaf is no lower bound: the key tried lies before it iff the end of the last leaf that ends by the hint, rounded up, lies before it and leaves room before the next leaf. |
| `SkipHole.HoleBeforeHintOnly` | skiplist/ref/skiplist.c:1525-1589 | For any hint, a key before it is past the end, rounded up, of a leaf the walk started after. |
| `LevelBodies.LevelList.LinkBody` | skiplist/ref/skiplist.c:238-280 | The link body, started with any number of dead nodes not yet unlinked, performs the link step and keeps the invariant of the level. |
| `LevelBodies.LevelList.EraseBody` | skiplist/ref/skiplist.c:1652-1708 | The erase body on any dead node, still reachable or not, performs the erase step, keeps the invariant and leaves the node unreachable. |
| `LevelSteps.RunKeepsInv` | skiplist/ref/skiplist.c:238-280 | Under any interleaving of link bodies, erase bodies, mark-dead steps and moves of a live leaf's least key, the live nodes of a level stay in the order of their current least keys and doubly linked through any dead ones. |
| `LevelSteps.MoveKeepsInv` | skiplist/ref/skiplist.c:1183-1197 | A live leaf's least key may change to anything between those of its live neighbours, whatever keys the dead nodes between had. |
| `LevelSteps.LinkAddsLive` | skiplist/ref/skiplist.c:266-277 | A link puts the node among the live ones right after its live predecessor, with its least key, and find_live_next leads from the predecessor to it and from it to the old successor. |
| `LevelSteps.MarkDropsLive` | skiplist/ref/skiplist.c:1787-1787 | Marking takes exactly that node out of the live ones. |
| `LevelSteps.EraseKeepsLive` | skiplist/ref/skiplist.c:1652-1708 | Erasing leaves the live nodes and their keys as they were. |
| `LevelSteps.MoveKeepsLive` | skiplist/ref/skiplist.c:1183-1197 | Putting a slot in front of a leaf changes that leaf's least key and no other, and no node or pointer. |
| `LevelSteps.LiveAfterRun` | skiplist/ref/skiplist.c:238-280 | After any run a node is live on the level exactly when it has been linked and not been marked. |
| `LevelSteps.LiveNeighboursInverse` | skiplist/ref/skiplist.c:90-119 | In every such state find_live_next and find_live_prev are inverse to each other on live nodes and follow the order of the current least keys. |
| `LevelSteps.CachedLastIsLive` | skiplist/ref/skiplist.c:90-119 | The last pointer cached in the head leads to the last live node: it is that node, or a dead one whose live predecessor it is. |
| `LevelSteps.DeadPointersFrozen` | skiplist/ref/skiplist.c:1652-1708 | No step changes the pointers of a dead node. |
| `LevelSteps.ErasedForever` | skiplist/ref/skiplist.c:1652-1708 | Once erased, a node is unreachable by `next` from the head in every later state. |
| `LevelSteps.FollowIsChain` | skiplist/ref/skiplist.c:238-280 | The sequence the invariant speaks of is exactly what `next` reaches from the head. |
| `LeafStores.JugglingGood` | skiplist/ref/skiplist.c:643-679 | In the middle of a shift, between any two stores, a scan for a point of an old slot finds it or notices the writer. |
| `LeafStores.AddKeyStores` | skiplist/ref/skiplist.c:530-693 | The stores of add_key_to_leaf in the two leaves, one by one: they end in the specified leaf or leaves, and in every state between two of them a scan of either for a point of an old slot finds it or waits, except in the old leaf once its `max` is down. |
| `InsertTraces.LinkLevel` | skiplist/ref/skiplist.c:266-277 | The four stores of a link on one level, one by one: next and prev of the new node, next of its predecessor, prev of its successor or of the head. |
| `InsertTraces.LinkNode` | skiplist/ref/skiplist.c:303-316 | The stores of the whole tower from level 0 up, after the split leaf and then after the cursor: the new node is linked on exactly its levels, and between any two stores exactly the levels done so far lead to it. |
| `InsertTraces.LinksInverse` | skiplist/ref/skiplist.c:266-316 | After the last of them prev undoes next on every level, the new node included, and the head caches the last node. |
| `InsertTraces.InsertStores` | skiplist/ref/skiplist.c:530-693 | All stores of the insert of a free range into its home leaf in order, links and leaves: they end in the specified leaves, and every state between two of them is one the traversal theorems speak of; a split whose slot goes into the lower half passes through the state in which a lookup can lose a slot. |
| `Traversals.ReadKeepsSane` | skiplist/ref/skiplist.c:1343-1395 | One read of the lock-free traversal, in any such state: it is never led past the leaf that holds the point. |
| `Traversals.TraversalNeverNull` | skiplist/ref/skiplist.c:1343-1395 | With its reads falling between those stores in any way, the traversal for a point stored before ends at the leaf that held it, or at the one split off that leaf, or starts over; never at NULL. |
| `Traversals.LookupNeverAbsent` | skiplist/ref/skiplist.c:1406-1424 | So the whole lock-free lookup, traversal, scan and recheck, finds the slot stored there or starts over, when the pointer of the entry hit is read along with the scan: it never answers "absent" for a point stored before the insert began. |
| `Traversals.LookupAbsentIff` | skiplist/ref/skiplist.c:1406-1424 | With that pointer read at a moment of its own, as line 1419 does, the lookup answers "absent" for a stored point in one case exactly: a split puts its slot in the lower half, the scan hit the first entry it gives away before `nr` went down, and the pointer is read while that entry, reopened by the shift, holds NULL. |
| `StillWalks.CheckAgainIff` | skiplist/ref/skiplist.c:1363-1376 | If nothing was stored since `next` was read, the second look at prev makes a traversal start over in one state exactly: on its way from a new node that has been made reachable on this level but is not yet what its successor points back to. |
| `StillWalks.AgainNeedsStore` | skiplist/ref/skiplist.c:1357-1376 | In the course of an insert a traversal starts over only if a store fell between two of its reads, or it read in such a state. |
| `StillWalks.StillFinds` | skiplist/ref/skiplist.c:1343-1395 | Left alone at any other moment of an insert, a traversal for a point stored before ends at the leaf that held it or the one split off it. |
| `StillWalks.QuietWalkEnds` | skiplist/ref/skiplist.c:1343-1395 | In a list at rest every traversal ends, without starting over: at the leaf with min <= key < max, or with NULL when there is none. |
| `StillWalks.QuietLookupEnds` | skiplist/ref/skiplist.c:1406-1424 | And the whole lock-free lookup of a point answers truly: the slot that contains it, or "absent" when none does. |
| `StillWalks.LookupMisses` | skiplist/ref/skiplist.c:1419-1419 | In any list, for every such insert, a lookup that does answer so: all but the last read come before the insert. |
| `Rings.ListAdd` | skiplist/src/skiplist.c:46-59 | The link is spliced into the ring after `prev`, which stays doubly linked; no other pointer changes. |
| `Rings.ListDel` | skiplist/src/skiplist.c:61-72 | The ring without the link, which points to itself afterwards; no other pointer changes. |
| `RingLists.RingList.constructor` | skiplist/src/skiplist.c:127-141 | A new list is valid, with level 0, size 0 and empty rings. |
| `RingLists.RingList.SlSearch` | skiplist/src/skiplist.c:155-177 | Returns the value the list maps the key to, or NULL. |
| `RingLists.RingList.SlInsert` | skiplist/src/skiplist.c:179-213 | 0 exactly for an absent key, with the node in every level up to the drawn one; -EEXIST otherwise, the node freed and every level as specified; the list is valid afterwards except in the case of a drawn level above the height of the present node. |
| `RingLists.RingList.SlErase` | skiplist/src/skiplist.c:215-244 | 0 exactly for a present key: its node is off every level and freed, `size` is down by one and `level` is the highest level left non-empty; -EINVAL and no change otherwise. |
| `RingLists.RingList.LevelFollows` | skiplist/src/skiplist.c:227-231 | Lowering the level once for each level emptied keeps it the highest non-empty level after every single unlink. |
| `RingSpec.SublistOfBelow` | skiplist/src/skiplist.c:155-213 | Each level is a sublist, in order, of the level below it. |
| `RingSpec.InsertKeepsGood` | skiplist/src/skiplist.c:179-209 | Inserting an absent key keeps every level sorted and stacked, makes the level exact, and adds exactly that key to the map. |
| `RingSpec.EraseKeepsGood` | skiplist/src/skiplist.c:215-244 | Erasing a present key keeps every level sorted and stacked, leaves the level exact, and removes exactly that key from the map. |
| `RingSpec.EraseUndoesInsert` | skiplist/src/skiplist.c:179-244 | Inserting an absent key and erasing it restores the sequence of every level, and `level` too, except that 0 of an empty list becomes -1. |
| `RingSpec.DuplicateShortKeeps` | skiplist/src/skiplist.c:188-200 | Inserting a present key with a drawn level no greater than the height of its node changes nothing. |
| `RingSpec.DuplicateTallDangles` | skiplist/src/skiplist.c:188-212 | With a greater drawn level the freed node stays linked on exactly the levels above that height. |
| `RingSpec.DuplicateTallLevel` | skiplist/src/skiplist.c:188-189 | The list level is then again the highest non-empty one, counting the node left linked. |
| `RingSpec.FailedInsertKeepsIff` | skiplist/src/skiplist.c:188-212 | An insert of a present key changes nothing iff the drawn level is at most the height of the node present. |
| `RingSpec.SizeOfMap` | skiplist/src/skiplist.c:207-233 | The number of nodes on level 0, which `size` counts, is the number of keys of the map. |
| `RingRuns.StepIsMapStep` | skiplist/src/skiplist.c:155-244 | Each operation does to the map what it should, and the level is exact once it was or once anything has changed. |
| `RingRuns.RunIsMapRun` | skiplist/src/skiplist.c:155-244 | Every run refines the same run on a map; its size and level stay right. |
| `RingRuns.HeightsDoNotMatter` | skiplist/src/skiplist.c:96-107 | Two lists built by the same operations with different drawn levels answer every search alike and have the same size. |
| `Barriers.StepKeepsInv` | barrier/centralized_barrier.h:44-59 | Every line of every thread keeps the invariant: the count is the number of arrivals, senses follow the number of calls, the flag the number of episodes. |
| `Barriers.NoneLeavesEarly` | barrier/centralized_barrier.h:44-59 | In every run no thread returns from its k-th call before all n have begun theirs, and the episodes of two threads differ by at most one. |
| `Barriers.FlipWaitsForAll` | barrier/centralized_barrier.h:50-57 | When `flag` is stored it flips, and every other thread spins in the episode that ends: none of the previous episode is still waiting. |
| `Barriers.OnlyTheLastFlips` | barrier/centralized_barrier.h:50-57 | No step but that store changes `flag`. |
| `Barriers.StepsDecrease` | barrier/centralized_barrier.h:46-57 | Every step that is not waiting lowers a measure over the calls left, the place in the call and the spinners. |
| `Barriers.SomeThreadMoves` | barrier/centralized_barrier.h:46-57 | No deadlock in an episode all enter: in every reachable state, if every thread makes at least m calls and some has not returned from its m-th, some thread need not wait, however many calls each makes. |
| `Barriers.FairRunsComplete` | barrier/centralized_barrier.h:46-57 | Every fair run completes every episode that all threads enter: if every thread makes at least m calls, all return from their m-th after enough turns each. |
| `Barriers.EqualRunsFinish` | barrier/centralized_barrier.h:46-57 | Threads that make equally many calls all return from their last. |
| `Transactions.CommittedAreDisjoint` | transactional_memory/tsm.h:46-57 | In every run the intervals from begin to commit of committed transactions are disjoint and in key order. |
| `Transactions.DataIsGreatestKeys` | transactional_memory/test_tsm.c:11-27 | In every run in which all threads return, `data` ends as the thread with the greatest committed key. |
| `Transactions.CommitsIff` | transactional_memory/tsm.h:46-57 | A thread about to commit succeeds iff no other transaction began since its own did; otherwise it starts again. |
| `Transactions.AloneReturns` | transactional_memory/test_tsm.c:11-27 | From any state a thread left alone returns within five steps; if it was yet to begin, `data` ends as its own. |
| `Transactions.IsolatedIff` | transactional_memory/test_tsm.c:15-25 | A thread with the newest key about to write finds `data` its own at every later successful commit of that key, in every run, iff no other thread is about to write at that moment. |
| `Transactions.AbortedWriteLandsBetween` | transactional_memory/test_tsm.c:15-25 | A run in which the write of a thread that must retry lands between the write of another and its commit. |
| `CountedRcu.StepKeepsInv` | rcu/locked-rcu/rcupdate.h:83-184 | Every step keeps the invariant, load and increment of the read lock being steps of their own, as long as no increment comes too late for the node loaded. |
| `CountedRcu.FreedHaveNoReaders` | rcu/locked-rcu/rcupdate.h:83-184 | In every run whose increments all come while the node is in use and not already seen at count 0 by the thread freeing it, each `count` is the number of active readers of its node, and no active reader is on a freed node. |
| `CountedRcu.AtomicRunsAreSound` | rcu/locked-rcu/rcupdate.h:83-184 | Runs in which load and increment are one step meet that condition, so the same holds of them. |
| `CountedRcu.JoinKeepsInvIff` | rcu/locked-rcu/rcupdate.h:87-90 | An increment keeps the invariant iff the node loaded is current or retired and is not the one being freed after its count was seen at 0. |
| `CountedRcu.JoinIsSafeIff` | rcu/locked-rcu/rcupdate.h:87-90 | Exactly under that condition no later run of safe increments frees a node under a reader. |
| `CountedRcu.RetiredOnlyDrains` | rcu/locked-rcu/rcupdate.h:87-92 | The count of a node that is not current goes up only when a reader that loaded it before increments it, and a retired node never becomes current again. |
| `CountedRcu.EachObjectOnce` | rcu/locked-rcu/rcupdate.h:118-176 | Given objects neither current nor freed, in every run the freed, retired and current nodes together hold each object once. |
| `CountedRcu.RunKeepsObjects` | rcu/locked-rcu/rcupdate.h:118-176 | No published node drops out of freed, retired and current together. |
| `CountedRcu.AssignKeepsApartIff` | rcu/locked-rcu/rcupdate.h:118-151 | One assignment leaves every published node with an object of its own iff its object is neither current nor already freed. |
| `CountedRcu.CurrentObjectFreed` | rcu/locked-rcu/rcupdate.h:133-143 | Assigning the object that is current gets it retired and freed while it is current: the scan does not look at the current node. |
| `CountedRcu.SplitReadLockFails` | rcu/locked-rcu/rcupdate.h:87-90 | With load and increment apart, as in the code, a node can be freed in between and then counted as read. |
| `CountedRcu.ReadersFollowOps` | rcu/locked-rcu/rcupdate.h:83-96 | In every run a thread is inside a read-side section, or between its load and its increment, exactly when its own operations say so. |
| `CountedRcu.SectionKeepsNode` | rcu/locked-rcu/rcupdate.h:83-96 | A section stands on the node that was current when its lock loaded it until it ends, and that node is not freed meanwhile. |
| `CountedRcu.AssignPublishes` | rcu/locked-rcu/rcupdate.h:118-151 | An assignment makes a node for the new object current and retires the old one, unless the object is already retired, when it changes neither. |
| `CountedRcu.WaitsIff` | rcu/locked-rcu/rcupdate.h:153-165 | synchronize_rcu waits for a node exactly while some reader is on it. |
| `CountedRcu.SynchronizeFrees` | rcu/locked-rcu/rcupdate.h:153-180 | With no reader left on a retired node, it frees all of them in the order they were retired, empties the list and unlocks. |
| `VisitRcu.DepthIsNesting` | rcu/classic-rcu/rcu.h:114-122 | In every run each CPU is as deep in sections as its read locks less the unlocks that match them. |
| `VisitRcu.WaitsForReaders` | rcu/classic-rcu/rcu.h:146-151 | In every run, as long as a CPU that was in a section when synchronize_lrcu began has not left it, the walk is not past that CPU and the old pointers are not forgotten. |
| `VisitRcu.GracePeriodEnds` | rcu/classic-rcu/rcu.h:146-164 | With no CPU in a section synchronize_lrcu runs to its end, and the buffer is NULL. |
| `VisitRcu.LoadedIsHeld` | rcu/classic-rcu/rcu.h:102-112 | A dereference inside a section gives the pointer in force, which is held until the section is left. |
| `VisitRcu.LoadedIsNotReclaimed` | rcu/classic-rcu/rcu.h:102-164 | In every run such a pointer is not reclaimed before that, however many grace periods end. |
| `VisitRcu.GracePeriodHolds` | rcu/classic-rcu/rcu.h:148-164 | In every run, over any number of CPUs, when the walk is over every section active at its start has ended. |
| `VisitRcu.ReclaimedAreUnheld` | rcu/classic-rcu/rcu.h:114-164 | In every run no reader holds a pointer replaced before the last completed grace period started. |
| `VisitRcu.BufferHoldsReplaced` | rcu/classic-rcu/rcu.h:47-110 | In every run, whatever the uninitialised buffer held, from the first time it is NULL, which the first grace period brings about, it is the pointers replaced since the last grace period started, in order, then NULL. |
| `VisitRcu.ClearClears` | rcu/classic-rcu/rcu.h:158-159 | The end of a grace period leaves the buffer NULL. |
| `VisitRcu.AssignTakesEffectIff` | rcu/classic-rcu/rcu.h:58-110 | In runs whose updater assigns only between grace periods, and from the first time the buffer is NULL, an assignment takes effect iff fewer than ten pointers wait for a grace period and the pointer in force is not NULL. |
| `VisitRcu.LrcuData.CollectOldPointer` | rcu/classic-rcu/rcu.h:58-82 | The old pointer goes into the first NULL slot and is returned; with no such slot NULL is returned and nothing changes. |
| `VisitRcu.LrcuData.ClearList` | rcu/classic-rcu/rcu.h:158-159 | Every slot is NULL afterwards. |

## Left out

- Locks and retries of the extent skip list under contention: whole operations are proved run alone; interleaving is
  proved for the bodies on one level and for the stores of one insert.
- Scans of a leaf that are not atomic: a lock-free scan is one step between two stores of the writer.
- Traversals.LookupNeverAbsent: reads the pointer of the entry hit in the step of the scan, because with a step of its
  own the claim fails, exactly as `Traversals.LookupAbsentIff` says.
- The lock-free lookup theorems: one insert at a time, and no erase, while the lookup is under way; points, not
  ranges.
- Memory reclamation of leaves: `sl_free_leaf` and its RCU callback; an erased leaf simply stays allocated.
- `skiplist_preload`, the random levels and the allocators: what they provide is an argument, and `-ENOMEM` never
  occurs.
- Inserting.AddKeyToLeaf: the preload entries other than the one used are not tracked from one insert to the next.
- Memory orderings and fences: memory is sequentially consistent.
- Preemption, per-CPU data, CPU hotplug, kprobes, module loading, benchmarks and printing.
- `sl_delete` of the sequential list, which frees every node; and `random_level`, whose result is an argument.
- RingLists.RingList.SlInsert: what later operations do with a list in which a freed node dangles is not modelled.
- CountedRcu.FreedHaveNoReaders: taken over runs whose increments come in time, because the code's two steps do not
  have the property otherwise: `CountedRcu.JoinIsSafeIff`, with `CountedRcu.SplitReadLockFails` for a run.
- `rcu_free` of the locked RCU, called when nothing else runs.
- VisitRcu.GracePeriodHolds: one updater, which neither assigns nor starts a second grace period while one is under
  way; `__call_lrcu` is not modelled.
- `seqlock`, `hp`, `scoped-lock`, the thread-based RCU and its `rculist`: not modelled.
