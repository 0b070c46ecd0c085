# A Dafny model of the seL4 kernel's portable core

The project models the parts of the kernel where a local action has to stand for a global fact:

* **The capability derivation tree.** Caps sit in slots that form doubly linked lists. Revocation, deletion and
  retyping decide what to do by looking at one or two list neighbours. `MdbList` gives every cap a history (who it
  was derived from, which mint its badge comes from) that the kernel does not store, and one invariant over that
  history. `MdbSteps`, `MdbOps`, `Retype` and `MdbRuns` show that every operation keeps the invariant, from boot on,
  and that the neighbour checks then decide the global questions. `CSpace` and `CapSlots` do the same operations
  pointer by pointer in memory; `CapDeletion` and `CapRevocation` have the mutually recursive deletion and revocation
  code. `CapObjects` and `CapReach` state what deletion does to the slots inside objects: no cap is left where none can
  reach it, no cap is touched that the deletion does not reach, and a deleted object is empty. `Authority` states what
  a cap lets its holder do over whole runs, and `CapInvocations` has the system calls that copy, mint, mutate and
  rotate caps and issue interrupt handlers.
* **Untyped memory.** `ZeroedMemory` adds the bytes of memory to the derivation lists and shows over every run that
  objects are only made in zeroed memory and that clearing never reaches an object in use; `CapRetype` has the
  preemptible reset and the retype that perform those steps.
* **The sporadic server.** `Refills` holds the operations on a plain sequence of refills and their invariant,
  `RefillCurves` what they do to the budget available over time, up to the bound on what any run can use per
  period, overruns included, and `RefillRing` the circular buffer with wrapping 64-bit arithmetic that refines them.
* **The big kernel lock**, `ClhLock`: a step machine with one step for each access to shared memory, for any
  number of cores and any interleaving.
* **Capability address lookup**, `CapLookup`: the slow and the fast loop, and the addresses they invert.
* **Boot memory**, `BootMemory`, `BootScan`, `BootFreemem`, `BootRootServer`, `BootUntyped`, with the bit counting in
  `BitCount`.
* **Messages and signals**, `EpQueue`, `Ipc`, `IpcSystem`, with what they mean to many threads at once in `IpcOrder` and
  what cancelling and signalling do in `IpcEffects`; **the scheduler**, `Bitmap`, `Scheduler`, `Schedule`.
* **Arithmetic and small structures**: `Magic` (division by a constant), `Primes` and `Profiler` (a double-hashing
  table), `Format` (printing and reading numbers). `Words` and `Arith` hold what they share.

The configuration is the MCS one on a 64-bit machine, without architecture-specific caps. Code that updates memory
is modelled by classes whose methods follow its order of writes, with loops where it has loops; each method is tied to
a function on values, and the theorems are about those functions.

`dafny verify dfyconfig.toml` checks the whole project.

## Where the code and what is said about it differ

The model follows the code. Seven places need care:

* `isFinalCapability` answers for one list only. Boot writes one scheduling-control cap per core, each in a list of
  its own, and `sameObjectAs` calls them the same object, so each of them counts as final while the others exist.
  `MdbRuns.TwoCoresSchedControl` exhibits it, and `MdbRuns.FinalIsWrongExactlyForLoneSchedControl` shows this is the
  only way the answer can be wrong.
* `magicgu` accepts divisors beyond `nmax + 1` and returns a pair that does not divide. `Magic.TooLargeDivisor` and
  the last clause of `Magic.MagicGu` give the exact condition.
* Deleting the last cap to a CNode or thread is meant to empty every slot of it. It does so whenever the slot the cap
  is in lies in no object that the deletion takes apart, which is a clause of `CapDeletion.Delete`. In a cycle it may
  not: `CapDeletion.OwnSlotIsValid` and `CapDeletion.OwnSlotLeavesZombie` exhibit a CNode of two slots whose only cap is
  in its own second slot. Deleting that slot moves the zombie of the CNode to the first one, where it stays until its
  untyped is revoked. In every state an object is empty once no cap to it and no zombie of it is left, by
  `CapRevocation.ForgottenSlotIsEmpty`.
* A comment in `sporadic.h` says that all refills hold at least the minimum budget. The code promises it for the head
  only. `Refills.OneTickRefill` exhibits a smaller one, and `Refills.BudgetCheckSufficient` and
  `Refills.UpdateSufficient` say exactly when charging and reconfiguring keep all refills that large; unblocking always
  does. Another comment says that `refill_size` counts empty slots; the code counts the slots in use.
* `profiler_record_sample` with a program counter of 0 matches the first unused slot and leaves no trace that is
  ever reported; `Profiler.Table.RecordSample` states it.
* `reserve_region` is meant to keep the table in order. It does so exactly if the region is disjoint from the entries,
  which `BootMemory.ReservedTable.ReserveRegion` states; what the table covers is right in any case.
* `str_to_long` accumulates in a signed long. `Format.LongIsExact` shows that it is right exactly for the numbers
  below 2^63; above, where C leaves the result undefined, the model lets it wrap round.

## Model

| member | source | states |
|---|---|---|
| `Caps.SameObjectIsEqualObject` | kernel/src/object/objecttype.c:381-393 | `sameObjectAs`, a case analysis over cap types built on `sameRegionAs`, is equality of the object the two caps name |
| `Caps.UntypedRegionIsContainment` | kernel/src/object/objecttype.c:275-296 | for an untyped cap, `sameRegionAs` with its wrapping end points is containment of memory |
| `Caps.CopyKeepsMaskedRights` | kernel/src/object/objecttype.c:441-506 | copying is refused if and only if the cap is null, a zombie, the IRQ control cap or an untyped with children; otherwise the copy has exactly those rights of the source that the mask allows, and the same badge and guard |
| `Caps.MintGivesBadgeOrGuard` | kernel/src/object/objecttype.c:395-439 | minting is refused if and only if copying is, or there is a badge already, or the guard does not fit; otherwise the cap has the badge asked for, or the guard cut to its size, and exactly those rights of the source that the mask allows |
| `Caps.MutateRelabels` | kernel/src/object/objecttype.c:395-439 | with `preserve`, cap data is refused if and only if the cap is null, an endpoint or notification cap or a CNode cap whose new guard does not fit; otherwise it changes only the guard of a CNode cap, to the one asked for |
| `MdbList.DerivedIsAccepted` | kernel/src/object/cnode.c:775-819 | `isMDBParentOf` accepts every surviving cap derived from a revocable cap, and that cap comes later in the same list |
| `MdbList.RunIsExactlyTheDerivedCaps` | kernel/src/object/cnode.c:775-819 | the stretch of neighbours that `isMDBParentOf` accepts is exactly the set of surviving caps derived from the cap, wherever they are |
| `MdbList.MintRunIsItsLineage` | kernel/src/object/cnode.c:790-813 | a badged mint accepts exactly the surviving copies of that very mint, never those of another mint with the same badge |
| `MdbList.NoChildrenMeansNoneDerived` | kernel/src/object/cnode.c:821-834 | `ensureNoChildren`, one look ahead, succeeds if and only if no derived cap survives anywhere |
| `MdbList.FinalMeansNoOtherCap` | kernel/src/object/cnode.c:846-874 | `isFinalCapability`, two looks, is true if and only if no other slot holds a cap to the object, or the cap is the only scheduling-control cap of its list |
| `MdbSteps.InsertKeepsInv` | kernel/src/object/cnode.c:410-443 | putting a derived cap directly behind its source keeps the whole invariant: contiguous descendants, contiguous objects, first-badged flags, memory shared only along derivations |
| `MdbSteps.RemoveKeepsInv` | kernel/src/object/cnode.c:567-592 | taking any cap out keeps the invariant; the hand-over of `mdbFirstBadged` leaves it on the first survivor of each mint |
| `MdbOps.SetFreeKeepsInv` | kernel/src/object/cnode.c:396-408 | the free index of an untyped may be set to anything that lies above the caps derived from it |
| `MdbOps.CteInsertKeepsInv` | kernel/src/object/cnode.c:396-443 | `cteInsert` of any derivation, including the marking of a copied untyped as full, keeps the invariant |
| `MdbOps.InsertNewCapKeepsInv` | kernel/src/object/cnode.c:745-756 | a cap to a new object in unused memory of an untyped keeps it |
| `MdbOps.RenamingKeepsInv` | kernel/src/object/cnode.c:445-526 | moving and exchanging caps between slots keeps it |
| `MdbOps.ZombifyKeepsInv` | kernel/src/object/cnode.c:615-633 | replacing the last cap to a CNode or thread by a zombie keeps it |
| `MdbOps.WriteSlotKeepsInv` | kernel/src/kernel/boot.c:260-267 | writing an initial cap keeps it |
| `Retype.PlacementFits` | kernel/src/object/untyped.c:26-232 | if the bytes left divided by the object size are enough, the objects still fit after aligning the first one up, between the free offset and the end of the untyped |
| `Retype.DecodeIsExact` | kernel/src/object/untyped.c:182-231 | retype is refused if and only if no aligned place above what is in use has room, and says how much is left; otherwise it takes the lowest one |
| `Retype.PlacementIsUnused` | kernel/src/object/untyped.c:26-232 | no cap derived from the untyped reaches into the memory chosen, although the code has only looked at the free index and one neighbour |
| `Retype.NewCapsAscend` | kernel/src/object/objecttype.c:595-622 | the caps to the new objects are well formed, in ascending order and disjoint within the memory chosen |
| `Retype.CreatedAsAsked` | kernel/src/object/objecttype.c:508-593 | the cap to a new object is of the type and size asked for, at its place, with every right there is |
| `Retype.NewCapsAsAsked` | kernel/src/object/objecttype.c:595-622 | and the i-th one is at the start plus i object sizes |
| `Retype.RetypeKeepsInv` | kernel/src/object/untyped.c:272-305 | a decoded retype keeps the invariant: new objects share memory with nothing outside the untyped's own ancestry |
| `MdbRuns.StepKeepsInv` | kernel/src/object/cnode.c:396-756 | every enabled step (boot, insert, retype, reset, move or swap, zombify, remove) keeps the invariant |
| `MdbRuns.ReachableChecksAreGlobal` | kernel/src/object/cnode.c:775-874 | in every state that any sequence of steps reaches from an empty table, the neighbour checks decide the global facts |
| `MdbList.SchedControlIsFinalInItsList` | kernel/src/object/cnode.c:846-874 | for a scheduling-control cap, `isFinalCapability` means alone in its own list |
| `MdbRuns.FinalIsWrongExactlyForLoneSchedControl` | kernel/src/object/cnode.c:846-874 | the answer of `isFinalCapability` differs from the global fact if and only if the cap is a scheduling-control cap, alone in its list, while another list holds one |
| `MdbRuns.TwoCoresSchedControl` | kernel/src/kernel/boot.c:455-470 | the concrete two-core boot in which it differs |
| `Authority.InsertedIsRevocable` | kernel/src/object/objecttype.c:1000-1024 | `cteInsert` makes a cap revocable if and only if it is an untyped, names another object than its source or carries another badge |
| `Authority.RightsOnlyShrink` | kernel/src/object/objecttype.c:441-506 | whatever was derived from a cap to an object is a cap to the same object with no more rights, and has the same badge if there was one |
| `Authority.KeepsItsRights` | kernel/src/object/cnode.c:396-756 | a cap that is no zombie has the object, the rights and the badge it was made with |
| `Authority.ReachableAuthority` | kernel/src/object/cnode.c:396-819 | in every reachable state: a cap is revocable if and only if by its history it is more than a copy; then all other caps to its object come from it, unless it is badged or a sched control cap, and all others of its mint if it is badged; and what comes from a cap to an object names that object, with no more rights |
| `MdbSteps.RemoveKeepsActive` | kernel/src/object/interrupt.c:195-198 | deactivating an interrupt with its last handler, and only then, keeps the active interrupts exactly those that have a handler |
| `CSpace.SwapIsRenaming` | kernel/src/object/cnode.c:489-526 | the interleaved reads and writes of `cteSwap` exchange two slots in every link, whether the slots are apart, adjacent in either order, or one is empty |
| `CSpace.SwapLinks` | kernel/src/object/cnode.c:489-526 | after `cteSwap` memory holds the same lists in the same order with the two slots exchanged |
| `CSpace.MoveIsSwap` | kernel/src/object/cnode.c:445-473 | `cteMove` is `cteSwap` with an empty slot |
| `CSpace.LinkAfterLinks` | kernel/src/object/cnode.c:435-442 | the link writes of `cteInsert` insert directly behind the source |
| `CSpace.UnlinkLinks` | kernel/src/object/cnode.c:573-588 | the link writes of `emptySlot` remove the slot and nothing else |
| `CSpace.LinksAreInverse` | kernel/src/object/cnode.c:410-592 | in memory that represents the lists, as it does after each of these operations, next and prev are inverse to each other |
| `CapSlots.FinalCapabilityIsGlobal` | kernel/src/object/cnode.c:846-874 | the finality check read from memory decides whether any other slot in memory names the object, for every cap but a lone scheduling-control cap, for which it is always true |
| `CapSlots.Slots.WriteBootCap` | kernel/src/kernel/boot.c:260-267 | an initial cap starts a list of its own; the slots inside objects stay in order if the cap's own exist and the slot lies in an object, possibly its own |
| `CapSlots.Slots.InsertCap` | kernel/src/object/cnode.c:410-443 | the writes of `cteInsert` in their order leave memory representing the list operation, invariant included; the destination has the cap, and only the source may change besides; a derived cap names no slot that does not exist, and none is left behind |
| `CapSlots.Slots.CreateObjects` | kernel/src/object/objecttype.c:595-622 | the loop over the destination slots performs the whole sequence of new-object insertions; each destination holds its own cap, and every other slot keeps the one it had |
| `CapSlots.Slots.PlaceObjects` | kernel/src/object/untyped.c:290-305 | after the reset, retype performs the list-level retype at the place decoded; the i-th destination holds a cap with every right to the i-th object, of the type and size asked for, and no slot but these and the parent changes its cap; the slots inside objects stay in order if the new objects' slots exist |
| `CapSlots.Slots.Swap` | kernel/src/object/cnode.c:489-526 | exchanges two slots of the represented lists and nothing else; the slots inside objects stay in order |
| `CapSlots.Slots.Move` | kernel/src/object/cnode.c:445-473 | renames one slot of the represented lists and empties the source; no other slot changes its cap |
| `CapSlots.Slots.Empty` | kernel/src/object/cnode.c:567-592 | removes the entry from the represented lists; an empty slot is left alone; no cap is left behind if the removed one is dispensable |
| `CapObjects.RemovalKeepsHoused` | kernel/src/object/cnode.c:567-592 | every cap lies in an object that some cap names, also after the removal of a cap whose slots another cap accounts for or which hold nothing |
| `CapObjects.SwapKeepsHoused` | kernel/src/object/cnode.c:489-526 | and after two caps trade places |
| `CapObjects.CountDownKeepsHoused` | kernel/src/object/cnode.c:694-699 | and after a zombie whose last slot is empty counts one slot less |
| `CapReach.SwapReaches` | kernel/src/object/cnode.c:711-724 | a zombie that trades places with the cap in its first slot changes nothing outside any set of caps that has the zombie and, with each cap, those in the slots of its object |
| `CapReach.DoomedIsDerived` | kernel/src/object/cnode.c:528-550 | a revocation reaches exactly the derived caps if and only if no slot that one of them stands for holds any other cap |
| `CapDeletion.ZombieIsAlone` | kernel/src/object/cnode.c:664-724 | the object a zombie stands for overlaps no CNode, thread or zombie that another slot names |
| `CapDeletion.RemovableIsDispensable` | kernel/src/object/cnode.c:594-662 | what `finaliseSlot` hands to `emptySlot` is a cap whose slots another cap accounts for, or which hold nothing else; this is where `isFinalCapability` has to be right |
| `CapDeletion.DeleteOne` | kernel/src/object/cnode.c:726-743 | deleting a cap that stands for no slot removes exactly its entry, or nothing if the slot is empty |
| `CapDeletion.ClearNode` | kernel/src/object/interrupt.c:186-193 | the last cap to an interrupt takes the notification cap in the interrupt's slot of the kernel's node with it, and stays the last one itself |
| `CapDeletion.SetIrqHandler` | kernel/src/object/interrupt.c:168-176 | the interrupt's slot holds a copy of the notification cap, whatever it held before; every other slot keeps its cap, and every cap still lies in a slot that some cap stands for |
| `CapDeletion.ClearIrqHandler` | kernel/src/object/interrupt.c:178-184 | the interrupt's slot is empty and no other cap is changed |
| `CapDeletion.FinaliseUnexposed` | kernel/src/object/cnode.c:615-662 | unexposed finalisation terminates on every CNode graph, cyclic ones included, because each round settles one more self-referential zombie; what it leaves is removable or such a zombie; only caps it reaches are touched and none is left behind |
| `CapDeletion.DeleteUnexposed` | kernel/src/object/cnode.c:552-565 | unexposed deletion empties the slot or leaves a self-referential zombie; caps plus unsettled zombies never grow, and shrink if the slot is emptied |
| `CapDeletion.EndSlotIsEmptied` | kernel/src/object/cnode.c:678-699 | after deleting the last slot of an unmoved zombie that slot is empty, as `reduceZombie` asserts |
| `CapDeletion.ReduceExposed` | kernel/src/object/cnode.c:664-711 | an exposed round empties the zombie's last slot and counts down, or finds the zombie moved into its own CNode; the latter cannot happen if the zombie's slot lies in no object that the deletion reaches |
| `CapDeletion.UncountedIsEmpty` | kernel/src/object/cnode.c:678-699 | the slots that a zombie does not count any more are empty |
| `CapDeletion.FinaliseExposed` | kernel/src/object/cnode.c:615-662 | exposed finalisation terminates on every graph, through the mutual recursion with deletion; only caps it reaches are touched and none is left behind; the last cap to an object ends as a zombie that counts no slot, if its own slot lies in no object reached |
| `CapDeletion.Delete` | kernel/src/object/cnode.c:552-565 | exposed deletion empties the slot, adds no cap anywhere, and for a cap without slots removes exactly that entry (with the cap in the interrupt node, for the last cap to an interrupt); nothing outside the caps it reaches is removed, moved or changed; every cap left lies in an object that some cap names; all slots of the object are empty if the cap was the last one to it and no cap reached stands for its slot |
| `CapDeletion.OwnSlotIsValid` | kernel/src/object/cnode.c:552-565 | the state in which that condition fails: a CNode of two slots with its only cap in its own second slot; it meets every invariant |
| `CapDeletion.OwnSlotLeavesZombie` | kernel/src/object/cnode.c:664-724 | deleting that cap: the zombie is neither removable nor self-referential, its last slot is its own, and the swap empties that slot and leaves the zombie in the other |
| `CapRevocation.ForgottenSlotIsEmpty` | kernel/src/object/cnode.c:552-711 | every slot of a CNode or thread is empty unless a cap to it, or its zombie, is left |
| `CapRevocation.Revoke` | kernel/src/object/cnode.c:528-550 | after an uninterrupted revoke no surviving cap is derived from the one in the slot; preempted or not, every cap outside the least set that has the derived caps and, with each cap, those in the slots it stands for, is untouched; if those slots hold no cap that is not derived, exactly the derived caps are gone; an unbadged cap to an object that by its history is no copy, as an interrupt handler that was issued, is afterwards the only one to that object, unless it was torn down itself; a revoked untyped has no cap left in its memory |
| `CapRevocation.HandlerStays` | kernel/src/object/cnode.c:528-550 | an interrupt handler that is revoked is never torn down itself |
| `CapInvocations.Copy` | kernel/src/object/cnode.c:74-192 | the checks in their order; on success the destination has the source's cap with those rights that the mask allows and is derived from it, and no other cap changes, except that a copied untyped counts as full |
| `CapInvocations.Mint` | kernel/src/object/cnode.c:74-192 | the same with the badge or guard asked for; refused also if there is a badge already or the guard does not fit |
| `CapInvocations.Mutate` | kernel/src/object/cnode.c:74-192 | the checks in their order; on success the cap has moved, with its place among the derivations, and at most its guard is another; no other slot changes its cap |
| `CapInvocations.Rotate` | kernel/src/object/cnode.c:232-311 | the checks in their order; on success the pivot's cap is at the destination and the source's at the pivot, or the two have traded places, each with its place among the derivations; no other slot changes its cap |
| `CapInvocations.IssueHandler` | kernel/src/object/interrupt.c:23-84 | an interrupt handler is issued if and only if no cap to that interrupt exists anywhere and the destination is empty; it is derived from the control cap, and no other cap changes |
| `CapInvocations.ActiveMeansHandler` | kernel/src/object/interrupt.c:50-54 | an interrupt is active if and only if some slot holds a handler for it |
| `CapRevocation.ChildlessMemoryIsEmpty` | kernel/src/object/untyped.c:176-189 | an untyped that `ensureNoChildren` finds childless has no occupied slot anywhere in its memory, so that it may be reset |
| `CapRevocation.FreshObjectIsEmpty` | kernel/src/object/untyped.c:272-305 | the slots of a new CNode or thread are empty, although retype looks at none of them |
| `ZeroedMemory.UseIsNotFree` | kernel/src/object/untyped.c:167-189 | no byte above the free index of any untyped belongs to an object that any cap names |
| `ZeroedMemory.ChildlessIsUnused` | kernel/src/object/untyped.c:176-189 | an untyped that shares a byte with an object in use is not found childless by the one look of `ensureNoChildren`; so a reset destroys nothing |
| `ZeroedMemory.ActionKeepsZero` | kernel/src/object/untyped.c:234-305 | every operation on caps, and every store into an object through a cap to it, keeps the memory above every free index zero |
| `ZeroedMemory.ClearingSparesUse` | kernel/src/object/untyped.c:234-270 | the clearing of a retype or of an interrupted reset changes no byte of an object in use |
| `ZeroedMemory.OnlyOwnStores` | kernel/src/object/untyped.c:234-305 | a byte of an object in use changes only by a store through a cap to that very object |
| `ZeroedMemory.ObjectsStartZeroed` | kernel/src/object/untyped.c:234-305 | whatever memory held at boot, and whatever any run has made, written, deleted and reset since: every byte of every object that the next retype makes is zero |
| `CapRetype.Ram.ClearMemory` | kernel/src/util.c:22-41 | clears exactly the bytes asked for, a word at a time |
| `CapRetype.FirstChunk` | kernel/src/object/untyped.c:259-260 | the first chunk to clear holds the last byte below the free index and lies within the untyped |
| `CapRetype.ResetUntyped` | kernel/src/object/untyped.c:234-270 | the downward loop with its wrapping offset ends; done or preempted, it has performed one reset step on lists and memory: the free index is down to where memory is cleared, and lower than before; done means index 0 |
| `CapRetype.InvokeRetype` | kernel/src/object/untyped.c:167-305 | retype changes nothing if the memory does not suffice; preempted, it has only reset further; otherwise lists and memory are those of one retype step, every new object lies in zeroed memory, the destinations hold caps to what was asked for, every other slot keeps its cap, and the slots inside objects stay in order |
| `Refills.HandleOverrun` | kernel/src/kernel/sporadic.c:272-291 | charging whole head refills terminates, keeps the queue invariant, and stops only when the head covers the rest or can no longer be postponed |
| `Refills.EnsureMinBudget` | kernel/src/kernel/sporadic.c:342-345 | merging terminates, keeps the queue invariant, and leaves a head of at least the minimum budget |
| `Refills.MergeHeadKeepsQueue` | kernel/src/kernel/sporadic.c:298-305 | an insufficient head is never the only refill, so the pop in the merge is safe, its subtraction does not go below zero, and the queue invariant is kept |
| `Refills.BudgetCheckKeepsInv` | kernel/src/kernel/sporadic.c:307-348 | for any usage: same sum, ordered and disjoint refills, tail within a period of the head, positive amounts, head at least the minimum, bounded times |
| `Refills.UnblockCheckKeepsInv` | kernel/src/kernel/sporadic.c:357-379 | the same for unblocking, with the head now or later |
| `Refills.UnblockJoins` | kernel/src/kernel/sporadic.c:357-379 | unblocking leaves a head that is not due alone; otherwise it moves the head to now and joins exactly the refills it reaches, and keeps the others |
| `Refills.SliceIsWhole` | kernel/include/kernel/thread.h:124-150 | however a round-robin slice is used up, what is billed goes from the head to the tail, and the next slice is whole again |
| `Refills.UpdateInv` | kernel/src/kernel/sporadic.c:173-211 | reconfiguring turns any head into a queue for the new parameters with nothing before now |
| `Refills.NewQueueInv` | kernel/src/kernel/sporadic.c:158-171 | a new scheduling context meets the invariant, round robin or not |
| `Refills.NoWrap` | kernel/include/kernel/sporadic.h:39-49 | no refill, even a period later, reaches the end of the 64-bit clock |
| `Refills.BudgetCheckSufficient` | kernel/include/kernel/sporadic.h:144-152 | charging keeps every refill at the minimum budget if and only if what is left after whole refills is nothing, cannot be charged, makes a sufficient tail, or joins a refill that is there |
| `Refills.SmallChargeSufficient` | kernel/src/kernel/sporadic.c:307-348 | in particular, usage that leaves the head sufficient does so if and only if it is itself sufficient, or the queue is full, or the tail reaches to a period after the head |
| `Refills.OneTickRefill` | kernel/src/kernel/sporadic.c:307-348 | the concrete queue in which one tick of usage becomes a refill below the minimum |
| `Refills.UpdateSufficient` | kernel/src/kernel/sporadic.c:173-211 | reconfiguring does so if and only if the head takes the whole new budget or leaves a sufficient rest |
| `Refills.UnblockSufficient` | kernel/src/kernel/sporadic.c:357-379 | unblocking always does |
| `Refills.CommitTwice` | kernel/src/kernel/sporadic.c:213-238 | charging in two parts, as preemption does, leaves the same queue as charging once |
| `RefillCurves.ChargeHeadPostpones` | kernel/src/kernel/sporadic.c:257-270 | charging the whole head gives a supply curve no higher than postponing it by exactly one period |
| `RefillCurves.ChargePartPostpones` | kernel/src/kernel/sporadic.c:320-340 | the same for a part of the head, also when the buffer is full and the tail is delayed |
| `RefillCurves.MinBudgetNoEarlier` | kernel/src/kernel/sporadic.c:298-305 | merging an insufficient head never makes budget available earlier |
| `RefillCurves.UnblockNoEarlier` | kernel/src/kernel/sporadic.c:350-377 | unblocking never makes budget available earlier |
| `RefillCurves.WholeBudgetReturns` | kernel/include/kernel/sporadic.h:12-23 | no budget is lost: all of it is available again within a period and a budget of the head |
| `RefillCurves.BudgetCheckRepeating` | kernel/src/kernel/sporadic.c:307-348 | what is charged comes off the budget the queue can ever have supplied by any time, overruns included |
| `RefillCurves.AvailableIsCharged` | kernel/src/kernel/sporadic.c:251-255 | usage that was available is charged in full, none is dropped at the end of the clock |
| `RefillCurves.RunWithinRepeating` | kernel/include/kernel/sporadic.h:12-23 | whatever any run of charges and unblocks uses, except for what its charges exceed the available budget by, comes out of the repeating supply it started with |
| `RefillCurves.WindowBound` | kernel/include/kernel/sporadic.h:12-23 | counted from the head's time, every run uses at most the budget times the number of periods, plus what its charges exceed the available budget by |
| `RefillCurves.UpdatedWindow` | kernel/src/kernel/sporadic.c:179-180 | after a reconfiguration the new budget bounds every new period in the same way |
| `RefillCurves.UpdatedSupply` | kernel/src/kernel/sporadic.c:173-211 | for a period after a reconfiguration there is exactly what was left in the old head, cut to the new budget; and within a period and a budget all of the new one |
| `RefillCurves.NewSupply` | kernel/src/kernel/sporadic.c:158-171 | a new scheduling context has its whole budget from now on |
| `RefillCurves.RunPaid` | kernel/src/kernel/sporadic.c:272-348 | however much its charges overran, a run has come off the repeating supply in full by the time the next refill is due |
| `RefillCurves.PaidWindow` | kernel/include/kernel/sporadic.h:12-23 | counted from the head's time to the time at which budget is next available, no run at all has used more than the budget per period |
| `RefillRing.SchedulingContext.ScheduleUsed` | kernel/src/kernel/sporadic.c:213-238 | the ring refines merging, appending and delaying the tail |
| `RefillRing.SchedulingContext.HandleOverrun` | kernel/src/kernel/sporadic.c:272-291 | the loop refines `Refills.HandleOverrun` without wrap-around |
| `RefillRing.SchedulingContext.BudgetCheck` | kernel/src/kernel/sporadic.c:307-348 | the ring refines `Refills.BudgetCheck` and keeps the invariant |
| `RefillRing.SchedulingContext.UnblockCheck` | kernel/src/kernel/sporadic.c:357-379 | the ring refines `Refills.UnblockCheck`; the timer is reprogrammed exactly if the head was ready |
| `RefillRing.SchedulingContext.New` | kernel/src/kernel/sporadic.c:158-171 | configures the ring to the new queue from any state |
| `RefillRing.SchedulingContext.Update` | kernel/src/kernel/sporadic.c:173-211 | moves the head to slot 0, truncates, and refines `Refills.Update` for any new size |
| `RefillRing.SchedulingContext.CommitTime` | kernel/include/kernel/thread.h:124-150 | billing usage that leaves the head sufficient takes it from the head alone; the head stays sufficient and, if the usage was measured after the head's time, ready |
| `RefillRing.SchedulingContext.ChargeBudget` | kernel/src/kernel/thread.c:634-650 | ends a slice: round robin gets its slice back, other contexts are charged; the head is sufficient |
| `RefillRing.SchedulingContext.RefillSum` | kernel/src/kernel/sporadic.c:104-116 | the walk around the ring adds up every amount once |
| `ClhLock.StepKeepsInv` | kernel/include/smp/lock.h:59-100 | every step of every core keeps queue, ownership and request states consistent |
| `ClhLock.OwnershipKept` | kernel/include/smp/lock.h:95-99 | the n + 1 request records stay uniquely owned, also between the two writes of a release |
| `ClhLock.Init` | kernel/src/smp/lock.c:16-27 | initialisation establishes the invariant |
| `ClhLock.MutualExclusion` | kernel/include/smp/lock.h:59-100 | in every run at most one core holds the lock |
| `ClhLock.FirstComeFirstServed` | kernel/include/smp/lock.h:66-67 | cores enter in the order of their tail exchanges |
| `ClhLock.OneStepEach` | kernel/include/smp/lock.h:59-100 | a core is never stuck and never has a choice: in every state exactly one of its steps can be taken |
| `ClhLock.HeadCanMove` | kernel/include/smp/lock.h:69-83 | while the queue is not empty its first core holds the lock or can enter at once |
| `ClhLock.EntersInTurn` | kernel/include/smp/lock.h:66-83 | a waiting core waits for exactly the cores ahead of it, in every run |
| `ClhLock.Drains` | kernel/include/smp/lock.h:59-100 | no deadlock: from every reachable state all requests can be served |
| `ClhLock.StepsPerRequest` | kernel/include/smp/lock.h:59-100 | bookkeeping: spinning aside, the steps of a run are five for each request it serves |
| `ClhLock.BoundedWaiting` | kernel/include/smp/lock.h:59-100 | no starvation: a waiting core has entered after 2n - 1 rounds in each of which every one of the n cores takes some step, in any order |
| `ClhLock.SelfInQueue` | kernel/include/smp/lock.h:102-105 | `clh_is_self_in_queue` is true exactly while the core has asked for the lock |
| `CapLookup.ResolveAddressBits` | kernel/src/kernel/cspace.c:126-193 | the loop with its masked shifts computes the recursive lookup, faults included, on any graph and depth |
| `CapLookup.LookupFast` | kernel/include/fastpath/fastpath.h:89-132 | the fast loop returns the cap the slow lookup finds, null on every fault, and terminates on cyclic graphs |
| `CapLookup.LookupBoth` | kernel/include/fastpath/fastpath.h:88-132 | fast and slow path return the same cap |
| `CapLookup.LookupCap` | kernel/src/kernel/cspace.c:15-63 | the slow path's cap, whatever bits remain |
| `CapLookup.AddressResolves` | kernel/src/kernel/cspace.c:126-193 | the address that spells out a path's guards and indices is resolved to the end of that path |
| `CapLookup.ResolvedIsAddressed` | kernel/src/kernel/cspace.c:126-193 | conversely, a lookup that uses all bits has followed the path whose address the pointer is |
| `CapLookup.ResolveFollows` | kernel/src/kernel/cspace.c:126-193 | a lookup follows every path that the leading bits of the pointer spell, to its end, and ends there if no bits are left or the cap is no CNode |
| `CapLookup.CapAtEnd` | kernel/src/kernel/cspace.c:15-30 | the cap that either path of a lookup gives is the one at the end of the path that the pointer spells |
| `CapLookup.LookupStops` | kernel/src/kernel/cspace.c:126-193 | conversely every lookup, successful or not, has followed such a path; each fault says truthfully which guard or depth did not fit there, with how many bits left |
| `BootMemory.ReservedTable.MergeRegions` | kernel/src/kernel/boot.c:46-64 | makes touching neighbours one, in any table, and covers the same addresses with the same total size; a sorted table has no touching regions afterwards |
| `BootMemory.ReservedTable.ReserveRegion` | kernel/src/kernel/boot.c:66-117 | the table covers the new region too; it is refused exactly if it touches no entry and no slot is left; a table in order stays in order if and only if the region is disjoint from its entries |
| `BootScan.StepKeepsExact` | kernel/src/kernel/boot.c:988-1029 | each step of the walk keeps: found so far, plus available and not yet passed over, is available minus reserved |
| `BootScan.StepKeepsShape` | kernel/src/kernel/boot.c:988-1029 | and keeps what was found sorted, disjoint and before the rest |
| `BootFreemem.FreeMemory.InsertRegion` | kernel/src/kernel/boot.c:119-153 | the region takes the first empty slot and is reserved; refused exactly if the table is full; the reserved table stays in order if the region is disjoint from what is recorded |
| `BootFreemem.FreeMemory.Subtract` | kernel/src/kernel/boot.c:988-1042 | the walk terminates and finds exactly available minus reserved, sorted and disjoint |
| `BootFreemem.FreeMemory.PlaceRootServer` | kernel/src/kernel/boot.c:1044-1104 | succeeds exactly if some region has room; then an aligned block is cut out and everything else stays free, sorted |
| `BootFreemem.FreeMemory.InitFreemem` | kernel/src/kernel/boot.c:964-1105 | on success free memory is the clipped available memory minus the reserved regions minus one aligned block, whatever the table sizes; the reserved table covers all of it if it has room |
| `BootFreemem.CheckAvailable` | kernel/src/kernel/boot.c:891-927 | accepts exactly non-empty, sorted, disjoint lists of non-empty regions |
| `BootFreemem.CheckReserved` | kernel/src/kernel/boot.c:930-955 | accepts exactly sorted, disjoint lists |
| `BootFreemem.ClippedCovers` | kernel/src/kernel/boot.c:880-889 | clipping keeps exactly the addresses inside the kernel window |
| `BootRootServer.AlignedExactly` | kernel/src/kernel/boot.c:155-165 | of objects laid out one after the other that do not grow, all are aligned to their own size if and only if the first one is |
| `BootRootServer.TilesApart` | kernel/src/kernel/boot.c:155-165 | objects laid out this way share no address |
| `BootRootServer.TilesCover` | kernel/src/kernel/boot.c:155-165 | and leave none out |
| `BootRootServer.RootServer.Create` | kernel/src/kernel/boot.c:198-258 | the root server's objects fill the block of the computed size exactly, the extra boot information once wherever its size puts it; every alignment assertion holds if and only if the block is aligned to the largest size |
| `BootRootServer.ExtraInfoBits` | kernel/src/kernel/boot.c:330-354 | counting the leading zeros of the size in whole pages finds the least power of two, of at least a page, that holds the extra boot information; 0 if there is none |
| `BootRootServer.RoomIsLeast` | kernel/src/kernel/boot.c:330-354 | only one exponent is large enough and not twice too large |
| `BootRootServer.InitMemory` | kernel/src/kernel/boot.c:1044-1084 | with the size and alignment the root server needs, `init_freemem` gives it a block in which all its objects are aligned, the extra boot information has room, and which is no longer free |
| `BootUntyped.CreateUntypeds` | kernel/src/kernel/boot.c:754-798 | terminates on every region, wrapping ones included, with aligned chunks that tile it, and provides exactly those of the minimum size or more; too small a chunk lies at an end, and there is none if both ends are aligned; device regions never fail |
| `BootUntyped.TilesExactly` | kernel/src/kernel/boot.c:754-798 | every address of the region lies in exactly one chunk, every other address in none |
| `BootUntyped.ChunkBits` | kernel/src/kernel/boot.c:769-785 | the chunk is as large as region, limit and alignment allow, and does not wrap |
| `BitCount.Clz64` | kernel/src/util.c:251-304 | the branch-free search finds the highest set bit, 64 for zero |
| `BitCount.Ctz64` | kernel/src/util.c:370-419 | the branch-free search finds the lowest set bit, 64 for zero |
| `EpQueue.InsertKeepsOrder` | kernel/include/object/tcb.h:131-162 | insertion keeps queues in priority order and puts a thread behind exactly those of at least its priority |
| `EpQueue.Threads.Append` | kernel/include/object/tcb.h:131-162 | the backward walk and the relinking perform that insertion |
| `EpQueue.Threads.Dequeue` | kernel/src/object/tcb.c:254-270 | the relinking removes the thread, at either end or in between |
| `EpQueue.Threads.Reorder` | kernel/src/object/endpoint.c:489-497 | a thread that changes its priority while it waits is taken out and put in again; the queue is linked correctly and in order for the new priorities |
| `Ipc.WakeKeepsInv` | kernel/src/object/endpoint.c:306-346 | taking a blocked thread out of its queue keeps: idle exactly if the queue is empty, and queued exactly once exactly where blocked |
| `Ipc.BlockKeepsInv` | kernel/src/object/endpoint.c:163-190 | blocking a thread keeps the same |
| `IpcSystem.Objects.SendIPC` | kernel/src/object/endpoint.c:20-121 | hands over to the first receiver, or blocks, or does nothing, and keeps the invariant |
| `IpcSystem.Objects.ReceiveIPC` | kernel/src/object/endpoint.c:123-276 | a pending signal of the bound notification comes first; otherwise the first sender, blocking, or nothing |
| `IpcSystem.RendezvousEitherOrder` | kernel/src/object/endpoint.c:20-276 | a message exchange leaves the same state whether the sender or the receiver comes first, for calls, faults and plain sends |
| `IpcOrder.InsertAllIsStable` | kernel/include/object/tcb.h:131-162 | however many threads join a queue, it is in priority order, and within a priority in the order of arrival |
| `IpcOrder.SendersServedInOrder` | kernel/src/object/endpoint.c:20-276 | any number of blocking sends followed by any number of receives, from any state without waiting receivers: the receivers get the messages one each, by priority and then first come first served; the other senders still wait |
| `IpcOrder.ReceiversServedInOrder` | kernel/src/object/endpoint.c:20-276 | the same with the receivers first, from any state without waiting senders |
| `IpcEffects.CancelUndoesSend` | kernel/src/object/endpoint.c:306-375 | cancelling a send that waits leaves everything as it was before, except that the sender has stopped and has no fault |
| `IpcEffects.CancelUndoesReceive` | kernel/src/object/endpoint.c:306-375 | the same for a receive that waits |
| `IpcEffects.CancelledEffect` | kernel/src/object/endpoint.c:306-375 | a cancelled thread has no fault, waits nowhere and, if it was waiting, has stopped; all other threads, and their order in every queue, stay as they were |
| `IpcEffects.SignalEffect` | kernel/src/object/notification.c:62-188 | a signal makes one thread run with its badge, the first that waits or else the bound one if it waits for a message; without such a thread the notification keeps it |
| `IpcEffects.ReorderedIsLast` | kernel/src/object/endpoint.c:490-497 | a thread whose priority changes while it waits comes behind the others of its new priority |
| `IpcEffects.OthersIsFilter` | kernel/src/object/endpoint.c:436-487 | what `cancelBadgedSends` leaves of a queue is decided thread by thread, in order |
| `IpcSystem.Objects.CancelIPC` | kernel/src/object/endpoint.c:306-375 | a blocked thread leaves its queue and stops, and in every state its fault is forgotten |
| `IpcSystem.Objects.SetPriority` | kernel/src/kernel/thread.c:513-540 | a waiting thread moves to its place among the threads waiting with it, and the invariant holds for the new priorities |
| `IpcSystem.Objects.CancelAllIPC` | kernel/src/object/endpoint.c:400-434 | every queued thread restarts, or stops if it has a fault, and the endpoint is idle; no other thread changes |
| `IpcSystem.Objects.CancelBadgedSends` | kernel/src/object/endpoint.c:436-487 | exactly the senders of the badge restart; the others stay in order |
| `IpcSystem.Objects.SendSignal` | kernel/src/object/notification.c:62-188 | a signal is handed over at once to the first waiting thread or the bound thread, whose wait for a message and fault are cancelled, or else held; no other thread, endpoint or notification changes; every signal sent is accounted for |
| `IpcSystem.Objects.ReceiveSignal` | kernel/src/object/notification.c:190-241 | an active notification delivers the union of the badges signalled since it became active, once |
| `IpcSystem.Objects.CompleteSignal` | kernel/src/object/notification.c:297-324 | the same for the bound thread |
| `IpcSystem.Objects.CancelAllSignals` | kernel/src/object/notification.c:243-274 | waiting threads restart, pending signals stay |
| `IpcSystem.HeldOk` | kernel/src/object/notification.c:178-186 | a held badge is added to those pending, and nothing sent is lost or counted twice |
| `Scheduler.HighestPriority` | kernel/include/kernel/thread.h:61-75 | two leading-zero counts find the highest priority with a ready thread |
| `Scheduler.IsHighestPriority` | kernel/include/kernel/thread.h:77-81 | true exactly if no ready thread has a higher priority |
| `Scheduler.WithQueueOk` | kernel/src/object/tcb.c:52-79 | adding to and removing from the bitmap keeps both levels in step with the queues |
| `Schedule.Core.Enqueue` | kernel/src/object/tcb.c:114-141 | the thread comes before all others of its queue, which keep their order; no other queue changes, and bitmap and flags agree |
| `Schedule.Core.Append` | kernel/src/object/tcb.c:143-170 | the thread comes behind all others of its queue, which keep their order; no other queue changes, and bitmap and flags agree |
| `Schedule.Core.Dequeue` | kernel/src/object/tcb.c:172-197 | the thread is in no queue, the others keep their order, and bitmap and flags agree |
| `Schedule.Core.PossibleSwitchTo` | kernel/src/kernel/thread.c:560-579 | a thread without budget is left alone; one of another domain is put at the front of its queue; one of the current domain is set aside if no choice is due, and otherwise put at the front of its queue after the one set aside before |
| `Schedule.Core.ChooseThread` | kernel/src/kernel/thread.c:438-463 | selects the first thread of the highest occupied queue of the domain, or the idle thread if there is none; no other thread leaves a queue or its place |
| `Schedule.Core.Schedule` | kernel/src/kernel/thread.c:375-422 | no ready thread outranks the one selected, exactly in the cases `Safe` lists, and always if none outranked the current thread before; in a tie the current thread goes on, unless it was queued; a queued current thread, as at the end of a slice, gets no preference; nobody is forgotten, and who is not selected is queued before or behind the others of its priority as `Decided` says |
| `Schedule.Core.SetPriority` | kernel/src/kernel/thread.c:513-540 | a queued or running thread leaves its queue for the front of that of its new priority, one that was set aside is queued too, and a new choice is due; any other thread only changes its priority |
| `Schedule.Core.EndTimeslice` | kernel/src/kernel/thread.c:634-675 | at the end of a slice with budget left the current thread goes behind all others of its queue, and one that was set aside is queued |
| `Schedule.Core.NextSlice` | kernel/src/kernel/thread.c:634-675 | while nothing of a higher priority is ready, the end of a slice and the following `schedule` rotate the queue by one place: its first thread runs, and the one that ran waits behind all others |
| `Schedule.Core.FullRound` | kernel/src/kernel/thread.c:634-675 | round robin is fair: while nothing of a higher priority is ready, each thread of the priority runs once, in the order of the queue, and then threads and queues are as they were |
| `Schedule.SkipIsExact` | kernel/src/kernel/thread.c:396-418 | the branch that skips the bitmap is right exactly if nothing ready outranks the candidate |
| `Magic.EnoughDivides` | kernel/tools/reciprocal.py:24-36 | if the tested condition holds then multiplying and shifting divides every number up to the maximum |
| `Magic.EnoughInTime` | kernel/tools/reciprocal.py:26-32 | the condition holds at twice the bit length at the latest |
| `Magic.MagicGu` | kernel/tools/reciprocal.py:24-36 | returns the smallest exponent that meets the condition; the result divides if and only if the divisor is at most nmax + 1, or nmax is 0 |
| `Magic.TooLargeDivisor` | kernel/tools/reciprocal.py:24-30 | the failing family: larger divisors give the pair (1, 0) |
| `Primes.TableSizeIsPrime` | kernel/include/machine/profiler.h:21-28 | 94349 is a prime, by trial division |
| `Primes.ProbesReachEverySlot` | kernel/src/machine/profiler.c:131-136 | in a table of prime size every step reaches every slot within as many probes |
| `Profiler.Table.RecordSample` | kernel/src/machine/profiler.c:129-174 | the probe loop stops; the table refines a map from program counter to count; counted plus dropped samples are the enabled samples of nonzero program counters |
| `Profiler.FreeMeansAbsent` | kernel/src/machine/profiler.c:147-168 | a free slot met on the probe path shows that the program counter is nowhere in the table |
| `Format.DivideByTen` | kernel/src/machine/io.c:274-285 | the shift-and-add quotient, corrected at most once, is the quotient by ten, with its remainder |
| `Format.QuotientBounds` | kernel/src/machine/io.c:274-280 | before the correction the quotient is at most one too small, and nothing overflows |
| `Format.FormatDecimal` | kernel/src/machine/io.c:262-294 | the digits are written just before the end of the buffer, nothing else is touched |
| `Format.FormatHex` | kernel/src/machine/io.c:246-252 | the same in hexadecimal, in either case |
| `Format.StrToLong` | kernel/src/util.c:102-138 | the loop computes the recursive reading in signed 64-bit arithmetic, -1 for anything malformed |
| `Format.LongIsExact` | kernel/src/util.c:102-138 | the reading is the number written if and only if that number is below 2^63: no partial value overflows before the number itself does |
| `Format.Convert` | kernel/src/machine/io.c:500-580 | the conversions u, #x and #X with a precision: prefix, zeros and digits; the buffer is large enough for every number |
| `Format.PrintedShape` | kernel/src/machine/io.c:500-580 | these conversions print as many digits as asked for, and a leading zero only if fewer are needed; the prefix is there for hexadecimal numbers other than zero, and letters are small or capital as the conversion says |
| `Format.PrintedNumbersReadBack` | kernel/src/util.c:90-138 | whatever these conversions print is read back as the number if and only if it is below 2^63 and not a zero of precision zero |

## Left out

- CapDeletion.Delete: that the slots of the object are empty is proved one way, because a cap that is not the last one to its object does no harm in a cycle.
- CapDeletion.SetIrqHandler: does not say where in the derivation list the copy comes. The slots of the kernel's interrupt node are numbered from the end of the address space on, and hold nothing but notification caps.
- CapRetype.InvokeRetype: device memory, which is neither cleared nor made into kernel objects, is left out. The reset chunk is taken to be at least 16 bytes, as configured; with a smaller one the free index could not record where clearing stopped.
- ZeroedMemory.ActionKeepsZero: stores are those into objects that caps name; the initial contents of new objects are such stores. Boot's untypeds are full, as `provide_untyped_cap` makes them.
- CapDeletion.FinaliseUnexposed: models `finaliseCap` by the cap it leaves behind; what it does to threads, endpoints and scheduling contexts is not part of the deletion model.
- Format.Convert: without a field width, without the flags other than the alternate form, and without the refusal of precisions beyond the range of an int.
- Profiler.Table.RecordSample: counters are unbounded, not 64-bit words.
- IpcSystem.Objects.SendIPC: message registers, reply objects and the donation of scheduling contexts are left out; a reply object is only present or absent.
- IpcSystem.Objects.ReceiveIPC: does not model the cancelling of another thread's pending reply when its reply object is reused.
- Schedule.Core.Schedule: ready queues are sequences rather than linked threads; waking from the release queue, domain expiry and the timer are not part of it.
- Schedule.Core.EndTimeslice: models the branch for a thread that still has budget; timeout faults and postponing are left out.
- BootFreemem.FreeMemory.InitFreemem: works on kernel-virtual addresses throughout, without the translation to physical ones.
- BootRootServer.RootServer.Create: the number of page tables is an input, and clearing the memory is not modelled.
- Creating the root server's caps and the initial threads.
- BootUntyped.CreateUntypeds: does not model running out of boot-information entries or root CNode slots.
- ClhLock.StepKeepsInv: assumes sequentially consistent memory; fences and the handling of inter-processor interrupts while spinning are not modelled.
- Architecture-specific caps and everything declared with an `Arch_` prefix.
- The bit-level packing of zombie identifiers and of cap words; caps are values with unbounded fields where a field cannot overflow.
- Fast paths other than the cap lookup, thread configuration, and system call decoding other than untyped retype, CNode copy, mint, mutate and rotate, and the issuing of interrupt handlers; for these the slots named and a valid interrupt number are inputs.
