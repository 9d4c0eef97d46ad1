# Gaxera, verified

Gaxera is a capability microkernel with a set of host-testable crates around it. This project models its
hard parts in Dafny 4.11 and proves what they promise. `dafny verify dfyconfig.toml` checks all of it.

The capability engine is the centre. `Derivation` says what the derivation tree means: a forest of nodes
with parents, rights and revocation marks, the operations on it, and what holds over every run of them.
`NodeTable` and `NodeLinks` say when a vector of records with generations, first-child and next-sibling
links, reference counts and a free list represents such a forest, and that each piece of link surgery
keeps it so. `CapabilitySpaces` and `CapabilitySystem` are the code: classes whose methods update these
vectors and are proved against the forest. `Registries` is what clients see of them, handles, and follows
a handle through every history of the engine. `Resources` and `Objects` are the quota and object sides,
`Transfers` the multi-capability transaction of message passing. `Kernels` puts the tables together: its
operations are the engine's, with books that tie what each domain is charged to what it holds.

| part | modules |
|---|---|
| capability engine, quotas, objects, transfers | `Abi`, `Generations`, `Derivation`, `NodeTable`, `NodeLinks`, `Resources`, `Objects`, `CapabilitySpaces`, `Registries`, `CapabilitySystems`, `Transfers`, `Kernels` |
| one-time authenticator | `Poly1305` |
| allocators | `Heap`, `Slab`, `Extents` |
| protocols | `Endpoints`, `ReplyTokens`, `WaitSets`, `PacketRing`, `Scheduling` |
| storage | `Superblocks`, `ObjectHeaders`, `Storage`, `Sessions`, `EventRing` |
| vector rotation | `Rotation` |
| shared | `Common`, `Arithmetic`, `Bits`, `Words`, `ByteOrder`, `Codecs` |

How things are modelled:

- Code that updates state is a class with the source's fields, or a method with the source's loops. Ghost
  fields (the forest, a ledger of calls, a history of records) are tied to the real ones by `Valid()`.
- Integers are unbounded. Where width matters it is written out: generations and ring indices wrap at
  2^32, limbs and products of the authenticator are proved to fit 64 and 128 bits, length fields keep 16
  or 32 bits. Overflow is that of a build with overflow checks: an addition that would overflow 64 bits is
  a panic (`Panic`, or `None` for a read). The release profile sets no checks; there a read of the event
  ring and the next superblock generation wrap instead.
- Answers from outside are parameters or arbitrary: frame and chunk grants, device failures, the checksum,
  the UTF-8 test, thread affinities. A crash of the storage engine is a device write that fails half-way;
  a torn block is assumed not to decode as a superblock.
- `[u64]` bitmaps and the scheduler's bitmap are bit-vectors; tokens, masks and the fields of the
  authenticator are numbers with bitwise operations defined on them.
- Resource domains have names of their own: a new domain's id is not that of another domain.

What does not hold, and exactly when it does:

- Stale handles and ids: they resolve again exactly when the 32-bit generation of the entry wraps.
- Exact accounting of a domain: exactly if no creation of a child of it has failed at the maximum count of
  children; `LeakedCapability` is a history in which one has.
- Reply tokens: they are unique short of 2^32 tokens and without reuse of a thread index at another
  generation; `ReusedIndexCollides` is a collision with reuse.
- The length of the packet ring, read by a third party: it exceeds the capacity exactly when the consumer
  passes the producer index loaded first; `ObserverMisreads` is such a run.
- Header round trip: exactly within the length limits. Payload read-back: exactly if the block count fits
  in 32 bits. Superblock protection: exactly from a mount of at least 66 blocks, not from a format.
- Objects across sessions: a mount marks only the first 66 blocks, so a later write may land on an object.
  It survives every payload of a length, and whatever it holds, exactly if it reads none of the blocks that
  the bitmap and the lengths assign to the write; `LostObject` is a run that loses one.
- The rotation: its indices stay in an output as long as the input exactly for powers of two; `LengthThree`
  is the smallest length that fails.
- A migration conserves its thread exactly if it succeeds, asks for the same processor or finds the thread
  on the destination already; otherwise the thread ends up on neither scheduler: `LostMigration`.
- Wakeups of a wait set: none is lost exactly if no thread blocks while another one is recorded; a
  displaced thread is never woken: `TwoWaiters`.
- The calls of a dead thread: one stays in flight exactly if one was outstanding and another queued.
- A slab frame at address zero loses its first slot: `FrameAtZero`.
- A heap split loses a remainder exactly when no block descriptor is left: `LostRemainder`.

Where code and documentation differ the model follows the code: `docs/adr/0007` asks for a strict subset
of the parent's rights, `derive` also accepts equal rights.

## Model

| member | source | states |
|---|---|---|
| `Generations.NextGenerationAdvances` | crates/kernel-core/src/capability.rs:820-823 | Advancing a generation from any epoch gives the generation of the next epoch; zero is skipped. |
| `Generations.SameGenerationIffWrapped` | crates/kernel-core/src/capability.rs:820-823 | Two epochs of one entry carry the same generation exactly when they differ by a multiple of 2^32 - 1. |
| `Derivation.RightsShrinkDownward` | crates/kernel-core/src/capability.rs:239-269 | Along every lineage rights only shrink, right by right: each of the 32 rights a node has is a right of every ancestor. |
| `Abi.SubsetBits` | crates/gaxera-abi/src/lib.rs:284-290 | The subset test, the containment test and the conjunction of two sets of rights all say that no single right is in the first set alone. |
| `Abi.ManageBit` | crates/gaxera-abi/src/lib.rs:268-286 | The manage right is right 6. |
| `Derivation.LineageTransitive` | crates/kernel-core/src/capability.rs:330-356 | Ancestry is transitive. |
| `Derivation.LineageStable` | crates/kernel-core/src/capability.rs:515-786 | Between any two states of a run a surviving node keeps exactly its ancestors, all of them alive. |
| `Derivation.GrowKeeps` | crates/kernel-core/src/capability.rs:515-605 | Creating a node keeps the forest well formed and free of garbage and changes no existing node. |
| `Derivation.RevokeKeeps` | crates/kernel-core/src/capability.rs:383-402 | Marking a node revoked keeps the shape of the forest and everything but that mark. |
| `Derivation.PruneKeeps` | crates/kernel-core/src/capability.rs:753-786 | Freeing unsupported ancestors upwards keeps the forest well formed and leaves no garbage. |
| `Derivation.DeleteExact` | crates/kernel-core/src/capability.rs:465-477 | Deleting a held node removes exactly the nodes that only it kept alive: those without another held node at or below them. |
| `Derivation.ApplyKeeps` | crates/kernel-core/src/capability.rs:211-477 | Every operation keeps the invariant of the forest and only extends history. |
| `Derivation.RunGood` | crates/kernel-core/src/capability.rs:211-477 | The invariant holds in every state of every run. |
| `Derivation.RunExtends` | crates/kernel-core/src/capability.rs:211-477 | Over any stretch of a run parents, targets and rights of surviving nodes never change and revocation is never undone. |
| `Derivation.FreedForever` | crates/kernel-core/src/capability.rs:753-786 | A freed node never comes back in any later state of a run. |
| `Derivation.RevocationPermanent` | crates/kernel-core/src/capability.rs:699-738 | For nodes: once a node is revoked, nothing that is then or ever becomes its descendant regains its standing, in any later state of any run. `Registries.NothingBelowRevoked` says it for handles. |
| `Derivation.RevokedSubtreeShrinks` | crates/kernel-core/src/capability.rs:358-402 | Below a revoked node nothing is ever derived again: its subtree only shrinks over every run. |
| `Derivation.RevokeSelective` | crates/kernel-core/src/capability.rs:383-402 | For nodes: revoking a node spoils exactly its subtree; the standing and the rights of every other node are unchanged. `Registries.RevokeStanding` says it for handles. |
| `Derivation.StandingStep` | crates/kernel-core/src/capability.rs:699-738 | One operation changes the standing of a surviving capability only if it revokes a node of its lineage. |
| `Derivation.OnlyLineageMatters` | crates/kernel-core/src/capability.rs:699-738 | Over a whole run the standing of a capability changes exactly if some operation of the run revokes a node of its lineage. |
| `Derivation.RevokePending` | crates/kernel-core/src/capability.rs:449-463 | Revoking one unrevoked strict descendant of a root takes exactly that node out of the set of unrevoked descendants. |
| `Derivation.RevokeMore` | crates/kernel-core/src/capability.rs:449-463 | Revoking one more node after a set of nodes is revoking the larger set, whatever the order. |
| `Derivation.AdditionsKeepStanding` | crates/kernel-core/src/ipc.rs:383-411 | Adding nodes below existing ones changes the standing of no existing capability. |
| `NodeTable.StaleIdIffNoWrap` | crates/kernel-core/src/capability.rs:788-813 | A node id taken at one epoch of its entry resolves at a later one exactly when the generations wrapped around in between. |
| `NodeTable.LiveIds` | crates/kernel-core/src/capability.rs:788-813 | A live entry of the node vector is denoted by exactly one id, and that id denotes one node of the forest. |
| `NodeTable.LiveBound` | crates/kernel-core/src/capability.rs:549-605 | Live nodes and free entries together never exceed the vector. |
| `NodeTable.ReferenceBound` | crates/kernel-core/src/capability.rs:740-751 | No reference count can exceed the number of live nodes, so counting never overflows. |
| `NodeTable.GrowRepresents` | crates/kernel-core/src/capability.rs:549-633 | Taking an entry, writing the new record and linking it in front of its siblings represents the grown forest: parents, sibling lists, reference counts, generations and free list all agree. |
| `NodeTable.RevokeRepresents` | crates/kernel-core/src/capability.rs:396-401 | Setting the revoked mark in a record represents the forest with that node revoked. |
| `NodeTable.UnholdRepresents` | crates/kernel-core/src/capability.rs:753-769 | Emptying a slot turns its reference into one that is still to be given up. |
| `NodeTable.SettleRepresents` | crates/kernel-core/src/capability.rs:753-769 | Giving up one of several references settles the account of a node that stays. |
| `NodeTable.DropRepresents` | crates/kernel-core/src/capability.rs:635-697 | Cutting a leaf out of its sibling list and putting its entry at the head of the free list represents the forest without it, with one reference of its parent still to be given up. |
| `NodeLinks.LineHolds` | crates/kernel-core/src/capability.rs:635-697 | Following first-child and next-sibling links from a parent visits exactly its live children, once each, and ends. |
| `NodeLinks.WalkFacts` | crates/kernel-core/src/capability.rs:699-738 | The record at a live id states the parent, first child, rights and mark the forest gives that node, and lineages are no longer than the vector. |
| `NodeLinks.DescendantVia` | crates/kernel-core/src/capability.rs:407-447 | A strict descendant lies at or below one of the children. |
| `NodeLinks.NothingPending` | crates/kernel-core/src/capability.rs:407-447 | If all children are revoked and have nothing unrevoked below them, nothing below the node is unrevoked. |
| `NodeLinks.LineGrows` | crates/kernel-core/src/capability.rs:607-633 | Setting two links puts a new child in front of the list of children that the links of its parent thread. |
| `Resources.ResourceDomain.ChargeCapability` | crates/kernel-core/src/resource.rs:219-225 | A charge succeeds exactly below the limit, adds one capability and nothing else; a refusal changes nothing. |
| `Resources.ResourceDomain.ReleaseCapability` | crates/kernel-core/src/resource.rs:227-233 | A release succeeds exactly when something is charged and undoes one charge. |
| `Resources.ResourceDomain.ChargeObject` | crates/kernel-core/src/resource.rs:203-209 | A charge of one object succeeds exactly below the limit and adds exactly that. |
| `Resources.ResourceDomain.ReleaseObject` | crates/kernel-core/src/resource.rs:211-217 | A release of one object succeeds exactly when one is charged and undoes the charge. |
| `Resources.ResourceDomain.NewChild` | crates/kernel-core/src/resource.rs:83-135 | A child domain is created exactly when its whole budget fits in what the parent has left; the parent is charged the budget, or a failed attempt leaves it as it was, except when the count of children is at its maximum, where the charge stays. |
| `Resources.ResourceDomain.RefundToParent` | crates/kernel-core/src/resource.rs:137-165 | An idle child refunds exactly its budget, once. |
| `Resources.RefundNeverUnderflows` | crates/kernel-core/src/resource.rs:137-165 | In every consistent hierarchy a refund never finds less charged than it gives back. |
| `Resources.PostConsistent` | crates/kernel-core/src/resource.rs:83-165 | Every operation on a hierarchy of domains, including the failed creation that keeps its charge, keeps each usage equal to direct charges plus leaks plus the budgets of active children, within every limit. |
| `Resources.AccountingExact` | crates/kernel-core/src/resource.rs:83-261 | In every state of every history each usage is direct charges plus leaks plus budgets of active children, and no limit is exceeded. |
| `Resources.HistoryConserved` | crates/kernel-core/src/resource.rs:83-261 | In every state of every history the sum of all usages is the sum of what is held or leaked and of active budgets. |
| `Resources.DelegationCreatesNothing` | crates/kernel-core/src/resource.rs:83-135 | However deep the delegation, what all domains hold or have leaked never exceeds the budgets that are not carved out of another domain. |
| `Resources.LeakedIff` | crates/kernel-core/src/resource.rs:115-121 | A domain has a leaked charge exactly if some earlier creation of a child of it failed at the maximum count of children with a positive budget. |
| `Resources.ExactIffNothingLeaked` | crates/kernel-core/src/resource.rs:83-261 | In every state of every history a domain is charged exactly for what it holds and for its active children, if and only if no creation of a child of it has failed at the maximum count. |
| `Resources.LeakedCapability` | crates/kernel-core/src/resource.rs:115-121 | A history of one domain with 2^32 - 1 children and one more creation, after which a capability is charged that nobody holds. |
| `Objects.ObjectArena.constructor` | crates/kernel-core/src/object.rs:123-136 | An empty arena of the given capacity. |
| `Objects.ObjectArena.Create` | crates/kernel-core/src/object.rs:226-272 | Creation succeeds exactly if the factory allows the type, the domain matches, there is room and quota; it brings to life one id that named nothing, changes no other, and charges one object; each refusal has its own error. |
| `Objects.ObjectArena.Destroy` | crates/kernel-core/src/object.rs:274-297 | Destruction succeeds exactly for a live object of the caller's domain with its charge on record; that id dies, all others stay, and the charge is returned. |
| `Objects.PopThreaded` | crates/kernel-core/src/object.rs:226-272 | Taking the head of the free list leaves the list of the other free slots. |
| `Objects.PushThreaded` | crates/kernel-core/src/object.rs:274-297 | Freeing a slot puts it at the head of the free list. |
| `Objects.DestroyedIdIffNoWrap` | crates/kernel-core/src/object.rs:299-327 | A destroyed object's id names a live object again exactly when its slot's generations wrapped around. |
| `Objects.OwnedByGrow` | crates/kernel-core/src/object.rs:226-272 | A creation adds one to the live objects of its owner and to nobody else. |
| `Objects.OwnedByShrink` | crates/kernel-core/src/object.rs:274-297 | A destruction takes one from the live objects of its owner and from nobody else. |
| `CapabilitySpaces.CapabilitySpace.Insert` | crates/kernel-core/src/capability.rs:130-152 | Insertion succeeds exactly when there is room; the new handle resolves to the node, did not resolve before, every other handle and every recycling count is unchanged. |
| `CapabilitySpaces.CapabilitySpace.Remove` | crates/kernel-core/src/capability.rs:154-170 | Removal succeeds exactly for a handle that resolves, returns its node, and afterwards only that handle is gone; the slot has been recycled once more. |
| `CapabilitySpaces.CapabilitySpace.CapacityIsRoom` | crates/kernel-core/src/capability.rs:126-128 | The capacity test is exact: it succeeds exactly when a slot is free or can still be added. |
| `CapabilitySpaces.TakeThreaded` | crates/kernel-core/src/capability.rs:130-152 | Taking a slot leaves the free list of the others. |
| `CapabilitySpaces.GiveBackThreaded` | crates/kernel-core/src/capability.rs:154-170 | Giving a slot back puts it at the head of the free list. |
| `CapabilitySpaces.RemovedHandleIffNoWrap` | crates/kernel-core/src/capability.rs:172-186 | A removed handle resolves again exactly when its slot's generations wrapped around. |
| `Registries.PerformSeated` | crates/kernel-core/src/capability.rs:211-477 | Every operation keeps each held node in exactly one cell and each occupied cell on a held node. |
| `Registries.MoveKeeps` | crates/kernel-core/src/capability.rs:211-477 | Every operation of the engine keeps the invariant and is one operation of the derivation forest. |
| `Registries.TraceIsRun` | crates/kernel-core/src/capability.rs:211-477 | The forests of any history of the engine are a run of the derivation forest. |
| `Registries.CellHistory` | crates/kernel-core/src/capability.rs:130-170 | Over any stretch of any history cells stay, recycling counts never fall, and a cell that was not recycled keeps its node. |
| `Registries.RemovedHandleResolves` | crates/kernel-core/src/capability.rs:154-185 | At any later time of any history of the engine a removed handle resolves exactly when its cell is occupied after a whole number of generation periods. |
| `Registries.ReissuedIffWrapped` | crates/kernel-core/src/capability.rs:130-170 | An insertion hands out a handle that was removed earlier exactly after a whole number of generation periods. |
| `Registries.RevokeStanding` | crates/kernel-core/src/capability.rs:383-402 | Revoking a node makes the answer `Revoked` for exactly the handles that lead to it or below it and leaves the answer for every other handle alone. |
| `Registries.HandleFate` | crates/kernel-core/src/capability.rs:172-185 | Over any stretch of any history a handle whose cell was not recycled is answered `Revoked` exactly if it was or a node of its lineage has been revoked since, and as before otherwise; a recycled one is stale short of a wrap. |
| `Registries.RevokedHandleForever` | crates/kernel-core/src/capability.rs:699-738 | A handle that is answered `Revoked` is never good again in any later state of any history, short of a wrap of its cell. |
| `Registries.NothingBelowRevoked` | crates/kernel-core/src/capability.rs:699-738 | Once a node is revoked no handle that leads to it or below it, then or later, is good again. |
| `CapabilitySystems.CapabilitySystem.constructor` | crates/kernel-core/src/capability.rs:196-209 | An empty engine satisfies the engine invariant. |
| `CapabilitySystems.CapabilitySystem.LinkChild` | crates/kernel-core/src/capability.rs:607-633 | The child becomes the first of the children its parent's links thread and the old ones follow; only its sibling link and the parent's first-child link change. |
| `CapabilitySystems.CapabilitySystem.AddReference` | crates/kernel-core/src/capability.rs:740-751 | One more reference is counted exactly for a live node whose counter is not exhausted; otherwise the error says which and nothing changes. |
| `CapabilitySystems.CapabilitySystem.AllocateNode` | crates/kernel-core/src/capability.rs:549-605 | Allocation succeeds exactly if the parent can be referenced and an entry can be taken: the head of an intact free list, or a new one below capacity; parent count, record and links are then updated together. |
| `CapabilitySystems.CapabilitySystem.TakeEntry` | crates/kernel-core/src/capability.rs:557-600 | The head of the free list is recycled at its current generation, or a new entry is appended; it fails exactly if the list is broken or the vector is full. |
| `CapabilitySystems.CapabilitySystem.GrowForest` | crates/kernel-core/src/capability.rs:549-633 | Allocation and linking together take the engine from one forest to the forest with one more node. |
| `CapabilitySystems.CapabilitySystem.UnlinkChild` | crates/kernel-core/src/capability.rs:635-697 | From an intact sibling list exactly the child is cut out, all other links stay, and the walk ends. |
| `CapabilitySystems.CapabilitySystem.FreeNode` | crates/kernel-core/src/capability.rs:771-779 | The entry advances its generation and becomes the head of the free list. |
| `CapabilitySystems.CapabilitySystem.ReleaseStep` | crates/kernel-core/src/capability.rs:753-786 | One round of release gives up one reference: the node stays, or it is freed and its parent's reference is next. |
| `CapabilitySystems.CapabilitySystem.ReleaseNode` | crates/kernel-core/src/capability.rs:753-786 | Release terminates and frees exactly the chain of ancestors nothing else supports; neither of its error cases can occur. |
| `CapabilitySystems.CapabilitySystem.ValidateNode` | crates/kernel-core/src/capability.rs:699-738 | Validation succeeds exactly if the id is live, no node of its lineage is revoked and its object is live with the recorded type; the step limit never cuts a live lineage short. |
| `CapabilitySystems.CapabilitySystem.IsDescendantOf` | crates/kernel-core/src/capability.rs:330-356 | The lineage test is exact for all live nodes. |
| `CapabilitySystems.CapabilitySystem.FindUnrevokedDescendant` | crates/kernel-core/src/capability.rs:407-447 | The search finds an unrevoked strict descendant whenever there is one. |
| `CapabilitySystems.CapabilitySystem.RevokeOneDescendant` | crates/kernel-core/src/capability.rs:449-463 | Exactly one unrevoked strict descendant is revoked and reported, as one step of the engine's history, or there is none and nothing changes. |
| `CapabilitySystems.CapabilitySystem.SelectiveRevoke` | kernel/src/arch/x86_64/syscall.rs:147-163 | Repeating it terminates after as many rounds as there were unrevoked descendants: each of them is revoked once and reported once with what it granted, and each round is a step of the engine's history. |
| `CapabilitySystems.CapabilitySystem.CreateIn` | crates/kernel-core/src/capability.rs:534-547 | With room for both, a node and its slot are created together, as one insertion of the engine's history. |
| `CapabilitySystems.CapabilitySystem.InsertNew` | crates/kernel-core/src/capability.rs:515-547 | All or nothing: charge, node and slot are all made or nothing changes; it succeeds exactly if domain, slot, node and quota checks pass, each refusal has its error, and the handle is the one of the cell's current recycling count. |
| `CapabilitySystems.CapabilitySystem.InsertRoot` | crates/kernel-core/src/capability.rs:211-237 | A root capability is created exactly for a live object of the stated type with room and quota; each refusal has its error and changes nothing. |
| `CapabilitySystems.CapabilitySystem.InsertDescendant` | crates/kernel-core/src/capability.rs:239-269 | A capability is created below a node exactly if the node validates and every right asked for is one of its rights, with room and quota; escalation is reported exactly if some right is asked for and not granted; each refusal has its error and changes nothing. |
| `CapabilitySystems.CapabilitySystem.Derive` | crates/kernel-core/src/capability.rs:358-381 | A derivation succeeds exactly if the handle validates, every right asked for is granted and there is room and quota; escalation is reported exactly if some right is asked for and not granted; the new handle leads to a child with those rights, and a failure changes nothing. |
| `CapabilitySystems.CapabilitySystem.Lookup` | crates/kernel-core/src/capability.rs:271-288 | A lookup yields the object exactly if the handle validates, the type matches and every required right is granted; it is denied exactly if some required right is not. |
| `CapabilitySystems.CapabilitySystem.Revoke` | crates/kernel-core/src/capability.rs:383-402 | A revocation succeeds exactly for a handle that validates and carries right 6, the manage right; afterwards every handle of every space that leads to that node or below it is answered `Revoked`, and every other handle is answered as before. |
| `CapabilitySystems.CapabilitySystem.Delete` | crates/kernel-core/src/capability.rs:465-477 | A deletion succeeds exactly for a resolving handle of the right domain; it removes that handle, recycles its cell, frees exactly the unsupported nodes and returns one charge. `Kernels.Kernel.Delete` shows that the charge is always there. |
| `CapabilitySystems.CapabilitySystem.Place` | crates/kernel-core/src/capability.rs:534-547 | Putting a new node into a vacant slot is an insertion of the engine's history: one cell changes and keeps its recycling count. |
| `CapabilitySystems.CapabilitySystem.Displace` | crates/kernel-core/src/capability.rs:465-477 | Emptying a slot is a removal of the engine's history: it names the one node the cell held and advances its recycling count. |
| `CapabilitySystems.InsertedLeads` | crates/kernel-core/src/capability.rs:515-547 | The new handle leads to the new node, led nowhere before, and every other handle leads where it did. |
| `CapabilitySystems.CapabilitySystem.Relinquish` | crates/kernel-core/src/capability.rs:753-786 | Giving up the reference of a displaced node frees exactly the unsupported nodes and restores the engine invariant. |
| `CapabilitySystems.CapabilitySystem.Attach` | crates/kernel-core/src/capability.rs:88-103 | A new, empty space joins the engine as one step of its history. |
| `CapabilitySystems.CapabilitySystem.NodeForLeads` | crates/kernel-core/src/capability.rs:172-185 | Resolving a handle succeeds exactly if its cell holds a node at the handle's generation, and yields that node's id; the two errors are told apart exactly. |
| `CapabilitySystems.CapabilitySystem.VerdictIsAnswer` | crates/kernel-core/src/capability.rs:699-738 | What validating a handle answers is determined by the forest, the cells and the liveness of the object. |
| `CapabilitySystems.RevokeAnswer` | crates/kernel-core/src/capability.rs:383-402 | Revoking a node changes the answer for exactly the handles at or below it. |
| `Transfers.Prepare` | crates/kernel-core/src/ipc.rs:359-381 | Preparation succeeds exactly if the descriptors are few enough and every one is derivable; otherwise the error is that of the first that is not; it changes nothing. |
| `Transfers.TakeBack` | crates/kernel-core/src/ipc.rs:397-405 | Deleting a handle made earlier in the same transaction cannot fail and undoes exactly that derivation. |
| `Transfers.Rollback` | crates/kernel-core/src/ipc.rs:397-405 | Taking back all handles of a transaction removes exactly its nodes, handles and charges. |
| `Transfers.Restored` | crates/kernel-core/src/ipc.rs:383-411 | With nothing of the transaction left, every record of every surviving node is exactly as before. |
| `Transfers.CommitStep` | crates/kernel-core/src/ipc.rs:389-396 | One transfer succeeds exactly if its capability is still derivable and slot, node and quota have room; each refusal has its error. |
| `Transfers.Abort` | crates/kernel-core/src/ipc.rs:397-405 | An unfinished transaction is undone completely. |
| `Transfers.Commit` | crates/kernel-core/src/ipc.rs:383-411 | A multi-capability transfer succeeds exactly if all transfers are derivable and there is room for all; otherwise every record, every handle, every holder and the recipient's charge are as before and the error is that of the first that failed. What happened on the way is a stretch of the engine's history. |
| `Transfers.StandingKept` | crates/kernel-core/src/ipc.rs:383-411 | Additions made by a transaction do not change what an existing handle is answered. |
| `Transfers.TradeOne` | crates/kernel-core/src/ipc.rs:389-396 | Each derivation of a transaction adds one node and one handle to it and disturbs nothing else. |
| `Transfers.UndoOne` | crates/kernel-core/src/ipc.rs:397-405 | Each deletion of a rollback takes one node and one handle out again and disturbs nothing else. |
| `Kernels.Kernel.constructor` | kernel/src/global.rs:116-119 | Empty tables with empty books satisfy the kernel invariant. |
| `Kernels.Kernel.ChargeExplained` | crates/kernel-core/src/resource.rs:203-233 | In every state the kernel operations lead to, a domain's capability charge is its occupied slots plus its active children's budgets plus leaks, within its limit, and the leaks are missing exactly if no creation of a child of it failed at the maximum count; the same for objects. |
| `Kernels.Kernel.RemovedHandle` | crates/kernel-core/src/capability.rs:154-185 | A handle that any earlier step removed resolves now exactly when its slot is occupied after a whole number of generation periods. |
| `Kernels.Kernel.HandleSince` | crates/kernel-core/src/capability.rs:699-738 | What any handle that led to a node at any earlier step is answered now: revoked exactly through a revocation in its lineage, the same grant otherwise, stale once recycled short of a wrap. |
| `Kernels.Kernel.InsertRoot` | crates/kernel-core/src/capability.rs:211-237 | Inserting keeps the books: one slot and one charge, or neither. |
| `Kernels.Kernel.InsertDescendant` | crates/kernel-core/src/capability.rs:239-269 | Inserting below a node keeps the books: one slot and one charge, or neither. |
| `Kernels.Kernel.Derive` | crates/kernel-core/src/capability.rs:358-381 | Deriving keeps the books: one slot and one charge, or neither. |
| `Kernels.Kernel.Delete` | crates/kernel-core/src/capability.rs:465-477 | Deleting keeps the books, and its accounting error cannot occur: what a slot holds was charged. |
| `Kernels.Kernel.Revoke` | crates/kernel-core/src/capability.rs:383-402 | Revoking leaves the books alone. |
| `Kernels.Kernel.SelectiveRevoke` | kernel/src/arch/x86_64/syscall.rs:147-163 | The selective teardown leaves the books alone. |
| `Kernels.Kernel.Attach` | crates/kernel-core/src/capability.rs:88-103 | A new space leaves the books alone. |
| `Kernels.Kernel.Commit` | crates/kernel-core/src/ipc.rs:383-411 | A committed transaction is charged for exactly what it delivered; a failed one is not charged, and its rollback cannot run out of charges. |
| `Kernels.Kernel.NewRoot` | crates/kernel-core/src/resource.rs:63-77 | A new domain starts with nothing charged. |
| `Kernels.Kernel.NewChild` | crates/kernel-core/src/resource.rs:83-135 | A child's budget is charged to its parent; at the maximum count of children it is charged and leaked. |
| `Kernels.Kernel.Refund` | crates/kernel-core/src/resource.rs:137-165 | A refund succeeds exactly for an idle active child of that parent; the underflow errors cannot occur. |
| `Kernels.Kernel.Create` | crates/kernel-core/src/object.rs:226-272 | Creating an object keeps the books: one live object and one charge, or neither. |
| `Kernels.Kernel.Destroy` | crates/kernel-core/src/object.rs:274-297 | Destroying succeeds exactly for a live object of that domain; its accounting error cannot occur. |
| `Kernels.BookInsert` | crates/kernel-core/src/capability.rs:515-547 | A slot filled and a capability charged leave every domain's charge matched by its slots. |
| `Kernels.BookRemove` | crates/kernel-core/src/capability.rs:465-477 | A slot emptied always has a charge to release, and releasing it leaves every charge matched. |
| `Kernels.BookCommit` | crates/kernel-core/src/ipc.rs:383-411 | A transaction's deliveries and its one charge leave every domain's charge matched by its slots. |
| `Kernels.BookRefund` | crates/kernel-core/src/resource.rs:137-165 | A refund finds the whole budget and the child's reference charged to the parent and leaves every charge matched. |
| `Kernels.BookLeak` | crates/kernel-core/src/resource.rs:115-121 | A creation that fails at the maximum count leaves every charge matched, with its budget among the leaks. |
| `Kernels.BookDestroy` | crates/kernel-core/src/object.rs:274-297 | A live object always has a charge to release. |
| `Kernels.SharesAreBudgets` | crates/kernel-core/src/resource.rs:83-165 | The shares in the books are the limits of the active domains that name the domain as their parent. |
| `Poly1305.Mac` | crates/crypto_server/src/lib.rs:193-395 | For every message and key the tag is the MAC of section 2.5 of RFC 8439, with no intermediate overflow. |
| `Poly1305.TagIsPolynomial` | crates/crypto_server/src/lib.rs:193-395 | That MAC is the polynomial in r, masked with the clamp constant of the RFC, over the padded blocks modulo 2^130 - 5, plus s, modulo 2^128. |
| `Poly1305.AbsorbIsPolynomial` | crates/crypto_server/src/lib.rs:253-326 | Absorbing block by block evaluates the polynomial. |
| `Poly1305.Clamp` | crates/crypto_server/src/lib.rs:199-207 | The seven masked bytes spell r in conjunction with the 128-bit clamp constant of RFC 8439. |
| `Poly1305.MaskedNumber` | crates/crypto_server/src/lib.rs:201-207 | Masking byte by byte masks the number the bytes spell. |
| `Poly1305.ClampNumber` | crates/crypto_server/src/lib.rs:201-207 | The byte masks spell the clamp constant of RFC 8439. |
| `Poly1305.LoadLimbs` | crates/crypto_server/src/lib.rs:258-273 | The five limbs have 26 bits each and spell the block. |
| `Poly1305.LoadBlock` | crates/crypto_server/src/lib.rs:254-256 | A padded block spells the chunk with a one byte appended. |
| `Poly1305.FoldedProduct` | crates/crypto_server/src/lib.rs:281-305 | The five coefficients with their factors of five are congruent to the full product modulo the prime. |
| `Poly1305.Carry` | crates/crypto_server/src/lib.rs:307-325 | The delayed carries keep the value modulo the prime and bring every limb back into range. |
| `Poly1305.Step` | crates/crypto_server/src/lib.rs:258-325 | One block adds its number and multiplies by r modulo the prime; all machine words stay in range. |
| `Poly1305.Accumulate` | crates/crypto_server/src/lib.rs:253-373 | After all chunks and the final reduction the accumulator is the fully reduced value of the polynomial. |
| `Poly1305.Normalize` | crates/crypto_server/src/lib.rs:329-346 | The carry chain brings all limbs to 26 bits in one pass. |
| `Poly1305.AddFive` | crates/crypto_server/src/lib.rs:348-360 | Adding five with carries gives the accumulator plus five. |
| `Poly1305.SignMask` | crates/crypto_server/src/lib.rs:360-362 | The mask is all ones exactly when the sum reached 2^130. |
| `Poly1305.ReachedPrime` | crates/crypto_server/src/lib.rs:348-367 | The sum reaches 2^130 exactly when the accumulator has reached the prime. |
| `Poly1305.SubtractPrime` | crates/crypto_server/src/lib.rs:348-373 | The branch-free selection yields the accumulator modulo the prime. |
| `Poly1305.Select` | crates/crypto_server/src/lib.rs:363-367 | With a mask of all zeros or all ones the masked disjunction of two words is one of them. |
| `Poly1305.Low26` | crates/crypto_server/src/lib.rs:307-346 | Masking with 2^26 - 1 takes the remainder. |
| `Words.JoinAdds` | crates/crypto_server/src/lib.rs:375-384 | The bitwise disjunction of a low field and a multiple of a larger power of two is their sum. |
| `Poly1305.Join` | crates/crypto_server/src/lib.rs:375-384 | Each pair of fields the code joins adds up: their bits do not meet. |
| `Words.AndParts` | crates/crypto_server/src/lib.rs:201-207 | Conjunction works on the low and high parts of a number apart. |
| `Poly1305.Pack` | crates/crypto_server/src/lib.rs:375-384 | The two words hold the accumulator modulo 2^128. |
| `Poly1305.Add` | crates/crypto_server/src/lib.rs:386-389 | The wrapping additions with the compared carry add modulo 2^128. |
| `Poly1305.LoadWord` | crates/crypto_server/src/lib.rs:380-381 | Eight bytes are read as a little-endian number. |
| `Poly1305.TagBytes` | crates/crypto_server/src/lib.rs:391-394 | The sixteen bytes spell the sum. |
| `Heap.HeapArena.constructor` | crates/libgaxera/src/heap.rs:45-55 | An empty heap. |
| `Heap.HeapArena.Init` | crates/libgaxera/src/heap.rs:57-61 | The heap becomes usable. |
| `Heap.HeapArena.Teardown` | crates/libgaxera/src/heap.rs:63-77 | The heap forgets all blocks and chunks. |
| `Heap.HeapArena.FindFreeBlock` | crates/libgaxera/src/heap.rs:123-138 | The lowest descriptor that fits, or none fits. |
| `Heap.HeapArena.FindInactiveSlot` | crates/libgaxera/src/heap.rs:185-187 | The lowest unused descriptor, or none is unused. |
| `Heap.HeapArena.SplitAndAllocate` | crates/libgaxera/src/heap.rs:140-183 | The aligned range is cut out of the block and handed out; each remainder stays tracked, in the first inactive descriptor, exactly if a descriptor is left for it, and nothing else changes. |
| `Heap.HeapArena.MergeInto` | crates/libgaxera/src/heap.rs:194-215 | A block takes in the free block that starts at its end, if there is one; the end address computed before the scan is still the right one. |
| `Heap.HeapArena.Coalesce` | crates/libgaxera/src/heap.rs:189-217 | Terminates, keeps the set of free bytes and all allocations, and leaves no two adjacent free blocks; a table without any stays as it is. |
| `Heap.HeapArena.GrowHeap` | crates/libgaxera/src/heap.rs:219-278 | Growth adds exactly one chunk of free bytes at the top or changes nothing, and each refusal has its cause. |
| `Heap.HeapArena.FindOrGrow` | crates/libgaxera/src/heap.rs:84-110 | The first block that fits is found, coalescing and growing only if none does; if nothing is found, growth was refused and no aligned run of free bytes is long enough. |
| `Heap.HeapArena.GrowToFit` | crates/libgaxera/src/heap.rs:93-110 | Chunks are added only as long as nothing fits and the kernel grants them, and the first block that then fits is found. |
| `Heap.HeapArena.Allocate` | crates/libgaxera/src/heap.rs:79-111 | The block is aligned, of the larger of the size and the alignment asked for, made of bytes that were free or newly mapped, and is the only new allocation; nothing tracked is lost while descriptors last; null means uninitialized, or growth refused and no aligned free run that long. |
| `Heap.HeapArena.Deallocate` | crates/libgaxera/src/heap.rs:113-121 | Exactly the live allocation that starts there becomes free; any other address changes nothing. |
| `Heap.AllocationsDisjoint` | crates/libgaxera/src/heap.rs:79-121 | Live allocations never overlap each other or the free bytes. |
| `Heap.RunInOneBlock` | crates/libgaxera/src/heap.rs:123-138 | After coalescing every run of free bytes lies inside one block. |
| `Heap.NoFitIffNoRun` | crates/libgaxera/src/heap.rs:123-138 | On a coalesced table first fit fails exactly when no aligned free run can hold the request. |
| `Heap.Adjustment` | crates/libgaxera/src/heap.rs:126-131 | The adjustment reaches the least aligned address at or after the start of the block. |
| `Heap.MergedMeaning` | crates/libgaxera/src/heap.rs:209-212 | A merge keeps the free bytes and the allocations. |
| `Heap.TakenSound` | crates/libgaxera/src/heap.rs:149-154 | Cutting a block hands out exactly the range and untracks the rest of the block. |
| `Heap.RecordSound` | crates/libgaxera/src/heap.rs:156-180 | Recording a remainder makes exactly its bytes free again. |
| `Heap.ReturnedSound` | crates/libgaxera/src/heap.rs:113-121 | Returning a block frees exactly its bytes and ends exactly its allocation. |
| `Heap.LostRemainder` | crates/libgaxera/src/heap.rs:79-183 | A new heap that hands out 64 bytes 1023 times and then 32 loses the 32 bytes behind them: free before that request, neither free nor allocated after it. |
| `Rotation.RotateVector` | crates/gaxfs_vector_index/src/quantization.rs:31-53 | For every length for which no index leaves the output the loops compute the passes of doubling stride, scaled; for every power of two that is the scaled Walsh-Hadamard transform and nothing beyond it is touched. |
| `Rotation.InverseRotateVector` | crates/gaxfs_vector_index/src/quantization.rs:56-58 | For every power of two what the inverse returns rotates back to its input. |
| `Rotation.RotateTwice` | crates/gaxfs_vector_index/src/quantization.rs:31-58 | Over exact reals with c * c * N = 1 rotating twice gives back every vector. |
| `Rotation.RotationKeepsDot` | crates/gaxfs_vector_index/src/quantization.rs:31-53 | The rotation keeps all inner products. |
| `Rotation.SelfInverse` | crates/gaxfs_vector_index/src/quantization.rs:35-46 | Transforming twice multiplies by the length. |
| `Rotation.Parseval` | crates/gaxfs_vector_index/src/quantization.rs:35-46 | The transform multiplies inner products by the length. |
| `Rotation.TransformIsMatrix` | crates/gaxfs_vector_index/src/quantization.rs:35-46 | Each coordinate is a row of the Hadamard matrix of signs times the vector. |
| `Rotation.Linear` | crates/gaxfs_vector_index/src/quantization.rs:35-46 | The transform respects sums and differences. |
| `Rotation.Homogeneous` | crates/gaxfs_vector_index/src/quantization.rs:35-46 | The transform respects scaling. |
| `Rotation.StageDoubles` | crates/gaxfs_vector_index/src/quantization.rs:36-45 | One pass turns transforms of all blocks of length h into transforms of all blocks of length 2h. |
| `Rotation.Butterfly` | crates/gaxfs_vector_index/src/quantization.rs:38-43 | The inner loop combines two neighbouring blocks in place. |
| `Rotation.Pass` | crates/gaxfs_vector_index/src/quantization.rs:37-44 | The middle loop is one stage over the blocks that start before the end of the input. |
| `Rotation.Transform` | crates/gaxfs_vector_index/src/quantization.rs:35-46 | The outer loop is the sequence of all passes. |
| `Rotation.SweepIsTransform` | crates/gaxfs_vector_index/src/quantization.rs:35-46 | For every power of two the passes add up to the transform. |
| `Rotation.ReachBelow` | crates/gaxfs_vector_index/src/quantization.rs:36-44 | No pass reaches beyond the next power of two. |
| `Rotation.InBoundsIff` | crates/gaxfs_vector_index/src/quantization.rs:36-41 | Every index the loops form is in range exactly when the output holds the next power of two. |
| `Rotation.InBoundsIffPowerOfTwo` | crates/gaxfs_vector_index/src/quantization.rs:36-41 | With an output as long as the input every index the loops form is in range exactly when the length is a power of two. |
| `Rotation.LengthThree` | crates/gaxfs_vector_index/src/quantization.rs:36-41 | For three coordinates the first pass reads the fourth. |
| `Words.MaskIsRemainder` | crates/net_types/src/ring.rs:98-111 | Masking with capacity less one takes the remainder. |
| `PacketRing.RefusedIffFull` | crates/net_types/src/ring.rs:85-97 | A push is refused exactly when the ring was full as the consumer index was loaded. |
| `PacketRing.EmptyIffDrained` | crates/net_types/src/ring.rs:105-110 | A pop finds nothing exactly when the ring was empty as the producer index was loaded. |
| `PacketRing.StepKeeps` | crates/net_types/src/ring.rs:85-115 | Every load and store of either side keeps the ring invariant, across index wrap-around. |
| `PacketRing.RunKeeps` | crates/net_types/src/ring.rs:53-115 | The invariant holds in every state of every interleaving. |
| `PacketRing.FirstInFirstOut` | crates/net_types/src/ring.rs:85-115 | In every state of every interleaving popped slots are a prefix of pushed slots, at most a capacity is outstanding, and outstanding slots are distinct and in range. |
| `PacketRing.SidesReadLength` | crates/net_types/src/ring.rs:68-72 | Producer and consumer always read a true length between zero and capacity. |
| `PacketRing.ObservedLengthExact` | crates/net_types/src/ring.rs:68-72 | Any other observer reads a length within capacity exactly when the consumer has not passed the producer index it loaded. |
| `PacketRing.ObserverMisreads` | crates/net_types/src/ring.rs:68-72 | An interleaving in which such an observer reads 2^32 - 1 on a ring of one slot. |
| `Extents.ExtentAllocator.constructor` | crates/gax_storage_engine/src/extent_allocator.rs:25-32 | All blocks start free. |
| `Extents.MarkOne` | crates/gax_storage_engine/src/extent_allocator.rs:93-107 | After the bit update the bit test answers the new value for exactly that block and as before for every other. |
| `Extents.ExtentAllocator.SetBlockAllocated` | crates/gax_storage_engine/src/extent_allocator.rs:99-107 | The bit update changes the mark of exactly that block. |
| `Extents.ExtentAllocator.FirstAllocated` | crates/gax_storage_engine/src/extent_allocator.rs:56-64 | The range is free, or the block found is allocated. |
| `Extents.ExtentAllocator.AllocateExtent` | crates/gax_storage_engine/src/extent_allocator.rs:35-82 | The lowest aligned free run is returned and exactly its blocks are marked; a nonzero request fails exactly when there is none; the skipping scan terminates. |
| `Extents.ExtentAllocator.FreeExtent` | crates/gax_storage_engine/src/extent_allocator.rs:85-91 | Exactly the blocks of the extent that exist are freed. |
| `Extents.Skip` | crates/gax_storage_engine/src/extent_allocator.rs:59-62 | No run the scan skips is free. |
| `Extents.NextMultiple` | crates/gax_storage_engine/src/extent_allocator.rs:51-54 | Rounding up skips no aligned start. |
| `Extents.FreeUndoesAllocate` | crates/gax_storage_engine/src/extent_allocator.rs:35-91 | Freeing what was allocated restores every mark. |
| `Bits.WithBit` | crates/gax_storage_engine/src/extent_allocator.rs:99-107 | Setting or clearing one bit of a word changes that bit only. |
| `ObjectHeaders.RoundTripIff` | crates/gax_storage_engine/src/object_header.rs:56-188 | A header comes back with its recomputed checksum exactly if every string is under 65536 bytes and every list under 2^32 entries. |
| `ObjectHeaders.RoundTrip` | crates/gax_storage_engine/src/object_header.rs:56-188 | Within these limits reading a written header gives it back, across the three variable-length sections. |
| `ObjectHeaders.DecodedIsPrefix` | crates/gax_storage_engine/src/object_header.rs:92-188 | An accepted buffer starts with the encoding of what was read; only bytes behind the last section are free. |
| `ObjectHeaders.DecodedWithinLimits` | crates/gax_storage_engine/src/object_header.rs:92-188 | Whatever is read is within the limits. |
| `ObjectHeaders.Serialize` | crates/gax_storage_engine/src/object_header.rs:56-89 | The growing buffer is the encoding of the header. |
| `ObjectHeaders.Deserialize` | crates/gax_storage_engine/src/object_header.rs:92-188 | The running offset with its push loops computes the parser, with the same error or the panic of an offset out of range. |
| `Codecs.ListRoundTrip` | crates/gax_storage_engine/src/object_header.rs:63-83 | A length-prefixed list of elements that round-trip round-trips, whatever follows. |
| `Codecs.ListExact` | crates/gax_storage_engine/src/object_header.rs:119-178 | A list that was read is exactly what was there. |
| `Codecs.AppendList` | crates/gax_storage_engine/src/object_header.rs:63-83 | The writing loop appends all elements in order. |
| `Codecs.ReadList` | crates/gax_storage_engine/src/object_header.rs:123-178 | The reading loop returns all elements or the first error. |
| `ObjectHeaders.ExtentCodec` | crates/gax_storage_engine/src/object_header.rs:64-67 | An extent round-trips. |
| `ObjectHeaders.AttributeCodec` | crates/gax_storage_engine/src/object_header.rs:71-76 | An attribute within limits round-trips. |
| `ObjectHeaders.EdgeCodec` | crates/gax_storage_engine/src/object_header.rs:80-83 | A relationship round-trips. |
| `Superblocks.New` | crates/gax_storage_engine/src/superblock.rs:29-49 | A new superblock carries its fields and the checksum of them. |
| `Superblocks.RoundTrip` | crates/gax_storage_engine/src/superblock.rs:52-110 | Reading a written superblock gives it back with the checksum of its fields. |
| `Superblocks.DecodedIsWritten` | crates/gax_storage_engine/src/superblock.rs:69-110 | Nothing is accepted but fields with their checksum. |
| `Superblocks.Serialize` | crates/gax_storage_engine/src/superblock.rs:52-66 | The buffer holds fields, checksum and zeros. |
| `Superblocks.RecoverActive` | crates/gax_storage_engine/src/superblock.rs:136-164 | Recovery fails exactly if neither block decodes, and otherwise picks the newest, block 0 on a tie. |
| `Storage.Engine.Mount` | crates/gax_storage_engine/src/engine.rs:61-82 | Mounting recovers the newest superblock and, on at least 66 blocks, marks exactly the first 66; the engine protects the superblocks exactly then; on a reliable device it succeeds exactly if a superblock decodes. |
| `Storage.Engine.Format` | crates/gax_storage_engine/src/engine.rs:25-58 | Formatting writes two equal superblocks of generation 1 that describe the device and its journal, flushes, and leaves blocks 0 and 1 free, so the engine invariant does not hold until a mount. |
| `Storage.Engine.StoreBytes` | crates/gax_storage_engine/src/engine.rs:94-108 | Exactly the lowest aligned free run is marked and filled with the bytes; nothing is marked exactly if there is none; no block outside the run changes and no superblock or other extent lies in it; a failure loses nothing stored. |
| `Storage.Engine.StorePayload` | crates/gax_storage_engine/src/engine.rs:92-108 | The same for a payload, whose blocks are counted in 32 bits; an empty one takes none. |
| `Storage.Engine.StoreObject` | crates/gax_storage_engine/src/engine.rs:92-124 | Payload and header go to the two lowest runs in turn, and on a reliable device they do exactly if both fit; nothing else is marked or changed. |
| `Storage.Engine.WriteObject` | crates/gax_storage_engine/src/engine.rs:85-129 | Success stores the object and commits the next generation, and the device is the old one with payload, header and superblock written into their blocks; any failure leaves every earlier object and the committed generation as they were; on a reliable device success is exactly room for both runs and a generation left; in every case exactly the runs granted are marked and no block outside them and the inactive superblock changes. |
| `Storage.Engine.ReadObject` | crates/gax_storage_engine/src/engine.rs:132-145 | Every object written in the session reads back unchanged after any later writes; on a reliable device a read succeeds exactly if all extents are on it. |
| `Storage.Engine.CommitGeneration` | crates/gax_storage_engine/src/engine.rs:148-183 | The next superblock, with the same device and journal, goes to the block that is not active; success means it has been flushed; however the write ends, the committed one stays recoverable. |
| `Storage.Engine.Remount` | crates/gax_storage_engine/src/engine.rs:61-82 | Mounting at any moment or after any failed call finds the last committed generation or the one under way; on a reliable device it succeeds, and on at least 66 blocks the new engine is valid. |
| `Storage.Engine.Publish` | crates/gax_storage_engine/src/engine.rs:172-180 | However the write and the flush end, the device holds the committed generation, and the next one if it got that far; success means everything written has been flushed. |
| `Storage.Engine.PutSuperblock` | crates/gax_storage_engine/src/engine.rs:172-176 | Writing a superblock touches no object and no other block. |
| `Sessions.PayloadRunIff` | crates/gax_storage_engine/src/engine.rs:92-108 | An object of any session that misses the header run and the superblock keeps its contents under every payload of a given length exactly if it reads no block of the run that length is given. |
| `Sessions.HeaderRunIff` | crates/gax_storage_engine/src/engine.rs:117-124 | An object that misses the payload run and the superblock keeps its contents, whatever stood in the header run, exactly if it reads no block of that run. |
| `Sessions.SurvivesIff` | crates/gax_storage_engine/src/engine.rs:85-129 | An object keeps its contents under a write, whatever stood in the blocks written, exactly if it reads none of them: payload run, header run, inactive superblock. |
| `Sessions.ReadsSame` | crates/gax_storage_engine/src/engine.rs:132-145 | However a write ends, an object that reads no block it may touch reads as before. |
| `Sessions.RunsByLengths` | crates/gax_storage_engine/src/engine.rs:92-120 | The bitmap and the two block counts determine both runs before the call, whatever is written. |
| `Sessions.FreeBeside` | crates/gax_storage_engine/src/engine.rs:118-120 | A run is free for the header exactly if it was free before the call and is apart from the payload run. |
| `Sessions.PlacedApart` | crates/gax_storage_engine/src/engine.rs:94-124 | The two runs of a write lie on the device, apart from each other and from both superblocks. |
| `Sessions.WriteShaped` | crates/gax_storage_engine/src/engine.rs:85-129 | Every successful write meets the hypotheses of the results on surviving objects. |
| `Sessions.ContentsAt` | crates/gax_storage_engine/src/engine.rs:132-145 | Each byte of an object is the byte at its place in its block, in the order of the extents. |
| `Sessions.FirstWrite` | crates/gax_storage_engine/src/engine.rs:61-129 | On a reliable device with room a fresh mount and a first write succeed; the object starts at block 72 and reads back. |
| `Sessions.LostObject` | crates/gax_storage_engine/src/engine.rs:25-145 | Format, mount, write p, read p; mount, write q of the same length: the header of the first write now reads as q. |
| `ObjectHeaders.EncodedLength` | crates/gax_storage_engine/src/object_header.rs:56-89 | The length of a written header depends on the number of its extents and the lengths of its attributes only. |
| `ObjectHeaders.HeaderLayout` | crates/gax_storage_engine/src/object_header.rs:56-89 | Id, size, extents and number of attributes stand at fixed offsets in little endian, and the last 32 bytes are the checksum of all before. |
| `Storage.FirstRunAt72` | crates/gax_storage_engine/src/engine.rs:74-77 | After a mount of at least 66 blocks the first run handed out starts at block 72. |
| `Storage.RecoveredIsKnown` | crates/gax_storage_engine/src/superblock.rs:136-164 | Recovery finds the active superblock, or the next one if its commit reached the device and then failed. |
| `Storage.CommitOutcome` | crates/gax_storage_engine/src/engine.rs:176-180 | Whatever a superblock write leaves behind, both readings of the device are accounted for. |
| `Storage.KeptIffCounted` | crates/gax_storage_engine/src/engine.rs:92-105 | The whole payload reaches the device exactly if its block count fits in 32 bits. |
| `Storage.KeptReadBack` | crates/gax_storage_engine/src/engine.rs:104-143 | Padding, writing, reading and truncating give back what was kept. |
| `Storage.FreshExtent` | crates/gax_storage_engine/src/engine.rs:94-122 | A newly allocated extent is disjoint from all others and from the superblocks. |
| `Slab.SlabCache.constructor` | crates/kernel-core/src/slab.rs:30-35 | An empty cache with nothing out. |
| `Slab.SlabCache.Allocate` | crates/kernel-core/src/slab.rs:55-113 | The slot handed out was not out, is the only one that changes, lies within a frame the cache owns and is aligned; a frame is taken exactly if all pages are full and is the only one added; it fails exactly if no frame is to be had, or for the slot at the null address, which is then lost. |
| `Slab.SlotSize` | crates/kernel-core/src/slab.rs:37-42 | A slot is the least multiple of the alignment that holds the type and a machine word. |
| `Slab.SlotAligned` | crates/kernel-core/src/slab.rs:99-101 | Every slot starts at a multiple of an alignment that divides the page. |
| `Slab.SlabCache.Deallocate` | crates/kernel-core/src/slab.rs:118-184 | It succeeds exactly for addresses of slots that are out, so double frees, interior and foreign pointers fail and change nothing; exactly the frame of the pointer is given back, precisely when nothing of it is out any more. |
| `Slab.SlabCache.OnFreeList` | crates/kernel-core/src/slab.rs:149-166 | The walk through the embedded links finds exactly the free slots, within its step limit. |
| `Slab.SlabCache.NewPage` | crates/kernel-core/src/slab.rs:76-91 | A fresh page has every slot on its free list. |
| `Slab.SlabCache.FindRoom` | crates/kernel-core/src/slab.rs:66-71 | The first page that is not full, or all are full. |
| `Slab.SlabCache.FindFrame` | crates/kernel-core/src/slab.rs:130-134 | The page with that frame, or there is none. |
| `Slab.SlabCache.ClientWrite` | crates/kernel-core/src/slab.rs:168-173 | A client writing a slot that is out changes its word and disturbs nothing. |
| `Slab.SlabCache.AddPage` | crates/kernel-core/src/slab.rs:73-91 | A granted frame becomes a page with nothing out. |
| `Slab.SlabCache.TakeSlot` | crates/kernel-core/src/slab.rs:94-112 | The head of the page's free list goes out; its address lies in the page's frame. |
| `Slab.SlabCache.PutBack` | crates/kernel-core/src/slab.rs:168-183 | The slot is free again, and a page left with nothing out returns its frame. |
| `Slab.OutWithin` | crates/kernel-core/src/slab.rs:94-100 | Every slot that is out lies within one of the cache's frames. |
| `Slab.OutDisjoint` | crates/kernel-core/src/slab.rs:94-100 | Two slots that are out share no byte. |
| `Slab.FrameInUse` | crates/kernel-core/src/slab.rs:178-181 | A page's count is positive exactly when a slot within its frame is out. |
| `Slab.FrameAtZero` | crates/kernel-core/src/slab.rs:94-112 | A cache whose one frame is at address zero: the slot is taken, the caller gets an error. |
| `Slab.PoppedOk` | crates/kernel-core/src/slab.rs:96-110 | Taking the head of the list leaves a well-threaded page. |
| `Slab.PushedOk` | crates/kernel-core/src/slab.rs:168-176 | Putting a slot back leaves a well-threaded page. |
| `Slab.InUseIff` | crates/kernel-core/src/slab.rs:178-181 | A page's count is positive exactly when one of its slots is out. |
| `Slab.OutIs` | crates/kernel-core/src/slab.rs:126-146 | An address names at most one slot. |
| `Slab.AddressParts` | crates/kernel-core/src/slab.rs:126-143 | A slot address determines its frame and its index. |
| `Endpoints.Endpoint.constructor` | crates/kernel-core/src/ipc.rs:85-91 | A fresh endpoint with an empty ledger. |
| `Endpoints.Endpoint.Call` | crates/kernel-core/src/ipc.rs:157-201 | A call is refused exactly if the endpoint is closed or 32 calls are queued; otherwise it joins the end of the queue or goes straight to a waiting receiver, for whom its message is held. |
| `Endpoints.Endpoint.Receive` | crates/kernel-core/src/ipc.rs:203-236 | The oldest queued call is delivered with its message and token, or the receiver waits; a second receiver is refused. |
| `Endpoints.Endpoint.TakeReceivedCall` | crates/kernel-core/src/ipc.rs:238-252 | A woken receiver gets caller, message and token of the call it was handed, exactly if it was handed one and has not collected it. |
| `Endpoints.HandedOver` | crates/kernel-core/src/ipc.rs:126-349 | Over any run a call handed to a woken receiver is at every later moment still held, collected or ended, and no call is collected twice. |
| `Endpoints.HandOk` | crates/kernel-core/src/ipc.rs:173-183 | Handing a call to a waiting receiver delivers it in arrival order and holds it. |
| `Endpoints.CollectedOk` | crates/kernel-core/src/ipc.rs:238-252 | Collecting a held call keeps collections in arrival order, each once. |
| `Endpoints.Endpoint.Reply` | crates/kernel-core/src/ipc.rs:254-288 | A reply is accepted exactly for the token of the outstanding call, ends exactly that call and wakes its caller; in runs of fewer than 2^32 tokens without index reuse any token accepted was made for that call. |
| `Endpoints.Endpoint.CancelCaller` | crates/kernel-core/src/ipc.rs:126-150 | Exactly the queued calls of that thread are cancelled, and the result says whether there were any; a waiting receiver, the outstanding call and its held message stay. |
| `Endpoints.Endpoint.NotifyThreadTerminated` | crates/kernel-core/src/ipc.rs:290-323 | The dead thread's outstanding call ends, or its queued calls end; another receiver, another outstanding call and its held message stay; a call of it stays in flight exactly if one was outstanding and another queued, so none does with at most one call in flight. |
| `Endpoints.LeftBehind` | crates/kernel-core/src/ipc.rs:305-316 | Ending a thread's outstanding call leaves a call of it in flight exactly if another one is queued. |
| `Endpoints.NoneLeft` | crates/kernel-core/src/ipc.rs:290-323 | Dropping the queued calls of a thread without an outstanding one leaves none of its calls in flight. |
| `Endpoints.Endpoint.Close` | crates/kernel-core/src/ipc.rs:325-349 | Every call in flight ends and every waiting thread is woken, the outstanding caller first and then the queue in order. |
| `Endpoints.AcceptOk` | crates/kernel-core/src/ipc.rs:157-201 | An accepted call is in exactly one place. |
| `Endpoints.DeliverOk` | crates/kernel-core/src/ipc.rs:216-231 | Delivery takes calls in arrival order. |
| `Endpoints.FinishOk` | crates/kernel-core/src/ipc.rs:273-284 | An outstanding call ends once. |
| `Endpoints.DropOk` | crates/kernel-core/src/ipc.rs:132-148 | Dropping a thread's queued calls keeps all others in order. |
| `Endpoints.CloseAllOk` | crates/kernel-core/src/ipc.rs:325-349 | After a close no call is in flight. |
| `Endpoints.EvolvesTwice` | crates/kernel-core/src/ipc.rs:126-349 | Over any number of steps a call moves out of the queue, from delivery to an end, and then nowhere. |
| `Endpoints.EvolvesKeepsEnds` | crates/kernel-core/src/ipc.rs:126-349 | What has ended stays ended. |
| `Endpoints.TokensUnique` | crates/kernel-core/src/ipc.rs:152-155 | In such runs two deliveries have the same token exactly if they are the same delivery. |
| `Endpoints.RunEvolves` | crates/kernel-core/src/ipc.rs:126-349 | Over any run calls only move forward and deliveries stay. |
| `Endpoints.TokenOnce` | crates/kernel-core/src/ipc.rs:254-288 | Over any run of fewer than 2^32 tokens without index reuse a token that was accepted is never acceptable again. |
| `ReplyTokens.TokensCollideIff` | crates/kernel-core/src/ipc.rs:152-155 | Two tokens are equal exactly when the caller indices agree and generation and sequence number cancel out. |
| `ReplyTokens.TokensDiffer` | crates/kernel-core/src/ipc.rs:152-155 | Short of 2^32 tokens and without index reuse tokens differ. |
| `ReplyTokens.ReusedIndexCollides` | crates/kernel-core/src/ipc.rs:152-155 | An index reused at another generation repeats a token. |
| `Scheduling.Scheduler.constructor` | crates/kernel-core/src/scheduler.rs:32-53 | An empty scheduler. |
| `Scheduling.Scheduler.Contains` | crates/kernel-core/src/scheduler.rs:225-235 | Membership is exact. |
| `Scheduling.Scheduler.Enqueue` | crates/kernel-core/src/scheduler.rs:73-93 | A thread joins the back of the level of its priority, capped at 31; each refusal has exactly its cause, by name of the thread states, and changes nothing. |
| `Scheduling.Scheduler.HighestLevel` | crates/kernel-core/src/scheduler.rs:99 | The highest set bit names the highest non-empty level. |
| `Scheduling.Scheduler.DequeueNext` | crates/kernel-core/src/scheduler.rs:95-108 | The head of the dispatch order leaves it, and no queued thread has a higher priority up to the cap of 31. |
| `Scheduling.HighestRank` | crates/kernel-core/src/scheduler.rs:95-108 | A thread of the highest occupied level has the highest priority, up to the cap. |
| `Scheduling.RankedFewer` | crates/kernel-core/src/scheduler.rs:95-175 | Threads leaving the queues leave every other thread at the level of its priority. |
| `Scheduling.Scheduler.NextRunnable` | crates/kernel-core/src/scheduler.rs:111-117 | The head of the dispatch order. |
| `Scheduling.Scheduler.Drain` | crates/kernel-core/src/scheduler.rs:95-108 | Dispatching until nothing is left yields the whole order, each thread once. |
| `Scheduling.Scheduler.PopStealableWork` | crates/kernel-core/src/scheduler.rs:123-151 | The first match from the lowest level up is taken; it fails exactly if no queued thread matches. |
| `Scheduling.Scheduler.RemoveThread` | crates/kernel-core/src/scheduler.rs:154-173 | The thread leaves the scheduler, running or queued, and all others keep their order. |
| `Scheduling.Scheduler.CommitYield` | crates/kernel-core/src/scheduler.rs:185-214 | The next thread becomes current and the yielding one joins the back of its level; the queue invariant error cannot occur. |
| `Scheduling.Scheduler.SetCurrentThread` | crates/kernel-core/src/scheduler.rs:220-222 | Exclusivity is kept if the thread is not queued. |
| `Scheduling.Scheduler.TryDirectSwitch` | crates/kernel-core/src/scheduler.rs:60-71 | The switch is made exactly from the current thread; exclusivity is kept if the target is not queued. |
| `Scheduling.Scheduler.BlockCurrent` | crates/kernel-core/src/scheduler.rs:238-251 | Exactly the running current thread blocks; each refusal has its error. |
| `Scheduling.Scheduler.ApplyWake` | crates/kernel-core/src/scheduler.rs:254-277 | A blocked thread joins the front of the level of its priority, capped at 31; exclusivity is kept if it was not queued. |
| `Scheduling.OrderDescends` | crates/kernel-core/src/scheduler.rs:95-108 | The dispatch order never goes up a level. |
| `Scheduling.OrderInsert` | crates/kernel-core/src/scheduler.rs:89-91 | Adding to a queue adds at one place of the order. |
| `Scheduling.OrderRemove` | crates/kernel-core/src/scheduler.rs:141-145 | Taking from a queue takes from one place of the order. |
| `Scheduling.MappedZero` | crates/kernel-core/src/scheduler.rs:96-98 | The bitmap is zero exactly if nothing is queued. |
| `Scheduling.MappedUpdate` | crates/kernel-core/src/scheduler.rs:90 | Updating one bit keeps the bitmap in step with the queues. |
| `Scheduling.MigrateThread` | crates/kernel-core/src/scheduler_domain.rs:38-72 | A migration succeeds exactly under its stated conditions and leaves the thread queued on the destination only; from an exclusive source it always leaves the source, and afterwards it is on the destination exactly if the migration succeeded or it was there before; each failure has its error and its assigned processor. |
| `Scheduling.AttemptWorkSteal` | crates/kernel-core/src/scheduler_domain.rs:75-95 | Stealing fails exactly if no queued thread is known with the destination in its affinity set, and yields such a thread. |
| `Scheduling.LostMigration` | crates/kernel-core/src/scheduler_domain.rs:38-72 | A queued thread sent to a full processor is queued nowhere afterwards. |
| `WaitSets.WaitSet.constructor` | crates/kernel-core/src/waitset.rs:33-41 | An empty wait set. |
| `WaitSets.WaitSet.AddSubscription` | crates/kernel-core/src/waitset.rs:55-76 | A subscription is added exactly if the set is open, not full and the object is new. |
| `WaitSets.WaitSet.RemoveSubscription` | crates/kernel-core/src/waitset.rs:78-98 | Exactly that subscription goes, and with it what was posted under its cookie. |
| `WaitSets.WaitSet.PostEvent` | crates/kernel-core/src/waitset.rs:100-125 | Exactly the signals both subscribed and posted are kept for the next drain, and the recorded waiter is woken; the drop at 128 events cannot happen. |
| `WaitSets.Overlap` | crates/kernel-core/src/waitset.rs:106 | A signal is kept exactly if it is both subscribed and posted. |
| `WaitSets.Union` | crates/kernel-core/src/waitset.rs:113 | A merged event shows every signal of either. |
| `WaitSets.WaitSet.Wait` | crates/kernel-core/src/waitset.rs:127-142 | A drain returns one event per cookie posted under since the last one, which shows a signal exactly if some post did; the thread sleeps and is recorded exactly when nothing is kept. |
| `WaitSets.WaitSet.Close` | crates/kernel-core/src/waitset.rs:144-149 | Closing wakes the waiter and keeps nothing. |
| `WaitSets.CollectMeans` | crates/kernel-core/src/waitset.rs:105-122 | Merged events give, per cookie in first-post order, the union of all signals posted under it. |
| `WaitSets.CollectBits` | crates/kernel-core/src/waitset.rs:105-122 | Signal by signal: an event shows a signal exactly if some post under its cookie did, and every cookie posted under has an event. |
| `WaitSets.CollectDrop` | crates/kernel-core/src/waitset.rs:89-93 | Dropping a cookie's event is the same as never having posted under it. |
| `WaitSets.EventsBound` | crates/kernel-core/src/waitset.rs:108-120 | There are never more events than subscriptions. |
| `WaitSets.Unsubscribed` | crates/kernel-core/src/waitset.rs:78-98 | Dropping a subscription's cookie from what is ready agrees with dropping it from what was posted. |
| `WaitSets.NoLostWakeup` | crates/kernel-core/src/waitset.rs:100-149 | Over every run every sleeping thread is the one the next wakeup goes to, exactly if no thread ever blocked while another one was recorded. |
| `WaitSets.DisplacedForever` | crates/kernel-core/src/waitset.rs:137-141 | A waiter displaced by another thread sleeps in every later state and is never the one to be woken. |
| `WaitSets.TwoWaiters` | crates/kernel-core/src/waitset.rs:100-149 | Two threads wait: a post wakes the second, and the first is woken by nothing. |
| `EventRing.EventRingBuffer.constructor` | crates/gaxfs_event_log/src/ring_buffer.rs:20-26 | An empty ring. |
| `EventRing.EventRingBuffer.Push` | crates/gaxfs_event_log/src/ring_buffer.rs:29-42 | The record joins the history under the next sequence number; the ring holds the last records. |
| `EventRing.EventRingBuffer.ReadFrom` | crates/gaxfs_event_log/src/ring_buffer.rs:45-69 | A read returns the matching slice of the whole history. |
| `EventRing.EventRingBuffer.CopyRange` | crates/gaxfs_event_log/src/ring_buffer.rs:61-66 | Every record of a retained range is found in its slot. |
| `EventRing.PushHolds` | crates/gaxfs_event_log/src/ring_buffer.rs:34-39 | After a push the ring holds exactly the last records up to capacity. |
| `EventRing.WindowIs` | crates/gaxfs_event_log/src/ring_buffer.rs:45-69 | For every sequence number asked for, a read returns, from the oldest on, exactly the retained records that do not lie before it. |
| `EventRing.WindowsAdjoin` | crates/gaxfs_event_log/src/ring_buffer.rs:45-69 | Reading on from where the last read stopped neither skips nor repeats a record. |
| `EventRing.WholeWindow` | crates/gaxfs_event_log/src/ring_buffer.rs:45-69 | Asking for enough from the beginning returns exactly the retained records. |

## Left out

- Hardware, boot, page tables, interrupt controllers, drivers and service entry points.
- ChaCha20, nonces and the encryption wrappers of the crypto server; nothing about secrecy or timing.
- Rounding of 32-bit floats, the scalar codebook and similarity search: the rotation is over exact reals.
- The internals of the checksum: it is an arbitrary deterministic function, and torn superblocks are assumed to fail it.
- Loss of unflushed writes: a crash leaves what was written, in order; that a commit flushes before it succeeds is stated.
- The journal, snapshots, the query planner and the namespace services.
- Capability handles of heap chunks: only their number is kept, and `Teardown` forgets it.
- Quantum ticks, priority inheritance and the other thread transitions: only what the scheduler needs of a thread is modelled.
- The fast-path test of endpoints: a one-branch query of the state.
- Memory charges of resource domains and process references appear in the hierarchy of quotas only.
- Storage.Engine.ReadObject: does not model the capacity reserved for the result.
- ObjectHeaders.Deserialize: does not model the capacity reserved for a list before its elements are read, which aborts when memory for that many entries cannot be had.
- Extents.ExtentAllocator.AllocateExtent: does not model overflow of block numbers near 2^64, which no bitmap that fits in memory reaches.
- Scheduling.Scheduler.HighestLevel: finds the highest bit by a scan where the source counts leading zeros.
