# The inode graph of the path-based FUSE bridge

A Dafny model of the bridge's inode cache: the registry `nodes`, the inodes with
their lookup counts, children maps and recency-ordered parents, the operations that
keep both edge directions, the counts and the registry consistent, and what is built
on them (paths, dump and restore, file handles, attribute name lists).

## How it is organised

The graph is a value (`InodeGraph.Graph`): one record per inode object, the registry,
and the number of times each inode was modified. Every locked section of inode.go is
a function on it. Three layers share those functions.

* **Objects.** `Recency.InodeParents`, `Bridge.Inode`, `Bridge.RawBridge`,
  `Copier.InodeDumper`, `Copier.InodeRestorer` and `Handles.FileTable` have the
  source's fields and update them in place. Each method is specified by what it does
  to the value. Memory is an explicit map from addresses to objects, because the lock
  order compares addresses and because an inode that left the registry stays
  reachable through pointers.
* **Laws of the value.** What one operation does to edges, counts, registry and paths,
  and what every run keeps (`Cascade`, `Coherence`, `Garbage`, `Kernel`, `Agreement`,
  `Paths`, `Renames`, `DumpRestore`). `Kernel` runs are sequences of lookup, forget, unlink and rename
  events; the request handlers in `Handlers` and `Listing` are proved to perform them.
* **Threads.** `Protocol` interleaves any number of threads that run `addChild`,
  `removeRef`, `rmChild`, `mvChild`, `pathOf` and `ReadDirPlus`. A step is one lock
  acquisition, one release, or one section run while its locks are held. A thread has
  a program counter, its locks and its snapshot. `ProtocolSafety` has the invariant
  of every run, `ProtocolSnapshots` what a recent snapshot guarantees, `ProtocolCalls`
  when a call takes effect among the steps of other threads, `ProtocolConservation` the
  conservation of lookups, `ProtocolSolo` that undisturbed calls are the operations,
  `ProtocolProgress` deadlock freedom, `ProtocolGarbage` the absence of garbage,
  `ProtocolWrap` the limits of 32-bit revisions.

| file | content |
|---|---|
| Types, Splitting | shared vocabulary; cutting a sequence at a separator |
| Recency | the parent store: newest plus displacement times refine a recency list |
| InodeGraph | the graph and its locked sections |
| Cascade | `removeRef` as the least dead set |
| Coherence | symmetry and completeness of the registry under coherent adds |
| Outcomes | what `rmChild` and `mvChild` leave, edge by edge |
| Garbage | no garbage, kept by every operation on any graph it meets |
| Bridge | the objects: `addChild`, `removeRef`, `rmChild`, `mvChild` |
| Kernel, Agreement, Incoherent | runs of events; when bridge and kernel keep agreeing; a run in which they do not |
| Paths, Renames, AskedPaths | path reconstruction; lookups, renames and removals; the paths the file system is asked about |
| Handlers, Listing | `pathOf`, Lookup, Forget, Unlink, Rename, ReadDirPlus |
| LockOrder, Protocol, ProtocolSafety, ProtocolSnapshots, ProtocolCalls, ProtocolConservation, ProtocolSolo, ProtocolProgress, ProtocolGarbage, ProtocolWrap | locks and threads |
| DumpRestore, Copier | dump and restore, as values and as objects |
| Handles, XAttr | the handle table; lists of attribute names |

## Hypotheses the code forces

* A *coherent* add fills an empty slot or one that already holds that child.
  `addChild` overwrites the slot without dropping the displaced child's parent entry
  (inode.go:138-139), so without coherence only "child edge implies parent entry"
  holds; `Coherence.AddSymmetryExact` shows that the condition is exact. Absence of
  garbage needs no coherence.
* `removeRef` deletes from the registry by number, not by object (inode.go:165). So
  bridge and kernel agree on the lookup counts exactly as long as no removal takes
  away a number the kernel holds (`Agreement.RunAgreesExact`). Coherent adds see to
  that; `Incoherent.LosesInode` is a run of an obedient kernel in which an incoherent
  add makes the bridge lose an inode the kernel holds.
* Snapshots are compared by a 32-bit revision. The model counts modifications without
  a bound and compares them in 32 bits. The invariant of the threads, dropped inodes,
  deadlock freedom and absence of garbage need no assumption about this. That a
  commit is atomic with the snapshot before it needs fewer than 2^32 modifications
  between the two (`ProtocolSnapshots.Recent`), and so does "child edge implies parent
  entry" at a cut of `removeRef`. `ProtocolWrap` says when each check passes in
  general, and `ProtocolWrap.StaleRun` is a run of two threads in which one passes
  with a snapshot that is no longer true.
* What a dump brings back is determined by the parent lists. After an incoherent add
  two inodes list one slot, and the last one restored gets it
  (`DumpRestore.OrderMatters`); `DumpRestore.RoundTripExact` says when no order can
  go wrong.
* An inode keeps its kind while it is registered: `isDir` is ignored for a known
  number (inode.go:125-128).
* A lookup count stays below 2^32 (`Kernel.Obeys`, `Kernel.Fits`,
  `ProtocolGarbage.CountsFit`); `Forget` converts its argument to 32 bits, and the
  model does too.
* The clock is strictly increasing and above the zero time.
* Where the source panics, a method either answers None or requires what the panic
  tests, and the comment beside it says so. In the model of threads a panic is a state.

## Model

| member | source | states |
|---|---|---|
| Recency.InodeParents.Add | inode_parents.go:36-53 | `add` moves the entry to the front of the recency list, for a new, a known and the newest entry |
| Recency.InodeParents.Delete | inode_parents.go:76-101 | `delete` removes the entry; when it was the newest, the second most recent one takes its place |
| Recency.InodeParents.Newest | inode_parents.go:57-59 | `get` is the head of the recency list, or nothing |
| Recency.InodeParents.All | inode_parents.go:63-74 | `all` yields every entry exactly once, the newest first |
| Recency.InodeParents.Count | inode_parents.go:108-113 | `count` is the length of the recency list |
| Recency.InodeParents.Clear | inode_parents.go:103-106 | `clear` leaves the empty list |
| Recency.InodeParents.SortParents | inode_parents.go:143-162 | sorting by displacement time yields exactly the recency list, oldest first, for any map iteration order |
| Recency.Latest | inode_parents.go:92-98 | the scan over the map finds an entry with the greatest displacement time |
| Recency.DisplacedOrder | inode_parents.go:45-52 | displacing the head at a later time keeps the times in recency order, also after promotions and re-displacements |
| Recency.SortedIsReverse | inode_parents.go:130-159 | any permutation in ascending order of time is the recency list reversed |
| Recency.Fill | inode_parents.go:146-155 | the two parallel slices hold the newest entry and all others once, each with its own time |
| Recency.ReplayReverse | dump.go:134-138 | adding the sorted entries one by one to an empty store rebuilds the same recency list |
| InodeGraph.LinkEffect | inode.go:138-141 | setting a slot and recording the entry changes that one edge in both directions and nothing else; both inodes' revisions rise |
| InodeGraph.UnlinkEffect | inode.go:232-235 | taking a slot out removes that one edge in both directions and nothing else |
| InodeGraph.AddEffect | inode.go:125-141 | `addChild` links the child, counts one lookup of exactly that inode and registers it, whether it was known or new |
| InodeGraph.MvEffect | inode.go:269-288 | a rename moves one edge and replaces the target, including the cases that child and target are the same inode, that both directories are the same, and that there is no child |
| InodeGraph.MovedKeepsSymmetry | inode.go:269-288 | a rename keeps "child edge implies parent entry" and, where it held, exact symmetry |
| Cascade.CutStepCollapses | inode.go:188-197 | the group-locked section of `removeRef` removes every edge into the inode and all of its parents, skipping slots that lead elsewhere, and nothing else |
| Cascade.ClosedIsTreeClosed | inode.go:188-207 | on a symmetric graph, the set that `removeRef` removes is the least one with n and every inode without lookups that has children, all of them in the set |
| Cascade.RemovalUnique | inode.go:205-207 | the removed set and the surviving records and registry do not depend on the order in which parents are visited |
| Cascade.RemovedStarve | inode.go:159-207 | apart from n, only inodes without lookups and without surviving children are removed, each a parent of a removed inode |
| Cascade.SurvivorsLive | inode.go:159-207 | an inode that was live and survives the removal is still live |
| Cascade.SurvivorRegistered | inode.go:164-166 | a registered survivor stays registered if and only if no removed inode bears its number |
| Coherence.AddSymmetryExact | inode.go:138-139 | on a symmetric graph `addChild` keeps symmetry if and only if the slot is empty or already holds that child |
| Coherence.AddKeepsComplete | inode.go:103-147 | any `addChild` into a registered directory keeps the registry complete: whatever is looked up or linked is the registered inode of its number |
| Coherence.AddKeepsCoherent | inode.go:103-147 | a coherent `addChild` keeps symmetry and completeness |
| Coherence.RemovedByKeepsCoherent | inode.go:149-210 | `removeRef` keeps symmetry and completeness |
| Coherence.RmKeepsCoherent | inode.go:212-246 | `rmChild` keeps symmetry and completeness |
| Coherence.MvKeepsCoherent | inode.go:248-303 | `mvChild` keeps them, including both conditional removals at its end |
| Garbage.AddNoGarbageExact | inode.go:130-141 | on a graph without garbage `addChild`, coherent or not, leaves none if and only if the child's counter does not wrap to 0 or a child keeps it alive |
| Garbage.RemovedByNoGarbage | inode.go:149-210 | `removeRef`, on any graph whose child edges have entries, clears the garbage its own inode may be and makes no other |
| Garbage.RmNoGarbage | inode.go:237-243 | after `rmChild` every registered inode is live if it was before, stale parent entries or not |
| Garbage.MvNoGarbage | inode.go:290-300 | after `mvChild` every registered inode is live if it was before, stale parent entries or not |
| Bridge.RawBridge.constructor | bridge.go:41-54 | a new bridge has a root numbered 1 with one lookup |
| Bridge.Inode.constructor | inode.go:46-50 | a new inode has its number and kind, no lookups, no children and no parents |
| Bridge.RawBridge.IsLive | inode.go:57-59 | an inode is live if it is looked up or has children |
| Bridge.RawBridge.FindOrMake | inode.go:110-128 | the child is the registered inode of the number, or a new one |
| Bridge.RawBridge.CountLookup | inode.go:110-136 | one more lookup of the registered or new child; the peak of the registry is tracked |
| Bridge.RawBridge.AddChild | inode.go:103-147 | the objects end up as the graph after `addChild`, the peak of the registry is tracked, and no garbage is left unless a counter wraps |
| Bridge.RawBridge.CutSlots | inode.go:188-195 | the loop over the parents empties exactly the listed slots that still lead to the inode |
| Bridge.RawBridge.Detach | inode.go:164-197 | a dead inode leaves the registry and every directory, and loses its parents |
| Bridge.RawBridge.RemoveRef | inode.go:149-210 | it refuses an underflow, stops at a live inode, and otherwise removes exactly the least dead set, leaving no garbage; it ends on any graph, cyclic ones too, because the number of inodes with parents falls |
| Bridge.RawBridge.VisitParents | inode.go:205-207 | the recursive visits, in whatever order, complete the removal |
| Bridge.RawBridge.RmChild | inode.go:212-246 | the answer is yes exactly if the slot was taken; then the slot is empty, its child has no entry for it, and every other edge, count and registration stays but for the least dead set, which is empty while the directory is looked up or has another child; otherwise nothing changes; no garbage is left |
| Bridge.RawBridge.MvChild | inode.go:248-303 | it is refused, changing nothing, exactly if the target is taken and may not be overwritten; otherwise the edge has moved, and every other edge, count and registration stays but for inodes without lookups and children that go with a directory left dead; no garbage is left |
| Bridge.RawBridge.MoveSlot | inode.go:269-288 | the three conditional edge updates of a rename, in their order |
| Outcomes.RmChildOutcome | inode.go:212-246 | edge by edge and count by count, what any `rmChild` leaves, and that it succeeds exactly on a taken slot |
| Outcomes.MvChildOutcome | inode.go:248-303 | the same for any `mvChild`: a directory without lookups and children is gone, and nothing is gone unless one of the two directories is |
| Kernel.InitialInv | bridge.go:41-54 | a new bridge is coherent and without garbage, and agrees with a kernel that holds the root once |
| Kernel.NoPanic | bridge.go:63-71 | while bridge and kernel agree, an obedient event reaches neither the "unknown node" nor the underflow panic |
| Kernel.RunForward | inode.go:138-303 | after any run of events every child edge has its parent entry |
| Kernel.EventNoGarbageExact | bridge.go:121-162 | on a graph without garbage a lookup, forget, unlink or rename leaves none if and only if it wraps no counter to 0 |
| Kernel.RunNoGarbageExact | bridge.go:121-162 | a run of events, with adds of any kind and whatever the kernel forgets, is free of garbage throughout if and only if none of its lookups wraps a counter to 0 |
| Agreement.RemovedByAgreesExact | inode.go:149-210 | after a `removeRef` bridge and kernel still agree if and only if no removed inode bears a number under which a looked-up inode is registered |
| Agreement.EventAgreesExact | bridge.go:121-162 | an obedient event keeps the bridge's counts equal to the kernel's if and only if it takes away no number the kernel holds, which can be read off the graph before it; finding an entry always keeps them |
| Agreement.RunAgreesExact | bridge.go:121-162 | over a whole run of an obedient kernel they stay equal if and only if no event takes away such a number |
| Agreement.CoherentHarmless | inode.go:164-207 | on a coherent graph no removal takes away a number the kernel holds |
| Agreement.EventKeeps | bridge.go:121-162 | one obedient event with a coherent add keeps coherence and the counts |
| Agreement.RunKeeps | bridge.go:121-162 | after any obedient run with coherent adds every inode number the kernel holds is registered with exactly the kernel's count, and the next obedient event does not panic |
| Incoherent.LosesInode | inode.go:138-166 | a run in which the kernel keeps its protocol and one add is incoherent ends with an inode the kernel holds unregistered, so that its next lookup panics |
| Paths.ChainExists | file.go:36-44 | without a cycle along newest parents the walk of `pathOf` ends |
| Paths.PathRoundTrip | file.go:29-63 | if the walk reaches the root, splitting the path and walking children from the root finds that inode again; otherwise the answer is an orphan and no walk reaches the root |
| Paths.PathInjective | file.go:29-63 | two inodes that reach the root with the same path are the same |
| Paths.SplitJoin | file.go:61-62 | joining nonempty slash-free names and splitting at "/" gives the names back |
| Paths.JoinSnoc | file.go:72-77 | `childPathOf` of a joined path is the join with one more name |
| Paths.LookupAgreement | inode.go:138-139 | after `addChild`, `pathOf` of the child is the path the file system was asked about, and the directory's path is unchanged |
| Paths.LookupCycle | file.go:36-44 | after `addChild` the walk of the child ends if and only if the child is the root or was not on the walk of its directory |
| Paths.RenameRewritesWalk | inode.go:269-288 | after a rename every inode below the moved child has the new directory's path, the new name, and its old names below the child; the new directory's path is unchanged |
| Paths.PathThrough | file.go:36-61 | the path of an inode is the path of any inode on its walk followed by the names below that one |
| Paths.RemovalKeepsWalk | inode.go:188-207 | removal changes the walk and the names of no surviving inode |
| Renames.RenameOperation | inode.go:248-303 | the same for the whole of `mvChild`, removals included, for every inode below the child of an acyclic symmetric graph; the new directory's path is unchanged too |
| Renames.RenameSpares | inode.go:290-300 | the removal that ends a rename removes neither the new directory nor anything below the moved child |
| Paths.CollapseWalkExact | inode.go:188-197 | on any graph a walk and its names outlive the removal of a set of inodes if and only if none of the inodes named on it is removed |
| Renames.RemovedByKeepsWalkExact | inode.go:149-210 | `removeRef`, on any graph and for any count, keeps a walk and its path if and only if it removes none of the inodes named on it |
| Renames.RemovedByKeepsPathExact | inode.go:149-210 | on a symmetric graph it does so if and only if it does not remove the inode itself or the inode had no walk to lose |
| Renames.AcyclicEnds | file.go:36-44 | on the graphs a rename is about, symmetric and without cycles, `pathOf` ends for every inode |
| Handlers.PathOf | file.go:29-63 | the loop over newest parents and the reversal in place compute the path of the walk, or report an orphan |
| Handlers.FilePathOf | file.go:65-70 | the path of an open file is the one it was opened with, if any, and otherwise that of its inode |
| Handlers.Segments | file.go:35-44 | the loop collects the newest names along the walk, nearest first, and tells whether the walk missed the root |
| Handlers.ReverseSegments | file.go:53-59 | swapping from both ends reverses the segments |
| Handlers.CompactMemory | bridge.go:164-183 | the copied registry has the same contents; the peak is reset exactly when it exceeds a hundred times the size |
| Handlers.Forget | bridge.go:152-162 | an unknown number is ignored, an underflow panics and changes nothing, and otherwise it is the kernel's forget of the count in 32 bits; the peak is reset exactly when the inode lost its last support and the registry shrank a hundredfold |
| AskedPaths.EntryPathText | file.go:72-77 | whatever the placeholder of an orphan, the path of an entry is `childPathOf` its directory's path and its name |
| AskedPaths.AskedSplits | bridge.go:121-127 | the path the file system is asked about, split at "/", is the way down to the directory followed by the entry's name, and that way leads to the directory; for an orphan it is the placeholder, "/" and the name |
| AskedPaths.FoundAsked | bridge.go:121-150 | after a found lookup the child's path is exactly the path that was asked about |
| AskedPaths.NewestAsked | bridge.go:278-308 | the path asked about for an existing entry is the path of its inode, where the entry is the newest |
| AskedPaths.MovedAsked | bridge.go:310-331 | after a rename the moved child's path is exactly the second path asked about, on symmetric graphs without cycles |
| Handlers.Lookup | bridge.go:121-150 | the file system is asked about the directory's way down and the name; a found entry is linked and its path is from then on the one asked about; after a failed lookup the slot is empty |
| Handlers.Unlink | bridge.go:278-308 | the file system is asked about the same path; the slot is empty afterwards if it agreed, and nothing changes if not (Rmdir alike) |
| Handlers.Rename | bridge.go:310-331 | any flag is refused, whatever the request names; otherwise the file system is asked about both entries' paths, and the edge moves exactly if it agreed |
| Listing.ReadDirPlus | bridge.go:633-677 | the entries handed over are the named ones of the stream from the offset on, beginning with the one at the offset, until the stream ends or the buffer is full; each is looked up exactly if it is found and not virtual, as often as it was handed over; a new stream is cached in the file's entry, and a listing that fails leaves the old one there |
| Listing.AppendedStretch | bridge.go:657-668 | what the loop hands over is a stretch of the stream without its nameless entries, ended by the end of the stream or a full buffer |
| Listing.StretchUnique | bridge.go:657-668 | and such a stretch determines what is handed over |
| Listing.ResumedComplete | bridge.go:653-668 | listings of which each goes on where the one before ended hand over every named entry of the stream, once and in order |
| Listing.StopCounted | bridge.go:653-660 | counting the entries handed over tells where a listing ended if and only if it passed no nameless entry |
| Listing.LookupsCount | bridge.go:669-674 | the lookups of a listing are one for each time a found entry was handed over, and no others |
| Listing.HandOver | bridge.go:657-675 | the loop hands entries over until one is refused and runs their lookups |
| Listing.Add | bridge.go:139-150 | looking a listed entry up is one lookup event |
| LockOrder.AscendingUnique | inode.go:312-333 | the locking order of a group is determined by its set of inodes |
| LockOrder.SortNodes | inode.go:312-320 | sorting leaves a permutation in ascending order, nil first, equal pointers adjacent |
| LockOrder.LockNodes | inode.go:322-333 | for any list with nils and repeats exactly the inodes pointed to are locked, each once, in ascending order |
| LockOrder.LockThenUnlock | inode.go:372-382 | unlocking the group releases exactly what locking it acquired |
| LockOrder.LockNode2 | inode.go:335-355 | on two inodes `lockNode2` locks as `lockNodes` does, also for nil and equal arguments |
| LockOrder.UnlockNode2 | inode.go:357-370 | `unlockNode2` releases the same inodes, each once |
| ProtocolSafety.StepKeeps | inode.go:103-303 | every step of any thread keeps the invariant: locks exclude each other, a snapshot whose revision has not moved is true, a dropped inode is unregistered with no lookups |
| ProtocolSafety.RunKeeps | inode.go:103-303 | the invariant holds after any interleaving of any number of threads, however often a 32-bit revision wraps |
| ProtocolSafety.WritesAreLocked | inode.go:24-34 | a step changes only inodes its thread has locked, the registry only under the bridge mutex, and raises the revision of whatever it changes |
| ProtocolSafety.NoChangedPanic | inode.go:199-201 | a step from a state of the invariant does not reach the "lookupCount changed" panic |
| ProtocolSafety.RunNeverChanged | inode.go:199-201 | no run of any number of threads ends in that panic |
| ProtocolSafety.DroppedForever | inode.go:159-201 | throughout every run an inode dropped by `removeRef` is never registered again, under any number, and its count stays 0 |
| ProtocolSnapshots.WrapMatches | inode.go:182-227 | fewer than 2^32 modifications apart, equal 32-bit revisions mean no modification |
| ProtocolSnapshots.RmCommitIsAtomic | inode.go:216-235 | when the revision check of `rmChild` passes with a recent snapshot, the slot still holds the child that was read, so the commit is the atomic removal of that slot; other threads' snapshots do not matter |
| ProtocolSnapshots.MvCommitIsAtomic | inode.go:252-288 | the same for both slots of `mvChild` |
| ProtocolSnapshots.RefCutIsAtomic | inode.go:171-197 | when the check of `removeRef` passes with a recent snapshot, the parents that were read are all of them, so the inode is cut out completely |
| ProtocolSnapshots.CutForwardExact | inode.go:188-197 | the group-locked section of `removeRef` keeps "child edge implies parent entry" if and only if the parents that were read list every edge to the inode |
| ProtocolSnapshots.SectionForward | inode.go:103-303 | every other section keeps that law, whatever the snapshots say by then |
| ProtocolSnapshots.RunForwardExact | inode.go:103-303 | the law holds throughout a run of any number of threads if and only if no cut misses an edge |
| ProtocolSnapshots.RunForward | inode.go:103-303 | the law holds after any run whose steps check recent snapshots |
| ProtocolCalls.RefSectionExact | inode.go:150-162 | `removeRef` subtracts exactly the count it was given, leaves every other record alone, panics exactly when there is less, and goes on to removal exactly when the inode is dead |
| ProtocolCalls.RefDeleteExact | inode.go:164-166 | it deletes exactly the registry entry of its inode's number |
| ProtocolCalls.AddSectionExact | inode.go:112-141 | `addChild` with its locks held reads the registry again if it changed, makes a new inode for an unknown number, and otherwise links the child in both directions, with one more lookup, and changes nothing else |
| ProtocolCalls.AddChildTakesEffect | inode.go:103-147 | whatever other threads do, a finished `addChild` linked its child in exactly one step and changed nothing in its others |
| ProtocolCalls.RemoveRefTakesEffect | inode.go:149-210 | a finished `removeRef` subtracted its count in exactly one step, changed nothing before it and no count after it |
| ProtocolCalls.RmChildTakesEffect | inode.go:212-246 | a finished `rmChild` that checked recent snapshots emptied its slot, or saw it empty, in exactly one step |
| ProtocolCalls.MvChildTakesEffect | inode.go:248-303 | a finished `mvChild` that checked recent snapshots renamed, or was refused, in exactly one step |
| ProtocolConservation.StepBalances | inode.go:103-210 | each step of any thread keeps the ledger: lookups held and owed change by what a call that begins asks for, but for a counter that wraps |
| ProtocolConservation.RunLedger | inode.go:103-210 | so does any run of any number of threads |
| ProtocolConservation.RunConserves | inode.go:103-210 | when all threads have finished, the inodes of a number hold what they held at first plus one for each `addChild` and minus the count of each `removeRef` called for it: modulo 2^32 in every run, and exactly while no counter wraps |
| ProtocolSolo.AddChildRefines | inode.go:103-147 | an undisturbed `addChild`, in whatever order its steps are scheduled, links its one entry, counts one lookup, and changes nothing else |
| ProtocolSolo.RemoveRefRefines | inode.go:149-210 | an undisturbed `removeRef`, lock by lock and with whatever order of parents, subtracts its count and removes exactly the least dead set |
| ProtocolSolo.RmChildRefines | inode.go:212-246 | an undisturbed `rmChild` is the operation, with the removals it ends with |
| ProtocolSolo.MvChildRefines | inode.go:248-303 | an undisturbed `mvChild` is the operation, with both removals, the old directory first |
| ProtocolProgress.WaitsAbove | inode.go:112-355 | a waiting thread holds only locks that rank below the one it waits for |
| ProtocolProgress.FreshIsFree | inode.go:125-128 | the lock of a new inode, taken under the bridge mutex, is free |
| ProtocolProgress.NoDeadlock | inode.go:305-355 | in every state of the invariant, if some thread is unfinished then some unfinished thread can step |
| ProtocolProgress.RunNeverDeadlocks | inode.go:305-355 | no run of any number of threads ends in a deadlock |
| ProtocolGarbage.StepCollects | inode.go:103-303 | every step of any thread leaves a registered inode that is not live only where some thread is still to visit or remove it |
| ProtocolGarbage.RunCollects | inode.go:103-303 | so does any run, with adds of any kind; once all threads have finished, every registered inode is live |
| ProtocolWrap.RmCheckExact | inode.go:226-235 | `rmChild` commits if and only if the number of modifications since the snapshot is a multiple of 2^32 |
| ProtocolWrap.MvCheckExact | inode.go:263-288 | `mvChild` commits if and only if both directories' numbers are multiples |
| ProtocolWrap.RefCheckExact | inode.go:181-203 | `removeRef` cuts its inode out if and only if its number is a multiple |
| ProtocolWrap.MvRuns | inode.go:248-303 | with nobody in the way a whole call of `mvChild` that replaces one entry of a looked-up directory by another is, lock by lock, the rename |
| ProtocolWrap.StaleRun | inode.go:213-235 | a run of two threads from an idle start in which `rmChild` removes a child it never read, and that child keeps its parent entry |
| DumpRestore.AttachAllEffect | dump.go:133-138 | the loop over a record's parents puts in exactly the listed edges and creates exactly the directories that were missing |
| DumpRestore.AddInodeEffect | dump.go:114-143 | one more record, whatever came before it, brings the restored graph to that of all records so far |
| DumpRestore.RecordAccepted | dump.go:134-137 | no record of a dump, in any order, makes the restorer write into a file's missing children map |
| DumpRestore.AddAllEffect | dump.go:114-143 | records in any order restore the same graph |
| DumpRestore.CoherentEnclosed | dump.go:114-143 | what coherent sequential use maintains satisfies the hypotheses of the round trip |
| DumpRestore.DumpIsRecord | dump.go:69-84 | dumping an inode yields its number, revision, count, kind and parents by number, oldest first |
| DumpRestore.RoundTrip | dump.go:55-143 | the dumped inodes, restored in any order, rebuild the graph: numbers, kinds, revisions, counts, children, and the recency order of parents |
| DumpRestore.LastListedWins | dump.go:114-143 | whatever records are restored, a slot leads exactly to the last inode whose record lists it |
| DumpRestore.RoundTripExact | dump.go:55-143 | every order of the records brings the graph back if and only if between registered inodes child edges and parent entries agree |
| DumpRestore.OrderMatters | dump.go:134-137 | two adds under one name leave a graph whose slot goes to the one inode or the other, depending on the order of the records |
| Copier.Flatten | dump.go:55-61 | every registered inode is listed once, in any order |
| Copier.InodeDumper.Next | dump.go:69-84 | each call yields the record of the next listed inode, and nothing at the end |
| Copier.Record | dump.go:73-81 | the record of an inode has its number, 32-bit revision, count, kind and parents |
| Copier.DumpParents | inode_parents.go:115-123 | the parents of an inode oldest first, by number |
| Copier.NewInodeDumper | dump.go:55-67 | the dumper starts at the first of the registered inodes |
| Copier.InodeRestorer.GetDirInode | dump.go:98-112 | a directory that is not there yet is created and registered |
| Copier.InodeRestorer.RestoreFields | dump.go:116-131 | the inode is found or created and gets its record's fields; a children map is made for a directory that has none |
| Copier.InodeRestorer.AddEdge | dump.go:135-137 | one parent entry restores both directions of one edge |
| Copier.InodeRestorer.AddEdges | dump.go:133-138 | the loop restores the edges of the parent list in order |
| Copier.InodeRestorer.AddInode | dump.go:114-143 | the objects end up as the graph after the record |
| Copier.InodeRestorer.Finished | dump.go:145-167 | a missing root and missing records are reported, the root is taken over, and the peak of the registry is set on success only |
| Copier.Dump | bridge.go:705-726 | the number of registered inodes, every file entry and the free handles are dumped, and a dumper is made |
| Copier.Restore | bridge.go:728-745 | the registry is emptied, the file entries and free handles come back, and the restorer starts at no records |
| Copier.Transfer | dump_test.go:61-100 | dumping one bridge into another, record by record, ends with the same graph and the same open files, and without an error whenever the root is registered |
| Handles.FreshHandle | file.go:83-90 | the handle about to be returned is neither 0 nor open |
| Handles.NextPartitionedExact | file.go:79-111 | an operation keeps free and open handles a partition of 1 to the table's length if and only if it releases 0 or an open handle, or registers with a free handle or within 32 bits |
| Handles.RunPartitionedExact | file.go:79-111 | a run keeps the partition throughout if and only if each of its operations is such |
| Handles.RunKeeps | file.go:79-111 | after any allowed run handles are partitioned, the table is one longer than the most handles ever open at once, and the next handle is not open |
| Handles.ReleasedTwice | file.go:100-110 | a handle released twice is given to two sessions at once |
| Handles.FileTable.RegisterFile | file.go:79-98 | the handle is the last one released, or the table's length in 32 bits; its entry holds the new session and no other entry changed; while the handles are partitioned, and a new one fits, it was not open and its entry never held another session |
| Handles.FileTable.UnregisterFile | file.go:100-111 | handle 0 is ignored; otherwise the handle, open or not, becomes free and gets a new entry; releasing an open one keeps the partition |
| Handles.FileTable.constructor | bridge.go:51-52 | handle 0 is reserved from the start |
| Handles.FileTable.Dump | bridge.go:705-726 | the dump holds every entry and the free handles in order |
| Handles.FileTable.Restore | bridge.go:728-740 | a dumped table comes back with the same entries and hands out the same handles |
| XAttr.RoundTrip | syscall.go:17-28 | names without NULs, written one after the other with a NUL each, are read back as the same list |
| XAttr.RoundTripExact | syscall.go:21-28 | a list of names survives the round trip if and only if no name contains a NUL |
| XAttr.EncodeWritten | bridge.go:418-422 | byte by byte, each name stands where the ones before it end and a zero byte follows it |
| XAttr.AnswerExact | syscall.go:5-29 | whatever happened to the names between the two calls, the decoder answers the names that were there last exactly when they fit what it allocated, and otherwise the error, or a panic when the error comes with a negative size |
| XAttr.WrittenIsRead | syscall.go:17-28 | while the names stay the same the decoder answers the names, and nil for none |
| XAttr.Size | bridge.go:410-413 | the size computed first is that of the encoding |
| XAttr.ListXAttr | bridge.go:410-423 | a buffer that is too small is left alone and the size reported; otherwise exactly the reported bytes are written, and they are the encoding |
| XAttr.ReadNames | syscall.go:5-29 | the loop asks for the size, allocates, reads and splits; its answer is determined by what the file held at each call |

## Left out

- Operations that only compute a path and call the file system (Access, Read, Write, Fsync, locks, attributes): they change nothing in the graph.
- Mknod, Mkdir, Link, Symlink and Create: they call the file system and then do what `Handlers.Lookup` does with a found entry.
- Attribute cosmetics and timeouts in replies, logging, context pooling, server start-up, and the `debug.FreeOSMemory` call.
- Handlers.PathOf: takes the finite walk as a ghost argument. On a cycle along newest parents the source loops for ever; `Paths.LookupCycle` says when an add creates one. An orphan's random placeholder is abstract; `Orphaned` keeps the names below it.
- Handlers.Lookup: a number or kind that makes `addChild` panic is excluded by a requires clause, and so is an unknown directory.
- Bridge.RawBridge.AddChild: requires what the source panics on (a virtual name, a reserved number for a new inode, a parent without a children map).
- Bridge: the objects carry no mutexes; locks are the subject of the thread model, in which a section runs as one step because all it touches is locked.
- ProtocolSnapshots.RunForward: assumes fewer than 2^32 modifications between a snapshot and its check; `ProtocolSnapshots.RunForwardExact` is the exact condition, and `ProtocolWrap.StaleRun` a run beyond that limit.
- ProtocolSafety.DroppedForever: says nothing about the number of the dropped inode, which a new inode may take.
- Protocol: completeness of the registry is not claimed for threads; deletion by number does not guarantee it.
- Agreement.RunKeeps: covers runs with coherent adds; `Agreement.RunAgreesExact` is the exact condition.
- Listing.ReadDirPlus: the reply buffer is abstracted to the number of entries it has room for, the directory is one, the kernel's choice of the next offset is free (`Listing.StopCounted`), and the file handle's mutex appears only in the thread model.
- Copier.Transfer: the sending bridge is quiescent; a dump taken while other threads run is not modelled.
- Copier.InodeRestorer.AddInode: a parent number that was restored as a file makes the source panic, so it requires that there is none; records of a dump meet this in any order.
- Handles.FileTable.UnregisterFile: a handle beyond the table, on which the source panics, is excluded by a requires clause.
- Bridge.Inode.constructor: the panic on the reserved number is a requires clause of `Bridge.RawBridge.AddChild`.
- ProtocolWrap.MvRuns: shows that such a call can run; `ProtocolSolo.MvChildRefines` says what every undisturbed rename does.
- ProtocolCalls.RmChildTakesEffect: assumes that the call's own checks are of recent snapshots, as does `ProtocolCalls.MvChildTakesEffect`; `ProtocolWrap.RmCheckExact` is the exact condition.
- ProtocolSolo: says what a finished call did; that a call can always go on is `ProtocolProgress.NoDeadlock`, and fairness of the scheduler is not modelled.
- XAttr.ReadNames: the system call is an oracle, and an error is taken to come with the size 0 or a negative one.
- The retry loop of `getXAttr` and the copying of a single attribute value, which have no structure of their own.
