# A Dafny model of nekomata's reload core

nekomata replaces functions of a running program. This project models the parts of it whose mistakes would be
expensive, and proves what they promise. Every module stands beside one component of the repository:

* **The native reload transaction over live memory.** `LiveMemory` is a byte map whose kernel may refuse
  any request, and every refusal is counted. `Patching` writes and restores five-byte entry windows. `Redirect` is the
  `jmp rel32` encoding. `Arena`, `PoolSearch` and `CodePages` are the code-page allocator. `World` is the transition
  system of everything a session can do, with one invariant that ties memory, allocator and ownership together.
  `Session` is the session itself: an imperative class whose ghost history is, at every moment, a run of that
  transition system.
* **The ELF mini-link.** `Layout` places sections and trampolines (and the COFF image). `Fields` is the relocation
  arithmetic of section 4.4 of the System V AMD64 ABI supplement. `Relocations`, `Image` and `Access` apply relocations
  and say what the finished code reaches when it runs. `StateBinding`, `StateStorage` and `StateTable` keep mutable state
  across generations. `Selection` chooses the functions to replace. `Linker` links the images of one generation, and
  `GenerationCalls` follows a call from one image into another. `Reservations` and `Loader` put a load together over the
  allocator, and `Handover` joins it to the session. `Misplaced` is an object that loads and then writes to the wrong
  address.
* **SHA-256.** `Sha256` holds the definition of FIPS 180-4 and the streaming context that computes it, and `KnownDigest`
  follows that definition through the example of the standard.
* **The wire formats.** `Decimals`, `Scanner` and `Wire` are the shared grammar; `Tables` says what a document of
  rows states; `GenerationOffer`, `WasmOffer` and `GroupDescriptor` are the three dialects; `DescriptorSection` frames
  descriptors in an object section.
* **Delivery.** `Publisher` is publication as atomic directory steps with crashes; `References`, `GenerationStream`,
  `ManagedGroups` and `ManagedSession` are the native consumer; `Delivery` joins the two, and `NativeUpdate` joins the
  consumer to the transaction over live memory. `WasmCandidate`, `OfferPoller`, `PltSlots`, `WasmSession` and `WasmStart`
  are the browser consumer.

The main results, hardest first:

1. *No dangling redirect.* In every run of reservations, fills, drops, commits, full and incomplete rollbacks, releases
   and the end of the session, every entry the session rewrote jumps to the target it was given, and a target inside the
   code loaded for it lies in an active, executable slot that is never reclaimed or reused, so the entry stays patchable
   for every later target in reach (`NoDanglingInAnyRun`, `PinnedForever`, `PoisonedForever`). So a function with a known
   prologue can be reloaded again and again (`AlwaysInstallable`). The steps say how the allocator's pools change, and the
   allocator's own invariant is proved of them too (`RunKeepsInv`). The class methods of `Session.NativeSession` make only
   such steps.
2. *All or nothing, and never without a reason.* `Commit` installs a prepared generation exactly when the session is not
   poisoned, its definitions can be published, every entry is fit in its turn, and the kernel refuses no request. It then
   changes exactly the entry windows; otherwise it restores the memory byte for byte, or poisons the session, and then a
   restore was refused (`Commit`, `CommitExact`, `RollbackCompletes`). Any number of groups, each of any number of objects,
   can be prepared side by side and committed one after another: preparing or dropping one generation leaves the others
   prepared, what is installed is the code the objects were built and linked to, byte for byte, and in the end every
   reservation is kept or given back (`PrepareGroup`, `ReloadAll`, `ReloadAndEnd`). When the kernel refuses nothing, each
   group that was not prepared and each generation that was not installed has an explicit reason, down to an allocator that
   has no free block near the hint (`ReserveNear`).
3. *Relocation keeps meaning.* With fields inside their sections and apart, every resolved field of the finished image
   decodes to S + A. Calls inside the object arrive at the function's own first byte, calls out of it reach a trampoline
   that jumps to the definition, in the process or in a sibling object of the generation; named variables are reached in the
   storage they are bound to, read-only data where the object has it, other definitions where the process has them; and
   deferred fields are zero and recorded (`CallStaysInside`, `ImageSymbolReached`, `CallReachesTarget`,
   `DeferredCallReaches`, `VariableReached`, `RodataReached`, `ExternalReached`, `DeferredFieldCleared`). After
   linking, every reference to one name reaches one address (`EveryReferenceReaches`). A function is redirected only
   when nothing else can be meant (`NeverGuessed`). A variable keeps its committed storage, else its live one, and
   only a new one gets storage of its own (`BindState`, `BindingMeans`).
4. *Streaming equals the standard.* Any way of cutting a message into updates gives the digest of FIPS 180-4
   (`DigestOfChunks`), whose example comes out as printed there (`DigestOfAbc`).
5. *Publication and consumption.* Every state a consumer can meet, crashes included, has a sound newest marker, as long as
   the newest generation is not published again; observed sequences strictly increase; a consumer takes the newest
   generation of every sound state above its cursor (`Publish`, `PublishAll`, `Poll`, `PollAll`, `Deliver`,
   `PublishAndConsume`).
6. *Each outcome once.* Every outcome of a managed group is reported in one update, in the order of the groups, superseded,
   still held, or a failure with an empty text, and just one of these (`ManagedGroups.Group`,
   `ManagedSession.Session.Update`). An event says that a generation was applied exactly when the update installed it in
   live memory (`NativeUpdate.Update`). The call slots of a browser group, null when the session opens, never mix
   generations (`WasmStart.Open`, `SlotsCoherent`).
7. *Parsers and printers undo each other* in all three dialects, for markers and for sections, and a text is accepted
   exactly when its rows say what the format asks for, each field once (`ParsedExact`).

Seven properties hold only under a condition, which the proofs give exactly, with an input that fails:

* A 32-bit absolute field of the zero-extended kind is accepted for the whole signed range, but gives its value back just
  when the value is not negative (`Fields.EncodeDecodes`, `NegativeMisread`).
* The mini-link looks a section-relative access up as if the instruction ended with its field. It takes the section to
  start where the first symbol at that offset says, or, when no symbol is there, where the section's anchor says. With any
  number of bytes behind the field, the access is right just when that is where the storage of the intended symbol puts
  the start (`Access.AccessReachesStorage`); so always without such bytes, and always in a section that kept its live
  storage (`PlainAccessReaches`, `Loader.LiveSectionMovesAsOne`). With four bytes behind the field, a store to either of two
  variables goes astray when the first is new and the second is live (`Misplaced.FirstMisplaced`, `SecondMisplaced`).
* A publisher's sequence is above all others just when no marker has the sequence 2^64-1, because the sum wraps
  (`Publisher.AllocatedAbove`, `GreatestExhausts`).
* A publication is consumed by the next pass of a program it was built for just when the program's cursor is zero or not
  above every marker that was there (`Delivery.PublishAndConsume`). The first publication has the sequence one, so a
  program with a greater baseline never consumes it (`FirstBelowBaseline`).
* All states of a publication that returns are sound just when the newest marker does not already use its id
  (`Publisher.Publish`). Unless fingerprints collide, that is when the newest generation was published from the very same
  contents (`ReusedJustWhenSame`); publishing them twice breaks it (`PublishTwice`).
* An update activates a ready candidate of a watched browser group just when its generation is not the one reported last
  (`WasmSession.Session.Update`). A generation whose module failed to load, and that is then published again, is accepted
  and never activated (`WasmStart.NeverActivated`, `AgainOccurs`).
* A reservation near a hint finds a free block just when there is one that does not begin right at the lower edge of the
  window, where the block is one page too far from the hint and no other place in the gap is tried
  (`CodePages.CodePages.ReserveNear`, `CodePages.EdgeMissed`).

## Model

| member | source | states |
|---|---|---|
| Redirect.JumpDecodes | src/backends/elf/runtime/code_pages.cpp:515-528 | the five bytes written over an entry make the processor continue at the target |
| Redirect.InReachJustWhen | src/backends/elf/runtime/code_pages.cpp:494-508 | in user space a target is in reach of an entry exactly when some such jump goes there |
| Redirect.NearIsInReach | src/backends/elf/runtime/code_pages.cpp:494-497 | in user space an entry reaches every target within the allocator's limit |
| Patching.PatchFirstHolds | src/runtime/reload_transaction.cpp:116-150 | after a batch with spaced entries every written window holds its own code |
| Patching.PatchFirstFrame | src/runtime/reload_transaction.cpp:116-150 | a batch changes no byte outside its windows |
| Patching.RollbackStarts | src/runtime/reload_transaction.cpp:100-123 | when a patch fails, every written window can be restored from the snapshots taken before the first write, overlapping or not |
| Patching.RollbackRestores | src/runtime/reload_transaction.cpp:120-125 | one successful restore keeps the rollback on its way to the original memory |
| Patching.RollbackSkips | src/runtime/reload_transaction.cpp:120-125 | one failed restore is accounted for and leaves the window it failed at as the only doubt |
| Patching.RollbackCompletes | src/runtime/reload_transaction.cpp:120-147 | a rollback without failures ends in the original memory, byte for byte, even when windows overlap |
| Arena.SlotsDisjoint | src/backends/elf/runtime/code_pages.cpp:254-287 | two slots of the arena share no byte, in one pool or in two |
| Arena.WithSlotOk | src/backends/elf/runtime/code_pages.cpp:257-271 | reusing or changing a slot within its extent keeps pools tiled up to their cursors and the guard page |
| Arena.CarvedOk | src/backends/elf/runtime/code_pages.cpp:273-285 | carving a slot at the cursor keeps pools tiled and leaves a page beyond the usable end |
| Arena.NewPoolOk | src/backends/elf/runtime/code_pages.cpp:377-392 | a pool mapped apart from all others keeps the arena sound |
| PoolSearch.AddGap | src/backends/elf/runtime/code_pages.cpp:141-157 | a gap yields an acceptable block, aligned and clear and with its true distance, or no aligned block of the minimum size fits in it |
| PoolSearch.FindPoolCandidates | src/backends/elf/runtime/code_pages.cpp:128-187 | every candidate is page-aligned, large enough, inside the hint's window and clear of every mapping; they are ordered by distance, then larger size; each gap with a free block is served by one nearest to the hint; and there is none just when no free block exists, saturation at the top of the space included |
| CodePages.BlockReached | src/backends/elf/runtime/code_pages.cpp:52-59 | in user space every byte of a block returned for a hint is reached from it |
| CodePages.CodePages.ReserveNear | src/backends/elf/runtime/code_pages.cpp:353-421 | a granted block is apart from every live slot, in reach of the hint in every byte, keeps a page beyond its usable end, and is owned by its new handle; it is the first room of the pools, or else the nearest new pool; when the kernel refuses nothing, a refusal means that there is neither, edges of the window aside; a refusal changes nothing |
| CodePages.EdgeMissed | src/backends/elf/runtime/code_pages.cpp:128-187 | an address space with free ground in reach of a hint, right at the lower edge of its window, that a reservation does not use |
| CodePages.CodePages.Reclaim | src/backends/elf/runtime/code_pages.cpp:289-307 | the slot is freed, or stays mapped for the process, bytes and all, when the kernel refuses to change its protection; no other slot changes |
| CodePages.CodePages.ReleaseToProcess | src/backends/elf/runtime/code_pages.cpp:309-313 | the handle gives its slot to the process, which keeps it active |
| CodePages.CodePages.CommitCode | src/backends/elf/runtime/code_pages.cpp:445-472 | success writes the image and makes just this slot executable; every failure leaves all slots and everything outside the slot as it was, and is an image that does not fit or a refused request |
| CodePages.CodePages.RewriteReservation | src/backends/elf/runtime/code_pages.cpp:541-569 | a rewrite stays inside the reservation and its slot, and a refusal writes nothing and is a range beyond the reservation or a refused request |
| CodePages.CodePages.OwnsAddress | src/backends/elf/runtime/code_pages.cpp:433-443 | true exactly for addresses in the usable part of active executable slots |
| CodePages.CodePages.PatchableEntry | src/backends/elf/runtime/code_pages.cpp:474-501 | an entry is patchable exactly with a known prologue or a redirect into own code, and a target in reach |
| CodePages.PrologueMeans | src/backends/elf/runtime/code_pages.cpp:474-481 | the known prologues, byte by byte |
| CodePages.CodePages.PatchEntry | src/backends/elf/runtime/code_pages.cpp:511-539 | success opens the pages of the entry, writes exactly the redirect and closes them; failure writes nothing, and happens exactly when the entry is not patchable for the target or the kernel refuses to open them |
| CodePages.CodePages.RestoreEntry | src/backends/elf/runtime/code_pages.cpp:571-587 | success writes back exactly the five original bytes, in opened pages; failure writes nothing and means that the kernel refused |
| CodePages.CodePages.RetainedHull | src/backends/elf/runtime/code_pages.cpp:208-218 | the kept range runs from the first byte to the last of the pool's process-lifetime slots |
| CodePages.CodePages.Destroy | src/backends/elf/runtime/code_pages.cpp:208-230 | destruction unmaps no byte of an active process-lifetime slot, and leaves nothing of a pool outside the range of such slots |
| World.NoDanglingRedirect | src/runtime/reload_transaction.cpp:116-162 | with entries spaced, whatever was written over an entry decodes to its target, and a target inside the code loaded for it lies in an active, executable, pinned slot, so that the entry is patchable for every target in reach |
| World.ReservedOk | src/backends/elf/runtime/code_pages.cpp:254-287 | a reservation, in a reused slot, at a cursor or in a new pool, keeps the pools sound and mapped, adds one slot apart from all others, and puts no byte that was mapped outside into a pool |
| World.RewrittenOk | src/backends/elf/runtime/code_pages.cpp:289-313 | freeing a slot, giving it to the process, or making it executable keeps the pools sound and changes no other slot |
| World.CommitExact | src/runtime/reload_transaction.cpp:100-162 | a commit changes exactly the windows of its entries, and with entries spaced each decodes to its target |
| World.CommitKeeps | src/runtime/reload_transaction.cpp:116-162 | the whole invariant, the allocator's part included, survives a commit |
| World.PoisonKeeps | src/runtime/reload_transaction.cpp:116-143 | the whole invariant survives an incomplete rollback, whichever restores failed |
| World.ReserveKeeps | src/backends/elf/runtime/code_pages.cpp:254-287 | the whole invariant survives a reservation, and no entry changes |
| World.DropKeeps | src/backends/elf/runtime/code_pages.cpp:289-330 | the whole invariant survives the discard of a candidate's reservation, reclaimed or not, and no entry changes |
| World.CloseKeeps | src/backends/elf/runtime/code_pages.cpp:208-230 | the whole invariant survives the destruction of the allocator, and no entry changes |
| World.NextKeeps | src/runtime/reload_transaction.cpp:19-200 | every step keeps the whole invariant |
| World.RunKeepsInv | src/runtime/native_session.cpp:85-107 | the invariant holds in every state of every run |
| World.NoDanglingInAnyRun | src/runtime/reload_transaction.cpp:116-162 | no dangling redirect in any state of any run, for a program whose entries are spaced and targets inside the code loaded for them |
| World.PinnedForever | src/runtime/native_session.cpp:85-100 | a slot that redirects may land in is never reclaimed or reused in the rest of the run, and its code never changes |
| World.PoisonedForever | src/runtime/native_session.cpp:102-107 | once poisoned, no entry changes any more to the end of the run |
| Session.NativeSession.ValidateGeneration | src/runtime/reload_transaction.cpp:55-66 | accepted exactly when no two replacements of the generation name one entry |
| Session.NativeSession.PrepareObject | src/runtime/reload_transaction.cpp:19-44 | a prepared object owns its reservations, on new slots that hold its contents and the code built for them, with every entry prechecked; success or failure, every slot that was there stays and no entry is written; a failure gives everything back, and has a reason in the object or the allocator unless the kernel refused a request |
| Session.NativeSession.PrepareGeneration | src/runtime/managed_worker.cpp:86-97 | all objects of a generation are loaded, with handles and contents of their own, or those before the failing one are given back, for that one's reason |
| Session.NativeSession.LinkGeneration | src/runtime/reload_transaction.cpp:46-53 | succeeds exactly when every rewrite fits its object and the kernel refuses nothing, and then the code is what was built with all rewrites in order; in any case only bytes in the slots of the generation change, every slot stays, and no entry is written |
| Session.NativeSession.PrepareGroup | src/runtime/managed_worker.cpp:84-108 | a group's pass leaves its generation prepared, with the code the objects were built and linked to, or nothing of it, for an explicit reason unless the kernel refused; generations prepared before stay prepared |
| Session.NativeSession.SnapshotAll | src/runtime/reload_transaction.cpp:100-114 | all original windows are saved before the first write, exactly when every entry is fit to be replaced |
| Session.NativeSession.WriteEntries | src/runtime/reload_transaction.cpp:116-150 | all windows are written, or all are restored, or some restore failed and the number of failures is not zero |
| Session.NativeSession.Commit | src/runtime/reload_transaction.cpp:68-162 | the three outcomes: committed with ownership moved and state published, rejected with memory unchanged, or poisoned with everything kept; committed exactly when the session is not poisoned, the definitions can be published, every entry is fit in its turn and the kernel refuses nothing; poisoned only after a refused restore; and the session vouches for every target of a generation whose redirects lie inside its images |
| Session.SpacedInstallable | src/runtime/reload_transaction.cpp:100-114 | for spaced entries it is enough that each is fit before the first write, as the precheck looks at them |
| Session.AlwaysInstallable | src/backends/elf/runtime/code_pages.cpp:474-501 | in every state of a run each generation that is in reach and whose entries had known prologues at the start can be installed, however often they were redirected |
| Session.NativeSession.CommitOrDiscard | src/runtime/native_session.cpp:199-228 | an applied generation is a commit of the run with all its redirects, and a poisoned one an incomplete rollback; its reservations are kept then, and otherwise given back; all others stay; when the kernel refuses nothing, it is rejected exactly when it is unfit |
| Session.NativeSession.ReloadAll | src/runtime/native_session.cpp:193-240 | each prepared generation is built from the objects of one group, in the order of the groups, and of the other groups nothing is left; each is decided on its own and is in the run what its outcome says, the count of applied ones grows just so, and after an incomplete rollback the rest is still prepared; what is prepared or installed keeps the linked code of its objects; and when the kernel refuses nothing, every group left out and every rejected generation has its reason |
| Session.NativeSession.ReloadAndEnd | src/runtime/native_session.cpp:85-100 | the same up to the end of the session, after which nothing is owned and only what the process keeps is mapped |
| Session.NativeSession.End | src/runtime/native_session.cpp:85-100 | ending a session gives back every candidate and hands the active reservations to the process; nothing stays owned, and of the pools nothing stays mapped outside the range of such reservations |
| StateTable.StateTable.PrepareGenerationCommit | src/backends/elf/runtime/loader.cpp:753-777 | passes exactly when everything introduced is new to the table and named once |
| StateTable.StateTable.CommitGeneration | src/backends/elf/runtime/loader.cpp:779-790 | publication appends exactly the introduced definitions |
| StateTable.StatePreserved | src/backends/elf/runtime/loader.cpp:753-790 | in every interleaving of loads and commits identities stay unique and a committed identity keeps its address, size and alignment |
| StateTable.SecondIntroducerRejected | src/backends/elf/runtime/loader.cpp:753-777 | of two generations that introduce one identity, the one that comes second is refused, however late |
| Layout.PlanObject | src/backends/elf/runtime/loader.cpp:203-253 | sections and slots are aligned, apart and inside the image, exactly the placed sections and one slot per distinct called undefined symbol; refused exactly for over-alignment or an image without bytes |
| Layout.PlanImage | src/backends/pe/format/image_layout.cpp:30-115 | the same for the COFF image with its unwind tail; functions and slots are listed exactly, with offsets cut to 32 bits |
| Fields.EncodeDecodes | src/backends/elf/runtime/loader.cpp:104-134 | a written field decodes to S + A, for the zero-extended kind exactly when the value is not negative |
| Fields.NegativeMisread | src/backends/elf/runtime/loader.cpp:117-124 | an accepted zero-extended field that reads as another address |
| Fields.StubJumps | src/backends/elf/runtime/loader.cpp:66-73 | the thirteen trampoline bytes jump to their target |
| Relocations.ApplyRelocations | src/backends/elf/runtime/loader.cpp:464-575 | the loop accepts exactly when no relocation is refused and none is stored beyond the image; it leaves the composition of all writes, and the deferred fields in order; and it comes to an undefined store exactly when one precedes every refusal |
| Relocations.AppliedHolds | src/backends/elf/runtime/loader.cpp:464-575 | with fields apart, every field still holds what its own relocation wrote |
| Relocations.AppliedFrame | src/backends/elf/runtime/loader.cpp:464-575 | bytes outside all fields stay |
| Relocations.DeferredExact | src/backends/elf/runtime/loader.cpp:526-547 | the recorded fixups are exactly those of the deferred relocations |
| Image.LayImage | src/backends/elf/runtime/loader.cpp:282-304 | before relocation every byte is its section's, its trampoline's, or zero, and every call without a definition has a fixup |
| Image.FieldsStayApart | src/backends/elf/runtime/loader.cpp:488-489 | fields that are inside their sections and apart there are apart in the image |
| Image.BuildImage | src/backends/elf/runtime/loader.cpp:282-304 | the finished image is all writes in order over the laid image, and the fixups are exactly the deferred fields and calls; with fields inside their sections and apart, every field holds its relocation's value, every other byte is the original one, and fixups do not overlap |
| Access.ResolvedFieldDecodes | src/backends/elf/runtime/loader.cpp:549-568 | every resolved field of the finished image decodes to S + A, for the zero-extended kind exactly when the value is not negative; which S the symbol has is in the rows below |
| Access.ImageSymbolReached | src/backends/elf/runtime/loader.cpp:422-462 | a relocation against a symbol of the object's own code or read-only data is stored exactly when it is in range, and leads to the section's offset in the image plus the symbol's value plus the addend |
| Access.CallStaysInside | src/backends/elf/runtime/loader.cpp:422-462 | a call with the addend of a call to a function of the object arrives at that function's first byte in the image |
| Access.VariableReached | src/backends/elf/runtime/loader.cpp:422-462 | a relocation against a variable by its name leads into the storage the variable is bound to, and is refused when it is bound to none |
| Access.ExternalReached | src/backends/elf/runtime/loader.cpp:422-462 | a relocation against an undefined symbol leads to the definition of the process, or is left to the linking of the generation when there is none |
| Access.StartMeans | src/backends/elf/runtime/loader.cpp:497-523 | a section-relative access takes the section to start as the first variable says that its byte belongs to, and only without one as the anchor says |
| Access.StartStores | src/backends/elf/runtime/loader.cpp:497-575 | such an access is stored exactly when the section has a start, the addend does not overflow, and the value is in range |
| Access.OtherSections | src/backends/elf/runtime/loader.cpp:464-485 | a relocation of read-only data other than the unwind table is refused, and one of any other section without code is ignored |
| Access.OtherSymbolReached | src/backends/elf/runtime/loader.cpp:422-462 | a symbol of a section without a place in the image counts from the start of the image |
| Access.CallReachesSlot | src/backends/elf/runtime/loader.cpp:491-496 | a call to an undefined function, with the addend of a call, reaches its trampoline, whether the process defines the function or not |
| Access.CallReachesTarget | src/backends/elf/runtime/loader.cpp:491-496 | when the process defines the function, the trampoline jumps to the definition |
| Access.DeferredFieldCleared | src/backends/elf/runtime/loader.cpp:526-547 | a deferred field is zero and recorded with its name, kind, addend, and, in images up to 4 GiB, its offset |
| Access.RodataReached | src/backends/elf/runtime/loader.cpp:457-461 | a reference to read-only data reaches the byte the object has there |
| Access.AccessReachesStorage | src/backends/elf/runtime/loader.cpp:497-523 | a section-relative access, found at a symbol or left to the anchor, reaches its byte of the bound storage exactly when the section start it was given is the one of the symbol meant |
| Access.PlainAccessReaches | src/backends/elf/runtime/loader.cpp:497-523 | an access whose instruction ends with its field reaches its byte when one symbol covers it |
| Access.UnitedAccessReaches | src/backends/elf/runtime/loader.cpp:497-523 | in a section whose storage was moved as one every access reaches its byte |
| Misplaced.ObjectLoads | src/backends/elf/runtime/loader.cpp:174-663 | an object with one function, which replaces a running one, and everything that holds of a loaded object: hint, plan, storage, anchors, faithful image, exports and redirects |
| Misplaced.SecondMisplaced | src/backends/elf/runtime/loader.cpp:497-515 | in it, a store of four immediate bytes to a live variable is given the distance of the new one before it |
| Misplaced.FirstMisplaced | src/backends/elf/runtime/loader.cpp:516-524 | in it, the same store to the new variable, found in front of the section, is given the anchor of the live one |
| Access.AbsoluteReachesStorage | src/backends/elf/runtime/loader.cpp:497-523 | an absolute section-relative field of any kind leads to its byte exactly when the section start is the right one, or, with the right start, when the value keeps its sign |
| StateBinding.IdentityInjective | src/backends/elf/runtime/loader.cpp:147-156 | two symbols share an identity exactly when both are external of one name, or both local of one name and one source path |
| StateStorage.BindState | src/backends/elf/runtime/loader.cpp:342-409 | a mutable symbol whose identity is committed gets that entry's address, otherwise exactly its live address, otherwise a slot of its own near the code, with its initial bytes, in use nowhere else; refused exactly for a symbol outside its section, a committed layout or live size that differs, or a new one without an identity or over-aligned, unless memory runs out, and then everything reserved is given back |
| StateBinding.BindingMeans | src/backends/elf/runtime/loader.cpp:342-409 | each binding is right on its own: committed, else live with nothing brought for it, else one new piece and no more |
| StateBinding.JustVariables | src/backends/elf/runtime/loader.cpp:342-355 | storage is bound to exactly the object symbols of mutable sections, each with its size |
| StateBinding.OriginMeans | src/backends/elf/runtime/loader.cpp:356-392 | where a symbol comes from, and that it comes from nowhere exactly when one of the explicit refusals holds |
| StateBinding.IdentityGiven | src/backends/elf/runtime/loader.cpp:147-156 | external symbols have an identity, and local ones of a known source file |
| StateBinding.StatePersists | src/backends/elf/runtime/loader.cpp:356-370 | loads at any two moments bind one committed identity to the same storage |
| StateBinding.AnchorSections | src/backends/elf/runtime/loader.cpp:310-335 | the anchors of a data section's live symbols agree, or the load is refused |
| Linker.Tabulate | src/backends/elf/runtime/loader.cpp:690-713 | the first definition of every name, refused exactly for a missing address, two roles, or a variable defined twice |
| Linker.LinkImage | src/backends/elf/runtime/loader.cpp:714-750 | the fixups are filled in order up to the first that cannot be filled or whose write is refused; with none, all are filled and nothing is pending; otherwise all stay pending |
| Linker.LinkGeneration | src/backends/elf/runtime/loader.cpp:684-751 | succeeds exactly when no definitions clash, every field can be filled and every write is granted, and then nothing is pending in any image; a clash changes nothing, and a failure stops at the first bad field of the first bad image, with the images behind it untouched |
| Linker.FillableJustWhen | src/backends/elf/runtime/loader.cpp:714-748 | a field can be filled exactly when it lies in the image and the first definition of its name has the role it asks for and an address its width can hold |
| Linker.FilledReaches | src/backends/elf/runtime/loader.cpp:714-748 | each filled field reaches the tabulated address of its name and role |
| Linker.EveryReferenceReaches | src/backends/elf/runtime/loader.cpp:684-751 | every reference to one name, in whatever image, reaches the first definition of that name in the generation |
| Loader.Load | src/backends/elf/runtime/loader.cpp:174-663 | a loaded object has a sound plan near the code it replaces, its image in memory and executable, bound and anchored storage, its fixups and exports, and every redirect that is meant; a failure gives every reservation back, and has an explicit obstacle in the object, the program or the allocator unless the kernel refused a request |
| Loader.LoadableJustWhen | src/backends/elf/runtime/loader.cpp:178-201 | refused at once are exactly thread-local symbols, names of dynamic initialization, and relocations in mutable data |
| Loader.LiveSectionMovesAsOne | src/backends/elf/runtime/loader.cpp:310-335 | a section whose symbols are all live at one distance, and none of them committed elsewhere, is bound to that storage and moved as one |
| Loader.ExportedCodeInImage | src/backends/elf/runtime/loader.cpp:592-597 | an exported function's address is that of its first byte in the image |
| GenerationCalls.ResolvedKept | src/backends/elf/runtime/loader.cpp:714-748 | linking a generation leaves every field that a load resolved |
| GenerationCalls.DeferredCallReaches | src/backends/elf/runtime/loader.cpp:684-751 | a call without a definition in the process goes through its trampoline to the first definition of its name in the generation, which one of its objects exports |
| GenerationCalls.CallRunsSibling | src/backends/elf/runtime/loader.cpp:592-597 | and so arrives at the first byte of the sibling's function |
| Selection.NeverGuessed | src/backends/elf/runtime/loader.cpp:598-644 | a function of the program is replaced exactly when nothing else can be meant: the only one of its name, the only global one, or the one the manifest places in the source file; refused exactly when its name exists, none is meant, the definition is not global and the file is unknown |
| Selection.SelectRedirects | src/backends/elf/runtime/loader.cpp:577-655 | exactly the meant redirects in symbol order, or refused for an ambiguous function or one under eight bytes |
| Selection.RefusedJustWhen | src/backends/elf/runtime/loader.cpp:598-649 | refused exactly for a function whose name exists while none is meant and the file is unknown, or whose chosen counterpart has a known size under eight |
| Selection.ReplacementInImage | src/backends/elf/runtime/loader.cpp:650-654 | an entry is redirected to the first byte of its new definition |
| Handover.RedirectsInImage | src/backends/elf/runtime/loader.cpp:650-654 | the redirects of a load lie inside its image, as preparing the object needs |
| Selection.ReplacementsSpaced | src/backends/elf/runtime/loader.cpp:645-648 | in a program whose functions do not overlap the windows of two replaced entries are apart |
| Handover.SelectedEntriesSpaced | src/backends/elf/runtime/loader.cpp:645-648 | so all entries such a session replaces are spaced |
| Selection.FindHint | src/backends/elf/runtime/loader.cpp:255-273 | the hint is the function of the first new definition that has one of its name |
| Sha256.CompressBlock | src/base/c/neko_sha256.c:20-67 | one block is the compression of section 6.2.2 |
| Sha256.ChoiceChooses | src/base/c/neko_sha256.c:43 | each bit is the second or the third word's, as the first word's bit says |
| Sha256.MajorityDecides | src/base/c/neko_sha256.c:46 | each bit is the one that at least two of the three words have |
| Sha256.RotationMoves | src/base/c/neko_sha256.c:16-18 | a rotation is a division whose remainder becomes the leading part |
| Sha256.Context.Update | src/base/c/neko_sha256.c:88-112 | absorbing bytes appends them to the message, through the buffer or straight |
| Sha256.Context.PadZeros | src/base/c/neko_sha256.c:117-120 | the padding loop ends, with the least number of zeros of section 5.1.1 |
| Sha256.Context.Final | src/base/c/neko_sha256.c:114-131 | the digest of the message, its length taken modulo 2^64 bits |
| Sha256.PadIsMinimal | src/base/c/neko_sha256.c:117-123 | the padding of section 5.1.1 ends a block and no shorter one would |
| Sha256.DigestOfChunks | src/base/c/neko_sha256.c:80-131 | any way of splitting a message under 2^61 bytes into updates gives the digest of FIPS 180-4 |
| KnownDigest.DigestOfAbc | src/base/c/neko_sha256.c:11-131 | the digest of the three bytes "abc" is the one printed in the standard, worked out round by round |
| Sha256.HexFaithful | src/base/sha256.hpp:25-36 | the text of a digest determines it and is lower-case hexadecimal |
| Decimals.CanonicalTokens | src/protocol/scanner.hpp:128-145 | the canonical tokens are exactly the printed 64-bit numbers |
| Scanner.OtherVersions | src/protocol/scanner.hpp:33-60 | another version of a format is told apart from a foreign format |
| Scanner.UnescapeEscape | src/protocol/scanner.hpp:102-119 | a printed quoted field reads back as its value, whatever follows it |
| Scanner.LinesUnlines | src/protocol/generation_offer.cpp:210-246 | lines that were joined are split into the same lines |
| Scanner.InspectKey | src/protocol/scanner.hpp:77-100 | no issue exactly for keys of portable characters in nonempty components that are not dot or dot-dot |
| Wire.FieldsRoundTrip | src/protocol/scanner.hpp:102-126 | printed fields read back as themselves, with nothing behind them |
| Wire.ReadLines | src/protocol/generation_offer.cpp:210-246 | the line loop reads a document row by row and stops at the first error |
| GenerationOffer.ValidatorExact | src/protocol/generation_offer.cpp:176-208 | the validator objects to exactly the invalid manifests |
| GenerationOffer.MemberMeans | src/protocol/generation_offer.cpp:112-123 | what a well-formed member row is: portable paths, an object under its directory, a digest, a source and a printable build |
| GenerationOffer.RoundTrip | src/protocol/generation_offer.cpp:210-370 | every valid manifest survives printing and parsing |
| GenerationOffer.ParsedValid | src/protocol/generation_offer.cpp:247-348 | everything parsed is valid, and the closing validation never objects |
| GenerationOffer.ParsedExact | src/protocol/generation_offer.cpp:210-348 | a text parses to a value exactly when its rows, behind the right magic line, say that value: every single field once, the lists in order, and the value valid |
| GenerationOffer.RowRefused | src/protocol/generation_offer.cpp:247-330 | a row with an unknown directive is refused, and so is a single field that is there already |
| GenerationOffer.ReprintStable | src/protocol/generation_offer.cpp:210-370 | printing what was parsed and parsing it again changes nothing |
| GenerationOffer.MarkerExact | src/protocol/generation_offer.cpp:405-433 | a file name reads as a reference exactly when it is the reference's printed name |
| WasmOffer.RoundTrip | src/protocol/wasm_offer.cpp:126-284 | every valid offer survives printing and parsing |
| WasmOffer.ParsedValid | src/protocol/wasm_offer.cpp:145-267 | everything parsed is valid, and the closing validation never objects |
| WasmOffer.ParsedExact | src/protocol/wasm_offer.cpp:145-267 | a text parses to a value exactly when its rows, behind the right magic line, say that value: every single field once, the lists in order, and the value valid |
| WasmOffer.RowRefused | src/protocol/wasm_offer.cpp:145-250 | a row with an unknown directive is refused, and so is a single field that is there already |
| WasmOffer.ReprintStable | src/protocol/wasm_offer.cpp:145-284 | printing what was parsed and parsing it again changes nothing |
| GroupDescriptor.RoundTrip | src/protocol/group_descriptor.cpp:126-299 | every valid descriptor survives printing and parsing |
| GroupDescriptor.ParsedValid | src/protocol/group_descriptor.cpp:148-279 | everything parsed is valid, and the closing validation never objects |
| GroupDescriptor.ParsedExact | src/protocol/group_descriptor.cpp:148-279 | a text parses to a value exactly when its rows, behind the right magic line, say that value: every single field once, the lists in order, and the value valid |
| GroupDescriptor.RowRefused | src/protocol/group_descriptor.cpp:148-260 | a row with an unknown directive is refused, and so is a single field that is there already |
| GroupDescriptor.ReprintStable | src/protocol/group_descriptor.cpp:148-299 | printing what was parsed and parsing it again changes nothing, though the baseline may be read with leading zeros |
| DescriptorSection.SerializeSection | src/protocol/descriptor_section.cpp:69-78 | the section is the frames of the descriptors in order, or the error of the first that cannot be printed |
| DescriptorSection.ParseSection | src/protocol/descriptor_section.cpp:29-67 | the offset loop reads exactly the framed records, with the errors for truncated and zero-length records |
| DescriptorSection.FramingRoundTrip | src/protocol/descriptor_section.cpp:29-78 | a serialized list with any number of zero bytes behind it reads back with cumulative offsets |
| DescriptorSection.Resolve | src/protocol/descriptor_section.cpp:80-104 | fails exactly when two records of one group differ, and otherwise gives the first record of every group in order |
| DescriptorSection.ResolvedCovers | src/protocol/descriptor_section.cpp:80-104 | every record's descriptor is in the resolved list |
| DescriptorSection.ResolvedUnique | src/protocol/descriptor_section.cpp:80-104 | resolved group ids are unique |
| References.SelectNewest | src/runtime/generation_stream.cpp:80-85 | the selected offer is the greatest by sequence and then by id |
| References.TextLessMeans | src/runtime/generation_stream.cpp:80-85 | ids are compared by the first character in which they differ, a beginning standing before the longer text |
| GenerationStream.GenerationStream.Poll | src/runtime/generation_stream.cpp:30-154 | the cursor never decreases and becomes the greatest sequence seen; only the newest newer offer is observed, consumed exactly when it is good and otherwise rejected with a reason that holds of it, unless its directory has no canonical path; a malformed marker is reported at most once, the least first, and only when nothing newer is there |
| GenerationStream.GenerationStream.ReportMalformed | src/runtime/generation_stream.cpp:63-78 | the reported name is the least malformed one not reported before |
| GenerationStream.MalformedMeans | src/runtime/generation_stream.cpp:44-58 | a malformed marker ends like one and is not the printed name of any reference |
| GenerationStream.SelectedHighest | src/runtime/generation_stream.cpp:80-85 | the newest newer offer carries the greatest sequence of all well-formed markers |
| GenerationStream.PollAll | src/runtime/generation_stream.cpp:30-154 | each pass over a changing directory observes, from where the last one ended, nothing, the verdict on the newest newer offer, or the least new malformed name; observed sequences strictly increase and no malformed name repeats |
| Publisher.NextSequence | src/runtime/publisher.cpp:19-37 | above every marker's sequence but the greatest possible one, and no greater than needed |
| Publisher.AllocatedAbove | src/runtime/publisher.cpp:19-37 | above all sequences exactly when none of them is 2^64-1 |
| Publisher.GreatestExhausts | src/runtime/publisher.cpp:19-37 | with a marker of the greatest sequence the allocation starts again at one |
| Publisher.StagedComplete | src/runtime/publisher.cpp:88-140 | with stable objects the staged directory is complete for its marker |
| Publisher.Publish | src/runtime/publisher.cpp:69-155 | at every step, crashes included, the newest marker names a complete generation, unless the newest id is reused; a publication that returns kept it at every step exactly then; completion re-establishes it in any case; and without a mishap of the file system only a publication with an invalid manifest does not return |
| Publisher.SharedIdMeans | src/runtime/publisher.cpp:88-114 | two publications have one id exactly when their contents are the same, member by member, unless fingerprints collide |
| Publisher.ReusedJustWhenSame | src/runtime/publisher.cpp:88-114 | so the newest id is used again exactly by a publication of the contents it stands for, unless fingerprints collide |
| Publisher.ReuseBreaks | src/runtime/publisher.cpp:141-155 | when the newest id is used again, its marker finds a manifest of another sequence until the new marker is there |
| Publisher.PublishTwice | src/runtime/publisher.cpp:69-155 | publishing the same contents twice passes through a state without a complete newest generation, and ends in a sound one |
| Publisher.PublishAll | src/runtime/publisher.cpp:69-155 | each publication releases its marker, unless the file system fails or its manifest cannot be printed; released sequences strictly increase, and every state is sound while every publication is careful |
| Delivery.CompleteIsGood | src/runtime/generation_stream.cpp:87-144 | what a publisher calls a complete generation is what a consumer accepts, when the manifest suits the program |
| Delivery.Deliver | src/runtime/generation_stream.cpp:30-154 | a sound state whose newest marker is above the cursor is consumed in one pass |
| Delivery.PublishAndConsume | src/runtime/publisher.cpp:69-155 | a publication of stable objects returns unless the file system fails or its manifest is invalid; then it is consumed by the next pass of a program it was built for, with the manifest of just these objects, exactly when the cursor is zero or not above every earlier marker; otherwise the pass observes what is there, and consumes nothing when the cursor is too high |
| Delivery.FirstBelowBaseline | src/runtime/publisher.cpp:19-37 | the first publication has the sequence one and is consumed exactly by a program of baseline zero |
| ManagedGroups.LedgerObserves | src/runtime/managed_worker.cpp:68-109 | a new observation supersedes the one still held and no other, and is held unless it is silent |
| ManagedGroups.LedgerReports | src/runtime/native_session.cpp:196-240 | a report settles the held observation, later than all reported before |
| ManagedGroups.Group.Prepare | src/runtime/managed_worker.cpp:68-109 | a pass leaves one outcome, prepared or rejected, never both; only a rejection with an empty text leaves none |
| ManagedGroups.Group.Consume | src/runtime/native_session.cpp:199-241 | an enabled group reports what it holds in one event, with the text of a rejection, and holds nothing afterwards; a disabled one keeps it; an incomplete rollback reports nothing |
| ManagedSession.Session.Work | src/runtime/managed_worker.cpp:45-66 | only enabled groups are polled, and a fatal pass ends the session |
| ManagedSession.Session.SetEnabled | src/runtime/native_session.cpp:120-146 | enabling and disabling keep whatever outcome the group holds, and fail once the session is fatal |
| ManagedSession.Session.Update | src/runtime/native_session.cpp:179-272 | the events are, in the order of the groups, one for every enabled group that holds an outcome, telling what it was or what its commit came to, and behind them the one of the object watches; the last result is that of the last event; the counters equal the applied and rejected events ever returned; fatal exactly after an incomplete rollback |
| NativeUpdate.Update | src/runtime/native_session.cpp:179-272 | every due generation is committed to live memory, one transaction each, and its event says applied exactly when it was installed, with the number of its redirects; what was installed is linked code; when the kernel refuses nothing, only an unfit generation is not applied; what a disabled group holds stays prepared; the next update finds the session as ready |
| NativeUpdate.Work | src/runtime/managed_worker.cpp:68-109 | a worker pass over an enabled group puts a newly prepared generation, or none, in the place of the one it held, whose reservations are given back; everything else stays prepared |
| WasmCandidate.JudgedProvides | src/backends/wasm/candidate.cpp:84-130 | only a module with exactly the contract's entries in order, all with an address, is prepared |
| WasmCandidate.JudgedExact | src/backends/wasm/candidate.cpp:84-130 | a loaded module is prepared exactly when its descriptor has the layout, the ABI and the entries of the contract in order with their addresses; every other answer has its own reason |
| WasmCandidate.ContractSound | src/backends/wasm/candidate.cpp:55-74 | when a contract is sound: named, with a digest, and with distinct nonempty entries |
| WasmCandidate.Candidate.Complete | src/backends/wasm/candidate.cpp:75-133 | a completion decides a loading candidate and changes no other |
| WasmCandidate.Candidate.Cancel | src/backends/wasm/candidate.cpp:153-159 | cancelling drops a loading or ready candidate and changes no other |
| WasmCandidate.Candidate.Take | src/backends/wasm/candidate.cpp:161-169 | a ready candidate gives its module once; any other is unchanged |
| WasmCandidate.ProvidedAddress | src/backends/wasm/candidate.cpp:41-48 | a provided entry has an address, and only a provided entry has one |
| OfferPoller.Poller.Poll | src/backends/wasm/offer_poller.cpp:123-137 | at most one fetch is under way |
| OfferPoller.Poller.Handle | src/backends/wasm/offer_poller.cpp:33-96 | an offer is accepted exactly when it is valid, of the pinned group and of a greater sequence than the last; the pending candidate is the one the last accepted offer asks for |
| PltSlots.ReadGroups | src/backends/wasm/registration.cpp:51-79 | accepted exactly for valid registrations of distinct groups, and sorted by group |
| PltSlots.RegistrationSound | src/backends/wasm/registration.cpp:51-70 | when a registration is valid |
| PltSlots.ValidateSlots | src/backends/wasm/registration.cpp:81-98 | accepted exactly when every slot names an entry of its group's contract |
| PltSlots.ApplySlots | src/backends/wasm/registration.cpp:40-49 | exactly the group's slots whose entry the module has change, to its addresses |
| WasmSession.SlotsCoherent | src/backends/wasm/session.cpp:160-176 | a group's slots are all null or all the current module's own addresses |
| WasmStart.Open | src/backends/wasm/registration.cpp:51-98 | a session opens exactly for sound registrations of distinct groups whose slots fit them, with one unwatched group for each, in order, and every slot null; so it is coherent from the start |
| WasmSession.Consume | src/backends/wasm/session.cpp:160-192 | a ready candidate becomes the active module and all slots of the group follow; a rejected one changes no slot |
| WasmSession.Session.Update | src/backends/wasm/session.cpp:115-193 | a watched group has an applied event exactly when its candidate is ready and its generation news, a rejected one exactly when its candidate is rejected and news, in the order of the groups and with the number of entries redirected; its module follows, no group is due afterwards, and no other group or slot changes |
| WasmStart.NeverActivated | src/backends/wasm/session.cpp:134-137 | after a generation was reported as rejected, a later offer of the same generation is accepted, its module is ready, and the update neither activates nor reports it |
| WasmStart.AgainOccurs | src/backends/wasm/session.cpp:134-137 | such offers exist: a module that is not found at first and is published again |
| WasmSession.Session.FetchCompleted | src/backends/wasm/offer_poller.cpp:127-136 | a fetch that completes at any time keeps the session coherent |
| WasmSession.Session.LoadCompleted | src/backends/wasm/candidate.cpp:75-133 | a load that completes at any time decides a loading candidate and keeps the session coherent |
| WasmSession.Session.Tick | src/backends/wasm/session.cpp:61-76 | a tick starts a fetch exactly for a watched group without one under way |
| WasmSession.Session.SetWatching | src/backends/wasm/session.cpp:101-113 | watching and unwatching keep the cursor, the candidate and the slots |
| WasmSession.Session.LateCompletion | src/backends/wasm/offer_poller.cpp:82-91 | the completion of a superseded candidate decides that one, and changes nothing the session can see |

## Left out

- Operating-system calls (`mmap`, `mprotect`, `munmap`, directory listing, rename, the file lock, fetching, timers) are steps that succeed or fail as they like, and are counted when they fail; a refused protection change writes nothing, and a table of mappings that is unreadable or incomplete counts as a refusal.
- Addresses from 2^63 up belong to no process; the signed subtraction across the middle of the address space, which is undefined, is not modelled.
- A mapping that an old kernel places elsewhere than asked is modelled as a failed mapping, and a page that cannot be closed again after a write counts as closed.
- `LiveMemory.Memory` covers one thread; the worker's lock makes its passes atomic steps, so no interleaving inside a pass is modelled.
- Session.NativeSession.PrepareObject: takes the image as what an arbitrary linking function makes of the reserved addresses, and `Loader.Load` is the ELF load over the same allocator; they meet in `Handover.RedirectsInImage` and `Handover.SelectedEntriesSpaced`. A redirect beyond its image, which no check of the source stops, is committed like any other, but nothing is claimed of where it leads.
- World.NoDanglingInAnyRun: is for entries at least five bytes apart, which a symbol table without overlapping functions and without unsized ones guarantees, and for targets inside their images, which objects guarantee whose functions lie inside their sections. Commit, rollback and the ownership of code are proved without either.
- CodePages.CodePages.CommitCode: an exception and a refusal are told apart only by the result, and instruction-cache flushing has no counterpart.
- Allocator handles are the set of begins they own; a handle object has no identity of its own.
- The page size is assumed to divide 64 MiB and to be no less than a window.
- ELF and COFF byte parsing, DWARF and unwind registration, and DIA symbols are not part of this model; an object is given parsed, the program's functions are a list, and the process answers for every other symbol.
- Relocations.ApplyRelocations: stops at a store beyond the image, because the loader checks the bounds of deferred fields only and what such a store does is undefined.
- Fields.EncodeDecodes: sums are unbounded before they are narrowed, so signed overflow of the C++ expression, which is undefined, does not appear.
- Linker.LinkGeneration: writes the code as an array, with the writes that the system grants as an input; the bounds and protection of the reservation it stands for are in `CodePages.CodePages.RewriteReservation` and `Session.NativeSession.LinkGeneration`.
- The PE loader and the PE code pages are near copies of the ELF ones and are left out, except for the image layout. The guard page is not claimed for PE, whose slots have none.
- Error texts, line numbers and the classification of messages are left out; the error codes of the parsers are kept.
- `std::quoted` is the escaping of quotes and backslashes, and white space is that of the C locale; other locale matters are left out.
- DescriptorSection.FramingRoundTrip: is for valid descriptors with payloads under 4 GiB of one-byte characters. A cut that leaves only zero bytes reads as padding, so not every truncation is an error.
- GenerationStream.GenerationStream.Poll: what it reads in one pass is one snapshot, and symbolic links appear only as files outside the generation.
- Publisher.Publish: the contents of the members at both readings are inputs, and reading errors end a publication like a crash. That SHA-256 texts of different contents differ is not claimed. Old markers may stop resolving when identical content is published again; only the newest marker is claimed.
- The browser publisher writes one manifest in place of markers; it is left out, like the fetcher, the loader and the timer behind the browser session.
- ManagedSession.Session.Update: the object watches are one transaction, whose preparation is an input. A comment in include/neko/session.hpp:194-195 says that they are skipped after a managed rejection; the code runs them, and so does the model.
- WasmSession.SlotsCoherent: holds for groups with a host contract, which discovery demands of every group; without one an activated module may lack an entry, and its slot would keep an older generation.
- WasmSession.Session.Update: the event for a ready candidate that refuses activation is left out, because a ready candidate never refuses.
- ManagedSession.Session.SetEnabled: enabling a group without a generation root is a configuration error, which is left out with the other configuration exceptions.
- Snapshots, counters as text, diagnostics callbacks, logging, the terminal interface, the command-line tools and the Python tooling are left out.
