# Verified models of Spike and libfdt

This project models parts of the Spike RISC-V simulator, and of the libfdt library bundled with it,
in Dafny, and proves what they are for. `dafny verify dfyconfig.toml` checks all of it.

**Flattened device trees** (`Fdt*.dfy`). A blob holds a reservation block, a structure block and a
strings block. `FdtFormat` encodes tokens as bytes and reads them back, `FdtTree` and `FdtRead`
walk them, `FdtBlob` and `FdtChunk` splice a buffer in place, `FdtEdit`, `FdtRw` and `FdtOps` edit a
node where it stands, and `FdtModel`, `FdtContents` and `FdtWhole` say what that does to the tree
of named nodes and properties that the whole blob encodes. `FdtOverlay` merges one blob into
another; `FdtMerge` and `FdtMergeMeaning` say what a merge is, step by step and to a reader who
looks things up. `FdtSw` and `FdtSwTree` write a blob sequentially and read it back, `FdtPath` and
`FdtPathNames` relate nodes, parents and printed paths. `FdtWip` writes in place and `FdtOutline`
shows that nothing moves then; with these `FdtLocal`, `FdtFixups` and `FdtApply` shift the phandles
of an overlay and its references to them in the blob. `FdtPhandle` and `FdtLive` say what that is in
the tree, `FdtPrepared` what it is good for. `FdtTarget` finds the node a fragment is aimed at, and
`FdtFragments` applies a whole overlay.

**Protection and translation** (`Bits`, `Pmp`, `PmpCsrs`, `Walk`, `Tlb`). Matching of PMP entries at
the level of bits, the state machine of their registers with the Smepmp rules, the page-table walk,
and a TLB that skips both on a hit. The last theorem is that the TLB cannot be observed.

**Debug module** (`Debug*.dfy`). The assembler for abstract commands against the hart that decodes
and executes the words, and the protocol of busy flag, sticky error, data words and program buffer.

**Smaller parts**: coroutines made of threads in every interleaving (`Context`), chains of write-back
caches (`CacheSim`), chunked and sparse memory (`MemIf`), the fast fetch and execute loop against the
plain one (`Execute`), multi-word and saturating arithmetic (`Arith`).

## Conventions

- Code that updates a buffer, fields or local variables in place is a class or a method with loops,
  proved against a function of the old state; the theorems are about these functions. The ghost
  parameters of the device-tree methods say where in the token sequence a node stands.
- Registers and addresses are naturals; every place where the machine wraps or truncates is written
  out. Bits of a word are combined with the functions of `Bits`, except where the fields of a word
  do not overlap and joining them is adding them.
- Errors are results. Contracts say exactly when each occurs.
- Conditions that a theorem needs beyond those of the code are named predicates: `ClearNames` and
  `NoMixUp` for sibling names that cannot be taken for each other, `Clear` for a path, `Apart` for
  fixups that do not overlap, `InOrder` for fixups that are read before they are written to, `Lawful`
  for a hart whose CSRs behave and `FpReady` for one whose floating-point unit can be switched on,
  `Coherent` for an instruction cache that holds what a fetch would give, `Steady` for a run whose
  stores to its own code are followed by a flush, `Lawful` in `Execute` for instructions that return
  a pc or a marker. `RoomsAre` only names the distance from each value to the end of its buffer,
  which every blob has (`FdtFixups.RoomsExist`).
- `Astray` among the errors stands for a read or write that leaves the buffer, and for a target that
  the model does not follow; nothing is said about what comes of it, but when it occurs is exact.

## Where the code does less than one might expect

- `subset_match` reports a partial match for an empty TOR range inside the page
  (`Pmp.EmptyTorRange`); the page is then not cached although no access in it is affected.
- A command error of the debug module turns into another one when the debugger clears some of its
  bits only (`DebugProtocol.ExceptionBecomesNotSupported`).
- The scratch register that holds s0 cannot be written with an abstract command without changing s0
  (`DebugProgram.ScratchTakesS0`).
- A node without unit address in an overlay is merged into a base node with one
  (`FdtMergeMeaning.ShortNameTaken`).
- A reference that the local fixups list twice is shifted twice (`FdtPhandle.ShiftedTimes`).
- Writing in place tests index plus length in 32 bits. An index of 2^32 - 4 or more can pass, and the
  bytes then go outside the value (`FdtWip.RoomTested`, `FdtWip.LastIndexGoesAstray`).
- A word that local fixups list is read before its offset is tested. An offset that is too large for
  the buffer is read there (`FdtLive.AstrayExactly`, `FdtLive.FarOffsetGoesAstray`); nothing goes
  astray exactly when the first word outside its value is still inside the buffer, and so for a whole
  overlay if all listed words are (`FdtPrepared.PreparedStays`).
- Adding a property name while a blob is written tests for room in 32 bits. A name longer than
  everything in front of the strings passes and is copied to in front of the buffer
  (`FdtSw.RoomTested`, `FdtSw.LongNameGoesAstray`).
- Cleaning or invalidating a range that reaches into the last cache line of the address space does
  nothing, since its end is rounded up to 0 (`CacheSim.RangeFlushed`).
- Code that is stored to is executed as it was until the instruction cache is flushed
  (`Execute.StoredCodeDiffers`); the fast loop and the plain loop agree on runs that flush
  (`Execute.Hart.FastRun`).
- Local fixups that list references inside themselves are read after they were changed
  (`FdtLive.SelfFixupsDiffer`). This makes no difference if no fixup node is read after it was
  written to (`FdtLive.LiveReferences`).
- The busy flag drops before the commanded hart has begun if another hart is selected meanwhile
  (`DebugProtocol.EndsBeforeRun`).
- An access to a floating-point register of a hart that has none leaves mstatus with its FS bits as
  they took the write (`DebugProgram.FpuMissingTraps`).

## Model

| member | source | states |
|---|---|---|
| `Pmp.SubsetMatchExact` | riscv-isa-sim/riscv/csrs.cc:161-181 | the test says that an entry matches part of a page exactly when the entry matches some 4-byte address of the page and not another, for TOR, NA4 and NAPOT and every granularity; the one exception is an empty TOR range inside the page |
| `Pmp.EmptyTorRange` | riscv-isa-sim/riscv/csrs.cc:142-181 | an empty or inverted TOR range whose bounds lie in the page is reported as a partial match although it matches nothing |
| `Pmp.TorRegion` | riscv-isa-sim/riscv/csrs.cc:138-157 | a TOR entry matches exactly the addresses between four times the register before it and four times its own, rounded down to the granularity |
| `Pmp.NapotRegion` | riscv-isa-sim/riscv/csrs.cc:147-159 | a NAPOT entry whose register reads as a number that ends in a zero and k ones matches exactly the aligned region of 2^(k+3) bytes that the bits above name, for every granularity |
| `Pmp.Na4Region` | riscv-isa-sim/riscv/csrs.cc:147-159 | an NA4 entry matches exactly its four bytes |
| `Pmp.HomogeneousPageDecides` | riscv-isa-sim/riscv/csrs.cc:138-215 | if no entry matches part of a page, any two accesses inside the page get the same answer, for each access type and mode |
| `Pmp.MatchSectors` | riscv-isa-sim/riscv/mmu.cc:349-357 | the sector loop finds whether any and whether all 4-byte sectors of an access match |
| `Pmp.PmpOk` | riscv-isa-sim/riscv/mmu.cc:343-373 | the entry loop answers what the priority rule says: the first entry that matches any sector must match all of them and decides; without a match the machine-mode default holds |
| `Pmp.Granted` | riscv-isa-sim/riscv/csrs.cc:183-215 | what the first entry that matches grants, by access type, mode and the four bits of its byte: without MML everything to machine mode if unlocked, else R for loads, W for stores, X for fetches; with MML the sixteen rows of the Smepmp table |
| `Pmp.PartRefused` | riscv-isa-sim/riscv/mmu.cc:359-364 | an access that the first entry to match it matches in part is refused |
| `Pmp.UnmatchedGranted` | riscv-isa-sim/riscv/mmu.cc:368-372 | what no entry matches is allowed to machine mode only, unless MMWP is set, or MML is set and it is a fetch; without entries everything is allowed |
| `Pmp.PmpHomogeneous` | riscv-isa-sim/riscv/mmu.cc:375-388 | the loop accepts a page exactly when no entry is a partial match |
| `PmpCsrs.PmpRegs.WritePmpaddr` | riscv-isa-sim/riscv/csrs.cc:109-136 | the register takes the value, cut to the physical address width, exactly when neither it nor a locked TOR entry above it forbids this; everything else stays |
| `PmpCsrs.PmpRegs.WritePmpcfg` | riscv-isa-sim/riscv/csrs.cc:239-279 | each configuration byte of the group is taken, legalised, dropped or left as lock, RLB and MML demand; every other entry stays |
| `PmpCsrs.ByteWritten` | riscv-isa-sim/riscv/csrs.cc:246-272 | entry i0 + k gets bits 8k to 8k + 7 of the value |
| `PmpCsrs.CfgReadsBack` | riscv-isa-sim/riscv/csrs.cc:232-272 | acceptable bytes written to unlocked entries, or with the lock bypassed, are read back unchanged and in their order, and no other entry changes; what is acceptable is stated bit by bit |
| `PmpCsrs.Legalized` | riscv-isa-sim/riscv/csrs.cc:250-259 | what becomes of other bytes: lock, read and execute bit are kept, W goes without R unless MML is set, NA4 turns into NAPOT with a coarser granularity, reserved bits go |
| `PmpCsrs.ExecutableRefused` | riscv-isa-sim/riscv/csrs.cc:260-272 | with MML set and RLB clear, a new rule that machine mode could execute from changes nothing |
| `PmpCsrs.PmpRegs.ReadPmpcfg` | riscv-isa-sim/riscv/csrs.cc:232-237 | the loop that joins the configuration bytes |
| `PmpCsrs.AddrWritten` | riscv-isa-sim/riscv/csrs.cc:109-128 | an address register that is not locked, with no locked TOR rule behind it, takes the low 54 bits of the value; nothing else changes |
| `PmpCsrs.AddrReadsBack` | riscv-isa-sim/riscv/csrs.cc:103-107 | with the finest granularity an address register reads as it was written, in every mode |
| `PmpCsrs.PmpRegs.AnyLocked` | riscv-isa-sim/riscv/csrs.cc:308-310 | some entry is locked |
| `PmpCsrs.PmpRegs.WriteMseccfg` | riscv-isa-sim/riscv/csrs.cc:304-326 | RLB follows the written value unless it is locked to 0; MML and MMWP only get set |
| `PmpCsrs.SecWritten` | riscv-isa-sim/riscv/csrs.cc:302-330 | bit by bit: MML and MMWP are set when they were or are written as one, RLB is as written unless it is clear and some implemented entry is locked, the rest stays |
| `PmpCsrs.LockedRuleFrozen` | riscv-isa-sim/riscv/csrs.cc:109-145 | in every run of register writes a rule locked while RLB is 0 keeps its configuration, address and TOR lower bound, and RLB stays 0 |
| `PmpCsrs.LockedRegionFrozen` | riscv-isa-sim/riscv/csrs.cc:138-159 | in every such run the set of addresses the locked rule matches never changes |
| `PmpCsrs.MmlMmwpSticky` | riscv-isa-sim/riscv/csrs.cc:304-326 | in every run MML and MMWP stay set once set |
| `PmpCsrs.ReachableLegal` | riscv-isa-sim/riscv/csrs.cc:239-279 | every reachable configuration is legal: no reserved bits, no NA4 with a coarser granularity, no write-only rule while MML is 0 |
| `PmpCsrs.LockedDownStays` | riscv-isa-sim/riscv/csrs.cc:259-273 | once MML is set and RLB locked to 0 it stays so in every run |
| `PmpCsrs.RunAddsNoMachineCode` | riscv-isa-sim/riscv/csrs.cc:259-273 | in that state no run turns an entry into a rule that lets machine mode execute |
| `PmpCsrs.NoNewMachineCode` | riscv-isa-sim/riscv/csrs.cc:183-215 | in that state, any machine-mode fetch that a rule allows later is allowed by a rule that let machine mode execute before |
| `Walk.WalkTables` | riscv-isa-sim/riscv/mmu.cc:508-571 | the descending loop over table levels computes the walk as defined level by level, with the updated page table |
| `Walk.LeafStep` | riscv-isa-sim/riscv/mmu.cc:540-570 | alignment, accessed and dirty bits, NAPOT check and the page of a leaf |
| `Walk.WalkAddress` | riscv-isa-sim/riscv/mmu.cc:484-579 | bare mode, the sign-extension check and the walk, with the fault each ends in |
| `Walk.WalkMeans` | riscv-isa-sim/riscv/mmu.cc:484-579 | stated on the bits of the entries and in plain arithmetic, for Sv32, Sv39, Sv48 and Sv57: the walk gives a page if and only if the address is sign-extended and pointers lead from satp to a well-formed leaf that permits the access by type, mode, SUM and MXR; it is then the page that this leaf gives |
| `Walk.WalkMarks` | riscv-isa-sim/riscv/mmu.cc:546-562 | the one entry that a successful walk changes is this leaf: afterwards it is marked accessed, and dirty after a store |
| `Walk.BlockedMeans` | riscv-isa-sim/riscv/mmu.cc:507-579 | a failure is an access fault exactly when an entry on the way cannot be read, or a leaf needs a bit set that may not be stored; else it is a page fault |
| `Walk.WalkSpecGrows` | riscv-isa-sim/riscv/mmu.cc:543-556 | a walk, successful or not, changes the page tables at most by setting accessed and dirty bits of leaves |
| `Walk.WalkSpecStable` | riscv-isa-sim/riscv/mmu.cc:508-571 | a successful walk gives the same page in any page table that differs by such bits |
| `Walk.WalkIdempotent` | riscv-isa-sim/riscv/mmu.cc:484-579 | repeating a successful walk after its update gives the same page and stores nothing, also when other walks came between |
| `Walk.LeafLinear` | riscv-isa-sim/riscv/mmu.cc:558-569 | inside the range of one leaf, physical addresses differ exactly as virtual ones do, for superpages and NAPOT leaves |
| `Walk.SuperpageLinear` | riscv-isa-sim/riscv/mmu.cc:484-579 | a successful walk that ends in a leaf of level i succeeds for every address of the superpage and maps it linearly |
| `Walk.NapotLinear` | riscv-isa-sim/riscv/mmu.cc:561-569 | walks that end in NAPOT leaves of the same range map the 64 KiB range linearly |
| `Walk.WalkSeesPage` | riscv-isa-sim/riscv/mmu.cc:484-579 | the outcome of a walk depends on the page of the address only |
| `Walk.SamePageForAllTypes` | riscv-isa-sim/riscv/mmu.cc:532-539 | walks of different access types that both succeed lead to the same page |
| `Walk.WalkAligned` | riscv-isa-sim/riscv/mmu.cc:565-569 | the result of a walk is page aligned |
| `Tlb.HitAnswers` | riscv-isa-sim/riscv/mmu.cc:192-200 | a hit answers what a fresh translation would, without changing page tables, although three tag arrays share one data array |
| `Tlb.StepAnswers` | riscv-isa-sim/riscv/mmu.cc:192-222 | every access, hit or miss, answers what a fresh translation would |
| `Tlb.StepInv` | riscv-isa-sim/riscv/mmu.cc:311-341 | every access keeps the invariant: a tag that names a page implies that translation of that type succeeds all over the page and agrees with the shared entry |
| `Tlb.FlushedInv` | riscv-isa-sim/riscv/mmu.cc:36-43 | a flush establishes the invariant |
| `Tlb.WriteInv` | riscv-isa-sim/riscv/csrs.cc:109-128 | PMP register writes keep the invariant, whether or not they flush |
| `Tlb.EnvValid` | riscv-isa-sim/riscv/mmu.cc:55-69 | page walk, PMP check and homogeneity test have the properties that the invariant rests on |
| `Tlb.TlbInvisible` | riscv-isa-sim/riscv/mmu.cc:192-278 | in every run of accesses, flushes and PMP register writes, the cached machine gives the same replies and the same page tables as one that translates every access anew |
| `Tlb.Mmu.constructor` | riscv-isa-sim/riscv/mmu.cc:36-43 | a new unit has empty tag arrays and satisfies the invariant |
| `Tlb.Mmu.Flush` | riscv-isa-sim/riscv/mmu.cc:36-43 | no tag names a page any more; data stays |
| `Tlb.Mmu.TranslateAccess` | riscv-isa-sim/riscv/mmu.cc:55-69 | walk, page offset and PMP check as one translation |
| `Tlb.Mmu.RefillTagArray` | riscv-isa-sim/riscv/mmu.cc:321-337 | a tag of another page is dropped; the tag of the access type is set if the page is homogeneous |
| `Tlb.Mmu.RefillTlb` | riscv-isa-sim/riscv/mmu.cc:311-341 | the three tag arrays and the data array after a refill |
| `Tlb.Mmu.Access` | riscv-isa-sim/riscv/mmu.cc:192-278 | an access gives the reply and the page tables of a fresh translation and keeps the invariant |
| `FdtFormat.ReadTag` | riscv-isa-sim/fdt/fdt.c:131-182 | the byte loop computes tag and next offset of a token, or reports a truncated or unknown one |
| `FdtFormat.NextTagReads` | riscv-isa-sim/fdt/fdt.c:131-182 | reading at the offset of a token of an encoded block gives its tag and the offset of the next token |
| `FdtFormat.NameReads` | riscv-isa-sim/fdt/fdt.c:147-154 | the name of a node token lies behind its tag and ends at the first zero byte |
| `FdtFormat.PropReads` | riscv-isa-sim/fdt/fdt.c:156-166 | length, name offset and value of a property token lie where the reader looks |
| `FdtFormat.KnownBytes` | riscv-isa-sim/fdt/fdt.h:36-60 | words and tokens byte by byte |
| `FdtRead.NextNode` | riscv-isa-sim/fdt/fdt.c:202-240 | the next node start after a node, the depth there, or the place where the outermost node ends |
| `FdtRead.FirstSubnode` | riscv-isa-sim/fdt/fdt.c:242-251 | the first child |
| `FdtRead.NextSubnode` | riscv-isa-sim/fdt/fdt.c:253-268 | the next sibling, however many descendants lie between |
| `FdtRead.SubnodeOffset` | riscv-isa-sim/fdt/fdt_ro.c:211-228 | the first child that answers to the name |
| `FdtRead.NodeNameEq` | riscv-isa-sim/fdt/fdt_ro.c:13-32 | the comparison by prefix and next byte holds exactly when the name is the one asked for, or that one, without unit address, followed by one |
| `FdtModel.KidFound` | riscv-isa-sim/fdt/fdt_ro.c:211-234 | byte by byte: the first child whose name is the one asked for, or is that one, if it has no @, followed by @ and anything; none is found exactly when there is no such child |
| `FdtTree.SearchNode` | riscv-isa-sim/fdt/fdt_ro.c:211-228 | walking the tags of a node for a child stops at the first child that matches, or behind the node |
| `FdtTree.SearchAfterKid` | riscv-isa-sim/fdt/fdt.c:253-268 | going on from a child looks at exactly the later children |
| `FdtRead.NodeEndOffset` | riscv-isa-sim/fdt/fdt_wip.c:73-81 | the offset behind the end tag of a node |
| `FdtRead.PropertyOffset` | riscv-isa-sim/fdt/fdt_ro.c:379-406 | the first property of that name of a node, past NOPs |
| `FdtRead.FindInNode` | riscv-isa-sim/fdt/fdt_ro.c:379-406 | in the tree this is the first property of that name of the node |
| `FdtBlob.Blob.SpliceStruct` | riscv-isa-sim/fdt/fdt_rw.c:52-92 | bytes behind the splice point move as one block and the header follows, or there is no space and nothing changes |
| `FdtBlob.SplicedOthers` | riscv-isa-sim/fdt/fdt_rw.c:80-92 | a splice of the structure block keeps reservations, strings and the order of the blocks |
| `FdtBlob.SplicedAfter` | riscv-isa-sim/fdt/fdt_rw.c:80-92 | the bytes behind the spliced range are the same bytes |
| `FdtBlob.DroppedBlocks` | riscv-isa-sim/fdt/fdt_rw.c:94-100 | giving up the last string restores the strings block |
| `FdtRw.FindString` | riscv-isa-sim/fdt/fdt.c:270-280 | a place where the terminated string lies in the strings block, or proof that no offset reads as this string |
| `FdtOps.FindAddString` | riscv-isa-sim/fdt/fdt_rw.c:115-139 | the name is found or added; it resolves, earlier names still resolve, and it fails exactly when there is no room |
| `FdtRw.ResizeWrite` | riscv-isa-sim/fdt/fdt_rw.c:170-186 | a property's value is resized, its length rewritten and data copied in, with all other bytes kept |
| `FdtOps.AddProperty` | riscv-isa-sim/fdt/fdt_rw.c:188-218 | a new first property; on failure a freshly added name is rolled back |
| `FdtOps.WriteProp` | riscv-isa-sim/fdt/fdt_rw.c:243-301 | the first property of the name has the new value, or the value appended, or is new; fails exactly when the growth does not fit |
| `FdtOps.DelProp` | riscv-isa-sim/fdt/fdt_rw.c:303-316 | the first property of the name is gone |
| `FdtOps.AddSubnode` | riscv-isa-sim/fdt/fdt_rw.c:318-357 | a new first child at the returned offset, unless a child answers to the name or there is no space |
| `FdtOps.DelNode` | riscv-isa-sim/fdt/fdt_rw.c:364-376 | exactly the tokens of the node are gone |
| `FdtWhole.SetProp` | riscv-isa-sim/fdt/fdt_rw.c:261-274 | the tree the blob encodes changes by exactly setting this property of this node; on failure, exactly when the bytes do not fit, it is unchanged; layout and reservations stay |
| `FdtWhole.AppendProp` | riscv-isa-sim/fdt/fdt_rw.c:276-301 | the same for appending, also when the lengths together reach 2^31, which does not fit |
| `FdtMergeMeaning.ValueOfAppend` | riscv-isa-sim/fdt/fdt_rw.c:276-301 | the property then reads as the old value followed by the new bytes, or as these alone if it was new; no other property changes |
| `FdtMergeMeaning.ValueOfSet` | riscv-isa-sim/fdt/fdt_rw.c:261-274 | after setting it, the property reads as the new value and no other changes |
| `FdtMergeMeaning.ValueOfDel` | riscv-isa-sim/fdt/fdt_rw.c:303-316 | after deleting it there is none of that name if it was the only one, and no other changes |
| `FdtWhole.DelProp` | riscv-isa-sim/fdt/fdt_rw.c:303-316 | the same for deleting a property, which fails exactly when there is none |
| `FdtWhole.AddSubnode` | riscv-isa-sim/fdt/fdt_rw.c:318-362 | the same for adding a child, with all error cases |
| `FdtWhole.DelNode` | riscv-isa-sim/fdt/fdt_rw.c:364-376 | the same for deleting a node and its descendants |
| `FdtContents.WrittenAbs` | riscv-isa-sim/fdt/fdt_rw.c:170-301 | an edit of name offsets, padding and values in the block is the edit of names and values in the tree |
| `FdtContents.GrownNode` | riscv-isa-sim/fdt/fdt_rw.c:102-139 | adding strings does not change the tree a node stands for |
| `FdtContents.WithoutKidAbs` | riscv-isa-sim/fdt/fdt_rw.c:364-376 | the NOPs behind a deleted node fall to its neighbour without changing the tree |
| `FdtWip.SetPropInPlace` | riscv-isa-sim/fdt/fdt_wip.c:13-31 | writing into a property in place changes these bytes of its value and nothing else in the tree, and moves no node; a missing property, refused room and a write that goes astray are told apart, each exactly when it occurs |
| `FdtWip.RoomTested` | riscv-isa-sim/fdt/fdt_wip.c:13-31 | for all sizes, indices and lengths: the 32-bit test accepts bytes inside the value exactly when index plus length is at most the size, and bytes outside exactly when the sum wraps around to at most the size |
| `FdtWip.LastIndexGoesAstray` | riscv-isa-sim/fdt/fdt_wip.c:26-30 | one word at index 2^32 - 4 passes the test for every value and lies outside all of them |
| `FdtOverlay.ApplyProps` | riscv-isa-sim/fdt/fdt_overlay.c:562-578 | the loop over overlay properties sets each of them, in order, in the target |
| `FdtOverlay.ApplyKid` | riscv-isa-sim/fdt/fdt_overlay.c:580-598 | one overlay child is merged into the child that answers to its name or into a new one |
| `FdtOverlay.ApplyKids` | riscv-isa-sim/fdt/fdt_overlay.c:580-598 | the loop over overlay children merges each of them |
| `FdtOverlay.ApplyNode` | riscv-isa-sim/fdt/fdt_overlay.c:556-601 | success leaves the base encoding exactly the recursive merge at the target, whose offset survives every splice in its own subtree; failure is lack of space only |
| `FdtOverlay.ApplyAt` | riscv-isa-sim/fdt/fdt_overlay.c:556-601 | in the whole base tree only the target node changes, also when space runs out half-way |
| `FdtMergeMeaning.NodeOfMerge` | riscv-isa-sim/fdt/fdt_overlay.c:556-601 | at every path the merge holds the merge of what the two trees hold there; what the overlay does not mention is unchanged down to its last descendant |
| `FdtMergeMeaning.LookupOfMerge` | riscv-isa-sim/fdt/fdt_overlay.c:556-601 | a property looked up by path is the overlay's if it has one, else the base's |
| `FdtMergeMeaning.ShortNameTaken` | riscv-isa-sim/fdt/fdt_overlay.c:585-598 | without unambiguous names this fails: an overlay child without unit address is merged into a base child with one |
| `FdtMergeMeaning.WhereChildGoes` | riscv-isa-sim/fdt/fdt_overlay.c:585-598 | for any names: under which name the merged child is found, and what every other name leads to |
| `FdtMergeMeaning.GoesInto` | riscv-isa-sim/fdt/fdt_overlay.c:585-598 | byte by byte: into which child of the base an overlay child is merged, and that a new one of exactly its name is put in front if there is none |
| `FdtPhandle.MaxBounds` | riscv-isa-sim/fdt/fdt_ro.c:103-129 | no node has a larger phandle than the maximum |
| `FdtPhandle.AdjustMeans` | riscv-isa-sim/fdt/fdt_overlay.c:116-199 | phandles of every node are shifted, everything else stays |
| `FdtPhandle.NoCollision` | riscv-isa-sim/fdt/fdt_overlay.c:116-199 | after shifting by the base's maximum no overlay phandle is a base phandle |
| `FdtPhandle.StayDistinct` | riscv-isa-sim/fdt/fdt_overlay.c:116-199 | different phandles stay different |
| `FdtPhandle.ShiftedTimes` | riscv-isa-sim/fdt/fdt_overlay.c:253-281 | a word of a property is shifted as often as it is listed |
| `FdtPhandle.FixMeans` | riscv-isa-sim/fdt/fdt_overlay.c:220-305 | every property of every node has exactly its listed words shifted |
| `FdtPhandle.ReferenceKept` | riscv-isa-sim/fdt/fdt_overlay.c:220-342 | a reference listed once names the same node before and after |
| `FdtOutline.StillLies` | riscv-isa-sim/fdt/fdt_wip.c:13-31 | in a blob that differs in property bytes only, every node lies at the offset it had |
| `FdtWip.WriteInPlace` | riscv-isa-sim/fdt/fdt_wip.c:13-31 | the first property of the name has these bytes overwritten; with a missing property or refused room nothing changes, and when the write goes astray nothing is promised |
| `FdtLocal.AddOffset` | riscv-isa-sim/fdt/fdt_overlay.c:116-139 | the phandle in a property is shifted, or the error: missing, not one word, or beyond the largest phandle |
| `FdtLocal.AdjustKids` | riscv-isa-sim/fdt/fdt_overlay.c:170-174 | the loop over children shifts each of them and stops at the first error |
| `FdtLocal.AdjustNode` | riscv-isa-sim/fdt/fdt_overlay.c:156-177 | walking the blob and writing in place gives exactly the shifted tree, or the error of the first node that cannot be shifted |
| `FdtFixups.ShiftListed` | riscv-isa-sim/fdt/fdt_overlay.c:253-281 | the loop over listed offsets shifts each of these words in place, one after the other, up to the first one outside the value, which is an error or, exactly when it is also outside the buffer, goes astray |
| `FdtFixups.RoomsOn` | riscv-isa-sim/fdt/fdt_overlay.c:267-276 | shifting in place changes neither where a value lies nor how far it is from there to the end of the buffer |
| `FdtFixups.RoomsExist` | riscv-isa-sim/fdt/fdt_overlay.c:245-265 | in every blob each property has such a distance, and its value is no longer than that |
| `FdtFixups.FixProps` | riscv-isa-sim/fdt/fdt_overlay.c:229-282 | the loop over the properties of a fixup node, while tree and fixups lie in the same buffer: exactly the tree function, or its error |
| `FdtFixups.FixKids` | riscv-isa-sim/fdt/fdt_overlay.c:284-302 | the loop over the children of a fixup node, each read when its turn comes |
| `FdtFixups.FixNode` | riscv-isa-sim/fdt/fdt_overlay.c:220-305 | walking the blob and writing in place does exactly the visits that the names prescribe, each with the fixups as they read when its turn comes, whatever they are about |
| `FdtLive.LiveReferences` | riscv-isa-sim/fdt/fdt_overlay.c:220-342 | as long as no fixup node is read after it was written to, the pass succeeds exactly when what the fixups say at the start can be done, and then does that |
| `FdtLive.AstrayExactly` | riscv-isa-sim/fdt/fdt_overlay.c:253-281 | for all sizes of values and buffers and all lists of offsets: the words are read, tested and written in this order, and a read or write leaves the buffer exactly when the first listed word outside the value lies outside the buffer too |
| `FdtLive.FarOffsetGoesAstray` | riscv-isa-sim/fdt/fdt_overlay.c:265-276 | an offset of 1 GiB in any smaller buffer: the test would refuse it, but the word has been read by then |
| `FdtLive.LiveStays` | riscv-isa-sim/fdt/fdt_overlay.c:220-305 | if every word that the fixups list at the start lies inside the buffer, the whole pass stays inside it |
| `FdtLive.AsideInOrder` | riscv-isa-sim/fdt/fdt_overlay.c:284-302 | this is so for fixups that are about other nodes only |
| `FdtLive.SelfFixupsDiffer` | riscv-isa-sim/fdt/fdt_overlay.c:220-342 | an overlay whose fixups list a reference inside themselves, in front of the fixup it changes: another word is shifted than the one listed |
| `FdtApply.GetPhandle` | riscv-isa-sim/fdt/fdt_ro.c:487-502 | the phandle of a node, from either property |
| `FdtApply.FindMaxPhandle` | riscv-isa-sim/fdt/fdt_ro.c:103-129 | the walk over all nodes finds the largest phandle of the tree |
| `FdtApply.UpdateLocalReferences` | riscv-isa-sim/fdt/fdt_overlay.c:324-342 | the references of the whole overlay, also when the fixups are about themselves; nothing happens without local fixups |
| `FdtApply.Prepare` | riscv-isa-sim/fdt/fdt_overlay.c:829-847 | the passes of applying an overlay up to its local references: base unchanged, overlay shifted in place, or the error, for every overlay |
| `FdtPrepared.PreparedApart` | riscv-isa-sim/fdt/fdt_overlay.c:829-847 | no phandle of the prepared overlay is a phandle of the base |
| `FdtPrepared.PreparedDistinct` | riscv-isa-sim/fdt/fdt_overlay.c:829-847 | nodes with different phandles still have different phandles |
| `FdtPrepared.PreparedReference` | riscv-isa-sim/fdt/fdt_overlay.c:829-847 | every reference listed once in the local fixups names the same node of the overlay as before |
| `FdtPrepared.PreparedStays` | riscv-isa-sim/fdt/fdt_overlay.c:829-847 | if every word that the local fixups list lies inside the overlay's buffer, preparing the overlay reads and writes nowhere else |
| `FdtTarget.FindByPhandle` | riscv-isa-sim/fdt/fdt_ro.c:657-680 | the first node, in the order of the block, with a phandle, or that there is none |
| `FdtTarget.FindByPath` | riscv-isa-sim/fdt/fdt_ro.c:236-284 | the node of the tree that an absolute path leads to |
| `FdtTarget.GetTarget` | riscv-isa-sim/fdt/fdt_overlay.c:28-100 | the node of the base at which a fragment is aimed, by phandle or by path, or exactly why there is none |
| `FdtFragments.MergeFragment` | riscv-isa-sim/fdt/fdt_overlay.c:622-645 | one fragment: nothing without an overlay node, else its merge at the target, or the reason why not; the base is then unchanged, or changed at the target only when space ran out |
| `FdtFragments.MergeAll` | riscv-isa-sim/fdt/fdt_overlay.c:618-648 | the base goes through one tree per fragment, each target found in the tree as it is then; on an error it has the last of these trees, or that tree changed at the next target only when space ran out |
| `FdtFragments.ApplyOverlay` | riscv-isa-sim/fdt/fdt_overlay.c:829-881 | a whole overlay without external fixups and symbols: prepared, then every fragment merged where it is aimed, and nothing else changed; or the error, with the tree that the fragments before it made, changed at one target only when space ran out |
| `FdtFragments.KnownNames` | riscv-isa-sim/fdt/fdt_overlay.c:28-100 | the names of nodes and properties that have a meaning |
| `FdtPath.SupernodeAtDepth` | riscv-isa-sim/fdt/fdt_ro.c:573-607 | the ancestor at a depth and the depth of the node, found by walking all nodes |
| `FdtPath.ParentInTree` | riscv-isa-sim/fdt/fdt_ro.c:620-628 | the parent of the node at a path is the node one step up; the root has none |
| `FdtPath.ChildrenByParent` | riscv-isa-sim/fdt/fdt_ro.c:620-628 | the nodes whose parent is a given node are exactly its children |
| `FdtPath.Children` | riscv-isa-sim/fdt/fdt.c:242-268 | first and next subnode enumerate all children in order |
| `FdtPath.ChildrenAreThoseBelow` | riscv-isa-sim/fdt/fdt_ro.c:620-628 | for every node of the tree: it is among the enumerated children of a node if and only if asking for its parent gives that node |
| `FdtPathNames.GetPath` | riscv-isa-sim/fdt/fdt_ro.c:521-571 | the printed path is the path of the node; it fails exactly when the path does not fit, whatever longer names were met on the way |
| `FdtPathNames.PathOffset` | riscv-isa-sim/fdt/fdt_ro.c:236-284 | the node that the components of a path lead to, taking the first child that answers at each level |
| `FdtPathNames.KnownPath` | riscv-isa-sim/fdt/fdt_ro.c:236-284 | slashes stand between components, one or more, also at the ends |
| `FdtPathNames.PathAndBack` | riscv-isa-sim/fdt/fdt_ro.c:521-571 | the path printed for a node leads back to it exactly when no earlier sibling on the way answers to a name on the path |
| `FdtPathNames.UnambiguousClear` | riscv-isa-sim/fdt/fdt_ro.c:211-284 | with sibling names of which none answers to another, every node is found under the path printed for it |
| `FdtSw.Create` | riscv-isa-sim/fdt/fdt_sw.c:105-142 | a blob is started, or the buffer is too small or a flag unknown |
| `FdtSw.Writer.AddReserve` | riscv-isa-sim/fdt/fdt_sw.c:180-198 | one more reservation, with its error cases |
| `FdtSw.Writer.FinishReserve` | riscv-isa-sim/fdt/fdt_sw.c:200-209 | reservations end with an empty one and writing nodes can begin |
| `FdtSw.Writer.BeginNode` | riscv-isa-sim/fdt/fdt_sw.c:211-226 | what has been written is the earlier calls and this one, or nothing changed |
| `FdtSw.Writer.EndNode` | riscv-isa-sim/fdt/fdt_sw.c:228-240 | the same for closing a node |
| `FdtSw.Writer.FindAddString` | riscv-isa-sim/fdt/fdt_sw.c:242-283 | the word that counts back to the name from the end of the strings, earlier names still resolving; no room, or a copy in front of the buffer, each exactly when it occurs |
| `FdtSw.RoomTested` | riscv-isa-sim/fdt/fdt_sw.c:249-252 | for all sizes and names below 2^31: the 32-bit test lets a name pass exactly when it fits or when it is longer than everything from the start of the buffer to the strings |
| `FdtSw.LongNameGoesAstray` | riscv-isa-sim/fdt/fdt_sw.c:242-256 | in a buffer of any size, a first property whose name is at least as long as the buffer passes the test and is copied to in front of the buffer |
| `FdtSw.Writer.AddProperty` | riscv-isa-sim/fdt/fdt_sw.c:285-327 | the same for a property; a name added in vain is given up again; the name goes astray exactly when it has to be added and is longer than everything in front of the strings |
| `FdtSw.Writer.FixNames` | riscv-isa-sim/fdt/fdt_sw.c:351-364 | the walk makes every name offset count from the start and changes nothing else |
| `FdtSw.Writer.Complete` | riscv-isa-sim/fdt/fdt_sw.c:329-376 | the finished blob holds exactly the calls, in order, with every name resolving to what was written |
| `FdtSw.FixedShows` | riscv-isa-sim/fdt/fdt_sw.c:351-364 | turning negative name offsets positive preserves every name |
| `FdtSw.ReadBack` | riscv-isa-sim/fdt/fdt.c:131-182 | walking a finished blob tag by tag returns exactly the calls that wrote it |
| `FdtSwTree.WrittenTree` | riscv-isa-sim/fdt/fdt_sw.c:211-376 | calls that write a tree leave a blob that encodes this tree |
| `DebugIsa.DecodesMemory` | riscv-isa-sim/riscv/opcodes.h:33-89 | assembled loads and stores decode to what was assembled |
| `DebugIsa.DecodesCsr` | riscv-isa-sim/riscv/opcodes.h:109-131 | the same for CSR accesses |
| `DebugIsa.DecodesJump` | riscv-isa-sim/riscv/opcodes.h:16-24 | the same for the jump to the program buffer |
| `DebugIsa.KnownWords` | riscv-isa-sim/riscv/opcodes.h:16-131 | the words as every RISC-V assembler writes them |
| `DebugProgram.CodeFits` | riscv-isa-sim/riscv/debug_module.h:141-150 | every command fits in the 12-word buffer |
| `DebugProgram.TransferDoes` | riscv-isa-sim/riscv/debug_module.cc:660-799 | executing the words of a supported transfer moves the register and ends in the state described by the transfer |
| `DebugProgram.TransferKeeps` | riscv-isa-sim/riscv/debug_module.cc:660-799 | every other register and mstatus survive, a read fills the data words, a write leaves them alone |
| `DebugProgram.CommandRuns` | riscv-isa-sim/riscv/debug_module.cc:648-813 | a buffer that starts with a command's words performs it, then returns or goes on at the program buffer |
| `DebugProgram.MissingCsrTraps` | riscv-isa-sim/riscv/debug_module.cc:674-709 | an access to a missing CSR traps with s0 where the debug ROM restores it from and everything else intact |
| `DebugProgram.FpuMissingTraps` | riscv-isa-sim/riscv/debug_module.cc:660-673 | on a hart without floating-point unit an access to its registers traps with s0 where the debug ROM restores it from; mstatus keeps the value it took when its FS bits were set, everything else is intact |
| `DebugProgram.ScratchTakesS0` | riscv-isa-sim/riscv/debug_module.cc:674-709 | writing the scratch register itself loses s0 unless the two agree |
| `DebugProtocol.BusyFreezes` | riscv-isa-sim/riscv/debug_module.cc:384-412 | while a command runs no debugger access changes data words, program buffer, code or progress |
| `DebugProtocol.OnlyHartsWhileBusy` | riscv-isa-sim/riscv/debug_module.cc:820-851 | in every run during which a command stays busy the code stays and data words and program buffer are what harts made of them |
| `DebugProtocol.ErrorBlocks` | riscv-isa-sim/riscv/debug_module.cc:635-646 | a pending error changes only by the bits cleared, and no command starts |
| `DebugProtocol.ErrorSticks` | riscv-isa-sim/riscv/debug_module.cc:635-646 | the same over whole runs |
| `DebugProtocol.ErrorReplaced` | riscv-isa-sim/riscv/debug_module.cc:925-927 | an error becomes another one exactly when the debugger clears some of its bits but not all |
| `DebugProtocol.ExceptionBecomesNotSupported` | riscv-isa-sim/riscv/debug_module.cc:925-927 | a run where this happens |
| `DebugProtocol.CommandPerformed` | riscv-isa-sim/riscv/debug_module.cc:905-907 | writing the command register makes the hart that executes the buffer perform exactly that command |
| `DebugProtocol.CommandEnds` | riscv-isa-sim/riscv/debug_module.cc:601-608 | after the hart's reports and the delay the command is over with its data in place |
| `DebugProtocol.RegisterRead` | riscv-isa-sim/riscv/debug_module.cc:635-813 | from the debugger's command through the hart that executes the buffer, its stores and reports, to the data words: they hold the value of the register |
| `DebugProtocol.RegisterWritten` | riscv-isa-sim/riscv/debug_module.cc:635-813 | the same for writing: the hart then has the value of the data words, which are still there |
| `DebugProtocol.FieldsLie` | riscv-isa-sim/riscv/debug_module.cc:648-659 | the fields of a command given as a number |
| `DebugProtocol.DebuggerReads` | riscv-isa-sim/riscv/debug_module.cc:384-813 | for commands as numbers: 0x220000 or 0x320000 plus a register number, performed by the hart, leaves abstractcs idle without error and the data registers reading as the value of that register |
| `DebugProtocol.DebuggerWrites` | riscv-isa-sim/riscv/debug_module.cc:384-813 | 0x230000 or 0x330000 plus a register number gives that register the value of the data registers, sign-extended or boxed for 32 bits |
| `DebugProtocol.EndsAfterRun` | riscv-isa-sim/riscv/debug_module.cc:202-230 | while the commanded hart stays selected, a command ends only after this hart has reported that it goes and, later, that it halted again |
| `DebugProtocol.EndsBeforeRun` | riscv-isa-sim/riscv/debug_module.cc:202-230 | otherwise it can end earlier: another hart is selected and reports that it is halted |
| `DebugModule.Module.PerformAbstractCommand` | riscv-isa-sim/riscv/debug_module.cc:635-818 | the method does what the state machine says, word by word |
| `DebugModule.Module.EmitTransfer` | riscv-isa-sim/riscv/debug_module.cc:660-799 | the words written one by one are the code of the transfer, or what is left of an unsupported one |
| `DebugModule.Module.Read` | riscv-isa-sim/riscv/debug_module.cc:384-412 | a debugger read: value and effect |
| `DebugProtocol.WordReadsBack` | riscv-isa-sim/riscv/debug_module.cc:384-412 | a data word or program buffer word written while no command runs reads back, and nothing else that can be read changes |
| `DebugProtocol.BusyWordLost` | riscv-isa-sim/riscv/debug_module.cc:820-851 | while a command runs such a write is lost and the words read as all ones; for data words this is an error |
| `DebugProtocol.AutoReadsBack` | riscv-isa-sim/riscv/debug_module.cc:929-934 | what is written to abstractauto reads back, but for the bits it does not have |
| `DebugProtocol.AutoExecutes` | riscv-isa-sim/riscv/debug_module.cc:396-402 | with bit i of abstractauto set, reading data word i performs the command again; without it nothing happens |
| `DebugProtocol.HartSelected` | riscv-isa-sim/riscv/debug_module.cc:855-873 | the hart whose number is split over the two fields of dmcontrol, or else the last |
| `DebugProtocol.ErrorCleared` | riscv-isa-sim/riscv/debug_module.cc:925-927 | ones over the error field clear the error |
| `DebugModule.Module.Write` | riscv-isa-sim/riscv/debug_module.cc:820-934 | a debugger write |
| `DebugModule.Module.HartStores` | riscv-isa-sim/riscv/debug_module.cc:166-250 | a hart's store |
| `DebugModule.Module.RunTestIdle` | riscv-isa-sim/riscv/debug_module.cc:601-608 | an idle cycle |
| `Context.StepInv` | riscv-isa-sim/fesvr/context.cc:32-115 | every step of every thread keeps the invariant on flags, mutexes, control and pending signals, although flags are raised without the mutex and testing a flag and entering the wait are two steps |
| `Context.SignalExcludes` | riscv-isa-sim/fesvr/context.cc:91-97 | what the mutex is for: nobody signals a context that has tested its flag and not yet entered the wait |
| `Context.FlagRaisedBeforeWait` | riscv-isa-sim/fesvr/context.cc:89-97 | the race does occur: a run in which a flag is raised between the test and the wait |
| `Context.OneRuns` | riscv-isa-sim/fesvr/context.cc:32-115 | in no interleaving do two contexts execute user code at once |
| `Context.SomebodyGoesOn` | riscv-isa-sim/fesvr/context.cc:81-98 | whoever has control can go on, or the thread it waits for can: no wake-up is lost |
| `Context.NeverStuck` | riscv-isa-sim/fesvr/context.cc:32-115 | no interleaving reaches a state in which every context is blocked |
| `Context.WhoRuns` | riscv-isa-sim/fesvr/context.cc:32-115 | in every interleaving only the context that was switched to last is in user code, at first the main one |
| `Context.SwitchArrives` | riscv-isa-sim/fesvr/context.cc:81-98 | after a switch from i nobody but its target is in user code until somebody switches again, and i is not until somebody switches to it |
| `Context.EveryScheduleArrives` | riscv-isa-sim/fesvr/context.cc:81-98 | however the threads are scheduled, they can take a bounded number of steps on their own, and when none is left the context that control was sent to is in user code |
| `Context.SwitchSucceeds` | riscv-isa-sim/fesvr/context.cc:81-98 | there is such a schedule after every switch: it ends with the target in user code |
| `Context.InitSucceeds` | riscv-isa-sim/fesvr/context.cc:43-74 | starting a context gives control back to its creator under every schedule, and it can then be switched to |
| `Context.SpuriousGoesBack` | riscv-isa-sim/fesvr/context.cc:93-97 | a wait that returns for no reason is entered again and nothing has changed |
| `CacheSim.AccessGood` | riscv-isa-sim/riscv/cachesim.cc:121-157 | an access keeps lines in their sets, each at most once, and every dirtied line accounted for |
| `CacheSim.FlushAllGood` | riscv-isa-sim/riscv/cachesim.cc:159-182 | so does cleaning and invalidating a range |
| `CacheSim.AccessCounts` | riscv-isa-sim/riscv/cachesim.cc:121-157 | one read request per miss, one write request per write-back |
| `CacheSim.AccessMeans` | riscv-isa-sim/riscv/cachesim.cc:121-157 | line by line: the line accessed is there, dirty if it was or is stored to; on a miss at most one line is written back, to its own address, and the line read from its own; a dirty line stays dirty unless it is the one written back; no other line comes or becomes dirty |
| `CacheSim.AccessCounted` | riscv-isa-sim/riscv/cachesim.cc:121-141 | misses and bytes are counted as what they were |
| `CacheSim.FlushAllMeans` | riscv-isa-sim/riscv/cachesim.cc:159-182 | after cleaning or invalidating a range its lines are clean or gone and all others as they were |
| `CacheSim.SetOfLine` | riscv-isa-sim/riscv/cachesim.cc:100-119 | lines lie in the set that the lowest bits of their number name |
| `CacheSim.RunKeeps` | riscv-isa-sim/riscv/cachesim.cc:100-182 | in every run through a chain of caches of any shapes this holds at every level, and each level reads as often as the one above misses and is written as often as it writes back |
| `CacheSim.HappenGood` | riscv-isa-sim/riscv/cachesim.cc:159-182 | with cleaning and invalidating mixed in, placement and accounting still hold |
| `CacheSim.RunGood` | riscv-isa-sim/riscv/cachesim.cc:100-182 | the same over every run of accesses, cleanings and invalidations |
| `CacheSim.Simulator.CheckTag` | riscv-isa-sim/riscv/cachesim.cc:100-110 | the loop finds the entry of a line or that there is none |
| `CacheSim.Simulator.Victimize` | riscv-isa-sim/riscv/cachesim.cc:112-119 | an entry of the set is replaced and returned |
| `CacheSim.Simulator.Access` | riscv-isa-sim/riscv/cachesim.cc:121-157 | tags, counters and requests to the next level after an access |
| `CacheSim.Simulator.CleanInvalidate` | riscv-isa-sim/riscv/cachesim.cc:159-182 | tags and counters after cleaning and invalidating a range whose end is rounded up in 64 bits |
| `CacheSim.RangeFlushed` | riscv-isa-sim/riscv/cachesim.cc:159-179 | exactly the ranges that are empty, or whose end rounded up to a line is still a 64-bit address, have all their lines flushed; of any other range none is |
| `MemIf.ReadBytes` | riscv-isa-sim/fesvr/memif.cc:9-40 | any range reads as in a flat array, with aligned whole-chunk requests only |
| `MemIf.WriteBytes` | riscv-isa-sim/fesvr/memif.cc:42-84 | any range is written as in a flat array and every other byte stays, with aligned whole-chunk requests only |
| `MemIf.SparseMemory.Store` | riscv-isa-sim/riscv/devices.cc:73-105 | stores behave as on a flat zero-initialised array, or are refused when out of range, also by wrap-around |
| `MemIf.SparseMemory.Load` | riscv-isa-sim/riscv/devices.cc:73-105 | loads too, and allocating pages changes nothing that can be read |
| `Execute.PlainBounded` | riscv-isa-sim/riscv/execute.cc:225-288 | at most n instructions retire; on a trap exactly those before the faulting one |
| `Execute.MarkersEnd` | riscv-isa-sim/riscv/execute.cc:236-248 | an instruction that returns the marker 3 or 5 ends the loop with pc unchanged, unretired and serialised with 3, retired with 5; an even pc is where it goes on |
| `Execute.Hart.FastLoop` | riscv-isa-sim/riscv/execute.cc:289-305 | on any machine, also one that stores to its code: the fast loop ends as the loop that looks up every instruction in the cache does, with the same cache; links are never noticed |
| `Execute.Hart.FastRun` | riscv-isa-sim/riscv/execute.cc:289-305 | on a steady run it ends with the state, pc, count and reason of the plain loop, and the cache is coherent again |
| `Execute.ThroughIsPlain` | riscv-isa-sim/riscv/mmu.h:324-336 | a run through a coherent cache is the plain run if it stays inside the code and every instruction of it that changes the code flushes; stores to other memory are free |
| `Execute.FixedCodeSteady` | riscv-isa-sim/riscv/mmu.h:324-336 | on a machine that never changes what can be fetched every run is steady |
| `Execute.StoredCodeDiffers` | riscv-isa-sim/riscv/mmu.h:324-330 | a store to the next instruction without a flush: the old instruction is executed again, where the plain loop executes the new one |
| `Execute.StaleEntryTells` | riscv-isa-sim/riscv/mmu.h:324-330 | whenever a cached entry does not hold what a fetch gives, there are instructions with which the two loops differ |
| `Execute.Hart.FollowLinks` | riscv-isa-sim/riscv/execute.cc:292-302 | the inner loop along cache links executes the instructions that the cache holds for each pc, on any machine |
| `Arith.Mulhu` | riscv-isa-sim/riscv/arith.h:12-30 | the exact upper half of the unsigned product |
| `Arith.Mulh` | riscv-isa-sim/riscv/arith.h:32-37 | of the signed product |
| `Arith.Mulhsu` | riscv-isa-sim/riscv/arith.h:39-44 | of the mixed product |
| `Arith.SatAdd` | riscv-isa-sim/riscv/arith.h:47-66 | the clamped sum, flagged exactly when it is out of range |
| `Arith.SatAdd3` | riscv-isa-sim/riscv/arith.h:68-87 | the clamp of the exact sum of three, whatever signs and order, flagged exactly when it is out of range |
| `Arith.SatSub` | riscv-isa-sim/riscv/arith.h:89-108 | the clamped difference |

## Left out

- Two-stage (hypervisor) address translation, `MPRV`, triggers and memory tracers: they add cases, not another kind of proof.
- The bytes that loads and stores move: a TLB reply is the host address, the device access or the fault.
- Page tables in device memory: a page-table entry outside main memory is an access fault. Entries are records of their fields; `Sv64` is left out since no `satp` write selects it.
- CSR classes other than the PMP ones.
- Malformed blobs: the device-tree theorems are about blobs that encode a tree, with sizes below 2^31. Header fields are kept as fields of an object, not as bytes of the buffer.
- Device-tree formats before version 16, aliases, `fdt_open_into`, `fdt_pack`, `fdt_resize`, the NOP operations, symbol updates and external fixups of overlays.
- FdtFragments.ApplyOverlay: external fixups and symbols of overlays are not modelled, so the overlay has none of them; erasing the magic numbers is left out.
- FdtTarget.GetTarget: a target path that starts with an alias, or is not terminated, is answered with `Astray`, about which nothing is said.
- FdtFixups.FixNode: when a read or write goes astray nothing is said about any memory.
- FdtOps.WriteProp: lengths are below 2^31, the range of their type. Where a size computed from them reaches 2^31 the code answers with a bad offset and the model with no space; both change nothing.
- FdtSw.Writer.BeginNode: names of 2^31 bytes or more, which do not fit in the type of their length, are left out.
- FdtSw.Writer.AddProperty: the same; when the name goes astray nothing is said about the blob.
- FdtFormat.ReadTag: a truncated token and an unknown tag are one outcome.
- FdtPathNames.PathOffset: paths that start with an alias are not modelled.
- FdtMergeMeaning.LookupOfMerge: needs sibling names of which none can be taken for another; `FdtOverlay.ApplyNode` does not.
- FdtSw.Writer.Complete: writing into a property's space after `fdt_property_placeholder` returned is modelled as one call with the value.
- DebugProtocol.OnlyHartsWhileBusy: authentication, system bus access, halt groups, the hart array mask and resume requests are not part of the module's state.
- DebugProgram.TransferDoes: CSRs are whatever an environment makes of reads and writes, under laws for mstatus and the scratch registers.
- DebugModule.Module.Write: authentication, the hart array mask and resume requests are not part of the module's state.
- DebugModule.Module.HartStores: stores are whole words; halt groups and resume acknowledgements are left out.
- Walk.WalkTables: a page table outside main memory is an access fault, and there is one stage of translation only.
- Walk.WalkAddress: the same.
- Context.NeverStuck: coroutine functions that return, and more than one initial thread, are not modelled.
- CacheSim.RunKeeps: the pseudo-random generator is an arbitrary function, and calls into the next level are a list of requests that it then serves; the fully associative cache is left out.
- Execute.Hart.FastLoop: fetching has no effect of its own on the hart; the outer loop with interrupts and the bookkeeping of traps, and the tracer that keeps an entry from being tagged, are left out.
- Perceptron and branch predictors, disassembler, ISA strings, ELF loading, host interface, terminal, process handling, scripts and benchmarks.
