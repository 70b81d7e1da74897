# Ballistic, verified

A Dafny 4.11 model of the algorithms at the heart of the Ballistic JIT engine and of the LuaJIT 2.1 tree it carries,
with proofs about every input, every run and every interleaving. `dafny verify dfyconfig.toml` checks all of it.

What the source changes in place is a class or an array here, with a loop where the source has one; each such method is
proved against a specification, and the lemmas say what the specification means.

- **DynASM for x86** (`Dasm*.dfy`). `DasmActions` reads the action list. `DasmLabels` holds the invariant of pass 1 on
  section buffers and label chains, `DasmGrow` shows that every action keeps it. `DasmLayout` says what pass 2 decides
  and where every action ends up, `DasmBytes` what bytes that means and how a processor reads a branch. `DasmX86.Dasm`
  runs the three passes over the buffers, `DasmEmit` writes the bytes, and `DasmRead` reads them back.
- **The allocator** (`Alloc*.dfy`). `AllocState.MallocState` works on a flat memory of words: chunk heads, foots, list
  links and tree links are words at addresses, and so is what users write. `AllocTiles` and `AllocPlaces` hold the
  invariant on the tiling of the segment and on the places of free chunks, `AllocTrie`, `AllocRing(s)`, `AllocPrune`,
  `AllocLink` and `AllocUnlink` that of the tree bins, `AllocSmall` that of the small bins, `AllocIndex` the arithmetic
  of the bin index.
- **The register allocator** (`RegMachine`, `RegAlloc`). Code is emitted backwards, so every step is a statement about
  what the code that follows relies on. A step is right if running what it emits leads from what holds before to that.
- **The Lua pattern matcher** (`Lua*.dfy`). `LuaPattern` lists all ways to match in the order of trial, errors and the
  depth limit included; `LuaMatch.MatchState` is the matcher; `LuaRelation` says without order and depth which strings
  a pattern matches. `LuaSets` says what sets and balanced text mean, `LuaSyntax` how patterns are written from pieces,
  `LuaMeaning` what the pieces mean, `LuaCorrect` that well-formed patterns raise no error, and `LuaChoice` which
  instance is taken. `LuaSearch` has the search loop and `gsub`, `LuaReplace` says what they make of a subject.
  `LuaSort` is the quicksort of `table.sort`.
- **A64 logical immediates** (`A64Imm`, `A64Encode`, `A64Correct`). The bit tricks of the encoder on 64-bit vectors
  against the decoder of the architecture, DecodeBitMasks in section J1.1 of DDI 0487.
- **The engine** (`BlockCache`, `Engine`). The set-associative cache as a class, and the run loop as a state machine
  whose steps interleave with stores of other threads in any way. A request to clear the cache that arrives between the
  clearing and the store of `false` is overwritten (`src/bal_engine.c:305-325`); nothing is cached at that point, so the
  promise to the caller holds all the same.
- **The debug map and the A64 assembler** (`JitDebug`, `A64Assembler`).

Undefined behaviour, I/O and other code enter as parameters: the memory handed to the allocator, the comparison of a
sort as a function of the call number and the elements (so that it may answer differently each time, or raise an error),
the replacement of `gsub`, and the guest and the translator of the engine.

## Findings

Properties that the code does not have, each with an input and with the exact condition.

- `dasm_imm13` (`extern/LuaJIT-2.1/dynasm/dasm_arm64.h:206`) accepts some words that have no encoding, and answers with
  the encoding of another word. An answer is right if and only if the run of ones ends within its period
  (`A64Correct.AnswerExactly`, condition `InPeriod`). `A64Correct.Straddling`: 0xFFF000FFFFF00000 gives 787. With two
  equal halves every answer is right (`A64Correct.TwinsExactly`).
- `compute_tree_index` (`extern/LuaJIT-2.1/src/lj_alloc.c:616`) casts to 32 bits. From 2^40 on the bin is right if and
  only if bits 8 to 39 of the size, as a number, are at least 0xC000 (`AllocIndex.IndexBeyond`).
  `AllocIndex.IndexBeyondFirst`: 2^40 lands in bin 0 and not in bin 31.
- When the code buffer is full the engine starts it anew but keeps the block cache (`src/bal_engine.c:376-390`), so a
  cached address can lead to the code of another block. `Engine.StaleAfterOverflow` is a run after which the guest
  states with and without the cache differ. Runs with and without the cache agree, whatever code under a wrong pointer
  does, if and only if no lookup finds a pointer whose code was written over (`Engine.AgreesAnyhow` and
  `Engine.MisledDiffers`, condition `misled`). One translation leaves the cache in order if and only if there is room in
  the buffer or no cached code lies where it starts anew (`Engine.TranslateKeepsExactly`).

## Model

| member | source | states |
|---|---|---|
| `DasmX86.Dasm.constructor` | extern/LuaJIT-2.1/dynasm/dasm_x86.h:84-146 | A new assembler: no action in any section, no label, section 0, and the invariant of pass 1 |
| `DasmX86.Dasm.PutRef` | extern/LuaJIT-2.1/dynasm/dasm_x86.h:224-242 | A reference to a label that exists holds its position; otherwise its slot becomes the head of the label's chain. All other chains and references stay |
| `DasmX86.Dasm.PutLabel` | extern/LuaJIT-2.1/dynasm/dasm_x86.h:244-250 | The loop over the chain ends, also across sections; exactly the slots that were waiting for the label now hold its position |
| `DasmX86.Dasm.PutArg` | extern/LuaJIT-2.1/dynasm/dasm_x86.h:186-212 | An argument is taken exactly if it passes the range check of its action, and counts the longest form that its value needs |
| `DasmX86.Dasm.Put` | extern/LuaJIT-2.1/dynasm/dasm_x86.h:161-268 | Pass 1 is fine exactly if every argument passes its check, and otherwise the status is that of the first that fails, with its place; if fine, the section has got exactly the actions of the chunk, the section action at its end has switched sections, and every invariant of labels and slots holds |
| `DasmLayout.PendingExactly` | extern/LuaJIT-2.1/dynasm/dasm_x86.h:226-250 | After any calls of pass 1 the chain of a label holds exactly its references if the label was not put, and none if it was; `Inv` adds that a chain ends with 0 and has no slot twice |
| `DasmLayout.PutLabelBinds` | extern/LuaJIT-2.1/dynasm/dasm_x86.h:211-250 | After any calls of pass 1 every reference to a label that was put holds the position of one of its label slots, and if the label was put once, exactly that position; the chain is empty |
| `DasmLayout.TableSays` | extern/LuaJIT-2.1/dynasm/dasm_x86.h:224-250 | The entry of a label is negative exactly if the label was put, and positive exactly if it was not but is referenced |
| `DasmX86.Dasm.AddSections` | extern/LuaJIT-2.1/dynasm/dasm_x86.h:318-321 | The loop adds the pessimistic sizes of the sections between branch and label |
| `DasmX86.Dasm.EstimateRel` | extern/LuaJIT-2.1/dynasm/dasm_x86.h:314-325 | What pass 2 computes from half fixed slots is the pessimistic distance of a forward branch and the exact one of a backward branch |
| `DasmX86.Dasm.ShrinkRel` | extern/LuaJIT-2.1/dynasm/dasm_x86.h:312-332 | The choice of the short form agrees with the layout |
| `DasmX86.Dasm.LinkSections` | extern/LuaJIT-2.1/dynasm/dasm_x86.h:297-353 | The loops of pass 2 leave the final offset in every label slot and the chosen form in every branch |
| `DasmX86.Dasm.Link` | extern/LuaJIT-2.1/dynasm/dasm_x86.h:271-358 | Pass 2 is fine exactly if pass 1 was and every label that some action refers to was put; an error names the first label for which it is not so, and changes no slot |
| `DasmLayout.Distance` | extern/LuaJIT-2.1/dynasm/dasm_x86.h:297-353 | Between any two points the final distance is at least 0 and at most the pessimistic one of pass 1, across sections, branches and alignments |
| `DasmLayout.ShortBranchFits` | extern/LuaJIT-2.1/dynasm/dasm_x86.h:312-332 | Branch relaxation is sound: every branch that is made short has a final displacement of -128 to 127, forwards, backwards and across sections, whatever is shortened later |
| `DasmLayout.ShortExactly` | extern/LuaJIT-2.1/dynasm/dasm_x86.h:312-332 | Nothing is kept long that passes the test: opcode e9 and opcodes 80 to 8f get 3 or 4 bytes shorter exactly if the short form reaches back to the label, or the label ahead is within 127 bytes by the pessimistic offsets |
| `DasmLayout.AlignedPoint` | extern/LuaJIT-2.1/dynasm/dasm_x86.h:342 | The offset after an alignment action is aligned, with less padding than one unit |
| `DasmLayout.PadFirst` | extern/LuaJIT-2.1/dynasm/dasm_x86.h:472-475 | The padding is minimal: no point before is aligned |
| `DasmX86.Dasm.Encode` | extern/LuaJIT-2.1/dynasm/dasm_x86.h:383-491 | Pass 3 never ends with a phase error, stays within the code size, and every action's bytes stand at the offset that pass 2 fixed for it |
| `DasmBytes.Covered` | extern/LuaJIT-2.1/dynasm/dasm_x86.h:392-486 | Every byte of the code belongs to an action |
| `DasmBytes.CodeDetermined` | extern/LuaJIT-2.1/dynasm/dasm_x86.h:383-491 | What `Encode` promises fixes the whole buffer: two codes with it are equal |
| `DasmBytes.CodeBranch` | extern/LuaJIT-2.1/dynasm/dasm_x86.h:447-454 | The bytes of a branch, patched opcode included, read as a branch with the same condition and the wanted displacement |
| `DasmBytes.BranchLands` | extern/LuaJIT-2.1/dynasm/dasm_x86.h:447-454 | Read as machine code, every branch in the buffer that pass 2 could shorten, long or short, keeps its condition and jumps exactly to the final offset of its label |
| `DasmBytes.RelativeLands` | extern/LuaJIT-2.1/dynasm/dasm_x86.h:447-454 | The last four bytes of any other relative reference, such as that of a call, lead exactly to the final offset of its label |
| `DasmBytes.AddressLands` | extern/LuaJIT-2.1/dynasm/dasm_x86.h:459-463 | The last eight bytes of a reference by address are the address of its label in the placed code |
| `DasmRead.ImmReads` | extern/LuaJIT-2.1/dynasm/dasm_x86.h:404-420 | An immediate stands right behind the opcode bytes, in the form of its action and the shortest its value fits, and reads back as its argument |
| `DasmRead.RefusedExactly` | extern/LuaJIT-2.1/dynasm/dasm_x86.h:186-199 | Pass 1 refuses an immediate exactly if no byte, signed or not, or no two bytes of its form say it |
| `DasmRead.SpaceReads` | extern/LuaJIT-2.1/dynasm/dasm_x86.h:471 | Space is as long as its argument says and filled with its byte |
| `DasmRead.PaddingReads` | extern/LuaJIT-2.1/dynasm/dasm_x86.h:472-475 | All bytes of a padding are 0x90 |
| `DasmRead.OpcodeReads` | extern/LuaJIT-2.1/dynasm/dasm_x86.h:413-419 | Every opcode byte of the code is the listed one, except that the last but one before a short form of an immediate is 2 more, and that the opcode of a shortened branch is that of the short branch |
| `DasmX86.Dasm.GetPcLabel` | extern/LuaJIT-2.1/dynasm/dasm_x86.h:493-503 | After pass 2: the final offset of a label that was put, -2 for any other |
| `AllocIndex.IndexRight` | extern/LuaJIT-2.1/src/lj_alloc.c:613-639 | A size below 2^40 lies in the interval of its bin |
| `AllocIndex.IndexExact` | extern/LuaJIT-2.1/src/lj_alloc.c:613-639 | Below 2^40 a size has a bin as its index exactly if it lies between the bin's smallest size and the next one's |
| `AllocIndex.IndexMonotone` | extern/LuaJIT-2.1/src/lj_alloc.c:613-625 | Below 2^40 larger sizes have no smaller index |
| `AllocIndex.IndexBeyond` | extern/LuaJIT-2.1/src/lj_alloc.c:616-620 | For every 64-bit size, exactly when the index is right in spite of the cast to 32 bits |
| `AllocIndex.IndexBeyondFirst` | extern/LuaJIT-2.1/src/lj_alloc.c:616-618 | A size for which it is wrong: 2^40 |
| `AllocIndex.TurnsOrder` | extern/LuaJIT-2.1/src/lj_alloc.c:631-634 | Sizes of one bin whose keys first differ at some depth are ordered as their turns there, so a left subtree is smaller than a right one |
| `AllocState.MallocState.constructor` | extern/LuaJIT-2.1/src/lj_alloc.c:1226-1249 | A fresh segment is one free chunk, the top chunk, and the invariant holds |
| `AllocState.MallocState.InitBins` | extern/LuaJIT-2.1/src/lj_alloc.c:890-899 | All small bins are circular lists of their own header |
| `AllocState.MallocState.InsertSmall` | extern/LuaJIT-2.1/src/lj_alloc.c:674-687 | The chunk is in the bin of its size; lists and bitmap stay right, and no word but the links of free chunks changes |
| `AllocState.MallocState.UnlinkSmall` | extern/LuaJIT-2.1/src/lj_alloc.c:689-700 | Exactly that chunk leaves its list; the bitmap bit goes with the last one |
| `AllocState.MallocState.UnlinkFirst` | extern/LuaJIT-2.1/src/lj_alloc.c:702-711 | The same for the first chunk of a bin |
| `AllocState.MallocState.InsertLarge` | extern/LuaJIT-2.1/src/lj_alloc.c:727-765 | The chunk joins the tree of its bin at the place its bits lead to, or the ring of its size; bit paths, parents, rings and bitmap stay right |
| `AllocState.MallocState.UnlinkLarge` | extern/LuaJIT-2.1/src/lj_alloc.c:767-811 | Exactly that chunk leaves; a chunk of its ring or a leaf below takes its place and the trees stay right |
| `AllocState.MallocState.InsertChunk` | extern/LuaJIT-2.1/src/lj_alloc.c:815-817 | A loose free chunk gets into the bin for its size, and what users hold is untouched |
| `AllocState.MallocState.UnlinkChunk` | extern/LuaJIT-2.1/src/lj_alloc.c:819-821 | A binned chunk becomes loose, and what users hold is untouched |
| `AllocState.MallocState.TmallocLarge` | extern/LuaJIT-2.1/src/lj_alloc.c:1129-1191 | The walk through trie and bitmap finds the smallest tree chunk that is large enough; 0 exactly if there is none or the designated victim fits at least as well |
| `AllocState.MallocState.TmallocSmall` | extern/LuaJIT-2.1/src/lj_alloc.c:1193-1222 | The smallest of all tree chunks is taken |
| `AllocState.MallocState.Malloc` | extern/LuaJIT-2.1/src/lj_alloc.c:1269-1350 | The invariant is kept; the result is a chunk that was free, aligned, at least as large as asked for and larger by less than the smallest chunk; other users' data stays. The chunk is the one that the order of bins, designated victim, trees and top chunk chooses, best fit within bins and trees (`Chosen`). 0 comes only when no free chunk is large enough (the top chunk must be larger), and changes nothing |
| `AllocState.MallocState.Free` | extern/LuaJIT-2.1/src/lj_alloc.c:1352-1421 | The invariant is kept; exactly that chunk is no longer in use, joined with its free neighbours; other users' data stays |
| `AllocState.MallocState.Realloc` | extern/LuaJIT-2.1/src/lj_alloc.c:1423-1471 | The chunk has the new size, in place if it is large enough or can grow into the top chunk, and else its successor elsewhere; the old bytes up to the shorter size are kept, and no one else's data changes. 0 comes only when neither is possible and no free chunk is large enough; then nothing changes |
| `AllocState.MallocState.Memcpy` | extern/LuaJIT-2.1/src/lj_alloc.c:1462-1467 | The copy in `realloc`, byte by byte of partial words, reaches only the new chunk |
| `AllocState.MallocState.Write` | extern/LuaJIT-2.1/src/lj_alloc.c:1269-1471 | A user who stays inside his chunk, foot of the next one included, breaks no invariant and no one else's data |
| `AllocState.MallocState.TilesExactly` | extern/LuaJIT-2.1/src/lj_alloc.c:1352-1421 | Chunks tile the segment from end to end without overlap; head words, in-use bits, previous-in-use bits and foots match; no two free chunks are neighbours |
| `AllocState.MallocState.OnePlace` | extern/LuaJIT-2.1/src/lj_alloc.c:1352-1421 | Every free chunk is in exactly one place: top, designated victim, the small bin or the tree bin of its size |
| `AllocState.MallocState.PayloadsApart` | extern/LuaJIT-2.1/src/lj_alloc.c:1269-1471 | The bytes of a user overlap no other user's, no head, no foot in use and no link of a free chunk |
| `RegAlloc.NoSharing` | extern/LuaJIT-2.1/src/lj_asm.c:468-563 | No two allocated registers name the same reference |
| `RegAlloc.CostOrders` | extern/LuaJIT-2.1/src/lj_target.h:121-132 | Of two references the earlier one costs less, a PHI counting as 64 later |
| `RegAlloc.NewSlot` | extern/LuaJIT-2.1/src/lj_asm.c:434-449 | A new spill slot, one or two words, overlaps none given out before |
| `RegAlloc.Asm.constructor` | extern/LuaJIT-2.1/src/lj_asm.c:357-369 | All registers are free and the invariant holds |
| `RegAlloc.Asm.RematK` | extern/LuaJIT-2.1/src/lj_asm.c:371-426 | The constant's register is free and what is emitted makes the constant again |
| `RegAlloc.Asm.Spill` | extern/LuaJIT-2.1/src/lj_asm.c:428-451 | The reference has a slot, its old one if it had one; other slots stay. It fails exactly if it needs a slot, no single one is left over for it, and no pair is left below 256 |
| `RegAlloc.Asm.Restore` | extern/LuaJIT-2.1/src/lj_asm.c:467-486 | The reference loses its register, and the emitted load or constant makes the code that follows find it there |
| `RegAlloc.Asm.Evict` | extern/LuaJIT-2.1/src/lj_asm.c:500-521 | One of the allowed registers gets free, the one with the lowest cost or a weak one; the code that follows still finds all it relies on. It fails only for want of spill slots |
| `RegAlloc.Asm.Scratch` | extern/LuaJIT-2.1/src/lj_asm.c:523-540 | An allowed free register, with an eviction only if none is free; it fails only for want of spill slots |
| `RegAlloc.Asm.EvictSet` | extern/LuaJIT-2.1/src/lj_asm.c:542-563 | Exactly the given registers get free in addition, each restored for the code that follows |
| `RegAlloc.Asm.AllocRef` | extern/LuaJIT-2.1/src/lj_asm.c:669-711 | A reference without a register gets an allowed one, the hinted one if that is free, with an eviction only if none is free, and the cost that names it; it fails only for want of spill slots |
| `RegAlloc.Asm.Alloc1` | extern/LuaJIT-2.1/src/lj_asm.c:713-721 | The same unless the reference has a register, which is kept |
| `RegAlloc.Asm.Rename` | extern/LuaJIT-2.1/src/lj_asm.c:733-760 | The reference is in the other register, whose cost entry names it, and the emitted move brings it to where the code that follows expects it |
| `RegAlloc.Asm.Dest` | extern/LuaJIT-2.1/src/lj_asm.c:765-784 | The result register is free before the instruction, the hinted one if that is free; a result that has a spill slot is saved there |
| `RegAlloc.Asm.DestReg` | extern/LuaJIT-2.1/src/lj_asm.c:786-795 | With the result in a given register, the emitted move leaves it where it is expected |
| `RegAlloc.Asm.Shuffle` | extern/LuaJIT-2.1/src/lj_asm.c:2062-2096 | A parallel assignment, cycles included: run in execution order the emitted moves leave in every target the value its parent register had on entry, and every spill slot as it was. It ends; it fails only if a cycle is left and no allowed register of its kind is free |
| `LuaChars.ClassMeaning` | extern/LuaJIT-2.1/src/lib_string.c:216-228 | For every byte and every escaped character: class letters by the bit table mean the classes of the manual, upper-case ones the complement, `%z` the zero byte, and any other escape stands for itself |
| `LuaMatch.MatchState.ClassEndOf` | extern/LuaJIT-2.1/src/lib_string.c:189-208 | The end of a class, or the error for a malformed one |
| `LuaMatch.MatchState.MatchBracketClass` | extern/LuaJIT-2.1/src/lib_string.c:230-251 | The scan of a set with ranges, classes and complement computes the membership that the next lemmas are about |
| `LuaSets.BracketsMeaning` | extern/LuaJIT-2.1/src/lib_string.c:230-251 | A character is in a set exactly if one of the listed characters, ranges and classes admits it, and in one with `^` exactly if none does |
| `LuaSets.MembersWritten` | extern/LuaJIT-2.1/src/lib_string.c:230-251 | The members are all that is written between the brackets, in order; an escape right before the end takes the bracket with it |
| `LuaSyntax.ItemMeaning` | extern/LuaJIT-2.1/src/lib_string.c:189-261 | For every item that can be written (any character, a literal, an escape, a set), its text is read as one class that ends where the text does, and a character matches exactly if the item admits it; `.` admits every character |
| `LuaMatch.MatchState.MatchBalance` | extern/LuaJIT-2.1/src/lib_string.c:265-284 | The scan for balanced text finds the end that the next lemma is about |
| `LuaSets.FirstBalanced` | extern/LuaJIT-2.1/src/lib_string.c:265-284 | Balanced text ends at the first place where as many are closed as opened; there is no end exactly if there is no such place |
| `LuaMatch.MatchState.StartCapture` | extern/LuaJIT-2.1/src/lib_string.c:315-327 | The rest is matched with one more capture, and the level is restored on failure |
| `LuaMatch.MatchState.EndCapture` | extern/LuaJIT-2.1/src/lib_string.c:329-338 | The last open capture is closed, and open again on failure |
| `LuaMatch.MatchState.MaxExpand` | extern/LuaJIT-2.1/src/lib_string.c:286-299 | The first way in the order of greedy trials |
| `LuaMatch.MatchState.MinExpand` | extern/LuaJIT-2.1/src/lib_string.c:301-313 | The first way in the order of lazy trials |
| `LuaMatch.MatchState.MatchHere` | extern/LuaJIT-2.1/src/lib_string.c:352-435 | The matcher ends and answers with end and captures of the first of all ways in order, or its error; without a match level, depth and every capture are as before, and captures stay inside the subject |
| `LuaPattern.LongestFirst` | extern/LuaJIT-2.1/src/lib_string.c:286-299 | `*` and `+` take the longest run from which the rest matches |
| `LuaPattern.NoneGreedy` | extern/LuaJIT-2.1/src/lib_string.c:286-299 | If the rest matches after no run there is no match |
| `LuaPattern.ShortestFirst` | extern/LuaJIT-2.1/src/lib_string.c:301-313 | `-` takes the shortest one |
| `LuaRelation.AllInstances` | extern/LuaJIT-2.1/src/lib_string.c:352-435 | Every way to match that succeeds is an instance of the pattern, by a relation on ends and captures without order of trial and without depth; and every instance is among the ways unless some way nests too deep |
| `LuaRelation.FoundExactly` | extern/LuaJIT-2.1/src/lib_string.c:352-435 | A match found is an instance, for every pattern; that nothing matches is answered only if there is no instance |
| `LuaMeaning.InstanceExactly` | extern/LuaJIT-2.1/src/lib_string.c:352-435 | For every pattern written from pieces (items with repetitions, captures, balanced text, frontiers, capture results, the end) the relation on the written pattern is the one on the pieces |
| `LuaCorrect.NoErrors` | extern/LuaJIT-2.1/src/lib_string.c:172-187 | Pieces in order, with captures that are closed after they are opened and at most 32, raise no error at 200 levels of depth or less |
| `LuaCorrect.PatternMeaning` | extern/LuaJIT-2.1/src/lib_string.c:352-435 | For such a pattern of fewer than 200 pieces the matcher answers, and with an instance of the pieces, or that there is none |
| `LuaChoice.OnceTakes` | extern/LuaJIT-2.1/src/lib_string.c:403-428 | An item without repetition takes one character that it admits |
| `LuaChoice.OptionalTakes` | extern/LuaJIT-2.1/src/lib_string.c:405-414 | `?` takes a character if the rest matches behind it, and else none |
| `LuaChoice.LongestTaken` | extern/LuaJIT-2.1/src/lib_string.c:286-299 | Of a pattern that starts with a `*` or `+` item the matcher takes the longest run behind which the rest matches |
| `LuaChoice.ShortestTaken` | extern/LuaJIT-2.1/src/lib_string.c:301-313 | With `-` it takes the shortest one |
| `LuaChoice.NoneTaken` | extern/LuaJIT-2.1/src/lib_string.c:286-313 | If the rest matches behind no run, nothing matches |
| `LuaSearch.Find` | extern/LuaJIT-2.1/src/lib_string.c:498-511 | The leftmost place with a match from the place where the search starts, or none at any place; an anchored pattern is tried at one place only |
| `LuaSearch.AddText` | extern/LuaJIT-2.1/src/lib_string.c:561-580 | The loop over a replacement template computes the text that the next lemmas are about |
| `LuaReplace.TemplateFrom` | extern/LuaJIT-2.1/src/lib_string.c:561-580 | A template written from parts becomes the parts' texts in order: a character, an escaped one, the whole match, and for capture k its text or the decimal of its place; it is an error exactly if some capture is missing or open, and that of the first such part |
| `LuaReplace.EveryTemplate` | extern/LuaJIT-2.1/src/lib_string.c:561-580 | Every template is written from such parts, with an escape alone at its end or without |
| `LuaReplace.DecimalReads` | extern/LuaJIT-2.1/src/lib_string.c:449-450 | The digits for a place read back as the number, without a zero in front |
| `LuaSearch.StringGsub` | extern/LuaJIT-2.1/src/lib_string.c:614-653 | The loop ends and computes the substitution that the next lemmas are about |
| `LuaReplace.GsubExplained` | extern/LuaJIT-2.1/src/lib_string.c:614-653 | The result is the untouched stretches of the subject and the replacements at successive leftmost matches, in order, until there are as many as allowed or no match is left; or the error of the next match or of its replacement. With an anchor only a match at the start counts |
| `LuaSearch.GsubConserves` | extern/LuaJIT-2.1/src/lib_string.c:614-653 | A replacement that puts the match back leaves every subject as it is, for every pattern and limit |
| `LuaSearch.TemplatePutsBack` | extern/LuaJIT-2.1/src/lib_string.c:561-580 | The template `%0` is such a replacement |
| `LuaSearch.NoAnswer` | extern/LuaJIT-2.1/src/lib_string.c:582-612 | So is a call that answers nil or false |
| `LuaSearch.GsubBounded` | extern/LuaJIT-2.1/src/lib_string.c:614-653 | At most length plus one substitutions, and no more than the limit |
| `LuaSort.Partition` | extern/LuaJIT-2.1/src/lib_table.c:212-247 | For every comparison the elements stay the same and within bounds; a lawful one raises no error and leaves the part split around the pivot |
| `LuaSort.AuxSort` | extern/LuaJIT-2.1/src/lib_table.c:196-257 | It ends for every comparison and permutes the elements of its part; it is fine exactly if no call raises an error and no scan runs off its end, and stops at the first that does; sorted for a strict weak order; calls nest at most as deep as the logarithm of the length |
| `LuaSort.Sort` | extern/LuaJIT-2.1/src/lib_table.c:259-268 | The same elements, in order for a strict weak order; fine exactly if no call of the comparison raises an error and no scan runs off its end |
| `A64Imm.Ffs` | extern/LuaJIT-2.1/dynasm/dasm_arm64.h:175-180 | The position of the highest bit, for 0 that of none |
| `A64Imm.EncodeImm13` | extern/LuaJIT-2.1/dynasm/dasm_arm64.h:182-213 | One assignment after the other computes the answer that the lemmas below are about |
| `A64Correct.Recognised` | extern/LuaJIT-2.1/dynasm/dasm_arm64.h:188-206 | Of every word made of equal elements with one run of ones the bit tricks find period, start and end of the run |
| `A64Correct.Understood` | extern/LuaJIT-2.1/dynasm/dasm_arm64.h:188-206 | Every accepted word is made of copies of one run, at the period found |
| `A64Encode.DecodePlain` | extern/LuaJIT-2.1/dynasm/dasm_arm64.h:210 | The encoding of such a word decodes to it |
| `A64Encode.DecodeInverse` | extern/LuaJIT-2.1/dynasm/dasm_arm64.h:208 | So does that of the complement |
| `A64Correct.EncodableExactly` | extern/LuaJIT-2.1/dynasm/dasm_arm64.h:182-213 | A word has an encoding exactly if it is accepted and its run ends within its period |
| `A64Correct.AnswerExactly` | extern/LuaJIT-2.1/dynasm/dasm_arm64.h:182-213 | An answer decodes to the input exactly if the run ends within its period, and everything that can be encoded is, for all 2^64 inputs |
| `A64Correct.TwinsExactly` | extern/LuaJIT-2.1/dynasm/dasm_arm64.h:182-213 | With two equal halves, an answer exactly for the words that have an encoding, and always right |
| `A64Correct.Straddling` | extern/LuaJIT-2.1/dynasm/dasm_arm64.h:206 | An input whose answer is wrong |
| `BlockCache.InsertKeepsSet` | src/bal_engine.c:592-623 | Live ways stay a prefix with distinct addresses of the set, address 0 included; only a full set can lose an address, and only that of one way |
| `BlockCache.EvictBits` | src/bal_engine.c:619-622 | That way depends on the set alone: its bits are among the bits that choose the set |
| `BlockCache.InsertThenLookup` | src/bal_engine.c:575-623 | An insertion is found; at most one other address is lost, given exactly; all others are found as before |
| `BlockCache.DrivenExactly` | src/bal_engine.c:592-623 | Exactly when an address is lost: 4096 sets by bits 2 to 13, all four ways of the set in use by other addresses, and the address in the way that bits 4 and 5 of the new one choose |
| `BlockCache.LatestOrNothing` | src/bal_engine.c:575-623 | After any insertions into a zeroed cache a lookup finds the latest one for its address, or nothing; the last insertion is always found |
| `BlockCache.Table.Clear` | src/bal_engine.c:317-318 | The cleared table is the zeroed cache |
| `BlockCache.Table.BlockLookup` | src/bal_engine.c:575-590 | The loop over the ways finds what the cache holds |
| `BlockCache.Table.BlockInsert` | src/bal_engine.c:592-623 | The loops over the ways make the cache with the insertion |
| `Engine.ClearRequest` | src/bal_engine.c:305-325 | Under every interleaving: after a request at most one block runs before nothing cached before it is left, and only that block can be older than the request |
| `Engine.OverwrittenRequest` | src/bal_engine.c:305-325 | A request that the store of `false` overwrites comes when nothing is cached |
| `Engine.ClearServed` | src/bal_engine.c:314-325 | A clearing empties the cache, starts the buffer anew, takes the request back and leaves the guest and the other requests alone |
| `Engine.StopRequest` | src/bal_engine.c:305-312 | After a request to stop at most one block runs, whatever else is requested, also in later calls of the loop |
| `Engine.InterruptRequest` | src/bal_engine.c:327-333 | After a request to interrupt at most one block runs before the next guard ends the run and takes the request back; until then it waits |
| `Engine.RequestEnds` | src/bal_engine.c:305-333 | With a request to stop or to interrupt the loop ends within ten steps, also when it is called again |
| `Engine.OnlyOnRequest` | src/bal_engine.c:305-333 | The loop ends as stopped or interrupted, and clears, only if this was requested |
| `Engine.RunAlways` | src/bal_engine.c:289-436 | In every run: as long as the buffer was not full since the last clearing, the code of every live way is that of its address; the chosen code is that of its address unless the lookup was misled, and until then each guest state is the block of the one before |
| `Engine.CachedAsUncached` | src/bal_engine.c:335-436 | With any requests at any time, two runs from one guest state, one with and one without the cache, go through the same guest states as far as both go, if no lookup of the cached run was misled; runs that end by themselves end alike |
| `Engine.NotMisled` | src/bal_engine.c:305-390 | No lookup is misled in a run in which none finds anything between a full buffer and the next clearing, so none in a run without a full buffer |
| `Engine.TranslateKeepsExactly` | src/bal_engine.c:369-390 | A translation leaves every cached pointer on the code of its address exactly if it writes over no cached code; as long as the buffer was not full, exactly if there is room or no cached code lies in the part where the buffer starts anew |
| `Engine.AgreesAnyhow` | src/bal_engine.c:335-436 | A run without a misled lookup agrees with the runs without the cache whatever code under a wrong pointer does |
| `Engine.MisledDiffers` | src/bal_engine.c:335-436 | A run with a misled lookup does not: cut off at that lookup it goes on to a state that the run without the cache does not reach, for some meaning of the code under wrong pointers |
| `Engine.GoesOn` | src/bal_engine.c:301-436 | Left alone the loop runs a block or ends by itself within ten steps |
| `Engine.StaleAfterOverflow` | src/bal_engine.c:376-390 | With a full buffer it is not so: a world and two runs |
| `JitDebug.DebugContext.constructor` | src/bal_jit_debug.c:6-61 | No records |
| `JitDebug.DebugContext.AddBlock` | src/bal_jit_debug.c:97-176 | One record more, all others as before; or the status says why not, in the order of the checks, and no entry, no arena slot and no offset changes |
| `JitDebug.LogAppend` | src/bal_jit_debug.c:124-171 | Writing behind the used part of the arena appends a record |
| `JitDebug.RecordsApart` | src/bal_jit_debug.c:124-171 | Records never overlap in the arena |
| `JitDebug.DebugContext.HandleFault` | src/bal_jit_debug_signal.c:138-224 | The first record that contains the address answers, with the last mapping that is not after it; without a record it is the buffer that counts |
| `JitDebug.LastNotAfter` | src/bal_jit_debug_signal.c:178-186 | With ascending offsets the scan stops at the last mapping not after the fault |
| `JitDebug.FaultInside` | src/bal_jit_debug_signal.c:168-210 | With disjoint ranges and ascending offsets a fault inside a block resolves to that block and to base plus the guest offset of the last mapping not after it, or to base |
| `A64Assembler.Assembler.Init` | src/bal_assembler.c:19-77 | Ready with no code exactly for a buffer that is there, aligned, not empty and not too large |
| `A64Assembler.Assembler.Reset` | src/bal_assembler.c:79-108 | No code, no error, and all of the buffer zero |
| `A64Assembler.Assembler.Destroy` | src/bal_assembler.c:110-127 | Nothing can be emitted any more |
| `A64Assembler.Assembler.EmitAddImmediate` | src/bal_assembler.c:129-214 | The word written decodes to the instruction with its operands, nothing else in the buffer changes; or the status is the error of the first check that fails and nothing is written |
| `A64Assembler.Assembler.EmitAddShifted` | src/bal_assembler.c:216-310 | The same |
| `A64Assembler.Assembler.EmitBranch` | src/bal_assembler.c:312-378 | The same, with the signed offset; the arguments are checked before the status |
| `A64Assembler.Assembler.EmitBranchRegister` | src/bal_assembler.c:380-430 | The same |
| `A64Assembler.Assembler.EmitSubImmediate` | src/bal_assembler.c:432-517 | The same |
| `A64Assembler.Assembler.EmitMove` | src/bal_assembler.c:613-689 | The same for the three wide moves |
| `A64Assembler.Assembler.EmitReturn` | src/bal_assembler.c:546-596 | The same; the register is checked before the status |
| `A64Assembler.RunWritesPrefix` | src/bal_assembler.c:129-689 | Any calls in a row: the code is exactly the calls before the first that is refused, in order, each decoding to itself, and the status is fine exactly if none is refused |
| `A64Assembler.ErrorStays` | src/bal_assembler.c:129-689 | After an error nothing is written and the status stays an error |
| `A64Assembler.RefusedExactly` | src/bal_assembler.c:129-689 | A call is refused for its arguments exactly if no word decodes to it |
| `A64Assembler.AnyConstant` | src/bal_assembler.c:519-535 | MOVZ and three MOVK of its half words make any 64-bit constant |

## Left out

- DynASM: DISP, VREG, MARK, SETLABEL, EXTERN, REL_A and all local and global labels; puts after a failed check; growing
  of section buffers, and code of 2^31 bytes or more, sections of 2^24 slots or more, more than 128 sections.
- Alignment masks are one less than a power of two, so `&` is written as a remainder.
- Allocator: chunks mapped directly, more segments than one, growing by the system (`alloc_sys` fails), trimming and
  releasing of segments, chunks of 2^40 bytes or more.
- AllocState.MallocState.Malloc: does not model chunks mapped directly and memory got from the system, so 0 stands for
  the call of `alloc_sys` too.
- AllocState.MallocState.Free: does not model trimming, and a pointer that is not in use is excluded as in C.
- AllocState.MallocState.Realloc: does not model chunks mapped directly.
- Register allocator: weak marking of PHI registers, the hints' origin, the limit of the machine code area.
- RegAlloc.Asm.RematK: does not model constant pseudo-references.
- RegAlloc.Asm.Rename: does not model the records of renames that snapshots read.
- Pattern matcher: plain search, `gmatch`, formats of captures beyond decimal positions, allocation failures.
- LuaSearch.AddValue: does not model a table as the replacement other than as a call with the captures.
- LuaRelation.AllInstances: does not say that all instances are among the ways when some way nests too deep.
- LuaSort.AuxSort: does not model a comparison that changes the table, nor sums of indexes beyond 31 bits.
- `dasm_arm64.h` other than logical immediates, with the patching of branches.
- Engine: single-step mode, `is_executing` (it guards nothing), `bal_engine_reset`, weaker memory than atomic steps one
  after the other. What code does that was written over is a parameter.
- Debug map: logging, the signal context, reading the context behind the frame pointer, the magic number. The arena is
  kept as slots of 8 bytes.
- Assembler: logging, assertions and a null assembler.
