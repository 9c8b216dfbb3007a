# A verified model of the toolchain and kernel algorithms

The repository holds a two-pass 8086 C toolchain and a Sixth Edition Unix kernel
ported to it, with a builder of file system images written in Python. This
project models their central algorithms in Dafny 4.11 and proves what they are
for. `dafny verify dfyconfig.toml` checks all of it.

## What is modelled

**From jumps in an assembled pipe to jumps in a running program.** The compiler's
and assembler's `flush` sizes jumps in three scans over a pipe of records, writes
out a prefix and carries labels over to the next call. `Relax` is the scans as
functions, `Flusher` the same in place over the label arrays, and the linker's
passes and output windows are in `Binder`. `Stability`, `Segment` and `Runs` prove
that however the stream is cut by `flush(0)`, the result is one assembly of the
whole stream with one size for each jump. `Machine` is the processor's side, and
`Linked` goes from the assembled segment to the address a jump reaches, and `Chain`
all the way: any chunks, any object file, both passes of the linker, memory.

**The disk.** `FreeStack`, `Volume` (`alloc`, `free`), `BlockMap`, `Inodes` (`bmap`)
and `Truncate` (`itrunc`) are the kernel's storage. `Mkfs` is the Python builder of
the same format, `Builder` the whole volume it makes and what the kernel finds in
it, and `Mounted` that volume mounted, opened and read by the kernel's own routines. Every disk block is 256 words of 16 bits, or 512 bytes in `Mkfs` and `Builder`.

**The buffer cache.** `CacheSpec` says what each routine does to the headers, the
lists, the disk queue and the disk. `Coherence` interleaves any number of processes
with completion interrupts and proves what holds of every run. `Rings`,
`CacheLists`, `CacheSearch` and `BufferCache` are the doubly linked lists and the
queue as the kernel keeps them, each routine proved to do exactly what `CacheSpec`
says. A process that reads ahead (`breada`) takes two places in `Coherence`: the
search for the block ahead hands nothing back, so that it is a process of its own
whose steps come before the other's `iowait`.

**Pipes** (`Pipe`): readers and writers of one pipe as a state machine over the
stretches of kernel code that run without giving up the processor. One process at
both ends counts as two.

**Terminals.** `LineEditor` is erase, kill and escape as a function of what was
typed. `Terminal` is the raw and canonical queues with characters arriving between
any two statements of `canon`, `Tty` the same in place over the pool of character
lists (`Clists`).

**Structures in place**: the resource maps (`Rmap`), the callout table (`Callout`),
the swap image (`SwapImage`), the process table as sleeping, waking and the
scheduler see it (`Sleepers`).

**Programs**: the librarian's order (`Librarian`), the editor's temporary file
(`EdStore`) and its matcher (`Patterns`, `EdMatch`), and grep's matcher (`Grep`).

## What was found

Where the code falls short of what is expected of it, the model follows the code.

- `flush` tests for a segment over 64K on signed integers, so that it fires as soon
  as a segment passes 32767 bytes, and leaves the offset where it was
  (`Flusher.Flusher.Flush`).
- The long forms of LOOPNZ and LOOPZ invert the wrong condition. The code is right
  if and only if CX does not reach zero on that instruction (`Machine.FarLoop`).
- When the free list runs out after `bmap` has taken an indirect block, that block
  stays in the file and was never written: reading through it gives what the disk
  had there before. It happens if and only if the list is short by the data block
  or by an indirect block below one it did supply (`Inodes.Bmap`,
  `Inodes.TornShows`).
- The last close of one end of a pipe unlocks the inode whoever has it locked. From
  such a close the readers can be given more bytes than were written if and only if it
  is that of the last writer while one of several readers is reading
  (`Pipe.CloseHarmsIff`, `Pipe.ReadTwice`); and it comes to that in any pipe with two
  readers and one writer (`Pipe.WrongCloseHappens`).
- A `timeout` for a negative time makes late by as much everything set before it and
  everything set from then until, and on, the next tick. An entry is on time all the
  same if and only if the timeout was not for a time past, or was by one tick and the
  entry was due at once (`Callout.NegativeDelaysAll`, `Callout.OnTimeIffNotPast`).
- The count of delimiters in a terminal's raw queue is lost if and only if the queue
  is flushed between `canon`'s taking a delimiter and counting it. It stays one short
  until the next flush: a read with nothing typed ends as if at the end of the file,
  and with one whole line typed it sleeps (`Terminal.CountIffNoFlush`,
  `Terminal.SkewStays`, `Terminal.SkewMisleads`, `Terminal.MiscountHappens`).
- An interrupt character does not take back what `canon` has in hand
  (`Terminal.FlushLeaves`).
- What can be typed: an erase or kill character other than `#` or `@` only after a
  backslash that stays, and the interrupt and quit characters not at all
  (`LineEditor.WhatCanBeTyped`, `LineEditor.WhatCanBeRead`).
- In the editor's temporary file the dirty flag of the read buffer is never set:
  no write ever falls in the block it holds (`EdStore.Store.PutLine`).

## Model

| member | source | states |
|---|---|---|
| Relax.ShortIsNear | drive_c/BUILD/GEN/GEN6.C:1218-1235 | a record's size in the end is what the scan decided on reaching it, and a jump it left short had its label in the table within reach then |
| Relax.ResolvePrefix | drive_c/BUILD/GEN/GEN6.C:1206-1252 | what the scan decides about a record depends only on the records up to it |
| Stability.MixEntryRight | drive_c/BUILD/GEN/GEN6.C:1213-1217 | in the middle of the second scan every table entry has its label's final offset if passed, and its worst-case offset if not |
| Stability.NearGivesReach | drive_c/BUILD/GEN/GEN6.C:1223-1231 | a label the scan finds near lies in -128..127 of the jump in the segment as it will be, backward by the exact distance and forward by the worst case |
| Stability.ReachGivesNear | drive_c/BUILD/GEN/GEN6.C:1223-1231 | conversely, a label near in that sense is found near, whatever table it comes from |
| Segment.KeepsDecisions | drive_c/BUILD/GEN/GEN6.C:1202-1252 | a jump decided by an earlier call and scanned again in the left-over pipe is decided the same |
| Segment.ScanSettles | drive_c/BUILD/GEN/GEN6.C:1202-1252 | after the second scan every jump of the segment so far, old and new, has the size its distance calls for |
| Segment.CarrySound | drive_c/BUILD/GEN/GEN6.C:1328-1341 | each label carried over has its exact offset relative to the cut |
| Segment.CarryCovers | drive_c/BUILD/GEN/GEN6.C:1328-1341 | every label that a record still to be scanned could reach backward is carried over |
| Runs.StepWrites | drive_c/BUILD/GEN/GEN6.C:1254-1326 | what one call writes is a further stretch of the code of the one settled segment, displacements across the cut included |
| Runs.StepKeepsInv | drive_c/BUILD/GEN/GEN6.C:1157-1355 | a call of flush(0) keeps the invariant between what is written and what is left in the pipe |
| Runs.RunAssembles | drive_c/BUILD/GEN/GEN6.C:1157-1355 | for any stream of records with distinct labels cut by any calls of flush(0) and a last flush(1), there is one choice of jump sizes for the whole stream, right for every jump, whose code, labels and size are exactly what was written |
| Machine.ShortJumps | drive_c/BUILD/GEN/GEN6.C:1279-1288 | the short form of each type transfers to the address after it plus its signed displacement exactly when the processor takes that type, and falls through otherwise |
| Machine.FarConditional | drive_c/BUILD/GEN/GEN6.C:1289-1307 | the inverted jump over a near jump does what the conditional jump would, for types 0 to 15 |
| Machine.FarPlain | drive_c/BUILD/GEN/GEN6.C:1299-1307 | the near jump and the near call reach their target modulo 64K |
| Machine.FarLoop | drive_c/BUILD/ASM/ASM5.C:490-514 | the long form of LOOPNZ or LOOPZ, to a target other than what follows, does what the short one would if and only if CX does not become zero |
| Machine.LinkConcat | drive_c/BUILD/BIND/BIND.C:560-662 | linking object items in two parts is linking them at once |
| Machine.LinkFar | drive_c/BUILD/BIND/BIND.C:582-587 | the fixup after a near jump leaves in its field the label's address less the address after the field, modulo 64K |
| Linked.LinkedImage | drive_c/BUILD/BIND/BIND.C:645-662 | after linking, every jump of the segment stands in memory at its offset with its final displacement |
| Linked.ShortRange | drive_c/BUILD/GEN/GEN6.C:1226-1231 | every displacement of a jump left short is in -128..127 |
| Linked.BackwardExact | drive_c/BUILD/GEN/GEN6.C:1223-1231 | a jump back is short if and only if the displacement it would then have is one a byte can hold |
| Linked.JumpArrives | drive_c/BUILD/GEN/GEN6.C:1279-1307 | for any assembled segment and any addresses that resolve its labels, a jump in memory, left short or of a type with a sound long form, goes, if taken, to the address its label was given, and otherwise to what follows |
| Flusher.Flusher.Scan1 | drive_c/BUILD/GEN/GEN6.C:1171-1196 | the label arrays gain the pipe's labels at worst-case offsets |
| Flusher.Flusher.Scan2 | drive_c/BUILD/GEN/GEN6.C:1198-1252 | in place: the jumps sized as by the function, the labels at exact offsets |
| Flusher.Flusher.Scan3 | drive_c/BUILD/GEN/GEN6.C:1254-1326 | the code up to the cut is written, and the internal error never occurs |
| Flusher.Flusher.CarryOver | drive_c/BUILD/GEN/GEN6.C:1328-1341 | the arrays end up with exactly the labels within 128 bytes of the cut |
| Flusher.Flusher.Flush | drive_c/BUILD/GEN/GEN6.C:1157-1355 | the whole call, from any state of pipe and arrays, is one step of the model; the error is reported if and only if the offset passes 32767 |
| Binder.Window.WriteOut | drive_c/BUILD/BIND/BIND.C:1268-1288 | the window's first bytes go out and the rest, if any is to come, move down unharmed |
| Binder.Window.Place | drive_c/BUILD/BIND/BIND.C:650-662 | a run of bytes is added to the segment, and the word it ends with is in the window afterwards, written out or not |
| Binder.Window.Fix | drive_c/BUILD/BIND/BIND.C:576-587 | the fixup adjusts the last word of the segment, which is always still in the window |
| Binder.LinkModule | drive_c/BUILD/BIND/BIND.C:560-662 | a module linked through the sliding window, its labels entered as they come up, is what linking it on a flat memory with the finished tables gives |
| Binder.Pass1 | drive_c/BUILD/BIND/BIND.C:447-466 | each wanted module is given the base that the sizes of the wanted ones before it add up to, and each name the address of the first label a wanted module defines it by |
| Binder.Pass2 | drive_c/BUILD/BIND/BIND.C:560-662 | the wanted modules one after another, each from the base pass 1 gave it |
| Binder.LinkLocal | drive_c/BUILD/BIND/BIND.C:576-587 | no fixup of a module reaches back before it, so linking after others is linking alone at that base |
| Binder.ModuleLoaded | drive_c/BUILD/BIND/BIND.C:645-662 | of a loaded program each wanted module is in memory as linked at its own base |
| Binder.LinkProgram | drive_c/BUILD/BIND/BIND.C:335-372 | both passes: the image is each wanted module linked at its base with every label resolved |
| Binder.OwnLabel | drive_c/BUILD/BIND/BIND.C:560-569 | the address a label is resolved to is its module's base plus its offset, whether it is local or has a name |
| Binder.AcrossModules | drive_c/BUILD/BIND/BIND.C:576-587 | and a name used in one module has that address of the label that defines it in another |
| Chain.ObjectWellFormed | drive_c/BUILD/GEN/GEN6.C:1357-1400 | object code of such items, in any runs, has a word of its own module before every fixup |
| Chain.CodeMarks | drive_c/BUILD/GEN/GEN6.C:1299-1307 | what `flush` writes has two bytes before every fixup |
| Chain.LinkStretch | drive_c/BUILD/BIND/BIND.C:560-662 | a stretch of a module's code is linked as if it stood alone where it stands |
| Chain.RunningProgram | drive_c/BUILD/BIND/BIND.C:447-662 | end to end, from records in any chunks through `flush`, any object file that has what it writes, and both passes, to the loaded program: every jump of the stretch goes, if taken, to its label's record, or to the address its label is resolved to in the module that defines it, and otherwise to what follows |
| FreeStack.RepPop | drive_c/XV6/KERNEL/KEN/ALLOC.C:58-76 | the superblock's entries and the chained blocks stand for one stack; taking the top entry, reloading from the chain when it was the last, pops it |
| FreeStack.RepPush | drive_c/XV6/KERNEL/KEN/ALLOC.C:96-121 | adding an entry pushes it |
| FreeStack.RepSpill | drive_c/XV6/KERNEL/KEN/ALLOC.C:108-116 | spilling a full superblock into the block being freed pushes that block |
| FreeStack.RepFrame | drive_c/XV6/KERNEL/KEN/ALLOC.C:45-121 | writing any block that is not on the list leaves the list as it was |
| Volume.Volume.Mount | drive_c/XV6/KERNEL/KEN/ALLOC.C:13-33 | the sizes and the list as the superblock has them |
| Volume.Volume.Alloc | drive_c/XV6/KERNEL/KEN/ALLOC.C:45-84 | the top of the stack comes off, zeroed on the disk, or 0 when the stack is empty; unusable numbers are passed over |
| Volume.Volume.Free | drive_c/XV6/KERNEL/KEN/ALLOC.C:92-121 | a number in range goes on top, no block lost and none there twice; one out of range is refused |
| BlockMap.LookupInjective | drive_c/XV6/KERNEL/KEN/SUBR.C:66-116 | in a sound file different logical blocks below 32768 have different disk blocks |
| BlockMap.GrownIsSound | drive_c/XV6/KERNEL/KEN/SUBR.C:40-116 | a fresh block put in at any one place keeps the file sound |
| BlockMap.Converted | drive_c/XV6/KERNEL/KEN/SUBR.C:44-60 | the conversion from small to large keeps every logical block where it is, beyond the eighth too, and the file sound |
| Inodes.MoveAddresses | drive_c/XV6/KERNEL/KEN/SUBR.C:50-56 | the addresses go to the start of the indirect block, zeros after, and the inode's are cleared |
| Inodes.Bmap | drive_c/XV6/KERNEL/KEN/SUBR.C:11-116 | no other logical block moves, blocks leave the free list only for the file, only blocks of the file and of the list are written; the block found is what the map then says; 0 if and only if the list was too short; exactly when an indirect block is left unwritten, and which; and the read-ahead hint |
| Inodes.OtherFileStands | drive_c/XV6/KERNEL/KEN/SUBR.C:11-116 | another file sharing no block with this one keeps all its contents and still shares none |
| Inodes.TornShows | drive_c/XV6/KERNEL/KEN/SUBR.C:75-98 | through an indirect block left unwritten, at either level, the file's blocks are whatever words were on the disk |
| Inodes.TornExample | drive_c/XV6/KERNEL/KEN/SUBR.C:75-98 | a mounted volume and a call of `bmap` after which a file has the superblock for one of its blocks |
| Truncate.FreeLeaf | drive_c/XV6/KERNEL/KEN/IGET.C:173-181 | the blocks named by a second indirect block are freed, last to first, ending at the zero word after the buffer |
| Truncate.FreeIndirect | drive_c/XV6/KERNEL/KEN/IGET.C:166-187 | all that is reached through one address is freed |
| Truncate.Itrunc | drive_c/XV6/KERNEL/KEN/IGET.C:158-192 | the list gains exactly the file's data and indirect blocks, each once, on top of what was there; nothing else is written but chain links, and the file is empty |
| Mkfs.PackedWords | scripts/mkfs.py:336-339 | words packed low byte first and read back are the same words |
| Mkfs.FreeList.Give | scripts/mkfs.py:341-346 | a number goes on the stack, spilling into its own block when the list is full |
| Mkfs.FreeList.Take | scripts/mkfs.py:348-358 | the top of the stack, or the error when the 0 at the bottom comes up |
| Mkfs.FreeList.Fill | scripts/mkfs.py:360-364 | afterwards blocks come out as isize+2, isize+3 and so on to fsize-1, and then no more |
| Mkfs.WriteContent | scripts/mkfs.py:369-384 | the contents are in fresh blocks, padded, and the addresses returned make a file the kernel's map reads them back from; or the error, when they are too many |
| Mkfs.FileReadsBack | drive_c/XV6/KERNEL/KEN/SUBR.C:25-116 | block i of a file laid out by the builder, found by the kernel's rules, holds bytes 512i on of its contents |
| Builder.InodeReads | drive_c/XV6/KERNEL/KEN/IGET.C:73-78 | the bytes the builder packs for an inode, in the place it puts them, are what `iget` reads for that number |
| Builder.OtherInodes | scripts/mkfs.py:315-320 | and no other inode is touched |
| Builder.WriteNode | scripts/mkfs.py:387-401 | an entry's contents and inode, as many blocks as it needs off the list, or exactly which error; only its own inode and those blocks are written |
| Builder.WriteNodes | scripts/mkfs.py:387-438 | done if and only if every entry fits and their blocks are no more than are free, and otherwise the error of the first that does not fit; and then in every inode the kernel finds the entry's fields, the size and, by its own map, the contents, no two files sharing a block |
| Builder.WriteSuper | scripts/mkfs.py:404-408 | the superblock gives the kernel the sizes and the very stack of free blocks the builder was left with |
| Builder.Build | scripts/mkfs.py:411-440 | the whole volume, if and only if the geometry is good and the entries fit its data blocks; used and free blocks together are all of those, and boot sector and swap area are as they should be |
| Builder.ByteReads | drive_c/XV6/KERNEL/KEN/SUBR.C:25-116 | byte by byte, what the kernel reads of a file up to the size it finds is what the file was built from |
| Builder.DeviceNumber | scripts/mkfs.py:390-392 | the kernel takes a device's two numbers apart as they were given |
| Mounted.Mount | drive_c/XV6/KERNEL/KEN/ALLOC.C:13-33 | the builder's image mounts, and the kernel's free list is the builder's |
| Mounted.Open | drive_c/XV6/KERNEL/KEN/IGET.C:55-79 | a file of it opened is one that `bmap` can work on, sound and apart from the free list |
| Mounted.ReadBlock | drive_c/XV6/KERNEL/KEN/SUBR.C:11-116 | block b of it, found by the kernel's `bmap`, holds the words of bytes 512b on |
| Mounted.BuildAndRead | scripts/mkfs.py:411-440 | for all entries: what fits is built, and then every block of every file is read back by the kernel as what it was built from |
| CacheSearch.SearchTakesOldestClean | drive_c/XV6/KERNEL/DMR/BIO.C:252-275 | for a block not cached, getblk comes out with the oldest clean buffer, having started the delayed writes ahead of it in order, and sleeps only if there is no clean one |
| CacheSearch.FlushedLists | drive_c/XV6/KERNEL/DMR/BIO.C:454-470 | bflush starts exactly the delayed writes of the device, oldest first, and leaves the rest of the available list in order |
| CacheSearch.FlushedBufs | drive_c/XV6/KERNEL/DMR/BIO.C:454-470 | the buffers written keep their block and contents, and the others everything |
| Rings.Unlinked | drive_c/XV6/KERNEL/DMR/BIO.C:308-309 | the two assignments take a buffer out of a circular doubly linked list |
| Rings.Appended | drive_c/XV6/KERNEL/DMR/BIO.C:181-188 | the four assignments put it in at the tail |
| Rings.Pushed | drive_c/XV6/KERNEL/DMR/BIO.C:269-272 | the four assignments put it in at the front |
| CacheLists.TakenAv | drive_c/XV6/KERNEL/DMR/BIO.C:299-312 | a buffer taken off the available list, and no other, becomes busy |
| CacheLists.Enqueued | drive_c/XV6/KERNEL/DMR/RK.C:31-37 | a busy buffer threaded through its available pointer is at the end of the disk queue |
| CacheLists.MovedDev | drive_c/XV6/KERNEL/DMR/BIO.C:267-274 | a buffer given to another device is on that device's list and on no other |
| BufferCache.Cache.constructor | drive_c/XV6/KERNEL/DMR/BIO.C:355-385 | every buffer is available, in order, and on the list of no device |
| BufferCache.Cache.TakeOff | drive_c/XV6/KERNEL/DMR/BIO.C:299-312 | notavail, in place, is its specification and keeps the lists well formed |
| BufferCache.Cache.Brelse | drive_c/XV6/KERNEL/DMR/BIO.C:166-190 | brelse, likewise, and whom it wakes |
| BufferCache.Cache.Strategy | drive_c/XV6/KERNEL/DMR/RK.C:14-41 | rkstrategy puts the request at the end of the queue and the drive is active if and only if there is one |
| BufferCache.Cache.Rkintr | drive_c/XV6/KERNEL/DMR/RK.C:77-89 | the interrupt completes the first request and starts the next; a stray one does nothing |
| BufferCache.Cache.Bwrite | drive_c/XV6/KERNEL/DMR/BIO.C:108-124 | bwrite up to its wait |
| BufferCache.Cache.StartBread | drive_c/XV6/KERNEL/DMR/BIO.C:56-61 | flags and request as in bread and in breada's read-ahead |
| BufferCache.Cache.GetblkOnce | drive_c/XV6/KERNEL/DMR/BIO.C:230-276 | once round the loop of getblk, in place, is its specification |
| BufferCache.Cache.Getblk1 | drive_c/XV6/KERNEL/DMR/BIO.C:220-276 | the restarts end, and come to the search the specification describes |
| BufferCache.Cache.Bflush | drive_c/XV6/KERNEL/DMR/BIO.C:454-470 | the restarts end, and come to the flush the specification describes |
| Coherence.NextKeepsInv | drive_c/XV6/KERNEL/DMR/BIO.C:50-333 | every step of any process and every interrupt keeps the structure and the coherence of the cache |
| Coherence.RunKeepsInv | drive_c/XV6/KERNEL/DMR/BIO.C:50-333 | so does every run |
| Coherence.BreadSeesLastWrite | drive_c/XV6/KERNEL/DMR/BIO.C:50-64 | in every run, when bread returns, the buffer holds what was last given to any write of that block, or the disk's first contents if there was none |
| Coherence.NoLostWakeup | drive_c/XV6/KERNEL/DMR/BIO.C:241-257 | whoever sleeps on a buffer sleeps on one that somebody has, and its release wakes him; on the list, only when it is empty, and any release wakes him; who waits for a transfer waits for one in the queue, and its completion wakes him |
| Coherence.RestartsEnd | drive_c/XV6/KERNEL/DMR/BIO.C:261-265 | each restart of getblk or bflush leaves strictly fewer delayed writes on the available list |
| Coherence.QuietDiskIsRight | drive_c/XV6/KERNEL/DMR/BIO.C:454-470 | with nothing queued and no write delayed the disk has the last contents of every block |
| Pipe.NextKeepsInv | drive_c/XV6/KERNEL/KEN/PIPE.C:55-218 | every step of any reader or writer keeps the invariant of lock, sizes, data and sleepers |
| Pipe.RunKeepsInv | drive_c/XV6/KERNEL/KEN/PIPE.C:55-218 | so does every run without the one bad close |
| Pipe.BytesInOrder | drive_c/XV6/KERNEL/KEN/PIPE.C:76-179 | in every run the bytes read are a prefix of those written, at most 4096 behind, with 0 <= offset <= size <= 4096 |
| Pipe.EndOfFileIsTheEnd | drive_c/XV6/KERNEL/KEN/PIPE.C:92-94 | a read returns nothing only when all that was written has been read and no writer is left |
| Pipe.BrokenPipe | drive_c/XV6/KERNEL/KEN/PIPE.C:144-149 | a write gives up only when no reader is left |
| Pipe.WhyAsleep | drive_c/XV6/KERNEL/KEN/PIPE.C:92-162 | readers never sleep for data while writers sleep for room; a sleeper on the lock waits for someone moving bytes; nobody sleeps for an end that is closed |
| Pipe.NeverAllAsleep | drive_c/XV6/KERNEL/KEN/PIPE.C:55-180 | the processes with the pipe open are never all asleep |
| Pipe.WritingWakes | drive_c/XV6/KERNEL/KEN/PIPE.C:174-178 | a writer that has moved its bytes leaves no reader asleep for data |
| Pipe.DrainingWakes | drive_c/XV6/KERNEL/KEN/PIPE.C:76-84 | a reader that finds the pipe read out leaves no writer asleep for room |
| Pipe.CloseIsSafe | drive_c/XV6/KERNEL/KEN/FIO.C:44-53 | a close keeps the invariant if and only if it is not that of the last writer while one of several readers is reading |
| Pipe.CloseHarmsIff | drive_c/XV6/KERNEL/KEN/FIO.C:44-53 | and it is otherwise, and only otherwise, that some run from it gives the readers more bytes than were written |
| Pipe.ReadTwice | drive_c/XV6/KERNEL/KEN/IGET.C:106-107 | from any such close, whatever the readers are doing, reads alone give all from the readers' offset on, what the interrupted reader had had of it included, and if that was nothing some of it twice over |
| Pipe.WrongCloseHappens | drive_c/XV6/KERNEL/KEN/FIO.C:44-53 | a run to such a close from any new pipe with two readers and one writer |
| Rmap.SameUnitsSameList | drive_c/XV6/KERNEL/KEN/MALLOC.C:2-12 | two maps with the same units free are the same list |
| Rmap.TakenIs | drive_c/XV6/KERNEL/KEN/MALLOC.C:33-41 | allocation removes exactly the units it returns and keeps the list sorted, apart and coalesced |
| Rmap.GivenIs | drive_c/XV6/KERNEL/KEN/MALLOC.C:63-86 | freeing adds exactly the units named and keeps the list so |
| Rmap.TakeGive | drive_c/XV6/KERNEL/KEN/MALLOC.C:25-87 | what was just allocated, freed, restores the identical list |
| Rmap.GiveInAnyOrder | drive_c/XV6/KERNEL/KEN/MALLOC.C:53-87 | two frees in either order leave the identical list |
| Rmap.Map.Malloc | drive_c/XV6/KERNEL/KEN/MALLOC.C:25-45 | first fit, in place, with nothing but zero sizes after the end; 0 if and only if no run is long enough |
| Rmap.Map.Mfree | drive_c/XV6/KERNEL/KEN/MALLOC.C:53-87 | in place, in all five cases, 16-bit wrap included |
| Callout.TimeoutStands | drive_c/XV6/KERNEL/KEN/CLOCK.C:129-160 | a timeout of no ticks or more adds its deadline after those not later and moves no other |
| Callout.ClockStands | drive_c/XV6/KERNEL/KEN/CLOCK.C:34-66 | one interrupt runs the routines that are due in order, and the table stands for the rest and for what they asked for |
| Callout.RunStands | drive_c/XV6/KERNEL/KEN/CLOCK.C:34-160 | through any timeouts and ticks the table of differences stands for the set of deadlines |
| Callout.RunsOnTheTick | drive_c/XV6/KERNEL/KEN/CLOCK.C:118-160 | a routine asked for t >= 1 ticks on runs on exactly the t-th tick after, and once, whatever else is asked for, by other routines too |
| Callout.RunOnTime | drive_c/XV6/KERNEL/KEN/CLOCK.C:34-66 | in every run all routines run at their time, ties in the order they were asked for, and none is lost |
| Callout.NegativeDelaysAll | drive_c/XV6/KERNEL/KEN/CLOCK.C:129-160 | a timeout for -d ticks runs on the next, first, and all that was set, is set until then, or is set by the routines that run then is d ticks late |
| Callout.OnTimeIffNotPast | drive_c/XV6/KERNEL/KEN/CLOCK.C:129-160 | for every entry, any timeout and any run after: the entry's routine runs once, at its own time if and only if the timeout was not for a time already past, or was by one tick and the entry was due at once |
| Callout.Table.Timeout | drive_c/XV6/KERNEL/KEN/CLOCK.C:129-160 | the insertion in place, for any time |
| Callout.Table.Clock | drive_c/XV6/KERNEL/KEN/CLOCK.C:34-66 | the decrement, the routines that run while the table is being walked, and the closing up, in place |
| Clists.Pool.Putc | drive_c/XV6/KERNEL/DMR/TTY.C:612-656 | a byte goes on the end of one queue and no other queue changes; -1 if and only if it would need a block and none is free |
| Clists.Pool.Getc | drive_c/XV6/KERNEL/DMR/TTY.C:575-610 | the first byte comes off one queue and no other changes; -1 if and only if it is empty; every block stays free or in one queue |
| Clists.Pool.constructor | drive_c/XV6/KERNEL/DMR/TTY.C:163-173 | all the blocks free and all the queues empty |
| LineEditor.ErasedAndKilled | drive_c/XV6/KERNEL/DMR/TTY.C:223-251 | without escapes, the line is what is left when, looking only at what comes after, every erase takes the nearest character before it still there and a kill all of them |
| LineEditor.KillForgets | drive_c/XV6/KERNEL/DMR/TTY.C:237-238 | what was typed before a kill that is not escaped makes no difference, unless the same character is the erase |
| LineEditor.QuotedReads | drive_c/XV6/KERNEL/DMR/TTY.C:242-246 | a text typed with escapes where they are called for comes out as it was meant |
| LineEditor.WhatCanBeTyped | drive_c/XV6/KERNEL/DMR/TTY.C:10-35 | keys that can be typed give a text, before the end of its line, if and only if each character of it is a key after a backslash, a key that does nothing else, or what some escape stands for |
| LineEditor.WhatCanBeRead | drive_c/XV6/KERNEL/DMR/TTY.C:223-257 | and so which texts, with the character that ends them, a line within the buffer can be, newline and EOT being neither erase nor kill |
| LineEditor.UsualCharacters | drive_c/XV6/KERNEL/H/TTY.H:48-50 | with `#` and `@`, on a terminal with both cases, just the texts of keys can be typed |
| Terminal.KeysArePut | drive_c/XV6/KERNEL/DMR/TTY.C:276-289 | in the cooked mode the characters put without a flush are just the keys and the two that end a line |
| Terminal.OneLine | drive_c/XV6/KERNEL/DMR/TTY.C:223-251 | of a line shorter than the buffer exactly the edited line is passed on |
| Terminal.CountIffNoFlush | drive_c/XV6/KERNEL/DMR/TTY.C:225-229 | any step keeps `t_delct`, eight bits wide, the number of delimiters in the raw queue, if and only if it is not a flush between taking one and counting it |
| Terminal.CountTells | drive_c/XV6/KERNEL/DMR/TTY.C:217-221 | the count is zero if and only if there is no whole line |
| Terminal.MiscountSkews | drive_c/XV6/KERNEL/DMR/TTY.C:183-199 | that flush leaves the count one short |
| Terminal.SkewStays | drive_c/XV6/KERNEL/DMR/TTY.C:183-199 | a short count stays so through every step but another flush, which puts it right |
| Terminal.SkewMisleads | drive_c/XV6/KERNEL/DMR/TTY.C:217-229 | with it, a read with nothing typed ends at once and empty, and one with a whole line typed sleeps |
| Terminal.MiscountHappens | drive_c/XV6/KERNEL/DMR/TTY.C:279-283 | a run that comes to it |
| Terminal.NextTold | drive_c/XV6/KERNEL/DMR/TTY.C:207-295 | every step, flushes outside `canon` included, keeps what is passed on equal to the editor's result on what was taken |
| Terminal.FlushLeaves | drive_c/XV6/KERNEL/DMR/TTY.C:252-256 | a flush takes back everything if and only if nothing of a line is in hand |
| Terminal.NeverSleepsOnALine | drive_c/XV6/KERNEL/DMR/TTY.C:217-221 | in every run without that flush a reader never sleeps while a whole line is there, and begins on one just when there is |
| Terminal.ReaderSeesTheEdited | drive_c/XV6/KERNEL/DMR/TTY.C:207-295 | in every quiet run the reader is given exactly what the editor makes of what was typed, in order, and `canon` never finds the queue empty in the middle of a line |
| Tty.Device.Ttyinput | drive_c/XV6/KERNEL/DMR/TTY.C:267-290 | in place, what the machine's step does to the raw queue and the count; when the first byte found no block the delimiter finds none |
| Tty.Device.Flushtty | drive_c/XV6/KERNEL/DMR/TTY.C:183-199 | the three queues empty, and the count zero |
| Tty.Device.EditChar | drive_c/XV6/KERNEL/DMR/TTY.C:230-248 | a character into `canonb`, the two bytes before the line standing in for its start |
| Tty.Device.Canon | drive_c/XV6/KERNEL/DMR/TTY.C:223-257 | the first line of the raw queue comes off, and edited goes on the canonical queue, all of it unless the blocks run out |
| SwapImage.SwSize | drive_c/XV6/KERNEL/DMR/PC.C:48-79 | for every 16-bit break and stack pointer the two runs do not overlap, cover the u-area, all below the break and all from the stack pointer up, with no page too many below |
| SwapImage.Store.RoundTrip | drive_c/XV6/KERNEL/DMR/PC.C:86-98 | out and in again to another place restores both ends |
| SwapImage.Store.SwapIn | drive_c/XV6/KERNEL/KEN/SLP.C:253-259 | the runs are read to the two ends of the block, the hole is zeroed, and nothing outside the block changes |
| SwapImage.Store.Trip | drive_c/XV6/KERNEL/KEN/SLP.C:229-259 | a whole trip to units of the swap map and back to any place in core: all that the process holds is restored, and the map is the identical list; it fails if and only if no run of units is long enough |
| Sleepers.Table.Wakeup | drive_c/XV6/KERNEL/KEN/SLP.C:63-79 | those and only those asleep on the channel are made ready, and the scheduler too if it waits for someone to bring in and one of them is out |
| Sleepers.Table.SetRun | drive_c/XV6/KERNEL/KEN/SLP.C:84-98 | the same for one process |
| Sleepers.WokenKeepsInv | drive_c/XV6/KERNEL/KEN/SLP.C:63-98 | after a wakeup of anyone the scheduler does not sleep while a process that is ready is out of core |
| Sleepers.Table.GoToSleep | drive_c/XV6/KERNEL/KEN/SLP.C:14-50 | nor after a sleep; one that may be swapped wakes the scheduler if it waits for room |
| Sleepers.Table.PutOut | drive_c/XV6/KERNEL/KEN/TEXT.C:32-38 | nor after a process is put out |
| Sleepers.Table.WakeAll | drive_c/XV6/KERNEL/KEN/SLP.C:63-98 | a wakeup from anywhere: nobody is left asleep on the channel, no other process is touched, and the scheduler is not left out |
| Sleepers.Table.Second | drive_c/XV6/KERNEL/KEN/CLOCK.C:106-109 | once a second the scheduler that waits for room is woken |
| Sleepers.Table.FindReady | drive_c/XV6/KERNEL/KEN/SLP.C:159-172 | the ready process longest out, the first of several, or that there is none |
| Sleepers.Table.FindCore | drive_c/XV6/KERNEL/KEN/SLP.C:181-191 | core for a process and for its text, both by first fit, or the identical map |
| Sleepers.Table.MakeRoom | drive_c/XV6/KERNEL/KEN/SLP.C:198-234 | who is put out, or that nobody can be |
| Sleepers.Table.Round | drive_c/XV6/KERNEL/KEN/SLP.C:155-250 | one round of the scheduler: it waits for someone exactly when nobody is ready and out; otherwise it brings in the longest out if there is core, or puts out the process the rules name, or waits |
| Librarian.LibraryOrder | drive_c/BUILD/LIB88/LIB88.C:80-90 | every module kept is written, in one round only, and there is a warning if and only if the dependencies go round in a circle |
| Librarian.InOrder | drive_c/BUILD/LIB88/LIB88.C:491-545 | without a warning the module that needs another is written in a strictly earlier round |
| Librarian.WarnsIffCyclic | drive_c/BUILD/LIB88/LIB88.C:526-538 | from any point of the loop, the warning comes if and only if there is a cycle |
| Librarian.FewerDeps | drive_c/BUILD/LIB88/LIB88.C:503-513 | every round with something to write leaves fewer dependencies, so the loop ends |
| Librarian.Tables.NextRound | drive_c/BUILD/LIB88/LIB88.C:491-545 | set_wants, over its arrays |
| Librarian.Tables.WriteAll | drive_c/BUILD/LIB88/LIB88.C:80-88 | the write loop writes those rounds and warns just then |
| EdStore.Store.PutLine | drive_c/XV6/USR/ED.C:733-758 | a line up to its newline is stored at the address returned and all other lines stand; when the file is full nothing is lost; the read buffer is never dirty and never holds the block being written |
| EdStore.Store.GetLine | drive_c/XV6/USR/ED.C:715-731 | exactly the text stored at that address, however it straddles blocks, the address's low bit set or not |
| EdStore.Store.GetWrite | drive_c/XV6/USR/ED.C:760-791 | getblock to write, in all its cases |
| EdStore.Store.GetRead | drive_c/XV6/USR/ED.C:760-791 | getblock to read, in all its cases |
| EdStore.NextAddress | drive_c/XV6/USR/ED.C:755-756 | the next address is beyond the line, on a multiple of four bytes, and in the last block or at its end |
| Patterns.BestIff | drive_c/XV6/USR/ED.C:1222-1304 | the backtracking search from a place finds a match if and only if there is one |
| Patterns.BestIsGreediest | drive_c/XV6/USR/ED.C:1291-1299 | the match it finds is the greediest: at the first closure where another match differs, this one is longer |
| EdMatch.Matcher.Cclass | drive_c/XV6/USR/ED.C:1306-1322 | whether a character is of a set, or is not, and never for the end of the line |
| EdMatch.Matcher.Advance | drive_c/XV6/USR/ED.C:1222-1304 | on the compiled form of any pattern, succeeds if and only if the search does, with its end and its numbered parts, failed attempts notwithstanding |
| EdMatch.Matcher.Closure | drive_c/XV6/USR/ED.C:1291-1299 | the furthest end of the closure from which the rest matches |
| EdMatch.Matcher.Execute | drive_c/XV6/USR/ED.C:1174-1220 | the leftmost place the search succeeds from, the quick test on the first character turning nothing away; a search from the start succeeds if and only if the pattern matches somewhere, and the match is leftmost, then greediest |
| Grep.MatchHere | drive_c/XV6/USR/GREP.C:89-102 | true if and only if the expression matches at that place |
| Grep.MatchStar | drive_c/XV6/USR/GREP.C:105-115 | true if and only if a run of the character followed by the rest matches |
| Grep.Match | drive_c/XV6/USR/GREP.C:75-86 | true if and only if some suffix of the text matches, or the text itself after a caret |

## Left out

- Pipe records of `flush` are values, not bytes in a buffer; their widths in bytes
  are modelled, and moving the left-over records down is a slice of a sequence.
- Even-align records of `flush`, the big memory model, and the diagnosed long forms
  of JCXZ and LOOP (types 18 and 19).
- Flusher.Flusher.Flush: takes the labels to fit the table of 227 and the pipe's
  records its 2048 bytes, as `test_flush` sees to.
- Binder.Pass1: which modules are wanted is given; the library heuristics, overlays,
  check-out records and symbol printing are not modelled.
- Binder.LinkModule: one segment; the data segment's window is the same code with
  another size, its labels are given, and seeks in the output file are left out.
- The grouping of code bytes into runs by `codeb` and `objb`: any grouping into runs
  of 1 to 127 bytes is allowed.
- Volume.Volume.Alloc: the superblock's locks and the in-core copy's write-back, and
  blocks busy in the cache, are not modelled; a cleared buffer counts as written.
- Inodes: the time stamps and device files of an inode.
- Builder.Build: the parser of prototypes and the numbering of entries; a directory's
  contents and links are given. Volumes of fewer than 65536 blocks, swap area included,
  as the kernel numbers blocks with 16 bits.
- The cache's error flag, raw and swap transfers through `swbuf`, interrupt levels
  other than that the regions they enclose are atomic, devices other than the RK,
  and requests beyond a device's end.
- BufferCache: processes are not part of the class; who sleeps and is woken is in
  `Coherence`.
- Pipe: signals, i/o errors, a file system full in the middle of a write, and
  several ends opened by name.
- Pipe.RunKeepsInv: excludes the one close that goes wrong, which `Pipe.ReadTwice`
  is about.
- Callout.RunsOnTheTick: routines that run are taken to ask for at least one tick;
  one that asks for none can keep the loop going for ever.
- Callout.Table.Timeout: times are unbounded integers.
- Tty.Device.Ttyinput: the echo and the signal sent; `ttyoutput` with its delays and
  columns, and output generally, are not modelled.
- Terminal: changes of mode while characters are queued, and interrupts inside a
  statement.
- SwapImage: the read of the break and stack pointer out of the stored u-area; they
  are parameters.
- Sleepers.Table.GoToSleep: the exits a signal makes, which end in code not shown here.
- Sleepers: signals, priorities but for `runrun`, the choice of whom to run, and the
  creation and end of processes.
- Librarian: finding the dependencies among public names, and the order of modules
  within a round, which is that of the library.
- EdStore: the line table, and errors of the temporary file itself.
- EdMatch: `compile`, whose output is described by `EdMatch.Code`; the substitution
  commands.
- Grep: reading lines into the buffer.
- The parser and code generators of the compiler, the debugger, the shell and other
  programs, device drivers, assembly sources.
