# State transfer, block layer, AES and CPU accounting of QEMU-KVM 0.14.1

A Dafny model of the parts of QEMU-KVM 0.14.1 whose correctness is hard to see from
the code, with proofs for all inputs and all interleavings.

* **Live RAM migration** (`RamStream`, `RamSender`, `RamMigration`, `RamHistory`). The sender scans
  dirty pages cyclically and writes a byte stream; the receiver reads it. Guest
  writes interleave with sending. The theorem `RamConverges` says that the receiver
  ends with the sender's memory; it goes through the byte stream itself. `Migrate`
  composes all three stages and reads the bytes back off the file.
* **Live block migration** (`BlockMigration`, `BlockSaver`, `BlockLoad`, `BlockHistory`). Bulk phase,
  asynchronous dirty phase and final phase as a transition system whose steps may
  come in any order the code allows; the loops of the code are proved to be runs of
  it. `ConvergesExactly` says which guarantees of the surroundings the code needs:
  exactly three. `Migrate` carries this through the code of a whole migration and the
  sections it writes to the receiver's images.
* **Block layer** (`IoVector`, `MultiwriteMerge`, `MultiwriteCallbacks`,
  `DirtyBitmap`, `ByteAccess`, `Commit`). Request merging and what it loses,
  completion counting, byte access over sectors with the dirty bitmap, and the
  commit of an overlay.
* **Buffered migration file** (`BufferedFile`). FIFO over every backend.
* **AES** (`AesField`, `AesCipher`, `AesTables`, `AesKeys`, `AesCbc`, `AesFips`). The cipher and
  its equivalent inverse over any S-box with an inverse, the table-driven code, the
  key schedules and CBC mode, all proved equal to the standards written down byte by
  byte (`AesFips`).
* **CPUs** (`Vcpu`, `TbLookup`, `Icount`). Pause protocol and work queues,
  translation-block lookup, instruction budget.

Code that updates objects in place is modelled by classes and methods; each method is
proved equal to a function on the state before it, and the promises are proved about
those functions, over whole runs where the code runs for long. For both
migrations, the CPUs and the multiwrite callbacks the state is also proved to be what
the events before it make it (`EventsDecide`, `CallbacksOnce`), so that no step can
skip part of its work.

## Where the code does not keep what one would expect

Each of these has a concrete example and the exact condition.

* Block migration converges only if no write is in flight when tracking starts, bulk
  reads of a chunk are complete before the dirty phase reads it (they set no in-flight
  bit), and the rate limit has not stopped the flush in front of the last stage.
* Merging drops the end of a request that contains a later one.
* CBC decryption of a partial block leaves the decrypted block as ivec, encryption the
  ciphertext block.
* `buffered_put_buffer` goes on writing new data after the flush in front of it failed,
  and drops data when a direct write fails; `buffered_close` does not end over a backend
  that is never ready again.
* Enabling dirty tracking twice restarts the count over the old bitmap; an update of no
  sectors still touches a chunk.
* A commit into a backing image that was opened read-only reports success after a
  failed loop.

## Model

| member | source | states |
|---|---|---|
| RamStream.SyncBlocksReadsList | qemu-kvm-0.14.1/arch_init.c:287-293 | reading back the block list that stage 1 writes accepts it, consumes exactly its bytes and ends exactly when the announced total reaches zero, for any list the receiver has |
| RamStream.SyncBlockList | qemu-kvm-0.14.1/arch_init.c:392-416 | the receiver's block-list loop: its outcome (accepted, unknown block, wrong length, file too short) for every input, including totals that never reach zero |
| RamStream.PackedWord | qemu-kvm-0.14.1/arch_init.c:376-379 | page offset and flags packed into one word come apart again uniquely |
| RamStream.PageWordValue | qemu-kvm-0.14.1/arch_init.c:126-145 | the bitwise or of offset, CONTINUE and kind flags is their sum |
| RamStream.LoadOnePage | qemu-kvm-0.14.1/arch_init.c:420-449 | one page record, full or compressed, with or without CONTINUE, restores exactly the page and the remembered block the sender means |
| RamStream.LoadOneBlockList | qemu-kvm-0.14.1/arch_init.c:381-418 | one block-list record is read back whole and changes no memory |
| RamStream.LoadReadsSection | qemu-kvm-0.14.1/arch_init.c:366-456 | the receiver on an encoded section of any items does what replaying the items does, and stops exactly behind the end mark |
| RamStream.SyncBlocksRefuses | qemu-kvm-0.14.1/arch_init.c:401-413 | an encoded list with an unknown block or a wrong length gives -EINVAL |
| RamStream.LoadRefuses | qemu-kvm-0.14.1/arch_init.c:366-456 | behind items it can replay, the first item that means nothing to the receiver ends the load with the error of that item |
| RamStream.RecordBytes | qemu-kvm-0.14.1/arch_init.c:131-152 | the bytes of a page record: address and flags in one word, the name with its length unless CONTINUE is set, the data |
| RamStream.ListBytes | qemu-kvm-0.14.1/arch_init.c:287-293 | the bytes of a block list: the total with its flag, name and size |
| RamStream.EndBytes | qemu-kvm-0.14.1/arch_init.c:329 | the bytes of the end mark |
| RamStream.StorePage | qemu-kvm-0.14.1/arch_init.c:336-361 | storing a page succeeds iff the page lies in the block, changes that page alone and remembers the block |
| RamStream.RamLoader.RamLoad | qemu-kvm-0.14.1/arch_init.c:366-456 | the loop over a file leaves memory, remembered block, rest of the file or error as the reading function says |
| RamSender.IsDupPage | qemu-kvm-0.14.1/arch_init.c:93-106 | the word-wise test answers whether all 4096 bytes equal `ch` |
| RamSender.WordOfOneByte | qemu-kvm-0.14.1/arch_init.c:93-106 | a 32-bit word equals the byte replicated four times iff each of its bytes does |
| RamSender.AddrInjective | qemu-kvm-0.14.1/arch_init.c:111-173 | in a layout of non-overlapping blocks a dirty-flag index belongs to one page only |
| RamSender.NextRank | qemu-kvm-0.14.1/arch_init.c:157-165 | the step of the scan is "plus one, wrapping round" on the rank of a page among all pages |
| RamSender.WalkReturns | qemu-kvm-0.14.1/arch_init.c:123-167 | the scan is back at its start after exactly as many steps as there are pages, never before |
| RamSender.WalkMeets | qemu-kvm-0.14.1/arch_init.c:111-173 | a turn of the scan meets every page |
| RamSender.TurnCoversAll | qemu-kvm-0.14.1/arch_init.c:123-172 | if a whole turn found no dirty page there is none anywhere |
| RamSender.FirstDirtyUnique | qemu-kvm-0.14.1/arch_init.c:111-173 | "first dirty page in cyclic order" names one page |
| RamSender.RamSaver.Scan | qemu-kvm-0.14.1/arch_init.c:113-170 | the do-while scan terminates and finds the first dirty page in cyclic order, or none exists and the position is where it started |
| RamSender.RamSaver.SaveBlock | qemu-kvm-0.14.1/arch_init.c:111-173 | returns 0 iff no page is dirty; otherwise puts the record of the first dirty page in cyclic order, clears that flag only and remembers the position |
| RamSender.RamSaver.PutPage | qemu-kvm-0.14.1/arch_init.c:124-152 | appends exactly the encoded record of the page and clears its flag |
| RamSender.RamSaver.PutName | qemu-kvm-0.14.1/arch_init.c:136-140 | puts the block name iff the page does not continue the last block |
| RamSender.Squeeze | qemu-kvm-0.14.1/arch_init.c:131-148 | either form stands for the bytes of the page, and the short one is used exactly for a page of one repeated byte |
| RamMigration.SaveTied | qemu-kvm-0.14.1/arch_init.c:111-173 | sending a page keeps: every page is dirty, logged, or current at the receiver, and CONTINUE means the receiver's remembered block |
| RamMigration.WriteTied | qemu-kvm-0.14.1/arch_init.c:261-264 | a guest write at any moment keeps it |
| RamMigration.StepInv | qemu-kvm-0.14.1/arch_init.c:249-334 | every step of the transition system keeps the invariant between sender and replayed stream |
| RamMigration.SectionsReplay | qemu-kvm-0.14.1/arch_init.c:366-456 | reading any number of sections, one call each, is replaying all their items in order |
| RamMigration.RamConverges | qemu-kvm-0.14.1/arch_init.c:249-334 | for every interleaving of guest writes, log syncs and sends, once a stopped guest has no dirty page left, loading the whole byte stream makes every block of the receiver equal to the sender's and touches no other block |
| RamMigration.MarkAllDirty | qemu-kvm-0.14.1/arch_init.c:273-282 | afterwards every page of every block is dirty, and nothing else changed |
| RamMigration.PutBlockList | qemu-kvm-0.14.1/arch_init.c:287-293 | puts exactly the encoded block list |
| RamMigration.SaveBlocks | qemu-kvm-0.14.1/arch_init.c:299-307 | the sending loop is a run of the transition system and appends exactly the records of that run; it sends as many pages as the limit lets through, fewer only when nothing is dirty any more |
| RamMigration.SaveLive | qemu-kvm-0.14.1/arch_init.c:249-334 | each stage is a run of the transition system that ends a section; the bytes put are the encoded section; stages 1 and 2 send as many pages as the limit lets through unless nothing is left dirty, after stage 3 nothing is dirty |
| RamMigration.GuestRuns | qemu-kvm-0.14.1/arch_init.c:261-264 | any number of guest writes between two calls is a run of the transition system |
| RamMigration.RoundOf | qemu-kvm-0.14.1/arch_init.c:249-334 | the guest runs and one more stage follows: still one run from the start, with one more section on the file; after stage 3 nothing is dirty or logged |
| RamMigration.FileReplays | qemu-kvm-0.14.1/arch_init.c:366-456 | sections read one after the other off one file replay all their items and leave nothing over |
| RamMigration.FinishedArrives | qemu-kvm-0.14.1/arch_init.c:366-456 | once a run has ended with nothing dirty, every receiver that reads the sections off the file ends with the memory of the sender, its other blocks kept |
| RamMigration.Migrate | qemu-kvm-0.14.1/arch_init.c:249-334 | stage 1, any number of rounds of stage 2 with guest writes in between, and stage 3: any receiver with these blocks that reads the bytes of the file ends with the memory of the sender, its other blocks as they were |
| RamHistory.EventsDecide | qemu-kvm-0.14.1/arch_init.c:111-173 | in every run from stage 1 on: every page holds what was written last, its dirty and log bits are those of the writes, syncs and sends so far, and the stream is the block list and one record for every page sent, without a name exactly behind a page of the same block |
| BlockMigration.StepCounted | qemu-kvm-0.14.1/block-migration.c:192-208 | every step keeps: submitted is the number of outstanding reads, read_done the length of the list, submitted + read_done + transferred the reads issued, and the in-flight bits name outstanding reads |
| BlockMigration.RunCounted | qemu-kvm-0.14.1/block-migration.c:260-263 | these counts hold in every run, whatever the surroundings guarantee |
| BlockMigration.TwoReadsExactly | qemu-kvm-0.14.1/block-migration.c:390-420 | no run ever has two outstanding reads of one chunk iff bulk reads are complete before the chunk is read again: bulk reads set no in-flight bit |
| BlockMigration.TwoWithoutDrainedBulk | qemu-kvm-0.14.1/block-migration.c:255-263 | a run with two outstanding reads of one chunk |
| BlockMigration.SendOrder | qemu-kvm-0.14.1/block-migration.c:464-494 | with drained bulk reads, in every run copies of a chunk go out in the order their reads were issued, and an in-flight bit is set exactly while a dirty-phase read of the chunk is outstanding; an undrained list loses copies but never reorders them |
| BlockMigration.StepInv | qemu-kvm-0.14.1/block-migration.c:382-447 | every step keeps: each chunk is dirty, under write, about to be read in the bulk phase, or the last copy issued for it is or will be current |
| BlockMigration.WriteDoneInv | qemu-kvm-0.14.1/block.c:2083-2092 | a write marked dirty only at its completion keeps that invariant: until then it counts as under write |
| BlockMigration.Converges | qemu-kvm-0.14.1/block-migration.c:558-638 | under the three guarantees every finished run leaves a stream that turns any destination of the same chunks into the source disk |
| BlockMigration.ConvergesExactly | qemu-kvm-0.14.1/block-migration.c:558-638 | all finished runs converge iff all three hold: no write in flight when tracking starts, bulk reads drained before the dirty phase reads a chunk, list of completed reads empty when the last stage reads |
| BlockMigration.LostWithoutDrainedList | qemu-kvm-0.14.1/block-migration.c:472-475 | a run whose rate-limited flush leaves a completed read behind, which the cleanup drops |
| BlockMigration.StaleWithoutQuietStart | qemu-kvm-0.14.1/block-migration.c:574-579 | a run with a write submitted before tracking was turned on, whose data never arrives |
| BlockMigration.StaleWithoutDrainedBulk | qemu-kvm-0.14.1/block-migration.c:390-420 | a run whose bulk read completes after a later read of the chunk, so that old data is sent last |
| BlockMigration.LoadedIsLast | qemu-kvm-0.14.1/block-migration.c:640-714 | what a stream leaves in a chunk is its last copy in the stream, or what was there |
| BlockHistory.EventsDecide | qemu-kvm-0.14.1/block-migration.c:209-462 | in every run under every guard the disks, both bitmaps, the reads in flight, the list, the stream and the open writes are what the events so far make them |
| BlockSaver.Saver.constructor | qemu-kvm-0.14.1/block-migration.c:284-333 | stage 1: the initial state of the transition system, cursors at zero, nothing written |
| BlockSaver.Saver.BlkSend | qemu-kvm-0.14.1/block-migration.c:86-100 | one message that carries exactly the copy, whatever lies behind a shorter last chunk |
| BlockSaver.Saver.ReadCb | qemu-kvm-0.14.1/block-migration.c:192-208 | a completion is the read-done step, and submitted stays non-negative as asserted |
| BlockSaver.Saver.SaveDeviceBulk | qemu-kvm-0.14.1/block-migration.c:210-273 | without a shared base: reads exactly the chunk at the cursor, which strictly advances, or reports that the device is done |
| BlockSaver.SkipUnallocated | qemu-kvm-0.14.1/block-migration.c:219-225 | over a shared base, whatever positive runs are reported: stops at the first allocated sector from the cursor on, or at the end |
| BlockSaver.NextBulkChunk | qemu-kvm-0.14.1/block-migration.c:213-265 | over a shared base the cursor strictly advances from chunk boundary to chunk boundary, and every allocated sector it passes lies in the chunk that is read |
| BlockSaver.Saver.SaveBulkedBlock | qemu-kvm-0.14.1/block-migration.c:330-369 | one bulk read at the cursor of the first device whose bulk phase is not complete, complete once its cursor is at the end, or all are complete; the percentage of completed sectors is put when it has changed |
| BlockSaver.Saver.Happens | qemu-kvm-0.14.1/block-migration.c:192-208 | a step outside the migration code (a read or write completes, a write is submitted or reaches the disk) keeps cursors, stream and the number of reads waiting, and never clears a dirty bit |
| BlockSaver.Saver.AioFlush | qemu-kvm-0.14.1/block-migration.c:391-393 | waiting for all requests is a run of completions in any order, with writes reaching the disk and more being submitted meanwhile; afterwards nothing is outstanding or in flight, nothing dirty was cleaned and nothing sent |
| BlockSaver.Saver.GuestRuns | qemu-kvm-0.14.1/block-migration.c:558-579 | any such steps between two calls are a run that leaves cursors, bulk phase and stream alone |
| BlockSaver.Saver.FlushBlks | qemu-kvm-0.14.1/block-migration.c:464-494 | sends the longest prefix of the list the rate limit allows, in order, as messages that carry it, and keeps the counts |
| BlockSaver.Saver.Settle | qemu-kvm-0.14.1/block-migration.c:391-393 | a chunk with its in-flight bit set is not read again before all requests are complete |
| BlockSaver.Saver.TakeDirty | qemu-kvm-0.14.1/block-migration.c:394-434 | takes one dirty chunk by the step of the phase, asynchronous read or synchronous send |
| BlockSaver.Saver.LookAt | qemu-kvm-0.14.1/block-migration.c:391-434 | one turn of the scan: waits if the chunk is in flight, and takes it exactly if it is dirty then |
| BlockSaver.Saver.SaveDeviceDirty | qemu-kvm-0.14.1/block-migration.c:382-447 | a run of the transition system: after waiting at most, the last event takes the chunk under the cursor, dirty at that moment, or the scan reaches the end with nothing taken; in both modes no chunk that was dirty at the call is passed |
| BlockSaver.Saver.SaveDirtyBlock | qemu-kvm-0.14.1/block-migration.c:449-462 | takes one chunk, dirty when taken, with the devices before it scanned to the end and those behind it untouched, or scans every device to the end; no chunk that was dirty at the call is passed, and in the last stage false means that nothing is dirty |
| BlockSaver.Saver.ResetDirtyCursor | qemu-kvm-0.14.1/block-migration.c:371-380 | every dirty cursor is zero and nothing else has changed |
| BlockSaver.Saver.StageTwoReads | qemu-kvm-0.14.1/block-migration.c:590-607 | the rate-controlled loop terminates and is a run of the transition system for every limit, in the bulk phase and behind it, stops only at the rate or when every device has been scanned, and issues no read beyond the rate; bulk reads are drained first if none is left, or if the rate is used up before the last one is issued |
| BlockSaver.Saver.StageTwo | qemu-kvm-0.14.1/block-migration.c:590-615 | the reads of stage 2 and the flush behind them are one run |
| BlockSaver.Saver.LastStage | qemu-kvm-0.14.1/block-migration.c:617-623 | the final loop terminates (dirty chunks, then sectors left) in a finished state with the disk untouched, and every chunk it takes is in the stream |
| BlockSaver.Saver.PutEos | qemu-kvm-0.14.1/block-migration.c:635 | what was put since the last end mark becomes a section, with one end mark, at its end |
| BlockSaver.Saver.SaveLive | qemu-kvm-0.14.1/block-migration.c:558-638 | one call of any stage is a run of the transition system that writes exactly one section; the messages of all sections carry exactly the copies sent; stage 3 leaves a finished state; only stage 2 with the bulk phase behind it says it is ready |
| BlockSaver.Migrate | qemu-kvm-0.14.1/block-migration.c:558-638 | stage 1, any rounds of stage 2 with the guest running in between, guest stopped, stage 3: whenever the two drains happen, reading the sections one by one gives any receiver the sender's devices; otherwise the ending names the drain that did not happen |
| BlockLoad.BlockLoad | qemu-kvm-0.14.1/block-migration.c:640-714 | the receiving loop leaves the images and the rest of the messages behind the end mark, or the error, as the reading function says, for every message list |
| BlockLoad.LoadReplacesChunk | qemu-kvm-0.14.1/block-migration.c:657-695 | a block message replaces exactly its chunk, cut at the end of the device |
| BlockLoad.MsgExactly | qemu-kvm-0.14.1/block-migration.c:654-693 | one message: unknown or empty device -EINVAL, a place behind the end of the device an error, otherwise exactly the sectors that exist are replaced |
| BlockLoad.LoadStopsExactly | qemu-kvm-0.14.1/block-migration.c:651-711 | behind messages that load, the first unknown device ends the load with -EINVAL, the first end mark ends it well, and a stream without one is an error |
| BlockLoad.LoadFollows | qemu-kvm-0.14.1/block-migration.c:640-714 | loading one section gives, sector for sector, what its copies say, and stops exactly behind its end mark |
| BlockLoad.TellsSplit | qemu-kvm-0.14.1/block-migration.c:657-695 | a stream cut anywhere tells its copies cut at the same place |
| BlockLoad.SectionsFollow | qemu-kvm-0.14.1/block-migration.c:640-714 | loading any number of sections, one call each, gives what all their copies say in order |
| BlockLoad.ImagesConverge | qemu-kvm-0.14.1/block-migration.c:640-714 | after a finished run under the three guarantees, loading its sections makes the destination's images equal the source's in every sector |
| DirtyBitmap.CountUpdate | qemu-kvm-0.14.1/block.c:956-967 | setting or clearing one bit moves the number of set bits by what changed |
| DirtyBitmap.UpdatedFills | qemu-kvm-0.14.1/block.c:952-968 | the loop sets exactly the bits from first to last and keeps a right count right |
| DirtyBitmap.RunCounts | qemu-kvm-0.14.1/block.c:943-969 | after any updates of a fresh bitmap the count is the number of set bits, and a chunk's bit is set iff the last update that met it was a write |
| DirtyBitmap.FlatUpdate | qemu-kvm-0.14.1/block.c:952-968 | changing one bit of one word changes exactly that chunk's bit |
| DirtyBitmap.ChunksExactly | qemu-kvm-0.14.1/block.c:949-952 | the chunks updated are those the range meets iff the range is non-empty, or empty at a chunk boundary other than sector 0 |
| DirtyBitmap.EmptyUpdateExample | qemu-kvm-0.14.1/block.c:949-952 | an update of no sectors that touches a chunk |
| DirtyBitmap.SwitchCountsExactly | qemu-kvm-0.14.1/block.c:2750-2771 | after switching tracking the count is right unless it was enabled again over a bitmap with bits set |
| DirtyBitmap.SwitchedBits | qemu-kvm-0.14.1/block.c:2750-2769 | off forgets the bitmap, off and on starts clean, on again keeps every bit |
| DirtyBitmap.RestartedCountExample | qemu-kvm-0.14.1/block.c:2754-2757 | a bitmap with one set bit whose count restarts at zero |
| DirtyBitmap.Bitmap.constructor | qemu-kvm-0.14.1/block.c:2757-2762 | a new bitmap has enough words for the chunks and no bit set |
| DirtyBitmap.Bitmap.SetDirtyBitmap | qemu-kvm-0.14.1/block.c:943-969 | bits and count are those of the loop; every chunk from first to last gets the bit, no other changes, and count minus number of set bits stays the same |
| DirtyBitmap.Bitmap.SetOne | qemu-kvm-0.14.1/block.c:952-968 | one round of the loop on word and bit |
| DirtyBitmap.TestChunk | qemu-kvm-0.14.1/block-migration.c:146-156 | answers the chunk's bit for a sector of the device, no for one beyond it |
| DirtyBitmap.AioBitmap.constructor | qemu-kvm-0.14.1/block-migration.c:180-190 | a new in-flight bitmap has no bit set |
| DirtyBitmap.AioBitmap.SetInflight | qemu-kvm-0.14.1/block-migration.c:158-178 | exactly the bits of the range change |
| ByteAccess.PreadFlat | qemu-kvm-0.14.1/block.c:999-1042 | through head, sectors and tail a byte read returns exactly the bytes of the flat image, or an error; without driver failures it succeeds iff the bytes exist, and is -EIO otherwise |
| ByteAccess.PwriteFlat | qemu-kvm-0.14.1/block.c:1044-1091 | a byte write lays exactly its bytes over the image and marks exactly the chunks of the sectors met; an error leaves a prefix of the bytes written and no sector marked that the data does not meet; without driver failures it succeeds iff the bytes exist |
| ByteAccess.SectorResults | qemu-kvm-0.14.1/block.c:930-997 | no medium, a read-only device, a range outside the device, or the answer of the driver |
| ByteAccess.ReadOnlyKept | qemu-kvm-0.14.1/block.c:983-984 | a write to a read-only device leaves image, marks and high-water mark alone and gives -EACCES, unless a sector to be read first does not exist |
| ByteAccess.NoMedium | qemu-kvm-0.14.1/block.c:981-982 | without a medium nothing happens and the result is -ENOMEDIUM |
| ByteAccess.ChangedIsDirty | qemu-kvm-0.14.1/block.c:988-996 | after any byte write, finished or failed, changed bytes lie in the range and in chunks now marked, and no mark is lost |
| ByteAccess.ReadBack | qemu-kvm-0.14.1/block.c:999-1091 | what a byte write wrote a byte read of the same range returns |
| ByteAccess.UpdateFlat | qemu-kvm-0.14.1/block.c:1059-1063 | read-modify-write of one sector is a patch of the flat image |
| ByteAccess.JoinedWrites | qemu-kvm-0.14.1/block.c:1058-1089 | two adjoining writes that meet at a sector boundary are one write: bytes, marks, high-water mark and errors |
| ByteAccess.BlockDevice.SetDirtyTracking | qemu-kvm-0.14.1/block.c:2750-2771 | switching tracking does to bits and count what the switch function says and leaves the image alone |
| ByteAccess.BlockDevice.GetDirty | qemu-kvm-0.14.1/block.c:2773-2785 | yes iff tracking is on, the sector is on the device and its chunk is marked |
| ByteAccess.BlockDevice.ResetDirty | qemu-kvm-0.14.1/block.c:2787-2791 | clears exactly the chunks from first to last and keeps the count right |
| ByteAccess.BlockDevice.CheckRequest | qemu-kvm-0.14.1/block.c:900-928 | the byte-wise check accepts exactly sector ranges inside the device |
| ByteAccess.BlockDevice.ReadSectors | qemu-kvm-0.14.1/block.c:930-941 | bdrv_read, including missing medium, range check and driver failure |
| ByteAccess.BlockDevice.NoteWrite | qemu-kvm-0.14.1/block.c:988-994 | marks the chunks of a write, keeps the count right and raises the high-water mark |
| ByteAccess.BlockDevice.WriteSectors | qemu-kvm-0.14.1/block.c:977-997 | bdrv_write: chunks are marked before the driver is asked, the image changes only if it succeeds |
| ByteAccess.BlockDevice.ReadThrough | qemu-kvm-0.14.1/block.c:1013-1017 | part of a sector read through a temporary buffer |
| ByteAccess.BlockDevice.ReadFromBoundary | qemu-kvm-0.14.1/block.c:1024-1040 | the whole sectors and the tail |
| ByteAccess.BlockDevice.ReadBytes | qemu-kvm-0.14.1/block.c:999-1042 | bdrv_pread fills the buffer with what the byte-read function says, or returns its error |
| ByteAccess.BlockDevice.UpdateSector | qemu-kvm-0.14.1/block.c:1059-1063 | read, overlay, write back of one sector |
| ByteAccess.BlockDevice.WriteFromBoundary | qemu-kvm-0.14.1/block.c:1071-1089 | the whole sectors and the tail |
| ByteAccess.BlockDevice.WriteBytes | qemu-kvm-0.14.1/block.c:1044-1091 | bdrv_pwrite does to image, marks and count what the byte-write function says |
| Commit.CommitKeepsView | qemu-kvm-0.14.1/block.c:818-839 | the guest sees the same sectors before and after a commit, whether it succeeded, failed half way, emptied the overlay or failed to |
| Commit.LoopDelivers | qemu-kvm-0.14.1/block.c:821-834 | however the driver cuts its runs, a loop without error leaves every allocated sector in the backing image |
| Commit.LoopFlattens | qemu-kvm-0.14.1/block.c:821-834 | after a loop without error the backing image alone shows the view of every sector |
| Commit.SuccessExactly | qemu-kvm-0.14.1/block.c:836-868 | a reported success means the data is in the backing image, for all images, iff the backing image was opened read-write or reopening it fails: reopening it read-only replaces the loop's error |
| Commit.LoopSucceedsExactly | qemu-kvm-0.14.1/block.c:821-834 | without failing requests the loop ends well exactly if the backing image has room for every allocated sector |
| Commit.RoundAnswers | qemu-kvm-0.14.1/block.c:822-832 | a run fails with -EIO exactly if its read fails, it does not fit the backing image, or its write fails, and uses one answer for each request made |
| Commit.CommitEmpties | qemu-kvm-0.14.1/block.c:836-866 | after a successful commit whose driver emptied the overlay no sector is allocated, otherwise the same sectors as before; and the result |
| Commit.CommitMovesAll | qemu-kvm-0.14.1/block.c:766-866 | without failures and with room, the whole view is in the backing image and nothing is allocated above it |
| Commit.LostErrorExample | qemu-kvm-0.14.1/block.c:848-868 | a failed read reported as success |
| Commit.Reported | qemu-kvm-0.14.1/block.c:1543-1568 | the reported run is positive, at most the size of the buffer, inside the image, and all in one state |
| Commit.ReportedAny | qemu-kvm-0.14.1/block.c:822 | any positive part of a run may be the one reported |
| Commit.Overlay.IsAllocated | qemu-kvm-0.14.1/block.c:1543-1568 | reports the sector's state and any positive part of its run |
| Commit.Overlay.CopyRun | qemu-kvm-0.14.1/block.c:824-833 | one run copied, or -EIO with the backing image as it was |
| Commit.Overlay.CommitLoop | qemu-kvm-0.14.1/block.c:821-834 | the loop ends in the images and the result of its specification |
| Commit.Overlay.CommitAll | qemu-kvm-0.14.1/block.c:818-868 | loop, emptying and reopening, each with any result, leave the images and the result of their specification |
| AesField.InvMixUndoesMix | qemu-kvm-0.14.1/aes.c:46-58 | InvMixColumns undoes MixColumns on every column, by the algebra of GF(2^8) |
| AesField.InvMixXor | qemu-kvm-0.14.1/aes.c:856-876 | InvMixColumns distributes over the round key, which the equivalent inverse cipher rests on |
| AesCipher.DecryptUndoesEncrypt | qemu-kvm-0.14.1/aes.c:980-1260 | for every block, every S-box with an inverse and any number of round keys from two up, the equivalent inverse cipher under reversed, transformed keys undoes the cipher (sections 5.1 and 5.3.5 of FIPS 197) |
| AesCipher.InvRoundsBack | qemu-kvm-0.14.1/aes.c:1171-1260 | after j inverse rounds the state is the cipher's state before its last j rounds |
| AesTables.WordsAreColumns | qemu-kvm-0.14.1/aes.c:901-904 | a big-endian word and a column are the same thing |
| AesTables.WordXor | qemu-kvm-0.14.1/aes.c:980-1069 | XOR of words is XOR of columns |
| AesTables.TeRoundIsRound | qemu-kvm-0.14.1/aes.c:980-1036 | four Te look-ups per column are SubBytes, ShiftRows, MixColumns and AddRoundKey |
| AesTables.TdRoundIsInvRound | qemu-kvm-0.14.1/aes.c:1171-1227 | four Td look-ups per column are the round of the equivalent inverse cipher |
| AesTables.Te4RoundIsLast | qemu-kvm-0.14.1/aes.c:1038-1069 | the last round's Te4 look-ups are SubBytes, ShiftRows and AddRoundKey |
| AesTables.Td4RoundIsLast | qemu-kvm-0.14.1/aes.c:1229-1260 | the last inverse round |
| AesTables.BlockRoundTrip | qemu-kvm-0.14.1/aes.c:901-904 | 16 bytes and a state of four columns convert both ways without loss |
| AesTables.Encrypt | qemu-kvm-0.14.1/aes.c:885-1070 | the loop that does two rounds a turn computes the cipher of section 5.1 of FIPS 197 |
| AesTables.Decrypt | qemu-kvm-0.14.1/aes.c:1076-1261 | the loop computes the equivalent inverse cipher |
| AesKeys.RconTable | qemu-kvm-0.14.1/aes.c:722-726 | the table holds the successive powers of x |
| AesKeys.Expand128 | qemu-kvm-0.14.1/aes.c:752-773 | fills 44 words with the key schedule of section 5.2 of FIPS 197 |
| AesKeys.Expand192 | qemu-kvm-0.14.1/aes.c:774-795 | fills 52 words with the schedule |
| AesKeys.Expand256 | qemu-kvm-0.14.1/aes.c:796-825 | fills 60 words with the schedule |
| AesKeys.AesKey.SetEncryptKey | qemu-kvm-0.14.1/aes.c:731-827 | for 128, 192 and 256 bits the right number of rounds and the schedule of the user key; otherwise -2 and nothing changed |
| AesKeys.AesKey.SetDecryptKey | qemu-kvm-0.14.1/aes.c:832-878 | the round keys are exactly those under which decryption undoes encryption with the same user key |
| AesKeys.TurnKeys | qemu-kvm-0.14.1/aes.c:846-876 | reversal and transformation in place give the decryption keys |
| AesKeys.ReverseKeys | qemu-kvm-0.14.1/aes.c:846-852 | the swap loop reverses the order of the round keys |
| AesKeys.TransformKeys | qemu-kvm-0.14.1/aes.c:853-876 | InvMixColumns on all round keys but the first and the last |
| AesKeys.TdTe4IsInvMix | qemu-kvm-0.14.1/aes.c:856-875 | Td after Te4 is InvMixColumns, because the inverse S-box cancels the S-box |
| AesKeys.ExpandedKeys | qemu-kvm-0.14.1/aes.c:752-825 | the words of an expanded key are the round keys of its schedule, in order |
| AesCbc.CbcRoundTrip | qemu-kvm-0.14.1/aes.c:1265-1314 | decrypting the encryption gives back the data, for data of every length |
| AesCbc.SameIvExactly | qemu-kvm-0.14.1/aes.c:1265-1314 | both directions leave the same ivec iff the length is a whole number of blocks or the cipher fixes the last, padded block |
| AesCbc.OtherIvExample | qemu-kvm-0.14.1/aes.c:1286-1312 | one byte for which the two directions leave different ivecs |
| AesCbc.EncryptedConcat | qemu-kvm-0.14.1/aes.c:1276-1294 | encrypting a concatenation is encrypting the parts in turn, the first of whole blocks |
| AesCbc.DecryptedConcat | qemu-kvm-0.14.1/aes.c:1295-1313 | the same for decryption |
| AesCbc.CbcEncrypt | qemu-kvm-0.14.1/aes.c:1276-1294 | the loop writes exactly the rounded-up ciphertext and the ivec, also with one buffer for input and output |
| AesCbc.CbcDecrypt | qemu-kvm-0.14.1/aes.c:1295-1313 | the loop writes exactly the plaintext and the ivec, also with one buffer for input and output |
| AesCbc.SetKeys | qemu-kvm-0.14.1/aes.c:731-878 | both set-ups on one user key: the schedule of the key, and that schedule turned round; any other key size is refused with both keys unchanged |
| AesCbc.DecryptedFront | qemu-kvm-0.14.1/aes.c:1295-1313 | decryption depends on the rounded-up part of the buffer alone |
| AesCbc.EncryptAndBack | qemu-kvm-0.14.1/aes.c:1265-1314 | set-up, encryption in place and decryption in place from one user key: in between the ciphertext under the schedule of the key, in the end the data again and the rest of the buffer untouched, for every key size and length |
| AesFips.BlockAt | qemu-kvm-0.14.1/aes.c:897-904 | byte 4c + r of a block is in row r and column c |
| AesFips.CipherIs | qemu-kvm-0.14.1/aes.c:885-1070 | the cipher is that of section 5.1 of FIPS 197 written down row by row and column by column |
| AesFips.InvCipherIs | qemu-kvm-0.14.1/aes.c:1076-1258 | decryption with the transformed keys is the inverse cipher of section 5.3 with the keys of the cipher |
| AesFips.ScheduleIs | qemu-kvm-0.14.1/aes.c:731-827 | every word of the schedule, for 128, 192 and 256 bits, is made of the bytes of section 5.2 |
| AesFips.KeysAre | qemu-kvm-0.14.1/aes.c:731-827 | the round keys of a user key are those of the standard |
| AesFips.KnownKey128 | qemu-kvm-0.14.1/aes.c:752-773 | the example key of appendix A.1 gives a0fafe17 |
| AesFips.KnownKey192 | qemu-kvm-0.14.1/aes.c:774-795 | the example key of appendix A.2 gives fe0c91f7 |
| AesFips.KnownKey256 | qemu-kvm-0.14.1/aes.c:796-825 | the example key of appendix A.3 gives 9ba35411 |
| AesFips.KnownMiddle256 | qemu-kvm-0.14.1/aes.c:813-818 | and a8b09c1a in the middle of its first group |
| AesFips.CbcIs | qemu-kvm-0.14.1/aes.c:1276-1294 | block i of the ciphertext is block i of CBC mode, a partial last block filled up with zeros before the addition |
| AesFips.EncryptsByTheStandard | qemu-kvm-0.14.1/aes.c:1265-1314 | from the user key to block i of the ciphertext, all is as in FIPS 197 and SP 800-38A |
| AesFips.DecryptsByTheStandard | qemu-kvm-0.14.1/aes.c:1295-1313 | block i of the plaintext is block i of CBC mode under the inverse cipher, cut at the length |
| IoVector.CopiedBytes | qemu-kvm-0.14.1/cutils.c:178-214 | copying between vectors copies exactly the bytes behind `skip`, up to `size`, in no more buffers than the source has |
| IoVector.QemuIoVector.constructor | qemu-kvm-0.14.1/cutils.c:137-143 | an empty vector |
| IoVector.QemuIoVector.Add | qemu-kvm-0.14.1/cutils.c:157-169 | appends one buffer; size is always the number of bytes |
| IoVector.QemuIoVector.Copy | qemu-kvm-0.14.1/cutils.c:178-209 | appends exactly the cut buffers |
| IoVector.QemuIoVector.ToBuffer | qemu-kvm-0.14.1/cutils.c:231-240 | all bytes in order |
| IoVector.QemuIoVector.FromBuffer | qemu-kvm-0.14.1/cutils.c:247-261 | fills the buffers front to back |
| IoVector.FilledBytes | qemu-kvm-0.14.1/cutils.c:247-261 | read back as one run: the data as far as it fits, then what was there; no buffer changes its length |
| MultiwriteMerge.JoinedAt | qemu-kvm-0.14.1/block.c:2248-2272 | a merged request covers both, with the second's bytes where it has any, zeros in a gap, and a vector that matches its sectors |
| MultiwriteMerge.MergeExactly | qemu-kvm-0.14.1/block.c:2215-2284 | applying the merged list gives each byte what the sorted list gives, for all data and disks, iff the byte is not lost: a condition on sectors and lengths alone |
| MultiwriteMerge.GrowingEndsKeepMeaning | qemu-kvm-0.14.1/block.c:2215-2284 | if no request ends before an earlier one and the driver merges across a gap only where zeros may go, the merged list means the same at every byte |
| MultiwriteMerge.NestedRequestIsLost | qemu-kvm-0.14.1/block.c:2254-2257 | a request that contains a later one loses its bytes behind the later one |
| MultiwriteMerge.MergedVectorsFit | qemu-kvm-0.14.1/block.c:2244-2272 | sizes match sector counts and element counts stay within IOV_MAX |
| MultiwriteMerge.MergedApart | qemu-kvm-0.14.1/block.c:2221-2246 | as long as the buffers fit, the requests that remain have gaps between them, and a driver that wants every gap filled gets one request |
| MultiwriteMerge.GapsStay | qemu-kvm-0.14.1/block.c:2221-2246 | requests with gaps the driver does not want filled stay as they are |
| MultiwriteMerge.JoinVectors | qemu-kvm-0.14.1/block.c:2249-2272 | the merged vector: the first cut at the second's start, zeros, the second |
| MultiwriteMerge.MergeInPlace | qemu-kvm-0.14.1/block.c:2223-2283 | the in-place compaction leaves the merged list in front |
| MultiwriteMerge.SortSorts | qemu-kvm-0.14.1/block.c:2194-2221 | a sorted permutation |
| MultiwriteMerge.MultiwriteMerge | qemu-kvm-0.14.1/block.c:2215-2284 | sorting and compaction together |
| MultiwriteCallbacks.StepInv | qemu-kvm-0.14.1/block.c:2163-2192 | every step keeps the request count equal to outstanding writes plus the dummy |
| MultiwriteCallbacks.CallbacksOnce | qemu-kvm-0.14.1/block.c:2300-2384 | in every interleaving, from the events alone: each callback is called exactly once, when the loop has ended and every accepted write has completed, with the first failure, -EIO for a late refused submission; zero exactly if nothing failed; none if the first request is refused |
| MultiwriteCallbacks.NoFailureExactly | qemu-kvm-0.14.1/block.c:2181-2183 | the first failure is zero exactly if no submission was refused and no completion negative |
| MultiwriteCallbacks.NeverStuck | qemu-kvm-0.14.1/block.c:2355-2376 | until the callbacks are called some step is always possible |
| MultiwriteCallbacks.NoErrorExactly | qemu-kvm-0.14.1/block.c:2177-2192 | the reported error is zero iff no completion failed |
| MultiwriteCallbacks.MultiwriteCb.constructor | qemu-kvm-0.14.1/block.c:2319-2353 | the counter starts at one for the dummy request |
| MultiwriteCallbacks.MultiwriteCb.UserCb | qemu-kvm-0.14.1/block.c:2163-2175 | one call for each original request, with the error |
| MultiwriteCallbacks.MultiwriteCb.Completed | qemu-kvm-0.14.1/block.c:2177-2192 | keeps the first error, counts down, and at zero calls and frees |
| BufferedFile.RunIsFifo | qemu-kvm-0.14.1/buffered_file.c:49-181 | in every run of puts, ticks and closes over every backend, as long as no error is recorded, bytes accepted followed by bytes held are exactly the bytes put, in order; a close then leaves nothing behind |
| BufferedFile.PutAppends | qemu-kvm-0.14.1/buffered_file.c:110-168 | a put without error appends its data to the stream |
| BufferedFile.OrderExactly | qemu-kvm-0.14.1/buffered_file.c:126-161 | for one backend: a put keeps the order, whatever the bytes are, iff its direct writes do not fail and do not overtake held bytes |
| BufferedFile.NoOvertakingExactly | qemu-kvm-0.14.1/buffered_file.c:126-161 | over every backend no new byte overtakes a held one iff nothing is held, nothing is put or the transfer limit is used up: the put writes on after the flush in front has failed |
| BufferedFile.NothingDroppedExactly | qemu-kvm-0.14.1/buffered_file.c:128-161 | over every backend no byte is dropped iff nothing is put or the transfer limit is used up: a failed direct write drops the rest of the data |
| BufferedFile.OvertakingExample | qemu-kvm-0.14.1/buffered_file.c:126-148 | a new byte that reaches the backend before an older one |
| BufferedFile.FlushKeepsStream | qemu-kvm-0.14.1/buffered_file.c:73-108 | a flush moves a prefix of the held bytes to the backend, failed or not |
| BufferedFile.CloseKeepsStream | qemu-kvm-0.14.1/buffered_file.c:170-181 | the drain loop neither loses nor reorders a byte |
| BufferedFile.CloseEndsExactly | qemu-kvm-0.14.1/buffered_file.c:177-181 | over a backend that never stops answering the drain loop ends iff there is no point, with bytes held and no error, from which on every answer is EAGAIN |
| BufferedFile.NeverEndsExample | qemu-kvm-0.14.1/buffered_file.c:177-181 | a backend over which it does not end |
| BufferedFile.CloseOver | qemu-kvm-0.14.1/buffered_file.c:170-181 | where the drain is through after n answers the close ends with its error, or has delivered everything held |
| BufferedFile.PutKeepsRate | qemu-kvm-0.14.1/buffered_file.c:128-155 | bytes_xfer counts exactly the bytes written past the buffer; over the limit none are written, and one put exceeds it by no more than its data |
| BufferedFile.TickFlushes | qemu-kvm-0.14.1/buffered_file.c:236-253 | a tick of a file without error that is not frozen starts a new period and flushes; something is held afterwards exactly if the backend froze or failed |
| BufferedFile.TickWaits | qemu-kvm-0.14.1/buffered_file.c:236-245 | a tick of a frozen file, or of one with an error, changes nothing |
| BufferedFile.FlushStops | qemu-kvm-0.14.1/buffered_file.c:73-108 | a flush takes exactly what the answers used offered and stops for the reason the last one gives |
| BufferedFile.DirectStops | qemu-kvm-0.14.1/buffered_file.c:128-151 | the same for the direct writes of a put |
| BufferedFile.DirectIsFlush | qemu-kvm-0.14.1/buffered_file.c:128-132 | within the limit direct writes are a flush of the new data, beyond it none is tried |
| BufferedFile.PutUnfreezes | qemu-kvm-0.14.1/buffered_file.c:118-126 | a put does not depend on the file having been frozen, and does nothing after an error |
| BufferedFile.PutUses | qemu-kvm-0.14.1/buffered_file.c:123-151 | a put uses the answers in turn, first for what is held, and leaves the file frozen exactly if the last was EAGAIN |
| BufferedFile.FlushAfterError | qemu-kvm-0.14.1/buffered_file.c:77-80 | after an error a flush does nothing |
| BufferedFile.Direct | qemu-kvm-0.14.1/buffered_file.c:128-155 | direct writes stop early only for a freeze, an error or a used-up transfer limit |
| BufferedFile.QemuFileBuffered.constructor | qemu-kvm-0.14.1/buffered_file.c:254-282 | an empty file with a tenth of the rate as its limit per tick |
| BufferedFile.QemuFileBuffered.Append | qemu-kvm-0.14.1/buffered_file.c:49-71 | the data behind the held bytes, within the capacity, which grows by size plus 1024 |
| BufferedFile.QemuFileBuffered.Flush | qemu-kvm-0.14.1/buffered_file.c:73-108 | new state of a flush, including the move of the rest to the front of the buffer |
| BufferedFile.QemuFileBuffered.FlushWrites | qemu-kvm-0.14.1/buffered_file.c:84-103 | the loop over partial writes, freezes and errors |
| BufferedFile.QemuFileBuffered.PutBuffer | qemu-kvm-0.14.1/buffered_file.c:110-168 | new state of a put and its result |
| BufferedFile.QemuFileBuffered.DirectWrites | qemu-kvm-0.14.1/buffered_file.c:128-155 | the rate-limited loop of direct writes |
| BufferedFile.QemuFileBuffered.Close | qemu-kvm-0.14.1/buffered_file.c:170-181 | over a backend whose answers come to an end: ends with an error recorded or nothing held |
| BufferedFile.QemuFileBuffered.RateTick | qemu-kvm-0.14.1/buffered_file.c:232-252 | new state of a tick |
| BufferedFile.QemuFileBuffered.RateLimit | qemu-kvm-0.14.1/buffered_file.c:193-207 | asks the producer to wait iff there is no error and the file is frozen or over its limit |
| Vcpu.StepPause | qemu-kvm-0.14.1/cpus.c:756-799 | every step keeps: no CPU in guest code is stopped, a pause in progress has every CPU asked or stopped, a pause in force has all stopped |
| Vcpu.PausedMeansIdle | qemu-kvm-0.14.1/cpus.c:769-799 | in every interleaving, from the return of pause_all_vcpus until resume_all_vcpus no CPU executes or can enter guest code |
| Vcpu.StepWork | qemu-kvm-0.14.1/cpus.c:434-476 | every step keeps: what ran followed by what waits is what was queued |
| Vcpu.EventsDecide | qemu-kvm-0.14.1/cpus.c:462-488 | in every interleaving every flag and list of every CPU, the pause and the requesters that went on are what the events make them |
| Vcpu.WorkRunsOnceInOrder | qemu-kvm-0.14.1/cpus.c:434-476 | per CPU exactly the items queued before the thread last handled its events have run, once each and in order; a requester goes on only after its item has run |
| Vcpu.HandlingRunsAll | qemu-kvm-0.14.1/cpus.c:462-487 | queued work keeps the thread awake, and once it handles its events everything ever queued for the CPU has run and every requester may go on |
| Vcpu.MayEnterExactly | qemu-kvm-0.14.1/cpus.c:120-127 | a CPU may enter guest code exactly if the machine runs, no stop is asked or in force and no CPU of its thread is in guest code |
| Vcpu.SleepsExactly | qemu-kvm-0.14.1/cpus.c:129-142 | a thread may sleep over a CPU exactly if no stop is asked, all queued work has run, and the CPU is stopped or idle or the machine is stopped |
| Vcpu.ResumedCanRun | qemu-kvm-0.14.1/cpus.c:789-799 | after resume_all_vcpus every CPU can run exactly if the machine runs |
| Vcpu.PauseProgress | qemu-kvm-0.14.1/cpus.c:478-486 | while a pause has not returned, some CPU with its request pending has a thread that must leave its wait, and handling it stops one more CPU |
| Vcpu.MayPauseExactly | qemu-kvm-0.14.1/cpus.c:756-787 | a pause may be asked for and taken back exactly while none is on its way, and returns exactly once every CPU has stopped |
| Vcpu.PauseCompletes | qemu-kvm-0.14.1/cpus.c:769-787 | from every reachable state with a pause on its way, CPUs leaving guest code and threads handling their events lead to its return |
| Vcpu.WorkQueue.Queue | qemu-kvm-0.14.1/cpus.c:443-451 | appends to the linked list, which is the step run_on_cpu takes for the CPU |
| Vcpu.WorkQueue.RunFirst | qemu-kvm-0.14.1/cpus.c:469-473 | the head leaves the list, runs and is marked done |
| Vcpu.WorkQueue.Flush | qemu-kvm-0.14.1/cpus.c:462-476 | all items run, in order, and the list is empty, which is the step of handling events for the CPU |
| Vcpu.StopFlags.AskPause | qemu-kvm-0.14.1/cpus.c:769-777 | the loop sets every CPU's request: the ask step of the transition system |
| Vcpu.StopFlags.AllPaused | qemu-kvm-0.14.1/cpus.c:756-767 | answers whether all CPUs are stopped |
| Vcpu.StopFlags.Resume | qemu-kvm-0.14.1/cpus.c:789-799 | the loop clears both flags of every CPU: the resume step |
| Vcpu.StopFlags.HandleStops | qemu-kvm-0.14.1/cpus.c:478-486 | a thread turns its CPUs' requests into stops: the event-handling step |
| TbLookup.FirstMatch | qemu-kvm-0.14.1/cpu-exec.c:148-168 | the index returned is a match and no earlier element is |
| TbLookup.MatchesExactly | qemu-kvm-0.14.1/cpu-exec.c:152-165 | which blocks match: same pc, base and flags, and pages of 4096 bytes that hold the code now |
| TbLookup.ToFrontKeeps | qemu-kvm-0.14.1/cpu-exec.c:173-179 | moving to the front neither loses nor adds a block |
| TbLookup.FirstIsOnly | qemu-kvm-0.14.1/cpu-exec.c:131-201 | where a chain holds at most one match, any match in it is the first |
| TbLookup.TbTable.constructor | qemu-kvm-0.14.1/cpu-exec.c:131-201 | empty table and cache are coherent under every mapping |
| TbLookup.TbTable.Search | qemu-kvm-0.14.1/cpu-exec.c:147-168 | the walk finds the first match by pc, cs_base, flags and page(s), and the link that leads to it |
| TbLookup.TbTable.Relink | qemu-kvm-0.14.1/cpu-exec.c:175-179 | the pointer surgery yields the chain with that block first and the others in order |
| TbLookup.TbTable.MoveToFront | qemu-kvm-0.14.1/cpu-exec.c:173-179 | so does the table, all other chains untouched |
| TbLookup.TbTable.Link | qemu-kvm-0.14.1/exec.c:1280-1284 | a new block becomes the head of its chain |
| TbLookup.TbTable.GenCode | qemu-kvm-0.14.1/cpu-exec.c:169-171 | a new block is a match for the key, at the head of its chain, possibly after everything was flushed |
| TbLookup.TbTable.FindSlow | qemu-kvm-0.14.1/cpu-exec.c:131-183 | returns the first match moved to the front, or a new block there, also for an empty chain; the cache slot gets it |
| TbLookup.TbTable.SearchedKeeps | qemu-kvm-0.14.1/cpu-exec.c:131-183 | a search keeps at most one match per chain and the new cache entry current |
| TbLookup.TbTable.FindFast | qemu-kvm-0.14.1/cpu-exec.c:185-201 | with the mapping unchanged it returns what the slow search would have found, or a new block if none, and keeps cache and chains coherent |
| Icount.StepConserves | qemu-kvm-0.14.1/cpus.c:885-909 | every step keeps the decrementer within 16 bits and qemu_icount minus what is outstanding equal to the instructions retired |
| Icount.RunConserves | qemu-kvm-0.14.1/cpus.c:885-909 | so does every run of slices, blocks, refills and interrupts |
| Icount.SliceWithinBudget | qemu-kvm-0.14.1/cpu-exec.c:622-648 | from the start of a slice to the next start no more instructions are retired than were granted |
| Icount.StartGrants | qemu-kvm-0.14.1/cpus.c:888-896 | a slice gets exactly the instructions granted, as many of them in the decrementer as fit, after the rest of the last one is folded back |
| Icount.SliceUsesGrant | qemu-kvm-0.14.1/cpu-exec.c:622-648 | without interrupts a slice of blocks executed whole ends, and has then retired exactly its grant |
| Icount.SliceReachesDeadline | qemu-kvm-0.14.1/cpus.c:885-909 | such a slice ends at the deadline it was granted for, or less than one instruction behind it |
| Icount.FinishFolds | qemu-kvm-0.14.1/cpus.c:902-909 | after a slice nothing is outstanding, no interrupt is left and the global counter has moved by the instructions retired |
| Icount.InterruptEnds | qemu-kvm-0.14.1/cpu-exec.c:628-646 | after an interrupt nothing more is retired in the slice and its next block ends it |
| Icount.BlockRetires | qemu-kvm-0.14.1/cpu-exec.c:622-648 | what a block retires: as much as is executed of it, nothing when the counter is refilled, the last instructions of the budget at its end |
| Icount.MachineRunConserves | qemu-kvm-0.14.1/cpus.c:885-909 | over all slices of all CPUs in any interleaving the shared counter, less what is outstanding on all of them, moves exactly with the instructions retired by all |
| Icount.TimeIsInstructions | qemu-kvm-0.14.1/cpus.c:968-981 | virtual time advances by exactly the retired instructions and never goes back |
| Icount.TimeFromZero | qemu-kvm-0.14.1/cpus.c:968-981 | the time is the bias and 2^shift units for every instruction retired since the start |
| Icount.StopsForALongBlock | qemu-kvm-0.14.1/cpu-exec.c:629-646 | without an interrupt a slice stops only for a block longer than all that is left |
| Icount.InterruptStops | qemu-kvm-0.14.1/cpu-exec.c:629-646 | with the flag set the next block is not started and nothing is retired |
| Icount.ReachesDeadline | qemu-kvm-0.14.1/cpus.c:891-896 | retiring the rounded-up grant moves the time to the deadline and less than one instruction beyond |
| Icount.Rounded | qemu-kvm-0.14.1/qemu-timer.c:285-288 | the least number of instructions that last until the deadline |
| Icount.Cpu.StartSlice | qemu-kvm-0.14.1/cpus.c:885-897 | fold back, grant, split into decrementer and rest |
| Icount.Cpu.RunBlock | qemu-kvm-0.14.1/cpu-exec.c:622-648 | block check, refill, last instructions or stop |
| Icount.Cpu.RaiseInterrupt | qemu-kvm-0.14.1/exec.c:1666 | sets the upper half of the decrementer only |
| Icount.Cpu.FinishSlice | qemu-kvm-0.14.1/cpus.c:902-909 | fold back and clear |
| Icount.Cpu.GetIcount | qemu-kvm-0.14.1/cpus.c:968-981 | the time of the counters' state |
| Wire.Get64Put64 | qemu-kvm-0.14.1/arch_init.c:287-292 | a 64-bit big-endian word read back is the word written |
| Wire.BeDigit | qemu-kvm-0.14.1/savevm.c:645-649 | byte i of a word is the word shifted down by the bytes behind it: most significant first |
| Wire.OrDisjoint | qemu-kvm-0.14.1/arch_init.c:126-145 | the bitwise or of a multiple of a power of two and a smaller number is their sum |

## Left out

- Streams of version 3 (arch_init.c:382-385, 424-425, 443-444): only the current format is read.
- RamMigration.Migrate: the guest writes between the calls; writes in the middle of a call are covered by RamConverges. Section headers around each call belong to the outer file and are not modelled.
- Order of blocks after sort_ram_list: proofs hold for every order of the list.
- A page that the guest changes while its bytes are being copied: a copy is one step; the write then marks the page again.
- Page size, sector size and chunk size are the constants of the x86 target; dirty flags and RAM are indexed by page.
- NULL results of host_from_stream_offset for full pages (arch_init.c:446-448 does not test them): the model ends in a fault there.
- Bandwidth estimates, expected times and monitor output of both migrations; whether the rest is quickly sent is an input.
- Convergence of block migration from a shared base image: equality depends on a base image outside the code.
- The bytes of the block-migration stream: messages are records; torn data is any data.
- BlockSaver.Saver.SaveDeviceBulk: without a shared base; the cursor over one is NextBulkChunk.
- block_save_live with block migration switched off or a negative stage, and the clean-up behind stage 3.
- I/O errors during migration end the run; there is no claim about what a destination holds after one.
- qsort: an insertion sort stands for it; the merge theorems hold for any sorted order of the requests.
- Buffers of an I/O vector are kept by their contents, so two vectors sharing memory are not modelled.
- Allocation of the two bitmaps in bytes: they are allocated in whole words; a word is its 64 bits.
- Growable devices, barriers, asynchronous block requests outside multiwrite, and drivers that write part of a failed request.
- ByteAccess.BlockDevice.ReadBytes: a failed read may have filled part of the caller's buffer; only the error is stated.
- Reopening a backing image read-write before a commit, and the state of a drive whose backing image could not be reopened.
- BufferedFile.QemuFileBuffered.Close: the backend answers finitely often before it fails; CloseEndsExactly says when the loop ends over one that answers for ever.
- RamStream.RamLoader.RamLoad: after an error the pages already stored are not described.
- The callback that asks for more data when the buffered file has room, timers, and freeing on close.
- The table literals and S-box of AES: the tables are defined by their formulas over any invertible S-box; the unrolled variant is not compiled.
- NULL-pointer checks of the AES key functions.
- run_on_cpu called on the CPU's own thread, which runs the function at once; pausing from a CPU's thread.
- Fairness of threads: a pause is shown to lose no request and to have a way to its end from every state, not that the threads take it.
- Signals, kicks and condition variables: a thread may take any enabled step at any time.
- Removal of single translation blocks, direct jumps between blocks, and page lists; generated code is a block with a key and one or two pages.
- 64-bit overflow of the instruction counters; time while all CPUs are idle.
- Disassemblers, devices, consoles, networking and user interfaces of the repository.
