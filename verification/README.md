# Verified models of the kernel course examples

The repository is a course in Linux kernel programming. Most of its files register something with
the kernel; a few hold an algorithm or a protocol of their own. This project models those and proves
what they are there for.

| file | models |
|---|---|
| Common.dfy | options, bytes, C integer widths, powers, sums |
| Fsel.dfy | the poll and notify file system of `fsel.c`: interleaved machine and in-place operations |
| Mlock.dfy | nested loops under a semaphore and a chain of completions, `mlock.c` |
| BlockDev.dfy | the RAM block device with three request modes, `block_mod_s.c` |
| Queue.dfy | the block-chained byte queue of `queuel.c` and `confm.c`, for any block size |
| Confm.dfy | the configuration parser and the channels of `confm.c` |
| Cuse.dfy | the growable byte device and its ioctl retry protocol, `cusexmp.c` |
| Search.dfy | doubling and bisection, `memmax.c` and `iter.c` |
| Regulator.dfy | the feedback regulator, `cli.c` with `locl.c` |
| Barrier.dfy | the counter that is stop flag and barrier, `pamixad.c` |
| Dubfl.dfy | the disk image bound to a file, `dubfl.c` |
| Translate.dfy | the pluggable number translator, `master.c`, `dec.c`, `oct.c`, `hex.c` |

`dafny verify dfyconfig.toml` checks all of it.

Each file has the same shape. A first module describes the entities as values, with functions for
what one operation does, and proves the laws about them. Where the source works in place, a second
module has a class with the source's own variables and loops, whose methods are proved to do exactly
what those functions say. Concurrent programs are state machines: one event is one access to shared
memory, or one section under a mutex, and a run is any sequence of enabled events from the initial
state. Kernel and library calls that may fail (allocation, registration, module loading) are
parameters that decide for themselves.

## What turned out not to hold

The models follow the code. Where it does less than its text or its shape promises, the project
proves exactly when it does what is promised.

- `simple_request` keeps a sector number in 32 bits. A write to sector 2^32 is carried out on sector 0,
  where `full_request` skips it, and both report success (BlockDev.WideSectorDiffers). One piece is
  treated alike by all modes exactly if it is harmless: its sector is below 2^32, or it is empty, or
  its range is beyond the device even so (BlockDev.PieceAgreesIff). For queues of harmless pieces the
  modes leave the same disk and buffers (BlockDev.QueueModesAgree); for a queue of writes they do so
  for all data exactly when every byte of the device is written last from the same place with the
  sector numbers in full and in 32 bits (BlockDev.WriteQueuesAgreeIff).
- `full_request` completes every piece with status 0, also those it skipped because they lie beyond
  the device (BlockDev.BeyondEndReportsSuccess): its codes are true exactly when every piece is in
  range (BlockDev.AllSucceedIff). Its status codes are those of `simple_request`
  exactly when every piece, with its sector in 32 bits, is in range (BlockDev.StatusesAgreeIff).
- `FIOC_WRITE` adds the caller's offset and size in 64 bits. With the offset 2^64 - 1 and one byte it
  asks for no memory and copies outside of the buffer (CuseModel.MinusOneWritesOutside); it stays
  inside exactly when the sum is below 2^64 (CuseModel.PutInsideIff, CuseModel.WriteInsideIff).
- `FIOC_WRITE` of zero bytes never tells the server where the two sizes belong, so it does not
  report them (CuseModel.WriteReportsIff, CuseModel.EmptyWriteReportsNothing).
  `FIOC_SET_SIZE` reports success even when the resize failed
  (CuseModel.SetSizeReportsFailureAsSuccess); the report is true exactly when the device had the size
  before, or the size is 0, or the memory can be had (CuseModel.SetSizeTrueIff).
- The memory search finds a limit below 2^63 exactly if at least half a page can be allocated, and
  half a page otherwise (MemMax.Search). For larger limits it never ends with kmalloc, and finds 0
  with vmalloc (MemMax.DoublingEndsIff, MemMax.Search).
- The number search ends for targets up to 2^63 only: above, the doubled bound wraps around to 0 for
  ever (Iter.DoublingEndsIff). The target 0 is found as 1 (Iter.Search).
- A configuration line that is a bare `chan` makes the parser use a null name, if there is room for
  one more device (ConfigText.ParseOutcome, ConfigText.BareChanCrashes).
- The byte size of a disk image is computed in 32 bits. After a successful load the accepted requests
  stay inside the image exactly when the sector count of the file, an unsigned int, is below 2^23,
  that of 4 GiB (DubflModel.LoadedInsideIff); DubflModel.BeyondFourGigabytes is a file for which they
  do not.
- `DUBFL_LOAD_DISK` reports success for a failed load, which may have dropped the old image
  (DubflModel.FailedLoadReportsSuccess). The file is loaded exactly when it is there, its size in 32
  bits is not 0, and memory is found (DubflModel.LoadDiskReports).
- The open mask of `fsel.c` is tested and changed outside of the mutex, and two callers can both open
  a file (FselOpen.OpenedTwice). As long as no two callers are inside open and release at once, each
  file is open once at most (FselOpen.SingleOpening).
- A number of 2^31 or more is translated to the signed value of its low 32 bits
  (TranslateModel.SpellingTranslates). A call leaves its slave module loaded exactly when the text
  behind the prefix has an invalid digit or such a value, or unloading fails
  (TranslateModel.LeavesSlaveIff). From then on every call fails (TranslateModel.BlockedFrom): after
  the text `08` not even `7` can be translated (TranslateModel.EightIsNoOctalDigit).

## Model

| member | source | states |
|---|---|---|
| Fsel.PathIndexIff | Tasks/fuse/fsel.c:34-40 | exactly the sixteen names of one upper-case hexadecimal digit are files, and each names its own file |
| Fsel.Files.Open | Tasks/fuse/fsel.c:73-92 | unknown path, write access and a second open are refused with their error codes and change nothing; success, exactly for reading a path that can be opened, marks that file as open |
| Fsel.Files.Release | Tasks/fuse/fsel.c:93-99 | the path of the file, and no other path, can be opened again |
| FselOpen.SingleOpening | Tasks/fuse/fsel.c:73-99 | with the test, the load and the store of the mask as separate steps, as long as no two callers are inside at once the mask holds exactly the open files, each open once |
| FselOpen.OpenedTwice | Tasks/fuse/fsel.c:80-82 | a run in which two callers pass the test and both have the file open |
| Fsel.Files.Read | Tasks/fuse/fsel.c:100-114 | returns the smaller of count and size, each byte the file's digit; the count falls by exactly the bytes returned and no other count changes; one read event of the machine; the invariant is kept |
| Fsel.Files.Poll | Tasks/fuse/fsel.c:115-149 | is the unlocked fetch of the context followed by the locked registration of the machine; reports input exactly when the count is positive; the invariant is kept |
| Fsel.Files.Tick | Tasks/fuse/fsel.c:163-192 | one iteration of the producer does what an uninterrupted tick of the machine does, and keeps the invariant and the open files |
| FselModel.TickIsRun | Tasks/fuse/fsel.c:165-190 | a whole tick is a run of lock, fills and unlock of the interleaved machine |
| FselModel.VisitKeepsInv | Tasks/fuse/fsel.c:174-185 | filling one file keeps handle ownership, the notify mask and byte conservation |
| FselModel.PollKeepsInv | Tasks/fuse/fsel.c:133-139 | registering a fresh handle keeps them, the replaced handle being destroyed |
| FselModel.StepKeepsInv | Tasks/fuse/fsel.c:100-192 | every event keeps: notify bit set exactly for slots with a handle, each handle passed in once in a slot or destroyed once, no null handle notified, counts within 0 to 10 and equal to produced minus consumed, schedule width 1, 2 or 4 |
| FselModel.RunKeepsInv | Tasks/fuse/fsel.c:100-192 | all of that in every state of every run |
| FselModel.CountsBalance | Tasks/fuse/fsel.c:100-192 | in every run the count of a file is its count at the start, plus one for every fill that found room, minus what its reads took, each as much as asked for or there was |
| FselModel.NotifiedFollowsHistory | Tasks/fuse/fsel.c:177-184 | in every run the handles notified are, in order, those of the files that were filled while notification was possible |
| FselModel.DestroyedFollowsHistory | Tasks/fuse/fsel.c:133-184 | the handles destroyed are those, and the ones that a later poll displaced, in order |
| FselModel.SlotFollowsHistory | Tasks/fuse/fsel.c:133-184 | after every event of a run the handle of a file is the one just passed in, none after a notification, or the one before |
| FselModel.FuseFollowsPolls | Tasks/fuse/fsel.c:127-131 | notification is possible from the first poll on that finds a context |
| FselModel.TicksAreUnlocks | Tasks/fuse/fsel.c:187-190 | the position in the schedule is the number of times the producer has given the mutex back |
| FselModel.NotifiedExactlyOnce | Tasks/fuse/fsel.c:180-184 | a notified handle was notified once, destroyed once and is in no slot |
| FselModel.NoLostWakeup | Tasks/fuse/fsel.c:127-147 | after a poll that registers a handle on an empty file, at every later point of every run the handle still waits on an empty file, or was notified, or was replaced by a later poll of the file |
| FselModel.NotifiedWithin16Ticks | Tasks/fuse/fsel.c:172-189 | a handle pending on a file with room is notified or replaced before sixteen ticks counted from between two ticks have passed, whatever else happens |
| FselModel.NotifiedWithin17Ticks | Tasks/fuse/fsel.c:172-189 | the same from any state, the middle of a tick included, before seventeen ticks have been completed |
| FselModel.VisitsDistinct | Tasks/fuse/fsel.c:172-173 | the files visited in one tick are pairwise distinct |
| FselModel.VisitsIff | Tasks/fuse/fsel.c:172-189 | closed form of which ticks of a round visit a file |
| FselModel.FillsFollowSchedule | Tasks/fuse/fsel.c:163-192 | in every run that starts between two ticks, the fills of a file among the first events are its visits by the schedule |
| FselModel.RoundFills | Tasks/fuse/fsel.c:172-189 | in every run, sixteen ticks from file 0 on fill every file exactly nr times |
| FselModel.SevenFillsIn48 | Tasks/fuse/fsel.c:172-189 | in every run, any 48 ticks in a row, aligned or not, fill every file exactly seven times |
| FselModel.FilledIn16 | Tasks/fuse/fsel.c:172-189 | in every run, any sixteen ticks in a row fill every file |
| Mlock.StackStepConserves | Tasks/thread/mlock/mlock.c:21-37 | each step inside loop_func conserves semaphore count plus holds, `locked` plus increments still to come, and uses up one of the steps left |
| Mlock.LocksIsPower | Tasks/thread/mlock/mlock.c:23-33 | one call at a level counts `locked` by rep to the power of its distance from the locking level, or not at all |
| Mlock.HeldAtMostOnce | Tasks/thread/mlock/mlock.c:23-35 | a call stack is between down and up in at most one activation, and where |
| Mlock.OthersKeepView | Tasks/thread/mlock/mlock.c:23 | the load and store of `locked++` are not disturbed by the other threads |
| Mlock.StepKeepsInv | Tasks/thread/mlock/mlock.c:21-80 | every interleaved step keeps the invariant and uses up exactly one of the steps left |
| Mlock.RunKeepsInv | Tasks/thread/mlock/mlock.c:21-80 | the invariant holds in every state of every run |
| Mlock.NeverTakenTwice | Tasks/thread/mlock/mlock.c:23 | a thread about to take the semaphore does not hold it |
| Mlock.MutualExclusion | Tasks/thread/mlock/mlock.c:23-35 | two threads never hold the semaphore together |
| Mlock.CountsWhenMainPasses | Tasks/thread/mlock/mlock.c:48-79 | when test_mlock passes its wait there are num threads (one for num below 1), each has done rep to the max_level units, the semaphore is free, and `locked` is the number of threads times rep to the (max_level - sync), or 0 without a lock; a negative rep counts as 0 |
| Mlock.NeverStuck | Tasks/thread/mlock/mlock.c:45-80 | in every state of the invariant that is not finished some event is enabled |
| Mlock.RunsEnd | Tasks/thread/mlock/mlock.c:45-80 | every run is finite and all complete runs have the same number of steps, whatever the interleaving |
| Mlock.Globals.LoopFunc | Tasks/thread/mlock/mlock.c:21-37 | alone, the recursion terminates, returns rep to the lvl, counts `locked` accordingly and gives the semaphore back |
| BlockDev.Device.Transfer | Tasks/blkdev/block_mod.LDD3/block_mod_s.c:30-43 | copies exactly the range in the direction asked for, or nothing and -EIO when it exceeds the device |
| BlockDev.Device.XferRequest | Tasks/blkdev/block_mod.LDD3/block_mod_s.c:71-80 | every bio is carried out once, in order, skipped pieces included in the walk |
| BlockDev.Device.SimpleRequest | Tasks/blkdev/block_mod.LDD3/block_mod_s.c:82-102 | the whole queue once with the sector numbers in 32 bits, each bio's own status, one transfer per bio |
| BlockDev.Device.FullRequest | Tasks/blkdev/block_mod.LDD3/block_mod_s.c:104-121 | leaves what one transfer per bio leaves although all remaining bios are transferred before each completion; status 0 for every bio; number of transfers |
| BlockDev.Device.MakeRequest | Tasks/blkdev/block_mod.LDD3/block_mod_s.c:124-135 | one bio carried out at once with its own status |
| BlockDev.StatusMeans | Tasks/blkdev/block_mod.LDD3/block_mod_s.c:32-37 | a piece is refused with -EIO exactly when one of its bytes lies beyond the device |
| BlockDev.ApplyMeans | Tasks/blkdev/block_mod.LDD3/block_mod_s.c:38-42 | a write changes exactly its bytes of the device, a read the front of its buffer, a refused piece nothing |
| BlockDev.RunAppend | Tasks/blkdev/block_mod.LDD3/block_mod_s.c:75-78 | bios are carried out one after the other, in order |
| BlockDev.QueueAppend | Tasks/blkdev/block_mod.LDD3/block_mod_s.c:87-120 | so are the requests of a queue; one that does not come from a file system is skipped |
| BlockDev.OthersRefused | Tasks/blkdev/block_mod.LDD3/block_mod_s.c:90-95 | requests that do not come from a file system all get -EIO, and nothing is transferred |
| BlockDev.SimpleStatusesMean | Tasks/blkdev/block_mod.LDD3/block_mod_s.c:96-100 | simple_request reports one code per piece, its status, in order |
| BlockDev.FullStatusesMean | Tasks/blkdev/block_mod.LDD3/block_mod_s.c:117-119 | full_request reports one 0 per piece |
| BlockDev.WritesAt | Tasks/blkdev/block_mod.LDD3/block_mod_s.c:34-41 | after any bios each disk byte is that of the last accepted bio covering it, or the old one |
| BlockDev.ReadsAt | Tasks/blkdev/block_mod.LDD3/block_mod_s.c:34-41 | the same for each byte of each read buffer, shared or not |
| BlockDev.RunTwice | Tasks/blkdev/block_mod.LDD3/block_mod_s.c:75-78 | transferring the same bios again changes nothing, even when they overlap or share buffers |
| BlockDev.FullIsSimple | Tasks/blkdev/block_mod.LDD3/block_mod_s.c:104-121 | for one request, repeated transfers leave the same disk and buffers as one transfer per bio |
| BlockDev.FullQueueIsOnce | Tasks/blkdev/block_mod.LDD3/block_mod_s.c:104-121 | the same for every queue of requests |
| BlockDev.QueueModesAgree | Tasks/blkdev/block_mod.LDD3/block_mod_s.c:82-121 | both queue modes leave the same disk and buffers for every queue of harmless pieces |
| BlockDev.PieceAgreesIff | Tasks/blkdev/block_mod.LDD3/block_mod_s.c:84-98 | one piece is treated alike by all modes, whatever the data, exactly if it is harmless |
| BlockDev.WideSectorDiffers | Tasks/blkdev/block_mod.LDD3/block_mod_s.c:84-98 | a write to sector 2^32 that one mode carries out on sector 0 and the other skips, both with status 0 |
| BlockDev.MaskedPiece | Tasks/blkdev/block_mod.LDD3/block_mod_s.c:82-121 | a queue with a piece that is not harmless for which the modes agree all the same |
| BlockDev.WriteQueuesAgreeIff | Tasks/blkdev/block_mod.LDD3/block_mod_s.c:82-121 | for a queue of writes the modes agree on all data exactly when every byte of the device is written last from the same buffer and place in both readings of the sector numbers |
| BlockDev.StatusesAgreeIff | Tasks/blkdev/block_mod.LDD3/block_mod_s.c:97-118 | the two queue modes report the same status codes exactly when every piece, with its sector in 32 bits, is in range |
| BlockDev.StatusTrueIff | Tasks/blkdev/block_mod.LDD3/block_mod_s.c:97-99 | simple_request reports the status of the real range exactly if the sector is not cut down into the device |
| BlockDev.AllSucceedIff | Tasks/blkdev/block_mod.LDD3/block_mod_s.c:117-118 | the status codes of full_request are those of the real ranges exactly when every piece is in range |
| BlockDev.BeyondEndReportsSuccess | Tasks/blkdev/block_mod.LDD3/block_mod_s.c:117-118 | a write beyond the device that full_request skips and reports as done |
| BlockDev.FullTransfersClosed | Tasks/blkdev/block_mod.LDD3/block_mod_s.c:117-119 | a request of n bios costs n(n+1)/2 transfers in full mode |
| Queue.Queue.New | Tasks/+TASKS/queue/queuel.c:16-22 | appends one empty block to the chain and touches nothing else |
| Queue.Queue.Erase | Tasks/+TASKS/queue/queuel.c:24-31 | drops the head block, and leaves an empty list alone |
| Queue.Queue.Write | Tasks/+TASKS/queue/queuel.c:76-97 | all bytes are appended to what was written and the number is returned; nothing is consumed |
| Queue.Queue.WriteLoop | Tasks/+TASKS/queue/queuel.c:81-95 | the tail always has room, so the loop makes progress and ends |
| Queue.Queue.Take | Tasks/+TASKS/queue/queuel.c:53-69 | one pass of the read loop; the list is never empty after erase; a head read empty but not full means that all is read |
| Queue.Queue.Read | Tasks/+TASKS/queue/queuel.c:43-74 | returns and removes from the front exactly the smaller of the count and what is available |
| Queue.Queue.FirstInFirstOut | Tasks/+TASKS/queue/queuel.c:43-97 | after any operations the bytes read are a prefix of the bytes written, and the chain holds the rest |
| Queue.Queue.BlockCount | Tasks/+TASKS/queue/queuel.c:33-39 | number of blocks from the bytes written and read, and a bound on their storage |
| ChainModel.ChainArithmetic | Tasks/+TASKS/queue/queuel.c:63-94 | W/SIZE + 1 - R/SIZE blocks, storing at most W - R + 2 SIZE - 1 bytes |
| ChainModel.TallyAppend | Tasks/+TASKS/queue/queuel.c:82-94 | appending to the tail, with a new tail once it is full, keeps contents, shape and counts |
| ChainModel.TallyRemove | Tasks/+TASKS/queue/queuel.c:54-69 | removing from the head, with the block dropped at its very end, keeps them |
| ConfigText.LastFieldIsLast | Tasks/+TASKS/confm/confm.c:227-228 | the last field is what follows the last delimiter, and contains none |
| ConfigText.ParseIsRun | Tasks/+TASKS/confm/confm.c:211-236 | only the significant newline-terminated lines matter, in order |
| ConfigText.ParseSucceedsIff | Tasks/+TASKS/confm/confm.c:211-240 | success exactly when every significant line is a chan line with a delimiter and every registration succeeds; then exactly their last fields are registered, in order |
| ConfigText.RunOutcome | Tasks/+TASKS/confm/confm.c:221-235 | the first line that gets no device decides which failure it is |
| ConfigText.ParseOutcome | Tasks/+TASKS/confm/confm.c:147-235 | exactly when a text ends in a bad key, a refused registration, or the use of a null name by a bare `chan` with room for a device |
| ConfigText.BareChanCrashes | Tasks/+TASKS/confm/confm.c:148-230 | the text of one bare `chan` line uses a null name, if there is room for a device |
| ConfigText.ParseRendered | Tasks/+TASKS/confm/confm.c:211-236 | names written out as `chan=name` lines parse back to the names when each can be registered |
| ConfigText.ParseWritten | Tasks/+TASKS/confm/confm.c:211-236 | blank lines, comments and devices, each indented at will and with any separator and any text before the name, register the names of the devices in order; text behind the last newline does not count |
| ConfigText.WrittenOutcome | Tasks/+TASKS/confm/confm.c:211-240 | such a text registers all its names, or ends with the code of the first that is refused |
| ConfigText.OtherKeyRefused | Tasks/+TASKS/confm/confm.c:221-226 | a line with another first word refuses the whole configuration |
| ConfigParser.StrSep | Tasks/+TASKS/confm/confm.c:221 | cuts the text at the first delimiter in place and leaves the rest of it and everything behind it intact |
| ConfigParser.LastToken | Tasks/+TASKS/confm/confm.c:227-228 | the loop ends with the last field, nothing behind the line changed |
| ConfigParser.ParseFields | Tasks/+TASKS/confm/confm.c:221-228 | a line is understood as its classification says |
| ConfigParser.NextLine | Tasks/+TASKS/confm/confm.c:213-216 | leading spaces are skipped and the first newline ends the line, or no line is left |
| ConfigParser.Devices.NextDev | Tasks/+TASKS/confm/confm.c:147-173 | a refused registration changes nothing and returns its code, -ENOMEM without room; otherwise one device with the name, the minor number of its registration and an empty queue of its own follows those before |
| ConfigParser.Devices.EraseDev | Tasks/+TASKS/confm/confm.c:175-186 | drops the first device and keeps the others |
| ConfigParser.Devices.Open | Tasks/+TASKS/confm/confm.c:122-133 | finds the first device with the minor number, if there is one |
| ConfigParser.OpenReachesOwn | Tasks/+TASKS/confm/confm.c:122-170 | when the kernel gives out different minor numbers, opening by the number of a device reaches that device |
| ConfigParser.Devices.ConfWrite | Tasks/+TASKS/confm/confm.c:90-112 | appends all bytes to one channel and leaves every other channel's sequence unchanged |
| ConfigParser.Devices.ConfRead | Tasks/+TASKS/confm/confm.c:56-88 | removes the smaller of count and available from the front of one channel and leaves every other unchanged |
| ConfigParser.Devices.Init | Tasks/+TASKS/confm/confm.c:211-240 | the in-place parser ends and is all or nothing: success registers the parsed names with the minor numbers given out and separate queues, a bad key or refused registration leaves no device and gives its error code |
| CuseModel.WriteMeans | Tasks/fuse/cusexmp.c:65-75 | a write within 64 bits fails only when the allocation does; otherwise the size is the larger of both ends, bytes outside the range are kept and a gap is zero |
| CuseModel.PutInsideIff | Tasks/fuse/cusexmp.c:132-136 | once the resize has succeeded the range copied lies inside the buffer exactly when offset plus size is below 2^64, and then the write is the plain one |
| CuseModel.ResizeMeans | Tasks/fuse/cusexmp.c:31-44 | a resize keeps the common front, fills growth with zeros, and needs memory unless the size stays or becomes 0 |
| CuseModel.ReadMeans | Tasks/fuse/cusexmp.c:59-63 | a read gives the bytes from the offset on, as many as asked for or as the device has, and none beyond its end |
| CuseModel.ReadAfterWrite | Tasks/fuse/cusexmp.c:55-75 | a read of the range written returns what was written |
| CuseModel.ShrinkThenGrow | Tasks/fuse/cusexmp.c:31-44 | growing after shrinking yields zeros behind the smaller size |
| CuseModel.DecodeEncode | Tasks/fuse/cusexmp.c:116-120 | a size word stored in memory is read back |
| CuseModel.LittleEndian | Tasks/fuse/cusexmp.c:116-120 | its least significant byte comes first |
| CuseModel.OnlyFinalRoundChanges | Tasks/fuse/cusexmp.c:76-176 | whatever the caller passes, every round of a call, the last one included, begins with the store as it was before the call; failing and reading calls leave it so |
| CuseModel.ReadOutcome | Tasks/fuse/cusexmp.c:76-130 | FIOC_READ ends after exactly two retries as one plain read, the store untouched |
| CuseModel.ReadDelivers | Tasks/fuse/cusexmp.c:76-130 | the caller of FIOC_READ finds the number of bytes that the device has from the offset on up to the size asked for, those bytes in the buffer, and the size in both fields |
| CuseModel.RefusedCalls | Tasks/fuse/cusexmp.c:146-149 | callers with another word size and unknown commands are refused at once and change nothing |
| CuseModel.WriteOutcome | Tasks/fuse/cusexmp.c:76-138 | FIOC_WRITE ends after at most two retries, for every offset and size, as one write of the server, with ENOMEM and no change, or with a copy beyond the buffer |
| CuseModel.WriteInsideIff | Tasks/fuse/cusexmp.c:132-136 | when the memory asked for can be had, a call stays inside the buffer exactly when offset plus size is below 2^64, and is then one plain write |
| CuseModel.MinusOneWritesOutside | Tasks/fuse/cusexmp.c:132-136 | offset 2^64 - 1 with one byte leaves the buffer, whatever the device holds |
| CuseModel.WriteReportsIff | Tasks/fuse/cusexmp.c:107-137 | a successful write leaves both sizes with the caller exactly when it has at least one byte, or they were there already |
| CuseModel.EmptyWriteReportsNothing | Tasks/fuse/cusexmp.c:110-137 | a concrete write of no bytes that reports no size |
| CuseModel.SizesAndDataReported | Tasks/fuse/cusexmp.c:92-130 | after a read the caller finds old size, new size and data, and nothing else changed |
| CuseModel.SizesReported | Tasks/fuse/cusexmp.c:92-137 | after a write the caller finds old and new size, and nothing else changed |
| CuseModel.GetSizeOutcome | Tasks/fuse/cusexmp.c:151-158 | FIOC_GET_SIZE stores the size after one retry |
| CuseModel.SetSizeOutcome | Tasks/fuse/cusexmp.c:159-167 | FIOC_SET_SIZE resizes when it can and reports success either way |
| CuseModel.SetSizeTrueIff | Tasks/fuse/cusexmp.c:159-167 | the success reported is true exactly when the size was there before, or is 0, or the memory can be had |
| CuseModel.SetSizeReportsFailureAsSuccess | Tasks/fuse/cusexmp.c:159-167 | a concrete call that reports success and keeps the old size |
| Cuse.Device.Resize | Tasks/fuse/cusexmp.c:31-44 | keeps the common front, zero-fills growth, changes nothing on failure |
| Cuse.Device.Read | Tasks/fuse/cusexmp.c:55-64 | returns the slice clipped to the device |
| Cuse.Device.Write | Tasks/fuse/cusexmp.c:65-75 | has the effect of the write on byte sequences and none on failure; stops where the copy would leave the buffer |
| Cuse.Device.DoRw | Tasks/fuse/cusexmp.c:76-139 | one round of a read or write command does what the protocol says |
| Cuse.Device.Ioctl | Tasks/fuse/cusexmp.c:140-176 | one round of any command does what the protocol says |
| MemMax.DoublingEndsIff | Tasks/+TASKS/memmax/memmax.c:15-41 | the first loop ends exactly for limits below 2^63, or with vmalloc; otherwise the bound wraps around to 0, which kmalloc never fails |
| MemMax.Double | Tasks/+TASKS/memmax/memmax.c:32-41 | the bound ends at the first power of two times a page beyond the limit, after d doublings and d + 1 probes; with vmalloc and a limit of 2^63 or more at 0 |
| MemMax.Bisect | Tasks/+TASKS/memmax/memmax.c:43-57 | from any start around the limit the result is at most 2 below it; from an interval of width 2^j aligned to it, exact after j probes |
| MemMax.Search | Tasks/+TASKS/memmax/memmax.c:26-60 | finds the limit exactly if and only if it is below 2^63 and half a page can be allocated; 2d + 12 probes for a page of 4096 bytes |
| Iter.DoubledIsPower | Tasks/+TASKS/memmax/iter.c:42-46 | no doubling wraps around up to 2^63 |
| Iter.DoubledWraps | Tasks/+TASKS/memmax/iter.c:42-46 | from the 64th doubling on the bound is 0 |
| Iter.DoublingEndsIff | Tasks/+TASKS/memmax/iter.c:42-46 | the first loop ends exactly for targets up to 2^63 |
| Iter.Search | Tasks/+TASKS/memmax/iter.c:40-57 | both loops end without wrap-around and find the target, exactly if it is not 0 |
| RegulatorModel.StepIs | Tasks/+TASKS/asu/locl.c:11 | a step moves the value by its percentage towards the other side of zero, rounded towards zero |
| RegulatorModel.StepMeans | Tasks/+TASKS/asu/cli.c:60-64 | a step adds a hundredth of the negated value times the gain up to a remainder below 100 |
| RegulatorModel.Overshoots | Tasks/+TASKS/asu/cli.c:57-69 | from 100 to 199 percent a step shrinks every nonzero value and never keeps its sign |
| RegulatorModel.Approaches | Tasks/+TASKS/asu/cli.c:57-69 | from 1 to 100 percent a step never grows or changes sign, and rests exactly when the product with the gain is below 100 |
| RegulatorModel.ApproachesAlways | Tasks/+TASKS/asu/cli.c:57-69 | nor does any number of steps |
| RegulatorModel.Swings | Tasks/+TASKS/asu/cli.c:57-69 | at 200 percent the value swings between itself and its negative |
| RegulatorModel.Diverges | Tasks/+TASKS/asu/cli.c:57-69 | above 200 percent no value shrinks |
| RegulatorModel.DivergesAlways | Tasks/+TASKS/asu/cli.c:57-69 | nor in any number of steps within int |
| RegulatorModel.ShrinksIff | Tasks/+TASKS/asu/cli.c:57-69 | the gains that shrink every nonzero value are exactly 100 to 199 percent |
| RegulatorModel.GeometricDecay | Tasks/+TASKS/asu/cli.c:57-69 | after n steps the value times 100^n is at most the first value times (k - 100)^n, in absolute terms |
| Regulator.Loop.DoStep | Tasks/+TASKS/asu/locl.c:11 | within int the change has the sign of the product, is its hundredth up to a remainder below 100, and does not wrap around; in 64 bits otherwise |
| Regulator.Loop.Regulate | Tasks/+TASKS/asu/cli.c:57-69 | makes as many steps as allowed, or ends earlier exactly at the first value that is 0, or 1 or -1 for the second time; with enough steps ends at 0 for gains 100 to 199, at rest for gains 1 to 99, at the same distance for 200; for gains up to 100 never beyond the start or across zero |
| Regulator.RanMeans | Tasks/+TASKS/asu/cli.c:57-69 | any such run of steps leaves the value so |
| Regulator.Loop.Disturb | Tasks/+TASKS/asu/cli.c:34-69 | a disturbance of 0 changes nothing, any other one is regulated from its value with the outcome above |
| Regulator.Loop.Commands | Tasks/+TASKS/asu/cli.c:18-70 | after any sequence of commands the value is the outcome of the last disturbance with the last gain and length set before it, and later commands have left it alone |
| Regulator.LastGainIs | Tasks/+TASKS/asu/cli.c:25-30 | the gain in force is the last one that is not 0 |
| Regulator.LastLengthIs | Tasks/+TASKS/asu/cli.c:42-47 | and so is the number of steps |
| Regulator.NoSettings | Tasks/+TASKS/asu/cli.c:25-47 | settings of 0 change neither |
| Barrier.WorkKeepsInv | Tasks/+TASKS/synch/pamixad.c:17-28 | every step of a worker keeps the barrier's invariant |
| Barrier.MainKeepsInv | Tasks/+TASKS/synch/pamixad.c:30-53 | every step of main keeps it |
| Barrier.FinalCounts | Tasks/+TASKS/synch/pamixad.c:17-49 | in every run `final` is main's signal plus the number of exited workers, and nobody exits before the signal |
| Barrier.QuietAfterSpin | Tasks/+TASKS/synch/pamixad.c:44-51 | once main is past its spin no worker makes a step and the data stays |
| Barrier.CellsCountStores | Tasks/+TASKS/synch/pamixad.c:19-22 | in every run each cell holds the number of times its worker has written it |
| Barrier.PrintedTotals | Tasks/+TASKS/synch/pamixad.c:45-51 | the counts printed are those numbers, and when the cells are freed no worker can write |
| Barrier.BarrierEnds | Tasks/+TASKS/synch/pamixad.c:17-44 | after the signal at most 4 worker steps per thread remain, and when none is left main passes |
| DubflModel.SizeExactIff | Tasks/blkdev/dubfl/dubfl.c:136-137 | for a file of any length, the byte size is 512 times the sector count exactly when that count, as an unsigned int, is below 2^23 |
| DubflModel.LoadedInsideIff | Tasks/blkdev/dubfl/dubfl.c:74-143 | after a successful load every accepted request lies inside the image exactly when the sector count of the file, as an unsigned int, is below 2^23 |
| DubflModel.BeyondFourGigabytes | Tasks/blkdev/dubfl/dubfl.c:74-143 | a file of 4 GiB and one sector is loaded as one sector and accepts a request for the second |
| DubflModel.ServeKeepsOk | Tasks/blkdev/dubfl/dubfl.c:52-83 | on a well-formed disk no accepted request leaves the image, and requests keep its size |
| DubflModel.ServeMeans | Tasks/blkdev/dubfl/dubfl.c:52-83 | a file system request for sectors that the disk has is carried out on exactly their bytes; any other one gets -EIO and changes nothing |
| DubflModel.ServedInOrder | Tasks/blkdev/dubfl/dubfl.c:65-86 | each request of a queue is served on the disk that those before it have left |
| DubflModel.LoadMeans | Tasks/blkdev/dubfl/dubfl.c:115-157 | what a file of at least a sector and less than 4 GiB is loaded as, and the codes of a load that fails |
| DubflModel.LongNames | Tasks/blkdev/dubfl/dubfl.c:119 | only the first 160 characters of a name count |
| DubflModel.SaveMeans | Tasks/blkdev/dubfl/dubfl.c:174-177 | the save command puts the image in front of what the file has behind it and leaves other files alone; without an image it is refused with -EFAULT |
| DubflModel.UnlinkMeans | Tasks/blkdev/dubfl/dubfl.c:107-113 | the unlink command leaves no file, no image and no size, and all files as they are |
| DubflModel.ReadAfterWrite | Tasks/blkdev/dubfl/dubfl.c:52-60 | sectors just written are read back, other sectors as before |
| DubflModel.LoadDiskReports | Tasks/blkdev/dubfl/dubfl.c:115-187 | the load command always reports success; the file is loaded exactly when it is there, its 32-bit size is not 0 and memory is found; what a failed load leaves |
| DubflModel.FailedLoadReportsSuccess | Tasks/blkdev/dubfl/dubfl.c:123-187 | a missing file and a load without memory, which drops the image, both reported as success |
| DubflModel.StepKeepsSound | Tasks/blkdev/dubfl/dubfl.c:62-191 | whatever files there are, each request, and each ioctl that loads no file whose sector count, as an unsigned int, is 2^23 or more, keeps the image at the sectors of its file, and the lengths and tails of all files |
| DubflModel.RunKeepsSound | Tasks/blkdev/dubfl/dubfl.c:62-191 | the same over every run |
| DubflModel.LoadThenSave | Tasks/blkdev/dubfl/dubfl.c:89-157 | saving a freshly loaded image leaves every file as it was, whatever its size |
| DubflModel.ImageSurvives | Tasks/blkdev/dubfl/dubfl.c:52-157 | for a file whose sector count, as an unsigned int, is below 2^23: load, any requests, save, unlink, load again restores the same image; the file keeps its length and tail, other files are untouched |
| DubflModel.CommandsRestoreImage | Tasks/blkdev/dubfl/dubfl.c:52-191 | the same as a run of commands and requests: load, any requests, save, unlink and load bring the disk back as after the requests, and the file has its image in front of the old tail |
| Dubfl.OwnDisk.UnlinkFile | Tasks/blkdev/dubfl/dubfl.c:107-113 | leaves no file, no image and no size |
| Dubfl.OwnDisk.LoadFile | Tasks/blkdev/dubfl/dubfl.c:115-157 | has the state and the return code of a load, with the sectors copied one by one |
| Dubfl.OwnDisk.SaveFile | Tasks/blkdev/dubfl/dubfl.c:89-105 | the sector loop overwrites exactly the front of the file |
| Dubfl.OwnDisk.MyRequest | Tasks/blkdev/dubfl/dubfl.c:62-87 | the queue is served in order, with the status and bytes of each request, and the disk stays well formed |
| Dubfl.OwnDisk.NewIoctl | Tasks/blkdev/dubfl/dubfl.c:160-191 | each command has its effect and return code; save without a file or image is refused |
| TranslateModel.TranslationMeans | Tasks/load_module/plugin/master.c:85-102 | the characters skipped are the prefix of the radix chosen; an invalid digit behind them gives an error, valid ones the low 32 bits of their value |
| TranslateModel.DigitsAre | Tasks/load_module/plugin/hex.c:3-20 | the characters of the digit tables of each radix, and no others, are its digits |
| TranslateModel.OtherTextsRefused | Tasks/load_module/plugin/master.c:85-91 | a text that begins with anything but a digit gives -EINVAL; the empty text does not |
| TranslateModel.I32Means | Tasks/load_module/plugin/master.c:101 | the int result differs from the number by a multiple of 2^32 |
| TranslateModel.ValueOfNumeral | Tasks/load_module/plugin/hex.c:8-24 | the digits of a number in any of the radixes are read back as the number |
| TranslateModel.NumeralOfValue | Tasks/load_module/plugin/hex.c:8-24 | digits without leading zeros are, up to case, the digits of their value |
| TranslateModel.DispatchSpelling | Tasks/load_module/plugin/master.c:85-91 | each spelling of a number goes to its own slave |
| TranslateModel.SpellingTranslates | Tasks/load_module/plugin/master.c:85-106 | decimal, octal and hexadecimal spellings in either case translate back to the number exactly when it is below 2^31 |
| TranslateModel.SpellingFits | Tasks/load_module/plugin/master.c:80-82 | those spellings fit the buffer of 80 characters |
| TranslateModel.LeavesSlaveIff | Tasks/load_module/plugin/master.c:94-105 | a call leaves its slave loaded exactly when loading succeeds and the text behind the prefix has an invalid digit or a value of 2^31 or more in 32 bits, or unloading fails |
| TranslateModel.SysCallCodes | Tasks/load_module/plugin/master.c:85-106 | the number exactly when nothing goes wrong, and otherwise -EINVAL, the code of loading, the negative value read, or the code of unloading |
| TranslateModel.StuckForever | Tasks/load_module/plugin/master.c:94-105 | with a slave loaded every call fails and the slave stays |
| TranslateModel.BlockedFrom | Tasks/load_module/plugin/master.c:94-106 | from the first call on that leaves its slave, every call fails, whatever its text |
| TranslateModel.CleanIff | Tasks/load_module/plugin/master.c:94-106 | no slave is left loaded at the end of a sequence exactly when no call has such a text or fails to unload |
| TranslateModel.EightIsNoOctalDigit | Tasks/load_module/plugin/master.c:85-105 | the text 08 leaves the octal slave, after which 7 is refused |
| TranslateModel.NumbersInOrder | Tasks/load_module/plugin/master.c:77-107 | any sequence of calls with spelled numbers below 2^31 gives those numbers in order and leaves no slave loaded |
| Plugin.DecTranslate | Tasks/load_module/plugin/dec.c:5-16 | the loop returns the value of the digits in 64 bits, or -EINVAL exactly if one is invalid |
| Plugin.OctTranslate | Tasks/load_module/plugin/oct.c:5-16 | the same in base 8 |
| Plugin.HexTranslate | Tasks/load_module/plugin/hex.c:6-25 | the same in base 16, for digits of either case |
| Plugin.Master.SysStrTranslate | Tasks/load_module/plugin/master.c:77-107 | result and loaded slave of one system call |

## Left out

Parts of the code the models do not cover:

- Registration with the kernel, procfs, sysfs, printing, copying to and from user space as such, sleeping and timing.
- `fsel.c`: getattr, readdir and the `polled_zero` statistics; in the class the open mask changes in single steps, the interleaved accesses being in FselOpen; a handle passed to poll is assumed fresh, as the FUSE library makes it.
- `mlock.c`: counters are unbounded where the source has a C long, `max_level` is at least 0, and thread creation succeeds.
- `block_mod_s.c`: bios have one segment, since for more segments the driver takes the whole bio's sector count for each of them; byte offsets of sectors fit 64 bits.
- `queuel.c` and `confm.c`: allocation of blocks and the copies to and from the caller succeed; positions are unbounded.
- `confm.c`: reading the file and its name; the queue of an erased device is dropped with it; the error codes of a registration include those of its allocations; opening an unknown minor number, after which the source follows a null pointer, ends in None.
- `cusexmp.c`: what a copy beyond the buffer overwrites; the limits of the FUSE kernel module on the number and size of the pieces of a round.
- `memmax.c`: the choice between the two allocators and its error, and the output.
- `iter.c`: reading the target, which is a parameter.
- `cli.c`: reading and printing at the command prompt, and its options; the /proc and /sys back-ends.
- `pamixad.c`: the log output, and allocation and thread creation, which succeed; overflow of the thread counter.
- `dubfl.c`: a request has one segment; file transfers move full sectors; files are not removed or resized by others while they are open; saving in the exit function after an unlink; geometry and media change.
- `master.c`: finding the symbols of the kernel and patching its table; the names of the module files; a slave unloaded by hand between two calls; a text of 80 or more characters, for which the source has no room.

Contracts that state less than the source's text suggests:

- BlockDev.QueueModesAgree: harmless pieces are sufficient for a queue, not necessary, because a later write may hide a misplaced one (BlockDev.MaskedPiece); for one piece the condition is exact (BlockDev.PieceAgreesIff), and for queues of writes there is an exact one (BlockDev.WriteQueuesAgreeIff); for queues with reads the exact condition is not stated.
- CuseModel.WriteInsideIff: the device and the caller's memory hold less than 2^63 bytes.
- Mlock.CountsWhenMainPasses: `num` below 1 is covered as one thread, because the first thread is started in any case.
- CuseModel.ReadOutcome: the argument structure and its buffer lie in the caller's memory; otherwise the kernel ends the call with a fault before the server is asked.
- CuseModel.SizesAndDataReported: the caller's buffer does not overlap the two size fields.
- Regulator.Loop.Regulate: nothing is promised about the outcome for values that do not fit an int, or whose int cannot be negated.
- ConfigParser.Devices.Init: nothing is promised about the devices when a null name is used.
- Queue.Queue.Read: does not model the file position, which no operation looks at.
- MemMax.Search: says nothing for kmalloc and a limit of 2^63 or more, for which the source never ends (MemMax.DoublingEndsIff).
- Iter.Search: says nothing for targets above 2^63, for which the source never ends (Iter.DoublingEndsIff).
