# Nachos in Dafny

A model of the parts of this Nachos tree, and of one protocol of the UNIX homework, whose correctness
depends on several functions at once, with proofs of what they promise. `dafny verify dfyconfig.toml`
checks everything.

**The file system** (`Bits`, `BitMap`, `Sectors`, `FileHeader`, `OpenFile`, `Directory`, `MapFile`,
`Format`, `FileSystem`, `StaleHandle`, `StaleReuse`, `Session`, `FileTest`, and the `Volume` files). The
classes have the source's fields and methods and work on a disk of 1024 sectors of 128 bytes. What a disk
holds is a `Catalog` (module `Volumes`): the marked sectors, the directory table, an owner (header sector,
header, extent) for each of the two system files and each listed file, and the contents. `Describes` says
that an image holds a catalog, by decoding the sectors alone, and `DescribedOnce` that it holds only one,
so the ghost field of `FileSystem` is no hidden state. `Consistent` says that the free map marks exactly
the sectors of the owners and that these are pairwise disjoint. Every operation keeps both and acts on
`Files`, a map from 9-character keys to byte strings: `Create` succeeds if and only if the key is new and
fewer than ten files exist (the failures for want of sectors cannot happen, by the count in `FreeSpace`
and `RoomForAnother`), `Remove` takes one file away, writes through a handle overlay bytes of one file.
`Sessions.Execute` carries out any sequence of calls on a `FileSystem` object: creations, removals,
openings, and seeks, reads and writes on any of the handles opened so far, in any order. Every outcome,
failures and bytes read included, and what the disk holds at last are those of the same calls on the map
and a list of handles with their positions; `Sessions.ReadsBack` follows for every such run.

**Threads and synchronization** (`Sequences`, `Counting`, `Semaphore`, `Lock`, `Condition`, `SynchList`,
`LockedDevice`, `SynchDisk`, `BoundedBuffer`, `BufferMonitor`, `BufferProgress`, `Threads`). Concurrency
is a step system: each segment during which no interrupt is taken is one step, any thread may step next,
and theorems hold in every state of every run of any number of threads. Progress is stated too: from every
reachable state the calls that have begun can go on to their end (`Locks.EveryoneServed`,
`SynchLists.CallsReturn`, `LockedDevices.AllReturn`, `BufferProgress.ComesToRest`). `Condition` is what
`synch.cc` makes it, a counting semaphore that remembers signals, and `Wait` is not atomic, although
`synch.h` says it is; `SynchList` loses no wakeup all the same, and the bounded buffer does, exactly when
`StrandedExactly` says. `LockedDevices` is the pattern that `SynchDisk` and the post office share: a lock
around a device that reports completion by an interrupt. `Semaphore`, `Kernel` (thread and scheduler),
`Interrupt` and `Table` (the philosophers') are also classes, whose methods are proved to be steps of
their systems and to keep the invariants, so that what is proved of runs holds of the objects.

**The machine** (`List`, `Interrupt`, `Disk`, `Mult`, `Translate`). The linked list with first and last
pointers; the interrupt simulator on top of it, with handlers that are arbitrary functions of the firing
number; the disk's latency and track buffer; the 32-bit multiplication loop; address translation.

**The post office** (`Mail`, `Subsequence`, `PostOffice`, `Mailbox`): the packet format and a whole network of
machines with losses. Time, and with it the polling interrupt, advances only when interrupts are enabled
or an instruction is executed (`interrupt.cc:124-125`, `mipssim.cc:41`), so the two statements in which
the network hands a packet over are one step. **The dining philosophers** (`Philosophers`), for any number
of them.

## Results that are not what one might expect

- A finished thread is not always deleted. The deletion is in the part of `Scheduler::Run` after the
  switch, which a thread dispatched for the first time does not execute, and `threadToBeDestroyed` holds
  one thread. A thread that has finished is forgotten at the next finish if and only if only threads
  dispatched for the first time have run in between (`Threads.ForgottenExactly`); it is then never deleted
  (`Threads.ForgottenForEver`), and `Threads.AThreadIsForgotten` gives a run in which it happens.
- A reader or writer of the bounded buffer can sleep for ever beside the bytes or the room it waits for:
  a signal wakes one waiter, whose own request may be too large. Some run does this if and only if there
  are two threads and two sizes in use, the smaller positive and no larger than the buffer
  (`BufferMonitors.StrandedExactly`, with the run in its proof).
- `Condition::Broadcast` is to wake all who wait. In any reachable state in which a thread is about to test
  the counter and somebody sleeps, the call may return with everybody who slept asleep all the while; it is
  sure to wake all who sleep if and only if nobody sleeps, and it may wake them all if and only if the
  counter is not 0 at that test (`Conditions.BroadcastWakes`). `Conditions.BroadcastWakesNobody` is a
  run in which it wakes nobody.
- A handle outlives its file. What is written through a handle is harmless, whatever and wherever, if and
  only if none of the data sectors that its header names is marked (`StaleHandles.HarmlessExactly`). For a
  handle on a removed file that is so at first (`StaleHandles.RemovedUnmarked`), and no longer when another
  file of the same size is created next: as allocation is first-fit, it gets the same sectors, and the old
  handle reads and writes the new file (`StaleReuse.Reused`, `StaleReuse.ReusedWrite`; `StaleReuse.Spoil`
  makes the calls).
- `SynchList::Remove`'s assertion fails exactly when the next item in order was appended as NULL
  (`SynchLists.AssertionFailsOnNull`); `SynchLists.AssertionFails` is a run in which it does.
- `Lock`'s constructor leaves `threadHoldLock` unset, so `isHeldByCurrentThread` is wrong for a thread
  that does not hold the lock if and only if nobody has acquired it yet and the unset field names that
  thread (`Locks.RecordWrongExactly`; `Locks.RecordWrongOnce` is such a run).
- Of the failures that `FileSystem::Create` tests for, those for want of a free sector are unreachable.

## Model

| member | source | states |
|---|---|---|
| BitMaps.FirstClearMeans | nachos/code/userprog/bitmap.cc:94-104 | the index that Find returns is the least clear bit, or -1 exactly when all are marked |
| BitMaps.CountClearMark | nachos/code/userprog/bitmap.cc:46-52 | marking a clear bit lowers the count of clear bits by one |
| BitMaps.BitMap.Mark | nachos/code/userprog/bitmap.cc:46-52 | sets one bit of the map of words and leaves every other bit |
| BitMaps.BitMap.Clear | nachos/code/userprog/bitmap.cc:60-66 | clears one bit of the map of words and leaves every other bit |
| BitMaps.BitMap.Test | nachos/code/userprog/bitmap.cc:74-83 | the mask test tells whether the bit is set |
| BitMaps.BitMap.Find | nachos/code/userprog/bitmap.cc:94-104 | returns and marks the first clear bit, or -1 with nothing changed |
| BitMaps.BitMap.NumClear | nachos/code/userprog/bitmap.cc:111-120 | counts the clear bits |
| Bits.MaskTest | nachos/code/userprog/bitmap.cc:79 | a word masked with a power of two is non-zero exactly when it has that bit |
| Bits.BitMeans | nachos/code/userprog/bitmap.cc:79 | bit k of a byte is what is left of dividing by 2 to the power k |
| MapFile.FetchFrom | nachos/code/userprog/bitmap.cc:148-152 | the words in memory are overlaid with what the file holds; a file that holds the whole map replaces it |
| MapFile.WriteBack | nachos/code/userprog/bitmap.cc:161-165 | the file is overlaid with the words of the map, as far as they fit; from one of the map's size fetching recovers the map; no sector outside the file changes |
| MapFile.MapLayout | nachos/code/userprog/bitmap.cc:148-165 | the bit of sector k is bit k % 8 of byte k / 8 of the map's file |
| FileHeaders.HeaderRoundTrip | nachos/code/filesys/filehdr.cc:77-94 | a header written to a sector is the one read from it |
| FileHeaders.HeaderLayout | nachos/code/filesys/filehdr.h:20-62 | the length comes first in the sector, then the number of sectors, then the table; the table's size and the largest length follow |
| FileHeaders.ContentsJoined | nachos/code/filesys/filehdr.cc:106-110 | the contents are the data sectors in the order of the table, joined and cut to the length |
| FileHeaders.ClaimsCount | nachos/code/filesys/filehdr.cc:41-53 | claiming n sectors one by one lowers the count of clear bits by n |
| FileHeaders.ClaimGrants | nachos/code/filesys/filehdr.cc:49-51 | sectors claimed one by one are distinct, were clear, and are exactly those newly marked |
| FileHeaders.GrantedData | nachos/code/filesys/filehdr.cc:41-53 | the data sectors of an allocated header are those that the allocation marked |
| FileHeaders.ContentsFrame | nachos/code/filesys/filehdr.cc:106-110 | a file's contents depend on its data sectors only |
| FileHeaders.FileHeader.Allocate | nachos/code/filesys/filehdr.cc:41-53 | fails with nothing changed if too few sectors are free; otherwise claims the number needed, distinct and free before |
| FileHeaders.FileHeader.Deallocate | nachos/code/filesys/filehdr.cc:61-68 | clears exactly the data sectors, all of which must be marked, as its assertion demands |
| FileHeaders.FileHeader.FetchFrom | nachos/code/filesys/filehdr.cc:77-81 | the header in memory becomes the one parsed from the sector |
| FileHeaders.FileHeader.WriteBack | nachos/code/filesys/filehdr.cc:90-94 | the sector then parses to the header, and no other sector changes |
| OpenFiles.LoadedWindow | nachos/code/filesys/openfile.cc:133-142 | a window of the sectors staged in the buffer is the same window of the file's contents |
| OpenFiles.FlushedContents | nachos/code/filesys/openfile.cc:164-184 | after the staged sectors are written, the contents are the old ones overlaid with the bytes written, below the file length |
| OpenFiles.FlushedFrame | nachos/code/filesys/openfile.cc:178-184 | flushing changes no sector that is not the file's |
| OpenFiles.PortionMeans | nachos/code/filesys/openfile.cc:124-127 | a read gets what was asked for, or what is left of the file; nothing at its end or beyond |
| OpenFiles.PatchedMeans | nachos/code/filesys/openfile.cc:154-158 | a write replaces as many bytes as it has, or as are left of the file; nothing at its end or beyond |
| OpenFiles.OpenFile.ReadAt | nachos/code/filesys/openfile.cc:116-144 | returns the number asked for or, if less is left of the file, what is left, and 0 beyond its end; puts these bytes of the contents into the buffer and changes nothing else of it |
| OpenFiles.OpenFile.WriteAt | nachos/code/filesys/openfile.cc:146-186 | the same number; the contents are the old ones with these bytes in place of as many at the position, for every alignment, and no sector outside the file changes |
| OpenFiles.OpenFile.Read | nachos/code/filesys/openfile.cc:74-80 | the same at the seek position, which moves on by the result |
| OpenFiles.OpenFile.Write | nachos/code/filesys/openfile.cc:82-88 | the same at the seek position, which moves on by the result |
| Directories.EqualKeys | nachos/code/filesys/directory.cc:90-98 | strncmp over nine characters tells two names equal exactly when their keys are equal |
| Directories.CopiedKey | nachos/code/filesys/directory.cc:139 | the name that strncpy stores has the key of the name given, NUL or not |
| Directories.KeyIsPrefix | nachos/code/filesys/directory.cc:94 | a key is the string up to its NUL, cut to nine characters |
| Directories.TableRoundTrip | nachos/code/filesys/directory.cc:63-80 | a table written to bytes is the one read from them |
| Directories.TableLayout | nachos/code/filesys/directory.h:32-39 | entries of twenty bytes one after the other, and in each the flag, the sector and the name at their offsets |
| Directories.Directory.WriteBack | nachos/code/filesys/directory.cc:76-80 | the file is overlaid with the bytes of the table, as far as they fit; from one of the table's size fetching recovers the table; no sector outside the file changes |
| Directories.Directory.FetchFrom | nachos/code/filesys/directory.cc:63-67 | the table in memory is overlaid with what the file holds; a file that holds the whole table replaces it |
| Directories.Directory.FindIndex | nachos/code/filesys/directory.cc:90-98 | the first entry in use with the key, or -1 when there is none |
| Directories.Directory.Find | nachos/code/filesys/directory.cc:108-116 | the sector of that entry, or -1 |
| Directories.Directory.Add | nachos/code/filesys/directory.cc:129-145 | fails when the key is taken or no entry is free; otherwise fills the first free entry and changes no other |
| Directories.Directory.Remove | nachos/code/filesys/directory.cc:153-162 | frees the entry of the key and changes no other; fails when there is none |
| Volumes.DescribedOnce | nachos/code/filesys/filesys.cc:80-144 | the sectors determine the whole state of the file system |
| Volumes.FileKept | nachos/code/filesys/filehdr.cc:106-110 | a file none of whose sectors changed keeps its header and contents |
| VolumeOps.Created | nachos/code/filesys/filesys.cc:191-211 | entering a file with an extent of unmarked sectors keeps the free map exact and the owners disjoint, and adds one file to the map |
| VolumeOps.Removed | nachos/code/filesys/filesys.cc:267-284 | taking a file out keeps both, and removes one file from the map |
| VolumeOps.CreateRemove | nachos/code/filesys/filesys.cc:174-288 | removing the file just created restores the marked sectors and the map of files |
| VolumeOps.Written | nachos/code/filesys/openfile.cc:146-186 | a write to one file changes that file's bytes in the map, and nothing else |
| VolumeSpace.FreeSpace | nachos/code/filesys/filesys.cc:80-144 | conservation: the clear bits are all sectors less the five of the system files and those of the listed files |
| VolumeSpace.RoomForAnother | nachos/code/filesys/filesys.cc:189-199 | while a directory entry is free, so are a header sector and the sectors of a largest file |
| VolumeSpace.FullDirectory | nachos/code/filesys/directory.cc:129-145 | no entry is free exactly when ten files are listed |
| VolumeDisk.CreationFlushed | nachos/code/filesys/filesys.cc:203-207 | the header and the two tables written back make the disk hold the volume with the new file |
| VolumeDisk.RemovalFlushed | nachos/code/filesys/filesys.cc:281-282 | the two tables written back make the disk hold the volume without the file |
| VolumeDisk.ListedSector | nachos/code/filesys/filesys.cc:227-239 | the sector found for a name is the header sector of its file, and -1 means that it is not listed |
| VolumeDisk.ListedMarked | nachos/code/filesys/filehdr.cc:61-68 | the data sectors of a listed file are marked, so Deallocate's assertion holds |
| VolumeDisk.VolumeLayout | nachos/code/filesys/filesys.cc:57-65 | the header in sector 0 is that of the free map, of 128 bytes, and the one in sector 1 that of the directory, of ten entries of twenty bytes; both with their data sectors are marked |
| Formatting.LaidConsistent | nachos/code/filesys/filesys.cc:83-130 | the system files as Format lays them out are disjoint owners of exactly the marked sectors |
| Formatting.Format | nachos/code/filesys/filesys.cc:83-130 | a disk of any contents becomes one that holds the empty volume, and Allocate's assertions hold |
| FileSystems.FileSystem.constructor | nachos/code/filesys/filesys.cc:80-144 | formats, or opens the system files of a disk that holds a volume |
| FileSystems.FileSystem.Create | nachos/code/filesys/filesys.cc:174-215 | succeeds if and only if the key is new and fewer than ten files exist; adds one file of the size, in the first sectors that are free; a failure leaves the disk unchanged |
| FileSystems.FileSystem.Open | nachos/code/filesys/filesys.cc:227-239 | null exactly when the key is not listed; otherwise a handle on that file, at position 0 |
| FileSystems.FileSystem.Remove | nachos/code/filesys/filesys.cc:257-288 | succeeds exactly when the key is listed, and takes that file and no other away |
| FileSystems.FileSystem.WriteOpened | nachos/code/filesys/openfile.cc:146-186 | a write through a handle acts on the map of files, and the disk still holds a consistent volume |
| FileSystems.FileSystem.WriteStale | nachos/code/filesys/openfile.cc:146-186 | a write through any handle changes the sectors that its header names and no others, and leaves the volume as it was if none of these is marked |
| FileSystems.FileSystem.PutStale | nachos/code/filesys/openfile.cc:82-88 | a write at the seek position through a handle none of whose sectors is marked leaves the volume as it was, and the position moves on |
| FileSystems.FileSystem.Put | nachos/code/filesys/openfile.cc:82-88 | a write at the seek position acts on the map of files, and the position moves on by the result |
| FileSystems.FileSystem.Get | nachos/code/filesys/openfile.cc:74-80 | a read at the seek position gives the bytes of the map of files, and the position moves on by their number |
| FileSystems.FileSystem.GetAt | nachos/code/filesys/openfile.cc:116-144 | a read through a handle gives the bytes of the map of files |
| Sessions.Act | nachos/code/filesys/openfile.cc:74-186 | any seek, read or write on a handle of a listed file gives what it gives on a byte string with a position, changes that file in the map as it changes the string, and leaves every handle bound |
| Sessions.Session.Do | nachos/code/filesys/filesys.cc:174-288 | one call, of the file system or on any open handle, is a step of the map and the handles' positions, failing calls included |
| Sessions.Execute | nachos/code/filesys/filesys.cc:174-288 | any sequence of creations, removals, openings and operations on any of the open handles: every outcome, bytes read included, and what the disk holds at last, are those of the same calls on the map |
| Sessions.ReadsBack | nachos/code/filesys/openfile.cc:116-186 | bytes written through one handle are read back through any handle on the file, whatever calls come in between that do not remove it or write to it |
| Sessions.ReadsJoined | nachos/code/filesys/openfile.cc:74-80 | reads of any one size through a handle until one gets nothing, joined, are the file from the handle's position to its end |
| Sessions.LiveExactly | nachos/code/filesys/filesys.cc:257-288 | a handle is on a listed file as long as no removal of its name succeeds |
| Sessions.SeekThen | nachos/code/filesys/openfile.cc:55-59 | Seek sets the position: Read and Write after it are ReadAt and WriteAt there |
| FileTests.Print | nachos/code/filesys/fstest.cc:77-97 | whatever the size of the pieces, what is printed is the whole file, or nothing if the name is not listed |
| FileTests.Copy | nachos/code/filesys/fstest.cc:31-70 | succeeds if and only if the name is new and fewer than ten files exist, and then adds a file with exactly the data; otherwise changes no file |
| FileSystems.BoundStored | nachos/code/filesys/openfile.cc:116-144 | what a handle reads is what the map of files says |
| StaleHandles.HarmlessExactly | nachos/code/filesys/openfile.cc:146-186 | all writes through a handle leave the disk holding the same volume if and only if no data sector that its header names is marked |
| StaleHandles.RemovedUnmarked | nachos/code/filesys/filesys.cc:267-284 | when a file is removed, the sectors that a handle on it still names become unmarked |
| VolumeDisk.FirstFitOnce | nachos/code/filesys/filehdr.cc:41-53 | files of one size created while the same sectors are free have the same data sectors |
| StaleReuse.Reused | nachos/code/filesys/filesys.cc:174-288 | after create, open, remove and create of the same size, the old handle reads the new file's bytes, and is not harmless |
| StaleReuse.ReusedWrite | nachos/code/filesys/openfile.cc:146-186 | what is then written through the old handle is written to the new file, as by its own name, and nothing else changes |
| StaleReuse.Spoil | nachos/code/filesys/filesys.cc:174-288 | on any volume with room these calls succeed and leave such a handle |
| SemaphoreSystem.Semaphore.Test | nachos/code/threads/synch.cc:64-76 | one round of P: a unit less if there was one, or the caller at the end of the queue; keeps the invariant and the conservation of units |
| SemaphoreSystem.Semaphore.V | nachos/code/threads/synch.cc:87-98 | one unit more, and the first sleeper made ready, nobody only if nobody sleeps; keeps the invariant and conservation |
| Semaphores.TryPKeeps | nachos/code/threads/synch.cc:64-76 | the queue holds exactly the sleepers, and beside a sleeper there are no more units than woken threads still to test |
| Semaphores.VKeeps | nachos/code/threads/synch.cc:87-98 | V keeps that |
| SemaphoreSystem.SemaphoreRuns | nachos/code/threads/synch.cc:64-98 | over all interleavings: value = initial + Vs - Ps, and no unit lies idle beside a sleeper |
| SemaphoreSystem.WokenInTurn | nachos/code/threads/synch.cc:64-98 | who sleeps at position k of the queue is woken by the V number k + 1 |
| Semaphores.NoIdleUnit | nachos/code/threads/synch.cc:64-98 | with no woken thread still to test, a sleeper means that the value is 0 |
| Locks.LockRuns | nachos/code/threads/synch.cc:103-124 | value + holders = 1, two threads are never both inside, and the record names the holding thread and, after the first acquisition, no other |
| Locks.EveryoneServed | nachos/code/threads/synch.cc:103-124 | from every reachable state the threads in Acquire can go on until all have released the lock, each having held it once |
| Locks.RecordWrongExactly | nachos/code/threads/synch.cc:103-124 | the record names a thread that does not hold the lock if and only if nobody has acquired it yet and the unset record named that thread |
| Locks.RecordWrongOnce | nachos/code/threads/synch.cc:103-106 | a run in which it does |
| Locks.NoLostUnit | nachos/code/threads/synch.cc:112-120 | beside a thread asleep on the lock some thread is inside or woken |
| Conditions.StepKeeps | nachos/code/threads/synch.cc:126-153 | every step keeps: counter and units cancel out, but for threads between P or V and the counter |
| Conditions.CounterAtTest | nachos/code/threads/synch.cc:148-153 | whenever Broadcast tests the counter it is not positive, and 0 exactly when no unit is left over and nobody is just past P |
| Conditions.BroadcastWakes | nachos/code/threads/synch.cc:148-153 | while somebody sleeps, Broadcast may return having woken nobody: it is sure to wake all sleepers if and only if nobody sleeps, and may wake them all if and only if the counter is not 0 |
| Conditions.Drain | nachos/code/threads/synch.cc:136-153 | woken threads can use up the units so that Broadcast returns with every sleeper asleep throughout |
| Conditions.Rounds | nachos/code/threads/synch.cc:148-153 | once the test has let the loop go on, it can wake everybody and then return |
| Conditions.BroadcastReturns | nachos/code/threads/synch.cc:148-153 | one test of Broadcast's loop ends it exactly then, and changes nothing else |
| Conditions.BroadcastGoesOn | nachos/code/threads/synch.cc:148-153 | from a state with a unit left over the loop does not end before somebody passes P |
| Conditions.BroadcastWakesNobody | nachos/code/threads/synch.cc:136-153 | a run in which one thread waits, another broadcasts and returns, and the first sleeps on; nothing could have woken it before the return |
| SynchLists.StepKeeps | nachos/code/threads/synchlist.cc:53-86 | every step keeps the monitor's invariant: items do not outnumber units, credits and signals still to come |
| SynchLists.FirstInFirstOut | nachos/code/threads/synchlist.cc:53-86 | items leave in the order they came, none lost or made up; only one thread is inside; a remover that has seen an item finds it |
| SynchLists.AssertionFailsOnNull | nachos/code/threads/synchlist.cc:83 | at the assertion, the item found is NULL if and only if the next one in the order of appending was appended as NULL |
| SynchLists.AssertionFails | nachos/code/threads/synchlist.cc:53-86 | a run of one thread that ends where the assertion fails |
| SynchLists.NoLostWakeup | nachos/code/threads/synchlist.cc:53-86 | beside an item and a remover asleep on the condition there is an appender about to signal, a remover let through, or a woken one |
| SynchLists.NeverStuck | nachos/code/threads/synchlist.cc:53-86 | when every thread is idle or asleep, none sleeps on the lock, and one sleeps on the condition only if the list is empty |
| SynchLists.CallsReturn | nachos/code/threads/synchlist.cc:53-86 | from every reachable state the calls can go on until all have returned, but for removers asleep beside an empty list, with every item on its way appended |
| LockedDevices.StepKeeps | nachos/code/filesys/synchdisk.cc:72-109 | every step keeps: one thread inside, a unit or an outstanding interrupt for each waiter, tickets in order |
| LockedDevices.NeverBusy | nachos/code/machine/disk.cc:120-121 | the device is idle, and the request legal, whenever a thread hands it one |
| LockedDevices.OneAtATime | nachos/code/filesys/synchdisk.cc:72-98 | a thread about to return has its own request's interrupt behind it |
| LockedDevices.NeverStuck | nachos/code/filesys/synchdisk.cc:72-109 | when every thread is idle or asleep, an interrupt is due unless all are idle |
| LockedDevices.AllReturn | nachos/code/filesys/synchdisk.cc:72-109 | threads and interrupts can go on until all calls have returned, every request having been made and had its interrupt |
| SynchDiskProtocol.SynchDiskRuns | nachos/code/filesys/synchdisk.cc:72-109 | the disk is atomic: every read carries what was last written to its sector in lock order, and the assertion !active holds |
| SynchDiskProtocol.ReadsWhatWasWritten | nachos/code/filesys/synchdisk.cc:72-98 | a read returns the bytes of the latest write to its sector before it in lock order, or those there at first |
| SynchDiskProtocol.ReturnsAfterInterrupt | nachos/code/filesys/synchdisk.cc:72-98 | a call returns only after its own interrupt, with its own request answered |
| SynchDiskProtocol.CallsReturn | nachos/code/filesys/synchdisk.cc:72-109 | from every reachable state the disk's calls can go on until all have returned |
| BoundedBuffers.SlotIsRemainder | nachos/code/threads/BoundedBuffer.cc:28-31 | the remainder arithmetic is a step around the ring |
| BoundedBuffers.BoundedBuffer.Write | nachos/code/threads/BoundedBuffer.cc:21-36 | waits exactly when the bytes do not fit; otherwise adds all of them, contiguous, at the end of the queue |
| BoundedBuffers.BoundedBuffer.Read | nachos/code/threads/BoundedBuffer.cc:38-52 | waits exactly when there are not enough bytes; otherwise takes them from the front; bytes written = bytes read, then the contents |
| BoundedBuffers.BoundedBuffer.HeadMeetsTail | nachos/code/threads/BoundedBuffer.cc:21-52 | head meets tail only when the buffer is empty or full |
| BufferMonitors.StepKeeps | nachos/code/threads/BoundedBuffer.cc:21-52 | every step keeps: one thread inside, the queues are the sleepers, and whoever moves bytes has found that they fit or are there |
| BufferMonitors.StepEnough | nachos/code/threads/synch.cc:136-146 | with one size in use, a step keeps that beside a waiter there is less than the units, credits and signals to come will use |
| BufferMonitors.UnitNeverStrands | nachos/code/threads/BoundedBuffer.cc:21-52 | with one size in use, in every run nobody sleeps for ever beside what it waits for |
| BufferMonitors.StrandedExactly | nachos/code/threads/BoundedBuffer.cc:21-52 | some run strands a thread beside what it waits for if and only if there are two threads and two sizes, the smaller positive and fitting the buffer |
| BufferProgress.ComesToRest | nachos/code/threads/BoundedBuffer.cc:21-52 | from every reachable state the calls can go on until each has returned or sleeps; bytes are conserved on the way, and with one size in use whoever sleeps waits for what is not there |
| Threads.ThreadsPlaced | nachos/code/threads/thread.cc:87-226 | in every run each thread is in exactly one place: new, running, once on the ready list, once on one semaphore queue, or finished |
| Threads.DeletionIsSafe | nachos/code/threads/scheduler.cc:116-127 | only the thread to be destroyed is deleted, by a thread resumed inside Run, and it is neither running nor on any list |
| Threads.ReadyStep | nachos/code/threads/scheduler.cc:53-106 | a call to Run takes the first of the ready list, and nothing else takes any or overtakes |
| Threads.DispatchedInTurn | nachos/code/threads/scheduler.cc:53-106 | a thread at position k of the ready list is the one dispatched by the call to Run number k + 1 |
| Threads.YieldedInTurn | nachos/code/threads/thread.cc:174-190 | k + 1 Yields in a row make the thread at position k of the ready list the current one |
| Threads.ForgottenAfter | nachos/code/threads/scheduler.cc:120-127 | the forgotten threads grow exactly when a thread finishes while another is still to be destroyed, and by that one |
| Threads.ForgottenExactly | nachos/code/threads/scheduler.cc:120-127 | a finished thread is forgotten at the next finish if and only if only threads dispatched for the first time have run in between |
| Threads.ForgottenForEver | nachos/code/threads/scheduler.cc:120-127 | a thread once forgotten is never deleted |
| Threads.AThreadIsForgotten | nachos/code/threads/thread.cc:143-154 | a run in which a finished thread is forgotten |
| Threads.Kernel.SwitchTo | nachos/code/threads/scheduler.cc:90-127 | the new current thread runs, and deletes what is to be destroyed if it resumes |
| Threads.Kernel.ForkThread | nachos/code/threads/thread.cc:87-99 | a new thread comes last on the ready list; each thread stays in one place |
| Threads.Kernel.SleepOn | nachos/code/threads/thread.cc:212-221 | the current thread is blocked, at the end of a semaphore's queue; each thread stays in one place |
| Threads.Kernel.WakeFirst | nachos/code/threads/synch.cc:87-98 | the first of the queue goes to the end of the ready list; each thread stays in one place |
| Threads.Kernel.YieldCurrent | nachos/code/threads/thread.cc:174-190 | nothing if no thread is ready; otherwise the first ready thread runs, and the current one is the last on the ready list |
| Threads.Kernel.FinishCurrent | nachos/code/threads/thread.cc:143-154 | the current thread is to be destroyed, and blocked; each thread stays in one place |
| Threads.Kernel.DispatchNext | nachos/code/threads/thread.cc:221-225 | one round of Sleep's loop: idle when none is ready, otherwise Run; each thread stays in one place |
| Lists.InsertedAt | nachos/code/threads/list.cc:177-202 | the walk's insertion is before the first greater key |
| Lists.InsertedSorted | nachos/code/threads/list.cc:177-202 | insertion keeps the list sorted, equal keys in order of arrival |
| Lists.InsertedMultiset | nachos/code/threads/list.cc:177-202 | insertion adds one entry and nothing else |
| Lists.List.Append | nachos/code/threads/list.cc:76-88 | the item comes last, the pointers staying a list |
| Lists.List.Prepend | nachos/code/threads/list.cc:102-114 | the item comes first |
| Lists.List.SortedInsert | nachos/code/threads/list.cc:177-202 | relinks to the sorted insertion |
| Lists.List.SortedRemove | nachos/code/threads/list.cc:217-237 | takes the first entry, or nothing of an empty list |
| Lists.List.Remove | nachos/code/threads/list.cc:124-128 | takes the first item, or nothing of an empty list |
| Interrupts.FireLeavesFewer | nachos/code/machine/interrupt.cc:290-336 | each firing leaves one interrupt fewer due at the current tick, whatever the handler schedules |
| Interrupts.DrainKeeps | nachos/code/machine/interrupt.cc:169-170 | the firing loop ends, with every pending interrupt in the future, but for a timer's that is all an idle machine has |
| Interrupts.FireKeeps | nachos/code/machine/interrupt.cc:290-336 | firing keeps: pending sorted, fired times non-decreasing, none early, none lost or fired twice |
| Interrupts.TickKeeps | nachos/code/machine/interrupt.cc:150-179 | after OneTick every pending interrupt lies strictly in the future, and total = idle + system + user |
| Interrupts.InterruptRuns | nachos/code/machine/interrupt.cc:114-336 | the same in every state of every run, and no interrupt but a timer's is fired a system tick or more late |
| Interrupts.RequestServed | nachos/code/machine/interrupt.cc:264-336 | what is requested at tick T with fromNow = n is pending for T + n, or was fired no earlier and, unless it is a timer's, before T + n + 10 |
| Interrupts.HandlerServed | nachos/code/machine/interrupt.cc:264-336 | and so is what a handler requests, T being the tick of its firing |
| Interrupts.FiredAsked | nachos/code/machine/interrupt.cc:264-336 | what was fired and what is pending is just what was requested, each at its time |
| Interrupts.DrainClock | nachos/code/machine/interrupt.cc:169-177 | the loop of firings leaves clock and statistics alone, and asks for a yield if and only if a handler it calls does |
| Interrupts.IdleMeans | nachos/code/machine/interrupt.cc:210-234 | Idle halts if and only if nothing but perhaps a timer's interrupt is pending; else the clock goes on to the first, which is fired, and the time counts as idle |
| Interrupts.AfterSound | nachos/code/machine/interrupt.cc:114-336 | each event keeps all of it, and a tick leaves every pending interrupt in the future |
| Interrupts.Interrupt.Schedule | nachos/code/machine/interrupt.cc:264-277 | one interrupt more in the sorted list, at the current tick plus fromNow; what holds in every run stays so |
| Interrupts.Interrupt.CheckIfDue | nachos/code/machine/interrupt.cc:290-336 | fires the first interrupt if it is due, or puts it back, or advances the clock to it |
| Interrupts.Interrupt.FireDue | nachos/code/machine/interrupt.cc:169-170 | the loop, terminating |
| Interrupts.Interrupt.OneTick | nachos/code/machine/interrupt.cc:150-179 | the clock moves on by 10 in the kernel and by 1 in user code, and what is due is fired; the thread is preempted if and only if a yield was asked for; what holds in every run stays so |
| Interrupts.Interrupt.SetLevel | nachos/code/machine/interrupt.cc:114-127 | takes a tick exactly when interrupts go from off to on, and says whether that tick asks the thread to yield; what holds in every run stays so |
| Interrupts.Interrupt.Idle | nachos/code/machine/interrupt.cc:210-234 | halts if and only if nothing but perhaps a timer's interrupt is pending; else the clock goes on to the first, which is fired; what holds in every run stays so |
| Disks.ModuloDiffMeans | nachos/code/machine/disk.cc:202-209 | the least number of sectors to wait for the target |
| Disks.SeekEndsAtBoundary | nachos/code/machine/disk.cc:179-194 | a seek takes 500 ticks for each track passed, inwards or outwards, and ends, after the least wait, at a sector boundary |
| Disks.TransferStartsUnderHead | nachos/code/machine/disk.cc:232-253 | without the buffer a transfer starts at the first sector boundary after the seek with the target under the head |
| Disks.LatencyBounds | nachos/code/machine/disk.cc:232-253 | every latency is at least 500 and less than 32000 ticks, so Schedule's assertion holds |
| Disks.BufferNeverSlower | nachos/code/machine/disk.cc:239-246 | a buffer hit is never slower |
| Disks.HitMeansPassed | nachos/code/machine/disk.cc:239-246 | a read within the track hits if and only if the head has come over the wanted sector since the buffer was started |
| Disks.Disk.UpdateLast | nachos/code/machine/disk.cc:261-271 | the buffer restarts exactly on a seek, at the first boundary after it |
| Disks.Disk.ReadRequest | nachos/code/machine/disk.cc:115-133 | returns the sector; it is done after 500 ticks if the sector is on the same track and has passed since the buffer was started, and otherwise 500 ticks after the first tick, from the end of the seek on, at which it is under the head |
| Disks.Disk.WriteRequest | nachos/code/machine/disk.cc:135-153 | stores the sector; it is done 500 ticks after the first tick, from the end of the seek on, at which the sector is under the head |
| Multiplication.AddDouble | nachos/code/machine/mipssim.cc:665-668 | the addition with carry is exact on double words |
| Multiplication.RoundStep | nachos/code/machine/mipssim.cc:663-678 | one round moves one bit of a into the part consumed |
| Multiplication.Accumulate | nachos/code/machine/mipssim.cc:657-678 | the loop, early exit included, leaves the exact 64-bit product |
| Multiplication.Mult | nachos/code/machine/mipssim.cc:635-692 | hi and lo are the exact product, signed and unsigned, the most negative operand included |
| Translation.ExceptionMeans | nachos/code/machine/translate.cc:196-247 | for each exception, and for success, if and only if conditions in order: misaligned or outside the table, unmapped, read-only, no such frame |
| Translation.LookUpMeans | nachos/code/machine/translate.cc:211-234 | the entry used is the first that maps the page, for a page table and for a TLB; a page fault means that none does |
| Translation.AccessInOnePage | nachos/code/machine/translate.cc:251-252 | an aligned access never crosses a page, so the range assertion holds |
| Translation.ResolveSame | nachos/code/machine/translate.cc:248-250 | use and dirty bits do not affect translation |
| Translation.StoreMeans | nachos/code/machine/translate.cc:137-169 | a write puts the low bytes of the value, lowest first, at the frame's number times 128 plus the offset in the page, and changes no other byte |
| Translation.LoadStored | nachos/code/machine/translate.cc:87-169 | a read after a write of the same size returns the value, sign-extended from one byte and zero-extended from two |
| Translation.LoadElsewhere | nachos/code/machine/translate.cc:87-169 | with distinct frames, a write leaves every non-overlapping read as it was |
| Translation.TlbAgrees | nachos/code/machine/translate.cc:211-234 | a TLB of copies gives, whenever it does not miss, what the page table gives |
| Translation.Machine.Translate | nachos/code/machine/translate.cc:186-255 | the exception with nothing changed, or the frame's number times 128 plus the offset in the page, with the use bit, and for a write the dirty bit, set in the entry used and nothing else changed |
| Translation.Machine.ReadMem | nachos/code/machine/translate.cc:87-122 | the value loaded, or the exception |
| Translation.Machine.WriteMem | nachos/code/machine/translate.cc:137-169 | memory with the value stored, or the exception and memory unchanged |
| MailFormat.WireRoundTrip | nachos/code/machine/network.cc:121-125 | headers and payload arrive as sent, whatever the padding |
| MailFormat.HeaderLayout | nachos/code/machine/network.h:31-41 | destination, source and length come in this order, each with its low byte first; the sizes of packets and mails follow |
| MailFormat.WireLayout | nachos/code/network/post.cc:274-284 | on the wire the packet header comes first, then the mail header, then the data |
| MailFormat.Send | nachos/code/network/post.cc:274-284 | the buffers built by Send and the network hold the message in wire format |
| PostOffices.PolledKeeps | nachos/code/machine/network.cc:60-87 | polling moves a packet along the pipeline and never over another |
| PostOffices.PollTakes | nachos/code/machine/network.cc:66-86 | a poll of an empty buffer takes the first packet of the socket into it, adds a unit to the semaphore and wakes the worker if it sleeps |
| PostOffices.Delivered | nachos/code/machine/network.cc:60-87 | polls and steps of the worker bring all that has arrived on a machine to the mailboxes, in order |
| PostOffices.DeliversAll | nachos/code/network/post.cc:221-246 | from every reachable state of the network such a continuation exists for each machine, and changes nothing elsewhere |
| PostOffices.CarriedArrives | nachos/code/network/post.cc:270-291 | a message that the network carries can be brought to its mailbox, after all that had arrived before it |
| PostOffices.WorkedKeeps | nachos/code/network/post.cc:221-246 | the postal worker loses and reorders nothing, and finds the buffer full |
| PostOffices.MailInOrder | nachos/code/network/post.cc:221-291 | each mailbox gets a subsequence, in order and without duplicates, of what a sender addressed to it |
| Mailboxes.GotInOrder | nachos/code/network/post.cc:121-137 | the mails that Get has returned from a mailbox are, of each sender, a subsequence, in order, of what it addressed there |
| Mailboxes.GotInTurn | nachos/code/network/post.cc:91-137 | the n-th Get returns the n-th mail put, whatever addresses are used again |
| Mailboxes.GetFindsMail | nachos/code/threads/synchlist.cc:83 | the assertion on a removed item holds for mailboxes: it is the address of the next mail |
| PostOffices.ArrivalsLegal | nachos/code/network/post.cc:239-241 | the assertions on arrival hold in every run |
| PostOffices.BufferNotOverwritten | nachos/code/machine/network.cc:66-78 | a buffered packet changes only by being received by the worker, whole |
| Subsequences.SubsequenceEmbeds | nachos/code/machine/network.cc:116-119 | a subsequence embeds by increasing places: nothing twice, nothing out of order |
| Philosophers.StepKeeps | unix/homework/homework_5/philosopher.c:24-84 | every step keeps: a fork file exists when someone holds the fork, and never do two |
| Philosophers.OwnForks | unix/homework/homework_5/philosopher.c:57-65 | philosopher i uses the forks i and (i + 1) % n, and takes the higher one first |
| Philosophers.ForkFileMeansOneHolder | unix/homework/homework_5/philosopher.c:24-84 | in every run a fork file exists if and only if exactly one philosopher holds the fork |
| Philosophers.NeighboursNeverEatTogether | unix/homework/homework_5/philosopher.c:57-84 | neighbours never eat together |
| Philosophers.OthersMayEatTogether | unix/homework/homework_5/philosopher.c:57-84 | for any two philosophers who are not neighbours some run has both eating |
| Philosophers.BlockedByMover | unix/homework/homework_5/philosopher.c:57-65 | from any blocked philosopher a path of waiting ones leads to one who has a fork and can move, as the wanted forks decrease |
| Philosophers.BlockedByNeighbour | unix/homework/homework_5/philosopher.c:57-65 | in every run, who blocks a philosopher is a neighbour, and has the fork between the two |
| Philosophers.NeverDeadlocked | unix/homework/homework_5/philosopher.c:57-84 | in every run, for every n >= 2: if a philosopher is blocked, one who has a fork can make a step that changes the state; if not, that philosopher can |
| Philosophers.Table.Advance | unix/homework/homework_5/philosopher.c:22-84 | one open or unlink of a philosopher, of one of its own two forks, is a step of the system, fails exactly when the fork is taken, and keeps files and holders in agreement |

## Left out

- FileSystems.FileSystem.Create: requires 0 <= initialSize <= MaxFileSize (nachos/code/filesys/filehdr.h:20-21), which Allocate does not check; a larger size would write past the header's table.
- FileSystems.FileSystem.Create: says nothing about the initial contents of a new file, which are whatever its sectors held.
- FileHeaders.FileHeader.Allocate: requires the same of its size.
- FileSystems.FileSystem.constructor: opens only a disk that holds a consistent volume; the source reads whatever is there.
- FileSystems.FileSystem.WriteOpened: speaks of handles on listed files, as do Put, Get and GetAt; WriteStale, StaleHandles and StaleReuse are about the others.
- OpenFiles.OpenFile.ReadAt: requires a position that is not negative and an end of the request within the range of int; the source checks neither, and would then index outside its buffer.
- OpenFiles.OpenFile.WriteAt: requires the same.
- OpenFiles.OpenFile.Read: requires the same of the seek position, which Seek sets to anything.
- OpenFiles.OpenFile.Write: requires the same of the seek position.
- Sessions.Execute: answers Undefined to a request outside these ranges, and TooLarge to a creation outside its range, without making it; and Stale to a write through a handle on a removed file once some sector of it is marked again, which StaleReuse is about: the client looks at the free map, where the source would write. What a read through such a handle gets is left open but for its length.
- Directories.TableRoundTrip: the bytes that pad a directory entry are written as 0, where the source leaves them unspecified.
- MapFile.FetchFrom: is a method beside the class, as the bitmap and the open file use each other in the source.
- FileTests.Copy: the UNIX file is a parameter, at most as long as the largest file; FileTests.Print returns what the source prints. PerformanceTest is left out.
- Locks.EveryoneServed: and the other results on progress say that a continuation exists; that a scheduler takes it is not said, and a woken thread may find every time that another was faster.
- Locks.LockRuns: speaks of locks that are released by their holder; the source does not check this.
- SynchLists.StepKeeps: and the other step systems (Locks, Conditions, BufferMonitors, LockedDevices, SynchDiskProtocol, PostOffices) model concurrent code on values, one predicate per segment, as a blocking call has no single pre- and post-state; the segments of the semaphore, of threads and of the philosophers are methods of classes as well.
- BoundedBuffers.BoundedBuffer.Write: the method is the segment under the lock; waiting and waking are in BufferMonitors. A negative size, which passes the assertion, is not modelled.
- BoundedBuffers.BoundedBuffer.Read: likewise; a negative size is not modelled.
- BufferMonitors.StrandedExactly: counts the bytes; which they are is in BoundedBuffers.
- Threads.Kernel.SwitchTo: the context switch is a change of current thread; stacks, fenceposts and user registers are left out.
- Interrupts.Interrupt.OneTick: returns that the thread is to yield instead of calling Yield, whose own SetLevel takes another tick.
- Interrupts.Interrupt.SetLevel: likewise.
- Interrupts.InterruptRuns: makes no claim about the order of interrupts with equal times, since one put back goes behind its equals.
- Translation.Machine.ReadMem: returns the exception; what the kernel does on RaiseException is left out. Plain char is taken to be signed and the host little-endian.
- Disks.Disk.ReadRequest: the clock is a parameter, and the scheduled interrupt a result.
- Mailboxes.GotInOrder: takes the run of the mailbox's list as given, with what memory holds in each state; it and the post office are not one step system. Destinations are machines of the network, each with the same number of mailboxes.
- Conditions.BroadcastGoesOn: blockNum is an unbounded integer; the source's would overflow after 2^31 rounds. What Wait and its callers do with the lock is in SynchLists and BufferMonitors; here it only keeps Signal and Broadcast apart.
- Network::sendBusy: is never set; that one message is sent at a time rests on the lock in post.cc.
- synch-sem.cc, synch-sleep.cc: alternative versions of synch.cc, outside the build.
- dllist.cc, dllist-driver.cc, Table.cc: in the build (nachos/code/Makefile.common:69-71), but nothing modelled here uses them.
- Printing, debugging and statistics output, timer and console devices, process start-up and the SWITCH assembly: their effects lie outside the state that is modelled.
- The MIPS instructions other than MULT and MULTU, which have no loop: each decodes and sets registers or memory in one go.
- The socket, ROS and shell exercises, the assembler and the COFF tools.
