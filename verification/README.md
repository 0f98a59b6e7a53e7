# A verified model of the kernel's file system, memory and shell state

This project models the stateful parts of a small 32-bit teaching kernel and proves what they keep over
whole runs:

* the FAT driver of `src/filesystem/fat32.c`, over the in-memory disk of `src/external/external-inserter.c`;
* the page-frame allocator and page directories of `src/paging.c` and the process table of `src/process.c`;
* the shell's `cd`, its two recursive directory walks, its two tokenizers and its 8.3 name parser, from
  `src/user-shell.c` and `src/stdlib/string.c`.

`dafny verify dfyconfig.toml` checks everything.

## How it is built

The code is imperative, and so is the model. `BlockDevice`, `Fat32Driver`, `UserShell`, `PageManager` and
`ProcessManager` are classes over byte arrays and tables that their methods change in place, loop by loop as
in the source. Each method is proved to compute a function on values (`Volume.Write`, `Paging.Allocate`,
`Process.Create`, `Shell.Cd`, ...), byte for byte. The theorems are about those functions.

| files | contents |
|---|---|
| `Memory`, `DirEntry`, `Disk` | bytes, C strings and the copying routines; the packed 32-byte directory entry; the block device |
| `Volume`, `Fat32` | what each driver operation computes; the driver |
| `Invariant`, `Operations`, `Exactness` | the volume invariant, which operations keep it, and exactly when |
| `Effects` | what one driver call stores, clears, hands back and leaves alone, on any disk, sound or not |
| `Refinement`, `Slots`, `Runs`, `Undo`, `Capacity` | the abstract file system, simulation over runs, delete after write, when write stays in bounds |
| `Witnesses`, `Scenarios`, `Histories` | concrete inputs and short histories on which the code misses its promise |
| `Ownership`, `TreeWalk` | cluster ownership and conservation; tree shape and `getFullPath` |
| `Search`, `FindWalk` | what a search reads and reports for any matching rules; `find` and `DFSfind` |
| `Shell`, `PathTracking`, `CdLimits`, `Sessions` | `cd` and `update_cwd_contents`; one `cd`; the exact arguments that mislead it; path tracking over sessions |
| `Paging`, `FrameIsolation` | page directory entries and the allocator; its invariant, exactness, runs and inverses |
| `Process`, `Creation`, `ProcessRuns`, `ProcessDrift` | the process table; what one creation and one kill do; its invariant, exactness and runs, also with failed reads |
| `Tokenizer`, `NameParser` | the two tokenizers; the name parser and the listing |

A volume is *sound* (`Operations.Sound`) when some *layout* explains it: a set of directory clusters, an owner
for each allocated cluster, and a depth for each directory, such that directories form a tree rooted at
cluster 2, every used slot starts an ascending chain as long as its size needs, no two chains meet, empty
clusters and unused slots are all zero, the stored FAT equals the cached one, and block 0 holds the signature
(`Invariant.Inv`).

## Where the code does not do what it promises

Each of these is stated as an equivalence: the promise holds exactly under the condition named.

* `insert_directory` takes its cluster number as `uint8_t` although it shifts it by 16 bits. The width is a
  parameter of the model: `W8` is the code as written, `W32` the evident intention. A write keeps the volume
  sound exactly when the numbers it stores fit (`WriteSoundIff`); otherwise it stores their lowest bytes
  (`StoredNumbers`). Below cluster 256 the two widths agree (`WidthsAgree`); two ordinary writes on a fresh disk
  break it, and the second entry says cluster 0 (`EightBitsBreak`).
* `create_fat32` writes an uninitialised local table. The table is a parameter; the new volume is sound exactly
  when slots 2 to 63 of it were zero (`FormatSoundIff`, `FirstBootIff`, `UncleanFormatBreaks`).
* `delete` starts its search at slot 0. It destroys the directory it works in exactly when it hits the head
  of an empty directory: its own name, or ".." in the root (`DeleteSoundIff`, `DeletingRootBreaks`).
* `write` looks for duplicates from slot 1 on, so an entry may get its folder's own name. It can be read and
  deleted exactly when it did not (`WrittenFileReadsBack`, `DeleteUndoesWrite`, `OwnNameLost`).
* `delete` and `read` do not look at whether a slot is in use. The all-zero name and extension, which `rm .`,
  `cat .` and `cp` without operands send, match the first unused slot, whose cluster number is 0; `delete` then
  wipes the boot sector and both follow the reserved FAT entry of cluster 0 out of the disk and the table. Both
  stay inside exactly when the first slot that matches is used (`LookupSafeIff`). After any run from the first boot
  that is, for this key, exactly when the directory is full (`ZeroKeyAfterRun`, `ZeroLookupIff`). The name parser
  gives it exactly for the empty text and "." (`ZeroParseIff`, `DotIsLost`).
* `is_valid_parent_cluster` inspects bytes. Besides directories it accepts exactly the last clusters of files
  whose content looks like one (`ValidParentExact`, `FilePasses`).
* The searches of `write` for a slot and for a folder's cluster have no bound, and transfers are whole clusters.
  On a sound volume `write` stays inside its tables and buffers exactly when the parent lists fewer than 62
  entries, a folder finds an empty cluster, and a file's buffer is rounded up (`WriteSafeIff`, `FullDisk`).
* `read_clusters` and `write_clusters` pass a cluster count through two 8-bit parameters, so `count % 64`
  clusters are moved (`MovedIs`, `DirClustersIs`).
* `cd` tells ".." from the prefixes of ".." wrongly, and looks up only eight bytes of its argument. After `cd`
  the table and the path spell some directory exactly when the argument is a name of at most eight bytes or
  "..", or does not open a folder by its first eight bytes (`CdSpellsIff`, `OpensIff`, `EmptyStays`,
  `LongNameMisleads`). `cd x` and `cd ..` restores both exactly when x has no slash (`CdAndBackIff`,
  `SlashStrands`). The path buffer is not checked: cd stays inside it exactly when the new path has at most 80
  bytes, and leaves the path spelled exactly when it has fewer (`CdFitsIff`).
* `DFSfind` marks slots of its caller's array for the files of the directory it searches, and leaves a directory
  at its first match. A search reads every directory exactly when no such match or file stands before a folder
  (`CoversIff`); one that finds nothing, exactly when no folder has a file in the slot of a later sibling folder
  (`NeverClear`, `HiddenFolder`).
* `getFullPath` looks up ".." in the parent, so it climbs two levels at a time, up to a directory called "root". It
  meets every directory of the path exactly when it starts in the root, or in a folder of the root that is not
  called "root" (`FullPathIff`); from /root/a/b it steps over a (`NestedFolders`).
* `ls` prints a name through `strlen` on an 8-byte copy. What it prints parses back to the entry exactly when
  the name has no dot and the text stops in or right behind the copy, or runs on into a stray "." with no
  extension (`ListedNameParsesIff`, `FullNameLost`). The bytes after the copy are a parameter.
* `paging_allocate_user_page_frame`, `paging_free_user_page_frame` and `paging_free_page_directory` do not look
  at what the page or directory held before; each keeps the books exactly when it held nothing, a user page,
  and no user page (`AllocateKeepsIff`, `FreeKeepsIff`, `FreeDirKeepsIff`, `BootReleaseBreaks`,
  `PageTwiceBreaks`).
* `process_create_user_process` passes a number of frames where bytes are expected, so its memory check asks
  for one frame, and sizes within 4 MiB of 2 to the 32nd pass it because a sum wraps (`RefusalIff`,
  `NeededIff`). It keeps the table in order exactly when it is refused or the executable is read
  (`CreateKeepsIff`): a failed read decrements a counter that was not incremented. From zero the counter wraps
  and the next creation is refused (`FailedReadBlocks`, `BootFailedRead`); otherwise a creation that passes its
  checks finds a slot exactly when the counter and the failed reads leave one (`RoomIff`), and one failed read
  is enough to reach a creation that finds none (`OverrunReachable`). Apart from that, runs with failed reads and
  kills of any pid keep everything but the counter in order while it is above zero (`DriftRunKeeps`).
* `process_destroy` never returns a frame or a directory, because no process ever records its frames; and it
  keeps the table in order exactly when it is not asked to destroy process 0 while a slot is free
  (`DestroyKeepsIff`). Over a whole run at most 31 processes can be created (`CallRunKeeps`).
* Stored names are copied up to `strlen` but looked up by all their bytes. Requests are modelled with their memory
  layout (name, extension, parent, size), because `strlen` on a full 8-byte name runs into the next fields. A file
  is stored under the requested key exactly when name and extension are padded, a folder exactly when its name is
  padded and its extension empty, or its name full and its extension padded (`StoredFileIff`, `StoredFolderIff`).

"Callers build padded keys" (`ProperKey`) means name and extension are zero-padded and a folder has no extension;
`ParsedIsProper` shows that the name parser delivers that for files.

## Model

| member | source | states |
|---|---|---|
| Memory.CLenUnique | src/stdlib/string.c:47-53 | the length strlen finds is determined: the place of the first zero byte |
| Memory.StrLen | src/stdlib/string.c:47-53 | the loop ends at the first zero byte of any terminated memory |
| Memory.MemCmp | src/stdlib/string.c:20-31 | 0 exactly when the first n bytes agree; otherwise the sign of the first difference, which may come before the end of a shorter buffer |
| DirEntry.InsertSlotFields | src/filesystem/fat32.c:23-37 | every field that lookups and chain walks later read back from an inserted entry, including what strlen-bounded copies leave in name and ext |
| DirEntry.InsertSlotTimes | src/filesystem/fat32.c:24-25 | the undelete flag and creation time are cleared by the memset of ext, the other times stay |
| DirEntry.StoredKey | src/filesystem/fat32.c:30-31 | for padded names the strlen-bounded copies store exactly the 8 and 3 bytes that memcmp looks up |
| DirEntry.StoredFileIff | src/filesystem/fat32.c:24-31 | a file's entry has the requested key if and only if name and extension are zero-padded |
| DirEntry.StoredFolderIff | src/filesystem/fat32.c:24-31 | a folder's entry has the requested key if and only if the name is padded and the extension empty, or the name full and the extension padded and so copied by the overrun |
| Disk.BlockDevice.ReadBlocks | src/external/external-inserter.c:13-21 | the loop copies exactly the addressed bytes of the image into the buffer, and nothing else changes |
| Disk.BlockDevice.WriteBlocks | src/external/external-inserter.c:23-31 | the image is the old one with exactly the addressed blocks replaced |
| Disk.BlockDevice.ReadClusters | src/filesystem/fat32.c:85-87 | the buffer gets count % 64 clusters of the disk seen as a sequence of clusters, because the block count is an 8-bit parameter |
| Disk.BlockDevice.WriteClusters | src/filesystem/fat32.c:81-83 | count % 64 clusters of the disk are replaced by the buffer and all others stay |
| Volume.FatRoundTrip | src/filesystem/fat32.c:57-77 | the FAT written to cluster 1 reads back as the same 512 numbers |
| Volume.FirstFit | src/filesystem/fat32.c:122-145 | the smallest start of n neighbouring empty clusters in range, and -1 only when there is none |
| Volume.ChainLenOfChain | src/filesystem/fat32.c:166-170 | following a closed ascending chain visits as many clusters as it has |
| Fat32.Fat32Driver.InsertDirectory | src/filesystem/fat32.c:23-37 | one slot of the table gets the packed entry, the cluster number narrowed to the parameter's width; other slots stay |
| Fat32.Fat32Driver.CreateFat32 | src/filesystem/fat32.c:39-64 | the whole disk and cached FAT become the formatted volume, whatever they held |
| Fat32.Fat32Driver.InitializeFilesystem | src/filesystem/fat32.c:66-79 | formats exactly when block 0 differs from the signature, else loads the FAT from cluster 1 |
| Fat32.Fat32Driver.FolderNotEmpty | src/filesystem/fat32.c:89-99 | true exactly when some slot from 2 on is in use |
| Fat32.Fat32Driver.IsValidParentCluster | src/filesystem/fat32.c:101-112 | the range, FAT and attribute checks, in order |
| Fat32.Fat32Driver.FindFirstFit | src/filesystem/fat32.c:122-145 | the skip-ahead search returns the smallest start from 3 on of a large enough run of empty clusters, or -1 |
| Fat32.Fat32Driver.Write | src/filesystem/fat32.c:202-270 | return code, disk and cached FAT, byte for byte, for folders, files and every refusal |
| Fat32.Fat32Driver.Delete | src/filesystem/fat32.c:272-309 | return code, disk and cached FAT, byte for byte, for every branch |
| Fat32.Fat32Driver.Read | src/filesystem/fat32.c:147-176 | return code and every byte of the caller's buffer; the volume does not change |
| Fat32.Fat32Driver.ReadDirectory | src/filesystem/fat32.c:178-200 | return code and every byte of the caller's buffer for every buffer size, with the 8-bit cluster count; the volume does not change |
| Invariant.DirsAreValidParents | src/filesystem/fat32.c:101-112 | every directory of the tree passes the byte inspection |
| Invariant.AddKeepsInv | src/filesystem/fat32.c:221-260 | storing a fresh entry with a fresh chain keeps the whole invariant |
| Invariant.RemoveKeepsInv | src/filesystem/fat32.c:286-304 | clearing an entry and its chain keeps the whole invariant, when a folder is empty |
| Operations.FormatSoundIff | src/filesystem/fat32.c:39-64 | formatting any disk gives a sound volume if and only if the uninitialised root table was zero from slot 2 on |
| Operations.FirstBootIff | src/filesystem/fat32.c:66-79 | initialising a disk whose block 0 is not the signature gives a sound volume with only the root if and only if the uninitialised table was clean, whatever disk and cache held |
| Operations.FirstBootClears | src/filesystem/fat32.c:39-58 | that leaves the signature and zeros in cluster 0, zeros in the data area, and the clusters behind the FAT's as they were |
| Effects.FirstBootBytes | src/filesystem/fat32.c:39-64 | the end of the boot block, every FAT entry, and the fields of the two head slots of the root, in numbers |
| Operations.RemountIsIdentity | src/filesystem/fat32.c:66-79 | initialising again at any point never reformats, restores the cached FAT whatever the cache held, and changes nothing else |
| Operations.WriteKeepsInv | src/filesystem/fat32.c:202-270 | write keeps the invariant, returns 0 exactly when it stored an entry, and otherwise changes nothing |
| Operations.NoRoomIff | src/filesystem/fat32.c:241-265 | a file write past its checks returns -1 if and only if no large enough run of empty clusters exists anywhere |
| Operations.LookupsAreSafe | src/filesystem/fat32.c:153-170 | on a sound volume every used entry found starts a well-formed chain, so the do-while loops of read and delete end inside the disk |
| Operations.LookupSafeIff | src/filesystem/fat32.c:153-299 | for every key, delete and read follow a chain inside the disk if and only if the first slot that matches is used; read_directory always does |
| Slots.ZeroLookupIff | src/filesystem/fat32.c:153-299 | where nothing is called by the all-zero key, delete and read may be asked for it if and only if the directory lists 62 entries |
| Operations.ReadFitsRoundedBuffer | src/filesystem/fat32.c:158-170 | read never copies more than the request's size rounded up to whole clusters |
| Effects.ReadBytes | src/filesystem/fat32.c:147-200 | the k-th cluster handed back is the k-th of the chain, or of the run from the table on, and how many there are |
| Operations.DeleteKeepsInv | src/filesystem/fat32.c:272-309 | delete keeps the invariant unless it hits the head of an empty directory, and changes nothing unless it returns 0 |
| Exactness.WriteSoundIff | src/filesystem/fat32.c:202-270 | write leaves a sound volume if and only if the cluster numbers it stores fit the parameter's width |
| Exactness.WidthsAgree | src/filesystem/fat32.c:23-37 | below cluster 256 the 8-bit parameter and the intended 32-bit one give the same volume and code |
| Effects.StoredNumbers | src/filesystem/fat32.c:221-249 | on any disk, the entry and both head slots of a new folder carry the attribute bytes and size, and the cluster numbers or, with 8 bits, exactly their lowest bytes |
| Effects.StoredData | src/filesystem/fat32.c:252-259 | on any disk, a new file's clusters are chained and hold the buffer up to the end of the last one |
| Effects.WriteSpares | src/filesystem/fat32.c:215-262 | on any disk, a write changes its slot, its clusters and the stored FAT and nothing else |
| Effects.DeleteClears | src/filesystem/fat32.c:286-304 | on any disk, a delete clears one slot and the clusters and links of one chain and nothing else |
| Effects.RefusedCalls | src/filesystem/fat32.c:147-309 | on any disk, a call that does not return 0 leaves volume and buffer as they were |
| Exactness.DeleteSoundIff | src/filesystem/fat32.c:279-304 | delete leaves a sound volume if and only if it does not hit the own entry or root ".." of an empty directory |
| Exactness.ValidParentExact | src/filesystem/fat32.c:101-112 | the check accepts a number if and only if it is a directory or the last cluster of a file whose bytes look like one |
| Exactness.DirPersists | src/filesystem/fat32.c:224-230 | however a later volume is explained, the earlier directories are still in its tree |
| Witnesses.EightBitsBreak | src/filesystem/fat32.c:23-28 | with the 8-bit parameter, two ordinary file writes on a fresh disk return 0 and leave an unsound volume, the second entry with cluster 0 for 256 |
| Witnesses.DeletingRootBreaks | src/filesystem/fat32.c:279-304 | deleting "root" in the root of a fresh disk returns 0 and leaves an unsound volume |
| Witnesses.UncleanFormatBreaks | src/filesystem/fat32.c:59-63 | a format over nonzero stack bytes leaves an unsound volume |
| Witnesses.BlankDiskBoots | src/filesystem/fat32.c:66-79 | initialising an all-zero disk gives the file system with only the root, and a first file can be written |
| Witnesses.OwnNameLost | src/filesystem/fat32.c:147-309 | a file "root" written to the root of a fresh disk with code 0 reads back with 1 and is not deleted, with 2 |
| Witnesses.FilePasses | src/filesystem/fat32.c:101-112 | a file of one cluster with two bytes set is taken for a directory |
| Witnesses.PageTwiceBreaks | src/paging.c:75-191 | in the first directory made at boot, a second allocation of a page, or releasing the directory with it, breaks the books |
| Witnesses.BootReleaseBreaks | src/paging.c:108-131 | at boot a release of any page gives up frame 0 |
| Witnesses.BootFailedRead | src/process.c:119-126 | at boot one failed read sets the counter to its maximum and the next creation returns 1 |
| Scenarios.WriteOne | src/filesystem/fat32.c:202-270 | on a disk filled from the front a plain write succeeds, takes the next clusters and slot, and changes no other entry |
| Histories.DotIsLost | src/user-shell.c:549-584 | "." parses with code 0 to the all-zero key, and on a fresh disk delete and read leave the disk for it |
| Histories.FullDisk | src/filesystem/fat32.c:216-219 | after one file of 509 clusters the search for a folder's cluster runs off the FAT |
| Histories.LongNameMisleads | src/user-shell.c:178-254 | after mkdir abcdefgh, cd abcdefghi enters the folder and the path spells no directory |
| Histories.SlashStrands | src/user-shell.c:178-254 | after mkdir a/b, cd a/b and cd .. do not lead back |
| Histories.HiddenFolder | src/user-shell.c:860-909 | two folders and two files on a fresh disk hide the second folder from a search |
| Histories.NestedFolders | src/user-shell.c:834-891 | with folders /root/a/b, a search for b reads the root and a, stops there and climbs from a; a climb from b steps over a |
| Slots.SlotLeftIff | src/filesystem/fat32.c:226-229 | the search for a slot ends inside the table if and only if the directory lists fewer than 62 entries |
| Capacity.WriteSafeIff | src/filesystem/fat32.c:215-258 | write stays inside its tables and buffers if and only if slots, empty clusters and the rounded buffer suffice, counted in the abstract file system |
| Refinement.ShowsUnique | src/filesystem/fat32.c:147-309 | a volume shows exactly one abstract file system |
| Refinement.AddShows | src/filesystem/fat32.c:221-260 | storing an entry adds exactly that entry, and that folder, to the abstract file system |
| Refinement.RemoveShows | src/filesystem/fat32.c:286-304 | clearing an entry removes exactly that entry, and that folder |
| Runs.DuplicateIff | src/filesystem/fat32.c:209-213 | write's search from slot 1 hits exactly for "..", for keys the folder lists, and for the all-zero key while a slot is unused |
| Runs.WriteSimulates | src/filesystem/fat32.c:202-270 | write is the abstract write: code for every key, new object and nothing else |
| Runs.DeleteSimulates | src/filesystem/fat32.c:272-309 | delete is the abstract delete: code, one entry gone, only an empty folder goes |
| Runs.ReadSimulates | src/filesystem/fat32.c:147-176 | read is the abstract read: code, the file's bytes at the start of the buffer, and no byte of it with any other code than 0 |
| Runs.ReadDirectorySimulates | src/filesystem/fat32.c:178-200 | read_directory is the abstract one: code, and a table whose used slots are exactly the entries of the directory that the name, the own name or ".." stands for, with kinds and sizes; nothing with any other code |
| Runs.StepSimulates | src/filesystem/fat32.c:147-309 | every call keeps the invariant and is a step of the abstract file system |
| Runs.RunSimulates | src/filesystem/fat32.c:66-309 | every run of write, delete, read, read_directory and remount from a sound volume is a run of the abstract file system |
| Runs.FormattedRunSimulates | src/filesystem/fat32.c:39-309 | every run after formatting any disk is a run from the file system with nothing but its root |
| Runs.BootedRunSimulates | src/filesystem/fat32.c:39-309 | from the first boot on a disk without the signature, whatever it held, every run is a run from the file system with nothing but its root |
| Runs.ZeroKeyAfterRun | src/filesystem/fat32.c:39-309 | after any run from the first boot, delete and read may be asked for the all-zero key in a directory if and only if it is full |
| Runs.FileStaysReadable | src/filesystem/fat32.c:147-176 | a file keeps its bytes over every run that does not delete it, and reads back with code 0 unless named like its folder |
| Runs.WrittenFileReadsBack | src/filesystem/fat32.c:147-270 | a file just written reads back with code 0 and the same bytes after any run that spares it, exactly when its name is not its folder's own |
| Undo.RemoveUndoesAdd | src/filesystem/fat32.c:221-304 | clearing an added entry restores every byte, because free clusters and unused slots are zero |
| Undo.DeleteUndoesWrite | src/filesystem/fat32.c:202-309 | delete after a successful write returns 0 and restores the image and the cached FAT byte for byte, exactly when the name is not the folder's own; then it refuses with 2 |
| Ownership.ReachableIff | src/filesystem/fat32.c:221-232 | the directories of the layout are exactly those reachable from the root |
| Ownership.ClimbReachesRoot | src/filesystem/fat32.c:224 | following ".." from any directory reaches the root in depth steps, each to the directory that lists it |
| Ownership.OneParent | src/filesystem/fat32.c:224-230 | no folder is listed in two directories and none lists the root |
| Ownership.OnChainIff | src/filesystem/fat32.c:252-259 | the clusters on a chain are exactly the interval it occupies |
| Ownership.FatShape | src/filesystem/fat32.c:252-259 | every FAT entry from 3 up is empty, end of file or the next index |
| Ownership.OwnershipExact | src/filesystem/fat32.c:215-303 | each allocated data cluster is on the chain of exactly one reachable entry, each empty one on none |
| Ownership.ChainLengths | src/filesystem/fat32.c:114-120 | a reachable file's chain has bytes_to_cluster(filesize) clusters, a folder's one |
| Ownership.Conservation | src/filesystem/fat32.c:215-303 | empty clusters and chain lengths of all reachable entries always add up to 509 |
| TreeWalk.InvDepths | src/filesystem/fat32.c:221-232 | the depths of a sound volume decrease along every ".." |
| TreeWalk.SubtreeShrinks | src/user-shell.c:859-893 | the subtree of a listed folder is a proper part of its parent's, the measure of the descent |
| TreeWalk.OwnNameReads | src/filesystem/fat32.c:178-200 | reading a directory under its own name gives its own table |
| TreeWalk.DotDotReads | src/filesystem/fat32.c:178-200 | reading ".." gives the table of the one directory that lists it |
| TreeWalk.GetFullPath | src/user-shell.c:834-857 | the climb reads the directory, then always the parent's parent, and ends at the first one called "root", after at most depth + 1 reads |
| TreeWalk.FullPathIff | src/user-shell.c:834-857 | the climb meets every directory up to the root if and only if it starts in the root or in a folder of it not called "root" |
| FindWalk.DfsFind | src/user-shell.c:859-926 | for any matching rules the walk ends, reads exactly the directories that no match and no file mark hides, each once, marks its slot and the files it passes, and of each directory it reads reports the first match and no other, with one climb from there |
| FindWalk.Find | src/user-shell.c:929-988 | the same from the root with its own rules, a folder there reported without a climb; every directory is read if and only if nothing stands before a folder, and without matches if and only if no file lies in the slot of a later sibling of its folder |
| Search.CoversIff | src/user-shell.c:860-909 | for any rules a search covers the subtree if and only if no match and no file of an earlier sibling stands before a folder in it |
| Search.NeverClear | src/user-shell.c:860-909 | without matches that is so if and only if no folder has a file in a slot where a later sibling folder is listed |
| Shell.StringsEqual | src/user-shell.c:23-25 | true exactly when the two C strings are the same |
| Shell.UserShell.ChangeDirectory | src/user-shell.c:178-254 | every byte of the table and of the path after cd, for all branches, with all index loops inside their buffers |
| Shell.UserShell.UpdateCwdContents | src/user-shell.c:87-102 | every byte of the refreshed table |
| PathTracking.CdSpells | src/user-shell.c:178-254 | one cd with a name of at most eight bytes or ".." leads to the tree node it names, with that node's table and the path that spells it |
| PathTracking.CdTracks | src/user-shell.c:178-254 | the same, and every folder on the path can be left again, when no folder with a slash in its name is entered |
| PathTracking.CdAndBack | src/user-shell.c:178-254 | cd into a folder and cd .. restores the table and all 80 bytes of the path |
| CdLimits.CdSpellsIff | src/user-shell.c:178-254 | for every argument: after cd the table and the path spell some directory if and only if the argument is a name or ".." or does not open a folder by its first eight bytes |
| CdLimits.CdMovesIff | src/user-shell.c:178-254 | for every table, path and argument the path changes if and only if cd finds its target and reads it, and otherwise nothing changes |
| CdLimits.CdAppends | src/user-shell.c:246-252 | every byte of the path after a move down: the argument and a slash over the old end |
| CdLimits.CdStrips | src/user-shell.c:238-245 | every byte of the path after a move by "..", "." or nothing: zeros behind the last slash before its last character |
| CdLimits.RefusedUpdate | src/user-shell.c:87-102 | a refused refresh leaves the table |
| CdLimits.OpensIff | src/user-shell.c:205-221 | such an argument opens a folder if and only if its first eight bytes are the name of the directory itself or of a folder in it |
| CdLimits.EmptyStays | src/user-shell.c:205-221 | the empty argument leads nowhere in a directory without empty names |
| CdLimits.CdFitsIff | src/user-shell.c:238-252 | cd stays inside the path buffer if and only if the new path has at most 80 bytes, and spells the goal if and only if it has fewer |
| CdLimits.CdAndBackIff | src/user-shell.c:178-254 | cd into a folder and cd .. restores table and path if and only if the name has no slash |
| PathTracking.UpdateTracks | src/user-shell.c:87-102 | refreshing gives the current directory's table as it is on disk |
| Sessions.StepKept | src/filesystem/fat32.c:202-309 | every driver call keeps the names and parents of the directories that stay |
| Sessions.SessionTracks | src/user-shell.c:178-254 | over every session of cd's with any argument that does not mislead and of driver calls the path spells the directory the shell is in |
| Sessions.ShellStarts | src/user-shell.c:6-8 | the root table and "/root/" start such a session |
| Paging.PdeRoundTrip | src/header/memory/paging.h:34-71 | the fields of an entry tile the 32-bit word: unpacking and packing are inverse both ways |
| Paging.UserWord | src/paging.c:96-102 | a user entry's word is the frame in bits 22 to 31 with 0x87 below |
| Paging.FlagWord | src/header/memory/paging.h:34-44 | the eight flags are the bits of the word's low byte, lowest first |
| Paging.KernelWord | src/paging.c:160-167 | the kernel's entry is the word 0x83 |
| Paging.OneFrame | src/paging.c:53-72 | asking for any amount from one byte to one frame's size succeeds exactly when some frame is free |
| Paging.PageManager.constructor | src/paging.c:24-31 | the static data |
| Paging.PageManager.AllocateCheck | src/paging.c:53-72 | true exactly when a run of that many neighbouring frames is free and the amount, rounded up in 32 bits, is at least one frame |
| Paging.PageManager.UpdateEntry | src/paging.c:33-43 | one entry gets the flags and the ten address bits, its other fields and all other entries stay |
| Paging.PageManager.AllocateUserPageFrame | src/paging.c:75-106 | the lowest free frame is marked, counted and mapped, or nothing changes; the search never leaves the bitmap |
| Paging.PageManager.FreeUserPageFrame | src/paging.c:108-131 | the frame recovered from the entry is unmarked and counted and the entry cleared |
| Paging.PageManager.CreateNewPageDirectory | src/paging.c:141-174 | the first unused directory is marked and cleared but for the kernel's entry, or null comes back and nothing changes |
| Paging.PageManager.FreePageDirectory | src/paging.c:176-191 | a listed directory is cleared and unmarked; any other address changes nothing |
| FrameIsolation.BootInv | src/paging.c:24-31 | the static data satisfy the allocator's invariant |
| FrameIsolation.AllocateIff | src/paging.c:75-106 | an allocation succeeds exactly when the free counter is not zero, and a failed one changes nothing |
| FrameIsolation.AllocateKeepsIff | src/paging.c:75-106 | an allocation keeps bitmap, counter and directories in agreement if and only if it fails or the page was not present in a directory in use |
| FrameIsolation.FreeKeepsIff | src/paging.c:108-131 | a release is memory safe, and keeps the agreement if and only if the page was mapped for the user |
| FrameIsolation.CreateDirKeeps | src/paging.c:141-174 | creating a directory keeps the agreement |
| FrameIsolation.NewDirectory | src/paging.c:153-171 | the first unused directory is taken; frames, counter and every other directory stay |
| FrameIsolation.NewDirectoryWords | src/paging.c:158-167 | a new directory has the word 0x83 for the 4 MiB from 0xC0000000 and 0 for every other address |
| FrameIsolation.NewDirectoryIff | src/paging.c:153-173 | null comes back if and only if all directories are in use, and then nothing changes |
| FrameIsolation.KernelMapped | src/paging.c:141-174 | under the invariant every directory in use maps the 4 MiB from 0xC0000000 by the word 0x83 to physical memory from 0 on |
| FrameIsolation.FreeDirKeepsIff | src/paging.c:176-191 | releasing a directory keeps the agreement if and only if no user page is left in it |
| FrameIsolation.StepKeepsIff | src/paging.c:75-191 | the four operations together, each under its exact condition |
| FrameIsolation.RunIsolates | src/paging.c:75-191 | at any point of any run two user addresses reach one physical byte only if they are the same address in the same directory, and none reaches frame 0 |
| FrameIsolation.FramesConserved | src/paging.c:24-131 | the user entries of all directories and the free counter add up to 31 |
| FrameIsolation.FreeUndoesAllocate | src/paging.c:87-128 | releasing any address of the page just allocated recovers the frame from the packed bits and restores every field |
| FrameIsolation.AllocateUndoesFreeIff | src/paging.c:87-128 | allocating again after a release restores everything if and only if the frame was below every free one |
| Process.ProcessManager.constructor | src/process.c:6-16 | the static data |
| Process.ProcessManager.InactiveIndex | src/process.c:21-28 | the first unmarked slot, or -1 exactly when all are marked |
| Process.ProcessManager.NewPid | src/process.c:30-32 | the old counter, which goes up by one in 32 bits |
| Process.ProcessManager.DestroyProcess | src/process.c:34-72 | result and every field of table, marks, counter and paging state, for any pid |
| Process.ProcessManager.CreateUserProcess | src/process.c:75-147 | return code and every field of table, marks, counters and paging state, for every refusal, a failed read and success |
| Creation.CodeIff | src/process.c:75-147 | which of the codes 0 to 4 a creation returns, exactly, and that 1 to 3 change nothing |
| Creation.NewProcess | src/process.c:98-141 | slot, pid, state, directory, stack pointer and flags of the new process, and that the rest of the table stays |
| Creation.KilledProcess | src/process.c:34-72 | a kill returns true exactly when a slot has the pid, empties the first such slot and unmarks every slot without a process |
| Creation.FreeAllReleases | src/process.c:47-50 | releasing mapped addresses gives back their frames and clears their pages, nothing else changes, and frames and directories stay in agreement |
| Creation.KillReleases | src/process.c:34-72 | a process whose listed pages are mapped can be killed, and its kill releases exactly those |
| ProcessRuns.BootProcInv | src/process.c:6-16 | the static data satisfy the invariant of table and memory |
| ProcessRuns.NeededIff | src/process.c:18-90 | the frame count passes the limit of eight if and only if the size is at most 28 MiB or so large that the 32-bit sum wraps |
| ProcessRuns.RefusalIff | src/process.c:77-93 | a creation is not refused if and only if a slot and one frame are free, the entry point is below the kernel and the size passes |
| ProcessRuns.RoomFound | src/process.c:98-104 | without failed reads a creation that is not refused finds a free slot and never gets the null directory |
| ProcessRuns.RoomIff | src/process.c:98-104 | after any number of failed reads a creation that is not refused gets a directory, and a slot if and only if the counter plus the failed reads is below 16 |
| ProcessRuns.FailedReadDrifts | src/process.c:119-126 | a failed read with a process active keeps table and memory in order but for the counter, which falls behind by one more |
| ProcessRuns.OverrunReachable | src/process.c:77-101 | a run from boot with one failed read reaches a creation that passes every check while all slots are taken |
| ProcessDrift.DriftRunKeeps | src/process.c:34-147 | over every run of spawns, failed reads and kills of any pid, in which no accepted spawn lacks a slot and the counter is not lowered from zero, every call is memory safe and the counter is behind the number of processes by the calls that lowered it for none |
| ProcessDrift.WrapRefuses | src/process.c:69-126 | lowered from zero, the counter wraps and every creation is refused |
| ProcessRuns.OpensOne | src/process.c:104-108 | the new directory holds the kernel's entry at 0x300 and exactly one user entry below it, every other directory is unchanged, and one frame is gone |
| ProcessRuns.CreateKeeps | src/process.c:75-147 | a creation that has a slot and whose executable is read keeps the invariant, returns 0 and takes one slot, one pid and one frame |
| ProcessRuns.FailedRead | src/process.c:119-126 | a failed read returns 4, restores the marks and decrements the counter that was not incremented |
| ProcessRuns.CreateKeepsIff | src/process.c:75-147 | a creation is memory safe, and keeps the invariant if and only if it is refused or the executable is read |
| ProcessRuns.FailedReadBlocks | src/process.c:69-126 | after a failed read with no active process the creation that follows is refused, whatever it asks for |
| ProcessRuns.DestroyKeepsIff | src/process.c:34-72 | a destruction changes neither frames nor directories, and keeps the invariant if and only if it is not of pid 0 with a slot free |
| ProcessRuns.CallRunKeeps | src/process.c:34-147 | over every such run the table invariant holds, every call is memory safe, and pids given out and free frames add up to 32, so at most 31 processes are ever created |
| ProcessRuns.ProcessesIsolated | src/process.c:75-147 | at any point of any run two live processes share no physical byte of user memory |
| Tokenizer.WordsAreBlocks | src/user-shell.c:65-79 | word i is w if and only if w is a maximal space-free block before which exactly i words begin |
| Tokenizer.ParseArguments | src/user-shell.c:65-79 | every byte of the argument table holds the words in order and zeros elsewhere, for any command whose words fit |
| Tokenizer.ShortLine | src/user-shell.c:65-79 | a command of at most 79 bytes fits, with room for every terminator |
| Tokenizer.FindWord | src/stdlib/string.c:55-74 | the place where word number wordIdx begins, the end after trailing spaces, or -1 only when there are too few words |
| Tokenizer.GetWord | src/stdlib/string.c:55-88 | the buffer holds that word or the empty string, terminated, and is otherwise unchanged, for commands of any length |
| Tokenizer.TokenizeBoth | src/stdlib/string.c:55-88 | one command given to both tokenizers: row i of the table and the buffer hold the same C string, word i |
| Tokenizer.TokenizersAgree | src/stdlib/string.c:55-88 | row i of parse_arguments and the buffer of getWord, read as C strings, are the same word |
| Tokenizer.JoinRoundTrip | src/user-shell.c:65-79 | any words joined with single spaces parse back to those words |
| Tokenizer.Reparse | src/user-shell.c:65-79 | joining the words of any command with single spaces and parsing again gives the same words |
| NameParser.AddPadding | src/user-shell.c:105-108 | zeros in the given range, nothing else |
| NameParser.ParseNameAndExt | src/user-shell.c:110-136 | code and every byte of both buffers, for any argument of at least 13 bytes |
| NameParser.ParseOkIff | src/user-shell.c:110-136 | on zero-padded input the code is 0 if and only if at most 8 bytes precede the first dot and at most 3 follow; then the buffers hold those parts padded |
| NameParser.ParseIs | src/user-shell.c:110-136 | whatever the code: the first eight bytes before the dot and the first three after it, padded; only a name that is too long leaves the extension |
| NameParser.ParsedIsProper | src/user-shell.c:110-136 | a successful parse is padded as the requests for files need |
| NameParser.ZeroParseIff | src/user-shell.c:110-136 | a successful parse gives the all-zero key if and only if the text is empty or "." |
| NameParser.PrintNames | src/user-shell.c:501-516 | the listing is the lines of slots 2 to 63 that have a name, in order |
| NameParser.ListingIs | src/user-shell.c:501-516 | that is one newline-ended text for each slot with a name, one behind the other in slot order |
| NameParser.ListedNameParsesIff | src/user-shell.c:502-514 | parsing what ls prints for an entry gives the entry back if and only if its name has no dot and is followed by a zero, or by a stray "." in place of an empty extension |
| NameParser.FullNameLost | src/user-shell.c:502-514 | "abcdefgh" with an "x" behind the copy is printed as a name that the parser turns down |

## Left out

- Hardware: `src/disk.c`, `src/portio.c`, interrupt, keyboard, GDT and IDT set-up, and the assembly. The in-memory block functions stand for the disk.
- The console (`putchar`, `puts`, the cursor), `get_command`, the text of messages, `cat`'s output, and the system call layer with the widths of its return codes.
- `rm` and `rmHelper`: the loop starts at the ".." slot and takes a cluster number from the wrong index; recursive removal as written is not the intended algorithm.
- `mv_folder` and `update_directory_table`: they overwrite directory tables with caller bytes, so the volume invariant does not hold across them.
- The printed text of `getFullPath` and `find`. The rules by which `find` and `DFSfind` recognise a match are arbitrary parameters, so what is said about the two holds for any of them.
- Runs.RunSimulates: writes pass padded names (`StoredFileIff` and `StoredFolderIff` say what happens to others), and no delete or read is asked for a key whose first match is an unused slot, where the code leaves the disk (`LookupSafeIff`).
- Sessions.SessionTracks: paths fit in 80 bytes, the directory the shell is in is not removed, and no argument misleads cd or enters a folder with a slash in its name; CdLimits says what happens otherwise.
- CR3, the TLB and the kernel's own page directory; page directories passed to the allocator are among the 32 listed ones.
- Process.ProcessManager.CreateUserProcess: the file system's return code for the executable is a parameter; of the registers only the stack pointer and the flags are recorded.
- Overflow of the signed addition in `ceil_div` is modelled as wrapping in 32 bits; either reading refuses those sizes.
- `memmove`, `concat`, `copy` commands and other straight-line helpers, which would add only easy members.
