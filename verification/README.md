# bubble-os in Dafny

A model of the parts of the bubble-os kernel whose correctness is hardest to
see from the code, with proofs of what they promise. Verify everything with
`dafny verify dfyconfig.toml`.

## What is modelled

**FAT32.** The table is an array of words, the device a map from clusters to
bytes that is read and written a cluster at a time. Any transfer may fail
unless the volume is `reliable`; a failed write leaves any mixture of old and
new bytes. Directories are read from the device's own bytes as lists of
32-byte slots. The central invariant is `FileResize.Good`: every live chain is
acyclic, in range and end-marked, chains are disjoint, every file has exactly
the clusters its size needs, every other allocatable cluster is free or
reserved, every chain is held by one live entry, dot entries lead where they
should and every directory leads up to the root.

| files | subject |
|---|---|
| `FatTable`, `Ownership` | the allocator and who owns which cluster |
| `Slots`, `SlotLayout`, `LongNames`, `ShortNames`, `NameEntries` | entries, VFAT long names, 8.3 names and aliases |
| `DirectoryParser`, `DirectoryEdits` | the one-pass parser against a declarative rule; deletion and insertion |
| `ClusterData`, `FileData` | bytes and slots scattered over chained clusters |
| `Forest`, `TreeEdits`, `TreeOps`, `VolumeState` | the directory tree and what keeps it |
| `FatVolume`, `ResizeState`, `FileResize`, `FileAccess`, `Descriptors` | truncating, reading and writing files, up to descriptors |
| `DirectoryState`, `DirectorySlots`, `Lookup`, `Creation`, `MakeDirectory`, `Removal`, `Restoring` | creating and removing entries |
| `Paths`, `Walking` | path normalisation and walks on a volume |
| `Outcomes`, `Runs`, `Fresh` | a volume as a map from places to named files and folders, every operation as one update of it, whole runs, also from a blank volume |

**Paging** (`PageEntries`, `PageTree`, `PageTables`, `PageBoot`). The active four-level
table edits itself: every table below the top is reached through one window
page whose own entry lies in that table. The processor's walk is a function of
memory, so each dereference is a walk through the memory as it is then.
`PageBoot.BootIsReady` exhibits a smallest table that meets the invariant, as
`Fresh.Format` does for the file system.

**Scheduling** (`Histories`, `Scheduler`, `Kernel`). A run is a list of
events; which runs are lawful is defined on the events alone, without the
process table, and the kernel's methods are shown to produce lawful runs only.

**Compact cores.** The kernel heap (`Heap`), the scatter/gather builder
(`Prdt`), the argument frame and its reader (`ArgsFrame`) and calendar
arithmetic (`Civil`).

Conventions: `reliable` means that every transfer succeeds; statements about
an unreliable device say what holds whatever fails. Ghost parameters name the
chain or the place a caller has in mind. `Live(ss, i)` says that slot `i` is a
listed entry, `Listing(ss)` is what the declarative rule lists.

## Model

| member | source | states |
|---|---|---|
| `FatTable.FatBuffer.NextCluster` | src/fs/fat_fs.rs:1447-1458 | the successor of a cluster; none at end marks, free words and outside the table |
| `FatTable.FatBuffer.FindFreeCluster` | src/fs/fat_fs.rs:1530-1539 | the lowest free cluster from 2 on, none exactly when nothing is free |
| `FatTable.FatBuffer.AllocateChain` | src/fs/fat_fs.rs:1472-1512 | all or nothing: links exactly the lowest free clusters in ascending order, or leaves the table word for word |
| `FatTable.FatBuffer.FreeChain` | src/fs/fat_fs.rs:1514-1528 | terminates on every table, cyclic ones included, and computes `FreeFrom` |
| `FatTable.FreeFromChain` | src/fs/fat_fs.rs:1514-1528 | on an acyclic chain, exactly its words become zero |
| `FatTable.AllocateThenFree` | src/fs/fat_fs.rs:1472-1528 | allocating a chain and freeing it is the identity on the table |
| `FatTable.NonZeroDrops` | src/fs/fat_fs.rs:1514-1528 | each step of freeing lowers the number of non-zero words, or ends |
| `FatTable.FreeListExact` | src/fs/fat_fs.rs:1530-1539 | the free list is exactly the free clusters, ascending |
| `Ownership.OwnNewChain` | src/fs/fat_fs.rs:1472-1512 | a new chain joins disjoint chains and nothing leaks |
| `Ownership.OwnExtended` | src/fs/fat_fs.rs:1060-1072 | hanging new clusters behind a chain keeps all chains disjoint and everything accounted for |
| `Ownership.OwnFreed` | src/fs/fat_fs.rs:788-793 | freeing a chain returns exactly its clusters |
| `Ownership.OwnCut` | src/fs/fat_fs.rs:1021-1040 | cutting a chain keeps its prefix owned and frees the rest |
| `Ownership.UndoExtended` | src/fs/fat_fs.rs:1091-1109 | unlinking and freeing the new clusters gives back the old table, up to the end mark |
| `Ownership.ClustersAddUp` | src/fs/fat_fs.rs:1428-1540 | free clusters, the lengths of all chains and reserved clusters add up to the table |
| `Slots.ClusterRoundTrip` | src/fs/fat.rs:107-121 | a first cluster reads back as stored and no other field changes |
| `Slots.NewLongEntry` | src/fs/fat.rs:150-198 | a long-name slot carries its order, checksum and units, terminated and padded |
| `Slots.UnitsIgnoreHeader` | src/fs/fat.rs:219-237 | the units of a slot do not depend on its order, attribute and checksum bytes |
| `SlotLayout.ChecksumIsPublished` | src/fs/fat.rs:245-249 | the checksum of every prefix of a name is, in eight-bit vectors, the rotated checksum so far plus the next byte, starting from 0 |
| `SlotLayout.OneByteIsNoticed` | src/fs/fat.rs:245-249 | changing any one byte of a short name changes its checksum |
| `SlotLayout.KindsByBits` | src/fs/fat.rs:71-105 | long-name slots, labels and directories are told apart by the attribute bits 0x3F, 0x08 and 0x10 |
| `SlotLayout.OrderByBits` | src/fs/fat.rs:210-216 | number and last-slot flag are the low six bits and the seventh bit of the first byte |
| `SlotLayout.OrderIsOr` | src/fs/fat.rs:159-163 | the stored order byte is the number with the flag bit set in |
| `SlotLayout.EntryIsItsFields` | src/fs/fat.rs:54-69 | every entry is its fields side by side, little-endian: the halves of the first cluster at 20 and 26, the size at 28 |
| `SlotLayout.UnitsInOrder` | src/fs/fat.rs:219-237 | the units of a long-name slot are its three name fields read in order, low byte first |
| `LongNames.Utf16RoundTrip` | src/fs/fat.rs:260-311 | decoding the UTF-16 units of any string gives it back |
| `LongNames.Utf16Grows` | src/fs/fat.rs:260-275 | each character adds one unit, its own code, or the surrogate pair Unicode gives it |
| `LongNames.Utf16Unique` | src/fs/fat.rs:260-311 | the other direction: units that decode at all are the encoding of what they decode to, so no two unit sequences stand for one name |
| `LongNames.StoredRoundTrip` | src/fs/fat.rs:219-311 | a name cut into 13-unit chunks, terminated and padded, decodes to itself for every length, exact multiples of 13 included |
| `ShortNames.GetFatFilename` | src/fs/fat.rs:393-422 | computes the 8.3 form of a name, or refuses it; `ShortOfLegal`, `SameShortForm` and `ShortRoundTrip` say which bytes these are |
| `ShortNames.ShortRoundTrip` | src/fs/fat.rs:393-464 | an ASCII name with an 8.3 form reads back, up to case, exactly when it does not end in a dot |
| `ShortNames.ShownInLowerCase` | src/fs/fat.rs:445-464 | a short name is shown without capitals |
| `ShortNames.TrailingDotIsLost` | src/fs/fat.rs:393-422 | `foo.` is stored as `FOO` and reads back as `foo` |
| `ShortNames.ShortOfIgnoresCase` | src/fs/fat.rs:393-422 | ASCII names that are equal up to case have the same 8.3 form, or both have none |
| `ShortNames.SameShortForm` | src/fs/fat.rs:393-422 | two 8.3 names share their stored form exactly when base and extension agree up to case |
| `ShortNames.ShortOfLegal` | src/fs/fat.rs:393-422 | an 8.3 form is in capitals and never mistaken for an end mark, a deletion or a dot entry |
| `ShortNames.SanitizeShortComponent` | src/fs/fat.rs:343-366 | the first bytes of the cleaned component, at most the given number |
| `ShortNames.CleanOfFit` | src/fs/fat.rs:343-366 | a component that fits an 8.3 field is cleaned to exactly the bytes of that field |
| `ShortNames.AliasParts` | src/fs/fat.rs:324-329 | an alias is made from what stands before and behind the last dot; a name with no dot but a leading one has no extension |
| `ShortNames.DigitsSay` | src/fs/fat.rs:368-391 | the digits of a tail are its decimal digits, without a leading zero |
| `ShortNames.ComposeShortAlias` | src/fs/fat.rs:368-391 | the alias of a base, an extension and a numeric tail |
| `ShortNames.AliasInjective` | src/fs/fat.rs:368-391 | distinct tails give distinct aliases |
| `ShortNames.AliasLegal` | src/fs/fat.rs:343-391 | every alias is a legal 8.3 name in capitals |
| `ShortNames.AllTaken` | src/fs/fat.rs:324-341 | if the first n aliases are all taken, at least n names are |
| `ShortNames.GenerateShortAlias` | src/fs/fat.rs:324-341 | the result is legal, unused and has the lowest free tail, and there is one whenever fewer than 999,999 names are taken |
| `NameEntries.FindParsedEntry` | src/fs/fat_fs.rs:431-440 | the first entry whose long name or 8.3 alias matches, ignoring ASCII case |
| `NameEntries.PrepareNameEntries` | src/fs/fat_fs.rs:546-584 | an 8.3 name alone, or long-name slots with an unused alias; refuses exactly what cannot be stored |
| `NameEntries.LongSlotsRun` | src/fs/fat_fs.rs:559-583 | the prepared slots followed by their entry decode to the requested name |
| `NameEntries.PreparedIsNew` | src/fs/fat_fs.rs:546-584 | for a plain name that matches nothing, the prepared short name differs from every listed one |
| `NameEntries.PreparedMatches` | src/fs/fat_fs.rs:431-496 | the stored name matches the requested one |
| `DirectoryParser.ParseDirectoryEntries` | src/fs/fat_fs.rs:331-425 | on every slot list, corrupt ones included, the one pass computes the declarative rule: names and long-name locations alike |
| `DirectoryParser.GroupUnique` | src/fs/fat_fs.rs:331-425 | at most one run of slots before an entry is its long name |
| `DirectoryEdits.DeletionRemoves` | src/fs/fat_fs.rs:331-425 | on every slot list, marking an entry and its long-name slots deleted lists the old entries minus exactly that one |
| `DirectoryEdits.DeletionKeepsShape` | src/fs/fat_fs.rs:772-782 | no orphan long-name slots and only end marks after the first |
| `DirectoryEdits.InsertionInserts` | src/fs/fat_fs.rs:589-606 | storing a run in free slots lists the old entries, in order, with the new one among them |
| `DirectoryEdits.InsertedEntry` | src/fs/fat_fs.rs:546-606 | the new entry is found where it was put, under the requested name, owning exactly its slots |
| `DirectoryEdits.InsertionKeepsShape` | src/fs/fat_fs.rs:648-694 | the end-mark shape survives, also when the run spans appended clusters |
| `ClusterData.PersistSlot` | src/fs/fat_fs.rs:1111-1145 | writing 32 bytes at a location changes that slot of the directory and no other |
| `FatVolume.Volume.WriteCluster` | src/fs/fat_fs.rs:1331-1336 | the cluster holds the buffer, or some mixture when the transfer failed; nothing else changes |
| `FatVolume.Volume.PersistFat` | src/fs/fat_fs.rs:1177-1192 | on success every copy on the device equals the table |
| `FileData.ReadFile` | src/fs/fat_fs.rs:844-903 | the first `size` bytes of the chain, or failure |
| `FileData.CopyRange` | src/fs/fat_fs.rs:928-973 | bytes outside the range and clusters outside the chain never change; the counted bytes are in place |
| `FileData.WriteExistingFile` | src/fs/fat_fs.rs:905-974 | replaces the range; a partial count says how much is known to be in place |
| `FileData.ZeroFileRange` | src/fs/fat_fs.rs:1251-1291 | the range is zero and everything else as before |
| `Forest.HolderUnique` | src/fs/fat_fs.rs:454-530 | two live entries never name the same chain |
| `Forest.ReachesRoot` | src/fs/fat_fs.rs:722-757 | following holders up from any directory ends at the root |
| `TreeEdits.EditKeepsTree` | src/fs/fat_fs.rs:454-530 | changing one entry and the chain it holds keeps the whole tree |
| `TreeOps.DeleteKeepsTree` | src/fs/fat_fs.rs:608-633 | removing a file or an empty directory keeps the tree |
| `TreeOps.InsertDirectoryKeepsTree` | src/fs/fat_fs.rs:498-530 | a new directory with its dot entries joins the tree |
| `VolumeState.StoreSlot` | src/fs/fat_fs.rs:1111-1145 | storing an entry touches its directory's chain only |
| `ResizeState.GrowCommit` | src/fs/fat_fs.rs:1048-1089 | zeroed new clusters plus the updated entry make a file with zeros appended |
| `ResizeState.ShrinkCommit` | src/fs/fat_fs.rs:1004-1046 | the cut chain plus the updated entry make the prefix |
| `ResizeState.RolledBack` | src/fs/fat_fs.rs:1091-1109 | after rollback the volume is consistent and every file has its old bytes |
| `ResizeState.ClustersCover` | src/fs/fat_fs.rs:1233-1240 | the cluster count of a size is the least that covers it |
| `FileResize.ReadDirectoryEntry` | src/fs/fat_fs.rs:1147-1175 | the slot at a location that lies inside its cluster |
| `FileResize.PersistDirectoryEntry` | src/fs/fat_fs.rs:1111-1145 | stores the slot; rewriting the same slot never changes anything, even when it fails |
| `FileResize.ClusterAt` | src/fs/fat_fs.rs:1242-1249 | the cluster at an index of a chain, none behind its end |
| `FileResize.AllocateGrowth` | src/fs/fat_fs.rs:1055-1072 | succeeds exactly when enough clusters are free; otherwise the table is word for word the same |
| `FileResize.RollbackGrowth` | src/fs/fat_fs.rs:1091-1109 | the old chain ends where it did, the new clusters are free, the entry names its old first cluster |
| `FileResize.GrowExistingFile` | src/fs/fat_fs.rs:1048-1089 | appends zeros; a growth that fails is refused without a trace, or undone by the rollback (successors, free set, first cluster and bytes as they were), or cut short at the very last step, the entry, with the table synced, the new clusters linked and zeroed; on a reliable device only refusal for lack of space is left |
| `FileResize.ShrinkExistingFile` | src/fs/fat_fs.rs:1004-1046 | keeps the prefix and frees the clusters behind it; if storing the entry fails, the chain is cut in the table and no chain but the directory's has changed bytes |
| `FileResize.TruncateExistingFile` | src/fs/fat_fs.rs:976-1002 | the file becomes its prefix or gets zeros, every other chain is untouched; every failure is one of refused, undone or cut short; on a reliable device it succeeds exactly when size, attributes and space allow |
| `FileAccess.ReadWhole` | src/fs/fat_fs.rs:168-173 | reads exactly the bytes of the file |
| `FileAccess.WriteInside` | src/fs/fat_fs.rs:175-183 | whatever fails, the volume stays consistent and only bytes of the range of this file can change |
| `FileAccess.TruncationSpares` | src/fs/fat_fs.rs:976-1046 | a truncation leaves every other chain, every other slot of the directory and every name in it alone |
| `FileAccess.FileBytesLength` | src/fs/fat_fs.rs:156-166 | a file has as many bytes as its entry says |
| `Descriptors.ReadsConcatenate` | src/scheduling/process.rs:141-174 | successive reads deliver the file from the offset on, without gap or overlap |
| `Descriptors.WrittenAt` | src/scheduling/process.rs:186-207 | after a write past the end: the written bytes, zeros in the gap, old bytes elsewhere |
| `Descriptors.Process.OpenAt` | src/scheduling/process.rs:104-126 | takes the lowest free descriptor from 3 on and changes no other |
| `Descriptors.Process.Close` | src/scheduling/process.rs:128-135 | frees a descriptor from 3 on |
| `Descriptors.Process.Read` | src/scheduling/process.rs:141-174 | delivers the bytes at the offset and moves it past them |
| `Descriptors.Process.ReadAll` | src/scheduling/process.rs:141-174 | a loop of reads delivers the file from the offset on, up to the bytes asked for, and leaves the offset behind them |
| `Descriptors.Process.Write` | src/scheduling/process.rs:186-207 | on any device, the counted bytes are in place and nothing outside the range changed, in the old file or in the file truncated to the end of the range; other files and entries stay; on a reliable device it is all written, gaps zeroed, and succeeds exactly when space and attributes allow |
| `Descriptors.Process.Truncate` | src/scheduling/process.rs:209-226 | truncates the file and pulls the offset back to the smaller of itself and the new size |
| `DirectoryState.ExtendCommit` | src/fs/fat_fs.rs:705-720 | a cleared cluster behind a directory keeps the volume consistent and adds only end marks |
| `DirectoryState.InsertFileCommit` | src/fs/fat_fs.rs:454-496 | a stored file entry keeps the volume consistent and other chains as they were |
| `DirectoryState.InsertDirectoryCommit` | src/fs/fat_fs.rs:498-530 | the same for a directory and its own cluster |
| `DirectoryState.DeleteCommit` | src/fs/fat_fs.rs:772-794 | marked slots plus a freed chain keep the volume consistent |
| `DirectorySlots.LoadDirectorySlots` | src/fs/fat_fs.rs:292-329 | all slots of the directory with their locations, and its last cluster |
| `DirectorySlots.AppendDirectoryCluster` | src/fs/fat_fs.rs:705-720 | links a cleared cluster; on any device a failure leaves chains, slots and every successor as they were; on a reliable device it fails exactly when no cluster is free, changing nothing |
| `DirectorySlots.FindFreeRun` | src/fs/fat_fs.rs:653-673 | the first run of free slots that is long enough (none earlier is), else the free suffix |
| `DirectorySlots.AllocateDirectorySlots` | src/fs/fat_fs.rs:648-694 | consecutive free slots, over old and appended clusters; the directory only gains end marks |
| `DirectorySlots.StoreRun` | src/fs/fat_fs.rs:597-602 | the slots of the run are stored in place, other chains untouched |
| `Lookup.FindEntryByName` | src/fs/fat_fs.rs:442-452 | the first matching entry of the listing, with the locations the parser gives it |
| `Creation.PersistNewEntry` | src/fs/fat_fs.rs:589-606 | stores the run as an insertion into the directory as it was before any extension |
| `Creation.CreateFile` | src/fs/fat_fs.rs:454-496 | the listing gains one empty file, under the 8.3 form of the name or else the name itself; a plain name then finds it and only it, and short names stay distinct; refused when the name matches; other chains are untouched whatever fails; on a reliable device fails only for a bad name, 999,999 entries or a full volume, and then nothing listed changes |
| `Creation.CreatedIsFound` | src/fs/fat_fs.rs:431-496 | a name that matched nothing matches exactly the entry created under it |
| `Creation.CreatedIsDistinct` | src/fs/fat_fs.rs:546-606 | short names stay pairwise distinct |
| `MakeDirectory.InitialIsNewDirectory` | src/fs/fat_fs.rs:722-757 | the initial bytes are two dot entries, to itself and its holder, and end marks |
| `MakeDirectory.InitializeDirectoryCluster` | src/fs/fat_fs.rs:722-757 | the cluster holds the initial bytes |
| `MakeDirectory.RollbackAllocatedChain` | src/fs/fat_fs.rs:796-799 | the cluster of a directory that could not be entered is free again |
| `MakeDirectory.CreateDirectory` | src/fs/fat_fs.rs:498-530 | the listing gains an empty directory, under the 8.3 form of the name or else the name itself, held by its entry; other chains are untouched whatever fails; a failure on a reliable device leaves listing, holders and free clusters as they were, apart from end marks |
| `Removal.DeleteDirectoryEntry` | src/fs/fat_fs.rs:772-794 | marks exactly the entry's slots and frees exactly its chain |
| `Removal.UnlinkFile` | src/fs/fat_fs.rs:608-615 | removes the first match if it is a regular file; otherwise nothing changes; if the device fails, table and other chains are untouched |
| `Removal.DirectoryIsEmpty` | src/fs/fat_fs.rs:759-770 | whether only dot entries are listed |
| `Removal.RemoveDirectory` | src/fs/fat_fs.rs:617-633 | removes the first match if it is an empty directory other than the root and the dot entries; otherwise nothing changes; if the device fails, table and other chains are untouched |
| `Restoring.CreateThenUnlink` | src/fs/fat_fs.rs:454-615 | in between, the listing has gained the file under its stored name; then the listing is restored, and the table unless the directory was extended; without a creation the name matched, could not be stored, or the directory or volume was full |
| `Restoring.MakeThenRemove` | src/fs/fat_fs.rs:498-633 | the same for directories |
| `Paths.NormalizePathComponents` | src/fs/fs.rs:180-197 | leading `..`s, then plain names |
| `Paths.JoinedSplit` | src/fs/fs.rs:180-197 | splitting a path at its slashes loses nothing |
| `Paths.NormalizeFixes` | src/fs/fs.rs:180-197 | exactly the normal lists are left alone |
| `Paths.NormalizeIdempotent` | src/fs/fs.rs:180-197 | normalising a normalised path, as components or as text, changes nothing |
| `Paths.NormalizeComposes` | src/fs/fs.rs:180-197 | normalising a composed path is composing normalised paths |
| `Paths.WalkNormalized` | src/fs/fs.rs:180-197 | where `..` leads back and the raw walk succeeds, the normalised path leads to the same directory |
| `Paths.WalksCompose` | src/fs/fs.rs:180-197 | where one path leads to a directory, the composed path leads where the second leads from there, and nowhere when it leads nowhere |
| `Paths.AnchorSpelt` | src/scheduling/mod.rs:467-502 | a path starts at the root if it has a leading slash or its first component is `~`, else in the working directory, and the rest of it is walked |
| `Paths.RelativeResolves` | src/scheduling/mod.rs:493-500 | a relative path is walked from the working directory |
| `Paths.RootedResolves` | src/scheduling/mod.rs:467-492 | a path with a leading slash, or that behind `~`, is walked from the root, the same from every working directory |
| `Paths.PathsCompose` | src/scheduling/mod.rs:467-502 | for relative paths, `a/b` leads where `b` leads from the directory `a` leads to |
| `Walking.FindDirectory` | src/fs/fs.rs:61-71 | the first listed directory of that name; it is a directory of the tree |
| `Walking.FindDirectoryComponents` | src/fs/fs.rs:88-97 | follows the components one after the other; nothing for an empty list |
| `Walking.TreeIsFaithful` | src/fs/fat_fs.rs:722-757 | every lookup stays in the tree, `.` leads nowhere else and `..` leads back from a plain name, exactly when the root lists no directory as `.` |
| `Walking.NormalisationExact` | src/fs/fs.rs:180-197 | every path whose raw walk succeeds resolves to it, exactly when the root lists no directory as `.` |
| `Walking.FindDirectoryFromPath` | src/scheduling/mod.rs:467-502 | `.` stays in the working directory and `/` is the root; relative paths are resolved from the working directory, the others from the root, by their normalised walk; where the root lists no directory as `.`, that is where the walk the path spells out ends |
| `Walking.FindBelow` | src/scheduling/mod.rs:467-502 | changing to `a` and then naming `b` finds what `a/b` finds |
| `Runs.FindFile` | src/fs/fs.rs:73-81 | the first regular file listed under the name up to case, as a live handle; none exactly when there is none, on a reliable device |
| `Outcomes.EditNodes` | src/fs/fat_fs.rs:454-1109 | changing one entry and its own chain changes the map of files and folders at its place only |
| `Outcomes.CreatedNodes` | src/fs/fat_fs.rs:454-496 | creating a file puts an empty file under its stored name at one place |
| `Outcomes.MadeNodes` | src/fs/fat_fs.rs:498-530 | mkdir puts one folder at one place, and the new directory adds nothing else |
| `Outcomes.RemovedNodes` | src/fs/fat_fs.rs:608-633 | unlink and rmdir take out one place |
| `Outcomes.RewrittenNodes` | src/fs/fat_fs.rs:905-1046 | truncating or writing a file changes its bytes, and no name, folder or other file |
| `Outcomes.UnchangedNodes` | src/fs/fat_fs.rs:454-530 | a failed creation changes the map nowhere |
| `Runs.Perform` | src/scheduling/mod.rs:504-655 | one operation on the directory its path leads to: the map of files and folders changes at one place, to what the operation asks for (kind, stored name, bytes), picked as the code picks it; all other chains stay; a failure has one of the listed reasons and changes the map nowhere; consistency, distinct short names and the absence of a folder named `.` are kept |
| `Runs.Run` | src/fs/fat_fs.rs:454-1109 | every script of create, mkdir, unlink, rmdir, truncate and write is a chain of consistent volumes, each step performing its operation; the final map is the first one with the events replayed; table copies are equal; with plain names, short names stay distinct |
| `Outcomes.RunReplays` | src/fs/fat_fs.rs:454-1109 | after any number of steps, the map is the first one with the events so far replayed |
| `Outcomes.PlacesAreIndependent` | src/fs/fat_fs.rs:454-1109 | what a place holds is settled by the successful operations at that place alone |
| `Outcomes.StepFinds` | src/fs/fat_fs.rs:454-1109 | each step of a run finds at a place what the steps before it left there |
| `Outcomes.StoredIsNoDot` | src/fs/fat.rs:260-422 | no name the driver accepts is stored as `.` |
| `Outcomes.NamedDotIsFolder` | src/fs/fs.rs:61-71 | a lookup of `.` in the root finds something exactly when a folder is stored under that name |
| `Fresh.RunFromFresh` | src/fs/fat_fs.rs:454-1109 | every script on a freshly formatted volume leaves it consistent, without a folder named `.` in the root, holding exactly the replay of the events |
| `Fresh.ResolveAfterRun` | src/scheduling/mod.rs:467-502 | after any script on a fresh volume, every path whose raw walk succeeds resolves to it |
| `Fresh.NamedDotTree` | src/fs/fat.rs:424-464 | a consistent tree with a root entry named dot, tab, spaces: the path `.` walks into it, its normal form stays at the root |
| `Runs.NothingLeaks` | src/fs/fat_fs.rs:1428-1540 | on a consistent volume nothing is lost or owned twice: free, owned and reserved clusters add up to the whole table |
| `Runs.FilesFit` | src/fs/fat_fs.rs:1233-1240 | every file has exactly the clusters its size needs |
| `PageEntries.EntryRoundTrip` | src/mem/paging/entry.rs:58-79 | a stored entry gives back its frame and its flags |
| `PageEntries.PathUnique` | src/mem/paging/mod.rs:39-53 | two pages share their four indices exactly when their low 36 bits agree |
| `PageEntries.PathIsPage` | src/mem/paging/mod.rs:39-53 | the four indices are the digits of the page number in base 512, highest first |
| `PageTree.WriteLeaf` | src/mem/paging/page_table.rs:405-409 | writing a leaf changes the walk to that page alone |
| `PageTree.WriteSameFrame` | src/mem/paging/page_table.rs:517-529 | changing only flags of a table's entry changes no walk |
| `PageTree.LinkTable` | src/mem/paging/page_table.rs:538-580 | linking a blank frame adds one node and changes no translation |
| `PageTree.AccessMeans` | src/mem/paging/page_table.rs:502-580 | a walk grants a right exactly when the entries on all its levels do |
| `PageTables.Machine.SetWindow` | src/mem/paging/temp_mapper.rs:39-49 | the window shows the frame, writable; only its entry changed |
| `PageTables.Machine.NextTableTemp` | src/mem/paging/page_table.rs:391-403 | the window shows the intended next table, or there is none |
| `PageTables.Machine.TranslateToPhys` | src/mem/paging/page_table.rs:321-341 | the frame of the page, with nothing but the window moved |
| `PageTables.Machine.IsUnused` | src/mem/paging/page_table.rs:299-312 | whether no entry is stored for the page |
| `PageTables.Machine.SlotFrame` | src/mem/paging/page_table.rs:551-572 | the slot's frame is found and the window shows again what it showed before |
| `PageTables.Machine.LinkNewTable` | src/mem/paging/page_table.rs:538-580 | the new table hangs at the intended place although the window moved meanwhile |
| `PageTables.Machine.NextTableCreate` | src/mem/paging/page_table.rs:502-580 | the returned address shows the intended table, whose entry gained exactly the flags; no page but the window translates differently |
| `PageTables.Machine.MapTo` | src/mem/paging/page_table.rs:136-193 | the page translates to the frame, and its whole walk is writable, and open to ring 3, exactly when asked for; every other page but the window translates as before, keeps its entry and loses no right; upper levels gain no other flag |
| `PageTables.Machine.Unmap` | src/mem/paging/page_table.rs:203-219 | returns the frame and removes that page only |
| `PageTables.Machine.MapThenUnmap` | src/mem/paging/page_table.rs:136-219 | restores every translation |
| `Histories.LawfulAppended` | src/scheduling/mod.rs:77-157 | an extended history is lawful exactly when the history was and a dispatch is permitted by it, a deployment fresh to it |
| `Scheduler.ReadyIsPermitted` | src/scheduling/mod.rs:112-148 | the dispatcher calls ready exactly what the history permits: own frame, wait over, sleep elapsed |
| `Scheduler.ReadyIsMayRun` | src/scheduling/mod.rs:112-156 | the ready places are those of the processes the history lets resume; none is ready exactly when it lets nobody |
| `Scheduler.ComesCloser` | src/scheduling/mod.rs:112-156 | each dispatch reaches a ready process or comes strictly closer to it |
| `Scheduler.BoundedWait` | src/scheduling/mod.rs:112-156 | a process that stays ready is dispatched within as many calls as it is away around the table |
| `Scheduler.DeployOk` | src/scheduling/mod.rs:211-267 | a new process joins under a pid never used before |
| `Scheduler.ExitOk` | src/scheduling/mod.rs:346-401 | a process leaves; the index stays in the table and no other process changes |
| `Kernel.DurationToTicks` | src/time/mod.rs:86-92 | the least number of ticks that covers the duration; none exactly on 64-bit overflow |
| `Kernel.Kernel.SaveCurrent` | src/scheduling/mod.rs:86-110 | an interrupted user process keeps its frame; the idle loop's frame is never saved |
| `Kernel.Kernel.FindReady` | src/scheduling/mod.rs:112-156 | the first ready process after the current one, going around; none exactly when none is ready |
| `Kernel.Kernel.NextProcess` | src/scheduling/mod.rs:77-157 | dispatches the next process around the table that the history lets resume, with its saved frame; nobody exactly when the history permits nobody, and then the index stays |
| `Kernel.Kernel.YieldUntil` | src/scheduling/mod.rs:77-157 | a loop of calls dispatches a ready process within as many calls as it is away around the table |
| `Kernel.Kernel.ProcessInput` | src/scheduling/mod.rs:302-313 | every blocked process gets the input in rax and is unblocked; no other changes |
| `Kernel.Kernel.BlockCurrent` | src/scheduling/mod.rs:269-279 | the running process waits for input |
| `Kernel.Kernel.CurrentWaitForProcess` | src/scheduling/mod.rs:315-344 | the running process waits for a pid to leave |
| `Kernel.Kernel.SleepCurrentUntil` | src/scheduling/mod.rs:290-300 | the running process sleeps until the first tick that covers the duration |
| `Kernel.Kernel.Deploy` | src/scheduling/mod.rs:211-267 | a fresh pid, used up also by a process that fails to load |
| `Kernel.Kernel.ExitCurrent` | src/scheduling/mod.rs:346-401 | the running process leaves the table |
| `Kernel.Kernel.TimerIsr` | src/arch/x86_64/timer_isr.rs:20-36 | records a tick, the deliveries, the stop and at most one dispatch, in this order |
| `Kernel.Kernel.NanosleepCall` | src/syscall/nanosleep.rs:24-50 | a valid request records sleep and stop, with rax reporting success; others change nothing |
| `Kernel.Kernel.Handle` | src/syscall/wait_for_process.rs:5-11 | every cause records exactly its events, then at most one dispatch |
| `Kernel.Kernel.Run` | src/scheduling/mod.rs:77-401 | every run is a chain of kernel states, each step recording the events of its cause and then at most one dispatch, none only if the history permits nobody; every state is lawful: processes resume with the frame they stopped with, only once their wait is over, and pids are never reused; the index stays in bounds |
| `Heap.LinkedListHeap.AllocateInternal` | src/mem/heap.rs:69-113 | takes the lowest block that fits, splitting it; fails only when no free block has the size or the size plus a header |
| `Heap.LinkedListHeap.DeallocInternal` | src/mem/heap.rs:115-133 | frees the block and merges a free right neighbour |
| `Heap.LinkedListHeap.MergeRight` | src/mem/heap.rs:136-158 | two neighbouring free blocks become one |
| `Heap.LinkedListHeap.Alloc` | src/mem/heap.rs:162-207 | an aligned payload with room for the request |
| `Heap.BlockSizeOk` | src/mem/heap.rs:162-170 | the block holds request and header, keeps blocks aligned and wastes less than one alignment unit |
| `Heap.FitsIsCuttable` | src/mem/heap.rs:69-113 | a block fits exactly when it is free and can be cut into one of the size and proper blocks |
| `Heap.PayloadsApart` | src/mem/heap.rs:53-113 | a payload shares no byte with another block, header included, and is 8-aligned |
| `Heap.OneBlockLeft` | src/mem/heap.rs:115-158 | freeing everything in descending order leaves one block exactly when only the last block was free |
| `Heap.LinkedListHeap.FreeDescending` | src/mem/heap.rs:115-158 | the list after such frees, and when it is a single block |
| `Heap.LinkedListHeap.AllocateAllThenFree` | src/mem/heap.rs:53-158 | the requests are served first-fit one after the other, then freed in descending order, which restores the fresh heap |
| `Prdt.FilledEntry` | src/ahci/hba.rs:230-248 | address, byte count and interrupt bit read back as set, whatever the entry held |
| `Prdt.FilledWord` | src/ahci/hba.rs:230-248 | the third word is the byte count in the low 22 bits, nine bits as they were, and the interrupt flag on top |
| `Prdt.BuildRun` | src/ahci/port.rs:370-397 | the longest physical run up to the limit of one entry |
| `Prdt.FillPrdtEntries` | src/ahci/port.rs:348-409 | the entries visit exactly the physical bytes of the buffer in order; sizes within 4 MiB, interrupt bit on the last only, neighbours unmergeable, even bases and odd stored counts for even buffers |
| `ArgsFrame.WriteArgsFrame` | src/elf/mod.rs:319-351 | succeeds exactly when the frame fits; then count, pointers, terminators and strings lie inside the stack without overlap and rsp is 16-byte aligned |
| `ArgsFrame.LowestFirst` | src/elf/mod.rs:319-351 | words are stored lowest byte first |
| `ArgsFrame.Args.Get` | userspace/ulib/lib.rs:131-147 | the argument up to its first NUL, nothing behind the last |
| `ArgsFrame.Args.Next` | userspace/ulib/lib.rs:150-158 | the next argument, once each |
| `ArgsFrame.UpToNulWhole` | userspace/ulib/lib.rs:141-146 | a string is read back whole exactly when it has no NUL |
| `ArgsFrame.RoundTrip` | src/elf/mod.rs:319-351 | the reader recovers exactly the arguments written |
| `Civil.Epoch` | src/arch/x86_64/rtc.rs:62-72 | 1970-01-01 is day 0 |
| `Civil.NextDayIsOneMore` | src/arch/x86_64/rtc.rs:62-72 | the next calendar day is one more, across months, leap years and eras |
| `Civil.DaysMonotone` | src/arch/x86_64/rtc.rs:62-72 | later dates have larger numbers and only equal dates equal ones |
| `Civil.CountsFromEpoch` | src/arch/x86_64/rtc.rs:62-72 | the number is the calendar's own count of days from the epoch |

## Left out

- Boot sector, sector arithmetic and mounting: clusters are the unit of transfer, and a mounted volume is the starting point.
- Kernel memory that runs out: allocating a buffer never fails in the FAT model.
- Table entries behind the data region: every entry from 2 on has a cluster.
- Tables of 0x0FFFFFF8 entries or more: cluster numbers and end marks would collide.
- Bytes of 0x80 and more in raw 8.3 names: such a component is shown as the empty string, also where the bytes would form a multi-byte character.
- Unicode case mapping: only whether a character uppercases to ASCII, and to what, is modelled.
- Failed creations and removals on an unreliable device: other chains are claimed to be untouched; the half-stored slots of the directory itself are those the code leaves.
- Runs.Perform: stated for a reliable device; what survives a failing transfer is stated operation by operation.
- Handles to removed entries: an operation needs a live handle.
- `find_file_components`, the split of a path into parent and name and the `cd` state: thin layers over the walks.
- Identity-mapped mode, huge pages, extension of the slot region, several address spaces sharing subtables, the translation cache: the model is the active table in virtual mode with enough free slots.
- PageTables.Machine.AllocSlot: clears every slot it hands out; a slot that was never used is taken to be clear already.
- `map_range`, `walk_range_entries` and `free_user_subtables`: loops over the modelled operations, or false under sharing.
- Interrupts inside the kernel: they arrive from user code or the idle loop only, and the code's address threshold tells the two apart.
- Failing page-table switches in `schedule` and processes without a page table: every deployed process can be entered.
- Kernel.Kernel.Deploy: working directory and descriptor table of the new process are not part of the process record.
- 64-bit wrap-around of the tick counter and of pids.
- Fairness while processes come and go, and turn order after the first process exits.
- Heap alignments above 8: the code ignores the argument, so only 8-byte alignment is stated.
- Heap.LinkedListHeap.DeallocInternal: needs the address of a live block, as the code does.
- Device registers, command issue, the other half of the AHCI driver, e1000, PCI, ACPI, serial and boot code.
- The ELF loader apart from the argument frame, system call wrappers, the shell and the user programs.
- Reading the real-time clock: only the date arithmetic is modelled.
