# Verified model of the U-Boot boot path

A Dafny model of five pieces of the boot path of U-Boot, with proofs of what they are for.
`dafny verify dfyconfig.toml` checks the whole project.

* **Devicetree regions** (`Fdt*.dfy`, `Chunks.dfy`). `fdt_find_regions()` scans the structure block of a flattened
  devicetree (Devicetree Specification v0.4, section 5.4) in one pass and lists the byte regions that are hashed for a
  signature. The scan, with its `want` stack, path buffer and region table, is a class with methods. It is proved equal
  to a specification on tag streams, which is proved equal to a recursion over the tree. Which streams are accepted, and
  with which error the others are refused, is said of the tags alone. What is hashed is proved to be the encoding of the
  covered tags and to determine them. When excluded properties have no influence on it is proved as an equivalence.
  `fdt_next_region()`, which delivers one region per call, is proved to end for every include callback.
* **Kernel command line** (`Cmdline*.dfy`). `cmdline_set_arg()` reads quoted arguments and rewrites them into a bounded
  buffer. The result is given for every input and buffer size. Printing and reading back are inverse, and any sequence
  of edits behaves as a map in which the last write wins.
* **A/B slots** (`Ab*.dfy`). `ab_select_slot()` keeps two copies of the boot control block. Proved: what a power cut at
  any point can do, rollback, settling and fairness over any number of boots. `Android*.dfy` models the Android boot
  method, which uses both: the slot that is looked at is the slot that is loaded and the slot on the command line.
* **Bootflow iterator** (`Boot*.dfy`). The resumable state machine of `bootflow_scan_first()` and
  `bootflow_scan_next()` is proved to make the checks of a recursive definition, for every outcome of the checks, and
  these to follow one another as a step function says. This is three nested loops exactly when the global methods are
  not left with `-ESHUTDOWN` or there is no device. When the scan ends is proved both ways.
* **CMOS settings and storage enumeration** (`Cmos*.dfy`, `StorEnum.dfy`). Menu values packed into bits survive a round
  trip, and the cookie protocol of `API_dev_enum()` returns the devices in order, each once.

## Where the code and its promises differ

* A slot that is known to work but has no tries left is not booted, although the comment at `boot/android_ab.c:272-281`
  calls it bootable (`DiffersFromComment`). `AgreesWithComment` gives the exact condition under which the two choose
  alike.
* The two copies of the boot control block survive one power cut, but not every second one. `SurvivesExactly` gives the
  exact condition for a call, `DoubleCrashLoses` the failing family.
* A quote in the extra boot arguments goes wrong in two ways. In a value it is refused, and the arguments after it are
  dropped (`QuotedRefused`). In a name it is accepted, and if it is left open nothing can be set any more
  (`OpenQuoteAccepted`). `ExtraArgsExactly` gives the exact condition for any text.
* A lookup strips the first and the last character of a value that ends in a quote, also if it does not start with one
  (`CharacterLost`). `LookupExactly` gives the exact condition.
* Excluded properties have an influence on what is hashed when they stand between an included subnode and the end of a
  node that is not included (`HiddenEnd`). `ExcludedPropertiesInvisible` is an equivalence; the Devicetree Specification
  does not allow such trees (`PropsFirstVisible`).
* The path buffer is one character shorter for the later subnodes of the root than for the first one, so whether a path
  fits depends on the order of the subnodes (`OrderMatters`). `Fits` states the exact condition and `ScanOfTree` proves
  it.
* A global boot method that returns `-ESHUTDOWN` makes the iterator start again with the first method of all, still as
  a global one, if there is a device. Then the scan is not the nested loops (`RunIsScanExactly`), and it need not end
  (`NeverEnds`, `ScanForever`). If the checks have no memory, `NeverEndsExactly` says when it does not.
* Global boot methods are meant to be checked once, before any device. If all boot methods are global, the first of them
  is used again on the first device (`FirstGlobalAgain`). `GlobalsOnceExactly` gives the exact condition.
* An inactive storage device hides the rest of its group (`HiddenDevice`). `EnumeratedExactly` says which devices are
  enumerated.
* A value that a menu's bits cannot keep is not restored (`ValueLost`). `ReadsBackExactly` is an equivalence.

## Model

| member | source | states |
|---|---|---|
| FdtFormat.BeginLayout | scripts/dtc/libfdt/fdt.c:170-177 | a node is the token 1 and its name, ended by one to four zero bytes |
| FdtFormat.PropLayout | scripts/dtc/libfdt/fdt.c:179-190 | a property is the token 3, the length of its value, the offset of its name, the value and up to three zero bytes |
| FdtFormat.CellNumber | scripts/dtc/libfdt/fdt.c:165-166 | the number that the four bytes of a cell make, the most significant first |
| FdtFormat.TagOffsetsAligned | scripts/dtc/libfdt/fdt.c:205-206 | every tag starts at a multiple of four |
| FdtFormat.TagPrefixFree | scripts/dtc/libfdt/fdt.c:154-207 | no encoded tag is a prefix of another, so a byte stream determines its first tag |
| FdtFormat.BytesInjective | scripts/dtc/libfdt/fdt.c:154-207 | tag streams with the same bytes are the same |
| FdtScan.RunsSeparated | boot/fdt_region.c:129-146 | the runs of covered tags are non-empty, ordered and never touch; the last reaches the end exactly when the last tag is covered |
| FdtScan.RunsExact | boot/fdt_region.c:129-146 | the runs hold exactly the covered tags |
| FdtScan.FoundRegionsApart | boot/fdt_region.c:129-161 | returned regions are non-empty, ascending, disjoint and never adjacent; the last ends with the structure block or the string table |
| FdtScan.FoundCoversExactly | boot/fdt_region.c:61-161 | in the structure block a byte is in a region exactly when its tag is included, or is an FDT_END_NODE right after an included tag |
| FdtScan.FoundCoversTable | boot/fdt_region.c:152-159 | behind it, exactly the string table is covered, if asked for |
| FdtAccept.AcceptedExactly | boot/fdt_region.c:59-147 | a stream is accepted up to a tag exactly when that is the first FDT_END and every tag before it is fine: only FDT_END after the root's end, at most 32 open nodes, a root without a name, room for the path, an end only of an open node, property names that exist |
| FdtAccept.RejectedExactly | boot/fdt_region.c:59-147 | it is refused with an error exactly when the first tag that is not fine has that error, or there is no FDT_END and the error is BADLAYOUT |
| FdtAccept.OneRoot | boot/fdt_region.c:61-66 | after the root's end only FDT_END is accepted, in particular no second root |
| FdtAccept.FoundExactly | boot/fdt_region.c:50-151 | there are regions exactly when such an FDT_END ends the structure block |
| FdtCollect.CollectAllTracks | boot/fdt_region.c:129-146 | opening, closing and reopening regions in a bounded table follows the maximal runs of covered tags, also past the end of the table |
| FdtCollect.ScanFromConcludes | boot/fdt_region.c:50-161 | deciding and collecting in one pass equals deciding all tags first and collecting then |
| FdtCollect.ScanDelivers | boot/fdt_region.c:129-161 | a run limited to max_regions fails as the unlimited run does, counts at most max_regions exactly when the unlimited run does, and has then the same list; otherwise it has its first max_regions entries |
| FdtFindRegions.StrInList | boot/fdt_region.c:21-30 | whether the string is in the list |
| FdtFindRegions.PathAppend | boot/fdt_region.c:93-98 | the buffer holds the path with the name added, and is terminated |
| FdtFindRegions.PathCut | boot/fdt_region.c:117-119 | the buffer holds the path cut at its last slash, and is terminated |
| FdtFindRegions.Emit | boot/fdt_region.c:129-146 | the region table and its counters change as specified; nothing past max_regions changes |
| FdtFindRegions.Close | boot/fdt_region.c:152-159 | the last region is closed, counted and extended by the string table |
| FdtFindRegions.Scanner.BeginNode | boot/fdt_region.c:84-109 | depth, name and space errors, the new path, stack and want, and where a region would stop |
| FdtFindRegions.Scanner.EndNode | boot/fdt_region.c:111-122 | the parent's want and path are restored; the root's end is remembered |
| FdtFindRegions.Scanner.Prop | boot/fdt_region.c:68-77 | a property is included at want 2 unless its name is excluded; a bad name is an error |
| FdtFindRegions.Scanner.Turn | boot/fdt_region.c:59-127 | one turn of the loop fails or decides and moves as the specification does |
| FdtFindRegions.FindRegions | boot/fdt_region.c:32-162 | result and region table equal the specified scan; nothing past max_regions is written |
| FdtFindRegions.FindRegionsOf | boot/fdt_region.c:32-162 | the error of the unbounded specification, or its regions as far as there is room |
| FdtTree.AppendHolds | boot/fdt_region.c:95-98 | at every FDT_BEGIN_NODE the path buffer holds exactly the joined names of the open nodes |
| FdtTree.CutHolds | boot/fdt_region.c:117-119 | every FDT_END_NODE leaves the buffer where the next sibling's path is exact |
| FdtTree.StepHolds | boot/fdt_region.c:59-127 | each turn keeps stack, want and path in agreement with the open nodes, and decides as their paths say |
| FdtTree.DecidesWanted | boot/fdt_region.c:50-147 | on every accepted stream a tag is included exactly when the paths of its node or its parent are listed, properties unless excluded |
| FdtTree.TreeWanted | boot/fdt_region.c:99-108 | on the tags of a tree this is the recursion: want 2 if listed, else the parent's less one |
| FdtTree.RootAccepted | boot/fdt_region.c:84-161 | a tree is accepted exactly when it is at most 32 deep, its property names exist and its paths fit |
| FdtTree.ScanOfTree | boot/fdt_region.c:50-161 | the one-pass scan of a flattened tree succeeds exactly for the trees that fit, and includes exactly what the recursive definition includes |
| FdtTree.OrderMatters | boot/fdt_region.c:93-98 | two subnodes that are accepted in one order and refused in the other |
| FdtHash.RunsAreKept | boot/fdt_region.c:129-146 | the regions hold the covered tags, all of them and in order |
| FdtHash.HashedAreCovered | include/fdt_region.h:84-132 | the bytes of the regions are the encoding of the covered tags, followed by the string table if asked for |
| FdtHash.SameHashSameTags | include/fdt_region.h:94-108 | two devicetrees give the same bytes exactly when their covered tags are the same |
| FdtHash.ExcludedValuesInvisible | include/fdt_region.h:89-92 | changing values and lengths of excluded properties anywhere leaves the bytes unchanged |
| FdtStrip.StripKept | boot/fdt_region.c:67-122 | removing excluded properties changes no covered tag of a node's inside unless an end is hidden |
| FdtStrip.ExcludedPropertiesInvisible | boot/fdt_region.c:67-146 | every tree gives the bytes it would give without its excluded properties exactly when none of them stand between an included subnode and the end of a node that is not included |
| FdtStrip.PropsFirstVisible | include/fdt_region.h:89-92 | this holds for all trees whose properties precede their subnodes |
| FdtStrip.HiddenEnd | boot/fdt_region.c:129-146 | an accepted tree for which it does not hold |
| FdtNextRegion.AddedMeans | boot/fdt_region.c:174-196 | the first range is stored; one that starts in the region or at its end is joined to it, with exactly the bytes of both; one beyond it finds no room and changes nothing |
| FdtNextRegion.ForcedMeans | boot/fdt_region.c:334-341 | such a node is then included, and wanted if it was not |
| FdtNextRegion.SupernodesMean | boot/fdt_region.c:313-345 | one region is enough for the first tags of the open nodes that are not included exactly when there is no gap between them; it then reaches from the first to the last |
| FdtNextRegion.RegionIter.AddRegion | boot/fdt_region.c:174-196 | the new range extends the stored region, becomes the first one, or is refused because one is there; exactly when, what is stored, and when a first node was seen |
| FdtNextRegion.RegionIter.IncludeSupernodes | boot/fdt_region.c:313-345 | which regions are added and what becomes of the open nodes; a region added here comes with a supernode newly marked as included, also when the call has to be repeated |
| FdtNextRegion.RegionIter.Look | boot/fdt_region.c:508-628 | looking at a tag commits nothing that counts, for any answer of the callback |
| FdtNextRegion.RegionIter.DoTag | boot/fdt_region.c:491-656 | a turn commits and leaves less to do, or a region is ready and work was done in this call |
| FdtNextRegion.RegionIter.NextRegion | boot/fdt_region.c:460-702 | a call that returns 0 has stored a region and strictly decreased phases, tags and missing supernodes |
| FdtNextRegion.RegionIter.Drain | boot/fdt_region.c:362-386 | asking for regions ends for every callback |
| CmdlineEdit.CopyIn | boot/bootflow.c:699-729 | name and value, quoted if needed, are written exactly when they fit with room for a NUL |
| CmdlineEdit.ScanArg | boot/bootflow.c:759-783 | where the argument and its name end, or that a quote is open |
| CmdlineEdit.EditArg | boot/bootflow.c:801-846 | the argument is deleted, rewritten or copied after a separating space, exactly when it fits |
| CmdlineEdit.CopyArgs | boot/bootflow.c:748-848 | all arguments are rewritten, or the error that comes first |
| CmdlineEdit.SetArg | boot/bootflow.c:731-877 | for every input: the error, or the length and the terminated new text; nothing is written past maxlen |
| CmdlineEdit.GetArg | boot/bootflow.c:909-916 | position and length of the value of the first argument of that name |
| CmdlineArgs.ArgsAreArgs | boot/bootflow.c:754-783 | every argument that is read is a whole argument |
| CmdlineArgs.ReadBack | boot/bootflow.c:748-783 | printing a list of arguments and reading the line gives the list |
| CmdlineArgs.RewriteEdits | boot/bootflow.c:748-848 | rewriting the line is editing the list of its arguments |
| CmdlineMap.RenderedIsArg | boot/bootflow.c:710-726 | a written argument is read as one argument with the name it was given, for every name with closed quotes |
| CmdlineMap.NameIsGood | boot/bootflow.c:759-783 | these are the only names that an argument can have |
| CmdlineMap.RenderedValue | boot/bootflow.c:811-820 | a lookup in it gives the value without quotes, but nothing for a name without a value that ends in a quote |
| CmdlineMap.LookupExactly | boot/bootflow.c:811-821 | a lookup gives the value without the quotes around it exactly when it does not end in a quote without starting with one |
| CmdlineMap.CharacterLost | boot/bootflow.c:811-820 | a value of which a lookup drops a character that is no quote |
| CmdlineMap.SetsWhenItFits | boot/bootflow.c:747-876 | setting, or deleting what is there, succeeds exactly when the new text and its NUL fit, and gives that text |
| CmdlineMap.DeleteMissing | boot/bootflow.c:851-854 | deleting what is not there fails with -ENOENT, or -E2BIG if the line does not fit |
| CmdlineMap.QuotedValueFails | boot/bootflow.c:743-745 | -EBADF exactly for a value with a quote in it |
| CmdlineMap.TrailingSpaceDropped | boot/bootflow.c:868-874 | one space at the end of what is written is dropped, after room was needed for it |
| CmdlineMap.OpenQuoteFails | boot/bootflow.c:765-767 | a line with an open quote is never rewritten; which error is returned |
| CmdlineMap.WellQuotedIsEven | boot/bootflow.c:759-783 | a line can be read to its end exactly when the number of its quotes is even |
| CmdlineMap.NewLineReads | boot/bootflow.c:747-876 | the new line reads back as the edited arguments |
| CmdlineMap.LookIsGetIn | boot/bootflow.c:807-821 | a lookup gives the value of the first argument of that name in the list |
| CmdlineMap.EditMeans | boot/bootflow.c:731-877 | after an edit the name has the new value or is gone, other names give what they gave, other arguments keep text and order |
| CmdlineMap.LastWriteWins | boot/bootflow.c:731-930 | for every line, any sequence of edits, fitting, refused or not, is a map in which the last successful write wins; other arguments keep text and order |
| CmdlineMap.SetTwice | boot/bootflow.c:731-877 | repeating a set changes nothing |
| CmdlineBootflow.Bootflow.CmdlineSetArg | boot/bootflow.c:879-907 | the bootflow's command line is edited, or left alone with the error |
| CmdlineBootflow.Bootflow.CmdlineGetArg | boot/bootflow.c:918-930 | the text of the value, or that there is none |
| AbSpec.Compare | boot/android_ab.c:177-193 | negative or positive exactly when one slot is better: higher priority, then known to work, then more tries |
| AbSpec.PickIsBest | boot/android_ab.c:290-312 | the search finds the best bootable slot with the lowest index, and fails only if none is bootable |
| AbSpec.BestIsPick | boot/android_ab.c:177-193 | there is only one such slot |
| AbSpec.BestMeans | boot/android_ab.c:177-193 | it comes first, among the slots with a try that are not corrupted, by priority, then by being known to work, then by tries, then by number |
| AbSpec.SuffixMeans | include/android_ab.h:13-14 | the suffix is an underscore and the letter of the slot, counted from 'a', filled up with NULs |
| AbSpec.BootMeans | boot/android_ab.c:284-339 | at most four slots count; the best bootable one loses a try if it is not known to work and one is to be used; the suffix names it; all else stays |
| AbSpec.AgreesWithComment | boot/android_ab.c:272-293 | the code chooses as its comment says exactly when the slot so chosen has a try left, or there is none |
| AbSpec.DiffersFromComment | boot/android_ab.c:272-293 | two slots for which code and comment choose differently |
| AbSelect.Misc.FindSlot | boot/android_ab.c:290-312 | the best bootable slot, or -1 |
| AbSelect.Misc.UpdateBlock | boot/android_ab.c:284-339 | the updated block, and whether anything changed |
| AbSelect.Misc.LoadBlock | boot/android_ab.c:225-253 | the block of the primary copy, the backup or the default, and whether it has to be stored |
| AbSelect.Misc.Store | boot/android_ab.c:341-367 | the primary copy is written before the backup, each only if it has to be |
| AbSelect.Misc.Select | boot/android_ab.c:195-375 | the slot or error, the writes in their order, and both copies after them |
| AbCrash.Converges | boot/android_ab.c:225-253 | from any copies one call leaves both good and equal, with the updated block; its result depends on the loaded block only |
| AbCrash.ConvergesAlone | boot/android_ab.c:341-350 | without a backup the primary copy ends up good and nothing else is written |
| AbCrash.UnsupportedKept | boot/android_ab.c:255-270 | a copy that is good and used, with a magic other than 0x42414342 or a version above 1, is refused, exactly then, and nothing is written; lost copies never lead to this |
| AbCrash.StartsOver | boot/android_ab.c:31-67 | without a good copy the boots start over with the first of two slots, of priority 15 and with seven tries each, and a good copy is left |
| AbCrash.SingleCrash | boot/android_ab.c:341-367 | from equal good copies, every power cut leaves the block before or after the call, and the next call behaves as if started from it |
| AbCrash.SurvivesExactly | boot/android_ab.c:341-367 | a call survives every power cut exactly when the backup is good or the primary is not written |
| AbCrash.DoubleCrashLoses | boot/android_ab.c:341-367 | a cut in the backup write and one in the next primary write lose both copies |
| AbRuns.DiskFollows | boot/android_ab.c:195-375 | any number of boots does to both copies what it does to the block |
| AbRuns.BootUsesTry | boot/android_ab.c:314-322 | a boot uses exactly one try unless the chosen slot works or there is none |
| AbRuns.SettledForever | boot/android_ab.c:290-339 | once settled, choice and block never change again |
| AbRuns.RunsSettle | boot/android_ab.c:290-322 | tries never come back; within as many boots as there are tries every run settles |
| AbRuns.Rollback | boot/android_ab.c:290-322 | a new slot of strictly highest priority is booted exactly as often as it has tries, then the best of the others, unchanged |
| AbRuns.BootsKeepBalance | boot/android_ab.c:188-190 | unproven slots of one priority stay within one try of each other |
| AbRuns.CutsApartSafe | boot/android_ab.c:225-367 | in any run of calls without two power cuts in a row a good copy is left, with a block that the calls account for, each cut one counting as a boot or as nothing |
| AbRuns.DefaultRuns | boot/android_ab.c:31-67 | with both copies lost the two slots are booted in turn from the first, seven times each, and then none is left |
| AbRuns.LookThenBoot | boot/bootmeth_android.c:207-239 | a selection without using a try changes no counter, writes nothing when repeated, and leaves a later boot as it would have been, with or without a backup |
| AndroidArgs.ConfigureExtra | boot/bootmeth_android.c:257-300 | the words between spaces are set one after the other, up to the first that fails |
| AndroidArgs.EditsAreWords | boot/bootmeth_android.c:271-288 | every text asks only for names and values without spaces, and names without an equals sign |
| AndroidArgs.SpacesSkipped | boot/bootmeth_android.c:271-288 | a space before a word asks for nothing |
| AndroidArgs.EditsOfSpelled | boot/bootmeth_android.c:271-288 | a text that lists arguments asks for exactly these, in this order |
| AndroidArgs.WordSets | boot/bootmeth_android.c:280-288 | a word is set exactly when no quote is open, its value has none and it fits; it leaves a quote open exactly when its name does |
| AndroidArgs.ExtraArgsExactly | boot/bootmeth_android.c:257-300 | for any text: all is set and the line can still be edited exactly when it could before, no value has a quote, no name leaves one open, and each word fits |
| AndroidArgs.ExtraArgsSet | boot/bootmeth_android.c:257-300 | for any text and line: where it stops and why; unless a quote is open each name reads as the last value set for it and other arguments keep text and order |
| AndroidArgs.OpenQuoteAccepted | boot/bootmeth_android.c:280-288 | a bare word with an open quote is accepted, and every later edit fails |
| AndroidArgs.QuotedRefused | boot/bootmeth_android.c:280-292 | a quote in a value makes the call fail, with only the arguments before it set |
| Android.KeyNames | boot/bootmeth_android.c:233-234 | the names of the arguments that are set |
| Android.SlotNameMeans | boot/bootmeth_android.c:228-232 | the name on the command line is an underscore and the letter of the slot, other for every slot, and starts the suffix in the block |
| Android.SuffixOnDisk | boot/bootmeth_android.c:207-239 | after a boot the suffix in the primary copy is that of the slot |
| Android.ReadSlot | boot/bootmeth_android.c:207-239 | the slot or error of the selection, the disk and the writes, and the command line naming the slot |
| Android.BootNormal | boot/bootmeth_android.c:370-637 | the slot looked at is the slot loaded, the disk is as after one boot, the command line names that slot, whatever the extra arguments and the old command line say, and the suffix on disk is the one on the command line |
| BootOrder.DeviceOrderIsSorted | boot/bootdev-uclass.c:612-676 | exactly the devices that can be probed and have one of the eight priorities, each once, stably sorted by priority |
| BootOrder.NextPrio | boot/bootdev-uclass.c:612-676 | the next device in that order, or that there is none |
| BootOrder.AllDevices | boot/bootdev-uclass.c:612-676 | calling until the first -ENODEV yields the order |
| BootOrder.SetupOrder | boot/bootmeth-uclass.c:158-202 | this order, without the global methods if they are not wanted, or that there is none |
| BootOrder.MethodOrderIsSorted | boot/bootmeth-uclass.c:158-202 | exactly the methods with a sequence number below 20 plus twice the number of registered ones, each once, normal ones first and each kind by sequence number |
| BootOrder.NoMethodMissed | boot/bootmeth-uclass.c:170-189 | no usable method is missed exactly when there is none with a sequence number from that on |
| BootScan.PartsCalls | boot/bootdev-uclass.c:104-156 | at most 31 partitions of a device are checked with each method, for any outcomes |
| BootScan.ScanShape | boot/bootflow.c:195-226 | if no global method ends or restarts the scan, the checks are one of each global method in order, then only checks on devices with the methods for devices; their number is bounded |
| BootScan.GlobalsOnceExactly | boot/bootflow.c:195-226 | then each global method is checked exactly once, before any device and never again, exactly when there is a normal method or no device |
| BootScan.FirstGlobalAgain | boot/bootflow.c:209-226 | with only global methods, the first is checked again on the first device |
| BootScan.RunIsScanExactly | boot/bootflow.c:195-226 | the scan that is made is the nested loops exactly when there is no device or the global methods are not left with -ESHUTDOWN |
| BootScan.OverStays | boot/bootflow.c:195-226 | once a scan is over, allowing it more restarts changes nothing |
| BootScan.NeverEnds | boot/bootflow.c:195-243 | with a device and global methods that only return -ESHUTDOWN there are more checks than any number |
| BootScan.NeverEndsExactly | boot/bootflow.c:195-243 | for checks whose result does not depend on earlier ones: the scan never ends exactly when there is a device and both the global methods and all methods as global ones are left with -ESHUTDOWN |
| BootPath.RunFollows | boot/bootflow.c:185-456 | for all outcomes the checks of a scan are exactly those of a step function: next the next method, then the next partition if the bound allows it and the device was not left, then the next device, each at the first method; a global method that is not the last is followed by the next |
| BootGrid.DevicesGrid | boot/bootflow.c:198-243 | if every check fails and reports the same last partition, all methods are checked on all partitions up to it of all devices |
| BootGrid.GridAt | boot/bootflow.c:198-243 | and in this order: devices, then partitions, then methods |
| BootGrid.GridLength | boot/bootflow.c:198-243 | and these are all |
| BootIter.Iter.Check | boot/bootflow.c:343-380 | one check ends the scan or leaves the rest of it, also in a restarted pass over the global methods |
| BootIter.Iter.NextDevice | boot/bootflow.c:234-326 | the next device starts at partition 0 and the first method, with the rest of the loops |
| BootIter.Iter.RestartGlobals | boot/bootflow.c:224-311 | after -ESHUTDOWN from a global method all methods follow as global ones, if there is a device |
| BootIter.Iter.Incr | boot/bootflow.c:185-333 | moving on leaves exactly the checks that the scan has left, and less than before or one restart fewer |
| BootIter.Iter.ScanNext | boot/bootflow.c:430-456 | up to a success or the end, or paused at an error, the checks made and left are those of the scan |
| BootIter.Iter.ScanFirst | boot/bootflow.c:382-428 | the same from the start, for every device list, order of methods and outcomes for which the scan ends |
| BootIter.Iter.ScanFor | boot/bootflow.c:382-456 | for all outcomes: a scan that is over after a number of checks has the checks of one with a bounded number of restarts, so ending and bounded restarts are the same |
| BootIter.Iter.ScanForever | boot/bootflow.c:382-456 | a scan that is not over after any number of checks |
| CmosBits.BitIsDigit | boot/cedit.c:731-733 | bit k of a byte is its binary digit of weight 2 to the power of k |
| CmosBits.AssembleIsSum | boot/cedit.c:812-831 | what is read is the number that the binary digits in the memory make, the first bit being the lowest |
| CmosBits.AssembleExactly | boot/cedit.c:812-831 | the bits of an int, also a negative one, give it back exactly when it is not negative and fits, or there are 32 to 64 of them |
| Cmos.GetCurVal | boot/cedit.c:309-324 | the value of the current item, its number if it has none, or that there is no such item |
| Cmos.ValueMeans | boot/cedit.c:309-324 | a menu's value is the one of its current item, or the item's number counted from 0 |
| Cmos.StatusMeans | boot/cedit.c:716-726 | what is wrong with a menu: no current item, no bits, or bits past number 2047, in this order |
| Cmos.WriteObj | boot/cedit.c:704-740 | exactly the menu's bits are added to mask and value, or the error |
| Cmos.WriteSettings | boot/cedit.c:742-791 | nothing is written on an error; else exactly the bytes with a menu's bit are written, once each, with exactly the menus' bits |
| Cmos.FirstErrorIs | boot/cedit.c:758-763 | the error is that of the first object that has one |
| Cmos.WrittenDigits | boot/cedit.c:728-733 | after writing, digit j of a byte i that is used is 1 exactly when some menu has bit 8 i + j of its value set |
| Cmos.WrittenKept | boot/cedit.c:769-780 | a byte without a bit of a menu keeps its value |
| Cmos.Fetch | boot/cedit.c:817-826 | a byte is fetched at most once |
| Cmos.ReadObj | boot/cedit.c:793-843 | the item whose value the menu's bits hold becomes current, or the error |
| Cmos.Expo.ReadSettings | boot/cedit.c:845-889 | every object before the first error is read; each byte is fetched at most once |
| Cmos.MenuBits | boot/cedit.c:728-733 | after writing, the bits of a menu that shares none are those of its value |
| Cmos.ReadsBackExactly | boot/cedit.c:704-843 | a value is recovered exactly when its bits can keep it |
| Cmos.ValueLost | boot/cedit.c:704-843 | a menu whose value is not recovered |
| Cmos.RoundTrip | boot/cedit.c:704-843 | reading a menu after all were written restores its value, and the item if values differ |
| Cmos.SaveThenLoad | boot/cedit.c:742-889 | writing all menus and reading them back succeeds and restores every one, whatever has become current since |
| StorEnum.Storage.StorGet | api/api_storage.c:88-144 | the next entry of a group after the cookie's device, or its first |
| StorEnum.Storage.IsStor | api/api_storage.c:148-165 | whether the cookie is a device of the group |
| StorEnum.Storage.EnumStor | api/api_storage.c:167-255 | one group's turn: flags, cookie and result in every case |
| StorEnum.CurrentTurn | api/api_storage.c:200-209 | the current group goes to the device that is next in line, or on to the later groups |
| StorEnum.LaterTurn | api/api_storage.c:190-240 | a later group starts with its first device |
| StorEnum.Storage.EnumStorage | api/api_storage.c:267-278 | the next device in line, wherever the enumeration stands |
| StorEnum.Storage.DevEnum | api/api.c:200-230 | network device first, then storage; NULL exactly at the end |
| StorEnum.Storage.EnumerateAll | api/api.c:200-230 | feeding back each result yields the network device first and only once, then all storage devices, then NULL |
| StorEnum.EnumeratedExactly | api/api_storage.c:123-144 | a device is enumerated exactly when it and all devices before it in its group are active |
| StorEnum.HiddenDevice | api/api_storage.c:128-134 | an active device that is never enumerated |
| StorEnum.EnumeratedOnce | api/api_storage.c:88-144 | no device is enumerated twice |
| StorEnum.EnumeratedInOrder | api/api_storage.c:167-278 | devices come by group, and within a group by number |

## Left out

- `fdt_add_alias_regions()`, and whether the chunks of `fdt_next_region()` add up to those of a one-pass scan: a tag that is
  looked at again finds a path buffer that was already cut.
- `libfdt` itself: a blob is given as its tags, their offsets and its strings; the encoding of tags is modelled, the header is
  not. Names are those of the standard: not empty below the root, without a slash and without a NUL.
- Read and write errors of the block device and of the real-time clock, memory allocation failures, and the position of the
  boot control block on disk. The checksum is an arbitrary function; a torn write is one whose checksum does not match.
- Hunting for devices, labels, and scans limited to one device, partition, medium or uclass. The device list is fixed, a
  device that was probed stays probed, and what a check does is an arbitrary function of the checks so far that keeps the
  partition bound at 30 or below.
- ScanNext: after a success it goes on from the last error it remembers, as the source does; that this skips the rest of a
  device when the last error was `-ESHUTDOWN` is not stated as a property.
- An order of boot methods set by the user, and dropping a boot method during a scan.
- Menus with more items than an `int` can count, and machines on which BIT() is narrower than 64 bits.
- AssembleExactly: says nothing about a negative value in more than 64 bits, because the source then shifts by more than
  the width of a long.
- ReadsBackExactly: says nothing about that case either.
- ReadObj: a bit with number 64 or more that is set has no effect, while the source then shifts by more than the width of
  a long.
- Command lines that contain a NUL character, and the environment variable `bootargs`.
- BootNormal: leaves out the serial number and bootloader version arguments, the scanning and reading of partitions, and
  verified boot; it is the build without verification support, and a boot in normal mode.
- NextRegion: says that each call makes progress and stores a region, not which one.
- DoTag: says that a turn makes progress, not what it decides.
- Look: says that nothing is committed, not what is decided.
- Drain: says that it ends, not which regions it collects.
- Block counts and sizes in the device information, and devices that come or go during an enumeration.
- The loading and booting of images, menus and their display, and the other boot methods: orchestration around code that is
  not part of this model.
