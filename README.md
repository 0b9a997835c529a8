# Native AOT heap commands, modelled in Dafny

This project models the debugger commands that inspect the heap of a Native AOT process snapshot,
together with the small services they rely on:

- `aotdumpasync` (`NativeAOTDumpAsync.cs`). It enumerates every heap and picks the async state
  machines and tasks. It follows each object's continuations through tasks, delegates, `_target`
  fields and continuation wrappers. With `--stacks` it works out which objects start a chain and
  counts the chains. It prints per-type statistics and a listing of the top-level objects, with
  their continuation chains indented by depth.
  - The command keeps three caches that it fills in place: the async records (lazy state,
    lazy continuations, `isTopLevel`, `includeInReport`), the object cache and the field-offset
    cache. It is therefore modelled as a class, `DumpAsync.Session`, with those caches as
    fields.
  - Every method of the class is proved to compute what a pure definition over the snapshot
    says: modules `AsyncSnapshot`, `AsyncSelection`, `AsyncGraph` and `AsyncState`.
  - The methods also keep every cache entry equal to what the snapshot gives.
- `HeapStats` (`HeapStats.cs`). Per-type counts and byte totals, kept in a dictionary that is
  updated in place (class `HeapStatistics.HeapStats`). It is printed in insertion order, or by
  total size with a stable sort. A 32-bit total object count follows the listing.
- `aotdumpheap` (`NativeAOTDumpHeap.cs`). It lists or summarises the heap objects whose type name
  contains a filter, ignoring case, and keeps its own per-type dictionary.
- `aotverifyheap` (`NativeAOTVerifyHeap.cs`). It reports each object that fails verification,
  together with the last good object before it on the same heap, and counts heaps and objects
  in 32-bit signed counters.
- `aotdumplog` (`NativeAOTStressLogCommand.cs`). It merges the stress-log entries of all threads,
  orders them by timestamp with a stable sort, and writes them to a file.
- `FormatHelpers.PadByNumberSize` (`FormatHelpers.cs`). Hex columns, left-aligned in 16 digits
  after `0x`, or in 18 characters without it.
- The debugger-services module service (`ModuleServiceFromDebuggerServices.cs`).
  - Building the module dictionary, where the first module at an image base wins and a
    `CoreCLR.dll` name is lowered.
  - The `InvalidTimeStamp` rule.
  - The once-only `Version` and `VersionString` properties.
  - Type and field lookup.

Fixed-width integers are explicit (module `Numerics`): `uint` counters wrap modulo 2^32, `ulong`
sums modulo 2^64, and `int` values are 32-bit two's complement. A snapshot is a value
(`AsyncSnapshot.Snapshot`) holding the memory, the types by address and the field offsets of
each type. Graph-level facts about the continuation walk are proved once, on an abstract graph
(`AsyncGraph.Graph`), and carried over to the snapshot's continuation graph.

## Model

| member | source | states |
|---|---|---|
| `Numerics.AddU32` | src/Microsoft.Diagnostics.ExtensionCommands/NativeAOT/HeapStats.cs:30 | A `uint` increment wraps: the result is the exact sum or the sum less 2^32. |
| `Numerics.AddU64` | src/Microsoft.Diagnostics.ExtensionCommands/NativeAOT/HeapStats.cs:31 | A `ulong` addition wraps: the result is the exact sum or the sum less 2^64. |
| `Numerics.AsInt32` | src/Microsoft.Diagnostics.ExtensionCommands/NativeAOT/NativeAOTDumpAsync.cs:400 | Reading a 32-bit word as `int` gives the value congruent to it modulo 2^32, negative exactly when the top bit is set. |
| `Numerics.Bits32` | src/Microsoft.Diagnostics.ExtensionCommands/NativeAOT/NativeAOTDumpAsync.cs:222 | The 32-bit pattern `X` formats for an `int` reads back as that `int`. |
| `Numerics.IncInt32` | src/Microsoft.Diagnostics.ExtensionCommands/NativeAOT/NativeAOTVerifyHeap.cs:35 | `++count` on an `int` is a 32-bit wrapping increment of its bit pattern. |
| `Numerics.IncWrap` | src/Microsoft.Diagnostics.ExtensionCommands/NativeAOT/NativeAOTVerifyHeap.cs:30-35 | Counting n objects with `++` gives n wrapped into `int`. |
| `Numerics.WrapInt32Small` | src/Microsoft.Diagnostics.ExtensionCommands/NativeAOT/NativeAOTVerifyHeap.cs:48 | Below 2^31 objects the printed count is exact. |
| `Numerics.AddU32Tracks` | src/Microsoft.Diagnostics.ExtensionCommands/NativeAOT/HeapStats.cs:47-52 | Adding a count to a `uint` total keeps the total equal to the true sum modulo 2^32. |
| `FormatHelpers.Hex` | src/Microsoft.Diagnostics.ExtensionCommands/NativeAOT/FormatHelpers.cs:14 | The `X` format gives at least one upper-case hex digit and no leading zero for a positive value. |
| `FormatHelpers.HexRoundTrip` | src/Microsoft.Diagnostics.ExtensionCommands/NativeAOT/FormatHelpers.cs:14 | The hex digits read back as the formatted number. |
| `FormatHelpers.HexWidth` | src/Microsoft.Diagnostics.ExtensionCommands/NativeAOT/FormatHelpers.cs:13 | A number needs at most k hex digits exactly when it is below 16^k. |
| `FormatHelpers.HexWidth64` | src/Microsoft.Diagnostics.ExtensionCommands/NativeAOT/FormatHelpers.cs:13 | A number fits the 16 columns exactly when it is a 64-bit value. |
| `FormatHelpers.Decimal` | src/Microsoft.Diagnostics.ExtensionCommands/NativeAOT/NativeAOTVerifyHeap.cs:48 | The default format of a count gives at least one decimal digit and no leading zero for a positive value. |
| `FormatHelpers.DecimalRoundTrip` | src/Microsoft.Diagnostics.ExtensionCommands/NativeAOT/NativeAOTVerifyHeap.cs:48 | The decimal digits read back as the number. |
| `FormatHelpers.IntTextRoundTrip` | src/Microsoft.Diagnostics.ExtensionCommands/NativeAOT/NativeAOTVerifyHeap.cs:48 | An `int` is written with a minus sign exactly when it is negative, and its digits read back as its magnitude. |
| `FormatHelpers.PadRight` | src/Microsoft.Diagnostics.ExtensionCommands/NativeAOT/FormatHelpers.cs:14 | Left alignment keeps the text and fills with spaces up to the width; longer text is not cut. |
| `FormatHelpers.TrimEndSpaces` | src/Microsoft.Diagnostics.ExtensionCommands/NativeAOT/FormatHelpers.cs:19 | Trailing padding can be removed again from text that does not end in a space. |
| `FormatHelpers.TrimEndPadRight` | src/Microsoft.Diagnostics.ExtensionCommands/NativeAOT/FormatHelpers.cs:19 | Padding is invertible for text that does not end in a space. |
| `FormatHelpers.PadByNumberSize` | src/Microsoft.Diagnostics.ExtensionCommands/NativeAOT/FormatHelpers.cs:9-21 | With the signifier the field is `0x` and at least 16 columns; without it, at least 18 columns. The digits, once the padding is trimmed, read back as the number. |
| `FormatHelpers.PadByNumberSizeWidth` | src/Microsoft.Diagnostics.ExtensionCommands/NativeAOT/FormatHelpers.cs:13-18 | Any 64-bit value takes exactly 18 characters in either form, so the columns line up. |
| `FormatHelpers.PadByNumberSizeSignifier` | src/Microsoft.Diagnostics.ExtensionCommands/NativeAOT/FormatHelpers.cs:11-20 | Both forms hold the same hex digits. |
| `FormatHelpers.PadHeader` | src/Microsoft.Diagnostics.ExtensionCommands/NativeAOT/FormatHelpers.cs:19 | A column title is padded to 18 characters and trims back to itself. |
| `Text.ContainsIgnoreCaseSpec` | src/Microsoft.Diagnostics.ExtensionCommands/NativeAOT/NativeAOTDumpHeap.cs:145-148 | The case-insensitive `Contains` holds exactly when the filter occurs at some index, ignoring case. |
| `Text.ContainsIgnoreCaseComplete` | src/Microsoft.Diagnostics.ExtensionCommands/NativeAOT/NativeAOTDumpHeap.cs:147 | An occurrence at any index is found. |
| `Text.ContainsIgnoreCaseSound` | src/Microsoft.Diagnostics.ExtensionCommands/NativeAOT/NativeAOTDumpHeap.cs:147 | A positive answer names an index where the filter occurs. |
| `Text.ReplaceAllLength` | src/SOS/SOS.Extensions/ModuleServiceFromDebuggerServices.cs:239 | Replacing a pattern by one of the same length keeps the length. |
| `Text.ReplaceAllSuffix` | src/SOS/SOS.Extensions/ModuleServiceFromDebuggerServices.cs:236-239 | If the text ends with a border-free pattern, it ends with the replacement afterwards. |
| `Text.OverlapIsBorder` | src/SOS/SOS.Extensions/ModuleServiceFromDebuggerServices.cs:239 | Two overlapping occurrences of a pattern force a border in it. |
| `StableSort.InsertPermutation` | src/Microsoft.Diagnostics.ExtensionCommands/NativeAOT/HeapStats.cs:44 | Inserting into the ordered list adds exactly that element. |
| `StableSort.InsertSorted` | src/Microsoft.Diagnostics.ExtensionCommands/NativeAOT/HeapStats.cs:44 | Inserting into a sorted list keeps it sorted, and it is a permutation. |
| `StableSort.InsertWithKey` | src/Microsoft.Diagnostics.ExtensionCommands/NativeAOT/HeapStats.cs:44 | Among the elements with any one key, insertion puts the new element in front of those already there and keeps their order. The right fold of `OrderBy` inserts the elements from last to first, so this keeps each key's elements in input order. |
| `StableSort.OrderBySortedPermutation` | src/Microsoft.Diagnostics.ExtensionCommands/NativeAOT/HeapStats.cs:44 | `OrderBy` yields a sorted permutation of its input. |
| `StableSort.OrderByStable` | src/Microsoft.Diagnostics.ExtensionCommands/NativeAOT/HeapStats.cs:44 | `OrderBy` is stable: the elements with any one key keep their input order. |
| `StableSort.OrderBySortedInput` | src/Microsoft.Diagnostics.ExtensionCommands/NativeAOT/NativeAOTStressLogCommand.cs:82 | Input that is already sorted comes out unchanged. |
| `StableSort.OrderByIdempotent` | src/Microsoft.Diagnostics.ExtensionCommands/NativeAOT/NativeAOTStressLogCommand.cs:82 | Ordering twice is the same as ordering once. |
| `HeapModel.FlattenStep` | src/Microsoft.Diagnostics.ExtensionCommands/NativeAOT/NativeAOTDumpHeap.cs:48-52 | Walking heap after heap sees the objects of each heap after those of the heaps before it. |
| `HeapModel.FlattenPrefix` | src/Microsoft.Diagnostics.ExtensionCommands/NativeAOT/NativeAOTDumpAsync.cs:101-105 | The objects of the first heaps are a prefix of all heap objects. |
| `HeapStatistics.CountOfAppend` | src/Microsoft.Diagnostics.ExtensionCommands/NativeAOT/HeapStats.cs:27-32 | One more addition adds one to its type's count and its size to its type's bytes, and changes no other type. |
| `HeapStatistics.RecordWellFormed` | src/Microsoft.Diagnostics.ExtensionCommands/NativeAOT/HeapStats.cs:62-75 | Recording an object keeps the dictionary consistent: each key once in insertion order, each record holding the type of its key. |
| `HeapStatistics.AggregateWellFormed` | src/Microsoft.Diagnostics.ExtensionCommands/NativeAOT/HeapStats.cs:27-32 | Any sequence of additions gives a consistent dictionary. |
| `HeapStatistics.AggregateKeys` | src/Microsoft.Diagnostics.ExtensionCommands/NativeAOT/HeapStats.cs:62-75 | A type has a record exactly when at least one object of it was added. |
| `HeapStatistics.AggregateRecord` | src/Microsoft.Diagnostics.ExtensionCommands/NativeAOT/HeapStats.cs:15-32 | A type's record holds its first added type, its count modulo 2^32 and its total bytes modulo 2^64. |
| `HeapStatistics.Values` | src/Microsoft.Diagnostics.ExtensionCommands/NativeAOT/HeapStats.cs:41 | `_typeStats.Values` lists one record per key in insertion order. |
| `HeapStatistics.SumCountsInsert` | src/Microsoft.Diagnostics.ExtensionCommands/NativeAOT/HeapStats.cs:44 | Inserting into the ordered list adds the element's count to the sum. |
| `HeapStatistics.SumCountsOrderBy` | src/Microsoft.Diagnostics.ExtensionCommands/NativeAOT/HeapStats.cs:44-50 | Sorting does not change the sum of the counts. |
| `HeapStatistics.SumCountsUpdate` | src/Microsoft.Diagnostics.ExtensionCommands/NativeAOT/HeapStats.cs:30 | Replacing one record changes the sum by the difference of the two counts. |
| `HeapStatistics.ValuesUpdateExisting` | src/Microsoft.Diagnostics.ExtensionCommands/NativeAOT/HeapStats.cs:29-31 | Updating an existing type's record changes only its position in the value listing. |
| `HeapStatistics.ValuesUpdateNew` | src/Microsoft.Diagnostics.ExtensionCommands/NativeAOT/HeapStats.cs:65-71 | A new type's record goes at the end of the value listing. |
| `HeapStatistics.ValuesRecord` | src/Microsoft.Diagnostics.ExtensionCommands/NativeAOT/HeapStats.cs:27-32 | One addition raises the sum of the counts by one, or wraps one counter past 2^32. |
| `HeapStatistics.AggregateTotal` | src/Microsoft.Diagnostics.ExtensionCommands/NativeAOT/HeapStats.cs:47-54 | The counts of all records add up to the number of additions, modulo 2^32. |
| `HeapStatistics.CountTotal` | src/Microsoft.Diagnostics.ExtensionCommands/NativeAOT/HeapStats.cs:47-52 | The `uint` accumulation loop returns the sum of the listed counts modulo 2^32. |
| `HeapStatistics.HeapStats.constructor` | src/Microsoft.Diagnostics.ExtensionCommands/NativeAOT/HeapStats.cs:11-25 | It starts with an empty dictionary and no sorting. |
| `HeapStatistics.HeapStats.GetOrCreateTypeStats` | src/Microsoft.Diagnostics.ExtensionCommands/NativeAOT/HeapStats.cs:62-75 | It returns the existing record unchanged, or adds a zero record for a new type at the end of the insertion order. |
| `HeapStatistics.HeapStats.Add` | src/Microsoft.Diagnostics.ExtensionCommands/NativeAOT/HeapStats.cs:27-32 | The dictionary becomes the old one with this object recorded, and the consistency invariant holds. |
| `HeapStatistics.HeapStats.Sort` | src/Microsoft.Diagnostics.ExtensionCommands/NativeAOT/HeapStats.cs:57-60 | It only switches sorting on. |
| `HeapStatistics.HeapStats.Print` | src/Microsoft.Diagnostics.ExtensionCommands/NativeAOT/HeapStats.cs:34-55 | The listing is the records in insertion order, or a permutation sorted by total size when sorting is on. The total is the number of objects added, modulo 2^32. |
| `DumpHeap.MatchesSpec` | src/Microsoft.Diagnostics.ExtensionCommands/NativeAOT/NativeAOTDumpHeap.cs:110-119 | With no filter everything matches; otherwise a type matches exactly when its name contains the filter, ignoring case. |
| `DumpHeap.Stats` | src/Microsoft.Diagnostics.ExtensionCommands/NativeAOT/NativeAOTDumpHeap.cs:126-139 | The command's own dictionary is consistent. |
| `DumpHeap.ScanHeap` | src/Microsoft.Diagnostics.ExtensionCommands/NativeAOT/NativeAOTDumpHeap.cs:52-67 | The loop over one heap's objects extends the dictionary and the printed lines by exactly the matching objects. |
| `DumpHeap.Invoke` | src/Microsoft.Diagnostics.ExtensionCommands/NativeAOT/NativeAOTDumpHeap.cs:33-71 | Without a runtime it prints only the error. Otherwise it prints the output that the definition of the listing gives for all heaps' objects in order. |
| `DumpHeap.ColumnHeaderIff` | src/Microsoft.Diagnostics.ExtensionCommands/NativeAOT/NativeAOTDumpHeap.cs:41-44 | The column header comes first exactly when neither `--stat` nor `--short` is given. |
| `DumpHeap.ObjectLinesPrinted` | src/Microsoft.Diagnostics.ExtensionCommands/NativeAOT/NativeAOTDumpHeap.cs:56-61 | Without `--stat`, every matching object gets its line, in order, after the header. |
| `DumpHeap.ShortLineAddress` | src/Microsoft.Diagnostics.ExtensionCommands/NativeAOT/NativeAOTDumpHeap.cs:86-89 | The `--short` line is `0x` and hex digits that read back as the address. |
| `DumpHeap.StatsOnly` | src/Microsoft.Diagnostics.ExtensionCommands/NativeAOT/NativeAOTDumpHeap.cs:58-70 | With `--stat` only the statistics are printed. |
| `DumpHeap.StatsCount` | src/Microsoft.Diagnostics.ExtensionCommands/NativeAOT/NativeAOTDumpHeap.cs:56-66 | A type is listed exactly when a matching object of it exists. Its count is the number of such objects modulo 2^32, and its size their total real size modulo 2^64. |
| `DumpHeap.KeptCount` | src/Microsoft.Diagnostics.ExtensionCommands/NativeAOT/NativeAOTDumpHeap.cs:56-64 | The count added for a type is the number of matching objects of that type. |
| `DumpHeap.KeptBytes` | src/Microsoft.Diagnostics.ExtensionCommands/NativeAOT/NativeAOTDumpHeap.cs:56-65 | The bytes added for a type are the real sizes of its matching objects. |
| `VerifyHeap.ScanStep` | src/Microsoft.Diagnostics.ExtensionCommands/NativeAOT/NativeAOTVerifyHeap.cs:33-45 | One object: a failing object adds a diagnostic naming the current last good object; a valid one becomes the last good object. The count goes up by one. |
| `VerifyHeap.Invoke` | src/Microsoft.Diagnostics.ExtensionCommands/NativeAOT/NativeAOTVerifyHeap.cs:16-49 | Without a runtime only the error line. Otherwise it writes one line per failing object, in heap order, and then "Found N heap(s) with M objects.", where N and M are the heap and object counts wrapped to `int` and written in decimal. |
| `VerifyHeap.LastGoodIsLatestValid` | src/Microsoft.Diagnostics.ExtensionCommands/NativeAOT/NativeAOTVerifyHeap.cs:32-45 | The last good object is a valid object of the heap with no valid object after it. |
| `VerifyHeap.LastGoodAt` | src/Microsoft.Diagnostics.ExtensionCommands/NativeAOT/NativeAOTVerifyHeap.cs:32-45 | It names the position of the last good object, which is valid and followed only by failing objects. |
| `VerifyHeap.LastGoodNone` | src/Microsoft.Diagnostics.ExtensionCommands/NativeAOT/NativeAOTVerifyHeap.cs:32-45 | There is no last good object exactly when no object so far is valid; the diagnostic then has no second part. |
| `VerifyHeap.LastGoodIsValid` | src/Microsoft.Diagnostics.ExtensionCommands/NativeAOT/NativeAOTVerifyHeap.cs:43 | A last good object is valid. |
| `VerifyHeap.DiagnosticsMatchFailures` | src/Microsoft.Diagnostics.ExtensionCommands/NativeAOT/NativeAOTVerifyHeap.cs:37-40 | There is one diagnostic per failing object, for its address, in heap order. |
| `VerifyHeap.DiagnosticForFailure` | src/Microsoft.Diagnostics.ExtensionCommands/NativeAOT/NativeAOTVerifyHeap.cs:33-45 | Each failing object is reported together with the last good object before it on its heap. |
| `VerifyHeap.AllDiagnosticsCount` | src/Microsoft.Diagnostics.ExtensionCommands/NativeAOT/NativeAOTVerifyHeap.cs:27-46 | Across all heaps there are as many diagnostics as failing objects. |
| `VerifyHeap.FailingAppend` | src/Microsoft.Diagnostics.ExtensionCommands/NativeAOT/NativeAOTVerifyHeap.cs:27-33 | The failing objects of consecutive heaps are those of each heap in turn. |
| `VerifyHeap.ScanHeap` | src/Microsoft.Diagnostics.ExtensionCommands/NativeAOT/NativeAOTVerifyHeap.cs:32-45 | The loop over one heap, with `lastGood` starting out null, extends the written lines by that heap's diagnostics and the count by its objects. |
| `VerifyHeap.OutputLines` | src/Microsoft.Diagnostics.ExtensionCommands/NativeAOT/NativeAOTVerifyHeap.cs:27-48 | The output has one line per failing object across all heaps, the i-th naming the i-th failing object's address, and ends with the summary of the two counters. |
| `VerifyHeap.DiagnosticTextAddress` | src/Microsoft.Diagnostics.ExtensionCommands/NativeAOT/NativeAOTVerifyHeap.cs:53 | A diagnostic line starts with `Object at address 0x`, then hex digits that read back as the failing address, then a space. |
| `VerifyHeap.AllDiagnosticsMatchFailures` | src/Microsoft.Diagnostics.ExtensionCommands/NativeAOT/NativeAOTVerifyHeap.cs:27-46 | Across all heaps the i-th diagnostic is for the i-th failing object. |
| `StressLog.SortEntries` | src/Microsoft.Diagnostics.ExtensionCommands/NativeAOT/NativeAOTStressLogCommand.cs:65-83 | The two loops build the merged list, and the result is that list ordered by timestamp. |
| `StressLog.MergedHasEveryEntry` | src/Microsoft.Diagnostics.ExtensionCommands/NativeAOT/NativeAOTStressLogCommand.cs:68-80 | Every entry of every thread is in the merged list, tagged with its thread. |
| `StressLog.MergedOnlyEntries` | src/Microsoft.Diagnostics.ExtensionCommands/NativeAOT/NativeAOTStressLogCommand.cs:68-80 | The merged list holds only entries of the threads, tagged with their own thread. |
| `StressLog.MergedLength` | src/Microsoft.Diagnostics.ExtensionCommands/NativeAOT/NativeAOTStressLogCommand.cs:67-80 | The merged list is exactly as long as all logs together. |
| `StressLog.SortEntriesSpec` | src/Microsoft.Diagnostics.ExtensionCommands/NativeAOT/NativeAOTStressLogCommand.cs:82 | The sorted entries are a permutation of the merged ones, ordered by timestamp. Entries with equal timestamps keep their merged order. |
| `StressLog.SortEntriesEmpty` | src/Microsoft.Diagnostics.ExtensionCommands/NativeAOT/NativeAOTStressLogCommand.cs:48-57 | With no entries in any thread, no entry line is written. |
| `StressLog.FormatEntries` | src/Microsoft.Diagnostics.ExtensionCommands/NativeAOT/NativeAOTStressLogCommand.cs:53-57 | One line per sorted entry, in order: thread id and timestamp in hex, then the message. |
| `StressLog.Invoke` | src/Microsoft.Diagnostics.ExtensionCommands/NativeAOT/NativeAOTStressLogCommand.cs:26-63 | Without a runtime the result is `None`, which stands for the line "Error: no Native AOT runtime detected." The file is `--file` or `StressLog.txt`. The console says the log is being dumped, that it does not exist when no thread has a log, and then `Done`. The file holds the header, one line per entry ordered by timestamp, and a closing separator. |
| `ModuleService.NewModule` | src/SOS/SOS.Extensions/ModuleServiceFromDebuggerServices.cs:82-107 | The index file size and time stamp are absent exactly when the time stamp is `InvalidTimeStamp`; otherwise they are the values given. The other properties are stored as given. |
| `ModuleService.FixImageNameSpec` | src/SOS/SOS.Extensions/ModuleServiceFromDebuggerServices.cs:236-240 | A name ending in `CoreCLR.dll` ends in `coreclr.dll` afterwards and keeps its length; any other name is unchanged. |
| `ModuleService.CoreClrBorderFree` | src/SOS/SOS.Extensions/ModuleServiceFromDebuggerServices.cs:239 | `CoreCLR.dll` cannot overlap itself, so the replacement meets the suffix. |
| `ModuleService.GetModulesInner` | src/SOS/SOS.Extensions/ModuleServiceFromDebuggerServices.cs:218-263 | When the module count cannot be read the dictionary is empty. Otherwise it is the dictionary built from the loaded modules in index order, with failed lookups skipped. |
| `ModuleService.ModulesFromKeys` | src/SOS/SOS.Extensions/ModuleServiceFromDebuggerServices.cs:225-251 | An image base is a key exactly when some module with readable information has it, and the module stored there has that base. |
| `ModuleService.ModulesFromFirstWins` | src/SOS/SOS.Extensions/ModuleServiceFromDebuggerServices.cs:243-250 | At a shared image base the module with the lowest index is kept. |
| `ModuleService.DecodeVersionWord` | src/SOS/SOS.Extensions/ModuleServiceFromDebuggerServices.cs:132-135 | The low half of a version word is in 0..65535, and the two halves put back together give the word. |
| `ModuleService.DecodeVersionHigh` | src/SOS/SOS.Extensions/ModuleServiceFromDebuggerServices.cs:132 | The high half comes from an arithmetic shift of the signed word: it is negative when the top bit is set. |
| `ModuleService.ModuleVersions.constructor` | src/SOS/SOS.Extensions/ModuleServiceFromDebuggerServices.cs:123-167 | Neither property is initialised and nothing has been queried. |
| `ModuleService.ModuleVersions.Version` | src/SOS/SOS.Extensions/ModuleServiceFromDebuggerServices.cs:123-148 | The host is queried on the first read only. A successful query decodes the file version. On failure, off Windows the version comes from the version string, and on Windows it stays unset. Later reads return the cached value. |
| `ModuleService.ModuleVersions.VersionString` | src/SOS/SOS.Extensions/ModuleServiceFromDebuggerServices.cs:150-167 | The host is queried on the first read only. A non-PE module off Windows whose query fails reads the string from memory. Later reads return the cached value. |
| `ModuleService.TryGetType` | src/SOS/SOS.Extensions/ModuleServiceFromDebuggerServices.cs:187-199 | A type exists exactly when the host call succeeds, and it carries the requested name, the id found and the module's index. |
| `ModuleService.TryGetField` | src/SOS/SOS.Extensions/ModuleServiceFromDebuggerServices.cs:64-76 | A field exists exactly when the host call succeeds, and it carries the requested name, the offset found and its type. |
| `AsyncState.IsCompletedStates` | src/Microsoft.Diagnostics.ExtensionCommands/NativeAOT/NativeAOTDumpAsync.cs:323-328 | The completed mask `0x1600000` means faulted, canceled or ran to completion. |
| `AsyncState.ZeroNotCompleted` | src/Microsoft.Diagnostics.ExtensionCommands/NativeAOT/NativeAOTDumpAsync.cs:395-405 | An object without `m_stateFlags` reads state 0 and is not completed. |
| `AsyncState.NamesIff` | src/Microsoft.Diagnostics.ExtensionCommands/NativeAOT/NativeAOTDumpAsync.cs:282-321 | A flag name is written exactly when its bit is set in the state. |
| `AsyncState.NamesSound` | src/Microsoft.Diagnostics.ExtensionCommands/NativeAOT/NativeAOTDumpAsync.cs:288-317 | Every written name belongs to a set bit. |
| `AsyncState.NamesComplete` | src/Microsoft.Diagnostics.ExtensionCommands/NativeAOT/NativeAOTDumpAsync.cs:288-317 | Every set bit of the table writes its name. |
| `AsyncState.NamesAgree` | src/Microsoft.Diagnostics.ExtensionCommands/NativeAOT/NativeAOTDumpAsync.cs:288-317 | States that agree on the table's bits describe the same way: bits outside the table are ignored. |
| `AsyncState.NamesNotListed` | src/Microsoft.Diagnostics.ExtensionCommands/NativeAOT/NativeAOTDumpAsync.cs:288-317 | A name that is not written has its bit clear. |
| `AsyncState.NoNames` | src/Microsoft.Diagnostics.ExtensionCommands/NativeAOT/NativeAOTDumpAsync.cs:286-318 | State 0 writes no names. |
| `AsyncState.DumpStateZero` | src/Microsoft.Diagnostics.ExtensionCommands/NativeAOT/NativeAOTDumpAsync.cs:286-318 | State 0 is described as `( )`. |
| `AsyncState.DumpStateRanToCompletion` | src/Microsoft.Diagnostics.ExtensionCommands/NativeAOT/NativeAOTDumpAsync.cs:311 | A task that ran to completion reads `( RAN_TO_COMPLETION )`. |
| `AsyncState.DumpStateUnknownBits` | src/Microsoft.Diagnostics.ExtensionCommands/NativeAOT/NativeAOTDumpAsync.cs:286-318 | Bits 0x20, 0x100 and the sign bit have no name and do not change the description. |
| `AsyncState.RanToCompletionNames` | src/Microsoft.Diagnostics.ExtensionCommands/NativeAOT/NativeAOTDumpAsync.cs:311 | `0x1000000` names only `RAN_TO_COMPLETION`. |
| `AsyncState.UnknownBitsNames` | src/Microsoft.Diagnostics.ExtensionCommands/NativeAOT/NativeAOTDumpAsync.cs:288-317 | The unnamed bits together name nothing. |
| `AsyncState.UnknownBitsRanToCompletionNames` | src/Microsoft.Diagnostics.ExtensionCommands/NativeAOT/NativeAOTDumpAsync.cs:288-317 | Unnamed bits next to `RAN_TO_COMPLETION` still name only it. |
| `AsyncSnapshot.FieldTarget` | src/Microsoft.Diagnostics.ExtensionCommands/NativeAOT/NativeAOTDumpAsync.cs:470-507 | A field that exists and holds a non-null reference gives an object of the snapshot. |
| `AsyncSnapshot.Resolve` | src/Microsoft.Diagnostics.ExtensionCommands/NativeAOT/NativeAOTDumpAsync.cs:417-468 | Resolving a continuation never yields null, and it yields the object itself or an object of the snapshot. |
| `AsyncSnapshot.ThroughDelegate` | src/Microsoft.Diagnostics.ExtensionCommands/NativeAOT/NativeAOTDumpAsync.cs:432-463 | The `m_action` and `_target` hops never yield null. |
| `AsyncSnapshot.Unwrapped` | src/Microsoft.Diagnostics.ExtensionCommands/NativeAOT/NativeAOTDumpAsync.cs:452-461 | Unwrapping a continuation wrapper never yields null. |
| `AsyncSnapshot.ResolveKeeps` | src/Microsoft.Diagnostics.ExtensionCommands/NativeAOT/NativeAOTDumpAsync.cs:420-444 | A state machine, a task field holding null, or no task, action or target leaves the continuation as it is. |
| `AsyncSnapshot.ResolveTaskStops` | src/Microsoft.Diagnostics.ExtensionCommands/NativeAOT/NativeAOTDumpAsync.cs:423-431 | A continuation with a non-null `m_task` resolves to that task, with no further hop. |
| `AsyncSnapshot.SlotRefsIff` | src/Microsoft.Diagnostics.ExtensionCommands/NativeAOT/NativeAOTDumpAsync.cs:368-376 | The list items are exactly the non-null slots of the backing array, at most one per slot. |
| `AsyncSnapshot.RawContinuationsSingle` | src/Microsoft.Diagnostics.ExtensionCommands/NativeAOT/NativeAOTDumpAsync.cs:378-390 | A non-list object has at most one continuation, the non-null target of `m_continuationObject`. |
| `AsyncSnapshot.RawContinuationsList` | src/Microsoft.Diagnostics.ExtensionCommands/NativeAOT/NativeAOTDumpAsync.cs:363-377 | A list's continuations are exactly the non-null slots of its `_items` array. |
| `AsyncSnapshot.RawContinuationsNonNull` | src/Microsoft.Diagnostics.ExtensionCommands/NativeAOT/NativeAOTDumpAsync.cs:372-387 | Null continuations are never added. |
| `AsyncSnapshot.ContinuationsInUniverse` | src/Microsoft.Diagnostics.ExtensionCommands/NativeAOT/NativeAOTDumpAsync.cs:360-393 | Every resolved continuation is a non-null object of the snapshot. |
| `AsyncSnapshot.SnapshotClosed` | src/Microsoft.Diagnostics.ExtensionCommands/NativeAOT/NativeAOTDumpAsync.cs:258-280 | The continuations of the snapshot form a finite graph, so every walk ends. |
| `AsyncSnapshot.WrapperResolves` | src/Microsoft.Diagnostics.ExtensionCommands/NativeAOT/NativeAOTDumpAsync.cs:434-461 | An example: an action whose target is a continuation wrapper resolves to the wrapped state machine. |
| `AsyncSelection.CandidatesIff` | src/Microsoft.Diagnostics.ExtensionCommands/NativeAOT/NativeAOTDumpAsync.cs:105-124 | An object is found exactly when it is on a heap, has at least 24 bytes, is of an async type, and is not completed unless `--completed` is given. |
| `AsyncSelection.CandidatesOrdered` | src/Microsoft.Diagnostics.ExtensionCommands/NativeAOT/NativeAOTDumpAsync.cs:114-123 | The found objects are no more than the cached async objects, which are no more than the heap objects. With `--completed` the found objects are all the async ones. |
| `AsyncSelection.CandidateIncluded` | src/Microsoft.Diagnostics.ExtensionCommands/NativeAOT/NativeAOTDumpAsync.cs:117-123 | For a found object, `includeInReport` is plain `Matches`. |
| `AsyncSelection.MatchesAddress` | src/Microsoft.Diagnostics.ExtensionCommands/NativeAOT/NativeAOTDumpAsync.cs:528-531 | With `--addr`, exactly the object at that address matches. |
| `AsyncSelection.MatchesFilter` | src/Microsoft.Diagnostics.ExtensionCommands/NativeAOT/NativeAOTDumpAsync.cs:532-536 | Without `--addr`, matching means being async, and with `--type` also containing the filter, ignoring case. |
| `AsyncSelection.AsyncWithoutTasks` | src/Microsoft.Diagnostics.ExtensionCommands/NativeAOT/NativeAOTDumpAsync.cs:544-548 | Without `--tasks` only state machine boxes are async, and `--userdefined` has no effect. |
| `AsyncSelection.TaskTypes` | src/Microsoft.Diagnostics.ExtensionCommands/NativeAOT/NativeAOTDumpAsync.cs:550-598 | The library task types are tasks whatever the options. Any other type is a task exactly with `--userdefined` and both `m_stateFlags` and `m_continuationObject`. |
| `AsyncSelection.AsyncObjectsIn` | src/Microsoft.Diagnostics.ExtensionCommands/NativeAOT/NativeAOTDumpAsync.cs:105-116 | The cached async objects are heap objects that pass the size and type tests. |
| `AsyncSelection.CandidatesAsync` | src/Microsoft.Diagnostics.ExtensionCommands/NativeAOT/NativeAOTDumpAsync.cs:114-123 | Every found object is also in the object cache. |
| `AsyncSelection.CandidatesDistinct` | src/Microsoft.Diagnostics.ExtensionCommands/NativeAOT/NativeAOTDumpAsync.cs:116-122 | Objects at distinct addresses stay distinct among the found ones. |
| `AsyncGraph.WalkFromDistinct` | src/Microsoft.Diagnostics.ExtensionCommands/NativeAOT/NativeAOTDumpAsync.cs:263-278 | The loop calls back only unseen objects, each at most once. |
| `AsyncGraph.WalkDistinct` | src/Microsoft.Diagnostics.ExtensionCommands/NativeAOT/NativeAOTDumpAsync.cs:258-280 | A walk calls back each object at most once, even on a cycle. |
| `AsyncGraph.WalkFromComplete` | src/Microsoft.Diagnostics.ExtensionCommands/NativeAOT/NativeAOTDumpAsync.cs:264-279 | When the loop ends, the seen objects are closed under continuations and include everything that was on the stack. |
| `AsyncGraph.WalkFromSound` | src/Microsoft.Diagnostics.ExtensionCommands/NativeAOT/NativeAOTDumpAsync.cs:264-279 | Every called-back object is reached from an entry of the stack along a chain of continuations. |
| `AsyncGraph.WalkReaches` | src/Microsoft.Diagnostics.ExtensionCommands/NativeAOT/NativeAOTDumpAsync.cs:258-280 | A walk calls back exactly the objects reachable from its root in one step or more, the root itself only on a cycle. |
| `AsyncGraph.WalkFromDepth` | src/Microsoft.Diagnostics.ExtensionCommands/NativeAOT/NativeAOTDumpAsync.cs:266-276 | Each callback's depth comes either from its stack entry or from an earlier callback whose continuation it is, one level deeper. |
| `AsyncGraph.WalkDepth` | src/Microsoft.Diagnostics.ExtensionCommands/NativeAOT/NativeAOTDumpAsync.cs:261-276 | Depth 1 is a direct continuation of the root, and every deeper callback is a continuation of an earlier one. |
| `AsyncGraph.ReachedByIff` | src/Microsoft.Diagnostics.ExtensionCommands/NativeAOT/NativeAOTDumpAsync.cs:240-252 | The objects the chain computation visits are exactly those reachable from some found object. |
| `AsyncGraph.ChainsCountTopLevel` | src/Microsoft.Diagnostics.ExtensionCommands/NativeAOT/NativeAOTDumpAsync.cs:237-256 | For distinct found objects the chain count is the number of those no found object reaches. |
| `AsyncGraph.ElemsDistinct` | src/Microsoft.Diagnostics.ExtensionCommands/NativeAOT/NativeAOTDumpAsync.cs:239 | Distinct objects: the list's count is its number of elements. |
| `AsyncGraph.CycleWalk` | src/Microsoft.Diagnostics.ExtensionCommands/NativeAOT/NativeAOTDumpAsync.cs:263-273 | An example: on a two-object cycle the walk visits the partner, then the root, and stops. |
| `AsyncGraph.FanWalk` | src/Microsoft.Diagnostics.ExtensionCommands/NativeAOT/NativeAOTDumpAsync.cs:261-266 | An example: continuations pushed in list order are visited last-first, since the stack pops the newest. |
| `AsyncGraph.ChainWalkA` | src/Microsoft.Diagnostics.ExtensionCommands/NativeAOT/NativeAOTDumpAsync.cs:258-280 | An example: a chain of three objects is walked with depths 1 and 2. |
| `AsyncGraph.ChainWalkOthers` | src/Microsoft.Diagnostics.ExtensionCommands/NativeAOT/NativeAOTDumpAsync.cs:258-280 | An example: the walks from the middle and the ends of the chain. |
| `AsyncGraph.ChainReached` | src/Microsoft.Diagnostics.ExtensionCommands/NativeAOT/NativeAOTDumpAsync.cs:240-252 | An example: the chain's inner objects are reached from the found ones. |
| `AsyncGraph.ChainTopLevel` | src/Microsoft.Diagnostics.ExtensionCommands/NativeAOT/NativeAOTDumpAsync.cs:237-256 | An example: a chain plus a lone object give two chains, headed by the chain's head and the lone object. |
| `DumpAsync.RecordLookup` | src/Microsoft.Diagnostics.ExtensionCommands/NativeAOT/NativeAOTDumpAsync.cs:484-503 | Storing a freshly looked-up field keeps the offset cache equal to the snapshot's field table and logs the lookup. |
| `DumpAsync.FlagsKeptTrans` | src/Microsoft.Diagnostics.ExtensionCommands/NativeAOT/NativeAOTDumpAsync.cs:342-358 | Creating records on demand never changes an existing record's flags, across any sequence of calls. |
| `DumpAsync.Session.constructor` | src/Microsoft.Diagnostics.ExtensionCommands/NativeAOT/NativeAOTDumpAsync.cs:41-64 | The command starts with empty caches and the given options. |
| `DumpAsync.Session.TryGetField` | src/Microsoft.Diagnostics.ExtensionCommands/NativeAOT/NativeAOTDumpAsync.cs:481-507 | The answer is the type's field, or none when the lookup fails. The host is asked at most once per type and field; a cached answer is returned without asking. |
| `DumpAsync.Session.GetOrCreateObject` | src/Microsoft.Diagnostics.ExtensionCommands/NativeAOT/NativeAOTDumpAsync.cs:407-415 | The object is cached once, with its type, and then reused. |
| `DumpAsync.Session.GetObjectFromPtrToRef` | src/Microsoft.Diagnostics.ExtensionCommands/NativeAOT/NativeAOTDumpAsync.cs:470-479 | A null pointer gives no object; otherwise the object it points to, which is then cached. |
| `DumpAsync.Session.FollowField` | src/Microsoft.Diagnostics.ExtensionCommands/NativeAOT/NativeAOTDumpAsync.cs:425-429 | Following a field moves to its target, or stays put when the field holds null. |
| `DumpAsync.Session.ResolveContinuation` | src/Microsoft.Diagnostics.ExtensionCommands/NativeAOT/NativeAOTDumpAsync.cs:417-468 | The method gives the snapshot's resolution of the continuation. The caches stay consistent and only grow. |
| `DumpAsync.Session.ResolveTask` | src/Microsoft.Diagnostics.ExtensionCommands/NativeAOT/NativeAOTDumpAsync.cs:422-463 | A continuation with `m_task` hops to the task; one without it goes through the delegate. |
| `DumpAsync.Session.ResolveThroughDelegate` | src/Microsoft.Diagnostics.ExtensionCommands/NativeAOT/NativeAOTDumpAsync.cs:432-463 | The `m_action` branch gives the snapshot's resolution through the delegate. |
| `DumpAsync.Session.HopField` | src/Microsoft.Diagnostics.ExtensionCommands/NativeAOT/NativeAOTDumpAsync.cs:423-442 | Hopping through a named field gives its non-null target, or the object itself. |
| `DumpAsync.Session.ThroughTarget` | src/Microsoft.Diagnostics.ExtensionCommands/NativeAOT/NativeAOTDumpAsync.cs:444-463 | A non-null `_target` is taken and unwrapped; otherwise the object stays. |
| `DumpAsync.Session.UnwrapContinuationWrapper` | src/Microsoft.Diagnostics.ExtensionCommands/NativeAOT/NativeAOTDumpAsync.cs:452-461 | A continuation wrapper with a non-null `_continuation` is replaced by it. |
| `DumpAsync.Session.ParseContinuations` | src/Microsoft.Diagnostics.ExtensionCommands/NativeAOT/NativeAOTDumpAsync.cs:360-393 | The continuations found, each resolved, in order. |
| `DumpAsync.Session.ContinuationObjects` | src/Microsoft.Diagnostics.ExtensionCommands/NativeAOT/NativeAOTDumpAsync.cs:362-390 | The raw continuations: the list items, or the single `m_continuationObject`. |
| `DumpAsync.Session.ListItems` | src/Microsoft.Diagnostics.ExtensionCommands/NativeAOT/NativeAOTDumpAsync.cs:368-376 | The loop over the backing array's slots collects the non-null ones in slot order. |
| `DumpAsync.Session.ParseState` | src/Microsoft.Diagnostics.ExtensionCommands/NativeAOT/NativeAOTDumpAsync.cs:395-405 | The `int` at `m_stateFlags`, or 0 when the type has no such field. |
| `DumpAsync.Session.HasTaskMembersWeCareAbout` | src/Microsoft.Diagnostics.ExtensionCommands/NativeAOT/NativeAOTDumpAsync.cs:575-598 | The method returns true exactly when both task fields exist. |
| `DumpAsync.Session.IsTaskType` | src/Microsoft.Diagnostics.ExtensionCommands/NativeAOT/NativeAOTDumpAsync.cs:550-573 | The method agrees with the definition of a task type. |
| `DumpAsync.Session.IsAsyncType` | src/Microsoft.Diagnostics.ExtensionCommands/NativeAOT/NativeAOTDumpAsync.cs:544-548 | The method agrees with the definition of an async type. |
| `DumpAsync.Session.Matches` | src/Microsoft.Diagnostics.ExtensionCommands/NativeAOT/NativeAOTDumpAsync.cs:526-537 | The method agrees with the definition of a match. |
| `DumpAsync.Session.GetOrCreateAsyncRecord` | src/Microsoft.Diagnostics.ExtensionCommands/NativeAOT/NativeAOTDumpAsync.cs:342-358 | An existing record is returned unchanged. A new record is top-level, with nothing computed yet, and is reported when it matches. |
| `DumpAsync.Session.GetState` | src/Microsoft.Diagnostics.ExtensionCommands/NativeAOT/NativeAOTDumpAsync.cs:330-334 | The lazy state is the `m_stateFlags` value, and forcing it changes no flag. |
| `DumpAsync.Session.GetContinuations` | src/Microsoft.Diagnostics.ExtensionCommands/NativeAOT/NativeAOTDumpAsync.cs:336-340 | The lazy continuations are the resolved continuations, and forcing them changes no flag. |
| `DumpAsync.Session.IsCompleted` | src/Microsoft.Diagnostics.ExtensionCommands/NativeAOT/NativeAOTDumpAsync.cs:323-328 | The method agrees with the completed test on the object's state. |
| `DumpAsync.Session.IsTopLevel` | src/Microsoft.Diagnostics.ExtensionCommands/NativeAOT/NativeAOTDumpAsync.cs:194-198 | The object's top-level flag; true for an object without a record yet. |
| `DumpAsync.Session.SetTopLevel` | src/Microsoft.Diagnostics.ExtensionCommands/NativeAOT/NativeAOTDumpAsync.cs:200-204 | Only this object's top-level flag changes, and no report flag. |
| `DumpAsync.Session.IncludeInReport` | src/Microsoft.Diagnostics.ExtensionCommands/NativeAOT/NativeAOTDumpAsync.cs:206-210 | The object's report flag; `Matches` for an object without a record yet. |
| `DumpAsync.Session.SetIncludeInReport` | src/Microsoft.Diagnostics.ExtensionCommands/NativeAOT/NativeAOTDumpAsync.cs:212-216 | Only this object's report flag changes, and no top-level flag. |
| `DumpAsync.Session.WalkContinuations` | src/Microsoft.Diagnostics.ExtensionCommands/NativeAOT/NativeAOTDumpAsync.cs:258-280 | The stack-and-seen-set loop calls back exactly the graph walk from the object, with depths, and changes no flag. |
| `DumpAsync.Session.ClearTopLevel` | src/Microsoft.Diagnostics.ExtensionCommands/NativeAOT/NativeAOTDumpAsync.cs:244-251 | The callback clears the top-level flag of a found object it meets, and counts one chain fewer only when that flag was set. |
| `DumpAsync.Session.CalculateTopLevelRecords` | src/Microsoft.Diagnostics.ExtensionCommands/NativeAOT/NativeAOTDumpAsync.cs:237-256 | A found object stays top-level exactly when no found object's walk reaches it. Starting from all top-level, the count is the number of chains. |
| `DumpAsync.Session.ClearVisited` | src/Microsoft.Diagnostics.ExtensionCommands/NativeAOT/NativeAOTDumpAsync.cs:242-252 | Applying the callback to a walk's visits clears exactly the found objects visited, and lowers the count by those that were still set. |
| `DumpAsync.Session.PrintAsyncRecord` | src/Microsoft.Diagnostics.ExtensionCommands/NativeAOT/NativeAOTDumpAsync.cs:218-223 | The record line: address, type address and state in hex columns, the state's flag names and the type name. |
| `DumpAsync.Session.PrintChain` | src/Microsoft.Diagnostics.ExtensionCommands/NativeAOT/NativeAOTDumpAsync.cs:178-187 | One line per walk callback, the record after one dot per level, in walk order. |
| `DumpAsync.Session.PrintTopLevelObjs` | src/Microsoft.Diagnostics.ExtensionCommands/NativeAOT/NativeAOTDumpAsync.cs:162-192 | A blank line, then the block of each found object that is top-level and reported, in found order. |
| `DumpAsync.Session.PrintIfShown` | src/Microsoft.Diagnostics.ExtensionCommands/NativeAOT/NativeAOTDumpAsync.cs:166-171 | An object is printed only when it is top-level and reported. |
| `DumpAsync.Session.PrintBlock` | src/Microsoft.Diagnostics.ExtensionCommands/NativeAOT/NativeAOTDumpAsync.cs:173-190 | The record line; with `--stacks` and continuations, its chain; then a blank line. |
| `DumpAsync.Session.PrintStats` | src/Microsoft.Diagnostics.ExtensionCommands/NativeAOT/NativeAOTDumpAsync.cs:225-235 | The found objects' statistics, sorted by total size, and their number modulo 2^32. |
| `DumpAsync.Session.EnumerateHeap` | src/Microsoft.Diagnostics.ExtensionCommands/NativeAOT/NativeAOTDumpAsync.cs:105-125 | The loop over one heap extends the object cache by the async objects and the found list by the candidates. The flags stay those enumeration gives. |
| `DumpAsync.Session.EnumerateObject` | src/Microsoft.Diagnostics.ExtensionCommands/NativeAOT/NativeAOTDumpAsync.cs:107-124 | One heap object: objects under 24 bytes and non-async objects are skipped. |
| `DumpAsync.Session.AddAsyncObject` | src/Microsoft.Diagnostics.ExtensionCommands/NativeAOT/NativeAOTDumpAsync.cs:116-123 | An async object enters the cache and gets its report flag. It is found unless it is completed and `--completed` is not given. |
| `DumpAsync.Session.Invoke` | src/Microsoft.Diagnostics.ExtensionCommands/NativeAOT/NativeAOTDumpAsync.cs:66-160 | A run with empty caches gives: the statistics without `--addr`, the chain count with `--stacks` and no `--type`, and the listing of the shown objects between the header and the separator. |
| `DumpAsync.ClearedStep` | src/Microsoft.Diagnostics.ExtensionCommands/NativeAOT/NativeAOTDumpAsync.cs:246-250 | Meeting one more object lowers the count by one exactly when it is a found, still top-level object not met before. |
| `DumpAsync.ClearedAll` | src/Microsoft.Diagnostics.ExtensionCommands/NativeAOT/NativeAOTDumpAsync.cs:239-255 | Starting from all top-level, the cleared objects are the found objects that are reached. |
| `DumpAsync.EnumerateStep` | src/Microsoft.Diagnostics.ExtensionCommands/NativeAOT/NativeAOTDumpAsync.cs:107-124 | One more heap object extends the cache and the found list by itself or by nothing. |
| `DumpAsync.FreshAddress` | src/Microsoft.Diagnostics.ExtensionCommands/NativeAOT/NativeAOTDumpAsync.cs:116 | With distinct heap addresses, `_objectsCache.Add` never meets a key already present. |
| `DumpAsync.ShownAfterTopLevel` | src/Microsoft.Diagnostics.ExtensionCommands/NativeAOT/NativeAOTDumpAsync.cs:141-168 | After enumeration and the chain computation, the printed objects are exactly the shown ones. |
| `DumpAsync.Command` | src/Microsoft.Diagnostics.ExtensionCommands/NativeAOT/NativeAOTDumpAsync.cs:66-72 | Without a runtime only the error; otherwise a new command object gives the full report. |
| `DumpAsync.PadColumn` | src/Microsoft.Diagnostics.ExtensionCommands/NativeAOT/FormatHelpers.cs:14 | Each number column is `0x` and 16 characters whose digits read back as the number. |
| `DumpAsync.RecordLineColumns` | src/Microsoft.Diagnostics.ExtensionCommands/NativeAOT/NativeAOTDumpAsync.cs:222 | The record line's three columns sit at fixed positions and read back as address, type address and state bits; the description and type name follow. |
| `DumpAsync.Int32RoundTrip` | src/Microsoft.Diagnostics.ExtensionCommands/NativeAOT/NativeAOTDumpAsync.cs:222 | The hex state column of a negative state reads back as the same `int`. |
| `DumpAsync.ExpectedChains` | src/Microsoft.Diagnostics.ExtensionCommands/NativeAOT/NativeAOTDumpAsync.cs:141-145 | In stacks mode "In N chains" counts the found objects that no found object reaches; otherwise there is no count. |
| `DumpAsync.ExpectedStats` | src/Microsoft.Diagnostics.ExtensionCommands/NativeAOT/NativeAOTDumpAsync.cs:132-135 | Statistics appear exactly without `--addr`. They list every type of the found objects once, sorted by total size, and the total is the number of found objects modulo 2^32. |
| `DumpAsync.ShownIff` | src/Microsoft.Diagnostics.ExtensionCommands/NativeAOT/NativeAOTDumpAsync.cs:166-171 | A found object is listed exactly when it matches and, in stacks mode, no found object reaches it. With `--addr` only that object can be listed. |

## Left out

- Console and file I/O. `aotdumpheap` and `aotverifyheap` return the lines they would write. The stress log returns its console lines and its file lines separately. `aotdumpasync` returns a report whose statistics and chain count are values, not text (see the next line).
- The timing lines of `aotdumpasync` (the stopwatch readings) are not modelled. The report gives the statistics as the (listing, total) pair that `HeapStats.Print` formats, and "In N chains" as the chain count.
- The "no Native AOT runtime" error of `aotdumpasync` and of `aotdumplog` is a separate result value (`NoRuntime` and `None`), not text. `aotdumpheap` and `aotverifyheap` return the error line itself.
- A memory read the dump cannot satisfy reads as zero. The reader's failure is not modelled.
- Case-insensitive comparison folds ASCII letters only. Culture-invariant folding of other characters is not modelled.
- `StartsWith` and `EndsWith` without a `StringComparison` argument are culture-sensitive in .NET. The module service uses them on image names, but the model compares them ordinally, character by character.
- DumpHeap.RealSize: the size is `baseSize + componentSize * arraySize`, computed exactly and then wrapped modulo 2^64 by the `ulong` cast. The widths of `BaseSize`, `ComponentSize` and `ArraySize` are not part of this model. If the source computes the inner sum in a narrower type such as `uint`, the model does not capture the wrap at 2^32 before the widening.
- `Lazy<T>` is modelled as an `Option` cache that the getter fills on first use. The `Lazy` wrappers around the runtime and the type service are left out, because the snapshot is given directly.
- The type service that `GetField` consults is modelled as a field map per type address in the snapshot. Any lookup failure, whether a missing type or a missing field, is an absent entry.
- `WalkContinuations` returns its callbacks as a list of visits. The callers then apply the callback to each visit in the same order. The callback of `CalculateTopLevelRecords` touches only the top-level flags, which the walk never reads.
- `DumpAsync.Session.Invoke` requires distinct object addresses and types that agree with the snapshot. On a duplicate address `_objectsCache.Add` throws, and exceptions are not modelled.
- `DumpAsync.Session.constructor` requires two things. Every list object must have an `_items` field holding a non-null array: `GetField` throws without the field, and a null array fails on `ComponentSize`. The type map must be keyed by type address. Exceptions are not modelled.
- The list branch of `ParseContinuations` reads as many slots as the backing array's `ComponentSize` says, starting at the array's own address, as the source does. Array headers and the relation to the list's `_size` are not interpreted.
- `NativeAOTObject` identity is the object's address.
- `Trace` output of the module service is not modelled.
- A null `imageName` after a failed `GetModuleName` is not modelled: names are strings.
- `TryGetSymbolName` and `TryGetSymbolAddress` are left out: they only forward to the host.
- The type's `Name`, `ModuleName` and `Fields` are left out: they throw `NotImplementedException`.
- `GetVersionFromVersionString` and `GetVersionString` are given as inputs to `Version` and `VersionString`. Their parsing and memory scanning belong to the base module service.
- Host calls are given as their results: the `HResult`, the version words, the type id and the field offset.
- The heap walker and `Verify()` are given as the per-heap object lists and each object's `valid` bit.
- The `Snapshot.Runtimes.First()` choice is not modelled: the model holds one runtime.
