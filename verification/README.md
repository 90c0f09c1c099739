# Verification of the AXL tooling

Dafny models of the hard parts of the AXL SDK's tools and scripts, with proofs
of what they promise. Each module follows one component.

| module | component |
|---|---|
| TaskPool, PoolObject | the AP task pool: slots, workers, submit and poll, as a state machine over its atomic steps and as an object whose methods let the workers step in between |
| WaveDriver, AxBench, Blur | the wave loop of the benchmark and the three ways it runs a workload |
| FirmwareVolume, FirmwareTree, VolumeHeaders, WideSections | the firmware-volume walker, the trees of volumes, files and sections it walks (section 3.2 of Volume 3 of the UEFI PI Specification 1.8), and the sections it misreads |
| BuildId, PeStamp, PeLayout, StampOverlap | the build-identity stamper for PE32+ images, and such images put together header by header |
| TopoSort | the dependency order of generated headers |
| CLexer, CSource, Blanking, AsciiFix, AsciiLines | the C lexical automaton, texts as their parts, the three scanners, and the line numbers one of them reports |
| StackWalk, Symbols, PdbIdentity, PdbChoice | the crash decoder: backtraces, symbols, and whether image, map, dump and PDB belong together |
| LintMessage, LintCache | the clang-tidy result cache: what its key is a hash of, and whole runs of it |
| IdsParser, IdsLines, IdsText, IdsEmit, IdsTrip, ClassEmit, ClassBlock | the pci.ids and usb.ids parser, its text form, and the JSON5 emitters |
| Bytes, HexText, Counting, Sequences, PyText, Outcomes | shared ground: little-endian fields, hexadecimal digits, occurrences, sequences, lines and whitespace, optional results |

`dafny verify dfyconfig.toml` checks everything.

## How the pieces are modelled

Loops that change variables are methods proved against a specification
function; the properties are then proved of that function. Objects whose
methods update fields are classes. Failures the source reports, or exceptions
it raises, are result values.

What the specification functions compute is stated a second time without them:
file formats are put together from their fields and read back (firmware volumes,
PE images, PDBs, id databases), texts from their parts, kernels from their
closed form, and the choice among several candidates by which of them wins.

The task pool is nondeterministic: between any two steps of the boot processor
any workers may have made any steps, tasks are programs of single stores, and
the driver is verified against any answer from `available` and any refused
submit. Every claim about a wave is about all interleavings. Every accepted
submit has a ticket, so that "exactly once" is a statement about tickets.

Where a promise turned out to hold only under a condition, the model keeps the
code, a lemma gives an input where it fails, and another states the condition:

- `blank_noncode` says that line numbers are unchanged. It drops the line break
  of a continued literal (`Blanking.BlankLosesALine`); the exact condition is in
  `Blanking.BlankKeepsLinesIff`.
- Replacing a curly quote inside a character literal ends the literal
  (`AsciiFix.CurlyQuoteClosesEarly`, `AsciiFix.FixedTextRescans`).
- The number of a finding is the number of its line, as the markers are looked
  up, if and only if no literal before it escapes a line feed and no line before
  it ends in anything but one (`AsciiLines.NumberIsLineIff`); otherwise a marker
  on the line itself may not be seen (`AsciiLines.EscapedFeedLags`,
  `AsciiLines.FormFeedLags`).
- The lint key hashes salt, paths and hashes without separators. Which salts and
  path lists can run together is stated exactly (`LintMessage.ConfusableIff`,
  with `LintMessage.PathListsRunTogether` and
  `LintMessage.SaltAndPathRunTogether`); salts that end in a line break and paths
  like the .h and .hpp siblings of this tree cannot (`LintMessage.GoodHeadsApart`). Nor does the key say which of
  the files is the unit: two units share it if and only if their sorted records
  are equal (`LintCache.SharedKeyIff`).
- COMPRESSION and GUIDED sections with an extended header are read as if it were
  short. What is then found, and when that is the content, is stated exactly
  (`WideSections.WideCompressionSearch`, `WideSections.WideCompressionShowsIff`,
  `WideSections.TruthfulLengthShowsIff`, `WideSections.WideLzmaShowsIff`).
- 24 to 31 bytes of erased flash after the last file make the walk raise
  (`FirmwareTree.ErasedTail`).
- A map measured from the wrong link base passes if and only if that base plus
  the image size is above its last symbol (`Symbols.SilentIffBaseReaches`), so
  a map of unknown base linked at or above the image size is accused
  (`Symbols.UnknownLinkBaseAccuses`).
- An image whose .dbgdir section lies over the fields the stamper reads need not
  reach a fixed point (`StampOverlap.OverlapIsStampedOnce`); wherever reads and
  writes are apart it does (`PeStamp.StampIsIdempotent`).
- Schema 2 repeats the devices of a vendor listed twice and the subsystems of a
  device with two rows (`IdsEmit.EmissionConservesIff`).

Where code and comments disagree, the model follows the code. The comment in
tools/axbench.c says that `available` can over-report; the pool's own code never
does (`PoolObject.Pool.Available`), and the driver is proved for both. The
comment in scripts/lint-cache.py says that a vanished header must not hash
stable; it hashes to the constant MISSING, which is stable and, since it is told
apart from every digest, still sound.

Inputs from outside are parameters: the clock (it advances between any two
readings), LZMA (any decoder, inverse to its encoder on the trees considered),
SHA-256 (any function to 64 hexadecimal digits, without collisions among the
strings of the run), the clang-tidy verdict (any function of salt and
dependency contents), the identity a PDB file yields, and the files, registers
and directory listings given.

## Model

| member | source | states |
|---|---|---|
| `TaskPool.SubmitConserves` | src/task/axl-task-pool.c:572-620 | a submit keeps the ledger: every accepted task is in exactly one slot or already counted, and completed at most once |
| `TaskPool.StoreConserves` | src/task/axl-task-pool.c:220-260 | a worker's store keeps the ledger |
| `TaskPool.FinishConserves` | src/task/axl-task-pool.c:220-260 | SUBMITTED to DONE keeps the ledger; no task completes twice |
| `TaskPool.CollectConserves` | src/task/axl-task-pool.c:622-650 | DONE to FREE keeps the ledger and counts exactly one task more |
| `TaskPool.InlineConserves` | src/task/axl-task-pool.c:572-620 | a submit on a single-core pool, which runs the task itself, keeps the ledger |
| `TaskPool.IdleIffAllCollected` | src/task/axl-task-pool.c:44-64 | in every state with a sound ledger: nothing is pending if and only if polls have counted as many tasks as submits accepted |
| `TaskPool.ReplayIgnoresOrder` | tools/axbench.c:136-156 | two logs with the same stores, in any order and multiplicity, leave the same memory if no two stores disagree about an address |
| `TaskPool.CellHolds` | tools/axbench.c:577-618 | during a wave a cell holds what was stored in it, whatever else ran since |
| `TaskPool.WaveRunsEachOnce` | tools/axbench.c:192-231 | a wave that began idle and is idle again ran exactly the accepted submits, each exactly once |
| `TaskPool.WaveStoresAll` | tools/axbench.c:192-231 | every store of every task of such a wave has been made |
| `TaskPool.WaveIsSerial` | tools/axbench.c:192-246 | memory after such a wave is what running its tasks one after another leaves, for every interleaving |
| `PoolObject.Pool.Submit` | src/task/axl-task-pool.c:572-620 | refused exactly when no slot is free; accepted tasks are appended once; ledger and wave history kept |
| `PoolObject.Pool.Poll` | src/task/axl-task-pool.c:622-650 | returns exactly the number of tasks it newly counts, with workers stepping between slots |
| `PoolObject.Pool.Available` | src/task/axl-task-pool.c:679-699 | the number of free slots: workers never change which slots are free |
| `PoolObject.Pool.Interference` | src/task/axl-task-pool.c:220-260 | any number of worker steps in any order keep the ledger, the log prefix and which slots are free |
| `PoolObject.Pool.WorkerStore` | src/task/axl-task-pool.c:220-260 | one store by the worker of a slot is one step of the state machine |
| `PoolObject.Pool.WorkerFinish` | src/task/axl-task-pool.c:220-260 | completion by the worker of a slot is one step of the state machine |
| `WaveDriver.ReportedAvailable` | tools/axbench.c:182-211 | any number may be reported; only the workers move meanwhile |
| `WaveDriver.TrySubmit` | tools/axbench.c:212-216 | a submit may be refused for any reason; a refused one accepts nothing |
| `WaveDriver.FillSlots` | tools/axbench.c:211-220 | the tasks accepted so far are exactly the first `submitted` ones: a refused submit does not advance the index |
| `WaveDriver.DoneWithinSubmitted` | tools/axbench.c:192-231 | from an idle start done <= submitted <= n at every step, and done = submitted means idle |
| `WaveDriver.PollTurn` | tools/axbench.c:221-229 | one poll and the watchdog: progress is kept; either more is counted or the time of the last completion stands; a stall means more than 60 s without a completion |
| `WaveDriver.DriveLoop` | tools/axbench.c:200-230 | the loop terminates on (tasks not collected, watchdog time left), keeps the progress invariant, and stalls only after more than 60 s without a completion |
| `WaveDriver.DriveWave` | tools/axbench.c:192-231 | whatever is reported, refused and interleaved: counts are conserved; from an idle pool a true return means each task was accepted once, ran once, done = submitted = n, the pool is idle again and memory is the serial result |
| `AxBench.BenchMix` | tools/axbench.c:141-156 | the two loops compute the FNV mix of the chunk |
| `AxBench.MixWordIs` | tools/axbench.c:148-153 | one step, as products and quotients of the FNV prime, 2^23 and 2^17 + 1 |
| `AxBench.MixOfRounds` | tools/axbench.c:146-155 | all words once in each round, from the FNV basis |
| `AxBench.XorMixSplit` | tools/axbench.c:614-638 | the XOR over a list of chunks is the XOR over any split of it |
| `AxBench.XorCancels` | tools/axbench.c:158-168 | a word taken in twice is gone |
| `AxBench.ChunkStoresCoherent` | tools/axbench.c:141-156 | chunks store only their own `out` fields, so no two tasks disagree about a cell |
| `AxBench.RunBsp` | tools/axbench.c:158-168 | the serial result and every chunk's `out` field |
| `AxBench.RunPool` | tools/axbench.c:233-246 | from an idle pool, unless it stalled: the serial result on the same chunks, every `out` field filled, the pool idle; stalled means the sentinel |
| `AxBench.ShareIsPrefix` | tools/axbench.c:580-584 | the AP share is a proper split if and only if there is at least one chunk, whether or not n * W overflows |
| `AxBench.ShareIsProportional` | tools/axbench.c:580-584 | the APs get workers / (workers + 1) of the chunks, rounded down and at least one |
| `AxBench.SubmitShare` | tools/axbench.c:586-613 | the AP share is accepted in order; termination and the 60 s watchdog as in the wave loop |
| `AxBench.ComputeShare` | tools/axbench.c:615-620 | the BSP's share is computed and XORed while the APs run; its cells still hold its results when they are read back |
| `AxBench.DrainShare` | tools/axbench.c:622-632 | polls until everything submitted is counted, or more than 60 s pass without a completion |
| `AxBench.ShareComputes` | tools/axbench.c:574-639 | after the drain every chunk has been computed once by one side or the other, and the two XORs combine to the serial one |
| `AxBench.RunBspPart` | tools/axbench.c:574-639 | for n >= 1, from an idle pool, unless it stalled: the serial result, every chunk computed, the pool idle |
| `AxBench.CorrectnessGate` | tools/axbench.c:943-961 | a whole sweep started on an idle pool never reports a mismatch, and ends idle if it ran to the end |
| `AxBench.LatencyProbe` | tools/axbench.c:831-860 | one task in flight at a time; hands back an idle pool unless it stalled, and stalls only after a minute |
| `AxBench.AwaitOne` | tools/axbench.c:837-843 | the spin on poll terminates: it returns with a completion counted or after more than 60 s with none |
| `Blur.WindowBounds` | tools/axbench.c:271-292 | the window's divisor is never zero and its sum at most 255 per counted pixel |
| `Blur.MeanIsByte` | tools/axbench.c:271-292 | so every mean fits a byte |
| `Blur.PixelIsMean` | tools/axbench.c:278-289 | a blurred pixel is the mean of the columns from four to its left to four to its right, as far as the row goes |
| `Blur.BlurredIsMean` | tools/axbench.c:271-292 | and so is every cell of the image, in its own row |
| `Blur.BlurTile` | tools/axbench.c:271-292 | in place: the rows of the tile are blurred, every other byte is unchanged |
| `Blur.BuildTiles` | tools/axbench.c:294-309 | in 32-bit arithmetic: tiles inside the image that cover every row, no more of them than rows |
| `Blur.TilesPartition` | tools/axbench.c:294-309 | every row is in some tile |
| `Blur.TilesOrdered` | tools/axbench.c:294-309 | tiles are not empty, inside the image and disjoint |
| `Blur.TilesAre` | tools/axbench.c:294-309 | tile i starts at row i * tile height and has that many rows, the last one what is left |
| `Blur.TilesStoreOnlyPixels` | tools/axbench.c:271-292 | tiles store nothing but the blurred value of pixels of the image |
| `Blur.TilesStoreEveryPixel` | tools/axbench.c:271-309 | tiles that cover the rows store every pixel |
| `Blur.AnyOrderGivesTheImage` | tools/axbench.c:271-338 | any order and interleaving of the tiles' stores leaves exactly the blurred image and nothing else changed |
| `Blur.RunBsp` | tools/axbench.c:311-323 | the serial loop leaves the blurred image and returns its sum |
| `Blur.SumFits` | tools/axbench.c:255-338 | the sum of an image never wraps and is never the stall sentinel |
| `Blur.TotalIsSum` | tools/axbench.c:311-323 | the sum is that of the bytes of the image |
| `Blur.RunPool` | tools/axbench.c:326-338 | from an idle pool, unless it stalled: the blurred image, its sum, and an idle pool; the sentinel comes back if and only if it stalled |
| `Blur.RunsAgree` | tools/axbench.c:311-338 | pooled and serial runs have the same image and the same sum |
| `Bytes.StoreThenLoad` | scripts/pe-set-debug.c:58-88 | a number that fits its field survives being stored and loaded, least significant byte first |
| `Bytes.LoadThenStore` | scripts/pe-set-debug.c:58-88 | loading a field and storing it again restores its bytes |
| `BuildId.ComputeId` | scripts/pe-set-debug.c:108-127 | the loop over the bytes and the shift that unpacks the result compute the FNV-1a id with the GUID field read as zero |
| `BuildId.KnownDigests` | scripts/pe-set-debug.c:114-123 | known answers of 128-bit FNV-1a: basis and prime, and the byte taken in before the multiplication |
| `BuildId.MulPrimeInjective` | scripts/pe-set-debug.c:114-122 | multiplying by the prime modulo 2^128 loses nothing |
| `BuildId.StepKeepsStatesApart` | scripts/pe-set-debug.c:116-123 | different states stay different after the same byte |
| `BuildId.StepKeepsBytesApart` | scripts/pe-set-debug.c:116-123 | different bytes lead to different states |
| `BuildId.IdIgnoresGuid` | scripts/pe-set-debug.c:97-123 | the id never depends on the bytes of the GUID field |
| `BuildId.DigestSeparates` | scripts/pe-set-debug.c:116-123 | two images that differ in one visible byte have equal running hashes before it and different ones from it on |
| `BuildId.IdSeparatesOneByteEdits` | scripts/pe-set-debug.c:102-127 | any change of a single byte outside the GUID field changes the id |
| `PeStamp.ParseHeaders` | scripts/pe-set-debug.c:185-229 | accepted headers have their optional header and data directory 6 in bounds |
| `PeStamp.SearchTable` | scripts/pe-set-debug.c:243-252 | the loop finds the first .dbgdir entry of the section table |
| `PeStamp.FindSectionInPlace` | scripts/pe-set-debug.c:218-265 | the section, or the check that fails first |
| `PeLayout.SearchFindsRecord` | scripts/pe-set-debug.c:236-252 | in any table laid out from section headers, the search gives VirtualAddress, SizeOfRawData and PointerToRawData of the first header named .dbgdir |
| `PeLayout.SearchFindsNone` | scripts/pe-set-debug.c:236-258 | and none exactly when there is none of that name |
| `PeLayout.ImageParses` | scripts/pe-set-debug.c:185-229 | the headers of an image put together field by field are found where they are: PE offset, optional header and its size, section count |
| `PeLayout.ImageDescribes` | scripts/pe-set-debug.c:185-229 | such an image has the flags, directory count and section headers it was put together from |
| `PeLayout.FileIsLocated` | scripts/pe-set-debug.c:211-265 | so the section located is the one the first .dbgdir header describes |
| `PeLayout.UnnamedIsRefused` | scripts/pe-set-debug.c:218-258 | a file without a .dbgdir header is refused |
| `PeLayout.SmallIsRefused` | scripts/pe-set-debug.c:218-265 | and one with fewer than seven data directories or fewer than 53 bytes in the section, in this order |
| `PeLayout.NoEntryIsRefused` | scripts/pe-set-debug.c:271-279 | and one whose section holds no CodeView entry |
| `PeLayout.NoRsdsIsRefused` | scripts/pe-set-debug.c:288-295 | or no RSDS record behind it |
| `PeLayout.FileIsStamped` | scripts/pe-set-debug.c:185-325 | every other file is stamped |
| `PeLayout.StampedHeadersShow` | scripts/pe-set-debug.c:211-270 | what it then holds in its headers, by offset: NX_COMPAT added to the flags, and directory 6 with the section header's VirtualAddress and 28 |
| `PeLayout.StampedSectionShows` | scripts/pe-set-debug.c:271-325 | in its section: VirtualAddress + 28 and PointerToRawData + 28 in the entry, the name cut to leave a NUL, the id of the whole |
| `PeLayout.StampedElsewhere` | scripts/pe-set-debug.c:211-325 | and everywhere else what was there before |
| `PeStamp.PatchEntryInPlace` | scripts/pe-set-debug.c:267-295 | the data directory and debug entry are patched in the buffer, or the check that fails first is reported |
| `PeStamp.SealInPlace` | scripts/pe-set-debug.c:307-325 | the name field, then the id over everything written before |
| `PeStamp.Run` | scripts/pe-set-debug.c:185-325 | the in-place program computes the stamping function, on every input, errors included |
| `PeStamp.HeadersUnchanged` | scripts/pe-set-debug.c:191-229 | stamping does not change what the headers parse to |
| `PeStamp.SectionUnchanged` | scripts/pe-set-debug.c:228-265 | stamping does not change which section is found |
| `PeStamp.StampWrites` | scripts/pe-set-debug.c:211-325 | a successful run leaves every field stamped and no other byte changed |
| `PeStamp.StampedIsFixed` | scripts/pe-set-debug.c:191-325 | a fully stamped image is a fixed point, and the print query returns its recomputed id |
| `PeStamp.StampIsIdempotent` | scripts/pe-set-debug.c:97-100 | for every layout in which what a run reads and what it writes are apart: stamping twice with the same name equals stamping once; the stored id, the printed id and the recomputed id are equal |
| `PeStamp.StampsTellBuildsApart` | scripts/pe-set-debug.c:185-325 | two files that differ in one byte outside what a run overwrites are stamped with different ids |
| `PeStamp.SealTellsBuffersApart` | scripts/pe-set-debug.c:307-325 | the same of two patched buffers |
| `PeStamp.LinkedIsDisjoint` | scripts/pe-set-debug.c:185-265 | in the layout linkers produce, what a run reads and what it writes are apart |
| `StampOverlap.NameOverHeaderBreaks` | scripts/pe-set-debug.c:307-325 | where the section lies over the DOS header, a stamped image whose name, taken for the offset of the PE header, points outside the file is refused by the next run |
| `StampOverlap.OverlapIsStampedOnce` | scripts/pe-set-debug.c:185-325 | a concrete image that is stamped once and refused the second time |
| `FirmwareVolume.Align` | scripts/extract-fv-shell.py:60-61 | the next multiple of the boundary, and no further |
| `FirmwareVolume.IterFiles` | scripts/extract-fv-shell.py:73-102 | the loop yields the files of the specification, and raises where it does |
| `FirmwareVolume.IterSections` | scripts/extract-fv-shell.py:105-120 | the loop yields the sections of the specification, and raises where it does |
| `FirmwareVolume.SectionsAreOrdered` | scripts/extract-fv-shell.py:105-120 | on arbitrary bytes sections are in bounds, 4-aligned, disjoint and increasing |
| `FirmwareVolume.FilesAreOrdered` | scripts/extract-fv-shell.py:73-102 | on arbitrary bytes files are in bounds, 8-aligned, disjoint and increasing |
| `FirmwareVolume.ScanVolumes` | scripts/extract-fv-shell.py:162-183 | the scan returns the first decision over the volumes it finds |
| `FirmwareVolume.ExtractShell` | scripts/extract-fv-shell.py:177-183 | the whole extraction, errors included, as one function of the image |
| `FirmwareTree.SectionsInvertLayout` | scripts/extract-fv-shell.py:105-120 | the section iterator gives back any 4-aligned section stream, short and extended headers |
| `FirmwareTree.FilesInvertLayout` | scripts/extract-fv-shell.py:73-102 | the file iterator gives back any 8-aligned list of files, small and large headers, minus padding and erased names |
| `FirmwareTree.YieldedUnlessHidden` | scripts/extract-fv-shell.py:100 | a file is skipped exactly if its type is 0xF0 or its name is all ones |
| `FirmwareTree.VolumeInvertsLayout` | scripts/extract-fv-shell.py:73-102 | the same behind a volume header, with or without the extended one, stated on the header's fields |
| `VolumeHeaders.PlainHeaderIsOk` | scripts/extract-fv-shell.py:75-84 | a volume header put together from its fields, without extension: the files start at the first multiple of 8 behind HeaderLength |
| `VolumeHeaders.ExtendedHeaderIsOk` | scripts/extract-fv-shell.py:75-84 | with one: they start behind ExtHeaderOffset + ExtHeaderSize, wherever that is, and HeaderLength says nothing |
| `VolumeHeaders.MissingExtensionRaises` | scripts/extract-fv-shell.py:78-81 | an extended header that is not there raises |
| `VolumeHeaders.UnsignedIsEmpty` | scripts/extract-fv-shell.py:75-76 | what is too short or not signed _FVH has no files |
| `VolumeHeaders.ShortSectionRaises` | scripts/extract-fv-shell.py:128-140 | a GUIDED section below 24 bytes or a COMPRESSION section below 9 raises |
| `VolumeHeaders.CutSizeRaises` | scripts/extract-fv-shell.py:93-95 | a large file whose 64-bit size is cut off raises |
| `VolumeHeaders.CutSectionSizeRaises` | scripts/extract-fv-shell.py:111-112 | a section whose 32-bit size is cut off raises |
| `VolumeHeaders.ShellGuidIs` | scripts/extract-fv-shell.py:41 | the Shell's GUID by its fields |
| `VolumeHeaders.LzmaGuidIs` | scripts/extract-fv-shell.py:43 | the LZMA codec's GUID by its fields |
| `FirmwareTree.ErasedTail` | scripts/extract-fv-shell.py:80-102 | erased flash after the files ends the walk quietly if and only if it is shorter than 24 or at least 32 bytes; between, the walk raises |
| `FirmwareTree.FirstShellIsFirst` | scripts/extract-fv-shell.py:123-159 | the expected answer is the first image of a Shell file in document order, and none if and only if there is none |
| `FirmwareTree.SearchSectionFinds` | scripts/extract-fv-shell.py:123-151 | searching one section, of any nesting, finds exactly that |
| `FirmwareTree.SearchSectionsFinds` | scripts/extract-fv-shell.py:123-151 | searching a section stream finds exactly that |
| `FirmwareTree.SearchVolumeFinds` | scripts/extract-fv-shell.py:154-159 | searching the layout of any nested volume returns exactly the first PE32 or TE body whose innermost enclosing file is the Shell |
| `FirmwareTree.ScanInvertsLayout` | scripts/extract-fv-shell.py:162-174 | the scan finds the volumes where they were laid out, whatever bytes without a plausible header lie before, between and behind them |
| `FirmwareTree.ExtractFinds` | scripts/extract-fv-shell.py:177-183 | extraction from an image of volumes and gaps returns the first volume's Shell that starts with MZ, as the trees show |
| `WideSections.LengthIsTakenForHead` | scripts/extract-fv-shell.py:138-146 | of a COMPRESSION section with an extended header, the low byte of the length is taken for the scheme and the rest of it for the head of a section |
| `WideSections.WideCompressionSearch` | scripts/extract-fv-shell.py:105-146 | what the search of such a section gives, for every length field and every content |
| `WideSections.MissedShowsContentIff` | scripts/extract-fv-shell.py:138-151 | where the walk misses the content, that is right if and only if there is no Shell inside |
| `WideSections.WideCompressionShowsIff` | scripts/extract-fv-shell.py:138-151 | the search shows the content whatever it is if and only if the length field is 0x400 |
| `WideSections.TruthfulLengthShowsIff` | scripts/extract-fv-shell.py:138-151 | with the true length in the field: if and only if the content is 1024 bytes long, or too short to hold a section |
| `WideSections.WideGuidedSearch` | scripts/extract-fv-shell.py:128-137 | of a GUIDED section with an extended header, the codec is read four bytes early |
| `WideSections.WideLzmaIsMissed` | scripts/extract-fv-shell.py:128-137 | every LZMA section with an extended header is passed over |
| `WideSections.WideLzmaShowsIff` | scripts/extract-fv-shell.py:128-151 | which is right if and only if there is no Shell inside |
| `TopoSort.OrderedIsAcyclic` | scripts/generate-uefi-headers-v2.py:464-525 | a node placed after all its dependencies neither lies on a cycle nor depends on one |
| `TopoSort.StuckReachesCycle` | scripts/generate-uefi-headers-v2.py:520-523 | in a finite set where every node depends on another of the set, every node reaches a cycle |
| `TopoSort.Release` | scripts/generate-uefi-headers-v2.py:509-515 | the inner loop drops the node everywhere and reports exactly the nodes it was the last dependency of |
| `TopoSort.Kahn` | scripts/generate-uefi-headers-v2.py:498-518 | the queue places, dependencies first, exactly the nodes that reach no cycle; dependency-free nodes come first, by key; every other node comes in the turn of the last of its dependencies, by key where one node makes several ready |
| `TopoSort.AppendCyclic` | scripts/generate-uefi-headers-v2.py:520-523 | a permutation: the cyclic nodes follow in input order |
| `TopoSort.TopoOrder` | scripts/generate-uefi-headers-v2.py:464-525 | on every graph: a permutation whose front has every block after its dependencies and in turn, and whose tail is exactly the blocks that reach a cycle, in input order |
| `TopoSort.AcyclicIsOrdered` | scripts/generate-uefi-headers-v2.py:464-525 | the whole output has dependencies first if and only if the graph is acyclic |
| `TopoSort.NameTable` | scripts/generate-uefi-headers-v2.py:466-473 | a type name refers to the last block that declares it |
| `TopoSort.BuildGraph` | scripts/generate-uefi-headers-v2.py:475-481 | a block depends on exactly the other blocks its member types refer to |
| `TopoSort.EdgeIff` | scripts/generate-uefi-headers-v2.py:475-481 | an edge is another block, the last of its name, whose name is the type of a member |
| `TopoSort.CountDependents` | scripts/generate-uefi-headers-v2.py:483-487 | how many blocks depend on each |
| `TopoSort.DependentsAre` | scripts/generate-uefi-headers-v2.py:483-487 | the number of the blocks that depend on one |
| `TopoSort.SortByAscends` | scripts/generate-uefi-headers-v2.py:493-499 | sorting by key ascends in the key |
| `TopoSort.TopoSortStructs` | scripts/generate-uefi-headers-v2.py:464-525 | the order over the graph of the blocks themselves: blocks come in the turn of the last of their dependencies, most depended-upon first, ties in document order |
| `TopoSort.ReorderBlocks` | scripts/generate-uefi-headers-v2.py:593-613 | every block once; non-structs first, by priority and then document order; then the structs in dependency order and in turn |
| `CLexer.LexIsLossless` | scripts/check-output-ascii.py:46-98 | the tokens of a text spell it: no character is skipped or read twice |
| `CSource.EveryTextHasParts` | scripts/check-output-ascii.py:46-98 | every text is a sequence of code, comments and literals, the last perhaps left open |
| `CSource.LexReadsParts` | scripts/check-output-ascii.py:46-98 | the automaton goes through exactly those parts |
| `Blanking.BlankNoncode` | scripts/check-dogfood.py:188-253 | the state machine loop computes the blanking function |
| `Blanking.StripNoise` | scripts/check-test-registered.py:60-99 | the jump scanner loop computes the stripping function |
| `Blanking.SkipLiteral` | scripts/check-test-registered.py:89-92 | the inner loop finds the end of a literal, clipped to the text |
| `Blanking.StripRenders` | scripts/check-test-registered.py:60-99 | the jump scanner equals the per-character automaton on every text |
| `Blanking.StripKeepsLines` | scripts/check-test-registered.py:60-62 | on every text: same length, every line break in place, only spaces added |
| `CSource.StripShows` | scripts/check-test-registered.py:60-99 | of every text the jump scanner shows the code, and spaces and line breaks for comments and literals |
| `Blanking.BlankCounts` | scripts/check-dogfood.py:236-240 | the state machine loses exactly the line breaks that literals escape, and gains one character exactly when the text ends on a backslash inside a literal |
| `CSource.BlankShows` | scripts/check-dogfood.py:188-253 | the state machine does the same, but shows every escape as two spaces |
| `Blanking.ScannersAgreeIff` | scripts/check-dogfood.py:188-253 | the two scanners agree on a text if and only if no literal escapes a line break or the end of the text |
| `Blanking.BlankKeepsLinesIff` | scripts/check-dogfood.py:188-191 | the state machine keeps length and line breaks under exactly that condition, not always as its description says |
| `Blanking.BlankLosesALine` | scripts/check-dogfood.py:236-240 | a continued string literal loses its line break |
| `AsciiFix.ScanText` | scripts/check-output-ascii.py:46-104 | the loop reports exactly the non-ASCII characters of literals with their line counter |
| `CSource.ScanFinds` | scripts/check-output-ascii.py:46-104 | of every text the scan reports exactly the non-ASCII characters of its literals that no backslash escapes, in order |
| `AsciiFix.FixText` | scripts/check-output-ascii.py:107-151 | the loop writes the text of the rewritten tokens and counts the replacements |
| `CSource.FixSwaps` | scripts/check-output-ascii.py:35-151 | of every text without markers the fix is the text with dashes, arrows, ellipses and curly quotes of its literals replaced by -, ->, <-, ... and a straight quote |
| `AsciiFix.FixedTextRescans` | scripts/check-output-ascii.py:107-151 | re-scanning the fixed text goes through the rewritten tokens, each in the state it had, if and only if no curly quote is replaced inside a character literal |
| `AsciiFix.CurlyQuoteClosesEarly` | scripts/check-output-ascii.py:35-43 | the replacement of a curly quote in a character literal ends the literal |
| `AsciiFix.RewriteKeepsUnquoted` | scripts/check-output-ascii.py:107-151 | code and comments are not touched |
| `CSource.TokensOutside` | scripts/check-output-ascii.py:107-151 | which are all of the text but what is inside literals |
| `AsciiFix.RewriteKeepsFindings` | scripts/check-output-ascii.py:46-151 | exactly the findings without an ASCII spelling or on an allowed line remain |
| `AsciiFix.FixAddsMarkers` | scripts/check-output-ascii.py:112 | no marked line loses its marker through the replacements; some may gain one |
| `AsciiFix.HasMarkerIff` | scripts/check-output-ascii.py:112 | a line is marked exactly if ascii-allow stands somewhere in it |
| `AsciiFix.FixIsFinal` | scripts/check-output-ascii.py:107-151 | for every text where no curly quote is replaced inside a character literal: code and comments survive, the remaining findings are exact, a second fix changes nothing |
| `AsciiFix.FixClearsReport` | scripts/check-output-ascii.py:154-167 | what is printed after a fix is what was printed before, less the mapped characters and newly marked lines |
| `AsciiLines.LineCounterCounts` | scripts/check-output-ascii.py:51-61 | the line counter counts every line feed but those that literals escape |
| `AsciiLines.LineHolding` | scripts/check-output-ascii.py:112 | every character but a line feed lies in the entry of `splitlines` numbered by the lines that end before it |
| `AsciiLines.NumberIsLineIff` | scripts/check-output-ascii.py:46-104 | for every text and finding: its number is that of the line that holds it if and only if no literal before it escapes a line feed and no line before it ends in anything but one |
| `AsciiLines.OwnMarkerExempts` | scripts/check-output-ascii.py:107-167 | a finding so numbered is exempt if and only if its own line carries the marker |
| `AsciiLines.EscapedFeedLags` | scripts/check-output-ascii.py:92-95 | a finding after a continued literal is filed under the line above |
| `AsciiLines.FormFeedLags` | scripts/check-output-ascii.py:107-151 | a form feed earlier in the text: the marker on the finding's own line is not seen and the line is rewritten |
| `PyText.SplitUnlines` | scripts/_ids_parser.py:114 | lines that hold no break come back from splitting |
| `StackWalk.BuildStackMem` | scripts/rsod-decode.py:1397-1417 | the packed buffer of the samples in the top 4 MiB |
| `StackWalk.PackAll` | scripts/rsod-decode.py:1410-1416 | the loop writes every sample into the buffer, later ones over earlier ones |
| `StackWalk.PackedLoad` | scripts/rsod-decode.py:1397-1417 | a word of the buffer is the last sample packed there, or 0 in a hole |
| `StackWalk.SampledWord` | scripts/rsod-decode.py:1397-1417 | a sampled word holds the greatest of its values: the value itself where it was sampled once |
| `StackWalk.HoleReadsZero` | scripts/rsod-decode.py:1399-1403 | a word of a hole reads 0 |
| `StackWalk.BufferIsImage` | scripts/rsod-decode.py:1397-1417 | for every dump of aligned addresses sampled once, the buffer is the image of its top 4 MiB |
| `StackWalk.WalkFpChain` | scripts/rsod-decode.py:1420-1453 | the loop collects the return addresses of the walk behind the seed |
| `StackWalk.WalkRecoversChain` | scripts/rsod-decode.py:1420-1453 | on either architecture, a chain of frames sampled in the dump is recovered in order, up to the frame limit |
| `StackWalk.WalkIsChain` | scripts/rsod-decode.py:1420-1453 | on any memory, a chain that is linked there and ends where no frame can be, or reaches the limit, is what the walk returns |
| `StackWalk.WalkInventsNothing` | scripts/rsod-decode.py:1420-1453 | on any memory, what the walk returns is a chain that is there, no longer than the limit |
| `StackWalk.RecoverBacktrace` | scripts/rsod-decode.py:1456-1504 | the recovered list as a function of the dump and the registers, for both architectures |
| `StackWalk.BacktraceIsChain` | scripts/rsod-decode.py:1456-1504 | an x64 crash: RIP or IP first, then the chain's return addresses in order up to the limit, less the first exactly when it equals the fault; without either register, those addresses |
| `StackWalk.BacktraceIsChainBehindLink` | scripts/rsod-decode.py:1456-1504 | an AArch64 crash, the same with ELR, and LR, unless zero, before the chain, whose frames may lie in any order |
| `StackWalk.NothingToWalk` | scripts/rsod-decode.py:1461-1485 | no dump, or no register that can be a frame pointer: no backtrace |
| `StackWalk.LinkSurvives` | scripts/rsod-decode.py:1486-1503 | a frame pointer outside the dump loses the frames and keeps the link register |
| `LintCache.FileHashes` | scripts/lint-cache.py:48-57 | the digest of each file, or MISSING |
| `LintCache.Keys` | scripts/lint-cache.py:89-111 | the key of each unit, or none without a dependency record |
| `LintCache.SnapshotShows` | scripts/lint-cache.py:93-110 | a key covers each file of the record, found below the root unless its name is absolute, or its absence |
| `LintCache.SnapshotShowsOnly` | scripts/lint-cache.py:93-110 | and no other, and the salt |
| `PyText.SortedIff` | scripts/lint-cache.py:107 | sorting forgets the order of a list and nothing else |
| `LintCache.CacheDir.Filter` | scripts/lint-cache.py:123-142 | prints exactly the units without a key or whose key is not in the cache |
| `LintCache.CacheDir.Record` | scripts/lint-cache.py:144-149 | adds exactly the keys of the units |
| `LintCache.CleanPassIsRemembered` | scripts/lint-cache.py:132-149 | after a clean pass none of its units with a record is linted again while nothing changes |
| `LintCache.PassRemembersOnlyLinted` | scripts/lint-cache.py:144-149 | a pass adds keys only for units it was given, of snapshots without findings, and none after a finding |
| `LintCache.RebuildFilesRecord` | scripts/lint-cache.py:80-86 | a build files its record under its first prerequisite and touches no other |
| `LintMessage.FixedPathsDecode` | scripts/lint-cache.py:105-110 | for a fixed list of paths, whatever they are, the hashed text determines every file's contents, from the alphabet of digests and MISSING alone |
| `LintMessage.HexDigitIs` | scripts/lint-cache.py:48-57 | the alphabet of digests |
| `LintMessage.BodyDecodes` | scripts/lint-cache.py:105-110 | path list and contents can be read back if a path that continues another does so with a character no hash starts with, as axl-json.hpp does axl-json.h |
| `LintMessage.MessageDecodes` | scripts/lint-cache.py:104-110 | so can the salt, if salts end in a line break |
| `LintMessage.ConfusableIff` | scripts/lint-cache.py:104-110 | exactly when two salts and path lists can give one message: some hash without collisions and some contents make the messages equal if and only if, for some choice of which files are there, their fixed characters lie compatibly |
| `LintMessage.EqualMessagesConfuse` | scripts/lint-cache.py:104-110 | equal messages come from heads that are so confusable |
| `LintMessage.GoodHeadsApart` | scripts/lint-cache.py:104-110 | with salts that end in a line break and such paths, a head is confusable with itself and nothing else |
| `LintMessage.PathListsRunTogether` | scripts/lint-cache.py:105-110 | two path lists with one message, whatever the hash |
| `LintMessage.SaltAndPathRunTogether` | scripts/lint-cache.py:104-110 | two salts and paths with one message, whatever the hash |
| `LintCache.GoodHeadsMakeGoodSetting` | scripts/lint-cache.py:104-110 | line breaks after salts and such paths are enough for the theorems on runs |
| `LintCache.SiblingHeadersAreGood` | scripts/lint-cache.py:105-110 | a C++ header beside the C header whose name it continues is no obstacle |
| `LintCache.KeyDetermines` | scripts/lint-cache.py:89-111 | equal keys mean equal unit, salt and dependency contents, if no two heads linted are confusable and each belongs to one unit |
| `LintCache.StepKeepsSound` | scripts/lint-cache.py:132-149 | every edit, rebuild, salt change and lint pass keeps every cache entry standing for a finding-free snapshot |
| `LintCache.SkipIsNeverWrong` | scripts/lint-cache.py:14-32 | over every run of edits, rebuilds, salt changes and lint passes from an empty cache, a unit that a filter leaves out is one the checker would find nothing in; asked only of the units given to passes |
| `LintCache.SharedKeyIff` | scripts/lint-cache.py:89-111 | two units of one tree share a key if and only if their records name the same files, in whatever order |
| `LintCache.MutualIncludesShareKey` | scripts/lint-cache.py:105 | as two units do that include each other's source |
| `LintCache.SkipIffSameMessage` | scripts/lint-cache.py:132-149 | recording one unit makes another one skipped, on this tree or a later one, if and only if their messages are equal |
| `IdsParser.ParseIds` | scripts/_ids_parser.py:79-183 | the loop collects the rows of the state machine into the parsed lists |
| `IdsParser.ClassLine` | scripts/_ids_parser.py:131-157 | one line of the class section |
| `IdsParser.VendorLine` | scripts/_ids_parser.py:159-181 | one line of the vendor section, with the vendor filter |
| `IdsParser.FilterCommutes` | scripts/_ids_parser.py:96-103 | parsing with a vendor filter is parsing without it and restricting devices and subsystems; vendors and classes are unchanged |
| `IdsLines.NamedReads` | scripts/_ids_parser.py:63-72 | a number in digits of either case, any whitespace, a name and any whitespace after it are read as number and name |
| `IdsLines.NamedIsRead` | scripts/_ids_parser.py:63-72 | whatever is read has that form |
| `IdsLines.HexDigitIs` | scripts/_ids_parser.py:63-72 | exactly the 22 hexadecimal digits are digits |
| `IdsLines.DigitValueIs` | scripts/_ids_parser.py:63-72 | and have their value in either case |
| `IdsLines.CommentsMakeNoDifference` | scripts/_ids_parser.py:113-115 | blank lines and comments can be left out anywhere |
| `IdsLines.ClassSectionIsFinal` | scripts/_ids_parser.py:117-157 | behind the first class nothing is taken for a vendor, device or subsystem |
| `IdsLines.ForeignSectionIsDropped` | scripts/_ids_parser.py:145-157 | the other taxonomies of usb.ids add nothing to the last class |
| `IdsLines.NoSubsystems` | scripts/_ids_parser.py:159-163 | a format without subsystems has none, whatever the text |
| `IdsLines.MalformedIsSkipped` | scripts/_ids_parser.py:159-183 | a line without a number in its place adds nothing and changes nothing |
| `IdsText.LinesReadBack` | scripts/_ids_parser.py:79-183 | every line of a printed database comes back as the row it was printed from |
| `IdsText.ParseInvertsPrint` | scripts/_ids_parser.py:7-17 | parsing the text of any vendor, device, subsystem and class tree gives exactly its rows, in order |
| `IdsEmit.QuoteReadsBack` | scripts/_ids_parser.py:193-198 | a quoted name reads back as itself and ends where it was ended (JSON5 section 5.1) |
| `IdsEmit.EmitHierarchical` | scripts/pci-ids-to-json5.py:89-132 | the grouping and the nested loops produce the schema 2 tree |
| `IdsEmit.DevicesConservedIff` | scripts/pci-ids-to-json5.py:64-132 | schema 2 holds the device rows of schema 1, each as often, if and only if every vendor that has devices is listed once |
| `IdsEmit.DictionaryCounts` | scripts/_ids_parser.py:162-168 | the dictionary files every subsystem under its own device and no other |
| `IdsEmit.FlatListIsOwned` | scripts/_ids_parser.py:164-168 | the flat list of subsystems is the same list without the devices |
| `IdsEmit.SubsystemsConservedIff` | scripts/pci-ids-to-json5.py:64-132 | schema 2 holds the subsystems of schema 1, each under its own device, if and only if every such device has one row and its vendor one listing |
| `IdsEmit.ParsedIsRooted` | scripts/_ids_parser.py:159-181 | every parsed device's vendor was listed and every subsystem's device has a row, with any filter |
| `IdsEmit.EmissionConservesIff` | scripts/pci-ids-to-json5.py:64-132 | for every text: devices and subsystems are conserved if and only if no such vendor is listed twice and no such device has two rows |
| `IdsTrip.TextToTree` | scripts/pci-ids-to-json5.py:89-132 | a database with ids of their own, printed, parsed and emitted, is the same tree |
| `ClassEmit.EmitClasses` | scripts/pci-ids-to-json5.py:167-241 | the grouping and nested loops produce the classes block |
| `ClassEmit.CodesAscend` | scripts/pci-ids-to-json5.py:190-204 | codes come out sorted, each once |
| `ClassEmit.ProgsConserved` | scripts/pci-ids-to-json5.py:167-241 | whatever was parsed, repeated or unnamed, the block holds every programming interface, each as often as it was parsed |
| `ClassEmit.BaseNamesSurvive` | scripts/pci-ids-to-json5.py:181-218 | a named base class comes out under its code with the last name it was given |
| `ClassEmit.SubNamesSurvive` | scripts/pci-ids-to-json5.py:183-231 | a named subclass comes out under its base with the last name it was given |
| `ClassBlock.ClassesAre` | scripts/pci-ids-to-json5.py:167-241 | for any parsed rows: the bases and subclasses that occur and no others, each once and by code, with the last name given or none, and under each its interfaces, by number and name, as often as parsed |
| `Symbols.MapLookup` | scripts/rsod-decode.py:1942-1951 | the greatest symbol at or below the address, the last in the map where several share it, and none if and only if there is none |
| `Symbols.LastAtKept` | scripts/rsod-decode.py:1880-1890 | sorting keeps the order of symbols at one address |
| `Symbols.ResolveAddressMap` | scripts/rsod-decode.py:1954-1988 | of the map's symbols from the preferred base on, the nearest at or below the offset, start + offset = the offset asked for; unresolved if and only if there is none |
| `Symbols.SecondAttemptIsIdle` | scripts/rsod-decode.py:1970-1986 | the second attempt never changes a miss |
| `Symbols.Image.CheckSizes` | scripts/rsod-decode.py:1708-1737 | appends exactly the size warnings |
| `Symbols.WarningsSay` | scripts/rsod-decode.py:1708-1737 | when each of the three warnings is given and what it quotes, against the first record of the image in the dump |
| `Symbols.ConsistentIsSilent` | scripts/rsod-decode.py:1688-1737 | a consistent image, map and dump, with the link base known, is never accused |
| `Symbols.AccusedIffSizesDiffer` | scripts/rsod-decode.py:1708-1714 | an image whose map fits it is silent if and only if the dump has no record of it or one of the same size |
| `Symbols.SilentIffBaseReaches` | scripts/rsod-decode.py:1348-1358 | a consistent image, map and dump, measured from any base: silent if and only if the last symbol lies below that base plus the image size |
| `Symbols.UnknownLinkBaseAccuses` | scripts/rsod-decode.py:1348-1358 | so with the base unknown, taken as 0, every map linked at or above the image size is accused |
| `PdbIdentity.GuidStringInjective` | scripts/rsod-decode.py:890-904 | two GUIDs that print alike are the same 16 bytes |
| `PdbIdentity.GuidPrintsPairs` | scripts/rsod-decode.py:890-904 | which byte of a GUID is printed where: the first three fields back to front, the others as stored |
| `PdbIdentity.PairPrints` | scripts/rsod-decode.py:902-903 | a byte is printed as its two upper-case digits |
| `PdbIdentity.NullGuidPrints` | scripts/rsod-decode.py:902-903 | sixteen zero bytes print as the null GUID |
| `PdbIdentity.DirectoryReads` | scripts/rsod-decode.py:988-1003 | the stream directory gives back the blocks of stream 1 |
| `PdbIdentity.IdentityReads` | scripts/rsod-decode.py:963-1011 | the identity of every PDB laid out in blocks, wherever and in whatever order they lie, is read through both block indirections |
| `PdbIdentity.UnsignedIsUnreadable` | scripts/rsod-decode.py:977-985 | a file without the MSF signature, or whose superblock gives no block size or no directory, has no identity |
| `PdbChoice.ScanDirectory` | scripts/rsod-decode.py:1185-1194 | the loop finds the first matching PDB of the sorted directory |
| `PdbChoice.IsPdbNameIff` | scripts/rsod-decode.py:1186-1187 | any case of .pdb at the end of the name |
| `PdbChoice.ImageSymbols.ResolvePdb` | scripts/rsod-decode.py:1153-1252 | a PDB that is used is the one the user named, else the one beside the image, else the first of the directory with the image's GUID and age; which field is set, and which note and warning left, in every case |
| `PdbChoice.ChooseIs` | scripts/rsod-decode.py:1178-1194 | named by the user goes before the recorded name beside the image, and that before the alphabetically first .pdb of the directory with the wanted identity |
| `PdbChoice.NothingChosenIff` | scripts/rsod-decode.py:1178-1196 | nothing is chosen exactly when none of the three is there |
| `PdbChoice.UsedIffUsable` | scripts/rsod-decode.py:1209-1250 | a candidate is used exactly if it is not of another build and can be presented to an installed tool under the recorded name; otherwise one note says why not |
| `PdbChoice.UsedPdbAgrees` | scripts/rsod-decode.py:1209-1219 | against an image with a GUID, a PDB whose identity the reader returns, whole or not, is used only if all 16 GUID bytes and the age agree |
| `PdbChoice.RenamedPdbIsFound` | scripts/rsod-decode.py:1180-1194 | a PDB renamed on disk is found by its identity |

## Left out

- `_emit_v1_flat`: it prints the parsed lists as they are, so those lists stand for schema 1.
- The compute-sweep builder and the timing, calibration and reporting of tools/axbench.c: arithmetic on measured times.
- `check_interrupt`: leaving a wave on Ctrl-C is not modelled, nor 64-bit wrap-around of the microsecond clock.
- After a stalled wave the benchmark goes on with a pool that may still hold tasks; the model states exactness for waves that begin idle and conservation for all, but nothing about the results of a wave after a stall.
- Pool creation, worker start-up, shutdown and unusable slots: the model starts from a pool whose workers run.
- Blur.BuildTiles: images are at most 2^31 rows high, far above the cap the program sizes its image with; beyond that the 32-bit row counter could wrap.
- PeStamp.Run: reads the C code makes without a bounds check are an explicit error in the model, so nothing is said about what the program does there; file I/O and deriving the name from the path are not modelled.
- PeStamp.StampIsIdempotent: says nothing of layouts in which a run overwrites what it reads; some of those fail, and whether one does can depend on the bytes of the id written.
- The recursion limit of the Python interpreter: searches take the number of nested streams still allowed as a parameter, and the theorems hold for every tree that fits it.
- LZMA, SHA-256, gdb, objdump, nm, addr2line, git and make: foreign tools.
- The regular expressions that scrape headers, crash logs and linker maps: the models start from the parsed blocks, samples, registers and symbols. The patterns of the id databases are modelled, as the fields they match.
- The forward declarations `reorder_blocks` puts first: text assembly from regular expressions.
- `validate_image`, beyond its size gates: timestamps are notes, and instruction boundaries need a disassembler.
- `os.path.normpath` and the .d files: the lint cache model starts from normalised names and parsed records.
- `_read_pe_codeview` and staging by symbolic link: header parsing of the kind PeStamp covers, and file-system plumbing; whether staging works is a parameter.
- scripts/usb-ids-to-json5.py: the same grouping with one level fewer.
- StackWalk.RecoverBacktrace: addresses and values are natural numbers, as the crash log prints them.
- The gate scripts that compare lists and names, the 9P and ATA tools, downloads, colours and report formatting.
