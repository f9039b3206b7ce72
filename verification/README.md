# Proofs about the Macintosh core's host-side tools

Seven host-side components of the repository are modelled here, each in the form
its source has, and the properties its comments, tests and data formats promise
are proved for all inputs. `dafny verify dfyconfig.toml` checks everything.

| component | source | files |
|---|---|---|
| 68000 test-program emitter | `SingleStepTests/macos_bench/cpu_bench.c`, `SingleStepTests/gen/cpu_test_macii.c` | `M68k`, `StateDump`, `Harness`, `HarnessRuns` |
| Apple GCR decoder and field scanners | `scripts/gcr_data_census.py`, `scripts/gcr_census.py`, encoder in `rtl/floppy_track_encoder.v` | `GcrCodec`, `GcrSums`, `GcrDecoder`, `GcrLayout`, `GcrCensus`, `GcrAddressCensus` |
| HFS fork reassembly and B-tree leaf walk | `scripts/hfs_check.py` | `HfsFork`, `HfsContent`, `HfsTree`, `HfsProblems`, `HfsPrint` |
| Simulated block device | `verilator/sim/sim_blkdevice.cpp` | `BlockDevice`, `BlockProtocol`, `BlockBursts`, `BlockMounts` |
| Download bus | `verilator/sim/sim_bus.cpp` | `DownloadBus` |
| Instruction trace window | `verilator/sim_main.cpp` | `TraceWindow`, `TraceRuns`, `TraceLines` |
| Integer video scaler | `scripts/aspect_check.py` | `AspectScaler` |
| PMMU corpus relocation | `SingleStepTests/gen/pmmu_diff_corpus.py` | `PmmuReloc`, `PmmuWalk` |

`Basics` holds the few types they share.

**Emitter.** `M68k` is an interpreter of the emitted instructions (MOVEQ, SUBA,
MOVEA, MOVE.L to and from absolute addresses, MOVE to and from CCR, SUBQ, RTS;
section 4 of the M68000 Family Programmer's Reference Manual). A processor core
is any state transformer that agrees with it on those instructions
(`Implements`); preload and test bytes are left to the core, as deterministic
transformers of the registers, CCR and scratch memory that end where their bytes
end. `Harness.Builder` writes the bytes as the C code does; `HarnessRuns` proves
what any such core does with them.

**GCR.** `GcrCodec` has the encoder's nibbler and the decoder with their three
carry-coupled sums; `GcrSums` says in integers what those sums are, one 24-bit
number that is rotated and added to group by group; `GcrDecoder` has the decoding
loops, proved against both. `GcrCensus` and `GcrAddressCensus` are the two
scanners over a raw byte stream, with printers that write well-formed captures
from track, side, sector and format numbers to compare against.

**HFS.** The walk over inline extents and overflow records is proved to deliver
the mathematical file content (chapter 2 of Inside Macintosh: Files), for any
overflow map, including cyclic and empty records; the leaf walk for any nodes and
any link graph. `HfsProblems` says, on any bytes, what loading a tree reports and
files. `HfsPrint` prints records, leaf nodes and whole tree files to
compare the loader against.

**Block device and download bus.** Per-tick state machines as classes whose
methods are proved against a step function; protocol invariants, exact transfers
and whole-run results are lemmas about that function. Every tick carries the
simulation time it comes at, in any order and with any gaps.

**Trace, scaler, relocation.** The eight-entry window against a sweep over the
whole straight-line run, for any instruction-length function, and the log line by
line against the fetch history; the scaler's floor
divisions with their 12-bit cuts; table walks (section 9 of the MC68030 User's
Manual) before and after relocation.

## Where code and documentation disagree

The model follows the code. Each case is a lemma.

- The comment at `SingleStepTests/gen/cpu_test_macii.c:120-129` says the initial
  dump records the CCR the test inherits. The `MOVE.L A7,saved_a7` at line 185
  comes after the dump and sets N and Z. `HarnessRuns.CcrPromise` gives the exact
  condition; for `cpu_bench.c` the comment is right.
- `scripts/gcr_data_census.py:26` promises exit code 0 only if every decoded data
  field is clean and content-correct. A data field before any address field is
  called ORPHAN but leaves the flag set (lines 188-190), so a lone orphan with any
  content is reported clean (`GcrCensus.OrphanReportedClean`). Success means
  "all verified" exactly when the stream has an acceptable address field before
  its first data mark (`GcrCensus.SuccessMeansVerified`).
- `verilator/sim_main.cpp:111-112` speaks of five buffered fetches (there are
  eight), and line 966 says a full buffer should not happen in practice. It is
  full after every eight sequential fetches. The shift is limited to eight words,
  so instructions of nine to eleven words can put an operand into the log as an
  opcode; `TraceRuns.TraceIsLinearIff` says exactly when, for whole histories.
- `verilator/sim/sim_bus.h:23-25`: the two-argument chunk constructor initialises
  a temporary, so a chunk queued with `QueueDownload(file, index)` has an empty
  name and sends nothing (`DownloadBus.TwoArgumentFormSendsNothing`). The chunk
  index is compared with an 8-bit pin, so an index outside 0..255 always restarts
  the address (`DownloadBus.ContinuesIff`).
- `verilator/sim/sim_blkdevice.cpp:145`: `img_mounted` has eight bits and there are
  ten disks. A queued mount is announced exactly when its disk is below 8
  (`BlockMounts.AnnouncedIff`, `BlockMounts.QueueSettles`).
- `verilator/sim/sim_blkdevice.cpp:86-87` waits until the computer has booted. The
  64-bit time of `verilator/sim_main.cpp:307` arrives as an `int`, so the device
  works exactly at times whose low 32 bits are from 2000 up to 2^31 - 1, and rests
  again for as long as they read as a smaller number (`BlockProtocol.CallIs`,
  `BlockProtocol.AsleepRun`).
- `scripts/gcr_data_census.py:145` stops ten bytes before the end, so an address
  field in the very last ten bytes is not read, while `scripts/gcr_census.py:56`
  reads it (`GcrCensus.ScanOfPrint`, `GcrAddressCensus.CleanCapture`).
- `scripts/aspect_check.py:66-67` calls mode 3 the wider one. For a target below one
  source width it shows two widths where one is already wider than the target
  (`AspectScaler.NarrowTarget`); a ratio of 0:0 ignores the panel's height
  (`AspectScaler.ZeroRatio`).
- `scripts/aspect_check.py:93-115` demands the best 4:3 multiple inside the panel
  in every mode. Write `full` for the source width times the source heights the
  panel holds, and `cut` for `full` modulo 4096. Modes 2 and 3 show the best
  multiple exactly when `full` is below 4096 or the multiple taken from `cut` is
  wider than the panel (`AspectScaler.BestFitIff`). Mode 1 shows it exactly when
  `full` is at most the panel width, or the multiple taken from `cut` is wider
  than the panel and the panel width is a multiple of the source's
  (`AspectScaler.VIntegerBestIff`), and overflows exactly when `cut` is wider than
  the panel with no source multiple between (`AspectScaler.OwnRatioOverflowsIff`).
- `SingleStepTests/gen/pmmu_diff_corpus.py:69-75` ors the flags onto the moved
  address. A page descriptor, whatever its flags, keeps page and flags exactly
  when the page's target is 256-byte aligned, which the 16-byte aligned tables and
  stack need not be (`PmmuReloc.PageDescKeptIff`, `PmmuReloc.SmallPageLosesFlags`);
  walks that end on a page commute exactly then (`PmmuWalk.WalkCommutes`).

## Model

| member | source | states |
|---|---|---|
| M68k.DecodeEncode | SingleStepTests/macos_bench/cpu_bench.c:74-91 | every emitted instruction form, placed anywhere, decodes back to itself with its exact length |
| M68k.OpcodeFields | SingleStepTests/macos_bench/cpu_bench.c:80-91 | the first words in the manual's fields: operation, registers, size, source mode and register |
| M68k.CcrBits | SingleStepTests/macos_bench/cpu_bench.c:39-40 | the condition code byte has X N Z V C in its five low bits, and nothing else |
| M68k.CodeRuns | SingleStepTests/macos_bench/cpu_bench.c:66-67 | any processor agreeing with the reference on the emitted subset executes loaded straight-line code as the instruction list says, if the code does not overwrite itself |
| M68k.ReferenceImplements | SingleStepTests/macos_bench/cpu_bench.c:69-73 | the reference interpreter itself is such a processor, so the results are not empty |
| StateDump.DumpEffect | SingleStepTests/macos_bench/cpu_bench.c:109-126 | from any state, the dump leaves D0-D7, A0-A7, X and all memory outside the snapshot unchanged, N and Z as the last scratch long has them, V and C clear, and fills the snapshot with d, a, ram and the CCR of entry (final dump) or exit (initial dump) |
| StateDump.DumpRuns | SingleStepTests/gen/cpu_test_macii.c:130-147 | the dump's bytes, executed by any such processor, have exactly that effect |
| Harness.Builder.PutW | SingleStepTests/macos_bench/cpu_bench.c:74 | appends the big-endian word and moves the write pointer; bytes already written stay |
| Harness.Builder.PutL | SingleStepTests/macos_bench/cpu_bench.c:75-78 | the same for a long word |
| Harness.Builder.EmitStateDump | SingleStepTests/macos_bench/cpu_bench.c:109-126 | the three loops write exactly the encoding of the dump's instruction list |
| Harness.Builder.BuildBench | SingleStepTests/macos_bench/cpu_bench.c:142-204 | the buffer holds exactly the specified program, init_pc and final_pc enclose exactly the test bytes, and the A7 reload is there if and only if the name contains "RTD #" and not "RTD #0" |
| Harness.Builder.BuildBracketed | SingleStepTests/gen/cpu_test_macii.c:150-207 | the same with the A7 save and restore around the test |
| Harness.ProgramLength | SingleStepTests/macos_bench/cpu_bench.c:66-67 | the exact program length; it fits 1024 bytes for every preload of at most 30 and test of at most 18 bytes |
| HarnessRuns.PrologueEffect | SingleStepTests/macos_bench/cpu_bench.c:148-164 | whatever the caller left in the registers, the prologue leaves D0-D7 and A0-A5 zero, A6 at scratch, CCR zero |
| HarnessRuns.ReachInit | SingleStepTests/macos_bench/cpu_bench.c:155-178 | from every caller state the program reaches init_pc with D0-D7, A0-A6, scratch and the initial snapshot fixed by the test spec and scratch alone |
| HarnessRuns.ReachReturn | SingleStepTests/gen/cpu_test_macii.c:198-206 | from final_pc, whatever the test left in A7, the RTS pops the JSR return address, and the final snapshot holds the test's own CCR, registers and scratch |
| HarnessRuns.Invoke | SingleStepTests/gen/cpu_test_macii.c:222-230 | a whole invocation: both snapshots record exactly what preload and test computed, and control is back at the caller |
| HarnessRuns.CcrPromise | SingleStepTests/gen/cpu_test_macii.c:114-129 | the initial snapshot's CCR is the one the test inherits, always in cpu_bench.c, and in the bracketed variant if and only if SP and the last scratch long agree in sign and zeroness |
| HarnessRuns.CcrPromiseFails | SingleStepTests/gen/cpu_test_macii.c:182-186 | a run in which it fails: for every layout and every stack below 80000000 the reference processor enters the bracketed program over cleared scratch and reaches init_pc with another CCR than recorded |
| HarnessRuns.InvocationExists | SingleStepTests/gen/cpu_test_macii.c:222-230 | the hypotheses of a whole invocation can be met: the reference processor runs either program with empty preload and test from entry to return |
| GcrCodec.DecInvertsNibble | scripts/gcr_data_census.py:30-40 | the decoding table is exactly the inverse relation of the encoder's alphabet |
| GcrCodec.AlphabetIsRule | scripts/gcr_data_census.py:30-40 | the decodable bytes are exactly those with the top bit set, two adjacent ones below it, and at most one pair of adjacent zeros |
| GcrCodec.NibblesAscend | scripts/gcr_data_census.py:30-40 | the alphabet lists them in ascending order, so this and the rule fix the whole table |
| GcrCodec.MarksOutsideAlphabet | scripts/gcr_data_census.py:30-40 | D5 and AA are not disk bytes |
| GcrSums.GroupIsOneAddition | scripts/gcr_data_census.py:89-104 | one group of three bytes rotates the top byte of the 24-bit sum and adds the bytes and the bit rotated out, modulo 2^24; the three bytes are combined with the rotated byte, the new low and the new middle byte |
| GcrSums.TotalIsChecksum | scripts/gcr_data_census.py:79-106 | the three sums after any run of bytes are that checksum, whole groups and a last partial one |
| GcrSums.KeyIs | scripts/gcr_data_census.py:95-103 | and the next byte is combined with the part of it the position calls for |
| GcrSums.SumsCompare | scripts/gcr_data_census.py:181-184 | the comparison of the three stored bytes succeeds if and only if the 24-bit number in the four checksum symbols is the checksum |
| GcrDecoder.SonyDecode | scripts/gcr_data_census.py:79-106 | the decoding loop, on every list of six-bit values: the number of bytes, each byte the stored one combined with the checksum of those before it, and the three sums the checksum of them all, in integers; it also is the decoding function |
| GcrDecoder.DecodeGroup | scripts/gcr_data_census.py:87-105 | one turn of the outer loop extends the decoded prefix and keeps the three sums |
| GcrCodec.DecodeEncode | rtl/floppy_track_encoder.v:198-254 | the decoder gives back every payload from any common starting sums |
| GcrCodec.SumsAgreeAfterEveryGroup | scripts/gcr_data_census.py:22-23 | after every group of three bytes decoder and encoder have the same c1, c2, c3 |
| GcrCodec.PayloadRoundTrip | scripts/gcr_data_census.py:42-43 | every 524-byte payload becomes 699 values and comes back unchanged |
| GcrCodec.EncodeDecode | scripts/gcr_data_census.py:79-106 | encoding a decoded field gives the field back up to the two spare bits of the last tops value |
| GcrCodec.DecodeInjective | scripts/gcr_data_census.py:79-106 | two fields decode to the same payload if and only if they agree up to those bits |
| GcrCodec.PackSumsBijective | scripts/gcr_data_census.py:181-184 | the four checksum symbols and the three sum bytes are in bijection |
| GcrLayout.SectorOffset | scripts/gcr_data_census.py:50-57 | the zone loop sums the sectors of all earlier tracks, for every track number |
| GcrLayout.BlockInjective | scripts/gcr_data_census.py:60-66 | different sectors of the two-sided disk hold different blocks |
| GcrLayout.BlockSurjective | scripts/gcr_data_census.py:16-18 | each of the 1600 blocks is held by some sector |
| GcrLayout.BlocksInOrder | scripts/gcr_data_census.py:16-18 | blocks number the sectors consecutively: track by track, both sides of a track before the next one on a two-sided disk, one side only on a one-sided one |
| GcrLayout.BuildPattern | scripts/gcr_data_census.py:69-76 | the buffer filled in place is the self-addressing block, byte by byte |
| GcrLayout.PatternIdentifies | scripts/gcr_data_census.py:9-14 | two pattern blocks are equal if and only if their numbers agree in sixteen bits |
| GcrLayout.ContentIdentifiesSector | scripts/gcr_data_census.py:9-14 | the content of a sector tells which sector it is |
| GcrCensus.RunScan | scripts/gcr_data_census.py:142-224 | the index loop over the stream computes the recursive scan |
| GcrCensus.RunCensus | scripts/gcr_data_census.py:126-236 | counts and verdict of a capture, including the empty one |
| GcrCensus.AddressMeans | scripts/gcr_data_census.py:153-155 | track, side, sector and format in numbers, for any four symbols |
| GcrCensus.AddressFromNumbers | scripts/gcr_data_census.py:153-155 | every track below 128, side, sector below 64 and format reads back from its symbols |
| GcrCensus.AcceptedIff | scripts/gcr_data_census.py:147-152 | an address is accepted if and only if its bytes are those printed for some four values, their exclusive or and the trailer |
| GcrCensus.VerdictMeans | scripts/gcr_data_census.py:188-219 | which verdict a data field behind an address gets, exactly: wrong sector, stored and computed 24-bit checksum or trailer, tags, content, in this order |
| GcrCensus.GoodMeansEncoded | scripts/gcr_data_census.py:181-219 | a field counts as good if and only if its symbols are those the encoder emits for the right block, up to the spare bits, with the trailer in place |
| GcrCensus.ScanOfPrint | scripts/gcr_data_census.py:139-236 | scanning any capture printed from track, side, sector and format numbers, with any gaps free of D5 and any cut-off end, finds exactly its fields, in order and in place, each address with those numbers and each data field good; clean exactly when every sector lies on the requested track and side |
| GcrCensus.DamageIsLocal | scripts/gcr_data_census.py:170-175 | a data field with a byte outside the alphabet, of any length, is reported and costs no other field: the scanner resumes with the very next one |
| GcrCensus.FirstFieldDecides | scripts/gcr_data_census.py:145-219 | with the flag set, all fields are good if and only if an acceptable address field comes before the first data mark of the stream |
| GcrCensus.SuccessMeansVerified | scripts/gcr_data_census.py:26 | a reported success means every data field was verified if and only if the stream has that form |
| GcrCensus.OrphanReportedClean | scripts/gcr_data_census.py:188-190 | a lone data field with arbitrary content is reported clean |
| GcrAddressCensus.RunSweep | scripts/gcr_census.py:55-85 | the index loop computes the recursive sweep |
| GcrAddressCensus.RunAddressCensus | scripts/gcr_census.py:46-88 | the reported counts of a capture |
| GcrAddressCensus.CountsPartition | scripts/gcr_census.py:53-83 | on every stream, fields = good + bad + undecodable |
| GcrAddressCensus.KindsAre | scripts/gcr_census.py:57-83 | on any bytes: a field is good if and only if it is the printed one of some four values, undecodable if and only if one of its five symbols is outside the alphabet |
| GcrAddressCensus.OneChangeDetected | scripts/gcr_census.py:5-11 | changing any one symbol or trailer byte of any one field to any other byte leaves every other field good and that field not good |
| GcrAddressCensus.CleanCapture | scripts/gcr_census.py:56-85 | an unchanged capture has only good fields |
| HfsFork.Checker.ReadExtent | scripts/hfs_check.py:89-96 | one extent appends its blocks in order or stops at the first block out of range with one problem |
| HfsFork.Checker.ReadRecord | scripts/hfs_check.py:86-97 | the three slots of a record, empty ones skipped |
| HfsFork.Checker.ReadFork | scripts/hfs_check.py:78-111 | terminates for every record and overflow map; returns the walk's result; each failure adds exactly one problem, success none |
| HfsFork.WalkOfChain | scripts/hfs_check.py:84-107 | over a covering chain of records the walk returns the bytes of the records it uses, in order |
| HfsContent.NeedCovers | scripts/hfs_check.py:80 | `need` blocks hold pylen bytes and no fewer do |
| HfsContent.ForkIsContent | scripts/hfs_check.py:74-111 | a covered fork is read in full: length pylen, each byte from its own allocation block |
| HfsContent.EmptyRecordFails | scripts/hfs_check.py:100-110 | an overflow record without blocks, filed under the count it is found at, ends the walk with a failure |
| HfsContent.ForkSucceedsIff | scripts/hfs_check.py:78-111 | fork_bytes succeeds if and only if some chain of records keyed by the running block count covers the fork |
| HfsContent.WalkEndsBecause | scripts/hfs_check.py:86-110 | every outcome names its true reason: the first block out of range on the chain, the block count at which no record is filed, or an empty record followed by an empty one |
| HfsContent.CutForkIsContent | scripts/hfs_check.py:70-111 | any extent list cut into inline slots and overflow records is reassembled to the first pylen bytes of its blocks |
| HfsTree.FollowsChain | scripts/hfs_check.py:139-151 | on any nodes, readable or not, the leaf walk visits the chain in order, each node once, and yields its records in chain order |
| HfsTree.CycleNeverEnds | scripts/hfs_check.py:142-144 | a chain that returns to a node never reaches 0 |
| HfsTree.CleanIffReachesZero | scripts/hfs_check.py:141-151 | on any nodes, the walk is clean if and only if following links from the first leaf reaches 0 |
| HfsTree.CrashIffUnreadable | scripts/hfs_check.py:146-151 | it ends in an exception if and only if the chain reaches a node whose count, offsets or link cannot be read |
| HfsTree.WalkLeaves | scripts/hfs_check.py:139-151 | the loop with its `seen` set terminates on every link graph and computes that walk |
| HfsTree.CollectOverflow | scripts/hfs_check.py:157-169 | the loop files each well-formed record and reports each malformed one |
| HfsTree.LoadOverflow | scripts/hfs_check.py:153-169 | reads the extents tree through the still empty overflow map, then reports and files what the load of its bytes does |
| HfsTree.FullNodeReadableIff | scripts/hfs_check.py:147-149 | a full node can be read if and only if it claims at most 511 records; past 255 the offsets are read from its end again |
| HfsProblems.HeaderMeans | scripts/hfs_check.py:121-138 | on the file's bytes: when the header is an exception, a wrong type or a wrong node size, what is then reported, and which first leaf is taken otherwise |
| HfsProblems.RecordsRead | scripts/hfs_check.py:157-169 | on any records: an exception if and only if one is too short for its key; otherwise one problem for each key length other than seven and each truncated record, in order, and the map holds for each key the last complete record's extents |
| HfsProblems.TreeReport | scripts/hfs_check.py:121-169 | on any file with a proper header: loading gets through if and only if every node and record reached can be read; it reports the bad records in chain order and then, if and only if the links never reach 0, the node at which the chain repeats or leaves the array |
| HfsProblems.BadChainReportedIff | scripts/hfs_check.py:142-144 | a bad leaf chain is among the problems if and only if following the links never reaches 0 |
| HfsPrint.RecordRoundTrip | scripts/hfs_check.py:158-169 | a printed leaf record parses to the same key and extents |
| HfsPrint.LeafRoundTrip | scripts/hfs_check.py:146-151 | a printed leaf node, with records of any sizes and its offset table, reads back as its records and its link |
| HfsPrint.LoadPrinted | scripts/hfs_check.py:157-169 | loading printed records, of any forks in any order, files each one under its key and reports nothing |
| HfsPrint.FollowPrinted | scripts/hfs_check.py:139-151 | following printed leaves, at any node numbers, yields their records in link order |
| HfsPrint.LoadPrintedTree | scripts/hfs_check.py:113-169 | loading a printed tree file, header and linked leaves among arbitrary other nodes, files exactly its records |
| HfsPrint.ChainIsFiled | scripts/hfs_check.py:100 | a fork's records filed in key order are exactly its overflow map |
| HfsPrint.FiledAmongOthers | scripts/hfs_check.py:169 | they stay in the map whatever is filed before them and under other keys after them |
| HfsPrint.CutPrintable | scripts/hfs_check.py:158-169 | the records of any fork below 65536 blocks can be printed |
| HfsPrint.OneLeafTree | scripts/hfs_check.py:121-151 | a tree file exists for any 22 printable records |
| HfsPrint.StoredForkIsContent | scripts/hfs_check.py:78-169 | end to end: extents cut, overflow records printed into the leaves of a tree file among those of other forks, the file loaded and the fork read give back the file's content |
| BlockDevice.SimBlockDevice.constructor | verilator/sim/sim_blkdevice.h:31-38 | the fresh device: nothing mounted, queued or busy |
| BlockDevice.SimBlockDevice.MountDisk | verilator/sim/sim_blkdevice.cpp:58-76 | an image that opens is remembered with its size and queued; one that does not, or an index already open, changes nothing |
| BlockDevice.SimBlockDevice.TransferWord | verilator/sim/sim_blkdevice.cpp:95-134 | the transfer phase of one index is the step function's |
| BlockDevice.SimBlockDevice.MountStep | verilator/sim/sim_blkdevice.cpp:136-150 | the mount phase likewise |
| BlockDevice.SimBlockDevice.AcceptRequest | verilator/sim/sim_blkdevice.cpp:152-174 | the acceptance phase likewise |
| BlockDevice.SimBlockDevice.FinishStep | verilator/sim/sim_blkdevice.cpp:176-188 | the acknowledge phase likewise |
| BlockDevice.SimBlockDevice.BeforeEval | verilator/sim/sim_blkdevice.cpp:79-190 | at every cycle number from 2000 on one tick visits all ten indices in order, at every smaller one nothing changes |
| BlockProtocol.CallIs | verilator/sim_main.cpp:307 | at every time, of any size: the call visits the ten indices if and only if the low 32 bits of the time are from 2000 up to 2^31 - 1 |
| BlockProtocol.AsleepRun | verilator/sim/sim_blkdevice.cpp:86-87 | any number of ticks at other times changes nothing |
| BlockProtocol.AwakeFrom | verilator/sim/sim_blkdevice.cpp:86-87 | consecutive ticks from any time from 2000 on are all at working times, up to 2^31 |
| BlockMounts.WakesAfterBoot | verilator/sim/sim_blkdevice.cpp:86-87 | a run from time 0 with a mount waiting leaves the device as it was through exactly its first 2000 ticks |
| BlockProtocol.FreshInv | verilator/sim/sim_blkdevice.h:31-38 | the protocol invariant holds at the start |
| BlockProtocol.VisitKeepsInv | verilator/sim/sim_blkdevice.cpp:89-189 | every index visit keeps it under any requests |
| BlockProtocol.RunKeepsInv | verilator/sim/sim_blkdevice.cpp:79-190 | over whole runs: busy means exactly one direction, delay at least 1 and an ack only for the current disk; idle means no delay and no ack; bytecnt is even and at most 512; addresses track it |
| BlockBursts.RequestTick | verilator/sim/sim_blkdevice.cpp:152-174 | an idle device takes up the lowest-numbered requesting disk, starting its burst at lba*512 in the same tick, and changes no image |
| BlockBursts.ReadBurst | verilator/sim/sim_blkdevice.cpp:95-134 | for any latency and any requests of any disks throughout: 256 words at addresses 0..255 in order, each on its own tick with ack, equal to the block's big-endian bytes, no other tick presents a word, and after a fixed number of ticks the device has gone on to the lowest request from that index up |
| BlockBursts.WriteBurst | verilator/sim/sim_blkdevice.cpp:110-125 | likewise, 256 words from the synchronous sector buffer replace the block and nothing else changes |
| BlockBursts.WriteLeaves | verilator/sim/sim_blkdevice.cpp:110-125 | after it the disk holds the written block if its image is writable and writes are not ignored, else what it held; every other disk is as it was |
| BlockBursts.QueueWaits | verilator/sim/sim_blkdevice.cpp:137 | while a transfer goes on the device does with any mounts queued what it does with none |
| BlockBursts.ReadUndisturbed | verilator/sim/sim_blkdevice.cpp:95-150 | so mounts queued during a read disturb no word of it and wait for its end |
| BlockBursts.WriteUndisturbed | verilator/sim/sim_blkdevice.cpp:95-150 | and likewise during a write |
| BlockBursts.WriteThenRead | verilator/sim/sim_blkdevice.cpp:98-117 | the image after a write holds the buffer's words at that block |
| BlockBursts.WriteIsLocal | verilator/sim/sim_blkdevice.cpp:110-117 | bytes outside the block stay; a gap past the old end reads zero |
| BlockBursts.RunKeeps | verilator/sim/sim_blkdevice.cpp:110-174 | a disk's content survives any run in which it is not asked to write |
| BlockBursts.WriteThenReadRun | verilator/sim/sim_blkdevice.cpp:79-190 | end to end: a write of a block, any traffic without another write of that disk, then a read of the block: the words presented are the buffer |
| BlockMounts.QuietRun | verilator/sim/sim_blkdevice.cpp:89-150 | ticks without requests are ten mount steps each |
| BlockMounts.Announces | verilator/sim/sim_blkdevice.cpp:136-150 | a queued disk's bit is raised alone with its own size, the pins stay for 1199 visits whatever else is queued, and the 1200th visit, the same index again, clears it |
| BlockMounts.AnnouncementPins | verilator/sim/sim_blkdevice.cpp:136-150 | the pins on each of the 1200 visits: the bit alone, the disk's own size, read-only, the other queued disks still waiting |
| BlockMounts.Drops | verilator/sim/sim_blkdevice.cpp:136-146 | a queued disk without a pin bit is dequeued in one visit and nothing is raised |
| BlockMounts.OrderIsExact | verilator/sim/sim_blkdevice.cpp:137-143 | the cyclic order of visits contains every queued disk exactly once |
| BlockMounts.VisibleIsExact | verilator/sim/sim_blkdevice.cpp:137-145 | its part below 8 contains every queued disk below 8 exactly once and no other |
| BlockMounts.DurationBound | verilator/sim/sim_blkdevice.cpp:146 | all announcements are over within 1210 visits a queued disk |
| BlockMounts.AllAnnounced | verilator/sim/sim_blkdevice.cpp:136-150 | from any resting state with any queue, the notices are exactly those of the queued disks below 8 in cyclic order, and the queue ends empty |
| BlockMounts.QueueSettles | verilator/sim/sim_blkdevice.cpp:79-150 | in ticks: after long enough without requests each queued disk below 8 has been announced once with its own size, no other at all, and the protocol invariant holds |
| BlockMounts.AnnouncedIff | verilator/sim/sim_blkdevice.cpp:136-146 | a queued mount is announced if and only if its disk is below 8 |
| BlockMounts.EarlyRequest | verilator/sim/sim_blkdevice.cpp:152-188 | a request raised while an announcement counts down takes two counts a visit, and acknowledges a disk without a transfer if and only if two counts are left |
| BlockMounts.FreshRests | verilator/sim/sim_blkdevice.h:31-38 | the fresh device rests, so the results above apply from the start |
| BlockMounts.MountRests | verilator/sim/sim_blkdevice.cpp:58-69 | mounting an image adds exactly that disk to the queue of a resting device and leaves it resting |
| DownloadBus.SimBus.constructor | verilator/sim/sim_bus.cpp:16-29 | the initial bus |
| DownloadBus.SimBus.QueueDownload | verilator/sim/sim_bus.cpp:35-38 | appends the chunk |
| DownloadBus.SimBus.OpenNext | verilator/sim/sim_bus.cpp:48-72 | the opening phase of a tick is the step function's, including chunks that do not open |
| DownloadBus.SimBus.StreamWord | verilator/sim/sim_bus.cpp:74-113 | the streaming phase likewise |
| DownloadBus.SimBus.BeforeEval | verilator/sim/sim_bus.cpp:46-114 | one tick is the two phases and keeps the invariant |
| DownloadBus.TickKeeps | verilator/sim/sim_bus.cpp:46-114 | a tick moves exactly what it newly shows from the pending words; a granted tick does one unit of the remaining work |
| DownloadBus.LogConserved | verilator/sim/sim_bus.cpp:46-114 | at every moment of every wait schedule, words shown plus words pending are the words queued |
| DownloadBus.DownloadCompletes | verilator/sim/sim_bus.cpp:77-106 | with enough granted ticks the words shown are exactly the queued files' words, each once, in order, and the address left is the end address |
| DownloadBus.PinTick | verilator/sim/sim_bus.cpp:74-113 | ioctl_download goes up on the first granted tick of an open stream, stays through waits and goes down when the stream ends |
| DownloadBus.PinAlways | verilator/sim/sim_bus.cpp:74-113 | at every moment of every wait schedule each word shown has the pin up, and it is down without a stream |
| DownloadBus.StoredIsLog | verilator/sim/sim_bus.cpp:75-104 | storing on every tick with the strobe up, also on wait ticks, gives the log applied once |
| DownloadBus.SingleDownload | verilator/sim/sim_bus.cpp:82-105 | memory holds the file as big-endian words, zero-padded if odd, and is otherwise untouched; the address is the length rounded up to even |
| DownloadBus.QueueIsFifo | verilator/sim/sim_bus.cpp:51-53 | later files come entirely after earlier ones, from where those end |
| DownloadBus.SequentialImages | verilator/sim/sim_bus.cpp:55-62 | two files for one target, the second without restart, arrive as one image |
| DownloadBus.ContinuesIff | verilator/sim/sim_bus.cpp:55-62 | the second continues behind the first if and only if the index fits the 8-bit pin |
| DownloadBus.TwoArgumentFormSendsNothing | verilator/sim/sim_bus.h:23-25 | a chunk built by the two-argument constructor sends no word |
| TraceWindow.TraceBuffer.constructor | verilator/sim_main.cpp:113-115 | the empty window |
| TraceWindow.TraceBuffer.Gather | verilator/sim_main.cpp:939-942 | exactly five words handed to the disassembler, those of the entry and the next four, zero past the window |
| TraceWindow.TraceBuffer.FlushBuffer | verilator/sim_main.cpp:932-959 | logs a sweep over the buffered entries and empties the window |
| TraceWindow.TraceBuffer.EmitOldest | verilator/sim_main.cpp:964-987 | logs the oldest entry and shifts its words out, at most eight |
| TraceWindow.TraceBuffer.OnFetch | verilator/sim_main.cpp:916-989 | one fetch is the step function's; the PC just seen changes nothing, any other fetch becomes the newest entry |
| TraceWindow.InvAlways | verilator/sim_main.cpp:916-989 | after any fetches: at most eight entries with consecutive PCs, the head at a sweep boundary, the log complete up to it |
| TraceWindow.StreamingEqualsBatch | verilator/sim_main.cpp:107-115 | log plus final flush are the sweeps of the maximal straight-line runs, for every length function and every fetch list |
| TraceWindow.LimitIsHarmlessIff | verilator/sim_main.cpp:974 | the eight-word limit makes no difference on a run if and only if at every boundary the instruction has at most eight words or the run ends within eight |
| TraceWindow.WindowIsLinearSweep | verilator/sim_main.cpp:911-915 | with instructions of at most eight words the log is the linear sweep of every run |
| TraceWindow.ElevenWordsBreakIt | verilator/sim_main.cpp:966-974 | an eleven-word instruction for which it is not |
| TraceRuns.TraceIsLinearIff | verilator/sim_main.cpp:911-989 | the whole log, over any number of runs and any repeats among them, is the linear sweep of every run if and only if every run fits the limit |
| TraceLines.LogExplained | verilator/sim_main.cpp:911-989 | the whole log index by index, for every length function and fetch list: it starts with the first fetch, each next line is the fetch behind the instruction, at most eight words on, or the one that broke the straight line, and each line's words are those of its fetch and the next four on its straight line, zero past that |
| AspectScaler.NoOverflow | scripts/aspect_check.py:33-72 | for any ratio no wider than the source, modes 2, 3 and 4 ask for whole source multiples inside the panel if and only if the panel is at least as wide as the source |
| AspectScaler.BestIsLargest | scripts/aspect_check.py:93-115 | the best factor is the largest that fits both ways |
| AspectScaler.BestFitIff | scripts/aspect_check.py:26-72 | for the source's own ratio these modes show the best fit if and only if the target survives its 12-bit cut or its rest still exceeds the panel |
| AspectScaler.BestFit | scripts/aspect_check.py:26-72 | in particular whenever the rows' worth of source widths is below 4096 |
| AspectScaler.TruncatedTargetIsNotBest | scripts/aspect_check.py:46 | a panel on which the cut spoils the fit |
| AspectScaler.VIntegerOverflowsIff | scripts/aspect_check.py:10-16 | mode 1 asks for more than the panel if and only if the target is wider and no source multiple lies between |
| AspectScaler.OwnRatioOverflowsIff | scripts/aspect_check.py:93-108 | with the source's own ratio mode 1 overflows if and only if the cut target is wider than the panel with no source multiple between; never while the target is below 4096 |
| AspectScaler.OwnRatioCanOverflow | scripts/aspect_check.py:46 | a panel on which it does |
| AspectScaler.VIntegerBestIff | scripts/aspect_check.py:109-115 | on every panel, mode 1 shows the best fit if and only if all the rows' worth of columns fits, or the multiple taken from the cut target does not and the panel width is a source multiple |
| AspectScaler.VIntegerCutTarget | scripts/aspect_check.py:46 | a panel whose width is a source multiple and which is still not filled best |
| AspectScaler.OldRatioOverflows | scripts/aspect_check.py:127-140 | the three documented results of the retired ratio |
| AspectScaler.PassThroughIff | scripts/aspect_check.py:29-35 | the ratio is passed through untouched if and only if no mode is chosen, only its second part is zero, or the panel is shorter than the source |
| AspectScaler.ZeroRatio | scripts/aspect_check.py:38-45 | a ratio of 0:0 shows as many source widths as the panel holds, the best fit if and only if the width is the tighter bound |
| AspectScaler.ModesChoose | scripts/aspect_check.py:59-71 | for any ratio: narrower shows the largest multiple not above the target, wider the smallest not below it that fits, the third mode the closest, the narrower of two equally close |
| AspectScaler.NarrowTarget | scripts/aspect_check.py:59-71 | a target below one source width is shown as one width, by the wider mode as two where the panel holds them |
| AspectScaler.WideTarget | scripts/aspect_check.py:52-57 | a target whose multiple is wider than the panel: the panel's width decides in all three modes |
| PmmuReloc.OffsetsKept | SingleStepTests/gen/pmmu_diff_corpus.py:57-67 | an address keeps its offset within its region |
| PmmuReloc.AddrIs | SingleStepTests/gen/pmmu_diff_corpus.py:47-67 | where each corpus address goes, range by range, and that every other one stays |
| PmmuReloc.AddrInjective | SingleStepTests/gen/pmmu_diff_corpus.py:57-67 | with disjoint targets different corpus addresses stay different |
| PmmuReloc.TableDescKept | SingleStepTests/gen/pmmu_diff_corpus.py:69-74 | a table descriptor keeps its low four bits and points to the moved table |
| PmmuReloc.PageDescKeptIff | SingleStepTests/gen/pmmu_diff_corpus.py:69-75 | a page descriptor, with any flags, keeps its page and its low eight bits if and only if the page's target is 256-byte aligned |
| PmmuReloc.AddrAligned | SingleStepTests/gen/pmmu_diff_corpus.py:57-67 | under the bench layout tables move to 16-byte boundaries, and pages to 256-byte boundaries unless they are one of the small regions or the stack |
| PmmuReloc.SmallPageLosesFlags | SingleStepTests/gen/pmmu_diff_corpus.py:63-75 | a legal layout in which a page descriptor for the stack gains the modified bit |
| PmmuReloc.TranslateTableWindow | SingleStepTests/gen/pmmu_diff_corpus.py:103-114 | the loops relocate every long word, fail only past 32 bits, and clear the masked slots of the 3100 window only |
| PmmuWalk.TranslatedWords | SingleStepTests/gen/pmmu_diff_corpus.py:107-110 | long word k of a translated window is the relocation of long word k, and no window of whole long words fails |
| PmmuWalk.ZeroSlotsWord | SingleStepTests/gen/pmmu_diff_corpus.py:111-113 | exactly the listed slots are cleared |
| PmmuWalk.EveryRowTranslates | SingleStepTests/gen/pmmu_diff_corpus.py:103-114 | every corpus row has translated tables |
| PmmuWalk.WalkCommutes | SingleStepTests/gen/pmmu_diff_corpus.py:47-75 | following a chain of short descriptors and moving the result equals following it in the translated tables from the moved start, for any chain length and masked slots: always off pages, and on a page if and only if its target is 256-byte aligned |
| PmmuWalk.UnmaskedWalk | SingleStepTests/gen/pmmu_diff_corpus.py:111-113 | a walk that reads no masked slot is the walk of the original tables |
| PmmuWalk.MaskPlacementBits | SingleStepTests/gen/pmmu_diff_corpus.py:128-136 | every byte of the masked copy: the used bit goes from each flag byte, the modified bit from those of slots 0 and 7 at 3100 and 0 to 3 at 3200, all other bits stay |
| PmmuWalk.MaskComparesSignal | SingleStepTests/gen/pmmu_diff_corpus.py:117-136 | two masked bytes are equal if and only if nothing but the used bit, and on environment slots the modified bit, differed |

## Left out

- The RTL, the framework's scaler hardware and the harnesses that only drive it; `rtl/floppy_track_encoder.v` is used for the encoder's nibbler and alphabet only.
- Console output, log files, capture headers and hex parsing; streams are byte sequences, requested track and side are parameters.
- Emitter: instruction cache flushing and the C calling sequence around the JSR. Preload and test bytes are parameters that must run to their end, keep A7 (preload), and leave the program, the saved slot and the return address alone.
- Emitter: faults on odd or missing memory; memory is one flat byte array and every region lies inside it.
- GCR: the state machine that interleaves sync, address and data states in the encoder; captures are printed field by field.
- HFS: the MDB parser and the catalog, directory and dump passes; geometry, sizes and inline extents are parameters. A node or record too short to read is the model's `Crash`.
- HfsPrint.StoredForkIsContent: asks that the filed map holds the fork's records, which a later record under the same key would replace.
- HfsContent.ForkIsContent: asks that the volume span fits the image, since slices past the image end are short in the source too.
- HfsContent.ForkSucceedsIff: speaks of non-empty forks; an empty one needs no record and always succeeds.
- Block device: whole runs with a request raised while a mount is still counting down (`BlockMounts.EarlyRequest` is about one visit), and both request pins of one disk at once.
- Block device: the C integer overflow of lba * 512 from block 2^22 on, and uninitialised or unconnected pins; `img_readonly` is taken as connected.
- Block device: the stream error flags after a refused second mount in the middle of a transfer, and after reading past the end of an image, where the position no longer advances; later words read FFFF either way.
- BlockBursts.WriteThenReadRun: asks that the disk is not written again before the read, and that the device is idle when the read is taken up.
- BlockBursts.WriteBurst: asks that the sector buffer answers each address one tick later, as the comment at line 111 of sim_blkdevice.cpp says the target does.
- Download bus: addresses past 2^31, upload pins and the console.
- TraceWindow.LimitIsHarmlessIff: speaks of runs of at most 2^31 fetches, so that no PC comes twice in one.
- TraceRuns.TraceIsLinearIff: has the same bound on each run; the streaming results have none.
- Trace: the frame filter, the frame separators and the line limit of the trace file; the model's log is the console log. The disassembled text is a function of the PC and the five words and is not modelled further.
- Scaler: a source of width or height zero, where the Python code divides by zero.
- Relocation: JSON loading and the comparison of registers and fault frames. Long-format table descriptors end a walk.
- PmmuWalk.WalkCommutes: says nothing of walks that leave the table windows.
- The generated corpora, deployment and input tools, screenshot heuristics, icon and ROM utilities: data, plumbing or easy members.
