# Verified model of the Tx kernel's tooling

A Dafny model of the self-contained logic around the Tx kernel: the builder of the vDSO image and the
guest code that resolves symbols in it, the netlink request writer of the nftables probe, netfast's
freestanding replacements for small network tools, the fail-closed executor of ext4 fault jobs, the
fault decoder, two concurrent witnesses, and two log and scheduling tools. Every operation is modelled
with its branches, limits and error paths, and proved against an independent description of what it is
for.

`dafny verify dfyconfig.toml` checks the whole project. Nothing here executes the original programs.

## What is proved

* **Netlink requests** (`Bytes`, `NetlinkFormat`, `NetlinkWriter`, `NftRequests`, `NftMeaning`). Writing any tree of
  attributes in place, with lengths patched in afterwards, leaves exactly the tree's encoding between
  the old and the new position and touches nothing else. A plain aligned walk reads the same messages
  back if and only if every length and kind fits its field; a payload of 65532 bytes shows what
  happens otherwise. The three batches the probe sends fit its 2048-byte buffer, and read by the protocol's
  attribute numbers the rule they install masquerades exactly the packets that leave by docker0 with a
  source in 172.18.0.0/16.
* **vDSO image** (`Bits`, `SysvHash`, `HashValues`, `Layout`, `VdsoImage`, `VdsoFields`, `VdsoBuilder`,
  `VdsoResolver`). The name hash is that of the gABI, defined on the bits of 32-bit words. For any names, version, bucket count, text and symbol addresses: a walk over the hash table read from the
  image's own bytes visits exactly the symbols of a bucket in increasing order, the builder's layout
  checks, over sizes reckoned without the bytes, never fire, and the guest's
  resolver run on the built bytes at any base gives the exported address of a name under its version
  and nothing for any other name or version.
* **Fault executor** (`FaultExecutor`). Subprocesses may fail to launch, exit with anything and change
  any file. In every run a manifest is written only with a complete record of confirmed shell test,
  preserved images, successful recovery, checks, matrix and oracles behind it: both preserved paths held
  what the last shell run left in the scratch image. That every recovery attempt starts on that image
  is false of the code; it holds exactly when each failed attempt left the replay image, or else the
  crash image, as it was and its log was not saved over it, and two constructed runs show it failing. Every
  retry of the shell test starts on freshly staged images, and a run that ends without a manifest has its
  cause on record: a denied request, the last subprocess, a file, or the plan.
* **Fault decoder** (`TrapText`, `TrapParser`, `TrapLogs`, `TrapRender`, `TrapRoundTrip`, `HardwareTrap`,
  `AddressDecode`). Every list of trap reports is read back from among lines that name no trap and no
  panic. The exact exception: visible lines between the trap frame and what follows cut the report
  short. The kernel's fatal hardware-trap report prints its execution state there, so for every such
  report the decoder returns the frame and loses the frame-pointer chain and the stack dump. Over any
  log, records take disjoint line ranges and a panic text goes to at most one trap. The class of every address is given by its range, suspicious exactly when
  it is not canonical, and the candidate chosen for it does not depend on the detected link mode.
* **netfast** (`CText`, `Ipv6Text`, `Ipv6Parser`, `IcmpChecksum`, `LineReader`, `FieldTools`, `GrepPattern`,
  `RegexText`, `GrepMeaning`, `Grep`, `RouteText`, `RouteFile`, `RouteMap`). The IPv6 parser accepts exactly the full and the compressed text
  forms; of all texts with a dot only two colons followed by a dotted quad. The
  checksum is the one's complement sum, cannot overflow up to 131074 bytes, and makes a packet verify.
  Lines do not depend on how input arrives; cut and awk print what a reference split gives.
  Whatever pattern grep handles itself is found exactly where its text, read as a POSIX regular expression,
  matches, if and only if no trailing empty alternative is lost. The
  route state file is the text of an ordered list under every run of commands, and that list is the map
  which setting, deleting and clearing alone build.
* **Concurrent witnesses** (`PipeWitness`, `VvarHandshake`). Safety over every interleaving, for any
  number of workers, rounds, updates and reads; a run in which nothing fails passes, and such runs exist.
* **Logs and scheduling** (`TraceNesting`, `Watchdog`). Begin and end markers nest per command over every
  log, and every phase line has its marker; the watchdog's sweep runs no case twice and loses none.

`Common` and `CText` hold optional values, text splitting and C strings.

Where code and documentation differ, the model follows the code: an IPv4-mapped address in its usual
spelling is refused by `parse_ipv6` despite its comment on embedded tails, an attribute longer than
65535 bytes is written with a truncated length, and the trap-log reader expects the frame-pointer
chain right behind the frame.

Integers are unbounded in Dafny, so widths are written out: 16- and 32-bit stores keep the low bytes,
the checksum's sum and the decimal reader's accumulator wrap, addresses are below 2^64 and their masks
are written as remainders. A read outside the mapped vDSO image is a fault, not a value.

## Model

| member | source | states |
|---|---|---|
| NetlinkWriter.Request.constructor | tools/user/nft-probe.c:461-466 | An empty request over a buffer of the given size. |
| NetlinkWriter.Request.PutU16 | tools/user/nft-probe.c:138-141 | Two bytes, low first, value cut to 16 bits; every other byte of the buffer unchanged. |
| NetlinkWriter.Request.PutU32 | tools/user/nft-probe.c:143-148 | Four bytes, low first, value cut to 32 bits; every other byte unchanged. |
| NetlinkWriter.Request.PadToFour | tools/user/nft-probe.c:168-173 | Advances to the next multiple of four over zero bytes and changes nothing else. |
| NetlinkWriter.Request.AttrStart | tools/user/nft-probe.c:175-181 | Reserves a header with length zero and the kind, and returns where it stands. |
| NetlinkWriter.Request.AttrEnd | tools/user/nft-probe.c:183-186 | Patches only the two length bytes of the header and appends padding; the content between stays as written. |
| NetlinkWriter.Request.PushAttr | tools/user/nft-probe.c:188-196 | At any position, leaves one record of length, kind and payload and zero bytes up to the next multiple of four; nothing else changes. |
| NetlinkWriter.Request.PushAttrString | tools/user/nft-probe.c:198-207 | The same for a text, whose record ends with its NUL. |
| NetlinkWriter.TlvAligned | tools/user/nft-probe.c:168-196 | At a multiple of four what is left is the record of the format, padded by its own length. |
| NetlinkWriter.Request.WriteAttr | tools/user/nft-probe.c:175-207 | For every attribute tree, nested to any depth with lengths patched afterwards, the buffer holds the tree's encoding at the old position and is unchanged elsewhere; a text gives the same bytes through either leaf writer. |
| NetlinkWriter.Request.WriteAttrs | tools/user/nft-probe.c:175-219 | The same for a list of trees: their encodings one after another. |
| NetlinkWriter.Request.NlmsgStart | tools/user/nft-probe.c:229-239 | A sixteen-byte header with kind, flags and sequence number, length still zero. |
| NetlinkWriter.Request.PushNfgenmsg | tools/user/nft-probe.c:221-227 | The four-byte family header for IPv4. |
| NetlinkWriter.Request.NlmsgEnd | tools/user/nft-probe.c:241-244 | Patches the four length bytes of the message header and pads. |
| NetlinkWriter.Request.WriteMessage | tools/user/nft-probe.c:221-244 | A whole message with any attribute list leaves exactly its encoding; earlier and later bytes are untouched. |
| NetlinkWriter.Request.WriteMessages | tools/user/nft-probe.c:461-506 | Consecutive messages leave the concatenation of their encodings. |
| NetlinkWriter.CloseTlv | tools/user/nft-probe.c:175-186 | Reserving, writing the content, patching the length and padding equals writing the finished record at once. |
| NetlinkWriter.CloseMessage | tools/user/nft-probe.c:229-244 | The same for a message: the order of reserving and patching does not show in the bytes. |
| NetlinkFormat.AttrsRoundTrip | tools/user/nft-probe.c:168-219 | An aligned walk over the encoding of a list of trees that fit their fields gives back those trees. |
| NetlinkFormat.DecodedAttrsFit | tools/user/nft-probe.c:168-219 | Whatever the walk accepts are trees that fit, and encoding them again takes the same number of bytes. |
| NetlinkFormat.MessagesRoundTrip | tools/user/nft-probe.c:221-244 | The walk over a sequence of encoded messages gives back the messages, ending exactly at the end. |
| NetlinkFormat.DecodesToItselfIffFits | tools/user/nft-probe.c:138-244 | For every list of messages, the walk reads it back if and only if every kind, number and length fits its field. |
| NetlinkFormat.OversizedAttributeIsLost | tools/user/nft-probe.c:183-186 | A payload of 65532 bytes makes the stored length wrap to zero and the walk fail. |
| NetlinkWriter.HeaderBytes | tools/user/nft-probe.c:138-186 | The first four bytes of an attribute are its length without padding and its kind, low byte first, with the top bit of the kind set exactly for a nest. |
| NftRequests.SendBatch | tools/user/nft-probe.c:461-506 | Each batch fits the 2048-byte request buffer and what is sent decodes to exactly that batch; bytes beyond are untouched. |
| NftMeaning.CreateAsks | tools/user/nft-probe.c:246-363 | Read by attribute numbers, the first batch adds a table, a source NAT chain at hook 4 with priority 100, and the masquerading rule. |
| NftMeaning.DumpAsks | tools/user/nft-probe.c:365-369 | The second lists all tables, chains and rules. |
| NftMeaning.DeleteAsks | tools/user/nft-probe.c:371-396 | The third removes rule 1 of that chain, the chain and the table, innermost first. |
| NftMeaning.NumbersRun | tools/user/nft-probe.c:461-506 | Messages are numbered from one through all three batches. |
| NftMeaning.RuleReads | tools/user/nft-probe.c:273-363 | The rule's expressions read back as loads, comparisons, a mask and the verdict, with their registers. |
| NftMeaning.RuleMeans | tools/user/nft-probe.c:347-363 | Run on any packet, the rule masquerades it if and only if it leaves by docker0 and its source address is in 172.18.0.0/16. |
| SysvHash.ElfHash | crates/tx-vdso/build.rs:360-371 | The gABI hash of the name, defined bit by bit on 32-bit words, for every name; every value is below 2^28. |
| SysvHash.StepIsGabi | crates/tx-vdso/build.rs:363-368 | One round is shift, add, mask, exclusive or and clear on a 32-bit word, for every value and byte. |
| SysvHash.HashIsGabi | crates/tx-vdso/build.rs:360-371 | The same over whole names. |
| Bits.AndBit | crates/tx-vdso/build.rs:364-368 | A bit of the conjunction is set exactly when both are. |
| Bits.XorBit | crates/tx-vdso/build.rs:364-368 | A bit of the exclusive or is set exactly when one is. |
| HashValues.ClockGettimeHash | crates/tx-vdso/build.rs:26-32 | The hash of `__vdso_clock_gettime`. |
| HashValues.GettimeofdayHash | crates/tx-vdso/build.rs:26-32 | The hash of `__vdso_gettimeofday`. |
| HashValues.ClockGetresHash | crates/tx-vdso/build.rs:26-32 | The hash of `__vdso_clock_getres`. |
| HashValues.RtSigreturnHash | crates/tx-vdso/build.rs:26-32 | The hash of `__vdso_rt_sigreturn`. |
| HashValues.VersionHash | crates/tx-vdso/build.rs:26-32 | The hash of `LINUX_4.15`. |
| SysvHash.BuildHash | crates/tx-vdso/build.rs:374-388 | In-place insertion yields, for every bucket, the first symbol of its class and, for every symbol, the next one of its class. |
| SysvHash.ChainEnd | crates/tx-vdso/build.rs:382-385 | Following the chain during insertion ends at the last symbol of the class. |
| SysvHash.MembersAreTheClass | crates/tx-vdso/build.rs:374-388 | The list a chain stands for holds exactly the indices of its class, in strictly increasing order. |
| SysvHash.WalkBucket | crates/tx-vdso/build.rs:374-388 | For any names and positive bucket count, walking head and chain visits strictly increasing indices and exactly the symbols whose hash falls in the bucket. |
| SysvHash.Lookup | crates/tx-vdso/build.rs:374-388 | Looking a name up through the table finds its first symbol, or nothing if and only if the name is absent. |
| VdsoImage.DynStrSizeIs | crates/tx-vdso/build.rs:295-297 | The string table has the size the layout adds up from the lengths of the names and the version. |
| VdsoBuilder.BuildDynStr | crates/tx-vdso/build.rs:327-337 | The string table and the offset of every name and of the version in it. |
| VdsoBuilder.BuildDynSym | crates/tx-vdso/build.rs:340-357 | The symbol rows written in place equal the table row by row; fails exactly when a name has no symbol or its placed address leaves 64 bits. |
| VdsoBuilder.BuildHashBytes | crates/tx-vdso/build.rs:389-397 | Bucket count, symbol count, buckets and chains as little-endian words. |
| VdsoBuilder.BuildVerSym | crates/tx-vdso/build.rs:399-402 | One version index per symbol, zero for the null symbol and two for every name. |
| VdsoBuilder.BuildVerDef | crates/tx-vdso/build.rs:404-411 | One version definition with its auxiliary entry, hash and name offset at their places. |
| VdsoBuilder.PadTo | crates/tx-vdso/build.rs:530-533 | Zero fill up to an offset. |
| VdsoBuilder.BuildVdsoElf | crates/tx-vdso/build.rs:324-536 | Succeeds exactly when every name has a symbol whose placed address is a 64-bit number; the result holds every part at its layout offset, and none of the script's size checks can fail. |
| VdsoFields.PartStarts | crates/tx-vdso/build.rs:295-317 | Each part of the built image starts where the layout says, for any input. |
| VdsoFields.HeaderReads | crates/tx-vdso/build.rs:447-466 | Every field of the ELF header reads back: identification, a shared object for RISC-V, entry, flags, and the places, sizes and counts of its tables. |
| VdsoFields.SegmentReads | crates/tx-vdso/build.rs:468-486 | Every field of both program headers reads back: the whole image loaded at its base, readable and executable, and the dynamic table. |
| VdsoFields.DynamicReads | crates/tx-vdso/build.rs:420-437 | Every dynamic entry reads back with the address of its table. |
| VdsoFields.SymbolReads | crates/tx-vdso/build.rs:340-357 | Every field of every symbol row reads back: name offset, binding and kind, visibility, section, placed value and size. |
| VdsoFields.HashReads | crates/tx-vdso/build.rs:389-397 | Every word of the hash table reads back: bucket count, symbol count, each bucket head and each chain link. |
| VdsoFields.VerDefReads | crates/tx-vdso/build.rs:404-411 | Every field of the version definition reads back: structure version, flags, index, count, hash, name. |
| VdsoFields.SectionTableReads | crates/tx-vdso/build.rs:502-526 | The section headers read back: an empty one, the text with flags, place, size and alignment, and the section names. |
| VdsoFields.WalkImage | crates/tx-vdso/build.rs:374-397 | On the bytes of a built image, with bucket count, head and links read from it, a walk ends and visits exactly the exported symbols of the bucket in increasing order. |
| VdsoFields.StringsHeld | crates/tx-vdso/build.rs:327-337 | At its offset in the image stands every name, NUL-terminated, and the version likewise. |
| VdsoResolver.StringEqual | tools/shell-tests/vdso-phase5-probe.c:200-208 | Compares to the end of both: true exactly when the strings are equal. |
| VdsoResolver.FindSegments | tools/shell-tests/vdso-phase5-probe.c:303-322 | On a built image finds the load bias and the dynamic table. |
| VdsoResolver.ScanDynamic | tools/shell-tests/vdso-phase5-probe.c:324-342 | On a built image finds all five tables at base plus their offsets. |
| VdsoResolver.VersionMatches | tools/shell-tests/vdso-phase5-probe.c:284-301 | On a built image, true exactly for the image's own version. |
| VdsoResolver.ScanSymbols | tools/shell-tests/vdso-phase5-probe.c:343-361 | On a built image, the first symbol with that name under that version, or nothing. |
| VdsoResolver.FindVersionedSymbol | tools/shell-tests/vdso-phase5-probe.c:303-361 | For any built image at any base: the address base plus text offset plus symbol address for an exported name under its version, nothing for any other name or version, and no read outside the image. |
| VdsoResolver.FindTextSection | tools/shell-tests/vdso-phase5-probe.c:210-233 | On a built image returns the text section's offset and address. |
| FaultExecutor.SavingALogKeeps | tools/ext4/fault_qemu_executor.py:893-898 | Saving a failed attempt's log leaves another file's contents alone if and only if it is not the target or holds the same contents. |
| FaultExecutor.Executor.constructor | tools/ext4/fault_qemu_executor.py:227-240 | A job at its start: nothing on record, nothing written. |
| FaultExecutor.Executor.Run | tools/ext4/fault_qemu_executor.py:298-321 | Any response is possible; it is put on record, and only a launched process changes files. |
| FaultExecutor.Executor.CopyImage | tools/ext4/fault_qemu_executor.py:67-97 | Success means the source existed, the target did not, and only the target changed, to the source's contents; failure touches at most the target and never an existing one. |
| FaultExecutor.Executor.Restage | tools/ext4/fault_qemu_executor.py:380-387 | A successful restage gives every role the contents of its source again and touches nothing else. |
| FaultExecutor.Executor.RunShellTestUntilCut | tools/ext4/fault_qemu_executor.py:324-377 | One to three launched runs, of which exactly the last exited with 0 and confirmed the stop marker; the first starts on the files given, every retry without the serial log, on role images that hold what their sources held as long as no role image is staged over a source, with nothing else changed. |
| FaultExecutor.RetryIsFresh | tools/ext4/fault_qemu_executor.py:336-339 | Restaging and removing the serial log leave exactly such files. |
| FaultExecutor.Executor.PreserveImages | tools/ext4/fault_qemu_executor.py:403-457 | The files afterwards, exactly: crash and replay path hold what the scratch image held, and the staged images, all of which had to be there, are gone. |
| FaultExecutor.Executor.RestoreReplay | tools/ext4/fault_qemu_executor.py:665-689 | The replay image becomes the crash image's contents; nothing else changes. |
| FaultExecutor.Executor.AfterFailure | tools/ext4/fault_qemu_executor.py:623-638 | The files and the comparison content after a failed attempt, exactly; both images are back on the preserved contents when the crash image still held them and neither log path is an image. |
| FaultExecutor.Executor.RecoverReplay | tools/ext4/fault_qemu_executor.py:585-662 | One to three launched attempts, exactly the last with exit 0; every attempt starts on the preserved image if and only if every attempt but the last leaves a way back to it. |
| FaultExecutor.StartsOnIff | tools/ext4/fault_qemu_executor.py:585-689 | In every recovery run from preserved images, all attempts start on the image if and only if each one but the last left the replay image, or else the crash image, as it was and no log was saved over what it left. |
| FaultExecutor.RestartsApart | tools/ext4/fault_qemu_executor.py:623-638 | When logs are saved elsewhere, a failed attempt leaves a way back exactly when one of the two images still holds the preserved contents. |
| FaultExecutor.BothWritten | tools/ext4/fault_qemu_executor.py:623-689 | For every such job, an attempt that exits with 1 and overwrites both images makes the second attempt start on the overwritten contents. |
| FaultExecutor.LogOverImage | tools/ext4/fault_qemu_executor.py:623-638 | An attempt that changes no image, but whose log is saved over the replay image, makes the second attempt start on the log. |
| FaultExecutor.Executor.RunChecks | tools/ext4/fault_qemu_executor.py:489-525 | Success means every declared check ran as e2fsck -fn on the replay image and exited with 0, in order, each on what the one before it left. |
| FaultExecutor.Executor.RunMatrixCommand | tools/ext4/fault_qemu_executor.py:1101-1129 | Success means launched, image left in place, exit 0. |
| FaultExecutor.Executor.PrepareImage | tools/ext4/fault_qemu_executor.py:852-856 | An image not prepared before becomes a copy of the replay image. |
| FaultExecutor.Executor.RunRemount | tools/ext4/fault_qemu_executor.py:859-890 | At most three attempts, every retry on a fresh copy of the replay image with the failed log saved and out of the way, success only with exit 0. |
| FaultExecutor.Executor.RunEntry | tools/ext4/fault_qemu_executor.py:782-849 | Success of a matrix entry of any of the three kinds means its record of runs ends with exit 0; other kinds are refused. |
| FaultExecutor.Executor.ExecuteMatrix | tools/ext4/fault_qemu_executor.py:782-849 | Success means every entry was valid, off the replay image, and succeeded. |
| FaultExecutor.Executor.ExecuteOracles | tools/ext4/fault_qemu_executor.py:692-779 | Success means every oracle ran on its own fresh copy of the replay image with its request in place, exited with 0 and left its log. |
| FaultExecutor.Executor.ProduceResultIfVerified | tools/ext4/fault_qemu_executor.py:460-556 | A manifest is written only after recovery, checks, matrix and oracles all succeeded, and nowhere but at the result path. |
| FaultExecutor.Executor.Execute | tools/ext4/fault_qemu_executor.py:227-295 | In every run, under any subprocess behaviour, a manifest exists only with the complete evidence, the record of the run is exactly that evidence in order from the files at the start, and both preserved paths held what the confirmed shell run left in the scratch image when recovery began. Without a manifest a cause is on record or in the files. |
| TrapParser.ParseTrapframeBlock | xtask/src/fault_decode.rs:1108-1153 | Consumes exactly the block and gives the frame of its first values, none without all needed ones. |
| TrapParser.FillRegisters | xtask/src/fault_decode.rs:1108-1153 | A register takes the first value any line of the block gives it. |
| TrapParser.FrameIff | xtask/src/fault_decode.rs:1127-1150 | There is a frame if and only if lines of the block give each of x0 to x31 and the four control registers. |
| TrapParser.FirstValueIs | xtask/src/fault_decode.rs:1122-1131 | The value of a register is that of the first line that gives it. |
| TrapParser.RowPlaces | xtask/src/fault_decode.rs:1195-1200 | A word of a dump row lies eight bytes per place behind its base, wrapping at 2^64, whether or not the words before it are numbers. |
| TrapParser.WordGives | xtask/src/fault_decode.rs:1243-1252 | Words of a line end at blanks, commas and semicolons; the first that gives the key a number gives its value. |
| TrapParser.PairGives | xtask/src/fault_decode.rs:1244-1252 | A word of key, equals sign and number gives that number. |
| TrapParser.ParseFpChainBlock | xtask/src/fault_decode.rs:1155-1171 | Consumes exactly the block and gives the pairs of its lines that have both. |
| TrapParser.ParseStackDumpRows | xtask/src/fault_decode.rs:1173-1203 | Consumes exactly the block and gives every word with its address. |
| TrapParser.ParseOneTrap | xtask/src/fault_decode.rs:1043-1094 | One record from its summary line on, with each optional block taken only when it comes next. |
| TrapParser.ParseTraps | xtask/src/fault_decode.rs:1024-1094 | The loop computes the record list given by the line-by-line reading, for every log. |
| TrapLogs.ParseAccounted | xtask/src/fault_decode.rs:1024-1094 | Over every log no summary line outside another record is skipped, values are those of the summary, and the panic text is the latest one within thirty lines. |
| TrapLogs.RecordsDisjoint | xtask/src/fault_decode.rs:1024-1094 | Over every log records take disjoint line ranges in order and no panic line is attached twice. |
| TrapRender.FrameReadsBack | boards/tx-hal-riscv64-qemu-virt/src/trap.rs:1887-1951 | The block reader recovers any trap frame from the rows the kernel prints. |
| TrapRender.ChainReadsBack | boards/tx-hal-riscv64-qemu-virt/src/trap.rs:1772-1816 | The block reader recovers any frame-pointer chain. |
| TrapRender.DumpReadsBack | boards/tx-hal-riscv64-qemu-virt/src/trap.rs:1818-1858 | The block reader recovers every address and word of any stack dump. |
| TrapText.WordParses | xtask/src/fault_decode.rs:1254-1266 | Every 64-bit value printed as a hexadecimal word parses back to itself. |
| TrapText.DecimalParses | xtask/src/fault_decode.rs:1254-1266 | Every number in decimal parses back, or is refused from 2^64 on. |
| TrapText.HexParses | xtask/src/fault_decode.rs:1254-1266 | Hexadecimal digits in either case after either prefix give their value below 2^64. |
| TrapText.DigitIs | xtask/src/fault_decode.rs:1260-1264 | The digits in order in either case have their values, and nothing else is a digit. |
| TrapText.Surrounded | xtask/src/fault_decode.rs:1254-1266 | White space around a number does not matter. |
| TrapText.Grouped | xtask/src/fault_decode.rs:1254-1266 | An underscore inside a number does not matter. |
| TrapRoundTrip.ReportsReadBack | xtask/src/fault_decode.rs:1024-1203 | For every list of reports with silent lines before, between and behind them, rendering and parsing gives back their records in order. |
| TrapRoundTrip.WholeReportIff | xtask/src/fault_decode.rs:1048-1088 | Whatever silent lines stand around it, a report comes back whole if and only if only blank lines (or nothing else) follow its frame and its panic text is at most thirty lines back. |
| TrapRoundTrip.PanicIff | xtask/src/fault_decode.rs:1033-1036 | A line is a panic if and only if it has `panicked at` or `rust_begin_unwind` anywhere or begins with `PANIC:`. |
| TrapRoundTrip.PanicReadsBack | xtask/src/fault_decode.rs:1033-1052 | Such a line at most thirty lines before a trap comes back as its panic text. |
| HardwareTrap.StateSilent | boards/tx-hal-riscv64-qemu-virt/src/trap.rs:1578-1672 | For any values, the three lines of the execution state are no summary and no panic, although one carries both `scause=` and `stval=`. |
| HardwareTrap.StateClear | boards/tx-hal-riscv64-qemu-virt/src/trap.rs:1578-1672 | They are visible and neither continue the frame nor open a chain or a dump. |
| HardwareTrap.ScanRowSilent | boards/tx-hal-riscv64-qemu-virt/src/trap.rs:1677-1717 | Every row of the stack scan is no summary and no panic. |
| HardwareTrap.FatalReportLosesChain | boards/tx-hal-riscv64-qemu-virt/src/trap.rs:1546-1717 | For every fatal report, with any registers, execution state, chain, dump, stack scan and silent lines around it, the decoder reads one record with its frame, an empty chain and an empty dump. |
| AddressDecode.CanonicalIff | xtask/src/fault_decode.rs:1538-1551 | The sign-extension test accepts exactly the addresses whose bits 63 to 39 equal bit 38. |
| AddressDecode.SignExtendIdempotent | xtask/src/fault_decode.rs:1542-1551 | Sign extension is idempotent, gives a canonical address and keeps the low 39 bits. |
| AddressDecode.ClassifyIs | xtask/src/fault_decode.rs:1369-1398 | The class of every address by its range and bit 38: both kernel windows, user space, direct map, and suspicious exactly when not canonical; the catch-all classes are never reached. |
| AddressDecode.AliasesMatch | xtask/src/fault_decode.rs:1369-1375 | An address is a high alias if and only if it is the image of an address in the physical window, which is a low kernel address. |
| AddressDecode.DirectMapIs | xtask/src/fault_decode.rs:1376-1386 | The physical address of a direct-map address, and its region: firmware gap, memory behind it, or none. |
| AddressDecode.WindowsApart | xtask/src/fault_decode.rs:1530-1536 | The two kernel windows never overlap and lie in canonical space. |
| AddressDecode.TranslationInverse | xtask/src/fault_decode.rs:1404-1446 | Moving an address to the other window and back gives the address, without overflow either way. |
| AddressDecode.CandidatesIgnoreMode | xtask/src/fault_decode.rs:1400-1465 | The candidate list, in order and labels, is the same under both link modes, begins with the raw address and repeats nothing. |
| AddressDecode.CandidatesAreExact | xtask/src/fault_decode.rs:1400-1465 | An entry is in the list if and only if it stands for the raw address: itself, its place in the other window, and for a non-canonical one its low 32 bits, the one canonical address with its low 39 bits, and its image in the high window. |
| AddressDecode.CandidatesInOrder | xtask/src/fault_decode.rs:1400-1460 | Candidates come in a fixed order of kinds, at most one of each. |
| AddressDecode.ChoiceIgnoresLinkMode | xtask/src/fault_decode.rs:678-694 | The choice does not depend on the symbols; it is the first candidate in a text section, else the first in any section, else the raw address. |
| AddressDecode.LinkModeIs | xtask/src/fault_decode.rs:1350-1368 | The link mode is the window in which the kernel start, or else the entry symbol, lies. |
| Ipv6Parser.ParseU64 | tools/netfast/netfast.c:257-267 | The digits consumed and their decimal value modulo 2^64. |
| Ipv6Parser.ParseIpv4 | tools/netfast/netfast.c:469-491 | The four parts, or refusal, as the field-by-field reading gives them. |
| Ipv6Text.DecimalIsNumber | tools/netfast/netfast.c:257-267 | The wrapping accumulator gives the decimal number of the digits modulo 2^64. |
| Ipv6Text.FieldIff | tools/netfast/netfast.c:469-491 | A field is accepted if and only if it is digits whose number modulo 2^64 is at most 255. |
| Ipv6Text.OverlongField | tools/netfast/netfast.c:257-267 | So 2^64 written out is accepted as the octet 0. |
| Ipv6Text.QuadIff | tools/netfast/netfast.c:469-491 | A text is accepted with given octets if and only if it is four dot-separated strings of digits whose decimal numbers are those octets modulo 2^64. |
| Ipv6Parser.ReadGroup | tools/netfast/netfast.c:531-541 | At most four hexadecimal digits and their value. |
| Ipv6Text.HexDigits | tools/netfast/netfast.c:531-541 | The sixteen digits in either case have their values, and nothing else is a digit. |
| Ipv6Parser.TakeGroup | tools/netfast/netfast.c:531-557 | One turn of the reading loop on one group and the colons after it, with the group stored in bounds. |
| Ipv6Parser.ParseGroups | tools/netfast/netfast.c:519-558 | The whole reading loop; the eight-group array is never overrun. |
| Ipv6Parser.Places | tools/netfast/netfast.c:563-576 | Groups before and after the gap land at the two ends of the eight places, zeros between. |
| Ipv6Parser.Spread | tools/netfast/netfast.c:563-580 | The sixteen output octets are the eight places, high octet first. |
| Ipv6Parser.ParseIpv6 | tools/netfast/netfast.c:505-583 | Accepts exactly what the reference reading accepts, writes its octets, and leaves zeros on refusal. |
| Ipv6Text.ReadIffDenotes | tools/netfast/netfast.c:505-583 | On text without a dot a value is read if and only if the text is eight groups, or at most seven with one double colon, denoting that value. |
| Ipv6Text.CompressedParsesBack | tools/netfast/netfast.c:505-583 | Every spelling of an address with any one run of zeros compressed parses back to it. |
| Ipv6Text.PrintedParsesBack | tools/netfast/netfast.c:505-583 | Such a spelling exists for every address and every run, and parses back. |
| Ipv6Text.DottedIff | tools/netfast/netfast.c:519-531 | Every text with a dot is accepted, with a given value, if and only if it is two colons and a dotted quad of that value. |
| Ipv6Parser.DottedOctets | tools/netfast/netfast.c:519-580 | The sixteen octets of such a text are twelve zeros and the four numbers in order. |
| Ipv6Text.MixedIff | tools/netfast/netfast.c:520-530 | So of the mixed forms with a double colon, groups before or after it and a quad at the end, only the one without any group gets through. |
| Ipv6Text.MappedAddressRefused | tools/netfast/netfast.c:520-530 | The usual spelling of an IPv4-mapped address is refused. |
| IcmpChecksum.AddWords | tools/netfast/netfast.c:585-592 | The sum of the big-endian words modulo 2^32, odd lengths included. |
| IcmpChecksum.Fold | tools/netfast/netfast.c:593-594 | The carry loop ends, on the unique 16-bit residue modulo 65535 that is zero only for zero. |
| IcmpChecksum.Checksum | tools/netfast/netfast.c:585-597 | Up to 131074 bytes, the byte-swapped complement of the one's complement sum. |
| IcmpChecksum.OnesSumIsFoldedSum | tools/netfast/netfast.c:585-597 | Adding with end-around carry word by word equals folding the plain sum once. |
| IcmpChecksum.NoOverflowIff | tools/netfast/netfast.c:585-592 | No packet of a length overflows the 32-bit sum if and only if the length is at most 131074. |
| IcmpChecksum.VerifiesIff | tools/netfast/netfast.c:1921-1925 | Which stored words make a packet verify: the computed one, or all ones in place of zero, and no other. |
| IcmpChecksum.StoreChecksum | tools/netfast/netfast.c:1913-1925 | After storing, the packet verifies and recomputing gives zero; only the two checksum bytes changed. |
| LineReader.Reader.constructor | tools/netfast/netfast.c:631-635 | An empty buffer with all input still to come. |
| LineReader.Reader.Fill | tools/netfast/netfast.c:642-651 | One read changes nothing about the bytes still to be delivered. |
| LineReader.Reader.Drain | tools/netfast/netfast.c:652-660 | Buffered bytes move to the line in order, cut to the room there is, up to a newline. |
| LineReader.Reader.ReadLine | tools/netfast/netfast.c:638-662 | The line, its length and what remains depend only on the bytes still to come, not on how reads split them. |
| LineReader.LinesArePieces | tools/netfast/netfast.c:638-662 | The lines delivered are the newline-separated pieces of the input, each cut to the buffer. |
| FieldTools.FieldStart | tools/netfast/netfast.c:801-810 | Where the wanted field starts, or the end of the line when there are too few delimiters. |
| FieldTools.CutLine | tools/netfast/netfast.c:792-815 | The field of a reference split; the whole line without the delimiter, empty when the field is missing; text behind an embedded NUL is not looked at. |
| FieldTools.RunCut | tools/netfast/netfast.c:787-818 | One row per input line, for every way the input arrives in chunks. |
| FieldTools.AwkLine | tools/netfast/netfast.c:863-879 | The number of blank-separated words and the place of the wanted one, minus one when there is none. |
| FieldTools.WordsAre | tools/netfast/netfast.c:866-880 | Words are separated by spaces and tabs and by nothing else. |
| FieldTools.RunAwk | tools/netfast/netfast.c:858-889 | One row per input line: the word, nothing, or the count of words. |
| FieldTools.PlainInput | tools/netfast/netfast.c:787-889 | On NUL-free lines of at most 4095 bytes, cut and awk rows are the reference split of each newline-separated piece. |
| GrepPattern.PrintedCompiles | tools/netfast/netfast.c:970-1030 | Every well-formed pattern within the limits is handled and expands to its literals and anchors. |
| GrepPattern.CompiledIsPrinted | tools/netfast/netfast.c:970-1030 | Everything handled is such a pattern, written out. |
| GrepPattern.MeaningIsLits | tools/netfast/netfast.c:990-1026 | The words of the regular expression are exactly prefix, alternative and suffix put together. |
| GrepPattern.ExpansionMeans | tools/netfast/netfast.c:970-1046 | When no alternative is lost, a line holds one of the expanded literals if and only if it matches the regular expression. |
| GrepPattern.LostLine | tools/netfast/netfast.c:1005-1023 | Otherwise prefix and suffix joined match the expression and are not found. |
| GrepPattern.EmptyLineLost | tools/netfast/netfast.c:1005-1023 | For instance the pattern that also allows the empty line does not find it. |
| GrepPattern.MeaningKeptIff | tools/netfast/netfast.c:1005-1023 | Expansion keeps the meaning on every input line if and only if the last alternative is non-empty or an earlier one is empty. |
| GrepMeaning.PrintedReads | tools/netfast/netfast.c:970-1030 | The text of every such pattern, read as a POSIX regular expression, is an expression of its characters, alternatives and anchors. |
| GrepMeaning.PrintedMeans | tools/netfast/netfast.c:970-1046 | That expression matches a line if and only if the pattern is meant to. |
| GrepMeaning.CompiledMeans | tools/netfast/netfast.c:970-1046 | Whatever text is handled is read as a regular expression; a line with one of its literals matches it, and the other way round when no alternative is lost. |
| GrepMeaning.DotIsAny | tools/netfast/netfast.c:901-912 | For instance a dot matches any character and is handed to the real grep. |
| Grep.LiteralSafe | tools/netfast/netfast.c:901-912 | True exactly when none of the fourteen metacharacters occurs. |
| Grep.CollectAlternatives | tools/netfast/netfast.c:1005-1023 | Expands every visited alternative into at most eight literals below 128 bytes, or gives up exactly when one is unsafe, too long or the ninth, or there is none. |
| Grep.CompileAlternation | tools/netfast/netfast.c:990-1026 | Parsing of one parenthesised group with safe prefix and suffix. |
| Grep.CompileText | tools/netfast/netfast.c:970-1030 | Anchors stripped, then literal, group or fallback. |
| Grep.SubstringMatch | tools/netfast/netfast.c:914-931 | True exactly when the literal sits somewhere the anchors allow. |
| Grep.Scan | tools/netfast/netfast.c:1032-1046 | True exactly when some input line holds some literal. |
| Grep.GrepQuiet | tools/netfast/netfast.c:970-1046 | Status 0 or 1 from the compiled literals over all input lines, or none when the real grep takes over. |
| Grep.StatusIsSearch | tools/netfast/netfast.c:970-1046 | For every handled pattern that loses nothing the status is 0 if and only if some line matches the regular expression. |
| Grep.InputIsSearched | tools/netfast/netfast.c:970-1046 | On raw input the status is 0 if and only if some newline-separated piece matches the regular expression, each piece cut to 4095 bytes; when none is longer, whole. |
| Grep.TextIsSearched | tools/netfast/netfast.c:970-1046 | In terms of text and raw input alone: status 0 only if some piece matches the text as a regular expression, and status 1 only if none does when no alternative is lost. |
| RouteFile.RouteStore.constructor | tools/netfast/netfast.c:1333-1340 | A state file and the two buffers. |
| RouteFile.RouteStore.ReadState | tools/netfast/netfast.c:1281-1297 | As much of the file as fits, however many bytes each read delivers. |
| RouteFile.RouteStore.CopyLine | tools/netfast/netfast.c:1417-1431 | Copies a line unless it is empty, its first field is the destination, or it does not fit. |
| RouteFile.RouteStore.FilterLines | tools/netfast/netfast.c:1410-1435 | The new buffer holds every non-empty line of other destinations, in order; none is dropped for lack of room. |
| RouteFile.RouteStore.AppendRoute | tools/netfast/netfast.c:1436-1452 | The new line is appended when it fits and otherwise nothing changes. |
| RouteFile.RouteStore.Change | tools/netfast/netfast.c:1386-1455 | The whole new file for add and delete; a state of 16383 bytes or more, or a missing destination, leaves it alone. |
| RouteFile.RouteStore.ShowLine | tools/netfast/netfast.c:1351-1369 | The three fields of a line, each cut to 127 bytes. |
| RouteFile.RouteStore.Show | tools/netfast/netfast.c:1345-1385 | One row per line with a destination. |
| RouteText.KeptFits | tools/netfast/netfast.c:1410-1435 | Filtering never needs more than one byte beyond the old size. |
| RouteText.AlwaysFitsIff | tools/netfast/netfast.c:1436-1441 | A new line finds room in every state the code accepts if and only if its fields take fewer than 4094 bytes. |
| RouteMap.AsMapSet | tools/netfast/netfast.c:1386-1455 | Deleting the key and appending is setting it in the map. |
| RouteMap.AsMapRemove | tools/netfast/netfast.c:1386-1455 | Deleting a destination from the list is deleting it from the map. |
| RouteMap.KeptIsRemove | tools/netfast/netfast.c:1410-1435 | Filtering the text of a map deletes the destination from the map. |
| RouteMap.OneCommand | tools/netfast/netfast.c:1333-1460 | One command on the file is the map operation, and one line per destination is kept. |
| RouteMap.PutIsInMap | tools/netfast/netfast.c:1386-1455 | After an add the map holds the given gateway and device, an underscore for one not given, the loopback device for a loopback gateway without a device, and every other destination as before. |
| RouteMap.RunsAgree | tools/netfast/netfast.c:1333-1460 | After every run of commands with plain fields the file is the text of the ordered map they build. |
| RouteMap.RunsBuildTheMap | tools/netfast/netfast.c:1333-1460 | After every such run the routes are the map that setting, deleting and clearing alone build from any such list, and the file has exactly the size of that map; a map of 16383 bytes or more only clears. |
| RouteMap.ListsTheMap | tools/netfast/netfast.c:1345-1385 | Listing the text of a map gives its routes in order. |
| RouteMap.RowIs | tools/netfast/netfast.c:1345-1385 | Each field is listed up to 127 bytes, and a gateway or device that is an underscore is not. |
| PipeWitness.StepKeeps | tools/shell-tests/smp-scheduler-witness.c:383-442 | Every step of a worker or the reader keeps the invariant: one writer, bytes in order. |
| PipeWitness.EveryRun | tools/shell-tests/smp-scheduler-witness.c:264-277 | In every interleaving at most one claim succeeds, bytes read and in the pipe are a prefix of the intended ones, no byte is out of order, and an error-free end means all were read. |
| PipeWitness.ErrorsAreFailures | tools/shell-tests/smp-scheduler-witness.c:383-442 | In every interleaving the errors counted are exactly the calls and waits that failed. |
| PipeWitness.CleanRunPasses | tools/shell-tests/smp-scheduler-witness.c:383-442 | Every run to the end in which nothing fails reads all the bytes without an error. |
| PipeWitness.PassingRun | tools/shell-tests/smp-scheduler-witness.c:383-442 | With at least one worker some run reads every byte without an error. |
| PipeWitness.IntendedAt | tools/shell-tests/smp-scheduler-witness.c:396-434 | Byte k of the stream is the k-th character from `a` on, modulo 256. |
| VvarHandshake.StepKeeps | tools/shell-tests/vdso-vvar-smp-probe.c:266-297 | Every step of either thread keeps the agreement between its position, its counters and the flags. |
| VvarHandshake.EveryRun | tools/shell-tests/vdso-vvar-smp-probe.c:358-392 | In every interleaving updates follow reader_ready, reads follow the first completed update, and a pass means exactly the full counts of both. |
| VvarHandshake.SmoothRunPasses | tools/shell-tests/vdso-vvar-smp-probe.c:266-392 | However the threads interleave, a run in which no call, read or wait fails passes when it returns. |
| VvarHandshake.CanPassIff | tools/shell-tests/vdso-vvar-smp-probe.c:266-392 | Some run passes if and only if at least one update is asked for. |
| TraceNesting.RunHolds | tools/ltp-runtime-trace-summary.py:358-463 | Over every log: events are the begin lines, each ends at most once on an end line of its key, intervals of a key are nested or disjoint, no end line is wasted, children are exactly the events begun while open, and phase markers are the phase lines in order, every one of them, each with the innermost open event of its key as parent. |
| TraceNesting.StackIsSubsequence | tools/ltp-runtime-trace-summary.py:415-447 | Each open stack is the subsequence of the active list with its key. |
| TraceNesting.TopIsLatest | tools/ltp-runtime-trace-summary.py:433-447 | The event an end line ends is the latest open one of its key. |
| TraceNesting.AddChild | tools/ltp-runtime-trace-summary.py:424-427 | Exactly the active events get the new child. |
| TraceNesting.RemoveFirst | tools/ltp-runtime-trace-summary.py:446-447 | The active list without the ended event. |
| TraceNesting.FindParent | tools/ltp-runtime-trace-summary.py:457-461 | The last active event of the key, searched from the end. |
| TraceNesting.ParseLog | tools/ltp-runtime-trace-summary.py:358-463 | The loop computes that trace and ends in a state with all these properties, no phase line left out. |
| Watchdog.MakeChunk | tools/ltp-all-watchdog.py:148-157 | The longest run of cases within both limits, its comma-joined length within the limit unless it is a single case. |
| Watchdog.IndexOf | tools/ltp-all-watchdog.py:206-207 | The first place of a case from an index on. |
| Watchdog.Advance | tools/ltp-all-watchdog.py:202-226 | Whatever a chunk reported: the sweep resumes behind the timed-out case, or behind the last known case seen, at its first place from the chunk on; behind the chunk when its last case or no known case was seen; by the chunk size when the timed-out case is unknown; and it stops with an error exactly when the last known case lies before the chunk. |
| Watchdog.OneChunk | tools/ltp-all-watchdog.py:192-226 | One turn of the loop: its record, where it resumes and the case given up. |
| Watchdog.GaveUpIs | tools/ltp-all-watchdog.py:200-205 | The case given up is the last one run of a chunk that stalled, if any was run. |
| Watchdog.Sweep | tools/ltp-all-watchdog.py:184-228 | The loop ends; its chunks are linked from the first case to the last unless the chunk limit stops it; hard skips are the timed-out cases in order. |
| Watchdog.FromBefore | tools/ltp-all-watchdog.py:184-228 | At most one chunk per case passed. |
| Watchdog.RunOnce | tools/ltp-all-watchdog.py:184-228 | With distinct cases no case is run twice in a sweep. |
| Watchdog.Covered | tools/ltp-all-watchdog.py:184-228 | Every case passed was seen, or lies in a chunk that reported nothing. |

## Left out

- The assembler and objcopy passes, `parse_symbols`, `text_start`, `normalize_symbols` and `vvar_auipc_offset`: the image builder takes names, text and symbol addresses as input.
- vDSO inputs whose offsets or symbol addresses overflow their fields: excluded by the builder's input condition, where the build script would stop or wrap.
- The VVAR sequence lock and vdso.S are not part of this model.
- Netlink responses, sockets and the drain loop of the nft probe: environment.
- FaultExecutor.Executor.Run: file digests are compared as the contents they stand for; plan and reason texts, command lines and timeouts are not modelled.
- Splitting serial output into lines, ANSI handling and printing of the decoder; DWARF, symbol and instruction decoding.
- TrapRoundTrip.ReportsReadBack: lines around reports name no trap and no panic, and the first visible line behind a report opens no block; any other log is covered by the statements over every log.
- AddressDecode: only the rv64-qemu target, the one the code supports; ELF sections are arbitrary predicates on addresses.
- Ipv6Parser.ParseIpv6: C strings are NUL-free text read as NUL at their end.
- Command-line parsing of cut, awk, grep and ip, and their exec fallbacks; awk's number formatting.
- LineReader.Reader.ReadLine: input is a list of non-empty reads followed by end of input that stays at its end; read errors count as that end.
- RegexText.Read: character classes, equivalence classes, collating symbols, back-references and whatever POSIX leaves undefined are not read; none of them can occur in a pattern handled without the real grep.
- NftMeaning.RuleMeans: registers and expressions as far as this rule uses them; the answers of the kernel are not modelled.
- Grep.CompileText: a literal of 128 to 254 characters, which does not fit its slot in the code, gives an outcome of its own; what the code does with it is not modelled.
- Grep.GrepQuiet: a literal of 128 to 254 characters does not fit its slot in the code; the model stops there without a status. The 256-byte working copy and the slots are values, not memory. A newline inside a pattern is an ordinary character that matches nothing, where POSIX grep would split the pattern.
- RouteFile.RouteStore.ReadState: a read that fails ends the text early in the code; failures are not modelled.
- RouteFile.RouteStore.Change: failed reads, writes or renames of the state file are not modelled, nor the scan for `via` and `dev`.
- Weak memory in the two witnesses, and the spin limits except as an error exit; CPU masks and metrics other than errors and rounds.
- PipeWitness.EveryRun: one pipe case per process, as every selected case runs it once.
- Regular expressions that recognise trace markers, time stamps of begin markers, profile, trap and stress lines of the trace summary.
- Watchdog.Sweep: the runner reports an in-order prefix of each chunk; the fallback for a timed-out case that is not in the list cannot arise then.
- Scoring tables, LTP batch lists, lints, CI reports, image builders and smoke scripts: data or thin wrappers that would add only easy members.
