# riscv-efi-loader, modelled in Dafny

riscv-efi-loader is a UEFI application for RISC-V. It runs in five steps:

1. It loads the raw kernel image `\kernel.bin` from the EFI system partition it was started from, at 0x80200000 or, failing that, anywhere.
2. It finds the flattened device tree, either in the firmware's configuration table or at OpenSBI's address 0x82200000.
3. It asks the RISC-V boot protocol for the boot hart.
4. It exits boot services, retrying once with a fresh memory-map key.
5. It jumps to the kernel with a0 = hart id and a1 = device-tree pointer.

This project models two things:

- the pure helpers of `efi.h` and `loader.c`: the status-code convention, page arithmetic, GUID comparison, `fdt32_to_cpu`, `GetDtbSize`, `FindDtb` and `GetBootHartId`;
- the boot-handoff sequence `efi_main`, run against an abstract firmware.

Modules:

- `Efi` (`efi.dfy`) holds the UEFI 2.10 definitions that have behaviour: EFI_STATUS as a 64-bit word, `EFIERR`/`EFI_ERROR` (UEFI 2.10, Appendix D), `EFI_SIZE_TO_PAGES`, the GUID layout and `CompareGuid`, and the `EFI_ALLOCATE_TYPE` and `EFI_MEMORY_TYPE` enumerations.
- `Firmware` (`firmware.dfy`) holds the firmware as the loader sees it.
  - Every boot-service or protocol call is a `Call` value. The gnu-efi helper `LibLocateProtocol` is one `LocateProtocol` call (see "## Left out").
  - An oracle gives the answer: the status, plus the value left in the call's out-parameter, if any.
  - The oracle sees the call's position in the run and its arguments. Every property below therefore holds for every firmware.
  - The class `Services` makes the calls and records them in a ghost trace.
- `Loader` (`loader.dfy`) holds two things:
  - the loader's helpers;
  - `efi_main`, given twice. `BootSequence` is a function of the firmware's answers, the configuration table and memory. It yields the outcome (`Halt`, `Spin` or `Jump(entry, hartId, dtb)`) and the exact list of calls made. `EfiMain` is the procedure as the source writes it, with its locals and `goto halt` exits. It runs over a `Services` object and is proved to return that outcome and to make exactly those calls.
- `BootProperties` (`boot_properties.dfy`) holds the properties of the sequence, proved about `BootSequence` for all firmware answers.
- `Scenarios` (`scenarios.dfy`) holds four concrete firmwares and the runs they produce:
  - the kernel is loaded at the fixed address;
  - the kernel file is missing;
  - the fixed address is taken;
  - the first ExitBootServices is refused because of a stale map key.

## Model

| member | source | states |
|---|---|---|
| Efi.EfiErrSetsOnlyBit63 | efi.h:43 | EFIERR(a) keeps bits 0 to 62 of a and sets bit 63; for a below 2^63 it is a + 2^63 |
| Efi.EfiErrorIffHighBit | efi.h:44 | EFI_ERROR(s), the sign test of s read as INTN, holds exactly when s >= 2^63 |
| Efi.EfiErrIsError | efi.h:42-44 | every value EFIERR builds is an error, and EFI_SUCCESS is not |
| Efi.ErrorCodesDistinct | efi.h:42-52 | the eight named error codes are errors, pairwise distinct, and differ from EFI_SUCCESS |
| Efi.SizeToPagesIsCeiling | efi.h:432-433 | for s <= 2^64 - 4096, EFI_SIZE_TO_PAGES(s) is the ceiling of s / 4096, and 0 for s = 0 |
| Efi.SizeToPagesMonotone | efi.h:433 | EFI_SIZE_TO_PAGES is monotone while there is no wrap-around |
| Efi.SizeToPagesOfPages | efi.h:433 | a whole number k of pages converts back to k |
| Efi.SizeToPagesWraps | efi.h:433 | in 64-bit arithmetic a size within the last page below 2^64 gives 0 pages |
| Efi.CompareGuidIsByteEquality | efi.h:436-440 | comparing the two 64-bit words of each GUID is comparing all 16 bytes |
| Efi.GuidBytesInjective | efi.h:82-87 | the 16-byte little-endian layout of EFI_GUID determines its four fields |
| Efi.CompareGuidIsEquality | efi.h:436-440 | CompareGuid is equality of GUIDs, hence reflexive and symmetric |
| Firmware.Services.constructor | loader.c:102-103 | a run starts with no firmware call made |
| Firmware.Services.Invoke | loader.c:136-137 | each firmware call is appended to the trace and gets the firmware's answer for that position and those arguments |
| Loader.Fdt32ToCpu | loader.c:44-50 | byte i of the result is byte 3 - i of the argument |
| Loader.Fdt32ToCpuInvolution | loader.c:44-50 | swapping twice gives back the word |
| Loader.Fdt32ToCpuReadsBigEndian | loader.c:57-60 | swapping a native (little-endian) load gives the big-endian header field |
| Loader.GetDtbSize | loader.c:55-61 | the big-endian totalsize field when the big-endian magic field is 0xd00dfeed, else 0 |
| Loader.FirstMatch | loader.c:70-74 | the index of the first entry whose GUID compares equal, or the length of the table when there is none |
| Loader.FindDtb | loader.c:66-76 | the scan returns the VendorTable of the lowest-index entry for the device-tree GUID, or null |
| Loader.SelectDtb | loader.c:218-243 | the configuration-table tree when it is non-null and GetDtbSize > 0 there; else 0x82200000 when GetDtbSize > 0 there; else null; the result is null or an acceptable tree |
| Loader.GetBootHartId | loader.c:81-92 | the procedure returns the hart id and makes the calls that BootHartId gives for the firmware's answers |
| Loader.LoadKernelImage | loader.c:134-214 | the loading calls make exactly the calls of LoadKernel and report its success and its kernel address |
| Loader.ExitBootServicesAndEnter | loader.c:250-290 | the memory-map, ExitBootServices and retry steps make exactly the calls of Handoff and end as it does |
| Loader.EfiMain | loader.c:102-296 | efi_main makes exactly the calls of BootSequence and ends with its outcome |
| BootProperties.LoadKernelAfterStages | loader.c:136-191 | when the five stage calls succeed, loading goes on after exactly those calls to the allocation of EFI_SIZE_TO_PAGES(FileSize) pages and the read of FileSize bytes |
| BootProperties.LoadKernelEarlyFailure | loader.c:136-183 | when stage call k (counting from 0) is the first to fail, the load fails with exactly the stage calls 0 to k |
| BootProperties.EarlyStageFailureHalts | loader.c:136-186 | a failing HandleProtocol, OpenVolume, Open or GetInfo halts with EFI_LOAD_ERROR right after that call, with no AllocatePages and no ExitBootServices |
| BootProperties.AllocateThenRead | loader.c:189-214 | after any calls, the whole result in each of the five cases: fixed allocation and Read succeed gives Loaded(fixed, Read, Close, Close) at the returned address; fixed allocation succeeds and Read fails gives LoadFailed ending with the Read; both allocations fail gives LoadFailed(fixed, any) with no Read; only the any-address allocation succeeds gives the same two Read cases after it, from the address the first call left and into the address it returned |
| BootProperties.AllocateThenReadSteps | loader.c:189-209 | the same, call by call: the fixed-address allocation first, then the Read or the any-address allocation for the same pages and type, then the Read; a double failure ends the calls with no Read |
| BootProperties.AllocationPolicy | loader.c:189-209 | the same in the run itself: call 5 is AllocatePages(AllocateAddress, EfiLoaderCode, pages, 0x80200000); call 6 is the Read or the any-address call; after a double failure the load fails after 7 calls with no Read |
| BootProperties.LoadKernelShape | loader.c:136-214 | loading makes only loading calls; every Read directly follows a successful allocation and targets the address it returned; a failed load ends with the failing call; a successful one ends with the Read to the kernel address and the two Closes |
| BootProperties.BothAllocationsFailHalts | loader.c:193-199 | when both allocations fail the run halts right after them, with no Read and no ExitBootServices |
| BootProperties.ReadFailureHalts | loader.c:205-209 | a Read that fails after a successful allocation, fixed or any-address, halts the run with EFI_LOAD_ERROR right after it, with no Close and no ExitBootServices |
| BootProperties.FallbackAddressIsEntry | loader.c:195-201 | when only the any-address allocation succeeds, the kernel address and the jump target are the address it returned |
| BootProperties.BootHartIdShape | loader.c:81-92 | one LocateProtocol call (the LibLocateProtocol helper), then the query exactly when the protocol lookup succeeded with a non-null protocol whose GetBootHartId is non-null; without the query the hart id is 0 |
| BootProperties.BootHartIdDefaultsToZero | loader.c:85-90 | a non-zero hart id means the query was made |
| BootProperties.BootHartIdIgnoresQueryStatus | loader.c:88-89 | two firmwares that differ only in the query's status give the same hart id and calls |
| BootProperties.HandoffShape | loader.c:250-285 | one GetMemoryMap of 16384 bytes; a halt exactly when it fails; otherwise ExitBootServices with its key; after a refusal, GetMemoryMap again and ExitBootServices with the new key (or the old one if none was written); Spin exactly when the second attempt fails; Jump with the given arguments exactly when the last attempt succeeds |
| BootProperties.HandoffIgnoresDtb | loader.c:250-285 | the device-tree pointer changes neither the calls nor whether the run halts or spins, so a null tree never causes a halt |
| BootProperties.LoadedRun | loader.c:216-262 | after a successful load the run is the hart query followed by the handoff, with no ExitBootServices before it |
| BootProperties.RunHaltsAndExits | loader.c:136-296 | a run halts (with EFI_LOAD_ERROR, after a failed call) exactly when it never called ExitBootServices; ExitBootServices is called at most twice, each time right after a GetMemoryMap of 16384 bytes, the first only if it failed |
| BootProperties.RunKeysAndEnd | loader.c:250-290 | each ExitBootServices uses the key of the snapshot just before it; the run spins exactly when its last call is a failed second ExitBootServices and jumps exactly when its last call is a successful ExitBootServices, after which nothing is called |
| BootProperties.RunReadsFollowAllocation | loader.c:189-209 | in every run, every Read directly follows a successful allocation and reads FileSize bytes into the address that allocation returned |
| BootProperties.JumpArguments | loader.c:284-285 | a jump happens only after a successful load, to the loaded address, with the selected tree and the GetBootHartId result, and that address is the target of a Read that followed a successful allocation returning it |
| BootProperties.TableOnlyChoosesDtb | loader.c:216-243 | the configuration table changes neither the calls nor whether the run halts or spins, nor the entry and hart of a jump |
| BootProperties.VendorTableForIsFirstEqual | loader.c:66-76 | the configuration-table lookup gives null when no entry has the GUID, and otherwise the VendorTable of the first entry that has it |
| Scenarios.ScenarioA | loader.c:102-285 | a 342-byte kernel, a free fixed address, a valid tree in the configuration table and the boot protocol: one page at 0x80200000, entry there with the reported hart and the table's tree, after one ExitBootServices |
| Scenarios.ScenarioB | loader.c:164-172 | a missing \kernel.bin: halt right after the Open call, with no allocation and no ExitBootServices |
| Scenarios.ScenarioC | loader.c:189-201 | a taken fixed address: the any-address allocation is made and the kernel is read to and entered at the address it returned, with hart 0 and no tree |
| Scenarios.ScenarioD | loader.c:260-285 | a stale first key: ExitBootServices with key 10 is refused, a new snapshot gives key 12, and the retry with it succeeds and enters the kernel once |

## Left out

- Console output is not modelled: `Print`, the banner and `%r` formatting (loader.c:126-132 and the Print lines throughout). Neither is `InitializeLib`, nor the wait for a key press after the halt message (loader.c:293-294). These are gnu-efi library I/O, and `Halt(EFI_LOAD_ERROR)` is the terminal outcome.
- The layouts of the function-pointer tables and structures of `efi.h` (boot services, system table, protocol and file-info structures) are not modelled. They are ABI scaffolding. Calls are abstract `Call` values. The system table is reduced to its configuration table.
- The jump through the cast function pointer and the `wfi` loops (loader.c:273-275, 284-290) are the terminal outcomes `Jump` and `Spin`. The safety-net loop after the kernel entry (loader.c:288-290) is not reachable in the model, because the kernel never returns.
- The contents of the memory map and of `EFI_FILE_INFO` are left out. Only the values the loader uses are modelled: the map key and the file size, as the out-values of GetMemoryMap and GetInfo. A GetInfo that leaves the size unwritten gives 0.
- The bytes Read writes into the kernel's pages are not modelled. The memory that `GetDtbSize` and `GetBootHartId` read is an input that the firmware calls do not change.
- The Close results, and the out-parameters of `HandleProtocol` and `OpenVolume` (the interface pointers), are not modelled. The loader never tests the Close results, and the model only records the Close calls. The interface pointers are only passed on to later calls, so the model identifies them by `Handle` and `FileRef` values.
- `LibLocateProtocol` (loader.c:87) is a gnu-efi library routine whose body is not part of this model. It is abstracted as a single `LocateProtocol` call with its status and the protocol pointer it yields; any firmware calls it makes internally are not in the trace.
- Loader.LoadKernelImage: there is no check that Read read the whole file. The source checks only Read's status and ignores the updated `KernelSize` (loader.c:205-209).
- Loader.GetBootHartId: the status of the `GetBootHartId` query is ignored, as in the source (loader.c:88-89). The hart id is whatever the query left, and 0 if it left nothing.
- Loader.SelectDtb: a tree is accepted only when its magic is 0xd00dfeed and its `totalsize` is non-zero. The source tests `GetDtbSize > 0` (loader.c:222-223, 233-234), not the magic alone.
- Efi.SizeToPages: the 64-bit wrap-around of `s + 4095` is kept as written. The ceiling property is therefore stated for sizes up to 2^64 - 4096, and the wrap is stated separately.
- The real loader is one function. It is modelled as three methods (`LoadKernelImage`, `ExitBootServicesAndEnter` and `EfiMain`) that make the same calls in the same order.
- The x86_64/ACPI variant of the loader is not part of this model.
