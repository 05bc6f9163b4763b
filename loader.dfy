/** The RISC-V loader (loader.c): it loads \kernel.bin from the volume it was
    started from, finds the device tree, asks for the boot hart, exits boot
    services and jumps to the kernel with (hart id, device-tree pointer).

    The behaviour is given twice: BootSequence is the reference semantics, a
    function of the firmware's answers; EfiMain is the step-by-step procedure
    of the source, run against a Firmware.Services object, and is proved to
    produce exactly the outcome and the call trace of BootSequence. The
    properties the loader promises are proved about BootSequence in module
    BootProperties. */
module Loader {
  import opened Efi
  import opened Firmware

  // Configuration, fixed at build time.
  const KernelPath: string := "\\kernel.bin"
  /** Standard RISC-V Linux kernel load address. */
  const KernelLoadAddr: uint64 := 0x8020_0000
  /** Where OpenSBI leaves the device tree. */
  const DtbLoadAddr: uint64 := 0x8220_0000
  /** Size of the loader's memory-map buffer. */
  const MaxMemoryMap: uint64 := 16384
  /** Size of the loader's EFI_FILE_INFO buffer. */
  const FileInfoBufferSize: uint64 := 512
  const FdtMagic: bv32 := 0xd00d_feed

  /** Physical memory, byte by byte. */
  type Memory = nat -> bv8

  // ---------------------------------------------------------------------
  // Words in memory
  // ---------------------------------------------------------------------

  /** A native 32-bit load: RISC-V is little-endian. */
  function LoadU32(mem: Memory, a: nat): bv32 {
    (mem(a) as bv32) | ((mem(a + 1) as bv32) << 8)
    | ((mem(a + 2) as bv32) << 16) | ((mem(a + 3) as bv32) << 24)
  }

  /** A native 64-bit load. */
  function LoadU64(mem: Memory, a: nat): bv64 {
    (LoadU32(mem, a) as bv64) | ((LoadU32(mem, a + 4) as bv64) << 32)
  }

  /** The big-endian 32-bit field stored at address a, the byte order of every
      field of a flattened device tree (Devicetree Specification, section 5.2). */
  function BigEndian32(mem: Memory, a: nat): bv32 {
    ((mem(a) as bv32) << 24) | ((mem(a + 1) as bv32) << 16)
    | ((mem(a + 2) as bv32) << 8) | (mem(a + 3) as bv32)
  }

  /** Byte i of a word, byte 0 being the least significant. */
  function ByteOf(x: bv32, i: nat): bv8
    requires i < 4
  {
    (if i == 0 then x & 0xff
     else if i == 1 then (x >> 8) & 0xff
     else if i == 2 then (x >> 16) & 0xff
     else x >> 24) as bv8
  }

  /** fdt32_to_cpu: swap the byte order of a 32-bit word. */
  function Fdt32ToCpu(x: bv32): (r: bv32)
    ensures ByteOf(r, 0) == ByteOf(x, 3) && ByteOf(r, 1) == ByteOf(x, 2)
    ensures ByteOf(r, 2) == ByteOf(x, 1) && ByteOf(r, 3) == ByteOf(x, 0)
  {
    ((x & 0xff00_0000) >> 24) | ((x & 0x00ff_0000) >> 8)
    | ((x & 0x0000_ff00) << 8) | ((x & 0x0000_00ff) << 24)
  }

  lemma Fdt32ToCpuInvolution(x: bv32)
    ensures Fdt32ToCpu(Fdt32ToCpu(x)) == x
  {
  }

  /** Swapping a native load gives the big-endian field. */
  lemma Fdt32ToCpuReadsBigEndian(mem: Memory, a: nat)
    ensures Fdt32ToCpu(LoadU32(mem, a)) == BigEndian32(mem, a)
  {
  }

  // ---------------------------------------------------------------------
  // Device tree
  // ---------------------------------------------------------------------

  /** GetDtbSize: the header's totalsize field when its magic field is
      0xd00dfeed, and 0 otherwise. */
  function GetDtbSize(mem: Memory, dtb: uint64): (size: bv32)
    ensures size == if BigEndian32(mem, dtb) == FdtMagic then BigEndian32(mem, dtb + 4) else 0
  {
    Fdt32ToCpuReadsBigEndian(mem, dtb);
    Fdt32ToCpuReadsBigEndian(mem, dtb + 4);
    if Fdt32ToCpu(LoadU32(mem, dtb)) != FdtMagic then 0
    else Fdt32ToCpu(LoadU32(mem, dtb + 4))
  }

  /** A device tree the loader accepts: at a non-null address, with the magic
      and a non-zero totalsize. */
  predicate AcceptableDtb(mem: Memory, a: uint64) {
    a != 0 && BigEndian32(mem, a) == FdtMagic && BigEndian32(mem, a + 4) != 0
  }

  /** An EFI_CONFIGURATION_TABLE entry; a null VendorTable is 0. */
  datatype ConfigEntry = ConfigEntry(vendorGuid: Guid, vendorTable: uint64)

  /** The part of EFI_SYSTEM_TABLE the loader reads directly: the
      configuration table, whose length is NumberOfTableEntries. */
  datatype SystemTable = SystemTable(configurationTable: seq<ConfigEntry>)

  /** Index of the first entry whose GUID compares equal to guid, or the
      table's length when there is none. */
  function FirstMatch(table: seq<ConfigEntry>, guid: Guid): (k: nat)
    ensures k <= |table|
    ensures forall j :: 0 <= j < k ==> !CompareGuid(table[j].vendorGuid, guid)
    ensures k < |table| ==> CompareGuid(table[k].vendorGuid, guid)
  {
    if table == [] then 0
    else if CompareGuid(table[0].vendorGuid, guid) then 0
    else 1 + FirstMatch(table[1..], guid)
  }

  /** The VendorTable of the first entry for guid, or null. */
  function VendorTableFor(table: seq<ConfigEntry>, guid: Guid): uint64 {
    var k := FirstMatch(table, guid);
    if k < |table| then table[k].vendorTable else 0
  }

  /** FindDtb: scan the configuration table for the device-tree GUID. */
  method FindDtb(st: SystemTable) returns (dtb: uint64)
    ensures dtb == VendorTableFor(st.configurationTable, DtbTableGuid)
  {
    var table := st.configurationTable;
    var i := 0;
    while i < |table|
      invariant 0 <= i <= |table|
      invariant forall j :: 0 <= j < i ==> !CompareGuid(table[j].vendorGuid, DtbTableGuid)
    {
      if CompareGuid(table[i].vendorGuid, DtbTableGuid) {
        return table[i].vendorTable;
      }
      i := i + 1;
    }
    return 0;
  }

  /** The device tree handed to the kernel: the configuration-table entry
      when it holds an acceptable tree, else the OpenSBI address when that
      holds one, else null. */
  function SelectDtb(table: seq<ConfigEntry>, mem: Memory): (dtb: uint64)
    ensures dtb == 0 || AcceptableDtb(mem, dtb)
    ensures AcceptableDtb(mem, VendorTableFor(table, DtbTableGuid)) ==> dtb == VendorTableFor(table, DtbTableGuid)
    ensures !AcceptableDtb(mem, VendorTableFor(table, DtbTableGuid)) ==>
              dtb == if AcceptableDtb(mem, DtbLoadAddr) then DtbLoadAddr else 0
  {
    var found := VendorTableFor(table, DtbTableGuid);
    if found != 0 && GetDtbSize(mem, found) > 0 then found
    else if GetDtbSize(mem, DtbLoadAddr) > 0 then DtbLoadAddr
    else 0
  }

  // ---------------------------------------------------------------------
  // Boot hart
  // ---------------------------------------------------------------------

  /** Offset of GetBootHartId in RISCV_EFI_BOOT_PROTOCOL, after Revision. */
  const GetBootHartIdOffset: nat := 8

  /** The hart id and the extended trace. */
  datatype HartIdResult = HartIdResult(hartId: uint64, calls: seq<Call>)

  /** GetBootHartId as a function of the firmware's answers, after trace t.
      hart_id starts at 0; the query is made only when LocateProtocol
      succeeds with a non-null protocol whose GetBootHartId is non-null, and
      whatever the query leaves in hart_id is the result, whatever its status. */
  function BootHartId(r: Oracle, t: seq<Call>, mem: Memory): HartIdResult {
    var locate := LocateProtocol(RiscvBootProtocolGuid);
    var a := r(|t|, locate);
    var protocol := a.out.GetOr(0);
    if !EfiError(a.status) && protocol != 0 && LoadU64(mem, protocol + GetBootHartIdOffset) != 0 then
      var query := QueryBootHartId(protocol);
      HartIdResult(r(|t| + 1, query).out.GetOr(0), t + [locate] + [query])
    else
      HartIdResult(0, t + [locate])
  }

  method GetBootHartId(fw: Services, mem: Memory) returns (hartId: uint64)
    requires fw.Valid()
    modifies fw
    ensures fw.Valid()
    ensures hartId == BootHartId(fw.respond, old(fw.trace), mem).hartId
    ensures fw.trace == BootHartId(fw.respond, old(fw.trace), mem).calls
  {
    hartId := 0;
    var a := fw.Invoke(LocateProtocol(RiscvBootProtocolGuid));
    var riscvBoot := a.out.GetOr(0);
    if !EfiError(a.status) && riscvBoot != 0 && LoadU64(mem, riscvBoot + GetBootHartIdOffset) != 0 {
      var q := fw.Invoke(QueryBootHartId(riscvBoot));
      hartId := q.out.GetOr(hartId);
    }
  }

  // ---------------------------------------------------------------------
  // The boot sequence
  // ---------------------------------------------------------------------

  /** How a run ends: efi_main returns EFI_LOAD_ERROR after the halt prompt;
      it spins on wfi after ExitBootServices failed twice; or it jumps to the
      kernel with a0 = hart id and a1 = device-tree pointer. */
  datatype Outcome = Halt(status: Status) | Spin | Jump(entry: uint64, hartId: uint64, dtb: uint64)

  /** An outcome with the calls that led to it. */
  datatype Run = Run(outcome: Outcome, calls: seq<Call>)

  /** The loading stages end either loaded at an address, or failed. */
  datatype Load = Loaded(calls: seq<Call>, kernelAddr: uint64) | LoadFailed(calls: seq<Call>)

  function Halted(t: seq<Call>): Run {
    Run(Halt(EfiLoadError), t)
  }

  /** The first HandleProtocol call. */
  const LoadedImageCall := HandleProtocol(ImageHandle, LoadedImageProtocolGuid)
  const FileSystemCall := HandleProtocol(LoadedImageDevice, SimpleFileSystemProtocolGuid)
  const OpenKernelCall := Open(KernelPath, EfiFileModeRead, 0)
  const GetInfoCall := GetInfo(FileInfoGuid, FileInfoBufferSize)
  const MemoryMapCall := GetMemoryMap(MaxMemoryMap)

  /** The allocation (loader.c:189-200), after trace t: AllocatePages at the fixed load address and,
      only if that fails, anywhere, both for the same pages of loader code.
      The address is in/out: each call starts from the current value. */
  function AllocateKernel(r: Oracle, t: seq<Call>, pages: uint64): Load {
    var fixed := AllocatePages(AllocateAddress, EfiLoaderCode, pages, KernelLoadAddr);
    var a := r(|t|, fixed);
    var addr := a.out.GetOr(KernelLoadAddr);
    if !EfiError(a.status) then Loaded(t + [fixed], addr)
    else
      var any := AllocatePages(AllocateAnyPages, EfiLoaderCode, pages, addr);
      var b := r(|t| + 1, any);
      if EfiError(b.status) then LoadFailed(t + [fixed] + [any]) else Loaded(t + [fixed] + [any], b.out.GetOr(addr))
  }

  /** The loading calls (loader.c:134-214): locate the volume, open the kernel, size it, allocate
      pages for it, read it and close the files. Each function below makes
      one call after trace t and stops at its failure. */
  function LoadKernel(r: Oracle): Load {
    var t: seq<Call> := [];
    if EfiError(r(|t|, LoadedImageCall).status) then LoadFailed(t + [LoadedImageCall])
    else GetFileSystem(r, t + [LoadedImageCall])
  }

  function GetFileSystem(r: Oracle, t: seq<Call>): Load {
    if EfiError(r(|t|, FileSystemCall).status) then LoadFailed(t + [FileSystemCall])
    else OpenRoot(r, t + [FileSystemCall])
  }

  function OpenRoot(r: Oracle, t: seq<Call>): Load {
    if EfiError(r(|t|, OpenVolume).status) then LoadFailed(t + [OpenVolume])
    else OpenKernel(r, t + [OpenVolume])
  }

  function OpenKernel(r: Oracle, t: seq<Call>): Load {
    if EfiError(r(|t|, OpenKernelCall).status) then LoadFailed(t + [OpenKernelCall])
    else GetKernelInfo(r, t + [OpenKernelCall])
  }

  /** GetInfo yields the file size, from which the page count follows. */
  function GetKernelInfo(r: Oracle, t: seq<Call>): Load {
    var info := r(|t|, GetInfoCall);
    if EfiError(info.status) then LoadFailed(t + [GetInfoCall])
    else
      var size := info.out.GetOr(0);
      ReadKernel(r, AllocateKernel(r, t + [GetInfoCall], SizeToPages(size)), size)
  }

  /** Reading and closing (loader.c:203-214), after a successful allocation: Read the whole file to
      the allocated address, then Close both files (their status unchecked). */
  function ReadKernel(r: Oracle, alloc: Load, size: uint64): Load {
    match alloc
    case LoadFailed(t) => alloc
    case Loaded(t, kernelAddr) =>
      var read := Read(size, kernelAddr);
      if EfiError(r(|t|, read).status) then LoadFailed(t + [read])
      else Loaded(t + [read] + [Close(KernelFile)] + [Close(RootDir)], kernelAddr)
  }

  /** The handoff (loader.c:250-290), after trace t: snapshot the memory map, exit boot
      services, and on failure re-snapshot and retry once. */
  function Handoff(r: Oracle, t: seq<Call>, entry: uint64, hartId: uint64, dtb: uint64): Run {
    var map1 := r(|t|, MemoryMapCall);
    if EfiError(map1.status) then Halted(t + [MemoryMapCall]) else
    var key := map1.out.GetOr(0);
    var exit1 := ExitBootServices(ImageHandle, key);
    var t1 := t + [MemoryMapCall] + [exit1];
    if !EfiError(r(|t| + 1, exit1).status) then Run(Jump(entry, hartId, dtb), t1) else
    var key2 := r(|t1|, MemoryMapCall).out.GetOr(key);
    var exit2 := ExitBootServices(ImageHandle, key2);
    var t2 := t1 + [MemoryMapCall] + [exit2];
    if EfiError(r(|t1| + 1, exit2).status) then Run(Spin, t2) else Run(Jump(entry, hartId, dtb), t2)
  }

  /** The whole of efi_main as a function of the firmware's answers, the
      configuration table and memory. */
  function BootSequence(r: Oracle, table: seq<ConfigEntry>, mem: Memory): Run {
    match LoadKernel(r)
    case LoadFailed(t) => Halted(t)
    case Loaded(t, kernelAddr) =>
      var dtb := SelectDtb(table, mem);
      var hart := BootHartId(r, t, mem);
      Handoff(r, hart.calls, kernelAddr, hart.hartId, dtb)
  }

  /** The loading calls of efi_main (loader.c:134-214). Each `goto halt`
      returns loaded == false. */
  method LoadKernelImage(fw: Services) returns (loaded: bool, kernelAddr: uint64)
    requires fw.Valid() && fw.trace == []
    modifies fw
    ensures fw.Valid()
    ensures loaded == LoadKernel(fw.respond).Loaded?
    ensures fw.trace == LoadKernel(fw.respond).calls
    ensures loaded ==> kernelAddr == LoadKernel(fw.respond).kernelAddr
  {
    ghost var r := fw.respond;
    kernelAddr := KernelLoadAddr;
    var a := fw.Invoke(LoadedImageCall);
    var status := a.status;
    if EfiError(status) { return false, kernelAddr; }

    assert LoadKernel(r) == GetFileSystem(r, fw.trace);
    a := fw.Invoke(FileSystemCall);
    status := a.status;
    if EfiError(status) { return false, kernelAddr; }

    assert LoadKernel(r) == OpenRoot(r, fw.trace);
    a := fw.Invoke(OpenVolume);
    status := a.status;
    if EfiError(status) { return false, kernelAddr; }

    assert LoadKernel(r) == OpenKernel(r, fw.trace);
    a := fw.Invoke(Open(KernelPath, EfiFileModeRead, 0));
    status := a.status;
    if EfiError(status) { return false, kernelAddr; }

    assert LoadKernel(r) == GetKernelInfo(r, fw.trace);
    var fileInfoSize := FileInfoBufferSize;
    a := fw.Invoke(GetInfo(FileInfoGuid, fileInfoSize));
    status := a.status;
    if EfiError(status) { return false, kernelAddr; }
    var kernelSize := a.out.GetOr(0);

    // Allocate at the fixed address, else anywhere.
    ghost var t5 := fw.trace;
    var pages := SizeToPages(kernelSize);
    assert LoadKernel(r) == ReadKernel(r, AllocateKernel(r, t5, pages), kernelSize);
    a := fw.Invoke(AllocatePages(AllocateAddress, EfiLoaderCode, pages, kernelAddr));
    status := a.status;
    kernelAddr := a.out.GetOr(kernelAddr);
    if EfiError(status) {
      a := fw.Invoke(AllocatePages(AllocateAnyPages, EfiLoaderCode, pages, kernelAddr));
      status := a.status;
      kernelAddr := a.out.GetOr(kernelAddr);
      if EfiError(status) {
        assert AllocateKernel(r, t5, pages) == LoadFailed(fw.trace);
        assert ReadKernel(r, LoadFailed(fw.trace), kernelSize) == LoadFailed(fw.trace);
        return false, kernelAddr;
      }
    }
    assert AllocateKernel(r, t5, pages) == Loaded(fw.trace, kernelAddr);

    a := fw.Invoke(Read(kernelSize, kernelAddr));
    status := a.status;
    kernelSize := a.out.GetOr(kernelSize);
    if EfiError(status) { return false, kernelAddr; }

    // Close results are ignored.
    a := fw.Invoke(Close(KernelFile));
    a := fw.Invoke(Close(RootDir));
    return true, kernelAddr;
  }

  /** The handoff (loader.c:250-290): memory map, ExitBootServices, one retry, then the
      jump to the kernel or the wfi loop. */
  method ExitBootServicesAndEnter(fw: Services, kernelAddr: uint64, hartId: uint64, dtb: uint64)
    returns (outcome: Outcome)
    requires fw.Valid()
    modifies fw
    ensures fw.Valid()
    ensures Run(outcome, fw.trace) == Handoff(fw.respond, old(fw.trace), kernelAddr, hartId, dtb)
  {
    var memoryMapSize := MaxMemoryMap;
    var a := fw.Invoke(GetMemoryMap(memoryMapSize));
    var status := a.status;
    if EfiError(status) { return Halt(EfiLoadError); }
    var mapKey := a.out.GetOr(0);

    a := fw.Invoke(ExitBootServices(ImageHandle, mapKey));
    status := a.status;
    if EfiError(status) {
      // The memory map may have changed: snapshot it again and retry once.
      memoryMapSize := MaxMemoryMap;
      a := fw.Invoke(GetMemoryMap(memoryMapSize));
      mapKey := a.out.GetOr(mapKey);
      a := fw.Invoke(ExitBootServices(ImageHandle, mapKey));
      status := a.status;
    }

    // After a failed ExitBootServices nothing may be called: spin.
    if EfiError(status) { return Spin; }

    // Boot services are gone: enter the kernel with a0 = hart id, a1 = dtb.
    return Jump(kernelAddr, hartId, dtb);
  }

  /** efi_main. Every `goto halt` becomes a return of Halt(EFI_LOAD_ERROR);
      the wfi loops become Spin; the call of the kernel entry becomes Jump. */
  method EfiMain(fw: Services, st: SystemTable, mem: Memory) returns (outcome: Outcome)
    requires fw.Valid() && fw.trace == []
    modifies fw
    ensures fw.Valid()
    ensures outcome == BootSequence(fw.respond, st.configurationTable, mem).outcome
    ensures fw.trace == BootSequence(fw.respond, st.configurationTable, mem).calls
  {
    var loaded, kernelAddr := LoadKernelImage(fw);
    if !loaded { return Halt(EfiLoadError); }

    // Device tree: configuration table first, then the OpenSBI location.
    var origDtb := FindDtb(st);
    var dtbSize: bv32 := 0;
    if origDtb != 0 {
      dtbSize := GetDtbSize(mem, origDtb);
      if dtbSize == 0 {
        origDtb := 0;  // invalid: try the fallback
      }
    }
    if origDtb == 0 || dtbSize == 0 {
      origDtb := DtbLoadAddr;
      dtbSize := GetDtbSize(mem, origDtb);
      if dtbSize == 0 {
        origDtb := 0;
      }
    }
    var dtb := origDtb;

    var hartId := GetBootHartId(fw, mem);
    outcome := ExitBootServicesAndEnter(fw, kernelAddr, hartId, dtb);
  }
}
