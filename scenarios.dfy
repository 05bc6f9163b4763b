/** Four concrete boots, each against one particular firmware: the kernel
    found and loaded at the fixed address (A), the kernel missing (B), the
    fixed address taken (C), and a stale map key on the first
    ExitBootServices (D). */
module Scenarios {
  import opened Efi
  import opened Firmware
  import opened Loader
  import opened BootProperties

  /** Where the firmware's configuration table says the device tree is. */
  const TreeAddr: uint64 := 0x8700_0000
  /** The RISCV_EFI_BOOT_PROTOCOL instance the firmware hands out. */
  const BootProtocolAddr: uint64 := 0x8f00_0000
  /** The hart the firmware reports as the boot hart. */
  const ReportedHart: uint64 := 3

  /** Memory holding a device-tree header at TreeAddr (magic 0xd00dfeed,
      totalsize 0x1000, both big-endian) and a non-null GetBootHartId
      member in the boot protocol. */
  function PlatformMemory(): Memory {
    (a: nat) =>
      if a == TreeAddr then 0xd0 else if a == TreeAddr + 1 then 0x0d
      else if a == TreeAddr + 2 then 0xfe else if a == TreeAddr + 3 then 0xed
      else if a == TreeAddr + 6 then 0x10
      else if a == BootProtocolAddr + GetBootHartIdOffset then 0x40
      else 0
  }

  const PlatformTable: seq<ConfigEntry> := [ConfigEntry(DtbTableGuid, TreeAddr)]

  /** Scenario A: a 342-byte kernel, the fixed address free, the boot
      protocol present. Every call succeeds and leaves its out-parameter
      alone, except GetInfo (the size), LocateProtocol (the protocol) and
      the query (the hart). */
  function FirmwareA(): Oracle {
    (i: nat, c: Call) =>
      match c
      case GetInfo(_, _) => Answer(EfiSuccess, Some(342))
      case LocateProtocol(_) => Answer(EfiSuccess, Some(BootProtocolAddr))
      case QueryBootHartId(_) => Answer(EfiSuccess, Some(ReportedHart))
      case _ => Answer(EfiSuccess, None)
  }

  /** The five stage calls succeed when each of them is answered without error. */
  lemma StagesPass(r: Oracle)
    requires !EfiError(r(0, LoadedImageCall).status) && !EfiError(r(1, FileSystemCall).status)
    requires !EfiError(r(2, OpenVolume).status) && !EfiError(r(3, OpenKernelCall).status)
    requires !EfiError(r(4, GetInfoCall).status)
    ensures StagesSucceed(r, 5)
  {
    forall i | 0 <= i < 5
      ensures !FailedAt(r, Stages, i)
    {
      assert Stages[i] == [LoadedImageCall, FileSystemCall, OpenVolume, OpenKernelCall, GetInfoCall][i];
    }
  }

  /** Handoff after trace t when the first ExitBootServices is accepted. */
  lemma FirstExitAccepted(r: Oracle, t: seq<Call>, entry: uint64, hartId: uint64, dtb: uint64, key: uint64)
    requires !EfiError(r(|t|, MemoryMapCall).status) && r(|t|, MemoryMapCall).out.GetOr(0) == key
    requires !EfiError(r(|t| + 1, ExitBootServices(ImageHandle, key)).status)
    ensures Handoff(r, t, entry, hartId, dtb) ==
      Run(Jump(entry, hartId, dtb), t + [MemoryMapCall] + [ExitBootServices(ImageHandle, key)])
  {
  }

  /** Handoff after trace t when the first ExitBootServices is refused and
      the retry with the second snapshot's key is accepted. */
  lemma SecondExitAccepted(r: Oracle, t: seq<Call>, entry: uint64, hartId: uint64, dtb: uint64, key1: uint64, key2: uint64)
    requires !EfiError(r(|t|, MemoryMapCall).status) && r(|t|, MemoryMapCall).out.GetOr(0) == key1
    requires EfiError(r(|t| + 1, ExitBootServices(ImageHandle, key1)).status)
    requires r(|t| + 2, MemoryMapCall).out.GetOr(key1) == key2
    requires !EfiError(r(|t| + 3, ExitBootServices(ImageHandle, key2)).status)
    ensures Handoff(r, t, entry, hartId, dtb) ==
      Run(Jump(entry, hartId, dtb), t + [MemoryMapCall] + [ExitBootServices(ImageHandle, key1)]
          + [MemoryMapCall] + [ExitBootServices(ImageHandle, key2)])
  {
    assert |t + [MemoryMapCall] + [ExitBootServices(ImageHandle, key1)]| == |t| + 2;
  }

  /** The calls of a successful load of a one-page kernel at the fixed address. */
  function LoadedCalls(size: uint64): seq<Call> {
    Stages + [AllocatePages(AllocateAddress, EfiLoaderCode, 1, KernelLoadAddr)]
    + [Read(size, KernelLoadAddr)] + [Close(KernelFile)] + [Close(RootDir)]
  }

  /** The loading calls against any firmware that passes the five stage calls,
      reports a 342-byte kernel, grants the fixed address without moving it
      and reads the file: one page at the fixed address, then the read and
      the two closes. */
  lemma LoadsAtFixedAddress(r: Oracle)
    requires StagesSucceed(r, 5) && FileSize(r) == 342
    requires r(5, AllocatePages(AllocateAddress, EfiLoaderCode, 1, KernelLoadAddr)) == Answer(EfiSuccess, None)
    requires !EfiError(r(6, Read(342, KernelLoadAddr)).status)
    ensures LoadKernel(r) == Loaded(LoadedCalls(342), KernelLoadAddr)
  {
    assert SizeToPages(342) == 1;
    LoadKernelAfterStages(r);
    var fixed := AllocatePages(AllocateAddress, EfiLoaderCode, 1, KernelLoadAddr);
    assert AllocateKernel(r, Stages, 1) == Loaded(Stages + [fixed], KernelLoadAddr);
  }

  lemma ScenarioALoads()
    ensures LoadKernel(FirmwareA()) == Loaded(LoadedCalls(342), KernelLoadAddr)
  {
    var r := FirmwareA();
    StagesPass(r);
    LoadsAtFixedAddress(r);
  }

  /** A: the configuration table's device tree is accepted. */
  lemma ScenarioATree()
    ensures SelectDtb(PlatformTable, PlatformMemory()) == TreeAddr
  {
    CompareGuidIsEquality(DtbTableGuid, DtbTableGuid);
    assert VendorTableFor(PlatformTable, DtbTableGuid) == TreeAddr;
    assert AcceptableDtb(PlatformMemory(), TreeAddr);
  }

  /** A: the boot protocol is found and queried, and its answer is the hart. */
  lemma ScenarioAHart()
    ensures BootHartId(FirmwareA(), LoadedCalls(342), PlatformMemory()) == HartIdResult(ReportedHart, HartCallsA())
  {
    assert LoadU64(PlatformMemory(), BootProtocolAddr + GetBootHartIdOffset) != 0;
  }

  /** The calls up to the memory-map snapshot in scenario A. */
  function HartCallsA(): seq<Call> {
    LoadedCalls(342) + [LocateProtocol(RiscvBootProtocolGuid)] + [QueryBootHartId(BootProtocolAddr)]
  }

  /** A: the first ExitBootServices, with the key the snapshot left at 0, succeeds. */
  lemma ScenarioAExits()
    ensures Handoff(FirmwareA(), HartCallsA(), KernelLoadAddr, ReportedHart, TreeAddr) ==
      Run(Jump(KernelLoadAddr, ReportedHart, TreeAddr), HartCallsA() + [MemoryMapCall] + [ExitBootServices(ImageHandle, 0)])
  {
    var t := HartCallsA();
    assert FirmwareA()(|t|, MemoryMapCall) == Answer(EfiSuccess, None);
    assert FirmwareA()(|t| + 1, ExitBootServices(ImageHandle, 0)) == Answer(EfiSuccess, None);
    FirstExitAccepted(FirmwareA(), t, KernelLoadAddr, ReportedHart, TreeAddr, 0);
  }

  /** A: the kernel gets one page at the fixed address and is entered there
      with the reported hart and the configuration table's device tree,
      after a single ExitBootServices. */
  lemma ScenarioA()
    ensures BootSequence(FirmwareA(), PlatformTable, PlatformMemory()) ==
      Run(Jump(KernelLoadAddr, ReportedHart, TreeAddr), HartCallsA() + [MemoryMapCall] + [ExitBootServices(ImageHandle, 0)])
  {
    var r, mem := FirmwareA(), PlatformMemory();
    ScenarioALoads();
    ScenarioATree();
    ScenarioAHart();
    LoadedRun(r, PlatformTable, mem);
    ScenarioAExits();
  }

  /** Scenario B: the volume holds no \kernel.bin, so Open fails. */
  function FirmwareB(): Oracle {
    (i: nat, c: Call) =>
      match c
      case Open(_, _, _) => Answer(EfiNotFound, None)
      case _ => Answer(EfiSuccess, None)
  }

  /** B: the loader halts right after the failed Open, having allocated
      nothing and left boot services running. */
  lemma ScenarioB(table: seq<ConfigEntry>, mem: Memory)
    ensures BootSequence(FirmwareB(), table, mem) ==
      Halted([LoadedImageCall, FileSystemCall, OpenVolume, OpenKernelCall])
    ensures NoAllocation(BootSequence(FirmwareB(), table, mem).calls)
    ensures NoExit(BootSequence(FirmwareB(), table, mem).calls)
  {
    var r := FirmwareB();
    assert StagesSucceed(r, 3) && FailedAt(r, Stages, 3);
    EarlyStageFailureHalts(r, table, mem, 3);
    assert Stages[..4] == [LoadedImageCall, FileSystemCall, OpenVolume, OpenKernelCall];
  }

  /** Where the firmware places the kernel when the fixed address is taken. */
  const FallbackAddr: uint64 := 0x9000_0000

  /** Scenario C: the fixed load address is taken; anywhere else the firmware
      grants FallbackAddr. No boot protocol and no device tree. */
  function FirmwareC(): Oracle {
    (i: nat, c: Call) =>
      match c
      case GetInfo(_, _) => Answer(EfiSuccess, Some(342))
      case AllocatePages(allocType, _, _, _) =>
        if allocType == AllocateAddress then Answer(EfiNotFound, None) else Answer(EfiSuccess, Some(FallbackAddr))
      case LocateProtocol(_) => Answer(EfiNotFound, None)
      case _ => Answer(EfiSuccess, None)
  }

  /** The calls of scenario C up to the memory-map snapshot. */
  function CallsC(): seq<Call> {
    Stages + [AllocatePages(AllocateAddress, EfiLoaderCode, 1, KernelLoadAddr)]
    + [AllocatePages(AllocateAnyPages, EfiLoaderCode, 1, KernelLoadAddr)]
    + [Read(342, FallbackAddr)] + [Close(KernelFile)] + [Close(RootDir)]
    + [LocateProtocol(RiscvBootProtocolGuid)]
  }

  /** C, the loading calls: both allocations are made, and the kernel is read to
      the address of the second. */
  lemma ScenarioCLoads()
    ensures LoadKernel(FirmwareC()) == Loaded(CallsC()[..|CallsC()| - 1], FallbackAddr)
  {
    var r := FirmwareC();
    StagesPass(r);
    assert FileSize(r) == 342;
    assert SizeToPages(342) == 1;
    LoadKernelAfterStages(r);
    var fixed := AllocatePages(AllocateAddress, EfiLoaderCode, 1, KernelLoadAddr);
    var any := AllocatePages(AllocateAnyPages, EfiLoaderCode, 1, KernelLoadAddr);
    assert r(5, fixed) == Answer(EfiNotFound, None);
    assert r(6, any) == Answer(EfiSuccess, Some(FallbackAddr));
    assert AllocateKernel(r, Stages, 1) == Loaded(Stages + [fixed] + [any], FallbackAddr);
  }

  /** C: with no boot protocol the hart id stays 0; with no tree anywhere the
      device-tree pointer is null. */
  lemma ScenarioCHartAndTree(t: seq<Call>)
    ensures BootHartId(FirmwareC(), t, ZeroMemory()) == HartIdResult(0, t + [LocateProtocol(RiscvBootProtocolGuid)])
    ensures SelectDtb([], ZeroMemory()) == 0
  {
  }

  /** Memory with nothing in it. */
  function ZeroMemory(): Memory {
    (a: nat) => 0
  }

  lemma ScenarioCExits()
    ensures Handoff(FirmwareC(), CallsC(), FallbackAddr, 0, 0) ==
      Run(Jump(FallbackAddr, 0, 0), CallsC() + [MemoryMapCall] + [ExitBootServices(ImageHandle, 0)])
  {
    var t := CallsC();
    assert FirmwareC()(|t|, MemoryMapCall) == Answer(EfiSuccess, None);
    assert FirmwareC()(|t| + 1, ExitBootServices(ImageHandle, 0)) == Answer(EfiSuccess, None);
    FirstExitAccepted(FirmwareC(), t, FallbackAddr, 0, 0, 0);
  }

  /** C: the kernel is entered at the address the second allocation returned,
      with hart 0 and no device tree. */
  lemma ScenarioC()
    ensures BootSequence(FirmwareC(), [], ZeroMemory()) ==
      Run(Jump(FallbackAddr, 0, 0), CallsC() + [MemoryMapCall] + [ExitBootServices(ImageHandle, 0)])
  {
    var r, mem := FirmwareC(), ZeroMemory();
    ScenarioCLoads();
    var l := CallsC()[..|CallsC()| - 1];
    ScenarioCHartAndTree(l);
    assert l + [LocateProtocol(RiscvBootProtocolGuid)] == CallsC();
    LoadedRun(r, [], mem);
    ScenarioCExits();
  }

  /** Scenario D: GetMemoryMap returns the index of the call as the map key,
      and ExitBootServices refuses key 10, the key of the first snapshot. */
  function FirmwareD(): Oracle {
    (i: nat, c: Call) =>
      match c
      case GetInfo(_, _) => Answer(EfiSuccess, Some(342))
      case LocateProtocol(_) => Answer(EfiNotFound, None)
      case GetMemoryMap(_) => Answer(EfiSuccess, Some(i % Two64))
      case ExitBootServices(_, key) => if key == 10 then Answer(EfiInvalidParameter, None) else Answer(EfiSuccess, None)
      case _ => Answer(EfiSuccess, None)
  }

  /** The calls of scenario D up to the first memory-map snapshot. */
  function CallsD(): seq<Call> {
    LoadedCalls(342) + [LocateProtocol(RiscvBootProtocolGuid)]
  }

  lemma ScenarioDLoads()
    ensures LoadKernel(FirmwareD()) == Loaded(LoadedCalls(342), KernelLoadAddr)
  {
    var r := FirmwareD();
    StagesPass(r);
    LoadsAtFixedAddress(r);
  }

  lemma ScenarioDHart()
    ensures BootHartId(FirmwareD(), LoadedCalls(342), ZeroMemory()) == HartIdResult(0, CallsD())
  {
  }

  lemma ScenarioDExits()
    ensures Handoff(FirmwareD(), CallsD(), KernelLoadAddr, 0, 0) ==
      Run(Jump(KernelLoadAddr, 0, 0), CallsD() + [MemoryMapCall] + [ExitBootServices(ImageHandle, 10)]
          + [MemoryMapCall] + [ExitBootServices(ImageHandle, 12)])
  {
    var r := FirmwareD();
    assert |CallsD()| == 10;
    assert r(10, MemoryMapCall) == Answer(EfiSuccess, Some(10));
    assert r(11, ExitBootServices(ImageHandle, 10)).status == EfiInvalidParameter;
    assert r(12, MemoryMapCall) == Answer(EfiSuccess, Some(12));
    assert r(13, ExitBootServices(ImageHandle, 12)).status == EfiSuccess;
    SecondExitAccepted(r, CallsD(), KernelLoadAddr, 0, 0, 10, 12);
  }

  /** D: the first ExitBootServices is refused; the loader takes a new
      snapshot, retries with its key and enters the kernel. */
  lemma ScenarioD()
    ensures BootSequence(FirmwareD(), [], ZeroMemory()) ==
      Run(Jump(KernelLoadAddr, 0, 0), CallsD() + [MemoryMapCall] + [ExitBootServices(ImageHandle, 10)]
          + [MemoryMapCall] + [ExitBootServices(ImageHandle, 12)])
  {
    var r, mem := FirmwareD(), ZeroMemory();
    ScenarioDLoads();
    ScenarioDHart();
    assert SelectDtb([], mem) == 0;
    LoadedRun(r, [], mem);
    ScenarioDExits();
  }
}
