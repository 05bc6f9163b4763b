/** What the loader promises, proved about its reference semantics
    Loader.BootSequence (to which Loader.EfiMain is proved equal). The i-th
    call of a run is answered by r(i, calls[i]), so every property below is
    stated over the call trace and the answers the firmware gave to it. */
module BootProperties {
  import opened Efi
  import opened Firmware
  import opened Loader

  /** The five stage calls (loader.c:136-183), in order: the loaded-image and file-system
      lookups, OpenVolume, Open of the kernel, and GetInfo. */
  const Stages: seq<Call> := [LoadedImageCall, FileSystemCall, OpenVolume, OpenKernelCall, GetInfoCall]

  /** The i-th call of a trace was answered with an error. */
  predicate FailedAt(r: Oracle, calls: seq<Call>, i: nat)
    requires i < |calls|
  {
    EfiError(r(i, calls[i]).status)
  }

  /** The first k stage calls all succeed. */
  predicate StagesSucceed(r: Oracle, k: nat)
    requires k <= |Stages|
  {
    forall i :: 0 <= i < k ==> !FailedAt(r, Stages, i)
  }

  /** The kernel's size, from the FileSize field GetInfo fills in. */
  function FileSize(r: Oracle): uint64 {
    r(4, GetInfoCall).out.GetOr(0)
  }

  /** Calls made before ExitBootServices can end boot services. */
  predicate LoadingCall(c: Call) {
    c.HandleProtocol? || c.OpenVolume? || c.Open? || c.GetInfo? || c.AllocatePages? || c.Read? || c.Close?
  }

  predicate AllLoading(calls: seq<Call>) {
    forall i :: 0 <= i < |calls| ==> LoadingCall(calls[i])
  }

  predicate NoExit(calls: seq<Call>) {
    forall i :: 0 <= i < |calls| ==> !calls[i].ExitBootServices?
  }

  predicate NoAllocation(calls: seq<Call>) {
    forall i :: 0 <= i < |calls| ==> !calls[i].AllocatePages?
  }

  predicate NoRead(calls: seq<Call>) {
    forall i :: 0 <= i < |calls| ==> !calls[i].Read?
  }

  /** Every Read in the calls comes right after an allocation that
      succeeded, reads size bytes, and goes to the address that allocation
      returned (the address passed in, if it wrote none). */
  predicate ReadsFollowAllocation(r: Oracle, l: seq<Call>, size: uint64) {
    forall j :: 0 <= j < |l| && l[j].Read? ==>
      j > 0 && l[j - 1].AllocatePages? && !FailedAt(r, l, j - 1) &&
      l[j] == Read(size, r(j - 1, l[j - 1]).out.GetOr(l[j - 1].memory))
  }

  /** How the loading stages end: with loading calls only, reads placed as
      ReadsFollowAllocation says; a failed load with the call that failed; a
      successful one with a successful Read into the kernel's address,
      followed by the two Close calls. */
  predicate LoadShape(r: Oracle, load: Load, size: uint64) {
    var l := load.calls; var n := |l|;
    n > 0 && AllLoading(l) && ReadsFollowAllocation(r, l, size) &&
    (load.LoadFailed? ==> FailedAt(r, l, n - 1)) &&
    (load.Loaded? ==>
       n >= 4 && l[n - 3] == Read(size, load.kernelAddr) && !FailedAt(r, l, n - 3) &&
       l[n - 2] == Close(KernelFile) && l[n - 1] == Close(RootDir))
  }

  lemma AppendLoading(l: seq<Call>, c: Call)
    requires AllLoading(l) && LoadingCall(c)
    ensures AllLoading(l + [c])
  {
    assert forall i :: 0 <= i < |l| ==> (l + [c])[i] == l[i];
  }

  lemma AppendNonRead(r: Oracle, l: seq<Call>, c: Call, size: uint64)
    requires ReadsFollowAllocation(r, l, size) && !c.Read?
    ensures ReadsFollowAllocation(r, l + [c], size)
  {
    var m := l + [c];
    forall j | 0 <= j < |m| && m[j].Read?
      ensures j > 0 && m[j - 1].AllocatePages? && !FailedAt(r, m, j - 1) &&
        m[j] == Read(size, r(j - 1, m[j - 1]).out.GetOr(m[j - 1].memory))
    {
      assert m[j] == l[j] && m[j - 1] == l[j - 1];
    }
  }

  /** A Read of size bytes into the address a successful allocation just
      returned keeps ReadsFollowAllocation. */
  lemma AppendRead(r: Oracle, l: seq<Call>, size: uint64)
    requires ReadsFollowAllocation(r, l, size)
    requires |l| > 0 && l[|l| - 1].AllocatePages? && !FailedAt(r, l, |l| - 1)
    ensures ReadsFollowAllocation(r, l + [Read(size, r(|l| - 1, l[|l| - 1]).out.GetOr(l[|l| - 1].memory))], size)
  {
    var m := l + [Read(size, r(|l| - 1, l[|l| - 1]).out.GetOr(l[|l| - 1].memory))];
    forall j | 0 <= j < |m| && m[j].Read?
      ensures j > 0 && m[j - 1].AllocatePages? && !FailedAt(r, m, j - 1) &&
        m[j] == Read(size, r(j - 1, m[j - 1]).out.GetOr(m[j - 1].memory))
    {
      assert m[j - 1] == l[j - 1];
      if j < |l| { assert m[j] == l[j]; }
    }
  }

  // ---------------------------------------------------------------------
  // The stage calls: volume, kernel file and its size (loader.c:136-186)
  // ---------------------------------------------------------------------

  /** After the five stage calls succeed, loading continues with the
      allocation for the size GetInfo reported. */
  lemma LoadKernelAfterStages(r: Oracle)
    requires StagesSucceed(r, 5)
    ensures LoadKernel(r) == ReadKernel(r, AllocateKernel(r, Stages, SizeToPages(FileSize(r))), FileSize(r))
  {
    var t: seq<Call> := [];
    assert !FailedAt(r, Stages, 0) && !FailedAt(r, Stages, 1) && !FailedAt(r, Stages, 2);
    assert !FailedAt(r, Stages, 3) && !FailedAt(r, Stages, 4);
    assert LoadKernel(r) == GetFileSystem(r, t + [LoadedImageCall]);
    assert LoadKernel(r) == OpenRoot(r, t + [LoadedImageCall] + [FileSystemCall]);
    assert LoadKernel(r) == OpenKernel(r, t + [LoadedImageCall] + [FileSystemCall] + [OpenVolume]);
    assert LoadKernel(r) == GetKernelInfo(r, t + [LoadedImageCall] + [FileSystemCall] + [OpenVolume] + [OpenKernelCall]);
    assert t + [LoadedImageCall] + [FileSystemCall] + [OpenVolume] + [OpenKernelCall] + [GetInfoCall] == Stages;
  }

  /** Loading stops right after the first stage call that fails. */
  lemma LoadKernelEarlyFailure(r: Oracle, k: nat)
    requires k < |Stages|
    requires StagesSucceed(r, k) && FailedAt(r, Stages, k)
    ensures LoadKernel(r) == LoadFailed(Stages[..k + 1])
  {
    var t: seq<Call> := [];
    var t1 := t + [LoadedImageCall];
    var t2 := t1 + [FileSystemCall];
    var t3 := t2 + [OpenVolume];
    var t4 := t3 + [OpenKernelCall];
    var t5 := t4 + [GetInfoCall];
    assert t1 == Stages[..1] && t2 == Stages[..2] && t3 == Stages[..3] && t4 == Stages[..4] && t5 == Stages[..5];
    if k == 0 {
      assert LoadKernel(r) == LoadFailed(t1);
    } else {
      assert !FailedAt(r, Stages, 0);
      assert LoadKernel(r) == GetFileSystem(r, t1);
      if k == 1 {
        assert GetFileSystem(r, t1) == LoadFailed(t2);
      } else {
        assert !FailedAt(r, Stages, 1);
        assert GetFileSystem(r, t1) == OpenRoot(r, t2);
        if k == 2 {
          assert OpenRoot(r, t2) == LoadFailed(t3);
        } else {
          assert !FailedAt(r, Stages, 2);
          assert OpenRoot(r, t2) == OpenKernel(r, t3);
          if k == 3 {
            assert OpenKernel(r, t3) == LoadFailed(t4);
          } else {
            assert !FailedAt(r, Stages, 3);
            assert OpenKernel(r, t3) == GetKernelInfo(r, t4);
            assert GetKernelInfo(r, t4) == LoadFailed(t5);
          }
        }
      }
    }
  }

  /** The stage calls are loading calls and none of them is a Read. */
  lemma StagesShape(r: Oracle, size: uint64)
    ensures AllLoading(Stages) && ReadsFollowAllocation(r, Stages, size)
  {
  }

  /** A load that failed at stage call k has LoadShape. */
  lemma StagePrefixShape(r: Oracle, k: nat, size: uint64)
    requires k < |Stages| && FailedAt(r, Stages, k)
    ensures LoadShape(r, LoadFailed(Stages[..k + 1]), size)
  {
    var l := Stages[..k + 1];
    forall i | 0 <= i < |l|
      ensures LoadingCall(l[i]) && !l[i].Read?
    {
      assert l[i] == Stages[i];
    }
    assert l[k] == Stages[k];
  }

  /** A failing HandleProtocol, OpenVolume, Open or GetInfo halts with
      EFI_LOAD_ERROR right after that call: in particular a kernel that
      cannot be opened is never allocated for, and boot services are never
      exited. */
  lemma EarlyStageFailureHalts(r: Oracle, table: seq<ConfigEntry>, mem: Memory, k: nat)
    requires k < |Stages|
    requires StagesSucceed(r, k) && FailedAt(r, Stages, k)
    ensures BootSequence(r, table, mem) == Halted(Stages[..k + 1])
    ensures NoAllocation(BootSequence(r, table, mem).calls)
    ensures NoExit(BootSequence(r, table, mem).calls)
  {
    LoadKernelEarlyFailure(r, k);
    var c := Stages[..k + 1];
    forall i | 0 <= i < |c|
      ensures !c[i].AllocatePages? && !c[i].ExitBootServices?
    {
      assert c[i] == Stages[i];
    }
  }

  // ---------------------------------------------------------------------
  // Allocation, read, close (loader.c:189-214)
  // ---------------------------------------------------------------------

  /** The allocation at the fixed load address, for ceil(size / 4096)
      pages of loader code. */
  function FixedAllocation(r: Oracle): Call {
    AllocatePages(AllocateAddress, EfiLoaderCode, SizeToPages(FileSize(r)), KernelLoadAddr)
  }

  /** Allocation, read and close after any trace t, in each of the five
      ways they can go. The fixed-address allocation is always made first.
      The any-address allocation is made only when it failed, for the same
      pages and memory type, from the address the first call left. When
      both fail nothing is read. Otherwise the file is read into the address
      the successful call returned: a failed Read ends the load right
      there, and a successful one is followed by the two Close calls. */
  lemma AllocateThenRead(r: Oracle, t: seq<Call>, pages: uint64, size: uint64)
    ensures var fixed := AllocatePages(AllocateAddress, EfiLoaderCode, pages, KernelLoadAddr);
      var addr := r(|t|, fixed).out.GetOr(KernelLoadAddr); var read := Read(size, addr);
      !EfiError(r(|t|, fixed).status) && EfiError(r(|t| + 1, read).status) ==>
        ReadKernel(r, AllocateKernel(r, t, pages), size) == LoadFailed(t + [fixed, read])
    ensures var fixed := AllocatePages(AllocateAddress, EfiLoaderCode, pages, KernelLoadAddr);
      var addr := r(|t|, fixed).out.GetOr(KernelLoadAddr); var read := Read(size, addr);
      !EfiError(r(|t|, fixed).status) && !EfiError(r(|t| + 1, read).status) ==>
        ReadKernel(r, AllocateKernel(r, t, pages), size) ==
          Loaded(t + [fixed, read, Close(KernelFile), Close(RootDir)], addr)
    ensures var fixed := AllocatePages(AllocateAddress, EfiLoaderCode, pages, KernelLoadAddr);
      var any := AllocatePages(AllocateAnyPages, EfiLoaderCode, pages, r(|t|, fixed).out.GetOr(KernelLoadAddr));
      EfiError(r(|t|, fixed).status) && EfiError(r(|t| + 1, any).status) ==>
        ReadKernel(r, AllocateKernel(r, t, pages), size) == LoadFailed(t + [fixed, any])
    ensures var fixed := AllocatePages(AllocateAddress, EfiLoaderCode, pages, KernelLoadAddr);
      var any := AllocatePages(AllocateAnyPages, EfiLoaderCode, pages, r(|t|, fixed).out.GetOr(KernelLoadAddr));
      var addr := r(|t| + 1, any).out.GetOr(any.memory); var read := Read(size, addr);
      EfiError(r(|t|, fixed).status) && !EfiError(r(|t| + 1, any).status) && EfiError(r(|t| + 2, read).status) ==>
        ReadKernel(r, AllocateKernel(r, t, pages), size) == LoadFailed(t + [fixed, any, read])
    ensures var fixed := AllocatePages(AllocateAddress, EfiLoaderCode, pages, KernelLoadAddr);
      var any := AllocatePages(AllocateAnyPages, EfiLoaderCode, pages, r(|t|, fixed).out.GetOr(KernelLoadAddr));
      var addr := r(|t| + 1, any).out.GetOr(any.memory); var read := Read(size, addr);
      EfiError(r(|t|, fixed).status) && !EfiError(r(|t| + 1, any).status) && !EfiError(r(|t| + 2, read).status) ==>
        ReadKernel(r, AllocateKernel(r, t, pages), size) ==
          Loaded(t + [fixed, any, read, Close(KernelFile), Close(RootDir)], addr)
  {
    var fixed := AllocatePages(AllocateAddress, EfiLoaderCode, pages, KernelLoadAddr);
    var a := r(|t|, fixed);
    var addr := a.out.GetOr(KernelLoadAddr);
    var any := AllocatePages(AllocateAnyPages, EfiLoaderCode, pages, addr);
    if !EfiError(a.status) {
      var read := Read(size, addr);
      assert AllocateKernel(r, t, pages) == Loaded(t + [fixed], addr);
      assert t + [fixed] + [read] == t + [fixed, read];
      assert t + [fixed] + [read] + [Close(KernelFile)] + [Close(RootDir)] ==
        t + [fixed, read, Close(KernelFile), Close(RootDir)];
    } else if EfiError(r(|t| + 1, any).status) {
      assert AllocateKernel(r, t, pages) == LoadFailed(t + [fixed] + [any]);
      assert t + [fixed] + [any] == t + [fixed, any];
    } else {
      var addr2 := r(|t| + 1, any).out.GetOr(addr);
      var read := Read(size, addr2);
      assert AllocateKernel(r, t, pages) == Loaded(t + [fixed] + [any], addr2);
      assert t + [fixed] + [any] + [read] == t + [fixed, any, read];
      assert t + [fixed] + [any] + [read] + [Close(KernelFile)] + [Close(RootDir)] ==
        t + [fixed, any, read, Close(KernelFile), Close(RootDir)];
    }
  }

  /** The same, call by call: the calls right after t are the fixed
      allocation, then the Read or the any-address allocation, then the
      Read; a double failure ends the calls with no Read. */
  lemma AllocateThenReadSteps(r: Oracle, t: seq<Call>, pages: uint64, size: uint64)
    ensures var l := ReadKernel(r, AllocateKernel(r, t, pages), size).calls;
      |l| > |t| + 1 && l[..|t|] == t &&
      l[|t|] == AllocatePages(AllocateAddress, EfiLoaderCode, pages, KernelLoadAddr)
    ensures var l := ReadKernel(r, AllocateKernel(r, t, pages), size).calls;
      !FailedAt(r, l, |t|) ==> l[|t| + 1] == Read(size, r(|t|, l[|t|]).out.GetOr(KernelLoadAddr))
    ensures var l := ReadKernel(r, AllocateKernel(r, t, pages), size).calls;
      FailedAt(r, l, |t|) ==>
        l[|t| + 1] == AllocatePages(AllocateAnyPages, EfiLoaderCode, pages, r(|t|, l[|t|]).out.GetOr(KernelLoadAddr))
    ensures var run := ReadKernel(r, AllocateKernel(r, t, pages), size); var l := run.calls;
      FailedAt(r, l, |t|) && FailedAt(r, l, |t| + 1) ==>
        run.LoadFailed? && |l| == |t| + 2 && NoRead(l[|t|..])
    ensures var l := ReadKernel(r, AllocateKernel(r, t, pages), size).calls;
      FailedAt(r, l, |t|) && !FailedAt(r, l, |t| + 1) ==>
        |l| > |t| + 2 && l[|t| + 2] == Read(size, r(|t| + 1, l[|t| + 1]).out.GetOr(l[|t| + 1].memory))
  {
    AllocateThenRead(r, t, pages, size);
    var fixed := AllocatePages(AllocateAddress, EfiLoaderCode, pages, KernelLoadAddr);
    var addr := r(|t|, fixed).out.GetOr(KernelLoadAddr);
    var any := AllocatePages(AllocateAnyPages, EfiLoaderCode, pages, addr);
    var l := ReadKernel(r, AllocateKernel(r, t, pages), size).calls;
    if !EfiError(r(|t|, fixed).status) {
      var read := Read(size, addr);
      assert l[..|t| + 2] == t + [fixed, read];
      assert l[..|t|] == l[..|t| + 2][..|t|];
      assert l[|t|] == l[..|t| + 2][|t|] && l[|t| + 1] == l[..|t| + 2][|t| + 1];
    } else if EfiError(r(|t| + 1, any).status) {
      assert l[|t|..] == [fixed, any];
    } else {
      var read := Read(size, r(|t| + 1, any).out.GetOr(addr));
      assert l[..|t| + 3] == t + [fixed, any, read];
      assert l[..|t|] == l[..|t| + 3][..|t|];
      assert l[|t|] == l[..|t| + 3][|t|] && l[|t| + 1] == l[..|t| + 3][|t| + 1];
      assert l[|t| + 2] == l[..|t| + 3][|t| + 2];
    }
  }

  /** The allocation policy of the loader itself: once the stage calls
      succeed, call 5 is the fixed allocation, a failed one is followed by
      the any-address allocation and a successful one by the Read; when
      both allocations fail, loading fails after them with no Read. */
  lemma AllocationPolicy(r: Oracle)
    requires StagesSucceed(r, 5)
    ensures var l := LoadKernel(r).calls;
      |l| > 6 && l[..5] == Stages && l[5] == FixedAllocation(r) &&
      (!FailedAt(r, l, 5) ==> l[6] == Read(FileSize(r), r(5, l[5]).out.GetOr(KernelLoadAddr))) &&
      (FailedAt(r, l, 5) ==>
         l[6] == AllocatePages(AllocateAnyPages, EfiLoaderCode, SizeToPages(FileSize(r)), r(5, l[5]).out.GetOr(KernelLoadAddr)))
    ensures var l := LoadKernel(r).calls;
      FailedAt(r, l, 5) && FailedAt(r, l, 6) ==> LoadKernel(r).LoadFailed? && |l| == 7 && NoRead(l)
    ensures var l := LoadKernel(r).calls;
      FailedAt(r, l, 5) && !FailedAt(r, l, 6) ==>
        |l| > 7 && l[7] == Read(FileSize(r), r(6, l[6]).out.GetOr(l[6].memory))
  {
    LoadKernelAfterStages(r);
    AllocateThenReadSteps(r, Stages, SizeToPages(FileSize(r)), FileSize(r));
    var l := LoadKernel(r).calls;
    if FailedAt(r, l, 5) && FailedAt(r, l, 6) {
      forall i | 0 <= i < |l|
        ensures !l[i].Read?
      {
        if i < 5 {
          assert l[i] == Stages[i];
        } else {
          assert l[i] == l[5..][i - 5];
        }
      }
    }
  }

  /** How the allocation stage ends after a trace t of loading calls: a
      failure with the failed call, a success with a successful
      AllocatePages whose returned address is the kernel's. */
  predicate AllocShape(r: Oracle, alloc: Load, size: uint64) {
    var u := alloc.calls; var n := |u|;
    n > 0 && AllLoading(u) && ReadsFollowAllocation(r, u, size) &&
    (alloc.LoadFailed? ==> FailedAt(r, u, n - 1)) &&
    (alloc.Loaded? ==>
       u[n - 1].AllocatePages? && !FailedAt(r, u, n - 1) &&
       alloc.kernelAddr == r(n - 1, u[n - 1]).out.GetOr(u[n - 1].memory))
  }

  lemma AllocateKernelShape(r: Oracle, t: seq<Call>, pages: uint64, size: uint64)
    requires AllLoading(t) && ReadsFollowAllocation(r, t, size)
    ensures AllocShape(r, AllocateKernel(r, t, pages), size)
    ensures |AllocateKernel(r, t, pages).calls| > |t|
  {
    var fixed := AllocatePages(AllocateAddress, EfiLoaderCode, pages, KernelLoadAddr);
    var a := r(|t|, fixed);
    var addr := a.out.GetOr(KernelLoadAddr);
    var any := AllocatePages(AllocateAnyPages, EfiLoaderCode, pages, addr);
    AppendLoading(t, fixed);
    AppendNonRead(r, t, fixed, size);
    var t1 := t + [fixed];
    if EfiError(a.status) {
      AppendLoading(t1, any);
      AppendNonRead(r, t1, any, size);
      assert AllocateKernel(r, t, pages).calls == t1 + [any];
    } else {
      assert AllocateKernel(r, t, pages) == Loaded(t1, addr);
    }
  }

  lemma ReadKernelShape(r: Oracle, alloc: Load, size: uint64)
    requires AllocShape(r, alloc, size)
    ensures LoadShape(r, ReadKernel(r, alloc, size), size)
    ensures |ReadKernel(r, alloc, size).calls| >= |alloc.calls|
    ensures ReadKernel(r, alloc, size).Loaded? ==> |ReadKernel(r, alloc, size).calls| == |alloc.calls| + 3
  {
    if alloc.Loaded? {
      var u := alloc.calls;
      var read := Read(size, alloc.kernelAddr);
      AppendRead(r, u, size);
      AppendLoading(u, read);
      var u1 := u + [read];
      if !EfiError(r(|u|, read).status) {
        AppendLoading(u1, Close(KernelFile));
        AppendNonRead(r, u1, Close(KernelFile), size);
        var u2 := u1 + [Close(KernelFile)];
        AppendLoading(u2, Close(RootDir));
        AppendNonRead(r, u2, Close(RootDir), size);
        assert ReadKernel(r, alloc, size).calls == u2 + [Close(RootDir)];
      }
    }
  }

  /** A load that fails at one of the stage calls has LoadShape. */
  lemma EarlyFailureShape(r: Oracle)
    requires !StagesSucceed(r, 5)
    ensures LoadKernel(r).LoadFailed? && LoadShape(r, LoadKernel(r), FileSize(r))
  {
    var k: nat :| k < 5 && FailedAt(r, Stages, k) && StagesSucceed(r, k);
    LoadKernelEarlyFailure(r, k);
    StagePrefixShape(r, k, FileSize(r));
  }

  /** The loading stages end as LoadShape says; a successful load has
      made at least nine calls. */
  lemma LoadKernelShape(r: Oracle)
    ensures LoadShape(r, LoadKernel(r), FileSize(r))
    ensures LoadKernel(r).Loaded? ==> |LoadKernel(r).calls| >= 9
  {
    if !StagesSucceed(r, 5) {
      EarlyFailureShape(r);
    } else {
      LoadKernelAfterStages(r);
      StagesShape(r, FileSize(r));
      AllocateKernelShape(r, Stages, SizeToPages(FileSize(r)), FileSize(r));
      ReadKernelShape(r, AllocateKernel(r, Stages, SizeToPages(FileSize(r))), FileSize(r));
    }
  }

  /** The any-address allocation the loader makes after the fixed one failed. */
  function AnyAllocation(r: Oracle): Call {
    AllocatePages(AllocateAnyPages, EfiLoaderCode, SizeToPages(FileSize(r)), r(5, FixedAllocation(r)).out.GetOr(KernelLoadAddr))
  }

  /** The stage calls followed by calls that do not exit boot services
      do not exit boot services. */
  lemma StagesThenNoExit(extra: seq<Call>)
    requires NoExit(extra)
    ensures NoExit(Stages + extra)
  {
    var c := Stages + extra;
    forall i | 0 <= i < |c|
      ensures !c[i].ExitBootServices?
    {
      if i < |Stages| {
        assert c[i] == Stages[i];
      } else {
        assert c[i] == extra[i - |Stages|];
      }
    }
  }

  /** A Read that fails after a successful allocation, at the fixed address
      or anywhere, halts the loader right after it: no Close and no
      ExitBootServices. */
  lemma ReadFailureHalts(r: Oracle, table: seq<ConfigEntry>, mem: Memory)
    requires StagesSucceed(r, 5)
    ensures var fixed := FixedAllocation(r);
      var read := Read(FileSize(r), r(5, fixed).out.GetOr(KernelLoadAddr));
      !EfiError(r(5, fixed).status) && EfiError(r(6, read).status) ==>
        BootSequence(r, table, mem) == Halted(Stages + [fixed, read]) && NoExit(BootSequence(r, table, mem).calls)
    ensures var fixed, any := FixedAllocation(r), AnyAllocation(r);
      var read := Read(FileSize(r), r(6, any).out.GetOr(any.memory));
      EfiError(r(5, fixed).status) && !EfiError(r(6, any).status) && EfiError(r(7, read).status) ==>
        BootSequence(r, table, mem) == Halted(Stages + [fixed, any, read]) && NoExit(BootSequence(r, table, mem).calls)
  {
    LoadKernelAfterStages(r);
    AllocateThenRead(r, Stages, SizeToPages(FileSize(r)), FileSize(r));
    var fixed, any := FixedAllocation(r), AnyAllocation(r);
    if !EfiError(r(5, fixed).status) {
      var read := Read(FileSize(r), r(5, fixed).out.GetOr(KernelLoadAddr));
      StagesThenNoExit([fixed, read]);
    }
    if EfiError(r(5, fixed).status) && !EfiError(r(6, any).status) {
      var read := Read(FileSize(r), r(6, any).out.GetOr(any.memory));
      StagesThenNoExit([fixed, any, read]);
    }
  }

  /** When both allocations fail the loader halts right after them: no
      Read, no ExitBootServices. */
  lemma BothAllocationsFailHalts(r: Oracle, table: seq<ConfigEntry>, mem: Memory)
    requires StagesSucceed(r, 5)
    requires EfiError(r(5, FixedAllocation(r)).status) && EfiError(r(6, AnyAllocation(r)).status)
    ensures BootSequence(r, table, mem) == Halted(Stages + [FixedAllocation(r)] + [AnyAllocation(r)])
    ensures NoRead(BootSequence(r, table, mem).calls) && NoExit(BootSequence(r, table, mem).calls)
  {
    LoadKernelAfterStages(r);
    var l := Stages + [FixedAllocation(r)] + [AnyAllocation(r)];
    assert |Stages| == 5;
    assert AllocateKernel(r, Stages, SizeToPages(FileSize(r))) == LoadFailed(l);
    forall i | 0 <= i < |l|
      ensures !l[i].Read? && !l[i].ExitBootServices?
    {
      if i < 5 { assert l[i] == Stages[i]; }
    }
  }

  /** When the fixed address is taken but the any-address allocation
      succeeds, the kernel is loaded at the address the firmware chose, and
      that address (not the fixed one) is the entry of a jump. */
  lemma FallbackAddressIsEntry(r: Oracle, table: seq<ConfigEntry>, mem: Memory)
    requires StagesSucceed(r, 5)
    requires EfiError(r(5, FixedAllocation(r)).status) && !EfiError(r(6, AnyAllocation(r)).status)
    ensures var chosen := r(6, AnyAllocation(r)).out.GetOr(AnyAllocation(r).memory);
      var o := BootSequence(r, table, mem).outcome;
      (LoadKernel(r).Loaded? ==> LoadKernel(r).kernelAddr == chosen) &&
      (o.Jump? ==> o.entry == chosen)
  {
    LoadKernelAfterStages(r);
    var addr := r(6, AnyAllocation(r)).out.GetOr(AnyAllocation(r).memory);
    assert |Stages| == 5;
    assert AllocateKernel(r, Stages, SizeToPages(FileSize(r))) ==
      Loaded(Stages + [FixedAllocation(r)] + [AnyAllocation(r)], addr);
    if BootSequence(r, table, mem).outcome.Jump? {
      JumpArguments(r, table, mem);
    }
  }

  // ---------------------------------------------------------------------
  // Boot hart
  // ---------------------------------------------------------------------

  /** The conditions under which GetBootHartId queries the protocol:
      LocateProtocol succeeded and returned a non-null protocol whose
      GetBootHartId member is non-null. */
  predicate HartQueryMade(r: Oracle, t: seq<Call>, mem: Memory) {
    var a := r(|t|, LocateProtocol(RiscvBootProtocolGuid));
    !EfiError(a.status) && a.out.GetOr(0) != 0 && LoadU64(mem, a.out.GetOr(0) + GetBootHartIdOffset) != 0
  }

  /** GetBootHartId makes one LocateProtocol call, then the query exactly
      when the protocol is usable; without the query the hart id is 0. It
      never exits boot services. */
  lemma BootHartIdShape(r: Oracle, t: seq<Call>, mem: Memory)
    ensures var h := BootHartId(r, t, mem).calls;
      |t| < |h| && h[..|t|] == t && h[|t|] == LocateProtocol(RiscvBootProtocolGuid)
    ensures var h := BootHartId(r, t, mem).calls;
      (HartQueryMade(r, t, mem) <==> |h| == |t| + 2) && |h| <= |t| + 2
    ensures var h := BootHartId(r, t, mem).calls;
      |h| == |t| + 2 ==> h[|t| + 1] == QueryBootHartId(r(|t|, h[|t|]).out.GetOr(0))
    ensures !HartQueryMade(r, t, mem) ==> BootHartId(r, t, mem).hartId == 0
    ensures NoExit(t) ==> NoExit(BootHartId(r, t, mem).calls)
  {
    var h := BootHartId(r, t, mem).calls;
    if NoExit(t) {
      forall i | 0 <= i < |h|
        ensures !h[i].ExitBootServices?
      {
        if i < |t| { assert h[i] == t[i]; }
      }
    }
  }

  /** The hart id is 0 unless the protocol is usable. */
  lemma BootHartIdDefaultsToZero(r: Oracle, t: seq<Call>, mem: Memory)
    ensures BootHartId(r, t, mem).hartId != 0 ==> HartQueryMade(r, t, mem)
  {
    BootHartIdShape(r, t, mem);
  }

  /** The status the query returns is ignored: two firmwares that agree on
      LocateProtocol and on what the query writes give the same hart id and
      the same calls, whatever status each query reports. */
  lemma BootHartIdIgnoresQueryStatus(r1: Oracle, r2: Oracle, t: seq<Call>, mem: Memory)
    requires r1(|t|, LocateProtocol(RiscvBootProtocolGuid)) == r2(|t|, LocateProtocol(RiscvBootProtocolGuid))
    requires var p := r1(|t|, LocateProtocol(RiscvBootProtocolGuid)).out.GetOr(0);
      r1(|t| + 1, QueryBootHartId(p)).out == r2(|t| + 1, QueryBootHartId(p)).out
    ensures BootHartId(r1, t, mem) == BootHartId(r2, t, mem)
  {
  }

  // ---------------------------------------------------------------------
  // Memory map, ExitBootServices, entry (loader.c:250-290)
  // ---------------------------------------------------------------------

  /** After trace t: one GetMemoryMap of 16384 bytes, whose failure halts;
      then ExitBootServices with the key it returned; on failure exactly one
      more GetMemoryMap of 16384 bytes (status ignored) and one more
      ExitBootServices with the key now held. A failed last attempt spins,
      a successful attempt jumps to the kernel, and nothing follows either. */
  lemma HandoffShape(r: Oracle, t: seq<Call>, entry: uint64, hartId: uint64, dtb: uint64)
    ensures var run := Handoff(r, t, entry, hartId, dtb); var c := run.calls;
      |t| < |c| <= |t| + 4 && c[..|t|] == t && c[|t|] == MemoryMapCall
    ensures var run := Handoff(r, t, entry, hartId, dtb); var c := run.calls;
      run.outcome.Halt? <==> |c| == |t| + 1
    ensures var run := Handoff(r, t, entry, hartId, dtb); var c := run.calls;
      run.outcome.Halt? ==> run.outcome.status == EfiLoadError && FailedAt(r, c, |t|)
    ensures var c := Handoff(r, t, entry, hartId, dtb).calls;
      |c| > |t| + 1 ==>
        !FailedAt(r, c, |t|) && c[|t| + 1] == ExitBootServices(ImageHandle, r(|t|, c[|t|]).out.GetOr(0))
    ensures var c := Handoff(r, t, entry, hartId, dtb).calls;
      |c| > |t| + 2 ==>
        |c| == |t| + 4 && FailedAt(r, c, |t| + 1) && c[|t| + 2] == MemoryMapCall &&
        c[|t| + 3] == ExitBootServices(ImageHandle, r(|t| + 2, c[|t| + 2]).out.GetOr(c[|t| + 1].mapKey))
    ensures var run := Handoff(r, t, entry, hartId, dtb); var c := run.calls;
      run.outcome.Spin? <==> |c| == |t| + 4 && FailedAt(r, c, |t| + 3)
    ensures var run := Handoff(r, t, entry, hartId, dtb); var c := run.calls;
      run.outcome.Jump? <==> |c| > |t| + 1 && !FailedAt(r, c, |c| - 1)
    ensures var run := Handoff(r, t, entry, hartId, dtb);
      run.outcome.Jump? ==> run.outcome == Jump(entry, hartId, dtb)
  {
    var map1 := r(|t|, MemoryMapCall);
    var key := map1.out.GetOr(0);
    var exit1 := ExitBootServices(ImageHandle, key);
    var t1 := t + [MemoryMapCall] + [exit1];
    if !EfiError(map1.status) && EfiError(r(|t| + 1, exit1).status) {
      var key2 := r(|t1|, MemoryMapCall).out.GetOr(key);
      var exit2 := ExitBootServices(ImageHandle, key2);
      assert Handoff(r, t, entry, hartId, dtb).calls == t1 + [MemoryMapCall] + [exit2];
    }
  }

  /** The device-tree pointer only reaches the kernel: it changes neither
      the calls nor how the handoff ends. */
  lemma HandoffIgnoresDtb(r: Oracle, t: seq<Call>, entry: uint64, hartId: uint64, dtb1: uint64, dtb2: uint64)
    ensures Handoff(r, t, entry, hartId, dtb1).calls == Handoff(r, t, entry, hartId, dtb2).calls
    ensures Handoff(r, t, entry, hartId, dtb1).outcome.Halt? == Handoff(r, t, entry, hartId, dtb2).outcome.Halt?
    ensures Handoff(r, t, entry, hartId, dtb1).outcome.Spin? == Handoff(r, t, entry, hartId, dtb2).outcome.Spin?
  {
  }

  // ---------------------------------------------------------------------
  // The whole run
  // ---------------------------------------------------------------------

  /** A run halts exactly when it never called ExitBootServices; it then
      returns EFI_LOAD_ERROR and its last call is the one that failed. */
  predicate HaltsOnlyBeforeExit(r: Oracle, run: Run) {
    var c := run.calls;
    |c| > 0 && (run.outcome.Halt? <==> NoExit(c)) &&
    (run.outcome.Halt? ==> run.outcome.status == EfiLoadError && FailedAt(r, c, |c| - 1))
  }

  /** ExitBootServices is called at most twice: only as the last call, and
      as the third-last call when that attempt failed; each attempt directly
      follows a GetMemoryMap of 16384 bytes. */
  predicate ExitsAtMostTwice(r: Oracle, c: seq<Call>) {
    forall i :: 0 <= i < |c| && c[i].ExitBootServices? ==>
      (i == |c| - 1 || (i == |c| - 3 && FailedAt(r, c, i))) && i > 0 && c[i - 1] == MemoryMapCall
  }

  /** Call i is ExitBootServices with the map key of the snapshot just
      before it, which succeeded. */
  predicate UsesSnapshotKey(r: Oracle, c: seq<Call>, i: nat)
    requires i < |c|
  {
    i > 0 && !FailedAt(r, c, i - 1) && c[i] == ExitBootServices(ImageHandle, r(i - 1, c[i - 1]).out.GetOr(0))
  }

  /** The first ExitBootServices (the third-last call when there are two,
      else the last) uses the map key of the snapshot just before it; the
      retry uses the key the second snapshot left, or the first key when it
      wrote none. */
  predicate ExitKeys(r: Oracle, c: seq<Call>) {
    var n := |c|;
    (n >= 3 && c[n - 3].ExitBootServices? ==>
       UsesSnapshotKey(r, c, n - 3) &&
       c[n - 1] == ExitBootServices(ImageHandle, r(n - 2, c[n - 2]).out.GetOr(c[n - 3].mapKey))) &&
    (n >= 1 && c[n - 1].ExitBootServices? && !(n >= 3 && c[n - 3].ExitBootServices?) ==>
       UsesSnapshotKey(r, c, n - 1))
  }

  /** The last call decides how a run ends: it spins exactly when that call
      is a failed ExitBootServices, which then is the second attempt; it
      jumps exactly when that call is a successful ExitBootServices, and a
      successful ExitBootServices is always the last call. */
  predicate EndsByLastCall(r: Oracle, run: Run) {
    var c := run.calls; var n := |c|;
    n > 0 &&
    (run.outcome.Spin? <==> c[n - 1].ExitBootServices? && FailedAt(r, c, n - 1)) &&
    (run.outcome.Spin? ==> n >= 3 && c[n - 3].ExitBootServices? && FailedAt(r, c, n - 3)) &&
    (run.outcome.Jump? <==> c[n - 1].ExitBootServices? && !FailedAt(r, c, n - 1)) &&
    (forall i :: 0 <= i < n && c[i].ExitBootServices? && !FailedAt(r, c, i) ==> i == n - 1)
  }

  /** The four run properties for a load that failed. */
  lemma FailedLoadRun(r: Oracle, l: seq<Call>)
    requires |l| > 0 && AllLoading(l) && FailedAt(r, l, |l| - 1)
    ensures HaltsOnlyBeforeExit(r, Halted(l)) && ExitsAtMostTwice(r, l)
    ensures ExitKeys(r, l) && EndsByLastCall(r, Halted(l))
  {
    assert NoExit(l);
    assert !l[|l| - 1].ExitBootServices?;
  }

  /** The prefix of a trace is kept by Handoff. */
  lemma HandoffPrefix(r: Oracle, t: seq<Call>, entry: uint64, hartId: uint64, dtb: uint64)
    ensures var c := Handoff(r, t, entry, hartId, dtb).calls;
      |t| < |c| && forall i :: 0 <= i < |t| ==> c[i] == t[i]
  {
    HandoffShape(r, t, entry, hartId, dtb);
    var c := Handoff(r, t, entry, hartId, dtb).calls;
    forall i | 0 <= i < |t|
      ensures c[i] == t[i]
    {
      assert c[i] == c[..|t|][i];
    }
  }

  /** The handoff after a trace with no ExitBootServices: halting and the
      placement of the ExitBootServices calls. */
  lemma HandoffHaltsAndExits(r: Oracle, t: seq<Call>, entry: uint64, hartId: uint64, dtb: uint64)
    requires NoExit(t)
    ensures HaltsOnlyBeforeExit(r, Handoff(r, t, entry, hartId, dtb))
    ensures ExitsAtMostTwice(r, Handoff(r, t, entry, hartId, dtb).calls)
  {
    HandoffShape(r, t, entry, hartId, dtb);
    HandoffPrefix(r, t, entry, hartId, dtb);
    var run := Handoff(r, t, entry, hartId, dtb);
    var c := run.calls;
    if !run.outcome.Halt? {
      assert c[|t| + 1].ExitBootServices?;
    }
  }

  /** The handoff after a trace with no ExitBootServices uses the map keys
      as ExitKeys says. */
  lemma HandoffKeys(r: Oracle, t: seq<Call>, entry: uint64, hartId: uint64, dtb: uint64)
    requires NoExit(t)
    ensures ExitKeys(r, Handoff(r, t, entry, hartId, dtb).calls)
  {
    HandoffShape(r, t, entry, hartId, dtb);
    HandoffPrefix(r, t, entry, hartId, dtb);
    var c := Handoff(r, t, entry, hartId, dtb).calls;
    if |c| == |t| + 2 && |t| > 0 {
      assert c[|c| - 3] == t[|t| - 1];
    }
  }

  /** The handoff after a trace with no ExitBootServices ends as its last
      call decides. */
  lemma HandoffEnd(r: Oracle, t: seq<Call>, entry: uint64, hartId: uint64, dtb: uint64)
    requires NoExit(t)
    ensures EndsByLastCall(r, Handoff(r, t, entry, hartId, dtb))
  {
    HandoffShape(r, t, entry, hartId, dtb);
    HandoffHaltsAndExits(r, t, entry, hartId, dtb);
  }

  /** A run that loaded the kernel is the handoff after the hart-id
      query, and that trace has no ExitBootServices. */
  lemma LoadedRun(r: Oracle, table: seq<ConfigEntry>, mem: Memory)
    requires LoadKernel(r).Loaded?
    ensures var h := BootHartId(r, LoadKernel(r).calls, mem);
      NoExit(h.calls) &&
      BootSequence(r, table, mem) == Handoff(r, h.calls, LoadKernel(r).kernelAddr, h.hartId, SelectDtb(table, mem))
  {
    LoadKernelShape(r);
    assert NoExit(LoadKernel(r).calls);
    BootHartIdShape(r, LoadKernel(r).calls, mem);
  }

  /** Every run of the loader halts only before ExitBootServices and calls
      ExitBootServices at most twice, as the two predicates say. */
  lemma RunHaltsAndExits(r: Oracle, table: seq<ConfigEntry>, mem: Memory)
    ensures HaltsOnlyBeforeExit(r, BootSequence(r, table, mem))
    ensures ExitsAtMostTwice(r, BootSequence(r, table, mem).calls)
  {
    var load := LoadKernel(r);
    if load.Loaded? {
      LoadedRun(r, table, mem);
      var h := BootHartId(r, load.calls, mem);
      HandoffHaltsAndExits(r, h.calls, load.kernelAddr, h.hartId, SelectDtb(table, mem));
    } else {
      LoadKernelShape(r);
      FailedLoadRun(r, load.calls);
    }
  }

  /** Every run of the loader uses the map keys as ExitKeys says and ends
      as its last call decides. */
  lemma RunKeysAndEnd(r: Oracle, table: seq<ConfigEntry>, mem: Memory)
    ensures ExitKeys(r, BootSequence(r, table, mem).calls)
    ensures EndsByLastCall(r, BootSequence(r, table, mem))
  {
    var load := LoadKernel(r);
    if load.Loaded? {
      LoadedRun(r, table, mem);
      var h := BootHartId(r, load.calls, mem);
      HandoffKeys(r, h.calls, load.kernelAddr, h.hartId, SelectDtb(table, mem));
      HandoffEnd(r, h.calls, load.kernelAddr, h.hartId, SelectDtb(table, mem));
    } else {
      LoadKernelShape(r);
      FailedLoadRun(r, load.calls);
    }
  }

  /** Neither the hart-id query nor the handoff reads the file, so every
      Read of the run still follows a successful allocation. */
  lemma LateCallsKeepReads(r: Oracle, t: seq<Call>, mem: Memory, entry: uint64, hartId: uint64, dtb: uint64, size: uint64)
    requires ReadsFollowAllocation(r, t, size)
    ensures ReadsFollowAllocation(r, BootHartId(r, t, mem).calls, size)
    ensures ReadsFollowAllocation(r, Handoff(r, t, entry, hartId, dtb).calls, size)
  {
    var locate := LocateProtocol(RiscvBootProtocolGuid);
    AppendNonRead(r, t, locate, size);
    if HartQueryMade(r, t, mem) {
      AppendNonRead(r, t + [locate], QueryBootHartId(r(|t|, locate).out.GetOr(0)), size);
    }
    var map1 := r(|t|, MemoryMapCall);
    var exit1 := ExitBootServices(ImageHandle, map1.out.GetOr(0));
    AppendNonRead(r, t, MemoryMapCall, size);
    var t0 := t + [MemoryMapCall];
    AppendNonRead(r, t0, exit1, size);
    var t1 := t0 + [exit1];
    if !EfiError(map1.status) && EfiError(r(|t| + 1, exit1).status) {
      var exit2 := ExitBootServices(ImageHandle, r(|t1|, MemoryMapCall).out.GetOr(map1.out.GetOr(0)));
      AppendNonRead(r, t1, MemoryMapCall, size);
      AppendNonRead(r, t1 + [MemoryMapCall], exit2, size);
      assert Handoff(r, t, entry, hartId, dtb).calls == t1 + [MemoryMapCall] + [exit2];
    }
  }

  /** Over the whole run, the file is read only right after an allocation
      that succeeded, in full, and into the address that allocation
      returned; in particular there is no Read when both allocations fail. */
  lemma RunReadsFollowAllocation(r: Oracle, table: seq<ConfigEntry>, mem: Memory)
    ensures ReadsFollowAllocation(r, BootSequence(r, table, mem).calls, FileSize(r))
  {
    LoadKernelShape(r);
    var load := LoadKernel(r);
    if load.Loaded? {
      LoadedRun(r, table, mem);
      var h := BootHartId(r, load.calls, mem);
      LateCallsKeepReads(r, load.calls, mem, load.kernelAddr, h.hartId, SelectDtb(table, mem), FileSize(r));
      LateCallsKeepReads(r, h.calls, mem, load.kernelAddr, h.hartId, SelectDtb(table, mem), FileSize(r));
    }
  }

  /** The hart-id query and the handoff only append to the trace. */
  lemma LateCallsKeepPrefix(r: Oracle, l: seq<Call>, mem: Memory, entry: uint64, hartId: uint64, dtb: uint64)
    ensures var c := Handoff(r, BootHartId(r, l, mem).calls, entry, hartId, dtb).calls;
      |l| < |c| && forall i :: 0 <= i < |l| ==> c[i] == l[i]
  {
    var h := BootHartId(r, l, mem).calls;
    BootHartIdShape(r, l, mem);
    HandoffPrefix(r, h, entry, hartId, dtb);
    forall i | 0 <= i < |l|
      ensures h[i] == l[i]
    {
      assert h[i] == h[..|l|][i];
    }
  }

  /** After a successful load the kernel's address is the target of a Read
      of size bytes that directly follows a successful allocation returning
      that address. */
  lemma EntryIsReadTarget(r: Oracle, load: Load, size: uint64, mem: Memory, hartId: uint64, dtb: uint64)
    requires load.Loaded? && LoadShape(r, load, size)
    ensures var c := Handoff(r, BootHartId(r, load.calls, mem).calls, load.kernelAddr, hartId, dtb).calls;
      exists i :: 0 < i < |c| && c[i] == Read(size, load.kernelAddr) &&
        c[i - 1].AllocatePages? && !FailedAt(r, c, i - 1) &&
        load.kernelAddr == r(i - 1, c[i - 1]).out.GetOr(c[i - 1].memory)
  {
    var l := load.calls;
    var h := BootHartId(r, l, mem);
    LateCallsKeepPrefix(r, l, mem, load.kernelAddr, hartId, dtb);
    LateCallsKeepReads(r, l, mem, load.kernelAddr, hartId, dtb, size);
    LateCallsKeepReads(r, h.calls, mem, load.kernelAddr, hartId, dtb, size);
    var c := Handoff(r, h.calls, load.kernelAddr, hartId, dtb).calls;
    var i := |l| - 3;
    assert c[i] == l[i];
  }

  /** The kernel is entered only after a successful load: at the address
      into which the whole file was read, which is the address a successful
      allocation returned, with the hart id GetBootHartId produced and the
      device tree SelectDtb chose. */
  lemma JumpArguments(r: Oracle, table: seq<ConfigEntry>, mem: Memory)
    requires BootSequence(r, table, mem).outcome.Jump?
    ensures LoadKernel(r).Loaded?
    ensures var o := BootSequence(r, table, mem).outcome;
      o.entry == LoadKernel(r).kernelAddr && o.dtb == SelectDtb(table, mem) &&
      o.hartId == BootHartId(r, LoadKernel(r).calls, mem).hartId
    ensures var run := BootSequence(r, table, mem); var c := run.calls;
      exists i :: 0 < i < |c| && c[i] == Read(FileSize(r), run.outcome.entry) &&
        c[i - 1].AllocatePages? && !FailedAt(r, c, i - 1) &&
        run.outcome.entry == r(i - 1, c[i - 1]).out.GetOr(c[i - 1].memory)
  {
    var load := LoadKernel(r);
    if load.Loaded? {
      LoadKernelShape(r);
      LoadedRun(r, table, mem);
      var h := BootHartId(r, load.calls, mem);
      HandoffShape(r, h.calls, load.kernelAddr, h.hartId, SelectDtb(table, mem));
      EntryIsReadTarget(r, load, FileSize(r), mem, h.hartId, SelectDtb(table, mem));
    }
  }

  /** The configuration table only chooses the device tree: the calls made,
      whether the run halts or spins, and the entry address and hart id of a
      jump do not depend on it. In particular a missing device tree never
      makes the loader halt. */
  lemma TableOnlyChoosesDtb(r: Oracle, table1: seq<ConfigEntry>, table2: seq<ConfigEntry>, mem: Memory)
    ensures BootSequence(r, table1, mem).calls == BootSequence(r, table2, mem).calls
    ensures BootSequence(r, table1, mem).outcome.Halt? == BootSequence(r, table2, mem).outcome.Halt?
    ensures BootSequence(r, table1, mem).outcome.Spin? == BootSequence(r, table2, mem).outcome.Spin?
    ensures var o1, o2 := BootSequence(r, table1, mem).outcome, BootSequence(r, table2, mem).outcome;
      o1.Jump? ==> o2.Jump? && o1.entry == o2.entry && o1.hartId == o2.hartId
  {
    var load := LoadKernel(r);
    if load.Loaded? {
      LoadedRun(r, table1, mem);
      LoadedRun(r, table2, mem);
      var h := BootHartId(r, load.calls, mem);
      var d1, d2 := SelectDtb(table1, mem), SelectDtb(table2, mem);
      HandoffIgnoresDtb(r, h.calls, load.kernelAddr, h.hartId, d1, d2);
      HandoffShape(r, h.calls, load.kernelAddr, h.hartId, d1);
      HandoffShape(r, h.calls, load.kernelAddr, h.hartId, d2);
    }
  }

  // ---------------------------------------------------------------------
  // Device tree lookup
  // ---------------------------------------------------------------------

  /** FindDtb's result, in terms of GUID equality: the VendorTable of the
      lowest-index entry with the given GUID, or null when there is none. */
  lemma VendorTableForIsFirstEqual(table: seq<ConfigEntry>, guid: Guid)
    ensures (forall j :: 0 <= j < |table| ==> table[j].vendorGuid != guid) ==> VendorTableFor(table, guid) == 0
    ensures forall k :: (0 <= k < |table| && table[k].vendorGuid == guid &&
                         forall j :: 0 <= j < k ==> table[j].vendorGuid != guid) ==>
      VendorTableFor(table, guid) == table[k].vendorTable
  {
    forall j | 0 <= j < |table|
      ensures CompareGuid(table[j].vendorGuid, guid) <==> table[j].vendorGuid == guid
    {
      CompareGuidIsEquality(table[j].vendorGuid, guid);
    }
  }
}
