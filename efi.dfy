/** The part of the UEFI 2.10 definitions (efi.h) that has behaviour: the
    status-code convention of Appendix D, page arithmetic, the GUID layout and
    its comparison, and the two enumerations the loader passes to
    AllocatePages. The function-pointer tables are not modelled here; the
    firmware is an abstract collaborator (module Firmware). */
module Efi {

  type uint8 = x: int | 0 <= x < 0x100
  type uint16 = x: int | 0 <= x < 0x1_0000
  type uint32 = x: int | 0 <= x < 0x1_0000_0000
  type uint64 = x: int | 0 <= x < 0x1_0000_0000_0000_0000

  const Two64: nat := 0x1_0000_0000_0000_0000

  // ---------------------------------------------------------------------
  // Status codes
  // ---------------------------------------------------------------------

  /** EFI_STATUS is a UINTN, 64 bits wide on RISC-V 64. */
  type Status = bv64

  /** Bit 63, the error bit of an EFI_STATUS. */
  const ErrorBit: Status := 1 << 63

  /** EFIERR(a): `a | (1 << 63)`. */
  function EfiErr(a: Status): Status {
    a | ErrorBit
  }

  /** EFI_ERROR(s): `(INTN)s < 0`, that is, the sign bit of the
      two's-complement reading of s is set. */
  predicate EfiError(s: Status) {
    s & ErrorBit != 0
  }

  const EfiSuccess: Status := 0
  const EfiLoadError: Status := EfiErr(1)
  const EfiInvalidParameter: Status := EfiErr(2)
  const EfiUnsupported: Status := EfiErr(3)
  const EfiBadBufferSize: Status := EfiErr(4)
  const EfiBufferTooSmall: Status := EfiErr(5)
  const EfiNotReady: Status := EfiErr(6)
  const EfiDeviceError: Status := EfiErr(7)
  const EfiNotFound: Status := EfiErr(14)

  /** The named error codes of efi.h, in declaration order. */
  const ErrorCodes: seq<Status> := [EfiLoadError, EfiInvalidParameter, EfiUnsupported,
    EfiBadBufferSize, EfiBufferTooSmall, EfiNotReady, EfiDeviceError, EfiNotFound]

  /** EFIERR keeps the low 63 bits of its argument and sets bit 63; below 2^63
      that is adding 2^63. */
  lemma EfiErrSetsOnlyBit63(a: Status)
    ensures EfiErr(a) & 0x7fff_ffff_ffff_ffff == a & 0x7fff_ffff_ffff_ffff
    ensures EfiErr(a) >= ErrorBit
    ensures a < ErrorBit ==> EfiErr(a) == a + ErrorBit
  {
  }

  /** A status is an error exactly when, read as an unsigned number, it is at
      least 2^63. */
  lemma EfiErrorIffHighBit(s: Status)
    ensures EfiError(s) <==> s >= ErrorBit
  {
  }

  /** Every value EFIERR builds is an error; success is not. */
  lemma EfiErrIsError(a: Status)
    ensures EfiError(EfiErr(a))
    ensures !EfiError(EfiSuccess)
  {
  }

  /** The named error codes are errors, distinct from each other and from success. */
  lemma ErrorCodesDistinct()
    ensures forall i :: 0 <= i < |ErrorCodes| ==> EfiError(ErrorCodes[i])
    ensures forall i, j :: 0 <= i < j < |ErrorCodes| ==> ErrorCodes[i] != ErrorCodes[j]
    ensures EfiSuccess !in ErrorCodes
  {
  }

  // ---------------------------------------------------------------------
  // Pages
  // ---------------------------------------------------------------------

  const EfiPageSize: nat := 4096

  /** EFI_SIZE_TO_PAGES(s): `(s + EFI_PAGE_SIZE - 1) / EFI_PAGE_SIZE` in 64-bit
      unsigned arithmetic, so the sum wraps for sizes in the last page below 2^64. */
  function SizeToPages(s: uint64): uint64 {
    ((s + EfiPageSize - 1) % Two64) / EfiPageSize
  }

  /** Without wrap-around, the page count is the ceiling of s / 4096. */
  lemma SizeToPagesIsCeiling(s: uint64)
    requires s <= Two64 - EfiPageSize
    ensures SizeToPages(s) * EfiPageSize >= s
    ensures s > 0 ==> (SizeToPages(s) - 1) * EfiPageSize < s
    ensures s == 0 ==> SizeToPages(s) == 0
  {
  }

  lemma SizeToPagesMonotone(s: uint64, t: uint64)
    requires s <= t <= Two64 - EfiPageSize
    ensures SizeToPages(s) <= SizeToPages(t)
  {
  }

  /** A whole number of pages converts back to itself. */
  lemma SizeToPagesOfPages(k: nat)
    requires k * EfiPageSize < Two64
    ensures SizeToPages(k * EfiPageSize) == k
  {
  }

  /** The wrap-around: a size within the last page below 2^64 yields 0 pages. */
  lemma SizeToPagesWraps(s: uint64)
    requires s > Two64 - EfiPageSize
    ensures SizeToPages(s) == 0
  {
  }

  // ---------------------------------------------------------------------
  // GUIDs
  // ---------------------------------------------------------------------

  type Bytes8 = s: seq<uint8> | |s| == 8 witness [0, 0, 0, 0, 0, 0, 0, 0]

  /** EFI_GUID: Data1 (32 bits), Data2, Data3 (16 bits each), Data4 (8 bytes). */
  datatype Guid = Guid(data1: uint32, data2: uint16, data3: uint16, data4: Bytes8)

  function Pow256(n: nat): (p: nat)
    ensures p > 0
  {
    if n == 0 then 1 else 256 * Pow256(n - 1)
  }

  /** The n low-order bytes of x, least significant first. */
  function LeBytes(x: nat, n: nat): (b: seq<uint8>)
    ensures |b| == n
  {
    if n == 0 then [] else [x % 256] + LeBytes(x / 256, n - 1)
  }

  /** The little-endian value of a byte string. */
  function LeValue(b: seq<uint8>): nat {
    if b == [] then 0 else b[0] + 256 * LeValue(b[1..])
  }

  lemma {:induction false} LeValueBound(b: seq<uint8>)
    ensures LeValue(b) < Pow256(|b|)
  {
    if b != [] {
      LeValueBound(b[1..]);
    }
  }

  lemma {:induction false} LeValueOfLeBytes(x: nat, n: nat)
    requires x < Pow256(n)
    ensures LeValue(LeBytes(x, n)) == x
  {
    if n > 0 {
      var b := LeBytes(x, n);
      assert b[1..] == LeBytes(x / 256, n - 1);
      LeValueOfLeBytes(x / 256, n - 1);
    }
  }

  lemma {:induction false} LeValueInjective(a: seq<uint8>, b: seq<uint8>)
    requires |a| == |b| && LeValue(a) == LeValue(b)
    ensures a == b
  {
    if a != [] {
      assert a[0] == LeValue(a) % 256 && b[0] == LeValue(b) % 256;
      LeValueInjective(a[1..], b[1..]);
      assert a == [a[0]] + a[1..] && b == [b[0]] + b[1..];
    }
  }

  /** The 16-byte memory image of a GUID on a little-endian machine. */
  function GuidBytes(g: Guid): (b: seq<uint8>)
    ensures |b| == 16
  {
    LeBytes(g.data1, 4) + LeBytes(g.data2, 2) + LeBytes(g.data3, 2) + g.data4
  }

  /** A 64-bit little-endian load from a byte string. */
  function Load64(b: seq<uint8>, offset: nat): uint64
    requires offset + 8 <= |b|
  {
    LeValueBound(b[offset..offset + 8]);
    assert Pow256(8) == Two64;
    LeValue(b[offset..offset + 8])
  }

  /** CompareGuid: the two 64-bit words of each GUID compared. */
  predicate CompareGuid(a: Guid, b: Guid) {
    var pa, pb := GuidBytes(a), GuidBytes(b);
    Load64(pa, 0) == Load64(pb, 0) && Load64(pa, 8) == Load64(pb, 8)
  }

  /** Comparing two 64-bit words is comparing all sixteen bytes. */
  lemma CompareGuidIsByteEquality(a: Guid, b: Guid)
    ensures CompareGuid(a, b) <==> GuidBytes(a) == GuidBytes(b)
  {
    var pa, pb := GuidBytes(a), GuidBytes(b);
    if CompareGuid(a, b) {
      LeValueInjective(pa[0..8], pb[0..8]);
      LeValueInjective(pa[8..16], pb[8..16]);
      assert pa == pa[0..8] + pa[8..16];
      assert pb == pb[0..8] + pb[8..16];
    }
  }

  /** The byte image determines the GUID. */
  lemma GuidBytesInjective(a: Guid, b: Guid)
    requires GuidBytes(a) == GuidBytes(b)
    ensures a == b
  {
    var pa, pb := GuidBytes(a), GuidBytes(b);
    assert pa[0..4] == LeBytes(a.data1, 4) && pb[0..4] == LeBytes(b.data1, 4);
    assert pa[4..6] == LeBytes(a.data2, 2) && pb[4..6] == LeBytes(b.data2, 2);
    assert pa[6..8] == LeBytes(a.data3, 2) && pb[6..8] == LeBytes(b.data3, 2);
    assert pa[8..16] == a.data4 && pb[8..16] == b.data4;
    assert Pow256(4) == 0x1_0000_0000 && Pow256(2) == 0x1_0000;
    LeValueOfLeBytes(a.data1, 4);
    LeValueOfLeBytes(b.data1, 4);
    LeValueOfLeBytes(a.data2, 2);
    LeValueOfLeBytes(b.data2, 2);
    LeValueOfLeBytes(a.data3, 2);
    LeValueOfLeBytes(b.data3, 2);
  }

  /** CompareGuid is exactly equality of GUIDs, hence reflexive and symmetric. */
  lemma CompareGuidIsEquality(a: Guid, b: Guid)
    ensures CompareGuid(a, b) <==> a == b
    ensures CompareGuid(a, a)
    ensures CompareGuid(a, b) == CompareGuid(b, a)
  {
    CompareGuidIsByteEquality(a, b);
    CompareGuidIsByteEquality(b, a);
    CompareGuidIsByteEquality(a, a);
    if GuidBytes(a) == GuidBytes(b) {
      GuidBytesInjective(a, b);
    }
  }

  // GUIDs named in efi.h and loader.c.
  const LoadedImageProtocolGuid := Guid(0x5B1B31A1, 0x9562, 0x11d2, [0x8E, 0x3F, 0x00, 0xA0, 0xC9, 0x69, 0x72, 0x3B])
  const SimpleFileSystemProtocolGuid := Guid(0x964e5b22, 0x6459, 0x11d2, [0x8e, 0x39, 0x00, 0xa0, 0xc9, 0x69, 0x72, 0x3b])
  const FileInfoGuid := Guid(0x09576e92, 0x6d3f, 0x11d2, [0x8e, 0x39, 0x00, 0xa0, 0xc9, 0x69, 0x72, 0x3b])
  const RiscvBootProtocolGuid := Guid(0xccd15aa8, 0x5e42, 0x4c68, [0x88, 0x36, 0x24, 0x1c, 0x1d, 0x1c, 0x17, 0x9a])
  const DtbTableGuid := Guid(0xb1b621d5, 0xf19c, 0x41a5, [0x83, 0x0b, 0xd9, 0x15, 0x2c, 0x69, 0xaa, 0xe0])

  // ---------------------------------------------------------------------
  // Enumerations passed to AllocatePages
  // ---------------------------------------------------------------------

  datatype MemoryType =
    | EfiReservedMemoryType | EfiLoaderCode | EfiLoaderData
    | EfiBootServicesCode | EfiBootServicesData
    | EfiRuntimeServicesCode | EfiRuntimeServicesData
    | EfiConventionalMemory | EfiUnusableMemory
    | EfiACPIReclaimMemory | EfiACPIMemoryNVS
    | EfiMemoryMappedIO | EfiMemoryMappedIOPortSpace
    | EfiPalCode | EfiPersistentMemory | EfiMaxMemoryType

  datatype AllocateType = AllocateAnyPages | AllocateMaxAddress | AllocateAddress | MaxAllocateType

  /** EFI_FILE_MODE_READ */
  const EfiFileModeRead: uint64 := 1
}
