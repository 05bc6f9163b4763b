/** The firmware as the loader sees it: every boot-service or protocol call
    the loader makes, and the answer it gets back. The firmware itself is not
    modelled; its answers are drawn from an oracle, so every property proved
    about the loader holds for every possible firmware. */
module Firmware {
  import opened Efi

  datatype Option<T> = None | Some(value: T) {
    function GetOr(default: T): T {
      match this
      case Some(v) => v
      case None => default
    }
  }

  /** The two handles the loader passes to HandleProtocol: its own image
      handle, and the device handle read from its loaded-image protocol. */
  datatype Handle = ImageHandle | LoadedImageDevice

  /** The two file handles the loader opens. */
  datatype FileRef = RootDir | KernelFile

  /** One firmware call, with the arguments that the firmware can observe. */
  datatype Call =
    | HandleProtocol(handle: Handle, protocol: Guid)
    | OpenVolume
    | Open(fileName: string, openMode: uint64, attributes: uint64)
    | GetInfo(informationType: Guid, bufferSize: uint64)
    | AllocatePages(allocType: AllocateType, memoryType: MemoryType, pages: uint64, memory: uint64)
    | Read(bufferSize: uint64, buffer: uint64)
    | Close(file: FileRef)
    /** The gnu-efi helper LibLocateProtocol, taken as one call. */
    | LocateProtocol(protocol: Guid)
    | QueryBootHartId(bootProtocol: uint64)
    | GetMemoryMap(memoryMapSize: uint64)
    | ExitBootServices(imageHandle: Handle, mapKey: uint64)

  /** What a call returns: its status and the value it leaves in its
      (in/)out-parameter; None when it leaves that parameter unwritten. */
  datatype Answer = Answer(status: Status, out: Option<uint64>)

  /** A firmware: the answer to a call, given how many calls came before it
      and the call's own arguments. */
  type Oracle = (nat, Call) -> Answer

  /** The firmware's services as one object. Each call is recorded in the
      ghost trace; the step counter is the trace's length, so that the answer
      can depend on the history. */
  class Services {
    const respond: Oracle
    var step: nat
    ghost var trace: seq<Call>

    ghost predicate Valid()
      reads this
    {
      step == |trace|
    }

    constructor (respond: Oracle)
      ensures Valid() && trace == [] && this.respond == respond
    {
      this.respond := respond;
      step := 0;
      trace := [];
    }

    /** Make one call: it is appended to the trace and answered by the oracle. */
    method Invoke(c: Call) returns (a: Answer)
      requires Valid()
      modifies this
      ensures Valid()
      ensures trace == old(trace) + [c]
      ensures a == respond(|old(trace)|, c)
    {
      a := respond(step, c);
      step := step + 1;
      trace := trace + [c];
    }
  }
}
