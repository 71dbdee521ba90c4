/** The Go-side marshaling of lib/go/amdsmi.go: Init, the probe-then-fetch
    handle enumerations and the getters that decode C buffers. Every native
    call goes through the entry-guarded wrappers of module Dispatch, run
    against the loader's current state. */
module GoBinding {
  import opened SmiTypes
  import Symbols
  import LoaderSpec
  import Dispatch
  import CStrings
  import DynamicLoader

  datatype SocketHandle = SocketHandle(handle: RawHandle)
  datatype ProcessorHandle = ProcessorHandle(handle: RawHandle)

  function WrapSocket(h: RawHandle): SocketHandle { SocketHandle(h) }
  function WrapProcessor(h: RawHandle): ProcessorHandle { ProcessorHandle(h) }

  /** The flag Init passes to amdsmi_init (AMDSMI_INIT_AMD_GPUS). */
  datatype InitFlag = InitAmdGpus

  /** The arguments of a handle enumeration call: the value of the count
      the pointer refers to, and whether the handle buffer is non-nil. */
  datatype HandleQuery = HandleQuery(count: nat, withBuffer: bool)

  /** What a handle enumeration call writes: the count, and the handles it
      stores at the start of the buffer. */
  datatype HandleFill = HandleFill(count: nat, handles: seq<RawHandle>)

  /** The char arrays of amdsmi_board_info_t after the native call. */
  datatype RawBoardInfo = RawBoardInfo(modelNumber: seq<byte>, productSerial: seq<byte>, fruId: seq<byte>,
                                       productName: seq<byte>, manufacturerName: seq<byte>)

  datatype BoardInfo = BoardInfo(modelNumber: seq<byte>, productSerial: seq<byte>, fruId: seq<byte>,
                                 productName: seq<byte>, manufacturerName: seq<byte>)

  /** The length of the UUID buffer GetGPUUUID hands to the library. */
  const UuidLength: nat := 38

  /** Init: load the library, and only if that returned non-zero call
      amdsmi_init through its wrapper. A failed load is the only error; after
      a load the result is whether amdsmi_init answered SUCCESS. */
  method Init(lib: DynamicLoader.Loader, dlopen: Option<Addr>, dlsym: Symbols.Symbol -> Option<Addr>,
              native: (Addr, InitFlag) -> Reply<()>) returns (ok: bool, err: Option<GoError>)
    requires lib.Valid()
    modifies lib, lib.entries
    ensures lib.Valid()
    ensures var l := LoaderSpec.Load(old(lib.State()), dlopen, dlsym);
            lib.State() == l.state &&
            (err.Some? <==> l.ret == 0) &&
            (l.ret == 0 ==> !ok && err == Some(LoadLibraryFailed)) &&
            (l.ret != 0 ==>
               ok == (Dispatch.Wrapper(l.state, Symbols.Init, native, InitAmdGpus, ()).status == StatusSuccess))
  {
    ghost var events;
    var ret;
    ret, events := lib.Load(dlopen, dlsym);
    if ret == 0 {
      return false, Some(LoadLibraryFailed);
    }
    var reply := Dispatch.Wrapper(lib.State(), Symbols.Init, native, InitAmdGpus, ());
    return reply.status == StatusSuccess, None;
  }

  /** When Init's load succeeds from a consistent state, the amdsmi_init
      entry is resolved, so Init's answer is the native one and never the
      wrapper's INVAL guard. */
  lemma InitReachesNative(s: LoaderSpec.LoaderState, dlopen: Option<Addr>, dlsym: Symbols.Symbol -> Option<Addr>,
                          native: (Addr, InitFlag) -> Reply<()>)
    requires LoaderSpec.Consistent(s)
    requires LoaderSpec.Load(s, dlopen, dlsym).ret != 0
    ensures var t := LoaderSpec.Load(s, dlopen, dlsym).state;
            LoaderSpec.WellFormed(t) && t.entries[Symbols.Slot(Symbols.Init)].Some? &&
            Dispatch.Wrapper(t, Symbols.Init, native, InitAmdGpus, ()) ==
              native(t.entries[Symbols.Slot(Symbols.Init)].value, InitAmdGpus)
  {
    LoaderSpec.LoadKeepsConsistent(s, dlopen, dlsym);
    LoaderSpec.LoadResultMatchesHandle(s, dlopen, dlsym);
  }

  /** `out` holds the Go wrappers of the fetched handles `raw`, in order,
      followed by zero-valued wrappers up to its length. */
  ghost predicate WrapsInOrder<H>(out: seq<H>, raw: seq<RawHandle>, length: nat, wrap: RawHandle -> H, zero: H)
  {
    |out| == length && |raw| <= length &&
    (forall i :: 0 <= i < |raw| ==> out[i] == wrap(raw[i])) &&
    (forall i :: |raw| <= i < length ==> out[i] == zero)
  }

  /** The copy loop of GetSocketHandles and GetProcessorHandles: a Go slice
      of `length` zero values, then `out[i] = wrap(raw[i])` for each i of
      the C buffer `raw`. It faults when `raw` is longer than the slice. */
  method WrapHandles<H>(raw: seq<RawHandle>, length: nat, wrap: RawHandle -> H, zero: H) returns (r: Outcome<seq<H>>)
    ensures r.Faulted? <==> length < |raw|
    ensures r.Faulted? ==> r.fault == IndexOutOfRange
    ensures r.Returned? ==> r.err == None && WrapsInOrder(r.value, raw, length, wrap, zero)
  {
    var out := new H[length](_ => zero);
    var i := 0;
    while i < |raw|
      invariant 0 <= i <= |raw| && i <= length
      invariant forall j :: 0 <= j < i ==> out[j] == wrap(raw[j])
      invariant forall j :: i <= j < length ==> out[j] == zero
    {
      if i >= length {
        return Faulted(IndexOutOfRange);
      }
      out[i] := wrap(raw[i]);
      i := i + 1;
    }
    return Returned(out[..], None);
  }

  /** The zeroed handle buffer Go allocates for the fetch. */
  function NullHandles(n: nat): (r: seq<RawHandle>)
    ensures |r| == n && forall i :: 0 <= i < n ==> r[i] == NullHandle
  {
    seq(n, _ => NullHandle)
  }

  /** The result of a probe-then-fetch enumeration given the two replies:
      an error naming the failed step, a fault for a zero count (the Go code
      takes the address of element 0 of an empty slice) or for a fetch that
      reports fewer handles than were probed, and otherwise a list as long
      as the fetched count whose first entries wrap the fetched handles in
      order. */
  ghost predicate Enumerated<H>(r: Outcome<seq<H>>, probe: Reply<HandleFill>, fetch: Reply<HandleFill>,
                                countStep: Step, handlesStep: Step, wrap: RawHandle -> H, zero: H)
  {
    var n := probe.out.count;
    if probe.status != StatusSuccess then
      r == Returned([], Some(CallFailed(countStep, probe.status)))
    else if n == 0 then
      r == Faulted(IndexOutOfRange)
    else if fetch.status != StatusSuccess then
      r == Returned([], Some(CallFailed(handlesStep, fetch.status)))
    else if fetch.out.count < n then
      r == Faulted(IndexOutOfRange)
    else
      r.Returned? && r.err == None &&
      WrapsInOrder(r.value, CStrings.Overlay(NullHandles(n), fetch.out.handles), fetch.out.count, wrap, zero)
  }

  /** GetSocketHandles: probe amdsmi_get_socket_handles with a zero count
      and a nil buffer, then fetch into a buffer of the probed size. */
  method GetSocketHandles(lib: DynamicLoader.Loader, native: (Addr, HandleQuery) -> Reply<HandleFill>)
    returns (r: Outcome<seq<SocketHandle>>)
    requires lib.Valid()
    ensures var probe := Dispatch.Wrapper(lib.State(), Symbols.GetSocketHandles, native,
                                          HandleQuery(0, false), HandleFill(0, []));
            var n := probe.out.count;
            var fetch := Dispatch.Wrapper(lib.State(), Symbols.GetSocketHandles, native,
                                          HandleQuery(n, true), HandleFill(n, []));
            Enumerated(r, probe, fetch, SocketCount, SocketHandles, WrapSocket, SocketHandle(NullHandle))
  {
    var probe := Dispatch.Wrapper(lib.State(), Symbols.GetSocketHandles, native, HandleQuery(0, false), HandleFill(0, []));
    if probe.status != StatusSuccess {
      return Returned([], Some(CallFailed(SocketCount, probe.status)));
    }
    var n := probe.out.count;
    if n == 0 {
      return Faulted(IndexOutOfRange);
    }
    var fetch := Dispatch.Wrapper(lib.State(), Symbols.GetSocketHandles, native, HandleQuery(n, true), HandleFill(n, []));
    if fetch.status != StatusSuccess {
      return Returned([], Some(CallFailed(SocketHandles, fetch.status)));
    }
    var sockets := CStrings.Overlay(NullHandles(n), fetch.out.handles);
    r := WrapHandles(sockets, fetch.out.count, WrapSocket, SocketHandle(NullHandle));
  }

  /** GetProcessorHandles: the same protocol on
      amdsmi_get_processor_handles, passing the socket's handle unchanged. */
  method GetProcessorHandles(lib: DynamicLoader.Loader, socket: SocketHandle,
                             native: (Addr, (RawHandle, HandleQuery)) -> Reply<HandleFill>)
    returns (r: Outcome<seq<ProcessorHandle>>)
    requires lib.Valid()
    ensures var probe := Dispatch.Wrapper(lib.State(), Symbols.GetProcessorHandles, native,
                                          (socket.handle, HandleQuery(0, false)), HandleFill(0, []));
            var n := probe.out.count;
            var fetch := Dispatch.Wrapper(lib.State(), Symbols.GetProcessorHandles, native,
                                          (socket.handle, HandleQuery(n, true)), HandleFill(n, []));
            Enumerated(r, probe, fetch, ProcessorCount, ProcessorHandles, WrapProcessor, ProcessorHandle(NullHandle))
  {
    var probe := Dispatch.Wrapper(lib.State(), Symbols.GetProcessorHandles, native,
                                  (socket.handle, HandleQuery(0, false)), HandleFill(0, []));
    if probe.status != StatusSuccess {
      return Returned([], Some(CallFailed(ProcessorCount, probe.status)));
    }
    var n := probe.out.count;
    if n == 0 {
      return Faulted(IndexOutOfRange);
    }
    var fetch := Dispatch.Wrapper(lib.State(), Symbols.GetProcessorHandles, native,
                                  (socket.handle, HandleQuery(n, true)), HandleFill(n, []));
    if fetch.status != StatusSuccess {
      return Returned([], Some(CallFailed(ProcessorHandles, fetch.status)));
    }
    var processors := CStrings.Overlay(NullHandles(n), fetch.out.handles);
    r := WrapHandles(processors, fetch.out.count, WrapProcessor, ProcessorHandle(NullHandle));
  }

  /** When the library reports the same count on the fetch as on the probe,
      the enumeration is exactly the fetched buffer, wrapped in order: as
      many handles as probed, each the native handle at the same index. */
  lemma EnumeratedStableCount<H>(r: Outcome<seq<H>>, probe: Reply<HandleFill>, fetch: Reply<HandleFill>,
                                 countStep: Step, handlesStep: Step, wrap: RawHandle -> H, zero: H)
    requires Enumerated(r, probe, fetch, countStep, handlesStep, wrap, zero)
    requires probe.status == StatusSuccess && fetch.status == StatusSuccess
    requires probe.out.count > 0 && fetch.out.count == probe.out.count
    requires |fetch.out.handles| >= probe.out.count
    ensures r.Returned? && r.err == None && |r.value| == probe.out.count
    ensures forall i :: 0 <= i < probe.out.count ==> r.value[i] == wrap(fetch.out.handles[i])
  {
    var buf := CStrings.Overlay(NullHandles(probe.out.count), fetch.out.handles);
    forall i | 0 <= i < probe.out.count
      ensures r.value[i] == wrap(fetch.out.handles[i])
    {
      assert buf[i] == fetch.out.handles[i];
    }
  }

  /** GetSocketName: a Go byte slice of maxLen bytes, amdsmi_get_socket_info
      into it, then the text before the first NUL. */
  function GetSocketName(lib: DynamicLoader.Loader, socket: SocketHandle, maxLen: int,
                         native: (Addr, (RawHandle, nat)) -> Reply<seq<byte>>): (r: Outcome<seq<byte>>)
    reads lib, lib.entries
    requires lib.Valid()
    ensures maxLen < 0 ==> r == Faulted(MakeLengthOutOfRange)
    ensures maxLen == 0 ==> r == Faulted(IndexOutOfRange)
    ensures maxLen > 0 ==>
              var p := Dispatch.Wrapper(lib.State(), Symbols.GetSocketInfo, native, (socket.handle, maxLen as nat), []);
              var buf := CStrings.Overlay(CStrings.Zeros(maxLen), p.out);
              (p.status != StatusSuccess ==> r == Returned([], Some(CallFailed(SocketInfo, p.status)))) &&
              (p.status == StatusSuccess ==>
                 (r.Returned? <==> 0 in buf) &&
                 (r.Returned? ==> r.err == None && CStrings.TerminatedBy(buf, r.value)) &&
                 (r.Faulted? ==> r.fault == UnterminatedString))
  {
    if maxLen < 0 then Faulted(MakeLengthOutOfRange)
    else if maxLen == 0 then Faulted(IndexOutOfRange)
    else
      var p := Dispatch.Wrapper(lib.State(), Symbols.GetSocketInfo, native, (socket.handle, maxLen as nat), []);
      if p.status != StatusSuccess then Returned([], Some(CallFailed(SocketInfo, p.status)))
      else
        match CStrings.GoString(CStrings.Overlay(CStrings.Zeros(maxLen), p.out))
        case None => Faulted(UnterminatedString)
        case Some(name) => Returned(name, None)
  }

  /** GetGPUBoardInfo: amdsmi_get_gpu_board_info into a zeroed struct, then
      each of the five char arrays decoded up to its first NUL. */
  function GetGPUBoardInfo(lib: DynamicLoader.Loader, processor: ProcessorHandle,
                           native: (Addr, RawHandle) -> Reply<RawBoardInfo>): (r: Outcome<BoardInfo>)
    reads lib, lib.entries
    requires lib.Valid()
    ensures var p := Dispatch.Wrapper(lib.State(), Symbols.GetGpuBoardInfo, native, processor.handle,
                                      RawBoardInfo([], [], [], [], []));
            var b := p.out;
            (p.status != StatusSuccess ==>
               r == Returned(BoardInfo([], [], [], [], []), Some(CallFailed(GpuBoardInfo, p.status)))) &&
            (p.status == StatusSuccess ==>
               (r.Returned? <==> 0 in b.modelNumber && 0 in b.productSerial && 0 in b.fruId &&
                                 0 in b.productName && 0 in b.manufacturerName) &&
               (r.Returned? ==>
                  r.err == None &&
                  CStrings.TerminatedBy(b.modelNumber, r.value.modelNumber) &&
                  CStrings.TerminatedBy(b.productSerial, r.value.productSerial) &&
                  CStrings.TerminatedBy(b.fruId, r.value.fruId) &&
                  CStrings.TerminatedBy(b.productName, r.value.productName) &&
                  CStrings.TerminatedBy(b.manufacturerName, r.value.manufacturerName)) &&
               (r.Faulted? ==> r.fault == UnterminatedString))
  {
    var p := Dispatch.Wrapper(lib.State(), Symbols.GetGpuBoardInfo, native, processor.handle,
                              RawBoardInfo([], [], [], [], []));
    if p.status != StatusSuccess then
      Returned(BoardInfo([], [], [], [], []), Some(CallFailed(GpuBoardInfo, p.status)))
    else
      var b := p.out;
      match (CStrings.GoString(b.modelNumber), CStrings.GoString(b.productSerial), CStrings.GoString(b.fruId),
             CStrings.GoString(b.productName), CStrings.GoString(b.manufacturerName))
      case (Some(model), Some(serial), Some(fru), Some(product), Some(manufacturer)) =>
        Returned(BoardInfo(model, serial, fru, product, manufacturer), None)
      case _ => Faulted(UnterminatedString)
  }

  /** GetGPUUUID: a zeroed 38-byte array whose length is passed along, then
      the text before its first NUL, so at most 37 bytes. */
  function GetGPUUUID(lib: DynamicLoader.Loader, processor: ProcessorHandle,
                      native: (Addr, (RawHandle, nat)) -> Reply<seq<byte>>): (r: Outcome<seq<byte>>)
    reads lib, lib.entries
    requires lib.Valid()
    ensures var p := Dispatch.Wrapper(lib.State(), Symbols.GetGpuDeviceUuid, native, (processor.handle, UuidLength), []);
            var buf := CStrings.Overlay(CStrings.Zeros(UuidLength), p.out);
            (p.status != StatusSuccess ==> r == Returned([], Some(CallFailed(GpuUuid, p.status)))) &&
            (p.status == StatusSuccess ==>
               (r.Returned? <==> 0 in buf) &&
               (r.Returned? ==> r.err == None && CStrings.TerminatedBy(buf, r.value) && |r.value| < UuidLength) &&
               (r.Faulted? ==> r.fault == UnterminatedString))
  {
    var p := Dispatch.Wrapper(lib.State(), Symbols.GetGpuDeviceUuid, native, (processor.handle, UuidLength), []);
    if p.status != StatusSuccess then Returned([], Some(CallFailed(GpuUuid, p.status)))
    else
      var buf := CStrings.Overlay(CStrings.Zeros(UuidLength), p.out);
      match CStrings.GoString(buf)
      case None => Faulted(UnterminatedString)
      case Some(uuid) => CStrings.GoStringFitsBuffer(buf); Returned(uuid, None)
  }

  /** GetGPUID: the uint16 the library writes, widened to uint32, so always
      below 65536; 0 with an error otherwise. */
  function GetGPUID(lib: DynamicLoader.Loader, processor: ProcessorHandle,
                    native: (Addr, RawHandle) -> Reply<uint16>): (r: Outcome<uint32>)
    reads lib, lib.entries
    requires lib.Valid()
    ensures r.Returned?
    ensures var p := Dispatch.Wrapper(lib.State(), Symbols.GetGpuId, native, processor.handle, 0);
            (p.status != StatusSuccess ==> r.value == 0 && r.err == Some(CallFailed(GpuId, p.status))) &&
            (p.status == StatusSuccess ==> r.err == None && r.value as int == p.out as int)
    ensures r.value < 0x1_0000
  {
    var p := Dispatch.Wrapper(lib.State(), Symbols.GetGpuId, native, processor.handle, 0);
    if p.status != StatusSuccess then Returned(0, Some(CallFailed(GpuId, p.status)))
    else Returned(p.out as uint32, None)
  }

  /** With every entry NULL (after an unload, or at process start), each
      getter reports the wrapper's INVAL status as its error and never
      reaches the library. */
  lemma GettersFailWhenUnloaded(lib: DynamicLoader.Loader, processor: ProcessorHandle, socket: SocketHandle, maxLen: int,
                                idNative: (Addr, RawHandle) -> Reply<uint16>,
                                uuidNative: (Addr, (RawHandle, nat)) -> Reply<seq<byte>>,
                                boardNative: (Addr, RawHandle) -> Reply<RawBoardInfo>,
                                nameNative: (Addr, (RawHandle, nat)) -> Reply<seq<byte>>)
    requires lib.Valid() && LoaderSpec.AllNull(lib.State())
    ensures GetGPUID(lib, processor, idNative) == Returned(0, Some(CallFailed(GpuId, StatusInval)))
    ensures GetGPUUUID(lib, processor, uuidNative) == Returned([], Some(CallFailed(GpuUuid, StatusInval)))
    ensures GetGPUBoardInfo(lib, processor, boardNative) ==
            Returned(BoardInfo([], [], [], [], []), Some(CallFailed(GpuBoardInfo, StatusInval)))
    ensures maxLen > 0 ==> GetSocketName(lib, socket, maxLen, nameNative) == Returned([], Some(CallFailed(SocketInfo, StatusInval)))
  {
    assert lib.State().entries[Symbols.Slot(Symbols.GetGpuId)].None?;
    assert lib.State().entries[Symbols.Slot(Symbols.GetGpuDeviceUuid)].None?;
    assert lib.State().entries[Symbols.Slot(Symbols.GetGpuBoardInfo)].None?;
    assert lib.State().entries[Symbols.Slot(Symbols.GetSocketInfo)].None?;
  }
}
