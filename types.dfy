/** Values shared by the loader, the dispatch guard and the Go layer:
    addresses, status codes, bytes and the Go-side result shape. */
module SmiTypes {

  datatype Option<+T> = None | Some(value: T)

  /** A non-null native address: a library handle returned by dlopen or a
      function pointer returned by dlsym. NULL is represented by None. */
  type Addr = nat

  /** An opaque native socket or processor handle (a void*); 0 is nil. */
  type RawHandle = nat
  const NullHandle: RawHandle := 0

  /** amdsmi_status_t. Only SUCCESS and INVAL matter to the binding layer;
      every other value is an opaque failure code. */
  type Status = int
  const StatusSuccess: Status := 0
  const StatusInval: Status := 1

  newtype byte = x: int | 0 <= x < 256

  newtype uint16 = x: int | 0 <= x < 0x1_0000
  newtype uint32 = x: int | 0 <= x < 0x1_0000_0000

  /** What a native function returns: its status and what it wrote through
      its output pointers. */
  datatype Reply<+T> = Reply(status: Status, out: T)

  /** The Go-side step whose non-success status produced an error. */
  datatype Step =
    | SocketCount | SocketHandles | SocketInfo
    | ProcessorCount | ProcessorHandles
    | GpuBoardInfo | GpuId | GpuUuid

  /** The `error` values this layer builds: a failed library load, or a
      non-success status reported by one step (the status is kept, the
      message text is not). */
  datatype GoError = LoadLibraryFailed | CallFailed(step: Step, status: Status)

  /** Go run-time faults the code can hit instead of returning, and a read
      of C memory past the end of a buffer. */
  datatype Fault =
    | MakeLengthOutOfRange // make() of a slice with a negative length
    | IndexOutOfRange      // indexing an empty or too short Go slice
    | UnterminatedString   // C.GoString on a buffer holding no NUL byte

  /** A Go function's (value, error) pair, or a fault. On an error the value
      is the Go zero value of its type. */
  datatype Outcome<+T> = Returned(value: T, err: Option<GoError>) | Faulted(fault: Fault)
}
