# Runtime binding layer of the Go AMD SMI bindings, in Dafny

This project models the runtime-loaded binding in `lib/go/amdsmi.go`. That file
opens the vendor library `libamd_smi.so` with `dlopen` at run time. It resolves
eleven entry points with `dlsym` into a process-wide function-pointer table.
Calls go through `call_*` wrappers that each check their own table entry. The Go
functions on top map the native status codes to `(value, error)` pairs and
decode C buffers into text.

The model has seven modules:

- `SmiTypes` (types.dfy): addresses, status codes, bytes, the fixed-width
  integers, the native `Reply` (a status plus what the native side wrote
  through its output pointers), and Go's `(value, error)` result or a fault.
- `Symbols` (symbols.dfy): the eleven entry points. Their order in the
  function-pointer struct is also the order in which the loader resolves them.
- `LoaderSpec` (loader_spec.dfy): the loader state (`lib_handle` and the
  table) as a value. `load_amdsmi_library` and `unload_amdsmi_library` are pure
  functions of the old state and of what `dlopen`/`dlsym` answer. The lemmas
  give their closed forms and the invariants they keep.
- `Dispatch` (dispatch.dfy): the wrapper guard `DEFINE_AMDSMI_WRAPPER`.
  Native functions are oracles: functions from the address the entry holds and
  the call's arguments to a `Reply`.
- `DynamicLoader` (loader.dfy): the same state as a class, with a `handle`
  field and an eleven-slot `entries` array. `Load` stores into them one
  assignment at a time, as the source does; `Unload` clears all eleven entries
  in a single `forall` statement. Both are proved equal to the `LoaderSpec`
  functions.
- `CStrings` (cstrings.dfy) and `GoBinding` (go_binding.dfy): `C.GoString`
  on fixed buffers, `Init`, the probe-then-fetch handle enumerations (with
  their index loops), and the socket-name, board-info, UUID and GPU-id getters.

`dlopen` is an input `Option<Addr>`, where `None` stands for NULL. `dlsym` is an
input function from symbol to `Option<Addr>`. The calls made into the dynamic
loader are recorded as a trace of `Dlopen`, `Dlsym(sym)` and `Dlclose(lib)`
events. The library's own functions are oracles. When a wrapper finds a NULL
entry, it returns `AMDSMI_STATUS_INVAL` and leaves the output values as they
were. The lemma `Dispatch.CallGuard` shows that this answer does not depend on
the oracle at all, so nothing is invoked.

A failed load is not fully rolled back. When a symbol is missing,
`LOAD_AMDSMI_SYMBOL` closes the library and clears the handle, but it leaves
every entry resolved before the missing one in place. `unload_amdsmi_library`
then does nothing, because no handle is held. The wrappers consult only their
own entry, so those entries stay callable and point into a closed library.
`LoaderSpec.StaleEntriesAfterFailedLoad` and
`Dispatch.StaleWrapperAfterFailedLoad` state this.

`amdsmi.h` is not part of this model. The values it defines
(`AMDSMI_STATUS_SUCCESS` = 0, `AMDSMI_STATUS_INVAL` = 1, `AMDSMI_INIT_AMD_GPUS`,
the board-info array sizes) appear only as named constants or as inputs. Only
the fact that SUCCESS and INVAL are distinct is used.

## Model

| member | source | states |
|---|---|---|
| `Symbols.Slot` | lib/go/amdsmi.go:37-49 | each symbol owns one slot of the function-pointer struct, at the position where the loader resolves it |
| `LoaderSpec.ResolveFromEntries` | lib/go/amdsmi.go:102-112 | after the symbol loads from slot i: slots before i unchanged, slots up to the first failure hold dlsym's answers (all non-NULL), the failing slot is NULL and later slots are unchanged |
| `LoaderSpec.ResolveFromOutcome` | lib/go/amdsmi.go:63-70 | the first NULL from dlsym closes the library, clears the handle and returns 0 after exactly the lookups up to it and one dlclose; if none is NULL the handle stays and the result is 1 after one lookup per symbol |
| `LoaderSpec.ResolveFromLookups` | lib/go/amdsmi.go:63-64 | the lookups are made one slot at a time, in order, up to and including the first that fails |
| `LoaderSpec.ResolveAll` | lib/go/amdsmi.go:101-114 | the three closed forms above for a whole resolution, from the first slot |
| `LoaderSpec.ResolveAllFound` | lib/go/amdsmi.go:101-114 | when no lookup fails, the resolution keeps the handle, returns 1, stores every address in its own slot and looks each symbol up once, in order |
| `LoaderSpec.ResolveFailsAt` | lib/go/amdsmi.go:63-70 | when slot k is the first to fail, the resolution returns 0 with the handle cleared, slot k NULL, earlier slots resolved and later slots untouched, after the lookups up to k and one dlclose |
| `LoaderSpec.ResolveFrom` | lib/go/amdsmi.go:63-70 | the symbol loads from slot i keep the table's length and the slots before i; they either keep the library and return 1, with every slot from i on resolved, or clear the handle and return 0 |
| `LoaderSpec.Load` | lib/go/amdsmi.go:85-115 | the table keeps its eleven slots; the result is 1 exactly when a handle is held afterwards and 0 exactly when none is; with a handle already held nothing changes and no loader call is made |
| `LoaderSpec.Unload` | lib/go/amdsmi.go:118-136 | afterwards no handle is held; if one was, every entry is NULL after exactly one loader call; if none was, nothing changes and no loader call is made |
| `LoaderSpec.LoadWhenHeld` | lib/go/amdsmi.go:87-90 | with a handle held, load returns 1, changes no state and makes no loader call |
| `LoaderSpec.LoadWhenOpenFails` | lib/go/amdsmi.go:92-96 | if dlopen fails, load returns 0, the handle stays NULL, no entry changes and dlsym is never called |
| `LoaderSpec.LoadAllResolved` | lib/go/amdsmi.go:102-114 | when every symbol resolves, the symbols are looked up in the fixed order, each entry holds its own symbol's address, the handle is held and the result is 1 |
| `LoaderSpec.LoadFailsAtFirstMissing` | lib/go/amdsmi.go:63-70 | if the k-th symbol is the first missing one: result 0, handle NULL, library closed, entry k NULL, entries before k keep their new addresses, entries after k keep their old values, and the lookups stop at k |
| `LoaderSpec.LoadResultMatchesHandle` | lib/go/amdsmi.go:86-115 | load returns 1 exactly when it leaves a handle held; a library it opened but does not keep is closed by its last loader call |
| `LoaderSpec.LoadKeepsConsistent` | lib/go/amdsmi.go:86-115 | load preserves the invariant that a held handle means all eleven entries are resolved |
| `LoaderSpec.LoadTwice` | lib/go/amdsmi.go:87-90 | after a load that returned 1, a second load returns 1, opens nothing and keeps the same state |
| `LoaderSpec.LoadThenUnload` | lib/go/amdsmi.go:118-136 | a successful load from process start followed by an unload closes that library and restores the process-start state |
| `LoaderSpec.UnloadWhenHeld` | lib/go/amdsmi.go:119-134 | with a handle held, unload closes it, and the handle and all eleven entries become NULL |
| `LoaderSpec.UnloadWhenNotHeld` | lib/go/amdsmi.go:119 | with no handle, unload changes nothing and calls nothing |
| `LoaderSpec.UnloadIdempotent` | lib/go/amdsmi.go:118-136 | a second unload is a no-op |
| `LoaderSpec.UnloadKeepsConsistent` | lib/go/amdsmi.go:118-136 | unload preserves the held-handle-means-full-table invariant |
| `LoaderSpec.StaleEntriesAfterFailedLoad` | lib/go/amdsmi.go:63-70 | after a load that fails at symbol k > 0, the handle is NULL, yet entries 0..k-1 are non-NULL and an unload leaves them there |
| `Dispatch.Call` | lib/go/amdsmi.go:73-79 | a guarded call answers something other than INVAL only through a resolved entry; a NULL entry answers INVAL and leaves the outputs as they were |
| `Dispatch.Wrapper` | lib/go/amdsmi.go:143-153 | each `call_*` wrapper's reply depends on its own symbol's entry alone, never on the handle: a resolved entry forwards the native function's reply at that address unchanged, a NULL entry answers INVAL with the outputs untouched |
| `Dispatch.CallGuard` | lib/go/amdsmi.go:73-79 | a non-NULL entry forwards the native reply unchanged; a NULL entry answers INVAL with the outputs untouched, independently of the native function |
| `Dispatch.WrapperWhenLoaded` | lib/go/amdsmi.go:143-153 | with a handle held in a consistent state, every wrapper reaches its native function |
| `Dispatch.WrapperAfterLoad` | lib/go/amdsmi.go:143-153 | after a successful load, each wrapper calls exactly the address dlsym gave for its own symbol |
| `Dispatch.WrapperAfterUnload` | lib/go/amdsmi.go:118-153 | after an unload that released a handle, every wrapper answers INVAL and invokes nothing |
| `Dispatch.StaleWrapperAfterFailedLoad` | lib/go/amdsmi.go:63-79 | after a load that failed at symbol k, even after an unload, wrappers for symbols before k still call into the closed library, and the wrapper for symbol k answers INVAL |
| `DynamicLoader.Loader.constructor` | lib/go/amdsmi.go:55-56 | static storage starts with no handle and every entry NULL |
| `DynamicLoader.Loader.Load` | lib/go/amdsmi.go:85-115 | the in-place load leaves exactly the state, result and loader calls of `LoaderSpec.Load`, and keeps the object invariant |
| `DynamicLoader.Loader.ResolveSymbols` | lib/go/amdsmi.go:101-114 | the in-place symbol loads leave exactly the state, result and loader calls of `LoaderSpec.ResolveFrom` from the first slot |
| `DynamicLoader.Loader.Unload` | lib/go/amdsmi.go:118-136 | the in-place unload leaves exactly the state and loader calls of `LoaderSpec.Unload` |
| `CStrings.GoString` | lib/go/amdsmi.go:270 | the model of `C.GoString` on a fixed buffer yields text exactly when the buffer holds a NUL, and the text is the bytes before the first NUL; an unterminated buffer is a fault (see "Left out") |
| `CStrings.GoStringOfWrittenText` | lib/go/amdsmi.go:316-322 | round trip: a NUL-free text written into a zeroed buffer with room for the terminator decodes back to that text |
| `CStrings.GoStringFitsBuffer` | lib/go/amdsmi.go:350-357 | decoded text is at least one byte shorter than its buffer (at most the buffer length minus one bytes), since the terminator must fit |
| `GoBinding.Init` | lib/go/amdsmi.go:226-232 | Init returns an error exactly when load returns 0, and then false; otherwise the error is nil and the bool is whether amdsmi_init answered SUCCESS |
| `GoBinding.InitReachesNative` | lib/go/amdsmi.go:226-232 | when Init's load succeeds, the amdsmi_init entry is resolved, so Init's status comes from the library and not from the wrapper's guard |
| `GoBinding.WrapHandles` | lib/go/amdsmi.go:253-256 | the copy loop faults exactly when the C buffer is longer than the Go slice; otherwise element i wraps native handle i, in order, and the rest are zero handles |
| `GoBinding.GetSocketHandles` | lib/go/amdsmi.go:240-259 | probe with count 0 and a nil buffer, then fetch into a zeroed buffer of the probed size; an error names the failed call, a zero count faults, and otherwise the list wraps the fetched handles in order |
| `GoBinding.GetProcessorHandles` | lib/go/amdsmi.go:275-294 | the same protocol for the processors of one socket, passing the socket handle unchanged |
| `GoBinding.EnumeratedStableCount` | lib/go/amdsmi.go:240-259 | when the fetch reports the probed count, the result has exactly that many handles, and the i-th one wraps the i-th native handle |
| `GoBinding.GetSocketName` | lib/go/amdsmi.go:262-272 | a negative or zero maxLen faults before any call; a failed call gives ("", error); otherwise the name is the buffer's text before its first NUL |
| `GoBinding.GetGPUBoardInfo` | lib/go/amdsmi.go:308-324 | a failed call gives an empty BoardInfo and an error; otherwise each of the five fields is its char array's text before the first NUL |
| `GoBinding.GetGPUUUID` | lib/go/amdsmi.go:349-358 | the UUID is the text before the first NUL of a zeroed 38-byte buffer, so it is under 38 bytes long; a failed call gives ("", error) |
| `GoBinding.GetGPUID` | lib/go/amdsmi.go:327-335 | success returns the uint16 the library wrote, widened and so below 65536; failure returns 0 with an error |
| `GoBinding.GettersFailWhenUnloaded` | lib/go/amdsmi.go:73-79 | with every entry NULL, the id, UUID, board-info and socket-name getters all return the INVAL status as their error |

## Left out

- The Go functions `Shutdown`, `GetProcessorType`, `GetGPUBDFID` and `GetGPUVRAM` are not modelled. They are single guarded calls with no decoding logic. Their wrappers are covered by `Dispatch.Wrapper`, which is parameterised by symbol.
- The link-time binding `amdsmi.go`, the C++ forwarders in `src/amd_smi/amd_smi_wrapper.cc`, the demonstration program `main.go` and the hardware test `tests/amd_smi_test/functional/power_read_write.cc` are not part of this model. They add no logic beyond forwarding, sequencing and logging.
- `dlopen`, `dlsym` and `dlclose` are inputs or trace events. `dlerror` and the `fprintf(stderr, …)` diagnostics are not modelled.
- What the vendor library computes (handles, names, board data, ids, UUIDs) is an input through the oracles. So is what a call through a stale entry into a closed library does: the model only records that the call is made.
- `DynamicLoader.Loader.ResolveSymbols`: the eleven `LOAD_AMDSMI_SYMBOL` expansions are written as one loop over the fixed symbol order. Each iteration does what one expansion does.
- `CStrings.GoString`: `C.GoString` runs `strlen` from the pointer and always yields text; on a buffer with no NUL it reads past the end (for board info, into the next field of the struct). The model does not follow that read: an unterminated buffer is the fault `UnterminatedString`.
- Native calls are assumed to write only within the buffer they are given (`CStrings.Overlay`). A native function that overruns its buffer is not modelled.
- C struct layouts, `unsafe.Pointer` casts, and the capacities of the board-info char arrays are not modelled. Each field is a byte sequence of whatever length the library provides.
- Error values keep only the failing step and the status, not the `fmt.Errorf` text. A nil slice returned with an error is the empty sequence.
- Handle counts are unbounded naturals, not `uint32`, and `maxLen` is not narrowed by the `C.size_t` conversion. Neither bound affects the properties stated.
- Concurrent use of the process-wide state is not modelled: the source has no locking, and the model is sequential.
