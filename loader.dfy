/** The process-wide state of lib/go/amdsmi.go as an object: `handle` is
    lib_handle and `entries` is the amdsmi_funcs struct, one slot per
    symbol in LoadOrder. Load stores into them one assignment at a time, as
    load_amdsmi_library does; Unload clears all eleven entries in a single
    forall statement, which unload_amdsmi_library spells out entry by entry. */
module DynamicLoader {
  import opened SmiTypes
  import opened Symbols
  import LoaderSpec

  class Loader {
    var handle: Option<Addr>
    const entries: array<Option<Addr>>

    /** The state as a value, for the specification functions. */
    function State(): LoaderSpec.LoaderState
      reads this, entries
    {
      LoaderSpec.LoaderState(handle, entries[..])
    }

    ghost predicate Valid()
      reads this, entries
    {
      entries.Length == SymbolCount && LoaderSpec.Consistent(State())
    }

    /** Zero-initialised static storage: no handle, every entry NULL. */
    constructor ()
      ensures Valid() && fresh(entries)
      ensures State() == LoaderSpec.Unloaded
    {
      handle := None;
      entries := new Option<Addr>[SymbolCount](_ => None);
    }

    /** load_amdsmi_library. `dlopen` is what dlopen("libamd_smi.so")
        answers (None for NULL) and `dlsym` what dlsym answers per symbol.
        Nothing happens while a handle is held; a NULL from dlopen is stored
        as the handle and returns 0; otherwise ResolveSymbols runs the
        eleven LOAD_AMDSMI_SYMBOL expansions. `events` records the calls
        into the dynamic loader. */
    method Load(dlopen: Option<Addr>, dlsym: Symbol -> Option<Addr>) returns (ret: int, ghost events: seq<LoaderSpec.DlEvent>)
      requires Valid()
      modifies this, entries
      ensures Valid()
      ensures LoaderSpec.LoadOutcome(State(), ret, events) == LoaderSpec.Load(old(State()), dlopen, dlsym)
    {
      ghost var start := State();
      LoaderSpec.LoadKeepsConsistent(start, dlopen, dlsym);
      if handle.Some? {
        return 1, [];
      }
      handle := dlopen;
      if handle.None? {
        return 0, [LoaderSpec.Dlopen];
      }
      ghost var lookups;
      ret, lookups := ResolveSymbols(handle.value, dlsym);
      events := [LoaderSpec.Dlopen] + lookups;
    }

    /** The LOAD_AMDSMI_SYMBOL expansions of load_amdsmi_library with the
        library open as `lib`: each symbol of LoadOrder is looked up and
        stored in its entry; the first NULL answer closes the library,
        clears the handle and returns 0 with the entries resolved so far
        left in place; when all resolve, 1. */
    method ResolveSymbols(lib: Addr, dlsym: Symbol -> Option<Addr>) returns (ret: int, ghost events: seq<LoaderSpec.DlEvent>)
      requires handle == Some(lib) && entries.Length == SymbolCount
      modifies this, entries
      ensures entries.Length == SymbolCount
      ensures LoaderSpec.LoadOutcome(State(), ret, events) ==
              LoaderSpec.ResolveFrom(lib, old(entries[..]), LoadOrder, dlsym, 0)
    {
      ghost var target := LoaderSpec.ResolveFrom(lib, entries[..], LoadOrder, dlsym, 0);
      events := [];
      var i := 0;
      while i < SymbolCount
        invariant 0 <= i <= SymbolCount
        invariant handle == Some(lib)
        invariant target ==
                  var r := LoaderSpec.ResolveFrom(lib, entries[..], LoadOrder, dlsym, i);
                  r.(events := events + r.events)
      {
        LoaderSpec.ResolveStep(lib, entries[..], LoadOrder, dlsym, i, events);
        var sym := LoadOrder[i];
        entries[i] := dlsym(sym);
        events := events + [LoaderSpec.Dlsym(sym)];
        if entries[i].None? {
          events := events + [LoaderSpec.Dlclose(lib)];
          handle := None;
          return 0, events;
        }
        i := i + 1;
      }
      return 1, events;
    }

    /** unload_amdsmi_library: only with a handle held, close it, clear it
        and set all eleven entries to NULL. */
    method Unload() returns (ghost events: seq<LoaderSpec.DlEvent>)
      requires Valid()
      modifies this, entries
      ensures Valid()
      ensures LoaderSpec.UnloadOutcome(State(), events) == LoaderSpec.Unload(old(State()))
    {
      events := [];
      if handle.Some? {
        events := [LoaderSpec.Dlclose(handle.value)];
        handle := None;
        forall i | 0 <= i < entries.Length {
          entries[i] := None;
        }
      }
    }
  }
}
