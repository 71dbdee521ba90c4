/** The process-wide loader state of lib/go/amdsmi.go (the library handle and
    the eleven-slot function-pointer table) and its two transitions, as pure
    functions of the old state and of what dlopen and dlsym answer. */
module LoaderSpec {
  import opened SmiTypes
  import opened Symbols

  /** lib_handle and amdsmi_funcs; entry i belongs to LoadOrder[i]. */
  datatype LoaderState = LoaderState(handle: Option<Addr>, entries: seq<Option<Addr>>)

  predicate WellFormed(s: LoaderState)
  {
    |s.entries| == SymbolCount
  }

  /** Static storage at process start: no handle, every entry NULL. */
  const Unloaded: LoaderState :=
    LoaderState(None, [None, None, None, None, None, None, None, None, None, None, None])

  /** Every entry of the table is NULL. */
  predicate AllNull(s: LoaderState)
    requires WellFormed(s)
  {
    forall i :: 0 <= i < SymbolCount ==> s.entries[i].None?
  }

  /** The invariant the two transitions keep: a held handle means that every
      entry is resolved. (The converse does not hold: see StaleEntriesAfterFailedLoad.) */
  predicate Consistent(s: LoaderState)
  {
    WellFormed(s) &&
    (s.handle.Some? ==> forall i :: 0 <= i < SymbolCount ==> s.entries[i].Some?)
  }

  /** The calls into the platform's dynamic loader, in the order they are made. */
  datatype DlEvent = Dlopen | Dlsym(sym: Symbol) | Dlclose(lib: Addr)

  /** What load_amdsmi_library leaves behind: the new state, its int result
      and the loader calls it made. */
  datatype LoadOutcome = LoadOutcome(state: LoaderState, ret: int, events: seq<DlEvent>)

  /** The LOAD_AMDSMI_SYMBOL expansions from the i-th one on, for the
      symbols `order` (slot j of the table belongs to order[j]), with the
      library `lib` open: store what dlsym answers in the entry; on NULL close
      the library, clear the handle and return 0 at once. */
  function ResolveFrom(lib: Addr, entries: seq<Option<Addr>>, order: seq<Symbol>,
                       dlsym: Symbol -> Option<Addr>, i: nat): (r: LoadOutcome)
    requires |entries| == |order| && i <= |order|
    ensures |r.state.entries| == |entries|
    ensures forall j :: 0 <= j < i ==> r.state.entries[j] == entries[j]
    ensures (r.ret == 1 && r.state.handle == Some(lib)) || (r.ret == 0 && r.state.handle.None?)
    ensures r.ret == 1 ==> forall j :: i <= j < |order| ==> r.state.entries[j].Some?
    decreases |order| - i
  {
    if i == |order| then
      LoadOutcome(LoaderState(Some(lib), entries), 1, [])
    else
      var sym := order[i];
      var entries' := entries[i := dlsym(sym)];
      if dlsym(sym).None? then
        LoadOutcome(LoaderState(None, entries'), 0, [Dlsym(sym), Dlclose(lib)])
      else
        var rest := ResolveFrom(lib, entries', order, dlsym, i + 1);
        rest.(events := [Dlsym(sym)] + rest.events)
  }

  /** load_amdsmi_library: nothing when a handle is held; otherwise dlopen
      and, if that succeeds, resolve the symbols in LoadOrder. */
  function Load(s: LoaderState, dlopen: Option<Addr>, dlsym: Symbol -> Option<Addr>): (r: LoadOutcome)
    requires WellFormed(s)
    ensures WellFormed(r.state)
    ensures r.ret == 1 <==> r.state.handle.Some?
    ensures r.ret == 0 <==> r.state.handle.None?
    ensures s.handle.Some? ==> r.state == s && r.events == []
  {
    if s.handle.Some? then
      LoadOutcome(s, 1, [])
    else if dlopen.None? then
      LoadOutcome(s.(handle := None), 0, [Dlopen])
    else
      var r := ResolveFrom(dlopen.value, s.entries, LoadOrder, dlsym, 0);
      r.(events := [Dlopen] + r.events)
  }

  /** What unload_amdsmi_library leaves behind and the loader calls it made. */
  datatype UnloadOutcome = UnloadOutcome(state: LoaderState, events: seq<DlEvent>)

  /** unload_amdsmi_library: with a handle held, close it and NULL the handle
      and every entry; otherwise do nothing. */
  function Unload(s: LoaderState): (r: UnloadOutcome)
    ensures r.state.handle.None?
    ensures s.handle.Some? ==> WellFormed(r.state) && AllNull(r.state)
    ensures |r.events| == 1 <==> s.handle.Some?
    ensures s.handle.None? ==> r.state == s && r.events == []
  {
    if s.handle.Some? then UnloadOutcome(Unloaded, [Dlclose(s.handle.value)])
    else UnloadOutcome(s, [])
  }

  /** The index in `order` of the first symbol at or after i that dlsym
      cannot resolve, or |order| when all of them resolve. */
  function FirstMissing(order: seq<Symbol>, dlsym: Symbol -> Option<Addr>, i: nat): (k: nat)
    requires i <= |order|
    ensures i <= k <= |order|
    ensures forall j :: i <= j < k ==> dlsym(order[j]).Some?
    ensures k < |order| ==> dlsym(order[k]).None?
    decreases |order| - i
  {
    if i == |order| || dlsym(order[i]).None? then i else FirstMissing(order, dlsym, i + 1)
  }

  /** One LOAD_AMDSMI_SYMBOL step of the resolution from slot i, with the
      loader calls `done` already made before it: the lookup of order[i]
      either ends the load or leaves the rest to the resolution from i + 1. */
  lemma ResolveStep(lib: Addr, entries: seq<Option<Addr>>, order: seq<Symbol>,
                    dlsym: Symbol -> Option<Addr>, i: nat, done: seq<DlEvent>)
    requires |entries| == |order| && i < |order|
    ensures var r := ResolveFrom(lib, entries, order, dlsym, i);
            var entries' := entries[i := dlsym(order[i])];
            var done' := done + [Dlsym(order[i])];
            r.(events := done + r.events) ==
              if dlsym(order[i]).None? then
                LoadOutcome(LoaderState(None, entries'), 0, done' + [Dlclose(lib)])
              else
                var rest := ResolveFrom(lib, entries', order, dlsym, i + 1);
                rest.(events := done' + rest.events)
  {
    var sym := order[i];
    if dlsym(sym).Some? {
      var rest := ResolveFrom(lib, entries[i := dlsym(sym)], order, dlsym, i + 1);
      assert done + ([Dlsym(sym)] + rest.events) == (done + [Dlsym(sym)]) + rest.events;
    } else {
      assert done + [Dlsym(sym), Dlclose(lib)] == (done + [Dlsym(sym)]) + [Dlclose(lib)];
    }
  }

  /** The table left by the symbol resolution from slot i: slots before i
      are untouched, slots i..k-1 hold what dlsym answered, and when some
      symbol fails, slot k is NULL and the later slots are untouched. */
  lemma {:induction false} ResolveFromEntries(lib: Addr, entries: seq<Option<Addr>>, order: seq<Symbol>,
                                              dlsym: Symbol -> Option<Addr>, i: nat)
    requires |entries| == |order| && i <= |order|
    ensures var k := FirstMissing(order, dlsym, i);
            var r := ResolveFrom(lib, entries, order, dlsym, i);
            |r.state.entries| == |order| &&
            (forall j :: 0 <= j < i ==> r.state.entries[j] == entries[j]) &&
            (forall j :: i <= j < k ==> r.state.entries[j] == dlsym(order[j]) && r.state.entries[j].Some?) &&
            (k < |order| ==>
               r.state.entries[k] == None &&
               (forall j :: k < j < |order| ==> r.state.entries[j] == entries[j]))
    decreases |order| - i
  {
    if i < |order| && dlsym(order[i]).Some? {
      ResolveFromEntries(lib, entries[i := dlsym(order[i])], order, dlsym, i + 1);
    }
  }

  /** The handle, result and number of loader calls left by the symbol
      resolution from slot i: all resolve (handle kept, result 1, one lookup
      per symbol), or the first failure at k closes the library, clears the
      handle and returns 0 after the lookups of slots i..k and a dlclose. */
  lemma {:induction false} ResolveFromOutcome(lib: Addr, entries: seq<Option<Addr>>, order: seq<Symbol>,
                                              dlsym: Symbol -> Option<Addr>, i: nat)
    requires |entries| == |order| && i <= |order|
    ensures var k := FirstMissing(order, dlsym, i);
            var r := ResolveFrom(lib, entries, order, dlsym, i);
            (k == |order| ==>
               r.state.handle == Some(lib) && r.ret == 1 && |r.events| == |order| - i) &&
            (k < |order| ==>
               r.state.handle == None && r.ret == 0 &&
               |r.events| == k - i + 2 && r.events[k - i + 1] == Dlclose(lib))
    decreases |order| - i
  {
    if i < |order| && dlsym(order[i]).Some? {
      ResolveFromOutcome(lib, entries[i := dlsym(order[i])], order, dlsym, i + 1);
    }
  }

  /** The lookups made by the symbol resolution from slot i: one dlsym per
      slot, in order, up to and including the first that fails. */
  lemma {:induction false} ResolveFromLookups(lib: Addr, entries: seq<Option<Addr>>, order: seq<Symbol>,
                                              dlsym: Symbol -> Option<Addr>, i: nat)
    requires |entries| == |order| && i <= |order|
    ensures var k := FirstMissing(order, dlsym, i);
            var r := ResolveFrom(lib, entries, order, dlsym, i);
            (if k < |order| then k - i < |r.events| else |order| - i <= |r.events|) &&
            forall j :: i <= j <= k && j < |order| ==> r.events[j - i] == Dlsym(order[j])
    decreases |order| - i
  {
    if i < |order| && dlsym(order[i]).Some? {
      var entries' := entries[i := dlsym(order[i])];
      ResolveFromLookups(lib, entries', order, dlsym, i + 1);
      assert FirstMissing(order, dlsym, i) == FirstMissing(order, dlsym, i + 1);
      var rest := ResolveFrom(lib, entries', order, dlsym, i + 1);
      assert ResolveFrom(lib, entries, order, dlsym, i).events == [Dlsym(order[i])] + rest.events;
    }
  }

  /** Both closed forms for a whole resolution, from slot 0. */
  lemma ResolveAll(lib: Addr, entries: seq<Option<Addr>>, order: seq<Symbol>, dlsym: Symbol -> Option<Addr>)
    requires |entries| == |order|
    ensures var k := FirstMissing(order, dlsym, 0);
            var r := ResolveFrom(lib, entries, order, dlsym, 0);
            |r.state.entries| == |order| &&
            (k == |order| ==>
               r.state.handle == Some(lib) && r.ret == 1 && |r.events| == |order|) &&
            (k < |order| ==>
               r.state.handle == None && r.ret == 0 && r.state.entries[k] == None &&
               (forall j :: k < j < |order| ==> r.state.entries[j] == entries[j]) &&
               |r.events| == k + 2 && r.events[k + 1] == Dlclose(lib)) &&
            (forall j :: 0 <= j < k ==>
               r.state.entries[j] == dlsym(order[j]) && r.state.entries[j].Some?) &&
            (forall j :: 0 <= j <= k && j < |order| ==> r.events[j] == Dlsym(order[j]))
  {
    ResolveFromEntries(lib, entries, order, dlsym, 0);
    ResolveFromOutcome(lib, entries, order, dlsym, 0);
    ResolveFromLookups(lib, entries, order, dlsym, 0);
  }

  /** A resolution in which every lookup succeeds keeps the handle, returns
      1, stores each symbol's address in its slot and looks them up in order. */
  lemma ResolveAllFound(lib: Addr, entries: seq<Option<Addr>>, order: seq<Symbol>, dlsym: Symbol -> Option<Addr>)
    requires |entries| == |order|
    requires forall sym :: dlsym(sym).Some?
    ensures var r := ResolveFrom(lib, entries, order, dlsym, 0);
            r.ret == 1 && r.state.handle == Some(lib) &&
            |r.state.entries| == |order| && |r.events| == |order| &&
            (forall j :: 0 <= j < |order| ==>
               r.state.entries[j] == dlsym(order[j]) && r.events[j] == Dlsym(order[j]))
  {
    ResolveAll(lib, entries, order, dlsym);
  }

  /** When every symbol resolves, they are looked up in LoadOrder, every
      entry holds its symbol's address, the handle is the opened library and
      the result is 1. */
  lemma LoadAllResolved(s: LoaderState, lib: Addr, dlsym: Symbol -> Option<Addr>)
    requires WellFormed(s) && s.handle.None?
    requires forall sym :: dlsym(sym).Some?
    ensures var r := Load(s, Some(lib), dlsym);
            r.ret == 1 && r.state.handle == Some(lib) &&
            WellFormed(r.state) &&
            (forall sym :: r.state.entries[Slot(sym)] == dlsym(sym)) &&
            |r.events| == SymbolCount + 1 && r.events[0] == Dlopen &&
            (forall j :: 0 <= j < SymbolCount ==> r.events[j + 1] == Dlsym(LoadOrder[j]))
  {
    ResolveAllFound(lib, s.entries, LoadOrder, dlsym);
    forall sym: Symbol
      ensures Load(s, Some(lib), dlsym).state.entries[Slot(sym)] == dlsym(sym)
    {
    }
  }

  /** A resolution whose first failing lookup is slot k returns 0 with the
      handle cleared, slot k NULL, the slots before k resolved and those
      after k untouched, after the lookups of slots 0..k and a dlclose. */
  lemma ResolveFailsAt(lib: Addr, entries: seq<Option<Addr>>, order: seq<Symbol>,
                       dlsym: Symbol -> Option<Addr>, k: nat)
    requires |entries| == |order|
    requires k < |order| && dlsym(order[k]).None?
    requires forall j :: 0 <= j < k ==> dlsym(order[j]).Some?
    ensures var r := ResolveFrom(lib, entries, order, dlsym, 0);
            r.ret == 0 && r.state.handle == None &&
            |r.state.entries| == |order| && r.state.entries[k] == None &&
            (forall j :: 0 <= j < k ==> r.state.entries[j] == dlsym(order[j])) &&
            (forall j :: k < j < |order| ==> r.state.entries[j] == entries[j]) &&
            |r.events| == k + 2 &&
            (forall j :: 0 <= j <= k ==> r.events[j] == Dlsym(order[j])) &&
            r.events[k + 1] == Dlclose(lib)
  {
    ResolveAll(lib, entries, order, dlsym);
  }

  /** When the k-th symbol in LoadOrder is the first one that fails, load
      returns 0, the library is closed and the handle NULL, entry k is NULL,
      the entries before k keep the addresses just resolved, the entries
      after k keep their old values, and the lookups stop at k. */
  lemma LoadFailsAtFirstMissing(s: LoaderState, lib: Addr, dlsym: Symbol -> Option<Addr>, k: nat)
    requires WellFormed(s) && s.handle.None?
    requires k < SymbolCount && dlsym(LoadOrder[k]).None?
    requires forall j :: 0 <= j < k ==> dlsym(LoadOrder[j]).Some?
    ensures var r := Load(s, Some(lib), dlsym);
            r.ret == 0 && r.state.handle == None &&
            WellFormed(r.state) &&
            r.state.entries[k] == None &&
            (forall j :: 0 <= j < k ==> r.state.entries[j] == dlsym(LoadOrder[j])) &&
            (forall j :: k < j < SymbolCount ==> r.state.entries[j] == s.entries[j]) &&
            |r.events| == k + 3 && r.events[0] == Dlopen &&
            (forall j :: 0 <= j <= k ==> r.events[j + 1] == Dlsym(LoadOrder[j])) &&
            r.events[k + 2] == Dlclose(lib)
  {
    ResolveFailsAt(lib, s.entries, LoadOrder, dlsym, k);
  }

  /** With a handle already held, load_amdsmi_library returns 1 at once:
      no loader call, and the state is left as it was. */
  lemma LoadWhenHeld(s: LoaderState, dlopen: Option<Addr>, dlsym: Symbol -> Option<Addr>)
    requires WellFormed(s) && s.handle.Some?
    ensures Load(s, dlopen, dlsym) == LoadOutcome(s, 1, [])
  {
  }

  /** Without a handle, a dlopen that answers NULL makes load_amdsmi_library
      return 0 after that one loader call, with the table untouched. */
  lemma LoadWhenOpenFails(s: LoaderState, dlsym: Symbol -> Option<Addr>)
    requires WellFormed(s) && s.handle.None?
    ensures Load(s, None, dlsym) == LoadOutcome(s, 0, [Dlopen])
  {
  }

  /** load_amdsmi_library returns 1 exactly when it leaves a handle held,
      and a library it opens but does not keep, it closes as its last call. */
  lemma LoadResultMatchesHandle(s: LoaderState, dlopen: Option<Addr>, dlsym: Symbol -> Option<Addr>)
    requires WellFormed(s)
    ensures var r := Load(s, dlopen, dlsym);
            (r.ret == 1 <==> r.state.handle.Some?) &&
            (r.ret == 0 <==> r.state.handle.None?) &&
            (s.handle.None? && dlopen.Some? && r.ret == 0 ==>
               r.events[|r.events| - 1] == Dlclose(dlopen.value))
  {
    if s.handle.None? && dlopen.Some? {
      ResolveAll(dlopen.value, s.entries, LoadOrder, dlsym);
    }
  }

  /** Load keeps the invariant that a held handle means a full table. */
  lemma LoadKeepsConsistent(s: LoaderState, dlopen: Option<Addr>, dlsym: Symbol -> Option<Addr>)
    requires Consistent(s)
    ensures Consistent(Load(s, dlopen, dlsym).state)
  {
    if s.handle.None? && dlopen.Some? {
      ResolveAll(dlopen.value, s.entries, LoadOrder, dlsym);
    }
  }

  /** Loading twice without an unload in between: the second load returns
      1, opens nothing and keeps the handle the first one obtained. */
  lemma LoadTwice(s: LoaderState, dlopen: Option<Addr>, dlsym: Symbol -> Option<Addr>,
                  dlopen2: Option<Addr>, dlsym2: Symbol -> Option<Addr>)
    requires WellFormed(s)
    requires Load(s, dlopen, dlsym).ret == 1
    ensures var first := Load(s, dlopen, dlsym).state;
            WellFormed(first) && Load(first, dlopen2, dlsym2) == LoadOutcome(first, 1, [])
  {
    LoadResultMatchesHandle(s, dlopen, dlsym);
    if s.handle.None? && dlopen.Some? {
      ResolveAll(dlopen.value, s.entries, LoadOrder, dlsym);
    }
  }

  /** A successful load from process start followed by an unload closes the
      library it opened and returns to the process-start state. */
  lemma LoadThenUnload(lib: Addr, dlsym: Symbol -> Option<Addr>)
    requires forall sym :: dlsym(sym).Some?
    ensures var loaded := Load(Unloaded, Some(lib), dlsym).state;
            Unload(loaded) == UnloadOutcome(Unloaded, [Dlclose(lib)])
  {
    LoadAllResolved(Unloaded, lib, dlsym);
  }

  /** Unloading with a handle held closes that handle and leaves the
      process-start state: no handle and every entry NULL. */
  lemma UnloadWhenHeld(s: LoaderState)
    requires WellFormed(s) && s.handle.Some?
    ensures var r := Unload(s);
            r.state.handle == None && WellFormed(r.state) && AllNull(r.state) &&
            r.events == [Dlclose(s.handle.value)]
  {
  }

  /** Unloading with no handle changes nothing and calls nothing. */
  lemma UnloadWhenNotHeld(s: LoaderState)
    requires s.handle.None?
    ensures Unload(s) == UnloadOutcome(s, [])
  {
  }

  /** A second unload is a no-op. */
  lemma UnloadIdempotent(s: LoaderState)
    ensures var once := Unload(s).state;
            Unload(once) == UnloadOutcome(once, [])
  {
  }

  /** Unload keeps the invariant. */
  lemma UnloadKeepsConsistent(s: LoaderState)
    requires Consistent(s)
    ensures Consistent(Unload(s).state)
  {
  }

  /** The partial rollback: after a load that opened the library and then
      failed at symbol k > 0, the handle is NULL but the entries before k
      still hold addresses inside the closed library, and unload, seeing no
      handle, leaves them there. */
  lemma StaleEntriesAfterFailedLoad(s: LoaderState, lib: Addr, dlsym: Symbol -> Option<Addr>, k: nat)
    requires WellFormed(s) && s.handle.None?
    requires 0 < k < SymbolCount && dlsym(LoadOrder[k]).None?
    requires forall j :: 0 <= j < k ==> dlsym(LoadOrder[j]).Some?
    ensures var failed := Load(s, Some(lib), dlsym).state;
            var after := Unload(failed);
            failed.handle == None && after == UnloadOutcome(failed, []) &&
            WellFormed(after.state) &&
            (forall j :: 0 <= j < k ==> after.state.entries[j].Some?) &&
            !AllNull(after.state)
  {
    LoadFailsAtFirstMissing(s, lib, dlsym, k);
    var failed := Load(s, Some(lib), dlsym).state;
    assert failed.entries[0] == dlsym(LoadOrder[0]);
  }
}
