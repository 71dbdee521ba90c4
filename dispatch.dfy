/** The call_* wrappers that DEFINE_AMDSMI_WRAPPER generates: each checks
    its own table entry, never the library handle, and either invokes the
    native function through it or answers AMDSMI_STATUS_INVAL. */
module Dispatch {
  import opened SmiTypes
  import opened Symbols
  import opened LoaderSpec

  /** One guarded call. `native` stands for the vendor function: given the
      address the entry holds and the call's arguments, it answers a status
      and what it writes through the output pointers. On a NULL entry
      nothing is invoked: the status is INVAL and the outputs keep the
      values they had before the call (`unwritten`). */
  function Call<A, T>(entry: Option<Addr>, native: (Addr, A) -> Reply<T>, arg: A, unwritten: T): (r: Reply<T>)
    ensures r.status != StatusInval ==> entry.Some?
    ensures entry.None? ==> r.status == StatusInval && r.out == unwritten
  {
    match entry
    case Some(f) => native(f, arg)
    case None => Reply(StatusInval, unwritten)
  }

  /** The wrapper for `sym` run against the loader state `s`. */
  function Wrapper<A, T>(s: LoaderState, sym: Symbol, native: (Addr, A) -> Reply<T>, arg: A, unwritten: T): (r: Reply<T>)
    requires WellFormed(s)
    ensures r.status != StatusInval ==> s.entries[Slot(sym)].Some?
    ensures s.entries[Slot(sym)].None? ==> r == Reply(StatusInval, unwritten)
    ensures s.entries[Slot(sym)].Some? ==> r == native(s.entries[Slot(sym)].value, arg)
  {
    Call(s.entries[Slot(sym)], native, arg, unwritten)
  }

  /** A resolved entry forwards the native answer unchanged; a NULL one
      answers INVAL, leaves the outputs alone, and its answer does not depend
      on the native function at all, i.e. nothing is invoked. */
  lemma CallGuard<A, T>(entry: Option<Addr>, native: (Addr, A) -> Reply<T>, other: (Addr, A) -> Reply<T>, arg: A, unwritten: T)
    ensures entry.Some? ==> Call(entry, native, arg, unwritten) == native(entry.value, arg)
    ensures entry.None? ==> Call(entry, native, arg, unwritten) == Reply(StatusInval, unwritten)
    ensures entry.None? ==> Call(entry, native, arg, unwritten) == Call(entry, other, arg, unwritten)
  {
  }

  /** The wrappers consult only the entry: with the handle held and the
      table consistent, every wrapper reaches its native function. */
  lemma WrapperWhenLoaded<A, T>(s: LoaderState, sym: Symbol, native: (Addr, A) -> Reply<T>, arg: A, unwritten: T)
    requires Consistent(s) && s.handle.Some?
    ensures s.entries[Slot(sym)].Some?
    ensures Wrapper(s, sym, native, arg, unwritten) == native(s.entries[Slot(sym)].value, arg)
  {
  }

  /** After a successful load from the unloaded handle, each wrapper invokes
      exactly the address dlsym gave for its own symbol. */
  lemma WrapperAfterLoad<A, T>(s: LoaderState, lib: Addr, dlsym: Symbol -> Option<Addr>,
                               sym: Symbol, native: (Addr, A) -> Reply<T>, arg: A, unwritten: T)
    requires WellFormed(s) && s.handle.None?
    requires forall x :: dlsym(x).Some?
    ensures var t := Load(s, Some(lib), dlsym).state;
            WellFormed(t) && Wrapper(t, sym, native, arg, unwritten) == native(dlsym(sym).value, arg)
  {
    LoadAllResolved(s, lib, dlsym);
  }

  /** After an unload that released a handle, every wrapper answers INVAL
      without invoking anything. */
  lemma WrapperAfterUnload<A, T>(s: LoaderState, sym: Symbol, native: (Addr, A) -> Reply<T>, arg: A, unwritten: T)
    requires WellFormed(s) && s.handle.Some?
    ensures var t := Unload(s).state;
            WellFormed(t) && Wrapper(t, sym, native, arg, unwritten) == Reply(StatusInval, unwritten)
  {
    UnloadWhenHeld(s);
  }

  /** The consequence of the partial rollback: after a load that failed at
      the k-th symbol of LoadOrder, with the library already closed and the
      handle NULL, a wrapper whose symbol came before k still calls into the
      closed library, and so it does even after an unload. A wrapper for
      symbol k answers INVAL. */
  lemma StaleWrapperAfterFailedLoad<A, T>(s: LoaderState, lib: Addr, dlsym: Symbol -> Option<Addr>, k: nat,
                                          sym: Symbol, native: (Addr, A) -> Reply<T>, arg: A, unwritten: T)
    requires WellFormed(s) && s.handle.None?
    requires k < SymbolCount && dlsym(LoadOrder[k]).None?
    requires forall j :: 0 <= j < k ==> dlsym(LoadOrder[j]).Some?
    ensures var t := Unload(Load(s, Some(lib), dlsym).state).state;
            WellFormed(t) && t.handle.None? &&
            (Slot(sym) < k ==> Wrapper(t, sym, native, arg, unwritten) == native(dlsym(sym).value, arg)) &&
            (Slot(sym) == k ==> Wrapper(t, sym, native, arg, unwritten) == Reply(StatusInval, unwritten))
  {
    LoadFailsAtFirstMissing(s, lib, dlsym, k);
  }
}
