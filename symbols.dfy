/**
 * One module's symbol table: the records the symbol service reports, the
 * `FuncEntry` list built from them, and the case-insensitive search over it.
 */
module Symbols {
  import opened Wrappers
  import opened Ascii

  /** An `HMODULE`: used only as an opaque key. */
  type Handle = nat

  /** A `FARPROC` value; 0 is NULL. */
  type Address = nat

  const Null: Address := 0

  /**
   * The bit of a symbol record's flag word that the builder tests to keep a
   * record as a function (the value 0x200; DbgHelp's header calls this bit
   * SYMFLAG_EXPORT).
   */
  const FunctionFlag: bv32 := 0x200

  /** The fields of a `SYMBOL_INFO` record that the builder reads. */
  datatype SymbolRecord = SymbolRecord(name: string, address: Address, flags: bv32)

  /** `FuncEntry`: a kept symbol's name and address. */
  datatype FuncEntry = FuncEntry(name: string, address: Address)

  /** `ModuleEntry`: a module handle and its table; the C field `module` is `handle`, `numFuncs` is `|funcs|`. */
  datatype ModuleEntry = ModuleEntry(handle: Handle, funcs: seq<FuncEntry>)

  predicate IsFunction(r: SymbolRecord) {
    (r.flags & FunctionFlag) != 0
  }

  function EntryOf(r: SymbolRecord): FuncEntry {
    FuncEntry(r.name, r.address)
  }

  /** What one record contributes to the table. */
  function Kept(r: SymbolRecord): seq<FuncEntry> {
    if IsFunction(r) then [EntryOf(r)] else []
  }

  /** The table that building from the records `rs`, visited in order, leaves behind. */
  function FunctionEntries(rs: seq<SymbolRecord>): seq<FuncEntry>
    decreases |rs|
  {
    if rs == [] then [] else FunctionEntries(rs[..|rs| - 1]) + Kept(rs[|rs| - 1])
  }

  /** Building over two runs of records is building over each, one after the other. */
  lemma {:induction false} FunctionEntriesAppend(a: seq<SymbolRecord>, b: seq<SymbolRecord>)
    ensures FunctionEntries(a + b) == FunctionEntries(a) + FunctionEntries(b)
    decreases |b|
  {
    if b == [] {
      assert a + b == a;
    } else {
      var b' := b[..|b| - 1];
      assert (a + b)[..|a + b| - 1] == a + b';
      assert (a + b)[|a + b| - 1] == b[|b| - 1];
      FunctionEntriesAppend(a, b');
    }
  }

  /** The entries built from the first `k` records are never changed by later records. */
  lemma FunctionEntriesPrefix(rs: seq<SymbolRecord>, k: nat)
    requires k <= |rs|
    ensures FunctionEntries(rs[..k]) <= FunctionEntries(rs)
  {
    assert rs == rs[..k] + rs[k..];
    FunctionEntriesAppend(rs[..k], rs[k..]);
  }

  /** An entry is in the table exactly when some function-flagged record carries its name and address. */
  lemma {:induction false} FunctionEntriesMembership(rs: seq<SymbolRecord>, e: FuncEntry)
    ensures e in FunctionEntries(rs) <==> exists i :: 0 <= i < |rs| && IsFunction(rs[i]) && EntryOf(rs[i]) == e
    decreases |rs|
  {
    if rs != [] {
      var init := rs[..|rs| - 1];
      FunctionEntriesMembership(init, e);
      assert forall i :: 0 <= i < |init| ==> init[i] == rs[i];
      if e in FunctionEntries(rs) && e !in FunctionEntries(init) {
        assert IsFunction(rs[|rs| - 1]) && EntryOf(rs[|rs| - 1]) == e;
      }
    }
  }

  /** The building step in the order the front of the records is visited. */
  lemma FunctionEntriesCons(r: SymbolRecord, rs: seq<SymbolRecord>)
    ensures FunctionEntries([r] + rs) == Kept(r) + FunctionEntries(rs)
  {
    FunctionEntriesAppend([r], rs);
    assert [r][..0] == [];
  }

  /** The query test of the source: `_stricmp(entry name, query) == 0`. */
  predicate NameMatches(e: FuncEntry, query: string) {
    Stricmp(e.name, query) == 0
  }

  /** The index of the first entry, in stored order, whose name matches `query`. */
  function FindFunc(funcs: seq<FuncEntry>, query: string): (r: Option<nat>)
    ensures r.Some? ==> r.value < |funcs| && NameMatches(funcs[r.value], query)
    ensures r.Some? ==> forall k :: 0 <= k < r.value ==> !NameMatches(funcs[k], query)
    ensures r.None? ==> forall k :: 0 <= k < |funcs| ==> !NameMatches(funcs[k], query)
    decreases |funcs|
  {
    if funcs == [] then None
    else if NameMatches(funcs[0], query) then Some(0)
    else match FindFunc(funcs[1..], query)
         case None => None
         case Some(j) => Some(j + 1)
  }

  /** Searching one module's table: the address of the first entry whose name matches. */
  function Lookup(funcs: seq<FuncEntry>, query: string): (r: Option<Address>)
    ensures r.None? <==> forall k :: 0 <= k < |funcs| ==> !NameMatches(funcs[k], query)
    ensures r.Some? ==> exists j :: 0 <= j < |funcs| && NameMatches(funcs[j], query) && r.value == funcs[j].address
                                    && forall k :: 0 <= k < j ==> !NameMatches(funcs[k], query)
  {
    match FindFunc(funcs, query)
    case None => None
    case Some(j) => Some(funcs[j].address)
  }

  /** A search over two runs of entries finds in the first if it can, and only then looks at the second. */
  lemma LookupAppend(a: seq<FuncEntry>, b: seq<FuncEntry>, query: string)
    ensures Lookup(a + b, query) == if Lookup(a, query).Some? then Lookup(a, query) else Lookup(b, query)
  {
    var ab := a + b;
    assert forall k :: 0 <= k < |a| ==> ab[k] == a[k];
    match FindFunc(a, query)
    case Some(j) =>
      FindFuncIsFirst(ab, query, j);
    case None =>
      match FindFunc(b, query)
      case Some(j) =>
        assert forall k :: 0 <= k < |b| ==> ab[|a| + k] == b[k];
        FindFuncIsFirst(ab, query, |a| + j);
      case None =>
        assert forall k :: |a| <= k < |ab| ==> ab[k] == b[k - |a|];
  }

  /** A match with no match before it is the one `FindFunc` finds. */
  lemma FindFuncIsFirst(funcs: seq<FuncEntry>, query: string, j: nat)
    requires j < |funcs| && NameMatches(funcs[j], query)
    requires forall k :: 0 <= k < j ==> !NameMatches(funcs[k], query)
    ensures FindFunc(funcs, query) == Some(j)
  {
  }

  /**
   * The search the table stands for: scan the raw records in visit order and
   * answer with the first one that is function-flagged and whose name matches.
   */
  function SearchRecords(rs: seq<SymbolRecord>, query: string): Option<Address>
    decreases |rs|
  {
    if rs == [] then None
    else if IsFunction(rs[0]) && NameMatches(EntryOf(rs[0]), query) then Some(rs[0].address)
    else SearchRecords(rs[1..], query)
  }

  /** Searching the built table is the same as searching the records while skipping non-functions. */
  lemma {:induction false} LookupFunctionEntries(rs: seq<SymbolRecord>, query: string)
    ensures Lookup(FunctionEntries(rs), query) == SearchRecords(rs, query)
    decreases |rs|
  {
    if rs != [] {
      assert rs == [rs[0]] + rs[1..];
      FunctionEntriesCons(rs[0], rs[1..]);
      LookupAppend(Kept(rs[0]), FunctionEntries(rs[1..]), query);
      LookupFunctionEntries(rs[1..], query);
      if IsFunction(rs[0]) {
        assert FindFunc(Kept(rs[0]), query) == if NameMatches(EntryOf(rs[0]), query) then Some(0) else None;
      }
    }
  }

  /**
   * A record without the function bit is never found: the search misses
   * exactly when no function-flagged record matches, whatever the others are called.
   */
  lemma LookupSkipsNonFunctions(rs: seq<SymbolRecord>, query: string)
    ensures Lookup(FunctionEntries(rs), query).None? <==>
            forall i :: 0 <= i < |rs| && IsFunction(rs[i]) ==> !NameMatches(EntryOf(rs[i]), query)
  {
    var fs := FunctionEntries(rs);
    forall k | 0 <= k < |fs|
      ensures exists i :: 0 <= i < |rs| && IsFunction(rs[i]) && EntryOf(rs[i]) == fs[k]
    {
      FunctionEntriesMembership(rs, fs[k]);
    }
    forall i | 0 <= i < |rs| && IsFunction(rs[i])
      ensures EntryOf(rs[i]) in fs
    {
      FunctionEntriesMembership(rs, EntryOf(rs[i]));
    }
  }

  /** "Foo", "foo" and "FOO" are answered alike by every table. */
  lemma LookupIgnoresCase(funcs: seq<FuncEntry>, q1: string, q2: string)
    requires SameIgnoringCase(q1, q2)
    ensures Lookup(funcs, q1) == Lookup(funcs, q2)
  {
    forall k | 0 <= k < |funcs|
      ensures NameMatches(funcs[k], q1) <==> NameMatches(funcs[k], q2)
    {
      StricmpRespectsCase(funcs[k].name, q1, q2);
    }
    var r1, r2 := FindFunc(funcs, q1), FindFunc(funcs, q2);
    if r1.Some? && r2.Some? {
      assert !(r1.value < r2.value) && !(r2.value < r1.value);
    }
  }

  /** The search loop of `SymProcAddress` over one module's table. */
  method SearchFuncs(funcs: seq<FuncEntry>, query: string) returns (r: Option<Address>)
    ensures r == Lookup(funcs, query)
  {
    for j := 0 to |funcs|
      invariant forall k :: 0 <= k < j ==> !NameMatches(funcs[k], query)
    {
      if Stricmp(funcs[j].name, query) == 0 {
        FindFuncIsFirst(funcs, query, j);
        return Some(funcs[j].address);
      }
    }
    return None;
  }

  /**
   * The `ModuleEntry newModule` that `SymProcAddress` fills in: the symbol
   * service hands its address to `EnumSymbolsCallback`, which grows it in place.
   */
  class ModuleBuilder {
    var entry: ModuleEntry

    constructor (h: Handle)
      ensures entry == ModuleEntry(h, [])
    {
      entry := ModuleEntry(h, []);
    }

    /**
     * Visited once per symbol record: keeps the record exactly when its flag
     * word has the function bit, and always asks for the enumeration to go on.
     */
    method EnumSymbolsCallback(sym: SymbolRecord) returns (keepGoing: bool)
      modifies this
      ensures keepGoing
      ensures entry.handle == old(entry.handle)
      ensures IsFunction(sym) ==> entry.funcs == old(entry.funcs) + [FuncEntry(sym.name, sym.address)]
      ensures !IsFunction(sym) ==> entry == old(entry)
    {
      if (sym.flags & FunctionFlag) != 0 {
        entry := entry.(funcs := entry.funcs + [EntryOf(sym)]);
      }
      return true;
    }
  }
}
