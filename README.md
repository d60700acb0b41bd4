# SymProcSleuth symbol cache, modelled in Dafny

SymProcSleuth replaces `GetProcAddress`. It looks up a function's address by
name through the debug-symbol service (DbgHelp). It does not read the image's
export table. Its core is a per-module symbol cache:

- **Table building.** `EnumSymbolsCallback` is called once for each symbol
  record of a module. It keeps a record only when bit `0x200` of the record's
  flag word is set. It appends the kept record's name and address to the growing
  `FuncEntry` list of the `ModuleEntry` being built, and it always asks for
  enumeration to continue.
- **Resolution.** `SymProcAddress(hModule, name)` scans the global list of
  `ModuleEntry` values for `hModule`.
  - A cached table gets a linear, ASCII case-insensitive search (`_stricmp`).
    A miss returns NULL and sets error 127 (ERROR_PROC_NOT_FOUND). It never
    re-enumerates.
  - An uncached module is enumerated. On failure the call returns NULL and
    registers nothing.
  - On success the new entry is appended to the cache first, then searched.
- **Teardown.** `FreeSymbols` releases every table and leaves the cache empty.

## Layout

- `wrappers.dfy`: `Option`.
- `ascii.dfy` (module `Ascii`): `_stricmp` in the C locale, on C strings.
  Comparison stops at the first NUL, and only 'A'..'Z' are lowered. Its
  zero result is proved equivalent to "equal once CString is applied and case
  is folded" (`SameIgnoringCase`).
- `symbols.dfy` (module `Symbols`): the records, `FuncEntry`, `ModuleEntry`, the
  filter `FunctionEntries` that states what building yields, the first-match
  search `FindFunc`/`Lookup`, the search loop `SearchFuncs`, and the class
  `ModuleBuilder`. `ModuleBuilder` is the local `ModuleEntry newModule` that
  the callback changes in place through its user-context pointer.
- `dbghelp.dfy` (module `DbgHelp`): the symbol service as an oracle.
  - Class `SymbolHandler` holds a fixed function `answer`. `answer(h, n)` is
    what the service's `n`-th enumeration yields when it enumerates `h`.
  - Each answer is a run of visited records and a success flag, so a failure
    can come after some records were visited.
  - The handler logs every enumeration. That log is the call counter the
    "enumerate at most once" property is stated over.
  - Its `SymEnumSymbols` passes each visited record to the callback and stops
    if the callback returns FALSE.
- `symprocsleuth.dfy` (module `SymProcSleuth`):
  - Pure functions: `Resolve` (one call on a cache), `Step` (one call, plus
    the service log) and `Run` (a series of calls).
  - The lemmas about them.
  - The class `SymbolCache`. It holds the global `modules` list
    (`numModules` is `|modules|`) and the thread's last-error value.
    `SymProcAddress` is proved equal to `Step`. `FreeSymbols` empties the cache.

The value `0x200` is what SymProcSleuth.c tests and comments as "is a
function". DbgHelp's header gives this bit the name SYMFLAG_EXPORT; its function
bit is SYMFLAG_FUNCTION, `0x800`. The model keeps the code's constant
(`Symbols.FunctionFlag`). The name of the bit does not change any property
proved here.

Three details of the code that the model keeps as written:
- Names and addresses are stored as the service reports them. NULL addresses
  and empty names are not checked. A symbol found at address 0 makes the call
  return NULL without setting the error.
- A failed enumeration sets no error code of its own.
- The code calls `SymInitialize` again before every enumeration and ignores
  its result. It calls `SymCleanup` on the failure path (src/SymProcSleuth.c:79,
  :85). Neither call is modelled by itself: their effects show only through
  the oracle's answer `answer(h, n)`, which may differ from one attempt number
  to the next.

## Model

| member | source | states |
|---|---|---|
| `Ascii.Stricmp` | src/SymProcSleuth.c:56 | definition with no contract of its own: `_stricmp`, comparing lowered characters up to the first NUL; `StricmpZeroIff` and `StricmpRespectsCase` state its properties |
| `Ascii.StricmpZeroIff` | src/SymProcSleuth.c:56 | `_stricmp(a, b) == 0` exactly when `a` and `b`, read as C strings up to their first NUL, are equal once 'A'..'Z' are lowered (both directions) |
| `Ascii.StricmpRespectsCase` | src/SymProcSleuth.c:97 | two query names that agree up to case are matched by exactly the same stored names |
| `Symbols.FunctionEntries` | src/SymProcSleuth.c:37-45 | definition with no contract of its own: the table that one whole enumeration through the callback leaves, one `Kept` step per visited record; `FunctionEntriesAppend`, `FunctionEntriesPrefix`, `FunctionEntriesMembership` and `LookupFunctionEntries` state its properties |
| `Symbols.FunctionEntriesAppend` | src/SymProcSleuth.c:39-44 | building over records `a` then `b` yields the entries of `a` followed by the entries of `b`: entries only ever go on the end |
| `Symbols.FunctionEntriesPrefix` | src/SymProcSleuth.c:39-44 | the entries built from the first `k` records are a prefix of the final table: later appends never change earlier entries |
| `Symbols.FunctionEntriesMembership` | src/SymProcSleuth.c:37-45 | an entry is in the built table if and only if some function-flagged record carries that name and address |
| `Symbols.FindFunc` | src/SymProcSleuth.c:55-59 | the result is the index of the first entry in stored order whose name `_stricmp`-matches the query, or none when no entry matches |
| `Symbols.Lookup` | src/SymProcSleuth.c:55-59 | misses exactly when no entry matches; otherwise answers the address of a matching entry with no matching entry before it |
| `Symbols.LookupFunctionEntries` | src/SymProcSleuth.c:96-99 | searching the built table equals scanning the raw records in visit order for the first function-flagged record whose name matches |
| `Symbols.LookupSkipsNonFunctions` | src/SymProcSleuth.c:37 | the search of a built table misses if and only if no function-flagged record matches; records without the bit never answer, even on an exact name match |
| `Symbols.LookupIgnoresCase` | src/SymProcSleuth.c:56 | queries equal up to case ("Foo", "foo", "FOO") get the same answer from every table |
| `Symbols.SearchFuncs` | src/SymProcSleuth.c:55-60 | the index loop with `_stricmp` returns exactly `Lookup` of the table |
| `Symbols.ModuleBuilder.constructor` | src/SymProcSleuth.c:68-71 | the new module entry has the queried handle and no functions |
| `Symbols.ModuleBuilder.EnumSymbolsCallback` | src/SymProcSleuth.c:34-47 | returns TRUE always; with bit 0x200 set, appends exactly the record's name and address to the end; otherwise leaves the entry unchanged |
| `DbgHelp.SymbolHandler.SymEnumSymbols` | src/SymProcSleuth.c:78-81 | logs one enumeration of `h`; reports the oracle's success flag; the context's entries become the old ones followed by `FunctionEntries` of all visited records, because the callback never stops the enumeration early |
| `SymProcSleuth.FindModule` | src/SymProcSleuth.c:51-53 | the index of the first cache entry whose handle equals the query, or none when no entry has it |
| `SymProcSleuth.Resolve` | src/SymProcSleuth.c:50-105 | definition with no contract of its own: one `SymProcAddress` call on the cache (cached: search only; uncached and failed: cache unchanged; uncached and succeeded: append, then search); the lemmas `ResolveKeepsHandlesUnique` to `ResolveIgnoresCase` state its properties |
| `SymProcSleuth.Step` | src/SymProcSleuth.c:50-105 | definition with no contract of its own: `Resolve` together with the service log, which gains one attempt exactly when the handle was not cached; `CachedHandleIsNotEnumerated`, `StepCountsSuccess` and `RunEnumeratesAtMostOnce` state its properties, and `SymbolCache.SymProcAddress` is proved equal to it |
| `SymProcSleuth.ResolveKeepsHandlesUnique` | src/SymProcSleuth.c:91-93 | a call never adds a second entry for a handle: at most one entry per distinct handle is preserved |
| `SymProcSleuth.ResolveOnlyAppends` | src/SymProcSleuth.c:91-93 | the old cache is a prefix of the new one; the cache is unchanged or gains exactly one entry for the uncached queried handle; every cached handle keeps its index |
| `SymProcSleuth.CachedLookupIsFinal` | src/SymProcSleuth.c:53-64 | with a table for the handle, the cache is unchanged; the outcome is NotFound exactly when no stored name matches; a found address is that of the first match in stored order |
| `SymProcSleuth.RepeatedQueryIsStable` | src/SymProcSleuth.c:91-104 | after any call that did not fail to enumerate, the handle is cached; repeating the query leaves the cache unchanged and gives the same outcome, whatever the service would answer, so a miss is final |
| `SymProcSleuth.FailedEnumerationLeavesNoTrace` | src/SymProcSleuth.c:78-81 | EnumerationFailed happens exactly when the handle was uncached and enumeration failed; the cache is then unchanged and the handle is still uncached, so the next call enumerates again |
| `SymProcSleuth.FreshTableAnswersFromFunctionRecords` | src/SymProcSleuth.c:96-104 | for an uncached handle with a successful enumeration, the new entry is appended before the search; the outcome is that of the first matching function-flagged record; NotFound exactly when none matches |
| `SymProcSleuth.ResolveIgnoresCase` | src/SymProcSleuth.c:50-105 | queries equal up to case leave the same cache and get the same outcome |
| `SymProcSleuth.StepCountsSuccess` | src/SymProcSleuth.c:67-93 | one call enumerates a handle successfully exactly when it newly caches it, and a cached handle stays cached |
| `SymProcSleuth.RunEnumeratesAtMostOnce` | src/SymProcSleuth.c:50-105 | over any series of calls each handle is enumerated successfully at most once, and never when it was already cached |
| `SymProcSleuth.CachedHandleIsNotEnumerated` | src/SymProcSleuth.c:51-64 | a call for a cached handle leaves both the cache and the service log unchanged: no enumeration happens |
| `SymProcSleuth.RunNeverReenumeratesCached` | src/SymProcSleuth.c:50-105 | once a handle is cached, no later call in a series, for any handle, logs an enumeration of it; the log only grows |
| `SymProcSleuth.CallAfterTeardownEnumerates` | src/SymProcSleuth.c:118-120 | on the empty cache that teardown leaves, the next call for any handle performs an enumeration |
| `SymProcSleuth.AlphaBetaGammaScenario` | src/SymProcSleuth.c:37-45 | four calls from an empty cache, with "Alpha" and "beta" as functions and "gamma" not: "alpha" gives 0x1000 and "BETA" gives 0x2000; "gamma" and "delta" give NotFound; the cache holds one entry with the two functions; the log shows exactly one enumeration, whatever later enumerations would answer |
| `SymProcSleuth.FailingModuleScenario` | src/SymProcSleuth.c:84-87 | a failed first enumeration gives EnumerationFailed and an empty cache, and the next call for the handle enumerates again |
| `SymProcSleuth.SymbolCache.constructor` | src/SymProcSleuth.c:30-31 | the cache starts empty |
| `SymProcSleuth.SymbolCache.SymProcAddress` | src/SymProcSleuth.c:50-105 | the new cache and service log are those of `Step`, the return value is the found address or NULL, the last error becomes 127 exactly on NotFound, and the cache invariant is kept |
| `SymProcSleuth.SymbolCache.FreeSymbols` | src/SymProcSleuth.c:108-121 | the cache is empty afterwards, the invariant holds, and the last error is untouched; on an empty cache it changes nothing |

## Left out

- These DbgHelp and Windows calls are foreign: `SymInitialize`, `SymEnumSymbols`, `SymCleanup` and `GetCurrentProcess`. An oracle (`DbgHelp.SymbolHandler`) stands in for them. The thread error values they set themselves are not modelled; in the model they leave `lastError` alone.
- The `#ifdef _WIN64` handle casts: both branches do the same thing, and a handle is an opaque natural number here.
- Memory management is not modelled: `realloc` growth, `_strdup`, `free`, and the unchecked `realloc` failure. Growth is sequence append. `FreeSymbols`' nested loops only free memory, so its model simply empties the list.
- `main`: it is demo I/O (`LoadLibraryA`, then a call to `MessageBoxW` through the resolved pointer).
- Concurrency: the source has none, and its global cache is not synchronised.
- A NULL or ordinal `lpProcName` is outside the model. The source does not handle it: the value goes unchecked to `_stricmp` (src/SymProcSleuth.c:56, :97), which faults on it whenever the searched table is not empty. Query names here are always strings.
- Addresses and names are stored as the service reports them, with no width limit: an address is an unbounded natural number with 0 as NULL.
- `Ascii.Stricmp` is fixed only where callers look, at zero versus non-zero. Its non-zero values are a difference of lowered character codes, and no property of their sign is stated.
