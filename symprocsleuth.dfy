/**
 * The per-module symbol cache that stands in for `GetProcAddress`: a list of
 * `ModuleEntry` values that only grows, built lazily by one enumeration per
 * module, searched case-insensitively, and emptied by `FreeSymbols`.
 */
module SymProcSleuth {
  import opened Wrappers
  import opened Ascii
  import opened Symbols
  import opened DbgHelp

  /** ERROR_PROC_NOT_FOUND, the value `SymProcAddress` sets on a miss. */
  const ErrorProcNotFound: nat := 127

  /** The index of the first cache entry for handle `h`. */
  function FindModule(modules: seq<ModuleEntry>, h: Handle): (r: Option<nat>)
    ensures r.Some? ==> r.value < |modules| && modules[r.value].handle == h
    ensures r.Some? ==> forall k :: 0 <= k < r.value ==> modules[k].handle != h
    ensures r.None? ==> forall k :: 0 <= k < |modules| ==> modules[k].handle != h
    decreases |modules|
  {
    if modules == [] then None
    else if modules[0].handle == h then Some(0)
    else match FindModule(modules[1..], h)
         case None => None
         case Some(i) => Some(i + 1)
  }

  predicate Cached(modules: seq<ModuleEntry>, h: Handle) {
    FindModule(modules, h).Some?
  }

  /** The cache invariant: at most one entry per distinct handle. */
  predicate UniqueHandles(modules: seq<ModuleEntry>) {
    forall i, j :: 0 <= i < j < |modules| ==> modules[i].handle != modules[j].handle
  }

  /** A cached handle keeps its entry when another entry is appended. */
  lemma FindModuleAppend(modules: seq<ModuleEntry>, m: ModuleEntry, h: Handle)
    ensures FindModule(modules + [m], h) ==
            if Cached(modules, h) then FindModule(modules, h)
            else if m.handle == h then Some(|modules|) else None
  {
    var ms := modules + [m];
    assert forall k :: 0 <= k < |modules| ==> ms[k] == modules[k];
    assert ms[|modules|] == m;
  }

  /** What one call of `SymProcAddress` reports. */
  datatype Outcome = Found(address: Address) | NotFound | EnumerationFailed

  /** The cache after one call, and what it reports. */
  datatype Resolution = Resolution(modules: seq<ModuleEntry>, outcome: Outcome)

  function Search(funcs: seq<FuncEntry>, query: string): Outcome {
    match Lookup(funcs, query)
    case Some(a) => Found(a)
    case None => NotFound
  }

  /**
   * One call of `SymProcAddress(h, query)` on the cache `modules`, where `e` is
   * what enumerating `h` would yield: a cached table is searched and nothing
   * else happens; otherwise the module is enumerated, a failure leaves the cache
   * as it was, and a success appends the new entry before searching it.
   */
  function Resolve(modules: seq<ModuleEntry>, h: Handle, query: string, e: Enumeration): Resolution {
    match FindModule(modules, h)
    case Some(i) => Resolution(modules, Search(modules[i].funcs, query))
    case None =>
      if !e.succeeded then Resolution(modules, EnumerationFailed)
      else
        var entry := ModuleEntry(h, FunctionEntries(e.visited));
        Resolution(modules + [entry], Search(entry.funcs, query))
  }

  /** The cache together with the log of the symbol service it enumerates through. */
  datatype Engine = Engine(modules: seq<ModuleEntry>, log: seq<Attempt>)

  /** One `SymProcAddress` call against a service answering `answer`: the new engine and the outcome. */
  function Step(s: Engine, answer: (Handle, nat) -> Enumeration, h: Handle, query: string): (Engine, Outcome) {
    var e := answer(h, |s.log|);
    var r := Resolve(s.modules, h, query, e);
    var log := if Cached(s.modules, h) then s.log else s.log + [Attempt(h, e.succeeded)];
    (Engine(r.modules, log), r.outcome)
  }

  /** The value `SymProcAddress` returns for an outcome. */
  function AddressOf(o: Outcome): Address {
    if o.Found? then o.address else Null
  }

  // ---------------------------------------------------------------------------
  // Properties of one call

  /** No call ever puts a second entry for a handle into the cache. */
  lemma ResolveKeepsHandlesUnique(modules: seq<ModuleEntry>, h: Handle, query: string, e: Enumeration)
    requires UniqueHandles(modules)
    ensures UniqueHandles(Resolve(modules, h, query, e).modules)
  {
  }

  /**
   * The cache only grows: existing entries keep their place and content, and at
   * most one entry, for the queried handle and only when it was not cached, is added.
   */
  lemma ResolveOnlyAppends(modules: seq<ModuleEntry>, h: Handle, query: string, e: Enumeration)
    ensures var r := Resolve(modules, h, query, e);
            && modules <= r.modules
            && (r.modules == modules || (!Cached(modules, h) && r.modules == modules + [ModuleEntry(h, FunctionEntries(e.visited))]))
            && (forall h' :: Cached(modules, h') ==> FindModule(r.modules, h') == FindModule(modules, h'))
  {
  }

  /**
   * A table that exists is final: the cache is left alone, the search is the
   * first case-insensitive match in stored order, and a miss is `NotFound`.
   */
  lemma CachedLookupIsFinal(modules: seq<ModuleEntry>, h: Handle, query: string, e: Enumeration)
    requires FindModule(modules, h).Some?
    ensures var r := Resolve(modules, h, query, e);
            var funcs := modules[FindModule(modules, h).value].funcs;
            && r.modules == modules
            && (r.outcome == NotFound <==> forall k :: 0 <= k < |funcs| ==> !NameMatches(funcs[k], query))
            && (r.outcome.Found? ==> exists j :: 0 <= j < |funcs| && NameMatches(funcs[j], query) && r.outcome.address == funcs[j].address
                                              && forall k :: 0 <= k < j ==> !NameMatches(funcs[k], query))
  {
  }

  /**
   * After any call that did not fail to enumerate, the handle is cached, and
   * repeating the same query gives the same answer without enumerating again,
   * whatever the service would answer then.
   */
  lemma {:induction false} RepeatedQueryIsStable(modules: seq<ModuleEntry>, h: Handle, query: string, e: Enumeration, e2: Enumeration)
    ensures var r := Resolve(modules, h, query, e);
            r.outcome != EnumerationFailed ==>
              && Cached(r.modules, h)
              && Resolve(r.modules, h, query, e2) == r
  {
    var r := Resolve(modules, h, query, e);
    if !Cached(modules, h) && e.succeeded {
      var entry := ModuleEntry(h, FunctionEntries(e.visited));
      FindModuleAppend(modules, entry, h);
      assert FindModule(r.modules, h) == Some(|modules|);
      assert r.modules[|modules|] == entry;
    }
  }

  /** A failed enumeration registers nothing, so the next call for the handle enumerates again. */
  lemma FailedEnumerationLeavesNoTrace(modules: seq<ModuleEntry>, h: Handle, query: string, e: Enumeration)
    ensures var r := Resolve(modules, h, query, e);
            r.outcome == EnumerationFailed <==> (!Cached(modules, h) && !e.succeeded)
    ensures var r := Resolve(modules, h, query, e);
            r.outcome == EnumerationFailed ==> r.modules == modules && !Cached(r.modules, h)
  {
  }

  /**
   * A freshly enumerated module answers as the raw records would: the first
   * function-flagged record whose name matches; non-function records never answer.
   */
  lemma FreshTableAnswersFromFunctionRecords(modules: seq<ModuleEntry>, h: Handle, query: string, e: Enumeration)
    requires !Cached(modules, h) && e.succeeded
    ensures var r := Resolve(modules, h, query, e);
            && r.modules == modules + [ModuleEntry(h, FunctionEntries(e.visited))]
            && (r.outcome == match SearchRecords(e.visited, query) case Some(a) => Found(a) case None => NotFound)
            && (r.outcome == NotFound <==> forall i :: 0 <= i < |e.visited| && IsFunction(e.visited[i]) ==> !NameMatches(EntryOf(e.visited[i]), query))
  {
    LookupFunctionEntries(e.visited, query);
    LookupSkipsNonFunctions(e.visited, query);
  }

  /** Queries that agree up to case leave the same cache and get the same answer. */
  lemma ResolveIgnoresCase(modules: seq<ModuleEntry>, h: Handle, q1: string, q2: string, e: Enumeration)
    requires SameIgnoringCase(q1, q2)
    ensures Resolve(modules, h, q1, e) == Resolve(modules, h, q2, e)
  {
    match FindModule(modules, h)
    case Some(i) =>
      LookupIgnoresCase(modules[i].funcs, q1, q2);
    case None =>
      LookupIgnoresCase(FunctionEntries(e.visited), q1, q2);
  }

  // ---------------------------------------------------------------------------
  // Properties of a series of calls

  /** A series of `SymProcAddress` calls, without teardown in between. */
  datatype Query = Query(handle: Handle, name: string)

  function Run(s: Engine, answer: (Handle, nat) -> Enumeration, qs: seq<Query>): Engine
    decreases |qs|
  {
    if qs == [] then s
    else Run(Step(s, answer, qs[0].handle, qs[0].name).0, answer, qs[1..])
  }

  /** How many successful enumerations of `h` the log records. */
  function Successes(log: seq<Attempt>, h: Handle): nat
    decreases |log|
  {
    if log == [] then 0
    else Successes(log[..|log| - 1], h) + (if log[|log| - 1] == Attempt(h, true) then 1 else 0)
  }

  lemma SuccessesAppend(log: seq<Attempt>, a: Attempt, h: Handle)
    ensures Successes(log + [a], h) == Successes(log, h) + (if a == Attempt(h, true) then 1 else 0)
  {
  }

  /**
   * One call enumerates `h` successfully exactly when it newly caches `h`,
   * and a cached handle stays cached.
   */
  lemma StepCountsSuccess(s: Engine, answer: (Handle, nat) -> Enumeration, q: Query, h: Handle)
    ensures var s' := Step(s, answer, q.handle, q.name).0;
            && (Cached(s.modules, h) ==> Cached(s'.modules, h))
            && Successes(s'.log, h) == Successes(s.log, h) + (if Cached(s'.modules, h) && !Cached(s.modules, h) then 1 else 0)
  {
    var e := answer(q.handle, |s.log|);
    if !Cached(s.modules, q.handle) {
      SuccessesAppend(s.log, Attempt(q.handle, e.succeeded), h);
      if e.succeeded {
        FindModuleAppend(s.modules, ModuleEntry(q.handle, FunctionEntries(e.visited)), h);
      }
    }
  }

  /**
   * Across any series of calls, each handle is enumerated successfully at most
   * once, and not at all when it was already cached: the cache is built once
   * per module and never rebuilt, whether later queries hit or miss.
   */
  lemma {:induction false} RunEnumeratesAtMostOnce(s: Engine, answer: (Handle, nat) -> Enumeration, qs: seq<Query>, h: Handle)
    ensures var s' := Run(s, answer, qs);
            && (Cached(s.modules, h) ==> Cached(s'.modules, h))
            && Successes(s'.log, h) == Successes(s.log, h) + (if Cached(s'.modules, h) && !Cached(s.modules, h) then 1 else 0)
            && Successes(s'.log, h) <= Successes(s.log, h) + (if Cached(s.modules, h) then 0 else 1)
    decreases |qs|
  {
    if qs != [] {
      var mid := Step(s, answer, qs[0].handle, qs[0].name).0;
      StepCountsSuccess(s, answer, qs[0], h);
      RunEnumeratesAtMostOnce(mid, answer, qs[1..], h);
    }
  }

  /** A call for a cached handle changes neither the cache nor the service log: no enumeration happens. */
  lemma CachedHandleIsNotEnumerated(s: Engine, answer: (Handle, nat) -> Enumeration, h: Handle, query: string)
    requires Cached(s.modules, h)
    ensures Step(s, answer, h, query).0 == s
  {
  }

  /**
   * Once a handle is cached, no later call in a series, for any handle, logs
   * an enumeration of it: the log only grows, and nothing added names `h`.
   */
  lemma {:induction false} RunNeverReenumeratesCached(s: Engine, answer: (Handle, nat) -> Enumeration, qs: seq<Query>, h: Handle)
    requires Cached(s.modules, h)
    ensures var s' := Run(s, answer, qs);
            && s.log <= s'.log
            && forall i :: |s.log| <= i < |s'.log| ==> s'.log[i].handle != h
    decreases |qs|
  {
    if qs != [] {
      var mid := Step(s, answer, qs[0].handle, qs[0].name).0;
      StepCountsSuccess(s, answer, qs[0], h);
      assert s.log <= mid.log;
      assert forall i :: |s.log| <= i < |mid.log| ==> mid.log[i].handle != h;
      RunNeverReenumeratesCached(mid, answer, qs[1..], h);
    }
  }

  /** After teardown, the next call for any handle enumerates it again. */
  lemma CallAfterTeardownEnumerates(log: seq<Attempt>, answer: (Handle, nat) -> Enumeration, h: Handle, query: string)
    ensures Step(Engine([], log), answer, h, query).0.log == log + [Attempt(h, answer(h, |log|).succeeded)]
  {
  }

  // ---------------------------------------------------------------------------
  // Worked scenarios

  /** The records of the worked scenario below. */
  function ScenarioRecords(): seq<SymbolRecord> {
    [SymbolRecord("Alpha", 0x1000, FunctionFlag),
     SymbolRecord("beta", 0x2000, FunctionFlag),
     SymbolRecord("gamma", 0x3000, 0)]
  }

  lemma ScenarioTable()
    ensures FunctionEntries(ScenarioRecords()) == [FuncEntry("Alpha", 0x1000), FuncEntry("beta", 0x2000)]
  {
    var v := ScenarioRecords();
    assert v[..2][..1] == v[..1] && v[..1][..0] == [] && v[..3] == v;
    assert FunctionEntries(v[..1]) == [FuncEntry("Alpha", 0x1000)];
    assert FunctionEntries(v[..2]) == [FuncEntry("Alpha", 0x1000), FuncEntry("beta", 0x2000)];
    assert !IsFunction(v[2]);
  }

  lemma ScenarioLookups(funcs: seq<FuncEntry>)
    requires funcs == [FuncEntry("Alpha", 0x1000), FuncEntry("beta", 0x2000)]
    ensures Lookup(funcs, "alpha") == Some(0x1000)
    ensures Lookup(funcs, "BETA") == Some(0x2000)
    ensures Lookup(funcs, "gamma") == None
    ensures Lookup(funcs, "delta") == None
  {
    assert NameMatches(funcs[0], "alpha");
    assert !NameMatches(funcs[0], "BETA") && NameMatches(funcs[1], "BETA");
    assert !NameMatches(funcs[0], "gamma") && !NameMatches(funcs[1], "gamma");
    assert !NameMatches(funcs[0], "delta") && !NameMatches(funcs[1], "delta");
  }

  /**
   * A module enumerating "Alpha" (0x1000) and "beta" (0x2000) as functions and
   * "gamma" (0x3000) as a non-function, queried four times from an empty
   * cache: "alpha" and "BETA" resolve, "gamma" and "delta" do not, the cache
   * keeps the one entry the first call built, and the module is enumerated
   * once, whatever the service would answer to later enumerations.
   */
  lemma AlphaBetaGammaScenario(m: Handle, answer: (Handle, nat) -> Enumeration)
    requires answer(m, 0) == Enumeration(ScenarioRecords(), true)
    ensures var (s1, o1) := Step(Engine([], []), answer, m, "alpha");
            var (s2, o2) := Step(s1, answer, m, "BETA");
            var (s3, o3) := Step(s2, answer, m, "gamma");
            var (s4, o4) := Step(s3, answer, m, "delta");
            && o1 == Found(0x1000)
            && o2 == Found(0x2000)
            && o3 == NotFound
            && o4 == NotFound
            && s4.modules == [ModuleEntry(m, [FuncEntry("Alpha", 0x1000), FuncEntry("beta", 0x2000)])]
            && s4.log == [Attempt(m, true)]
  {
    var funcs := [FuncEntry("Alpha", 0x1000), FuncEntry("beta", 0x2000)];
    ScenarioFirstCall(m, answer);
    var s1 := Engine([ModuleEntry(m, funcs)], [Attempt(m, true)]);
    ScenarioLookups(funcs);
    ScenarioCachedCall(s1, answer, m, "BETA");
    ScenarioCachedCall(s1, answer, m, "gamma");
    ScenarioCachedCall(s1, answer, m, "delta");
  }

  lemma ScenarioFirstCall(m: Handle, answer: (Handle, nat) -> Enumeration)
    requires answer(m, 0) == Enumeration(ScenarioRecords(), true)
    ensures Step(Engine([], []), answer, m, "alpha") ==
            (Engine([ModuleEntry(m, [FuncEntry("Alpha", 0x1000), FuncEntry("beta", 0x2000)])], [Attempt(m, true)]), Found(0x1000))
  {
    var funcs := [FuncEntry("Alpha", 0x1000), FuncEntry("beta", 0x2000)];
    ScenarioTable();
    ScenarioLookups(funcs);
    assert !Cached([], m);
    assert Search(funcs, "alpha") == Found(0x1000);
    assert Resolve([], m, "alpha", answer(m, 0)) == Resolution([ModuleEntry(m, funcs)], Found(0x1000));
    assert [] + [Attempt(m, answer(m, 0).succeeded)] == [Attempt(m, true)];
  }

  lemma ScenarioCachedCall(s: Engine, answer: (Handle, nat) -> Enumeration, m: Handle, query: string)
    requires s.modules == [ModuleEntry(m, [FuncEntry("Alpha", 0x1000), FuncEntry("beta", 0x2000)])]
    ensures Step(s, answer, m, query) == (s, Search(s.modules[0].funcs, query))
  {
    assert FindModule(s.modules, m) == Some(0);
  }

  /** A module whose enumeration fails is not cached, and the next call enumerates it again. */
  lemma FailingModuleScenario(n: Handle, answer: (Handle, nat) -> Enumeration)
    requires !answer(n, 0).succeeded
    ensures var (s1, o1) := Step(Engine([], []), answer, n, "anything");
            var (s2, _) := Step(s1, answer, n, "anything");
            && o1 == EnumerationFailed
            && s1.modules == []
            && s2.log == [Attempt(n, false), Attempt(n, answer(n, 1).succeeded)]
  {
  }

  // ---------------------------------------------------------------------------
  // The cache as the source keeps it: a global list of module entries and the
  // thread's last-error value.

  class SymbolCache {
    /** `modules`, with `numModules` as `|modules|`. */
    var modules: seq<ModuleEntry>
    /** The value `SetLastError` stores and `GetLastError` reads. */
    var lastError: nat

    ghost predicate Valid()
      reads this
    {
      UniqueHandles(modules)
    }

    /** The statics before the first call: an empty cache. */
    constructor (lastError: nat)
      ensures Valid() && modules == [] && this.lastError == lastError
    {
      modules := [];
      this.lastError := lastError;
    }

    /**
     * `SymProcAddress(hModule, procName)`: returns the address, or NULL; sets
     * the last error to 127 exactly when a table was searched and missed.
     */
    method SymProcAddress(svc: SymbolHandler, hModule: Handle, procName: string) returns (address: Address)
      requires Valid()
      modifies this, svc
      ensures Valid()
      ensures var (next, outcome) := Step(Engine(old(modules), old(svc.log)), svc.answer, hModule, procName);
              && modules == next.modules
              && svc.log == next.log
              && address == AddressOf(outcome)
              && lastError == (if outcome == NotFound then ErrorProcNotFound else old(lastError))
    {
      for i := 0 to |modules|
        invariant forall k :: 0 <= k < i ==> modules[k].handle != hModule
      {
        if modules[i].handle == hModule {
          assert FindModule(modules, hModule) == Some(i);
          var found := SearchFuncs(modules[i].funcs, procName);
          if found.Some? {
            return found.value;
          }
          lastError := ErrorProcNotFound;
          return Null;
        }
      }
      assert !Cached(modules, hModule);

      ghost var e := svc.answer(hModule, |svc.log|);
      var newModule := new ModuleBuilder(hModule);
      var ok := svc.SymEnumSymbols(hModule, newModule);
      assert [] + FunctionEntries(e.visited) == FunctionEntries(e.visited);
      if !ok {
        return Null;
      }

      ResolveKeepsHandlesUnique(modules, hModule, procName, e);
      modules := modules + [newModule.entry];

      var found := SearchFuncs(newModule.entry.funcs, procName);
      if found.Some? {
        return found.value;
      }
      lastError := ErrorProcNotFound;
      return Null;
    }

    /** `FreeSymbols`: releases every table and leaves the cache empty; on an empty cache it changes nothing. */
    method FreeSymbols()
      modifies this
      ensures Valid()
      ensures modules == [] && lastError == old(lastError)
    {
      modules := [];
    }
  }
}
