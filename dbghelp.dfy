/**
 * The symbol service `SymProcAddress` relies on (`SymInitialize`,
 * `SymEnumSymbols`, `SymCleanup`), reduced to what the cache can observe: for
 * each enumeration it asks for, a run of records handed to the callback and an
 * overall success or failure.  The answers are an arbitrary function fixed when
 * the service is created, and every enumeration is logged, so a
 * caller can count how often a module was enumerated.
 */
module DbgHelp {
  import opened Symbols

  /** One enumeration: the records visited, in order, and whether `SymEnumSymbols` reported success. */
  datatype Enumeration = Enumeration(visited: seq<SymbolRecord>, succeeded: bool)

  /** A log line: which module was enumerated and with what result. */
  datatype Attempt = Attempt(handle: Handle, succeeded: bool)

  class SymbolHandler {
    /** `answer(h, n)`: what enumerating `h` yields when it is the service's `n`-th enumeration. */
    const answer: (Handle, nat) -> Enumeration
    /** Every enumeration performed so far. */
    var log: seq<Attempt>

    constructor (answer: (Handle, nat) -> Enumeration)
      ensures this.answer == answer && log == []
    {
      this.answer := answer;
      log := [];
    }

    /**
     * `SymEnumSymbols` called with `EnumSymbolsCallback` and `ctx` as its user
     * context: each visited record goes to the callback, until the records run
     * out or the callback asks to stop.
     */
    method SymEnumSymbols(h: Handle, ctx: ModuleBuilder) returns (ok: bool)
      modifies this, ctx
      ensures log == old(log) + [Attempt(h, answer(h, |old(log)|).succeeded)]
      ensures ok == answer(h, |old(log)|).succeeded
      ensures ctx.entry.handle == old(ctx.entry.handle)
      ensures ctx.entry.funcs == old(ctx.entry.funcs) + FunctionEntries(answer(h, |old(log)|).visited)
    {
      var e := answer(h, |log|);
      var i, keepGoing := 0, true;
      while i < |e.visited| && keepGoing
        invariant 0 <= i <= |e.visited|
        invariant keepGoing
        invariant log == old(log)
        invariant ctx.entry.handle == old(ctx.entry.handle)
        invariant ctx.entry.funcs == old(ctx.entry.funcs) + FunctionEntries(e.visited[..i])
      {
        keepGoing := ctx.EnumSymbolsCallback(e.visited[i]);
        assert e.visited[..i + 1][..i] == e.visited[..i];
        i := i + 1;
      }
      assert e.visited[..i] == e.visited;
      log := log + [Attempt(h, e.succeeded)];
      ok := e.succeeded;
    }
  }
}
