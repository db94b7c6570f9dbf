/**
 * `quickFixHandler`: the map from a linter's name to the handler that turns
 * its issues into quick-fixes, built once when the plugin loads.
 *
 * The contents of `ProblemHandler.FuncLinters` are not part of this model:
 * they are the parameter `funcLinters`.
 */
module Registry {

  /**
   * The handler objects, one tag each. A tag stands for the function or
   * method of module `Handlers` that models that object: `DefaultHandler`
   * for `Handlers.Default`, `IneffAssignHandler` for `Handlers.IneffAssign`,
   * `InterfacerHandler` for `Handlers.Interfacer`, `GoConstHandler` for
   * `Handlers.GoConst`, `GoDotHandler` for `Handlers.GoDot`,
   * `TestPackageHandler` for `Handlers.TestPackage`,
   * `GoPrintfFuncNameHandler` for `Handlers.GoPrintfFuncName`,
   * `ExhaustiveHandler` for `Handlers.Exhaustive`, `NlReturnHandler` for
   * `Handlers.NlReturn`, `DuplHandler` for `Handlers.Dupl`, `GoMndHandler`
   * for `Handlers.GoMnd`, `WhitespaceHandler` for the method
   * `Handlers.Whitespace`, `UnparamHandler` for the method
   * `Handlers.Unparam`, `ScopelintHandler`, `GoErr113Handler`,
   * `GoFumptHandler`, `ExportLoopRefHandler` and `NoCtxRefHandler` for
   * `Handlers.Explanation` with the matching `Handlers.Explained` value, and
   * `FuncNoLintHandler(l)` for `Handlers.FuncNoLint` with linter `l`. The
   * GoCritic, Golint, Maligned, StyleCheck, StaticCheck, GoSimple and
   * NamedElement handlers are only named here.
   */
  datatype Handler =
    | DefaultHandler
    | IneffAssignHandler
    | ScopelintHandler
    | GoCriticHandler
    | InterfacerHandler
    | WhitespaceHandler
    | GolintHandler
    | GoConstHandler
    | MalignedHandler
    | UnparamHandler
    | DuplHandler
    | GoDotHandler
    | TestPackageHandler
    | GoErr113Handler
    | StyleCheckHandler
    | GoMndHandler
    | StaticCheckHandler
    | GoPrintfFuncNameHandler
    | ExhaustiveHandler
    | GoSimpleHandler
    | GoFumptHandler
    | ExportLoopRefHandler
    | NoCtxRefHandler
    | NlReturnHandler
    | NamedElementHandler
    | FuncNoLintHandler(linter: string)

  /** The entries written out in `mutableMapOf(...)`; `exhaustive` is commented out there. */
  const LiteralEntries: map<string, Handler> := map[
    "ineffassign" := IneffAssignHandler,
    "scopelint" := ScopelintHandler,
    "gocritic" := GoCriticHandler,
    "interfacer" := InterfacerHandler,
    "whitespace" := WhitespaceHandler,
    "golint" := GolintHandler,
    "goconst" := GoConstHandler,
    "maligned" := MalignedHandler,
    "unparam" := UnparamHandler,
    "dupl" := DuplHandler,
    "godot" := GoDotHandler,
    "testpackage" := TestPackageHandler,
    "goerr113" := GoErr113Handler,
    "stylecheck" := StyleCheckHandler,
    "gomnd" := GoMndHandler,
    "staticcheck" := StaticCheckHandler,
    "goprintffuncname" := GoPrintfFuncNameHandler,
    "gosimple" := GoSimpleHandler,
    "gofumpt" := GoFumptHandler,
    "exportloopref" := ExportLoopRefHandler,
    "noctx" := NoCtxRefHandler,
    "nlreturn" := NlReturnHandler
  ]

  /**
   * The literal map has no entry for `exhaustive` and none for an
   * unused-symbol linter, so the first `putAll` only adds keys.
   */
  lemma LiteralEntriesKeys()
    ensures "exhaustive" !in LiteralEntries
    ensures forall k :: k in NamedElementLinters ==> k !in LiteralEntries
  {
  }

  /** The unused-symbol linters, which share one handler. */
  const NamedElementLinters: seq<string> := ["structcheck", "varcheck", "deadcode", "unused"]

  /**
   * The registry as a value: later entries replace earlier ones, so a
   * function linter gets its nolint handler, an unused-symbol linter the
   * shared handler, and every other literal entry keeps its handler.
   */
  function QuickFixHandler(funcLinters: seq<string>): (m: map<string, Handler>)
    ensures m.Keys == LiteralEntries.Keys + (set k | k in NamedElementLinters) + (set k | k in funcLinters)
    ensures forall k :: k in funcLinters ==> m[k] == FuncNoLintHandler(k)
    ensures forall k :: k in NamedElementLinters && k !in funcLinters ==> m[k] == NamedElementHandler
  {
    LiteralEntries
      + (map k | k in NamedElementLinters :: NamedElementHandler)
      + FuncNoLintEntries(funcLinters)
  }

  /** The pairs `it to funcNoLintHandler(it)`, as a map. */
  function FuncNoLintEntries(linters: seq<string>): (m: map<string, Handler>)
    ensures m.Keys == set k | k in linters
    ensures forall k :: k in m ==> m[k] == FuncNoLintHandler(k)
  {
    map k | k in linters :: FuncNoLintHandler(k)
  }

  lemma FuncNoLintEntriesSnoc(linters: seq<string>, f: string)
    ensures FuncNoLintEntries(linters + [f]) == FuncNoLintEntries(linters)[f := FuncNoLintHandler(f)]
  {
    var a, b := FuncNoLintEntries(linters + [f]), FuncNoLintEntries(linters)[f := FuncNoLintHandler(f)];
    assert a.Keys == b.Keys;
  }

  /** One more pair put into the map extends the entries by one linter. */
  lemma PutAllFuncNoLintStep(m0: map<string, Handler>, funcLinters: seq<string>, i: nat)
    requires i < |funcLinters|
    ensures (m0 + FuncNoLintEntries(funcLinters[..i]))[funcLinters[i] := FuncNoLintHandler(funcLinters[i])]
            == m0 + FuncNoLintEntries(funcLinters[..i + 1])
  {
    var f := funcLinters[i];
    assert funcLinters[..i + 1] == funcLinters[..i] + [f];
    FuncNoLintEntriesSnoc(funcLinters[..i], f);
    var e := FuncNoLintEntries(funcLinters[..i]);
    assert (m0 + e)[f := FuncNoLintHandler(f)] == m0 + e[f := FuncNoLintHandler(f)];
  }

  /** `putAll(NamedElementLinters.map { it to NamedElementHandler })`, one pair at a time. */
  method PutAllNamedElement(m0: map<string, Handler>) returns (m: map<string, Handler>)
    ensures m.Keys == m0.Keys + set k | k in NamedElementLinters
    ensures forall k :: k in m ==> m[k] == if k in NamedElementLinters then NamedElementHandler else m0[k]
    ensures m == m0 + (map k | k in NamedElementLinters :: NamedElementHandler)
  {
    m := m0;
    for i := 0 to |NamedElementLinters|
      invariant m.Keys == m0.Keys + set x | x in NamedElementLinters[..i]
      invariant forall k :: k in m ==> m[k] == if k in NamedElementLinters[..i] then NamedElementHandler else m0[k]
    {
      assert NamedElementLinters[..i + 1] == NamedElementLinters[..i] + [NamedElementLinters[i]];
      m := m[NamedElementLinters[i] := NamedElementHandler];
    }
    assert NamedElementLinters[..|NamedElementLinters|] == NamedElementLinters;
  }

  /** `putAll(funcLinters.map { it to funcNoLintHandler(it) })`, one pair at a time. */
  method PutAllFuncNoLint(m0: map<string, Handler>, funcLinters: seq<string>) returns (m: map<string, Handler>)
    ensures m == m0 + FuncNoLintEntries(funcLinters)
  {
    m := m0;
    for i := 0 to |funcLinters|
      invariant m == m0 + FuncNoLintEntries(funcLinters[..i])
    {
      PutAllFuncNoLintStep(m0, funcLinters, i);
      m := m[funcLinters[i] := FuncNoLintHandler(funcLinters[i])];
    }
    assert funcLinters[..|funcLinters|] == funcLinters;
  }

  /**
   * The construction as the source performs it: the literal map, then the
   * unused-symbol linters, then the function linters, each pair overwriting
   * what its key held before.
   */
  method BuildQuickFixHandler(funcLinters: seq<string>) returns (m: map<string, Handler>)
    ensures m == QuickFixHandler(funcLinters)
  {
    m := LiteralEntries;
    m := PutAllNamedElement(m);
    m := PutAllFuncNoLint(m, funcLinters);
  }

  /** The handler an issue of linter `rule` is given: `DefaultHandler` for a linter without an entry. */
  function HandlerFor(registry: map<string, Handler>, rule: string): (h: Handler)
    ensures rule in registry ==> h == registry[rule]
    ensures rule !in registry ==> h == DefaultHandler
  {
    if rule in registry then registry[rule] else DefaultHandler
  }

  /** What the registry holds, key by key. */
  lemma QuickFixHandlerEntries(funcLinters: seq<string>, k: string)
    ensures var m := QuickFixHandler(funcLinters);
      && (k in m <==> k in LiteralEntries || k in NamedElementLinters || k in funcLinters)
      && (k in funcLinters ==> m[k] == FuncNoLintHandler(k))
      && (k in NamedElementLinters && k !in funcLinters ==> m[k] == NamedElementHandler)
      && (k in LiteralEntries && k !in NamedElementLinters && k !in funcLinters ==> m[k] == LiteralEntries[k])
  {
  }

  /** `exhaustive` has no entry unless it is a function linter, so its issues get the default handler. */
  lemma ExhaustiveIsExcluded(funcLinters: seq<string>)
    requires "exhaustive" !in funcLinters
    ensures "exhaustive" !in QuickFixHandler(funcLinters)
    ensures HandlerFor(QuickFixHandler(funcLinters), "exhaustive") == DefaultHandler
  {
    assert "exhaustive" !in LiteralEntries;
    assert "exhaustive" !in NamedElementLinters;
    QuickFixHandlerEntries(funcLinters, "exhaustive");
  }

  /** The four unused-symbol linters are served by one and the same handler, when none of them is a function linter. */
  lemma UnusedLintersShareHandler(funcLinters: seq<string>, k1: string, k2: string)
    requires k1 in NamedElementLinters && k2 in NamedElementLinters
    requires k1 !in funcLinters && k2 !in funcLinters
    ensures HandlerFor(QuickFixHandler(funcLinters), k1) == HandlerFor(QuickFixHandler(funcLinters), k2)
            == NamedElementHandler
  {
    QuickFixHandlerEntries(funcLinters, k1);
    QuickFixHandlerEntries(funcLinters, k2);
  }

  /** A function linter's nolint handler is parametrised by that linter, even when it replaces a literal entry. */
  lemma FuncLinterHandlerNamesItself(funcLinters: seq<string>, k: string)
    requires k in funcLinters
    ensures HandlerFor(QuickFixHandler(funcLinters), k) == FuncNoLintHandler(k)
  {
    QuickFixHandlerEntries(funcLinters, k);
  }

  /** A linter with no entry is given the default handler. */
  lemma UnknownLinterGetsDefault(funcLinters: seq<string>, rule: string)
    requires rule !in LiteralEntries && rule !in NamedElementLinters && rule !in funcLinters
    ensures HandlerFor(QuickFixHandler(funcLinters), rule) == DefaultHandler
  {
    QuickFixHandlerEntries(funcLinters, rule);
  }
}
