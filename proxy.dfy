/** The `batoms` import proxy: the object that stands in for the module
    `batoms` and, on first use, finds the one enabled Blender extension
    whose module name ends in `.batoms`, imports it and forwards to it. */
module Proxy {
  import opened Results
  import opened Strings

  /** `_BatomsProxy.extension_name` */
  const ExtensionName: string := "batoms"
  const Suffix: string := "." + ExtensionName

  /** An entry of `addon_utils.modules()`: its `__name__`, and the
      `loaded_state` that `addon_utils.check` reports for it. */
  datatype Addon = Addon(name: string, loaded: bool)

  /** A module `importlib.import_module` returned, known by the name it was
      imported under. */
  datatype Module = Module(name: string)

  /** The ImportErrors of the proxy. */
  datatype ProxyError =
    /** `addon_utils.modules()` returned nothing. */
    | ExtensionSystemUnavailable
    /** No enabled extension's module name ends in `.batoms`. */
    | NoEnabledExtension
    /** Several enabled ones do; they are listed in the message. */
    | MultipleExtensions(names: seq<string>)
    /** `importlib.import_module` raised for the chosen name. */
    | ImportFailed(name: string)

  /** What a forwarding method hands to the real module. */
  datatype Request =
    | Attribute(attr: string)
    | Listing
    /** Positional and keyword arguments, as `*args` and `**kwargs`. */
    | Invocation(args: seq<string>, kwargs: map<string, string>)

  /** The forwarded operation: `getattr(module, name)`, `dir(module)` or
      `module(*args, **kwargs)`. */
  datatype Forwarded = Forwarded(target: Module, request: Request)

  /** Does this entry qualify as the batoms extension? */
  predicate Eligible(a: Addon) {
    EndsWith(a.name, Suffix) && a.loaded
  }

  /** `possible_modules` after the loop: the qualifying names, in order. */
  function Candidates(addons: seq<Addon>): seq<string>
    decreases |addons|
  {
    if addons == [] then []
    else
      var front := Candidates(addons[..|addons| - 1]);
      var a := addons[|addons| - 1];
      if Eligible(a) then front + [a.name] else front
  }

  /** `_find_extension_module`, on the registry's answer to `modules()`. */
  function Selection(addons: seq<Addon>): Result<string, ProxyError> {
    if |addons| == 0 then Err(ExtensionSystemUnavailable)
    else
      var c := Candidates(addons);
      if |c| == 0 then Err(NoEnabledExtension)
      else if |c| > 1 then Err(MultipleExtensions(c))
      else Ok(c[0])
  }

  /** A bare `batoms`, without a package in front, does not qualify; nor
      does a name in which `.batoms` is followed by more text without a dot
      (`bl_ext.user_default.batoms_extra`). Every loaded
      `bl_ext.<channel>.batoms` qualifies, and no unloaded one does. */
  lemma BareNameRejected(channel: string, prefix: string, tail: string, loaded: bool)
    ensures !Eligible(Addon(ExtensionName, loaded))
    ensures tail != "" && '.' !in tail ==> !Eligible(Addon(prefix + Suffix + tail, loaded))
    ensures Eligible(Addon("bl_ext." + channel + Suffix, true))
    ensures !Eligible(Addon("bl_ext." + channel + Suffix, false))
  {
    var full := "bl_ext." + channel + Suffix;
    assert full[|full| - |Suffix|..] == Suffix;
    if tail != "" && '.' !in tail {
      var n := prefix + Suffix + tail;
      if |Suffix| <= |n| {
        var k := |n| - |Suffix|;
        // The character where the suffix's dot would have to sit is a
        // letter of `batoms` or a character of `tail`; neither is a dot.
        if |tail| >= |Suffix| {
          assert n[k] == tail[|tail| - |Suffix|];
        } else {
          assert n[k] == Suffix[|tail|];
        }
        assert n[k] != '.';
        assert n[k..][0] == n[k];
      }
    }
  }

  /** A name is a candidate exactly when some qualifying entry carries it. */
  lemma {:induction false} CandidatesIff(addons: seq<Addon>, n: string)
    ensures n in Candidates(addons) <==> exists i :: 0 <= i < |addons| && addons[i].name == n && Eligible(addons[i])
    decreases |addons|
  {
    if addons != [] {
      var front := addons[..|addons| - 1];
      CandidatesIff(front, n);
      if n in Candidates(addons) && n !in Candidates(front) {
        assert addons[|addons| - 1].name == n;
      }
      if n !in Candidates(front) {
        assert forall i :: 0 <= i < |front| ==> front[i] == addons[i];
      }
    }
  }

  /** The filter keeps input order: candidates of a concatenation are the
      candidates of each part, in turn. */
  lemma {:induction false} CandidatesAppend(xs: seq<Addon>, ys: seq<Addon>)
    ensures Candidates(xs + ys) == Candidates(xs) + Candidates(ys)
    decreases |ys|
  {
    if ys == [] {
      assert xs + ys == xs;
    } else {
      var ys' := ys[..|ys| - 1];
      assert (xs + ys)[..|xs + ys| - 1] == xs + ys';
      CandidatesAppend(xs, ys');
    }
  }

  /** The search succeeds exactly when exactly one entry qualifies, and then
      yields that entry's name; the error cases are told apart as the
      source tells them apart. */
  lemma SelectionSpec(addons: seq<Addon>)
    ensures Selection(addons).Ok? <==> |Candidates(addons)| == 1
    ensures Selection(addons).Ok? ==> Selection(addons).value == Candidates(addons)[0]
    ensures Selection(addons).Ok? ==> EndsWith(Selection(addons).value, Suffix)
    ensures addons == [] ==> Selection(addons) == Err(ExtensionSystemUnavailable)
    ensures addons != [] && Candidates(addons) == [] ==> Selection(addons) == Err(NoEnabledExtension)
    ensures |Candidates(addons)| > 1 ==> Selection(addons) == Err(MultipleExtensions(Candidates(addons)))
  {
    CandidatesEmpty(addons);
    if |Candidates(addons)| >= 1 {
      CandidatesIff(addons, Candidates(addons)[0]);
    }
  }

  lemma {:induction false} CandidatesEmpty(addons: seq<Addon>)
    ensures addons == [] ==> Candidates(addons) == []
    ensures |Candidates(addons)| <= |addons|
    decreases |addons|
  {
    if addons != [] {
      CandidatesEmpty(addons[..|addons| - 1]);
    }
  }

  /** The loop of `_find_extension_module` and the checks after it. */
  method FindExtensionModule(addons: seq<Addon>) returns (r: Result<string, ProxyError>)
    ensures r == Selection(addons)
  {
    if |addons| == 0 {
      return Err(ExtensionSystemUnavailable);
    }
    var possibleModules: seq<string> := [];
    var i := 0;
    while i < |addons|
      invariant 0 <= i <= |addons|
      invariant possibleModules == Candidates(addons[..i])
    {
      assert addons[..i + 1][..i] == addons[..i];
      var importableName := addons[i].name;
      if EndsWith(importableName, Suffix) {
        var loadedState := addons[i].loaded;
        if loadedState {
          possibleModules := possibleModules + [importableName];
        }
      }
      i := i + 1;
    }
    assert addons[..i] == addons;
    if |possibleModules| == 0 {
      return Err(NoEnabledExtension);
    } else if |possibleModules| > 1 {
      return Err(MultipleExtensions(possibleModules));
    }
    return Ok(possibleModules[0]);
  }

  /** The module a fresh proxy resolves, with the name it was imported
      under. */
  datatype Resolved = Resolved(target: Module, name: string)

  /** What a load on a fresh proxy yields: the selection, then the import
      of the selected name. A resolved module was imported under the one
      qualifying name. */
  function Resolution(addons: seq<Addon>, importer: string -> Option<Module>): (r: Result<Resolved, ProxyError>)
    ensures Selection(addons).Err? ==> r == Err(Selection(addons).error)
    ensures Selection(addons).Ok? && importer(Selection(addons).value).None? ==>
              r == Err(ImportFailed(Selection(addons).value))
    ensures r.Ok? ==> Candidates(addons) == [r.value.name] && EndsWith(r.value.name, Suffix)
                      && importer(r.value.name) == Some(r.value.target)
  {
    SelectionSpec(addons);
    match Selection(addons)
    case Err(e) => Err(e)
    case Ok(n) => if importer(n).None? then Err(ImportFailed(n)) else Ok(Resolved(importer(n).value, n))
  }

  /** `addon_utils`, with a count of how often its list was asked for. */
  class Registry {
    var addons: seq<Addon>
    ghost var queries: nat

    constructor(addons: seq<Addon>)
      ensures this.addons == addons && queries == 0
    {
      this.addons := addons;
      queries := 0;
    }

    /** `addon_utils.modules()` */
    method Modules() returns (r: seq<Addon>)
      modifies this
      ensures r == addons && addons == old(addons)
      ensures queries == old(queries) + 1
    {
      r := addons;
      queries := queries + 1;
    }
  }

  /** `_BatomsProxy` */
  class BatomsProxy {
    var realModule: Option<Module>
    var resolvedName: Option<string>

    /** The two fields are set together, and only to an extension's name. */
    ghost predicate Valid()
      reads this
    {
      && (realModule.Some? <==> resolvedName.Some?)
      && (resolvedName.Some? ==> EndsWith(resolvedName.value, Suffix))
    }

    constructor()
      ensures Valid() && realModule.None? && resolvedName.None?
    {
      realModule := None;
      resolvedName := None;
    }

    /** `_load_module`: `importer` is `importlib.import_module`, `None` when
        it raises. */
    method LoadModule(registry: Registry, importer: string -> Option<Module>) returns (r: Outcome<ProxyError>)
      requires Valid()
      modifies this, registry
      ensures Valid()
      ensures registry.addons == old(registry.addons)
      ensures old(realModule).Some? ==>
                r == Pass && realModule == old(realModule) && resolvedName == old(resolvedName)
                && registry.queries == old(registry.queries)
      ensures old(realModule).None? ==> registry.queries == old(registry.queries) + 1
      ensures old(realModule).None? ==>
                match Selection(old(registry.addons))
                case Err(e) => r == Fail(e) && realModule == old(realModule) && resolvedName == old(resolvedName)
                case Ok(n) =>
                  if importer(n).None? then
                    r == Fail(ImportFailed(n)) && realModule == old(realModule) && resolvedName == old(resolvedName)
                  else
                    r == Pass && realModule == importer(n) && resolvedName == Some(n)
    {
      if realModule.Some? {
        return Pass;
      }
      var addons := registry.Modules();
      var found := FindExtensionModule(addons);
      if found.Err? {
        return Fail(found.error);
      }
      var moduleName := found.value;
      SelectionSpec(addons);
      var imported := importer(moduleName);
      if imported.None? {
        return Fail(ImportFailed(moduleName));
      }
      realModule := imported;
      resolvedName := Some(moduleName);
      r := Pass;
    }

    /** The three forwarding methods share this: load, then hand `request`
        to the real module. A loaded proxy forwards without asking the
        registry again; a fresh one makes one query and either forwards to
        the module it resolved or returns the load error. */
    method Forward(registry: Registry, importer: string -> Option<Module>, request: Request)
        returns (r: Result<Forwarded, ProxyError>)
      requires Valid()
      modifies this, registry
      ensures Valid()
      ensures registry.addons == old(registry.addons)
      ensures old(realModule).Some? ==>
                r == Ok(Forwarded(old(realModule).value, request))
                && realModule == old(realModule) && resolvedName == old(resolvedName)
                && registry.queries == old(registry.queries)
      ensures old(realModule).None? ==> registry.queries == old(registry.queries) + 1
      ensures old(realModule).None? ==>
                match Resolution(old(registry.addons), importer)
                case Err(e) => r == Err(e) && realModule.None? && resolvedName.None?
                case Ok(m) =>
                  r == Ok(Forwarded(m.target, request))
                  && realModule == Some(m.target) && resolvedName == Some(m.name)
    {
      var loaded := LoadModule(registry, importer);
      if loaded.Fail? {
        return Err(loaded.error);
      }
      r := Ok(Forwarded(realModule.value, request));
    }

    /** `__getattr__(name)` */
    method GetAttr(registry: Registry, importer: string -> Option<Module>, name: string)
        returns (r: Result<Forwarded, ProxyError>)
      requires Valid()
      modifies this, registry
      ensures Valid()
      ensures registry.addons == old(registry.addons)
      ensures old(realModule).Some? ==>
                r == Ok(Forwarded(old(realModule).value, Attribute(name)))
                && realModule == old(realModule) && resolvedName == old(resolvedName)
                && registry.queries == old(registry.queries)
      ensures old(realModule).None? ==> registry.queries == old(registry.queries) + 1
      ensures old(realModule).None? ==>
                match Resolution(old(registry.addons), importer)
                case Err(e) => r == Err(e) && realModule.None? && resolvedName.None?
                case Ok(m) =>
                  r == Ok(Forwarded(m.target, Attribute(name)))
                  && realModule == Some(m.target) && resolvedName == Some(m.name)
    {
      r := Forward(registry, importer, Attribute(name));
    }

    /** `__dir__()` */
    method Dir(registry: Registry, importer: string -> Option<Module>)
        returns (r: Result<Forwarded, ProxyError>)
      requires Valid()
      modifies this, registry
      ensures Valid()
      ensures registry.addons == old(registry.addons)
      ensures old(realModule).Some? ==>
                r == Ok(Forwarded(old(realModule).value, Listing))
                && realModule == old(realModule) && resolvedName == old(resolvedName)
                && registry.queries == old(registry.queries)
      ensures old(realModule).None? ==> registry.queries == old(registry.queries) + 1
      ensures old(realModule).None? ==>
                match Resolution(old(registry.addons), importer)
                case Err(e) => r == Err(e) && realModule.None? && resolvedName.None?
                case Ok(m) =>
                  r == Ok(Forwarded(m.target, Listing))
                  && realModule == Some(m.target) && resolvedName == Some(m.name)
    {
      r := Forward(registry, importer, Listing);
    }

    /** `__call__(*args, **kwargs)` */
    method Call(registry: Registry, importer: string -> Option<Module>, args: seq<string>, kwargs: map<string, string>)
        returns (r: Result<Forwarded, ProxyError>)
      requires Valid()
      modifies this, registry
      ensures Valid()
      ensures registry.addons == old(registry.addons)
      ensures old(realModule).Some? ==>
                r == Ok(Forwarded(old(realModule).value, Invocation(args, kwargs)))
                && realModule == old(realModule) && resolvedName == old(resolvedName)
                && registry.queries == old(registry.queries)
      ensures old(realModule).None? ==> registry.queries == old(registry.queries) + 1
      ensures old(realModule).None? ==>
                match Resolution(old(registry.addons), importer)
                case Err(e) => r == Err(e) && realModule.None? && resolvedName.None?
                case Ok(m) =>
                  r == Ok(Forwarded(m.target, Invocation(args, kwargs)))
                  && realModule == Some(m.target) && resolvedName == Some(m.name)
    {
      r := Forward(registry, importer, Invocation(args, kwargs));
    }

    /** `__repr__()`; an empty name would be falsy in Python. */
    function Repr(): string
      reads this
    {
      if resolvedName.Some? && resolvedName.value != "" then "<Proxy for " + resolvedName.value + ">"
      else "<Proxy for '" + ExtensionName + "' (not yet loaded)>"
    }
  }

  const NotLoadedRepr: string := "<Proxy for 'batoms' (not yet loaded)>"

  lemma NotLoadedText()
    ensures "<Proxy for '" + ExtensionName + "' (not yet loaded)>" == NotLoadedRepr
  {
  }

  /** An extension's name ends in `s`, so its text ends in `s>`, where the
      not-loaded text ends in `)>`. */
  lemma LoadedTextDiffers(n: string)
    requires EndsWith(n, Suffix)
    ensures n != "" && "<Proxy for " + n + ">" != NotLoadedRepr
  {
    assert n[|n| - 1] == 's' by {
      assert n[|n| - |Suffix|..] == Suffix;
      assert n[|n| - 1] == n[|n| - |Suffix|..][|Suffix| - 1];
    }
    var s := "<Proxy for " + n + ">";
    assert s[|s| - 2] == n[|n| - 1];
    assert NotLoadedRepr[|NotLoadedRepr| - 2] == ')';
  }

  /** Before resolution the proxy says it is not loaded; after it, it names
      the resolved module; the two texts never coincide. */
  lemma ReprSpec(p: BatomsProxy)
    requires p.Valid()
    ensures p.realModule.None? ==> p.Repr() == NotLoadedRepr
    ensures p.realModule.Some? ==> p.Repr() == "<Proxy for " + p.resolvedName.value + ">"
    ensures p.Repr() == NotLoadedRepr <==> p.realModule.None?
  {
    if p.realModule.Some? {
      LoadedTextDiffers(p.resolvedName.value);
    } else {
      NotLoadedText();
    }
  }
}
