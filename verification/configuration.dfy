/**
 * The configuration builder: explicit implementation bindings, naming
 * conventions, implementation providers and interceptor providers, collected
 * before an injector is created.
 *
 * Classes are keyed by binary name. A user `Provider` is known by an
 * identity and by what its `get()` returns; an `InterceptorProvider` by an
 * identity only.
 */
module Configuration {
  import opened Errors
  import opened Classes
  import opened ClassTools

  /**
   * A user `Provider`, known by an identity and by what its `get()` returns
   * when the container has created `n` objects so far: null (`None`), or an
   * object identity that may be one handed out before, or a new one.
   */
  datatype Provider = Provider(id: nat, get: nat -> Option<nat>)

  /**
   * The builder's state. A provider entry may hold null (`None`):
   * `defineImplementationProvider` stores whatever it is given.
   */
  datatype Config = Config(
    implementations: map<string, ClassInfo>,
    conventions: seq<string>,
    providers: map<string, Option<Provider>>,
    interceptorProviders: seq<nat>)

  /** A freshly built configuration: nothing defined. */
  const Empty: Config := Config(map[], [], map[], [])

  //-----------------------------------------------------------------------------
  // Implementation classes
  //-----------------------------------------------------------------------------

  /**
   * `defineImplementationClass`: the implementation must be a subtype of the
   * abstract type, then not an interface, then not abstract, checked in that
   * order; a valid binding is stored, replacing any earlier one.
   */
  function DefineImplementationClass(cfg: Config, abstractClass: ClassInfo, impl: ClassInfo): (r: Result<Config>)
    ensures r == Err(NotAnImplementation) <==> !IsAssignableFrom(abstractClass, impl)
    ensures r == Err(ImplementationIsInterface) <==> IsAssignableFrom(abstractClass, impl) && impl.isInterface
    ensures r == Err(ImplementationIsAbstract) <==>
              IsAssignableFrom(abstractClass, impl) && !impl.isInterface && IsAbstract(impl)
    ensures r.Ok? <==> IsAssignableFrom(abstractClass, impl) && !impl.isInterface && !IsAbstract(impl)
    ensures r.Ok? ==> BoundTo(cfg, r.value, abstractClass.name, impl)
  {
    if !IsAssignableFrom(abstractClass, impl) then Err(NotAnImplementation)
    else if impl.isInterface then Err(ImplementationIsInterface)
    else if IsAbstract(impl) then Err(ImplementationIsAbstract)
    else Ok(cfg.(implementations := cfg.implementations[abstractClass.name := impl]))
  }

  /** `after` is `before` with `name` bound to `impl` and nothing else changed. */
  ghost predicate BoundTo(before: Config, after: Config, name: string, impl: ClassInfo) {
    && name in after.implementations && after.implementations[name] == impl
    && after.implementations.Keys == before.implementations.Keys + {name}
    && (forall k :: k in before.implementations && k != name ==>
          after.implementations[k] == before.implementations[k])
    && after.conventions == before.conventions
    && after.providers == before.providers
    && after.interceptorProviders == before.interceptorProviders
  }

  /** Redefining the binding of a type keeps only the second implementation. */
  lemma RedefineReplaces(cfg: Config, a: ClassInfo, i1: ClassInfo, i2: ClassInfo)
    requires DefineImplementationClass(cfg, a, i1).Ok?
    ensures DefineImplementationClass(DefineImplementationClass(cfg, a, i1).value, a, i2)
            == DefineImplementationClass(cfg, a, i2)
  {
    var c1 := DefineImplementationClass(cfg, a, i1).value;
    if DefineImplementationClass(cfg, a, i2).Ok? {
      var r := DefineImplementationClass(c1, a, i2).value;
      var s := DefineImplementationClass(cfg, a, i2).value;
      assert r.implementations == s.implementations;
    }
  }

  //-----------------------------------------------------------------------------
  // Implementation conventions
  //-----------------------------------------------------------------------------

  /** `defineImplementationConvention`: the pattern goes to the end of the list. */
  function DefineImplementationConvention(cfg: Config, pattern: string): (r: Config)
    ensures |r.conventions| == |cfg.conventions| + 1
    ensures r.conventions[..|cfg.conventions|] == cfg.conventions
    ensures r.conventions[|cfg.conventions|] == pattern
    ensures r.(conventions := cfg.conventions) == cfg
  {
    cfg.(conventions := cfg.conventions + [pattern])
  }

  /** Defining the patterns of `ps` one after another, first to last. */
  function DefineConventions(cfg: Config, ps: seq<string>): Config
    decreases |ps|
  {
    if ps == [] then cfg
    else DefineImplementationConvention(DefineConventions(cfg, ps[..|ps| - 1]), ps[|ps| - 1])
  }

  /** `getImplementationConventions` lists the patterns in the order they were defined. */
  lemma {:induction false} ConventionsInDefinitionOrder(cfg: Config, ps: seq<string>)
    ensures DefineConventions(cfg, ps).conventions == cfg.conventions + ps
    ensures DefineConventions(cfg, ps).(conventions := cfg.conventions) == cfg
    decreases |ps|
  {
    if ps != [] {
      ConventionsInDefinitionOrder(cfg, ps[..|ps| - 1]);
      assert ps[..|ps| - 1] + [ps[|ps| - 1]] == ps;
    }
  }

  //-----------------------------------------------------------------------------
  // Implementation providers
  //-----------------------------------------------------------------------------

  /**
   * `defineImplementationProvider`: stored as given, null included, without
   * any check, replacing an earlier provider for the same type.
   */
  function DefineImplementationProvider(cfg: Config, abstractClass: ClassInfo, provider: Option<Provider>): (r: Config)
    ensures abstractClass.name in r.providers && r.providers[abstractClass.name] == provider
    ensures r.providers.Keys == cfg.providers.Keys + {abstractClass.name}
    ensures forall k :: k in cfg.providers && k != abstractClass.name ==> r.providers[k] == cfg.providers[k]
    ensures r.(providers := cfg.providers) == cfg
  {
    cfg.(providers := cfg.providers[abstractClass.name := provider])
  }

  /** A later provider for the same type replaces the earlier one. */
  lemma ProviderRedefined(cfg: Config, a: ClassInfo, p1: Option<Provider>, p2: Option<Provider>)
    ensures DefineImplementationProvider(DefineImplementationProvider(cfg, a, p1), a, p2)
            == DefineImplementationProvider(cfg, a, p2)
  {
    var r := DefineImplementationProvider(DefineImplementationProvider(cfg, a, p1), a, p2);
    var s := DefineImplementationProvider(cfg, a, p2);
    assert r.providers == s.providers;
  }

  //-----------------------------------------------------------------------------
  // Interceptor providers
  //-----------------------------------------------------------------------------

  /** `defineInterceptorProvider`: null is rejected, anything else is appended. */
  function DefineInterceptorProvider(cfg: Config, provider: Option<nat>): (r: Result<Config>)
    ensures r.Err? <==> provider.None?
    ensures r.Err? ==> r.error == NullInterceptorProvider
    ensures r.Ok? ==> r.value.interceptorProviders == cfg.interceptorProviders + [provider.value]
                      && r.value.(interceptorProviders := cfg.interceptorProviders) == cfg
  {
    match provider
    case None => Err(NullInterceptorProvider)
    case Some(p) => Ok(cfg.(interceptorProviders := cfg.interceptorProviders + [p]))
  }

  /**
   * Defining the providers of `ps` one after another, first to last; the
   * first null stops the sequence with the exception.
   */
  function DefineInterceptorProviders(cfg: Config, ps: seq<Option<nat>>): Result<Config>
    decreases |ps|
  {
    if ps == [] then Ok(cfg)
    else
      var c :- DefineInterceptorProviders(cfg, ps[..|ps| - 1]);
      DefineInterceptorProvider(c, ps[|ps| - 1])
  }

  /** The non-null providers of `ps`, unwrapped. */
  function Present(ps: seq<Option<nat>>): seq<nat>
    requires forall i :: 0 <= i < |ps| ==> ps[i].Some?
    ensures |Present(ps)| == |ps|
  {
    if ps == [] then [] else Present(ps[..|ps| - 1]) + [ps[|ps| - 1].value]
  }

  /**
   * Registering interceptor providers succeeds exactly when none is null, and
   * then `getInterceptorProviders` returns them in registration order after
   * the earlier ones.
   */
  lemma {:induction false} InterceptorProvidersInOrder(cfg: Config, ps: seq<Option<nat>>)
    ensures DefineInterceptorProviders(cfg, ps).Ok? <==> forall i :: 0 <= i < |ps| ==> ps[i].Some?
    ensures DefineInterceptorProviders(cfg, ps).Ok? ==>
              GetInterceptorProviders(DefineInterceptorProviders(cfg, ps).value) == Some(cfg.interceptorProviders + Present(ps))
    decreases |ps|
  {
    if ps != [] {
      var init := ps[..|ps| - 1];
      InterceptorProvidersInOrder(cfg, init);
      assert forall i :: 0 <= i < |init| ==> init[i] == ps[i];
      if DefineInterceptorProviders(cfg, ps).Ok? {
        var c := DefineInterceptorProviders(cfg, init).value;
        assert DefineInterceptorProviders(cfg, ps) == DefineInterceptorProvider(c, ps[|ps| - 1]);
        assert Present(ps) == Present(init) + [ps[|ps| - 1].value];
        assert cfg.interceptorProviders + Present(init) + [ps[|ps| - 1].value]
            == cfg.interceptorProviders + Present(ps);
      }
    } else {
      assert cfg.interceptorProviders + [] == cfg.interceptorProviders;
    }
  }

  /**
   * `getInterceptorProviders`: never null; with nothing defined it is the
   * empty array.
   */
  function GetInterceptorProviders(cfg: Config): (r: Option<seq<nat>>)
    ensures r.Some?
    ensures |r.value| == |cfg.interceptorProviders|
    ensures cfg.interceptorProviders == [] ==> r == Some([])
  {
    Some(cfg.interceptorProviders)
  }
}
