/**
 * What the injector promises across calls: the precedence of the binding
 * sources, the cache and the mono-instance slot, fresh instances, the order
 * in which dependencies are requested, and proxies of factory-built
 * injectors.
 */
module ContainerLaws {
  import opened Errors
  import opened Classes
  import opened ClassTools
  import opened Configuration
  import opened Interception
  import opened Definitions
  import opened Container

  //-----------------------------------------------------------------------------
  // Precedence of the binding sources
  //-----------------------------------------------------------------------------

  /** Every convention pattern gives a name the class loader has no class for. */
  predicate NoConvention(s: Setup, c: ClassInfo) {
    forall i :: 0 <= i < |s.conventions| ==> Misses(s.world, ApplyClassOnPattern(c, s.conventions[i]))
  }

  /** No convention hits: the search ends with null. */
  lemma NoConventionFindsNothing(s: Setup, c: ClassInfo)
    requires NoConvention(s, c)
    ensures ByConvention(s, c) == Ok(None)
  {
    var cands := Candidates(c, s.conventions);
    assert forall i :: 0 <= i < |cands| ==> Misses(s.world, cands[i]);
  }

  /** The search ends at the first candidate that loads, all earlier ones missing. */
  lemma {:induction false} FirstHitDecides(world: World, cands: seq<Result<string>>, i: nat)
    requires i < |cands| && cands[i].Ok? && cands[i].value in world
    requires forall j :: 0 <= j < i ==> Misses(world, cands[j])
    ensures FirstLoadable(world, cands) == Ok(Some(world[cands[i].value]))
    decreases i
  {
    if i > 0 {
      assert Misses(world, cands[0]);
      assert forall j :: 0 <= j < i - 1 ==> cands[1..][j] == cands[j + 1];
      FirstHitDecides(world, cands[1..], i - 1);
    }
  }

  /**
   * The first pattern whose name loads decides, whatever the explicit
   * binding or the provider say, once the explicit binding (if any) could be
   * built.
   */
  lemma ConventionWins(s: Setup, c: ClassInfo, i: nat, n: string)
    requires ExplicitStep(s, c).Ok?
    requires i < |s.conventions| && ApplyClassOnPattern(c, s.conventions[i]) == Ok(n) && n in s.world
    requires forall j :: 0 <= j < i ==> Misses(s.world, ApplyClassOnPattern(c, s.conventions[j]))
    ensures BuildDefinition(s, c) == WithImplementation(s.policy, c, Some(s.world[n]))
  {
    var cands := Candidates(c, s.conventions);
    FirstHitDecides(s.world, cands, i);
    assert ByConvention(s, c) == Ok(Some(s.world[n]));
  }

  /** Without a convention hit, a non-null provider decides over the explicit binding. */
  lemma ProviderBeatsExplicit(s: Setup, c: ClassInfo, p: Provider)
    requires ExplicitStep(s, c).Ok? && NoConvention(s, c)
    requires c.name in s.providers && s.providers[c.name] == Some(p)
    ensures BuildDefinition(s, c) == Ok(Definition(c, FromProvider(p), false))
  {
    NoConventionFindsNothing(s, c);
  }

  /** The explicit binding decides only when no convention hits and no provider is stored. */
  lemma ExplicitLast(s: Setup, c: ClassInfo)
    requires c.name in s.implementations && NoConvention(s, c) && GetProvider(s, c).None?
    ensures BuildDefinition(s, c) == WithImplementation(s.policy, c, Some(s.implementations[c.name]))
  {
    NoConventionFindsNothing(s, c);
  }

  /**
   * An explicit binding whose definition cannot be built aborts the lookup,
   * even when a later source would have replaced it.
   */
  lemma ExplicitFailureAborts(s: Setup, c: ClassInfo)
    requires c.name in s.implementations
    requires WithImplementation(s.policy, c, Some(s.implementations[c.name])).Err?
    ensures BuildDefinition(s, c) == Err(WithImplementation(s.policy, c, Some(s.implementations[c.name])).error)
  {
  }

  /**
   * Without any source, an interface or abstract class is unresolvable and a
   * concrete class is its own implementation.
   */
  lemma NoSource(s: Setup, c: ClassInfo)
    requires c.name !in s.implementations && GetProvider(s, c).None? && NoConvention(s, c)
    ensures IsInterfaceOrAbstract(c) ==> BuildDefinition(s, c) == Err(Unresolvable(c.name))
    ensures !IsInterfaceOrAbstract(c) ==> BuildDefinition(s, c) == ConcreteOnly(s.policy, c)
  {
    NoConventionFindsNothing(s, c);
  }

  //-----------------------------------------------------------------------------
  // The cache and the mono-instance slot
  //-----------------------------------------------------------------------------

  /**
   * A request whose mono-instance slot is filled returns that instance and
   * changes nothing but the log; no binding is consulted, so any two setups
   * over the same classes agree.
   */
  lemma CacheHitIgnoresBindings(s1: Setup, s2: Setup, st: State, name: string, depth: nat, fuel: nat)
    requires Valid(st) && name in st.components && st.components[name].mono && name in st.singles
    requires name in s1.world && name in s2.world && fuel > 0
    ensures GetComponentInstance(s1, st, name, depth, fuel) == GetComponentInstance(s2, st, name, depth, fuel)
    ensures GetComponentInstance(s1, st, name, depth, fuel)
            == Step(Ok(st.singles[name]), st.(log := st.log + [Request(name, depth)]))
  {
  }

  /**
   * Asking twice for a mono-instance component gives the very same instance,
   * and the second request creates nothing and caches nothing new.
   */
  lemma SingletonLaw(s: Setup, st: State, name: string, d1: nat, d2: nat, f1: nat, f2: nat)
    requires Valid(st) && f2 > 0
    requires GetComponentInstance(s, st, name, d1, f1).result.Ok?
    requires GetComponentInstance(s, st, name, d1, f1).state.components[name].mono
    ensures var first := GetComponentInstance(s, st, name, d1, f1);
            GetComponentInstance(s, first.state, name, d2, f2)
            == Step(first.result, first.state.(log := first.state.log + [Request(name, d2)]))
  {
    var first := GetComponentInstance(s, st, name, d1, f1);
    assert name in s.world;
    CacheHitIgnoresBindings(s, s, first.state, name, d2, f2);
  }

  /**
   * Every successful request for a class-made component that is not
   * mono-instance creates an object that did not exist before it.
   */
  lemma {:induction false} NotMonoCreates(s: Setup, st: State, name: string, depth: nat, fuel: nat)
    requires Valid(st)
    requires GetComponentInstance(s, st, name, depth, fuel).result.Ok?
    requires !GetComponentInstance(s, st, name, depth, fuel).state.components[name].mono
    requires GetComponentInstance(s, st, name, depth, fuel).state.components[name].maker.FromClass?
    ensures var r := GetComponentInstance(s, st, name, depth, fuel);
            FreshIn(st, r.state, r.result.value)
  {
    ThroughGetInstance(s, st, name, depth, fuel);
  }

  /** Two successful requests for a class-made component that is not mono-instance give two distinct objects. */
  lemma FreshEachTime(s: Setup, st: State, name: string, d1: nat, d2: nat, f1: nat, f2: nat)
    requires Valid(st)
    requires GetComponentInstance(s, st, name, d1, f1).result.Ok?
    requires !GetComponentInstance(s, st, name, d1, f1).state.components[name].mono
    requires GetComponentInstance(s, st, name, d1, f1).state.components[name].maker.FromClass?
    requires GetComponentInstance(s, GetComponentInstance(s, st, name, d1, f1).state, name, d2, f2).result.Ok?
    ensures var first := GetComponentInstance(s, st, name, d1, f1);
            var second := GetComponentInstance(s, first.state, name, d2, f2);
            Id(first.result.value) < Id(second.result.value)
  {
    var first := GetComponentInstance(s, st, name, d1, f1);
    NotMonoCreates(s, st, name, d1, f1);
    NotMonoCreates(s, first.state, name, d2, f2);
  }

  /**
   * A successful request for a provider-made component yields whatever the
   * provider's `get()` returns at that moment, null or an object old or new.
   */
  lemma {:induction false} ProviderResult(s: Setup, st: State, name: string, depth: nat, fuel: nat)
    requires Valid(st)
    requires GetComponentInstance(s, st, name, depth, fuel).result.Ok?
    requires GetComponentInstance(s, st, name, depth, fuel).state.components[name].maker.FromProvider?
    ensures var r := GetComponentInstance(s, st, name, depth, fuel);
            Id(r.result.value) == Id(Provided(r.state.components[name].maker.provider, st))
  {
    ThroughGetInstance(s, st, name, depth, fuel);
  }

  /**
   * Freshness is the class-made case only: a provider whose `get()` always
   * returns the same object makes two requests yield that one object.
   */
  lemma SharedProvider(s: Setup, st: State, name: string, d1: nat, d2: nat, f1: nat, f2: nat, k: nat)
    requires Valid(st)
    requires GetComponentInstance(s, st, name, d1, f1).result.Ok?
    requires GetComponentInstance(s, st, name, d1, f1).state.components[name].maker.FromProvider?
    requires forall n :: GetComponentInstance(s, st, name, d1, f1).state.components[name].maker.provider.get(n) == Some(k)
    requires GetComponentInstance(s, GetComponentInstance(s, st, name, d1, f1).state, name, d2, f2).result.Ok?
    ensures var first := GetComponentInstance(s, st, name, d1, f1);
            var second := GetComponentInstance(s, first.state, name, d2, f2);
            Id(first.result.value) == Id(second.result.value) == k
  {
    var first := GetComponentInstance(s, st, name, d1, f1);
    ProviderResult(s, st, name, d1, f1);
    ProviderResult(s, first.state, name, d2, f2);
  }

  //-----------------------------------------------------------------------------
  // Dependency order
  //-----------------------------------------------------------------------------

  /**
   * A request that creates an instance makes, one level deeper, exactly the
   * requests its definition depends on: the constructor's parameter types in
   * order, then the inject fields' types in order. It is itself the only
   * request at its own level.
   */
  lemma {:induction false} DependencyOrder(s: Setup, st: State, name: string, depth: nat, fuel: nat)
    requires Valid(st) && name !in st.singles
    requires GetComponentInstance(s, st, name, depth, fuel).result.Ok?
    ensures var r := GetComponentInstance(s, st, name, depth, fuel);
            && NamesAt(Segment(st, r.state), depth) == [name]
            && NamesAt(Segment(st, r.state), depth + 1) == Dependencies(r.state.components[name])
  {
    var r := GetComponentInstance(s, st, name, depth, fuel);
    ThroughGetInstance(s, st, name, depth, fuel);
    var st2 := Entered(s, st, name, depth);
    SegmentSplit(st, st2, r.state);
    var head := [Request(name, depth)];
    assert Segment(st, st2) == head;
    assert NamesAt(head, depth) == [name] && NamesAt(head, depth + 1) == [] by {
      assert head[..0] == [];
    }
    NamesAtAppend(head, Segment(st2, r.state), depth);
    NamesAtAppend(head, Segment(st2, r.state), depth + 1);
    NamesAtNone(Segment(st2, r.state), depth);
  }

  //-----------------------------------------------------------------------------
  // Proxies of factory-built injectors
  //-----------------------------------------------------------------------------

  /**
   * An injector built from a configuration always has a provider array,
   * possibly empty, so every instance created for an interface component is
   * a proxy, and never for a class.
   */
  lemma FactoryProxiesInterfaces(world: World, cfg: Config, st: State, d: Definition, depth: nat, fuel: nat)
    requires Valid(st)
    requires CreateInstance(CreateInjector(world, cfg), st, d, depth, fuel).result.Ok?
    ensures CreateInstance(CreateInjector(world, cfg), st, d, depth, fuel).result.value.Proxy?
            <==> d.component.isInterface
  {
  }

  /**
   * With the default injector nothing intercepts: each call through the
   * proxy of an interface component runs the target alone and passes its
   * outcome through.
   */
  lemma DefaultProxyPassesThrough(world: World, st: State, d: Definition, depth: nat, fuel: nat,
                                  q: Query, m: string, o: Reflective)
    requires Valid(st) && d.component.isInterface
    requires CreateInstance(CreateDefaultInjector(world), st, d, depth, fuel).result.Ok?
    ensures var v := CreateInstance(CreateDefaultInjector(world), st, d, depth, fuel).result.value;
            v.Proxy? && HandleCall(v.handler, q, m, o) == Call([Invoked], Invoke(o))
  {
    var v := CreateInstance(CreateDefaultInjector(world), st, d, depth, fuel).result.value;
    assert v.handler.providers == Some([]);
    PassThrough(v.handler, q, m, o);
  }
}
