/**
 * The injector itself: its fixed setup, the cache of component definitions
 * keyed by the requested class name, and the resolution of a request into a
 * component instance, recursively resolving the dependencies the chosen
 * constructor and the inject fields ask for.
 *
 * Objects are identities below a counter: an instance made from a class is
 * the next identity, one from a provider is whatever its `get()` returns,
 * possibly an object handed out before. Every call of
 * `getComponentInstance` is logged with its nesting depth, which is what the
 * dependency-order properties are stated over. The Java recursion has no
 * bound (a dependency cycle overflows the stack); here it carries fuel, and
 * running out of fuel is the `StackOverflow` error.
 */
module Container {
  import opened Errors
  import opened Classes
  import opened ClassTools
  import opened MonoPolicies
  import opened Configuration
  import opened Interception
  import opened Definitions

  /** What an injector is created with; it does not change afterwards. */
  datatype Setup = Setup(
    world: World,
    implementations: map<string, ClassInfo>,
    conventions: seq<string>,
    providers: map<string, Option<Provider>>,
    interceptorProviders: Option<seq<nat>>,
    policy: MonoPolicy)

  //-----------------------------------------------------------------------------
  // InjectorFactory
  //-----------------------------------------------------------------------------

  /**
   * `createInjector(name, configuration)`: the injector takes the
   * configuration's bindings as they are and the default mono-instance policy.
   */
  function CreateInjector(world: World, cfg: Config): (s: Setup)
    ensures s.interceptorProviders == Some(cfg.interceptorProviders)
    ensures s.implementations == cfg.implementations && s.providers == cfg.providers
    ensures s.conventions == cfg.conventions && s.policy == BySingletonAnnotation
  {
    Setup(world, cfg.implementations, cfg.conventions, cfg.providers,
          GetInterceptorProviders(cfg), BySingletonAnnotation)
  }

  /** `createInjector(name)`: the two default conventions, in order, and nothing else. */
  function CreateDefaultInjector(world: World): (s: Setup)
    ensures s.conventions == [FirstConvention, SecondConvention]
    ensures s.implementations == map[] && s.providers == map[]
    ensures s.interceptorProviders == Some([])
  {
    var cfg := DefineImplementationConvention(DefineImplementationConvention(Empty, FirstConvention), SecondConvention);
    assert cfg.conventions == [] + [FirstConvention] + [SecondConvention];
    CreateInjector(world, cfg)
  }

  //-----------------------------------------------------------------------------
  // Binding lookups
  //-----------------------------------------------------------------------------

  /** `getImplementationClass`: the explicit binding of `c`, if any. */
  function GetImplementationClass(s: Setup, c: ClassInfo): (r: Option<ClassInfo>)
    ensures r.Some? <==> c.name in s.implementations
    ensures r.Some? ==> r.value == s.implementations[c.name]
  {
    if c.name in s.implementations then Some(s.implementations[c.name]) else None
  }

  /** `getProvider`: the provider stored for `c`; a stored null reads as none. */
  function GetProvider(s: Setup, c: ClassInfo): (r: Option<Provider>)
    ensures r.Some? <==> c.name in s.providers && s.providers[c.name].Some?
    ensures r.Some? ==> r == s.providers[c.name]
  {
    if c.name in s.providers then s.providers[c.name] else None
  }

  /** The candidate names the patterns give for `c`, in pattern order. */
  function Candidates(c: ClassInfo, patterns: seq<string>): (r: seq<Result<string>>)
    ensures |r| == |patterns|
    ensures forall i :: 0 <= i < |patterns| ==> r[i] == ApplyClassOnPattern(c, patterns[i])
  {
    seq(|patterns|, i requires 0 <= i < |patterns| => ApplyClassOnPattern(c, patterns[i]))
  }

  /** A candidate that is computed and that the class loader has no class for. */
  predicate Misses(world: World, candidate: Result<string>) {
    candidate.Ok? && candidate.value !in world
  }

  /**
   * The loop of `getImplementationClassByConvention` over the candidates:
   * the first candidate that loads is the answer, concrete or not; a
   * candidate the engine could not compute throws, which ends the search.
   */
  function FirstLoadable(world: World, cands: seq<Result<string>>): (r: Result<Option<ClassInfo>>)
    ensures r == Ok(None) <==> forall i :: 0 <= i < |cands| ==> Misses(world, cands[i])
    ensures r.Ok? && r.value.Some? ==>
              exists i :: 0 <= i < |cands| && cands[i].Ok? && cands[i].value in world
                          && r.value.value == world[cands[i].value]
                          && forall j :: 0 <= j < i ==> Misses(world, cands[j])
    ensures r.Err? ==>
              exists i :: 0 <= i < |cands| && cands[i] == Err(r.error)
                          && forall j :: 0 <= j < i ==> Misses(world, cands[j])
    decreases |cands|
  {
    if cands == [] then Ok(None)
    else
      var name :- cands[0];
      if name in world then Ok(Some(world[name]))
      else
        var r := FirstLoadable(world, cands[1..]);
        assert forall i :: 1 <= i < |cands| ==> cands[1..][i - 1] == cands[i];
        if r.Ok? && r.value.Some? then
          var i :| 0 <= i < |cands[1..]| && cands[1..][i].Ok? && cands[1..][i].value in world
                   && r.value.value == world[cands[1..][i].value]
                   && forall j :: 0 <= j < i ==> Misses(world, cands[1..][j]);
          assert forall j :: 0 <= j < i + 1 ==> Misses(world, cands[j]) by {
            forall j | 0 <= j < i + 1
              ensures Misses(world, cands[j])
            {
              if j > 0 {
                assert cands[j] == cands[1..][j - 1];
              }
            }
          }
          r
        else if r.Err? then
          var i :| 0 <= i < |cands[1..]| && cands[1..][i] == Err(r.error)
                   && forall j :: 0 <= j < i ==> Misses(world, cands[1..][j]);
          assert forall j :: 0 <= j < i + 1 ==> Misses(world, cands[j]) by {
            forall j | 0 <= j < i + 1
              ensures Misses(world, cands[j])
            {
              if j > 0 {
                assert cands[j] == cands[1..][j - 1];
              }
            }
          }
          r
        else
          r
  }

  /** `getImplementationClassByConvention` for the injector's patterns. */
  function ByConvention(s: Setup, c: ClassInfo): Result<Option<ClassInfo>> {
    FirstLoadable(s.world, Candidates(c, s.conventions))
  }

  /** `d` is a definition for `c`, and only a class-based one can be mono-instance. */
  predicate Fits(c: ClassInfo, d: Definition) {
    d.component == c && (d.mono ==> d.maker.FromClass?)
  }

  /** A definition built for a hit, as the optional result of one lookup. */
  function Hit(d: Result<Definition>): (r: Result<Option<Definition>>)
    ensures r.Ok? <==> d.Ok?
    ensures r.Ok? ==> r.value == Some(d.value)
    ensures r.Err? ==> r.error == d.error
  {
    var v :- d;
    Ok(Some(v))
  }

  /**
   * The first lookup of `getComponentInstance` on a cache miss: the explicit
   * binding, whose definition is built as soon as it is found.
   */
  function ExplicitStep(s: Setup, c: ClassInfo): (r: Result<Option<Definition>>)
    ensures GetImplementationClass(s, c).None? ==> r == Ok(None)
    ensures GetImplementationClass(s, c).Some? ==> r.Err? || r.value.Some?
    ensures r.Ok? && r.value.Some? ==> Fits(c, r.value.value)
  {
    match GetImplementationClass(s, c)
    case None => Ok(None)
    case Some(i) => Hit(WithImplementation(s.policy, c, Some(i)))
  }

  /**
   * The rest of a cache miss, given the outcome of the explicit lookup, the
   * provider found and the outcome of the convention search. Each hit
   * replaces the previous definition, so the effective precedence is
   * convention, then provider, then explicit binding; a hit whose definition
   * cannot be built throws even when a later one would have replaced it.
   * Without any hit, an interface or abstract class is unresolvable and a
   * concrete class is its own implementation.
   */
  function Choose(policy: MonoPolicy, c: ClassInfo, explicit: Result<Option<Definition>>,
                  provider: Option<Provider>, conv: Result<Option<ClassInfo>>): (r: Result<Definition>)
    requires explicit.Ok? && explicit.value.Some? ==> Fits(c, explicit.value.value)
    ensures explicit.Err? ==> r == Err(explicit.error)
    ensures explicit.Ok? && conv.Err? ==> r == Err(conv.error)
    ensures explicit.Ok? && conv.Ok? && conv.value.Some? ==> r == WithImplementation(policy, c, conv.value)
    ensures explicit.Ok? && conv == Ok(None) && provider.Some? ==> r == WithProvider(c, provider)
    ensures explicit.Ok? && conv == Ok(None) && provider.None? && explicit.value.Some? ==> r == Ok(explicit.value.value)
    ensures explicit == Ok(None) && conv == Ok(None) && provider.None? ==>
              r == if IsInterfaceOrAbstract(c) then Err(Unresolvable(c.name)) else ConcreteOnly(policy, c)
    ensures r.Ok? ==> Fits(c, r.value)
  {
    var d1 :- explicit;
    // a provider definition is always built: the provider found is never null
    var d2 := if provider.Some? then Some(WithProvider(c, provider).value) else d1;
    var found :- conv;
    var d3 :- match found
              case None => Ok(d2)
              case Some(k) => Hit(WithImplementation(policy, c, Some(k)));
    match d3
    case Some(d) => Ok(d)
    case None => if IsInterfaceOrAbstract(c) then Err(Unresolvable(c.name)) else ConcreteOnly(policy, c)
  }

  /** The definition `getComponentInstance` builds for `c` on a cache miss. */
  function BuildDefinition(s: Setup, c: ClassInfo): Result<Definition> {
    Choose(s.policy, c, ExplicitStep(s, c), GetProvider(s, c), ByConvention(s, c))
  }

  //-----------------------------------------------------------------------------
  // Container state
  //-----------------------------------------------------------------------------

  /** One call of `getComponentInstance`: the requested name and how deeply it is nested. */
  datatype Request = Request(name: string, depth: nat)

  /**
   * The mutable part of an injector: the definitions cached by requested
   * class name, the mono-instance slot of each cached definition that has
   * one filled, the next object identity, and the requests made so far.
   */
  datatype State = State(
    components: map<string, Definition>,
    singles: map<string, Value>,
    nextId: nat,
    log: seq<Request>)

  /** A new injector's state. */
  const Initial: State := State(map[], map[], 0, [])

  /** The outcome of a step of the container, with the state it leaves, also when it throws. */
  datatype Step<T> = Step(result: Result<T>, state: State)

  /**
   * What every reachable state satisfies: only class-based definitions are
   * mono-instance, and only a mono-instance definition ever gets its slot
   * filled, never with null.
   */
  predicate Valid(st: State) {
    && (forall k :: k in st.components && st.components[k].mono ==> st.components[k].maker.FromClass?)
    && (forall k :: k in st.singles ==> k in st.components && st.components[k].mono && st.singles[k] != Null)
    && (forall k :: k in st.singles ==> Id(st.singles[k]) < st.nextId)
  }

  /** A state `st'` reached from `st`: the log extended, identities not reused, cached definitions kept. */
  ghost predicate Grows(st: State, st': State) {
    && st.log <= st'.log
    && st.nextId <= st'.nextId
    && (forall k :: k in st.components ==> k in st'.components && st'.components[k] == st.components[k])
  }

  /** Every request logged between `st` and `st'` is nested at least `depth` deep. */
  predicate NotAbove(st: State, st': State, depth: nat)
    requires |st.log| <= |st'.log|
  {
    forall i :: |st.log| <= i < |st'.log| ==> st'.log[i].depth >= depth
  }

  /** The requests logged between `st` and `st'`. */
  function Segment(st: State, st': State): seq<Request>
    requires |st.log| <= |st'.log|
  {
    st'.log[|st.log|..]
  }

  /** The names requested at nesting depth `depth`, in order. */
  function NamesAt(log: seq<Request>, depth: nat): seq<string>
    decreases |log|
  {
    if log == [] then []
    else NamesAt(log[..|log| - 1], depth) + (if log[|log| - 1].depth == depth then [log[|log| - 1].name] else [])
  }

  lemma {:induction false} NamesAtAppend(a: seq<Request>, b: seq<Request>, depth: nat)
    ensures NamesAt(a + b, depth) == NamesAt(a, depth) + NamesAt(b, depth)
    decreases |b|
  {
    if b == [] {
      assert a + b == a;
    } else {
      var b' := b[..|b| - 1];
      NamesAtAppend(a, b', depth);
      assert (a + b)[..|a + b| - 1] == a + b';
      assert (a + b)[|a + b| - 1] == b[|b| - 1];
    }
  }

  lemma {:induction false} NamesAtNone(log: seq<Request>, depth: nat)
    requires forall i :: 0 <= i < |log| ==> log[i].depth != depth
    ensures NamesAt(log, depth) == []
    decreases |log|
  {
    if log != [] {
      NamesAtNone(log[..|log| - 1], depth);
    }
  }

  /** The segments of two successive steps make up the segment of both. */
  lemma SegmentSplit(a: State, b: State, c: State)
    requires a.log <= b.log <= c.log
    ensures Segment(a, c) == Segment(a, b) + Segment(b, c)
  {
  }

  /** The types of the given fields, in order. */
  function FieldTypes(fs: seq<FieldInfo>): (r: seq<string>)
    ensures |r| == |fs| && forall i :: 0 <= i < |fs| ==> r[i] == fs[i].typeName
  {
    seq(|fs|, i requires 0 <= i < |fs| => fs[i].typeName)
  }

  /**
   * The requests a definition makes while creating an instance: the
   * constructor's parameter types in declaration order, then the types of
   * the inject fields in list order. A provider makes none.
   */
  function Dependencies(d: Definition): seq<string> {
    match d.maker
    case FromProvider(_) => []
    case FromClass(_, k, _) => k.params + FieldTypes(InjectedFields(d.maker))
  }

  /** The fields a class-based maker injects: none when the list is null. */
  function InjectedFields(m: Maker): seq<FieldInfo>
    requires m.FromClass?
  {
    if m.fields.Some? then m.fields.value else []
  }

  /** The object identity behind a reference: the proxied instance for a proxy, -1 for null. */
  function Id(v: Value): int {
    match v
    case Null => -1
    case Ref(i) => i
    case Proxy(_, h) => Id(h.target)
  }

  /** What the provider's `get()` returns in state `st`. */
  function Provided(p: Provider, st: State): Value {
    match p.get(st.nextId)
    case None => Null
    case Some(i) => Ref(i)
  }

  /** `v` is an object created between `st` and `st'`. */
  predicate FreshIn(st: State, st': State, v: Value) {
    st.nextId <= Id(v) < st'.nextId
  }

  /** After a request for `name` yields `v`: its definition is cached, and a mono-instance slot holds `v`. */
  predicate Holds(st: State, name: string, v: Value) {
    && name in st.components
    && (st.components[name].mono ==> name in st.singles && st.singles[name] == v)
  }

  //-----------------------------------------------------------------------------
  // Resolution
  //-----------------------------------------------------------------------------

  /**
   * `getComponentInstance`: a cached definition is used as it is; on a miss
   * the definition is built, cached under the requested name, and only then
   * asked for an instance.
   */
  function GetComponentInstance(s: Setup, st: State, name: string, depth: nat, fuel: nat): (r: Step<Value>)
    requires Valid(st)
    ensures Valid(r.state) && Grows(st, r.state)
    ensures name !in s.world ==> r == Step(Err(NoClassDefFound(name)), st)
    ensures name in s.world ==> |st.log| < |r.state.log| && r.state.log[|st.log|] == Request(name, depth)
                                && forall i :: |st.log| < i < |r.state.log| ==> r.state.log[i].depth > depth
    ensures r.result.Ok? ==> Holds(r.state, name, r.result.value) && Id(r.result.value) < r.state.nextId
    ensures name in s.world && name !in st.components && fuel > 0 && BuildDefinition(s, s.world[name]).Ok? ==>
              name in r.state.components && r.state.components[name] == BuildDefinition(s, s.world[name]).value
    ensures name in s.world && name !in st.components && fuel > 0 && BuildDefinition(s, s.world[name]).Err? ==>
              r == Step(Err(BuildDefinition(s, s.world[name]).error), st.(log := st.log + [Request(name, depth)]))
    decreases fuel, 0, 0
  {
    if name !in s.world then Step(Err(NoClassDefFound(name)), st)
    else
      var st1 := st.(log := st.log + [Request(name, depth)]);
      if fuel == 0 then Step(Err(StackOverflow), st1)
      else if name in st1.components then GetInstance(s, st1, name, depth, fuel - 1)
      else match BuildDefinition(s, s.world[name])
        case Err(e) => Step(Err(e), st1)
        case Ok(d) => GetInstance(s, st1.(components := st1.components[name := d]), name, depth, fuel - 1)
  }

  /**
   * The state in which a request for a loadable `name` asks the cached
   * definition for an instance: the request logged, and the definition built
   * and cached under `name` on a miss.
   */
  function Entered(s: Setup, st: State, name: string, depth: nat): (r: State)
    requires Valid(st) && name in s.world
    requires name in st.components || BuildDefinition(s, s.world[name]).Ok?
    ensures Valid(r) && Grows(st, r) && name in r.components
    ensures r.log == st.log + [Request(name, depth)] && r.singles == st.singles && r.nextId == st.nextId
  {
    var st1 := st.(log := st.log + [Request(name, depth)]);
    if name in st1.components then st1
    else st1.(components := st1.components[name := BuildDefinition(s, s.world[name]).value])
  }

  /** A successful request went through `getInstance` of the definition cached under its name. */
  lemma ThroughGetInstance(s: Setup, st: State, name: string, depth: nat, fuel: nat)
    requires Valid(st) && GetComponentInstance(s, st, name, depth, fuel).result.Ok?
    ensures name in s.world && fuel > 0 && (name in st.components || BuildDefinition(s, s.world[name]).Ok?)
    ensures GetComponentInstance(s, st, name, depth, fuel) == GetInstance(s, Entered(s, st, name, depth), name, depth, fuel - 1)
  {
  }

  /** The requests for `names`, one after the other, stopping at the first that throws. */
  function ResolveAll(s: Setup, st: State, names: seq<string>, depth: nat, fuel: nat): (r: Step<seq<Value>>)
    requires Valid(st)
    ensures Valid(r.state) && Grows(st, r.state) && NotAbove(st, r.state, depth)
    ensures r.result.Ok? ==> |r.result.value| == |names| && NamesAt(Segment(st, r.state), depth) == names
    decreases fuel, 1, |names|
  {
    if names == [] then Step(Ok([]), st)
    else
      var h := GetComponentInstance(s, st, names[0], depth, fuel);
      if h.result.Err? then Step(Err(h.result.error), h.state)
      else
        var t := ResolveAll(s, h.state, names[1..], depth, fuel);
        if t.result.Err? then Step(Err(t.result.error), t.state)
        else
          ResolvedInOrder(st, h.state, t.state, names, depth);
          Step(Ok([h.result.value] + t.result.value), t.state)
  }

  /** The request for the first name, then those for the rest, log the names in order at that depth. */
  lemma ResolvedInOrder(st: State, h: State, t: State, names: seq<string>, depth: nat)
    requires |names| > 0 && st.log <= h.log <= t.log
    requires |st.log| < |h.log| && h.log[|st.log|] == Request(names[0], depth)
    requires forall i :: |st.log| < i < |h.log| ==> h.log[i].depth > depth
    requires NamesAt(Segment(h, t), depth) == names[1..]
    ensures NamesAt(Segment(st, t), depth) == names
  {
    SegmentSplit(st, h, t);
    var seg := Segment(st, h);
    assert seg == [Request(names[0], depth)] + seg[1..];
    NamesAtNone(seg[1..], depth);
    NamesAtAppend([Request(names[0], depth)], seg[1..], depth);
    NamesAtAppend(seg, Segment(h, t), depth);
    assert NamesAt([Request(names[0], depth)], depth) == [names[0]] by {
      assert [Request(names[0], depth)][..0] == [];
    }
  }

  /**
   * `createBasicInstance`: from the provider, or else by the chosen
   * constructor. A provider's `get()` is the whole of it: whatever it
   * returns, null or an object old or new, is the instance, and a
   * provider-made definition has no inject fields. An object the provider
   * returns with an identity not below the counter moves the counter past it.
   */
  function CreateBasicInstance(s: Setup, st: State, d: Definition, depth: nat, fuel: nat): (r: Step<Value>)
    requires Valid(st)
    ensures Valid(r.state) && Grows(st, r.state) && NotAbove(st, r.state, depth + 1)
    ensures r.result.Ok? ==> NamesAt(Segment(st, r.state), depth + 1) == Dependencies(d)
    ensures r.result.Ok? ==> Id(r.result.value) < r.state.nextId
    ensures r.result.Ok? && d.maker.FromClass? ==> r.result.value.Ref? && FreshIn(st, r.state, r.result.value)
    ensures d.maker.FromProvider? ==> r.result == Ok(Provided(d.maker.provider, st))
    decreases fuel, 3, 0
  {
    match d.maker
    case FromProvider(p) =>
      var v := Provided(p, st);
      var st' := if Id(v) < st.nextId then st else st.(nextId := Id(v) + 1);
      assert Segment(st, st') == [];
      Step(Ok(v), st')
    case FromClass(_, _, _) => CreateFromClass(s, st, d, depth, fuel)
  }

  /**
   * `createWithDefaultConstructor` and `createWithDependencies`, then the
   * field injection of `createBasicInstance`: the constructor's parameters
   * are requested in order, the object is created, then one request is made
   * per inject field in order. Instantiating an abstract class fails after
   * its parameters are resolved, before any field is.
   */
  function CreateFromClass(s: Setup, st: State, d: Definition, depth: nat, fuel: nat): (r: Step<Value>)
    requires Valid(st) && d.maker.FromClass?
    ensures Valid(r.state) && Grows(st, r.state) && NotAbove(st, r.state, depth + 1)
    ensures r.result.Ok? ==> NamesAt(Segment(st, r.state), depth + 1) == Dependencies(d)
    ensures r.result.Ok? ==> r.result.value.Ref? && FreshIn(st, r.state, r.result.value)
    ensures IsInterfaceOrAbstract(d.maker.impl) ==> r.result.Err?
    decreases fuel, 2, 1
  {
    var args := ResolveAll(s, st, d.maker.ctor.params, depth + 1, fuel);
    if args.result.Err? then Step(Err(args.result.error), args.state)
    else if IsInterfaceOrAbstract(d.maker.impl) then Step(Err(InstantiationFailed(d.maker.impl.name)), args.state)
    else
      var st2 := Allocate(args.state);
      Chain(st, args.state, st2, depth + 1);
      var injected := InjectInto(s, st2, Ref(args.state.nextId), FieldTypes(InjectedFields(d.maker)), depth + 1, fuel);
      Chain(st, st2, injected.state, depth + 1);
      if injected.result.Err? then injected
      else
        ConstructedInOrder(st, args.state, st2, injected.state, depth + 1);
        injected
  }

  /** The field injection of `createBasicInstance`: one request per field type, in order, into `obj`. */
  function InjectInto(s: Setup, st: State, obj: Value, types: seq<string>, depth: nat, fuel: nat): (r: Step<Value>)
    requires Valid(st)
    ensures Valid(r.state) && Grows(st, r.state) && NotAbove(st, r.state, depth)
    ensures r.result.Ok? ==> r.result.value == obj && NamesAt(Segment(st, r.state), depth) == types
    decreases fuel, 2, 0
  {
    var injected := ResolveAll(s, st, types, depth, fuel);
    if injected.result.Err? then Step(Err(injected.result.error), injected.state)
    else Step(Ok(obj), injected.state)
  }

  /** A new object: its identity is the next one, and nothing else changes. */
  function Allocate(st: State): (r: State)
    requires Valid(st)
    ensures Valid(r) && Grows(st, r) && r.log == st.log && r.nextId == st.nextId + 1
  {
    st.(nextId := st.nextId + 1)
  }

  /** Two successive steps make one. */
  lemma Chain(a: State, b: State, c: State, depth: nat)
    requires Grows(a, b) && Grows(b, c) && NotAbove(a, b, depth) && NotAbove(b, c, depth)
    ensures Grows(a, c) && NotAbove(a, c, depth)
  {
  }

  /** The requests of two successive steps, where the state between them only allocated an object. */
  lemma ConstructedInOrder(st: State, a: State, b: State, t: State, depth: nat)
    requires st.log <= a.log && b.log == a.log && b.log <= t.log
    ensures NamesAt(Segment(st, t), depth) == NamesAt(Segment(st, a), depth) + NamesAt(Segment(b, t), depth)
  {
    SegmentSplit(st, b, t);
    NamesAtAppend(Segment(st, b), Segment(b, t), depth);
  }

  /**
   * `createInstance`: an instance of an interface component is wrapped in a
   * proxy whenever the container's provider array is not null, even empty;
   * an abstract class is never wrapped.
   */
  function CreateInstance(s: Setup, st: State, d: Definition, depth: nat, fuel: nat): (r: Step<Value>)
    requires Valid(st)
    ensures Valid(r.state) && Grows(st, r.state) && NotAbove(st, r.state, depth + 1)
    ensures r.result.Ok? ==> NamesAt(Segment(st, r.state), depth + 1) == Dependencies(d)
    ensures r.result.Ok? ==> (r.result.value.Proxy? <==> d.component.isInterface && s.interceptorProviders.Some?)
    ensures r.result.Ok? && r.result.value.Proxy? ==>
              && r.result.value.iface == d.component.name
              && r.result.value.handler.providers == s.interceptorProviders
              && r.result.value.handler.target != Null
    ensures r.result.Ok? ==> Id(r.result.value) < r.state.nextId
    ensures r.result.Ok? && d.maker.FromClass? ==> FreshIn(st, r.state, r.result.value)
    ensures r.result.Ok? && d.maker.FromProvider? ==> Id(r.result.value) == Id(Provided(d.maker.provider, st))
    ensures (d.maker.FromProvider? && Provided(d.maker.provider, st) == Null
             && d.component.isInterface && s.interceptorProviders.Some?) ==> r.result == Err(NullComponentInstance)
    decreases fuel, 4, 0
  {
    var basic := CreateBasicInstance(s, st, d, depth, fuel);
    if basic.result.Err? then basic
    else if d.component.isInterface && s.interceptorProviders.Some? then
      var instance := if basic.result.value == Null then None else Some(basic.result.value);
      match NewHandler(instance, s.interceptorProviders)
      case Err(e) => Step(Err(e), basic.state)
      case Ok(h) => Step(Ok(Proxy(d.component.name, h)), basic.state)
    else basic
  }

  /**
   * `getInstance`: a mono-instance definition creates its instance once and
   * keeps it in its slot; any other asks for an instance on every call and
   * never touches a slot: a new object when made from a class, whatever the
   * provider returns otherwise.
   */
  function GetInstance(s: Setup, st: State, name: string, depth: nat, fuel: nat): (r: Step<Value>)
    requires Valid(st) && name in st.components
    ensures Valid(r.state) && Grows(st, r.state) && NotAbove(st, r.state, depth + 1)
    ensures r.result.Ok? ==> Holds(r.state, name, r.result.value)
    ensures st.components[name].mono && name in st.singles ==> r == Step(Ok(st.singles[name]), st)
    ensures !(st.components[name].mono && name in st.singles) && r.result.Ok? ==>
              NamesAt(Segment(st, r.state), depth + 1) == Dependencies(st.components[name])
    ensures r.result.Ok? ==> Id(r.result.value) < r.state.nextId
    ensures !(st.components[name].mono && name in st.singles) && r.result.Ok? && st.components[name].maker.FromClass? ==>
              FreshIn(st, r.state, r.result.value)
    ensures r.result.Ok? && st.components[name].maker.FromProvider? ==>
              Id(r.result.value) == Id(Provided(st.components[name].maker.provider, st))
    decreases fuel, 5, 0
  {
    var d := st.components[name];
    if d.mono && name in st.singles then Step(Ok(st.singles[name]), st)
    else
      var created := CreateInstance(s, st, d, depth, fuel);
      if d.mono && created.result.Ok? then
        Step(created.result, created.state.(singles := created.state.singles[name := created.result.value]))
      else created
  }
}
