/**
 * A component definition: how the container obtains instances of one
 * requested type. It records the class to instantiate (or the user provider),
 * the constructor chosen for it, the fields to inject after construction and
 * whether the component is a mono-instance one.
 */
module Definitions {
  import opened Errors
  import opened Classes
  import opened Annotations
  import opened ClassTools
  import opened MonoPolicies
  import opened Sequences
  import opened Configuration
  import opened Interception

  /** A reference the container hands out: null, an object, or a proxy for an interface around a handler. */
  datatype Value = Null | Ref(id: nat) | Proxy(iface: string, handler: Handler<Value>)

  /** Where instances come from: a user provider, or a class with its chosen constructor and inject fields. */
  datatype Maker =
    | FromProvider(provider: Provider)
    | FromClass(impl: ClassInfo, ctor: Ctor, fields: Option<seq<FieldInfo>>)

  /**
   * `ComponentDefinition` without its mono-instance slot, which the container
   * state holds (one slot per cached definition).
   */
  datatype Definition = Definition(component: ClassInfo, maker: Maker, mono: bool)

  //-----------------------------------------------------------------------------
  // getConstructorToBeUsed
  //-----------------------------------------------------------------------------

  /** A constructor without parameters. */
  predicate IsDefault(k: Ctor) {
    k.params == []
  }

  /** The last constructor without parameters, or -1: the loop keeps overwriting its candidate. */
  function LastDefault(cs: seq<Ctor>): (r: int)
    ensures -1 <= r < |cs|
    ensures r == -1 <==> forall i :: 0 <= i < |cs| ==> !IsDefault(cs[i])
    ensures r >= 0 ==> IsDefault(cs[r]) && forall j :: r < j < |cs| ==> !IsDefault(cs[j])
  {
    if cs == [] then -1
    else if IsDefault(cs[|cs| - 1]) then |cs| - 1
    else LastDefault(cs[..|cs| - 1])
  }

  /** `i` is the one and only inject-marked constructor. */
  predicate OnlyMarked(cs: seq<Ctor>, i: int) {
    && 0 <= i < |cs| && CtorHasInject(cs[i])
    && forall j :: 0 <= j < |cs| && j != i ==> !CtorHasInject(cs[j])
  }

  /** No constructor is inject-marked. */
  predicate NoneMarked(cs: seq<Ctor>) {
    forall i :: 0 <= i < |cs| ==> !CtorHasInject(cs[i])
  }

  /**
   * `getConstructorToBeUsed`. No public constructor is an error; a single one
   * is used whatever its parameters. Among several, the only inject-marked
   * one wins; with none marked the parameterless one is used, and there must
   * be one; two marked ones are an error.
   */
  function ConstructorToBeUsed(c: ClassInfo): (r: Result<Ctor>)
    ensures r == Err(NoPublicConstructor) <==> |c.ctors| == 0
    ensures |c.ctors| == 1 ==> r == Ok(c.ctors[0])
    ensures |c.ctors| > 1 ==>
              (r == Err(SeveralInjectConstructors) <==>
                 exists i, j :: 0 <= i < j < |c.ctors| && CtorHasInject(c.ctors[i]) && CtorHasInject(c.ctors[j]))
    ensures |c.ctors| > 1 ==> forall i :: OnlyMarked(c.ctors, i) ==> r == Ok(c.ctors[i])
    ensures |c.ctors| > 1 && NoneMarked(c.ctors) ==>
              (r == Err(NoDefaultConstructor) <==> forall i :: 0 <= i < |c.ctors| ==> !IsDefault(c.ctors[i]))
    ensures |c.ctors| > 1 && NoneMarked(c.ctors) && r.Ok? ==>
              exists i :: 0 <= i < |c.ctors| && r.value == c.ctors[i] && IsDefault(c.ctors[i])
                          && forall j :: i < j < |c.ctors| ==> !IsDefault(c.ctors[j])
    ensures r.Err? ==> r.error in {NoPublicConstructor, NoDefaultConstructor, SeveralInjectConstructors}
  {
    var cs := c.ctors;
    if |cs| == 0 then Err(NoPublicConstructor)
    else if |cs| == 1 then Ok(cs[0])
    else
      var marked := Filter(cs, CtorHasInject);
      FilterCount(cs, CtorHasInject);
      if |marked| == 1 then Ok(marked[0])
      else if |marked| == 0 then
        var d := LastDefault(cs);
        if d >= 0 then Ok(cs[d]) else Err(NoDefaultConstructor)
      else Err(SeveralInjectConstructors)
  }

  //-----------------------------------------------------------------------------
  // getFieldsToBeInjected
  //-----------------------------------------------------------------------------

  /** The inject fields of `c` as a list, empty when there is none. */
  function InjectFields(c: ClassInfo): seq<FieldInfo> {
    Filter(c.fields, FieldHasInject)
  }

  /**
   * `getFieldsToBeInjected`: the declared fields with an inject marker, or
   * null when there is none.
   */
  function FieldsToBeInjected(c: ClassInfo): (r: Option<seq<FieldInfo>>)
    ensures r.None? <==> forall i :: 0 <= i < |c.fields| ==> !FieldHasInject(c.fields[i])
    ensures r.Some? ==> |r.value| > 0
                        && (forall f :: f in r.value ==> f in c.fields && FieldHasInject(f))
                        && (forall i :: 0 <= i < |c.fields| && FieldHasInject(c.fields[i]) ==> c.fields[i] in r.value)
  {
    var fs := InjectFields(c);
    FilterEmpty(c.fields, FieldHasInject);
    if |fs| > 0 then
      assert forall f :: f in fs ==> f in c.fields && FieldHasInject(f) by {
        forall f | f in fs
          ensures f in c.fields && FieldHasInject(f)
        {
          FilterSound(c.fields, FieldHasInject, f);
        }
      }
      assert forall i :: 0 <= i < |c.fields| && FieldHasInject(c.fields[i]) ==> c.fields[i] in fs by {
        forall i | 0 <= i < |c.fields| && FieldHasInject(c.fields[i])
          ensures c.fields[i] in fs
        {
          FilterKeeps(c.fields, FieldHasInject, i);
        }
      }
      Some(fs)
    else None
  }

  /** Inject fields keep declaration order: splitting the declarations splits the list the same way. */
  lemma FieldsInDeclarationOrder(c: ClassInfo, a: seq<FieldInfo>, b: seq<FieldInfo>)
    requires c.fields == a + b
    ensures InjectFields(c) == Filter(a, FieldHasInject) + Filter(b, FieldHasInject)
    ensures FieldsToBeInjected(c).Some? ==> FieldsToBeInjected(c).value == InjectFields(c)
  {
    FilterAppend(a, b, FieldHasInject);
  }

  //-----------------------------------------------------------------------------
  // The three constructors and init
  //-----------------------------------------------------------------------------

  /**
   * `init` for a definition with an implementation class: the constructor to
   * use, the fields to inject, and the mono-instance flag under `policy`.
   */
  function Init(policy: MonoPolicy, component: ClassInfo, impl: ClassInfo): (r: Result<Definition>)
    ensures r.Ok? <==> ConstructorToBeUsed(impl).Ok? && MonoInstance(policy, impl).Ok?
    ensures ConstructorToBeUsed(impl).Err? ==> r == Err(ConstructorToBeUsed(impl).error)
    ensures ConstructorToBeUsed(impl).Ok? && MonoInstance(policy, impl).Err? ==> r == Err(MonoInstance(policy, impl).error)
    ensures r.Ok? ==> && r.value.component == component
                      && r.value.maker == FromClass(impl, ConstructorToBeUsed(impl).value, FieldsToBeInjected(impl))
                      && r.value.mono == MonoInstance(policy, impl).value
  {
    var k :- ConstructorToBeUsed(impl);
    var fields := FieldsToBeInjected(impl);
    var mono :- MonoInstance(policy, impl);
    Ok(Definition(component, FromClass(impl, k, fields), mono))
  }

  /**
   * `ComponentDefinition(container, componentClass, implementationClass)`:
   * an interface or abstract component needs the implementation; a concrete
   * one is its own implementation whatever is supplied.
   */
  function WithImplementation(policy: MonoPolicy, component: ClassInfo, impl: Option<ClassInfo>): (r: Result<Definition>)
    ensures r == Err(MissingImplementation) <==> IsInterfaceOrAbstract(component) && impl.None?
    ensures IsInterfaceOrAbstract(component) && impl.Some? ==> r == Init(policy, component, impl.value)
    ensures r.Ok? ==> r.value.component == component && r.value.maker.FromClass?
  {
    if IsInterfaceOrAbstract(component) then
      match impl
      case None => Err(MissingImplementation)
      case Some(i) => Init(policy, component, i)
    else Init(policy, component, component)
  }

  /**
   * `ComponentDefinition(container, componentClass, provider)`: no class
   * analysis at all, hence never mono-instance and no field to inject.
   */
  function WithProvider(component: ClassInfo, provider: Option<Provider>): (r: Result<Definition>)
    ensures r.Err? <==> provider.None?
    ensures r.Err? ==> r.error == NullProvider
    ensures r.Ok? ==> && r.value.component == component
                      && r.value.maker == FromProvider(provider.value)
                      && !r.value.mono
  {
    match provider
    case None => Err(NullProvider)
    case Some(p) => Ok(Definition(component, FromProvider(p), false))
  }

  /**
   * `ComponentDefinition(container, componentClass)`: only for a concrete
   * class, which is its own implementation.
   */
  function ConcreteOnly(policy: MonoPolicy, component: ClassInfo): (r: Result<Definition>)
    ensures IsInterfaceOrAbstract(component) ==> r == Err(AbstractWithoutImplementation)
    ensures !IsInterfaceOrAbstract(component) ==> r == Init(policy, component, component)
  {
    if IsInterfaceOrAbstract(component) then Err(AbstractWithoutImplementation)
    else Init(policy, component, component)
  }

  /** A concrete component ignores any implementation class it is given, and uses itself. */
  lemma ConcreteIgnoresImplementation(policy: MonoPolicy, component: ClassInfo, impl: Option<ClassInfo>)
    requires !IsInterfaceOrAbstract(component)
    ensures WithImplementation(policy, component, impl) == ConcreteOnly(policy, component)
    ensures WithImplementation(policy, component, impl).Ok? ==>
              WithImplementation(policy, component, impl).value.maker.impl == component
  {
  }
}
