# nanoj-injector in Dafny

A model of the core of nanoj-injector, a small Java dependency-injection
container, with proofs about it. The model covers six parts:

- the naming-convention engine (`ClassTools`), which turns a pattern such as
  `${package}.impl.${class}Impl` into a candidate implementation class name;
- the marker-annotation tests (`AnnotationUtil`);
- the mono-instance (singleton) policies;
- the configuration builder (`InjectorConfiguration`);
- component definitions and the resolver (`ComponentDefinition`,
  `InjectorImpl.getComponentInstance`), including the definition cache, the
  mono-instance slot and the order of dependency requests;
- the interception proxy (`GenericInvocationHandler`, `MethodInvoker`), as a
  trace of hook events around one call.

Java reflection is replaced by metadata records (`Classes.ClassInfo`: name,
simple name, package, interface and abstract flags, public constructors,
declared fields, annotations, supertypes). A `World` map from binary names to
`ClassInfo` stands for the class loader. Objects are identities below a
counter: an instance made from a class takes the next identity, while a
provider's `get()` may return any object, one handed out before included. So
"the same instance" and "a new instance" can be stated. Java
exceptions are `Errors.Result` values. The Java recursion through
`getComponentInstance` carries a fuel argument, and running out of fuel is the
`StackOverflow` error. Every request is logged with its nesting depth; the
dependency-order properties are stated over that log.

Files, one module each: `errors.dfy` (exceptions, `Result`, `Option`),
`java_strings.dfy` (the `String` methods nanoj-injector relies on), `classes.dfy`,
`class_tools.dfy`, `annotations.dfy`, `naming.dfy`, `mono_policies.dfy`,
`sequences.dfy` (order-preserving filter), `configuration.dfy`,
`interception.dfy`, `definitions.dfy`, `container.dfy` (factory, lookups,
cache, resolution) and `container_laws.dfy` (properties across calls).

Behaviour that follows the code rather than its comments or the intended
design:

- All three lookups of a cache miss run, and each hit replaces the previous
  one. The effective precedence is therefore convention, then provider, then
  explicit binding, not "first match wins". A hit whose definition cannot be
  built throws, even when a later hit would have replaced it.
- A provider-based definition has no implementation class, so its `init`
  does no constructor selection, no field analysis and no mono-instance test:
  it is never mono-instance and injects no fields.
- `isMonoInstanceByBooleanStaticField` is documented to return false in every
  failure case. For a public boolean field that is not static,
  `Field.getBoolean(null)` throws a `NullPointerException` that escapes, and
  the model returns that error.

## Model

| member | source | states |
|---|---|---|
| ClassTools.ReplaceVar | src/main/java/org/nanoj/injector/tools/ClassTools.java:43-66 | a string without the variable comes back unchanged; otherwise exactly one occurrence is replaced (length changes by the difference once) |
| ClassTools.ReplaceFirstOccurrence | src/main/java/org/nanoj/injector/tools/ClassTools.java:43-66 | when the variable first occurs after `a`, `a + name + b` becomes `a + value + b`: later occurrences in `b` are left alone |
| ClassTools.ReplaceVarSkipsPrefix | src/main/java/org/nanoj/injector/tools/ClassTools.java:43-66 | a prefix that cannot start the variable is left untouched and replacement happens in the rest |
| ClassTools.CutLastLevel | src/main/java/org/nanoj/injector/tools/ClassTools.java:142-155 | no `.` (including the empty string) gives ""; otherwise the result is the prefix just before the last `.` |
| ClassTools.CutOneLevel | src/test/java/org/nanoj/injector/tools/TestClassTools.java:20-32 | cutting `a.b`, with `b` free of dots, gives `a` |
| ClassTools.CutLastLevelDots | src/main/java/org/nanoj/injector/tools/ClassTools.java:142-155 | a cut removes exactly one separator |
| ClassTools.CutLevelsClamps | src/main/java/org/nanoj/injector/tools/ClassTools.java:86-90 | removing more levels than the package has clamps it to "" instead of failing |
| ClassTools.CutLevelsKeeps | src/main/java/org/nanoj/injector/tools/ClassTools.java:86-90 | removing at most as many levels as there are separators leaves a prefix of the package with that many fewer separators |
| ClassTools.LevelAt | src/main/java/org/nanoj/injector/tools/ClassTools.java:112-121 | the digit loop succeeds iff at least one digit follows, a character follows the digits and the value fits in an `int`; running off the end is `StringIndexOutOfBounds`, any other failure `NumberFormat` |
| ClassTools.PackageLevel | src/main/java/org/nanoj/injector/tools/ClassTools.java:105-123 | 0 when there is no `${package-`; success exactly when the pattern meets `LevelTokenOk` |
| ClassTools.PackageLevelAt | src/test/java/org/nanoj/injector/tools/TestClassTools.java:38-57 | the digits right after the first `${package-` are the level, whatever non-digit follows (a space or `}`) |
| ClassTools.PackageVar | src/main/java/org/nanoj/injector/tools/ClassTools.java:125-140 | null without `${package`; fails iff no `}` follows; otherwise, with `${package` present, never null but a whole token (prefix, no inner `}`, closing `}`) found at the first `${package` |
| ClassTools.PackageVarOfToken | src/test/java/org/nanoj/injector/tools/TestClassTools.java:66-100 | a pattern that starts with a whole token yields exactly that token, inner spaces kept |
| ClassTools.Substitute | src/main/java/org/nanoj/injector/tools/ClassTools.java:78-96 | substitution fails exactly when `${package}` is absent, `${package-` is present and its level or its closing brace is malformed |
| ClassTools.ApplyClassOnPattern | src/main/java/org/nanoj/injector/tools/ClassTools.java:75-103 | fails iff substitution fails or yields ""; otherwise the substituted name with exactly one leading `.` removed, if there is one |
| ClassTools.PackageForm | src/main/java/org/nanoj/injector/tools/ClassTools.java:80-82 | `${package}` at the front is replaced by the full package, then the first `${class}` of the rest by the simple name |
| ClassTools.PackageLevelForm | src/main/java/org/nanoj/injector/tools/ClassTools.java:83-94 | a leading `${package-N...}` token is replaced by the package without its N last levels |
| ClassTools.PackageAfter | src/main/java/org/nanoj/injector/tools/ClassTools.java:80-82 | text without `$` ahead of `${package}` is kept as is, the token becomes the full package and the first `${class}` after it the simple name |
| ClassTools.PackageLevelAfter | src/main/java/org/nanoj/injector/tools/ClassTools.java:83-94 | text without `$` ahead of a `${package-N...}` token is kept as is and the token becomes the package without its N last levels |
| ClassTools.LevelAfter | src/main/java/org/nanoj/injector/tools/ClassTools.java:105-115 | text without `$` put in front of a `${package-N` pattern does not change the level read |
| ClassTools.LevelTokenAfter | src/main/java/org/nanoj/injector/tools/ClassTools.java:80-89 | behind text without `$`, a `${package-N...}` token is found by both readers: no `${package}`, level N, and the whole token as the variable |
| ClassTools.PackageVarAfter | src/main/java/org/nanoj/injector/tools/ClassTools.java:125-140 | a whole token behind text without `$` is exactly what `getPackageVar` returns |
| ClassTools.ApplyTokenAfter | src/main/java/org/nanoj/injector/tools/ClassTools.java:83-96 | once a token behind text without `$` is read as level n, the pattern becomes the text, the package cut by n levels, and the rest with its first `${class}` replaced |
| ClassTools.LevelClampForm | src/test/java/org/nanoj/injector/tools/TestClassTools.java:135-141 | with N above the package's depth the package part is empty and the leading `.` goes with the dot check |
| ClassTools.NoPackageForm | src/main/java/org/nanoj/injector/tools/ClassTools.java:96 | a pattern without `${package` only gets its first `${class}` replaced |
| ClassTools.PackageThenClass | src/test/java/org/nanoj/injector/tools/TestClassTools.java:114-124 | `${package}<mid>${class}<suffix>` names package, mid, simple name, suffix |
| ClassTools.ConventionName | src/main/java/org/nanoj/injector/InjectorFactory.java:89-90 | each default convention names `<package><mid><Simple>Impl`; in the unnamed package the leading `.` is dropped |
| ClassTools.DotStripped | src/main/java/org/nanoj/injector/tools/ClassTools.java:98-103 | `charAt(0)` fails exactly on an empty name; otherwise the name is kept when it does not start with `.`, or loses exactly that one `.` |
| ClassTools.DotStrippedPlain | src/main/java/org/nanoj/injector/tools/ClassTools.java:98-102 | a name starting with a non-empty package is kept; an empty package leaves the tail minus its leading `.` |
| Annotations.HasMarker | src/main/java/org/nanoj/injector/impl/AnnotationUtil.java:47-55 | true iff some annotation ends with the suffix |
| Annotations.CtorHasInject | src/main/java/org/nanoj/injector/impl/AnnotationUtil.java:47-55 | a constructor is marked iff one of its annotations is an `@Inject` |
| Annotations.FieldHasInject | src/main/java/org/nanoj/injector/impl/AnnotationUtil.java:62-70 | a field is marked iff one of its annotations is an `@Inject` |
| Annotations.SingletonBySimpleName | src/main/java/org/nanoj/injector/impl/AnnotationUtil.java:29-31 | `isSingleton` iff the name is qualified and its simple name is exactly `Singleton` (`x.MySingleton` is not) |
| Annotations.InjectBySimpleName | src/main/java/org/nanoj/injector/impl/AnnotationUtil.java:38-40 | `isInject` iff the name is qualified and its simple name is exactly `Inject` |
| Naming.ClassName | src/main/java/org/nanoj/injector/impl/InjectorImpl.java:304-314 | null iff the input is null; the result has no `.`; a dot-free trimmed name is returned whole |
| Naming.PackageName | src/main/java/org/nanoj/injector/impl/InjectorImpl.java:323-333 | null iff the input is null; "" for a dot-free trimmed name |
| Naming.SplitJoin | src/main/java/org/nanoj/injector/impl/InjectorImpl.java:304-333 | package, `.` and class name put the trimmed name back together |
| Naming.JoinSplit | src/main/java/org/nanoj/injector/impl/InjectorImpl.java:304-333 | splitting `pkg.Cls` gives back `pkg` and `Cls` |
| MonoPolicies.MonoByAnnotation | src/main/java/org/nanoj/injector/impl/InjectorImpl.java:457-471 | mono-instance iff some declared annotation satisfies `isSingleton` |
| MonoPolicies.FindDeclaredField | src/main/java/org/nanoj/injector/impl/InjectorImpl.java:397-404 | the first field with that name, or none iff no field has it |
| MonoPolicies.MonoByStaticField | src/main/java/org/nanoj/injector/impl/InjectorImpl.java:388-425 | true iff the named field is a public static `boolean` reading true; the escaping `NullPointerException` iff it is a public non-static `boolean`; false otherwise |
| MonoPolicies.MonoInstance | src/main/java/org/nanoj/injector/impl/InjectorImpl.java:214-221 | the default policy is the `@Singleton` test; only the static-field policy can throw |
| Configuration.DefineImplementationClass | src/main/java/org/nanoj/injector/InjectorConfiguration.java:66-81 | rejects a non-subtype, then an interface, then an abstract class, each error exactly in its case; a valid binding is stored and nothing else changes |
| Configuration.RedefineReplaces | src/main/java/org/nanoj/injector/InjectorConfiguration.java:80 | defining a type twice is the same as defining it once with the second implementation |
| Configuration.DefineImplementationConvention | src/main/java/org/nanoj/injector/InjectorConfiguration.java:98-100 | the pattern is appended and nothing else changes |
| Configuration.ConventionsInDefinitionOrder | src/main/java/org/nanoj/injector/InjectorConfiguration.java:98-108 | after defining a list of patterns the conventions are the old ones followed by that list |
| Configuration.DefineImplementationProvider | src/main/java/org/nanoj/injector/InjectorConfiguration.java:119-122 | stores any provider, null included, under the type; other types unchanged |
| Configuration.ProviderRedefined | src/main/java/org/nanoj/injector/InjectorConfiguration.java:119-122 | the later provider for a type replaces the earlier one |
| Configuration.DefineInterceptorProvider | src/main/java/org/nanoj/injector/InjectorConfiguration.java:136-142 | null is rejected; anything else is appended |
| Configuration.InterceptorProvidersInOrder | src/main/java/org/nanoj/injector/InjectorConfiguration.java:136-146 | registering a list succeeds iff none is null, and the providers are then returned in registration order |
| Configuration.GetInterceptorProviders | src/main/java/org/nanoj/injector/InjectorConfiguration.java:144-146 | never null, as many as registered, empty when none was |
| Definitions.LastDefault | src/main/java/org/nanoj/injector/impl/ComponentDefinition.java:246-255 | the last parameterless constructor, or -1 iff there is none |
| Definitions.ConstructorToBeUsed | src/main/java/org/nanoj/injector/impl/ComponentDefinition.java:229-279 | none is an error; a single one is used whatever its arity; among several the only marked one wins, two marked is an error, none marked needs a parameterless one |
| Definitions.FieldsToBeInjected | src/main/java/org/nanoj/injector/impl/ComponentDefinition.java:287-303 | null iff no field is marked; otherwise exactly the marked fields |
| Definitions.FieldsInDeclarationOrder | src/main/java/org/nanoj/injector/impl/ComponentDefinition.java:290-296 | the marked fields keep declaration order |
| Definitions.Init | src/main/java/org/nanoj/injector/impl/ComponentDefinition.java:112-138 | the definition holds the selected constructor, the fields to inject and the policy's mono flag; a constructor-selection error propagates, and otherwise a mono-policy error propagates |
| Definitions.WithImplementation | src/main/java/org/nanoj/injector/impl/ComponentDefinition.java:147-176 | an interface or abstract component without implementation is rejected; with one it is initialised from it |
| Definitions.WithProvider | src/main/java/org/nanoj/injector/impl/ComponentDefinition.java:178-192 | a null provider is rejected; otherwise the provider is the maker and the definition is not mono-instance |
| Definitions.ConcreteOnly | src/main/java/org/nanoj/injector/impl/ComponentDefinition.java:199-214 | interface or abstract is rejected; a concrete class is its own implementation |
| Definitions.ConcreteIgnoresImplementation | src/main/java/org/nanoj/injector/impl/ComponentDefinition.java:166-170 | a concrete component ignores the implementation it is given and uses itself |
| Interception.Invoke | src/main/java/org/nanoj/injector/tools/MethodInvoker.java:35-62 | a return passes through; an `Exception` from the target is rethrown as is; an `Error` or a reflection failure becomes an `InjectorException` wrapping it |
| Interception.NewHandler | src/main/java/org/nanoj/injector/dynaproxy/GenericInvocationHandler.java:55-62 | a null instance is rejected; the providers are kept as given, null included |
| Interception.CollectAppend | src/main/java/org/nanoj/injector/dynaproxy/GenericInvocationHandler.java:87-95 | the interceptors keep provider order |
| Interception.CollectMembers | src/main/java/org/nanoj/injector/dynaproxy/GenericInvocationHandler.java:87-95 | an interceptor is active iff some provider answers it for the method |
| Interception.ActiveInterceptors | src/main/java/org/nanoj/injector/dynaproxy/GenericInvocationHandler.java:81-101 | null iff there is no provider array or no provider answers; otherwise the non-empty collected list |
| Interception.GetActiveInterceptorsForMethod | src/main/java/org/nanoj/injector/dynaproxy/GenericInvocationHandler.java:81-101 | the loop over the providers computes the active list, and each entry is some provider's answer |
| Interception.Befores | src/main/java/org/nanoj/injector/dynaproxy/GenericInvocationHandler.java:109-117 | one `beforeCall` per interceptor, in order |
| Interception.Unwind | src/main/java/org/nanoj/injector/dynaproxy/GenericInvocationHandler.java:126-151 | one closing hook per interceptor, last interceptor first |
| Interception.HandleCall | src/main/java/org/nanoj/injector/dynaproxy/GenericInvocationHandler.java:153-196 | the outcome is the invoker's; with interceptors, the befores in order, the call, then the closing hooks in reverse; without, the call alone |
| Interception.InvokedOnce | src/main/java/org/nanoj/injector/dynaproxy/GenericInvocationHandler.java:157-189 | the target runs exactly once, after every `beforeCall` and before every closing hook |
| Interception.ClosingMatchesOutcome | src/main/java/org/nanoj/injector/dynaproxy/GenericInvocationHandler.java:173-189 | success runs only `afterCall` with the result; failure runs only `onError` with the very exception rethrown |
| Interception.Nesting | src/main/java/org/nanoj/injector/dynaproxy/GenericInvocationHandler.java:109-151 | the k-th hook from the start and the k-th from the end belong to the same interceptor |
| Interception.PassThrough | src/main/java/org/nanoj/injector/dynaproxy/GenericInvocationHandler.java:191-195 | with no active interceptor no hook runs and the outcome passes through |
| Container.CreateInjector | src/main/java/org/nanoj/injector/InjectorFactory.java:33-50 | the injector takes the configuration's bindings, a non-null provider array and the default policy |
| Container.CreateDefaultInjector | src/main/java/org/nanoj/injector/InjectorFactory.java:83-93 | the two default conventions in order, no binding, an empty provider array |
| Container.GetImplementationClass | src/main/java/org/nanoj/injector/impl/InjectorImpl.java:230-233 | the explicit binding iff one is stored |
| Container.GetProvider | src/main/java/org/nanoj/injector/impl/InjectorImpl.java:262-265 | the stored provider; a stored null reads as none |
| Container.ExplicitStep | src/main/java/org/nanoj/injector/impl/InjectorImpl.java:153-157 | a stored binding yields a definition of the requested component, mono-instance only when built from a class, or its error; without a binding there is no definition |
| Container.Candidates | src/main/java/org/nanoj/injector/impl/InjectorImpl.java:242-243 | one candidate name per pattern, in pattern order |
| Container.FirstLoadable | src/main/java/org/nanoj/injector/impl/InjectorImpl.java:240-260 | null iff every candidate misses; else the first loadable candidate's class, or the error of the first bad pattern, with all earlier candidates missing |
| Container.Choose | src/main/java/org/nanoj/injector/impl/InjectorImpl.java:153-182 | explicit errors abort; then a convention hit wins, then a provider, then the explicit binding; without any, unresolvable for interface or abstract, else self-implemented |
| Container.ThroughGetInstance | src/main/java/org/nanoj/injector/impl/InjectorImpl.java:142-188 | a successful request goes through the cached definition's `getInstance` after the request is logged and the definition cached |
| Container.GetComponentInstance | src/main/java/org/nanoj/injector/impl/InjectorImpl.java:139-191 | an unknown name fails without change; the request is logged before its nested ones; a built definition is cached under the name, whatever the creation does, while a definition that cannot be built fails with its error after only the request is logged; a success leaves a mono-instance slot holding the result, and every object handed out has an identity below the counter |
| Container.ResolveAll | src/main/java/org/nanoj/injector/impl/ComponentDefinition.java:483-489 | the names are requested in order at one depth, stopping at the first failure |
| Container.CreateBasicInstance | src/main/java/org/nanoj/injector/impl/ComponentDefinition.java:417-451 | a provider's definition yields exactly what its `get()` returns (null, an old object or a new one) and requests nothing; a class yields a new object after requesting its dependencies in order |
| Container.CreateFromClass | src/main/java/org/nanoj/injector/impl/ComponentDefinition.java:428-505 | constructor parameters first, then the object, then the inject fields; an abstract class fails after its parameters |
| Container.InjectInto | src/main/java/org/nanoj/injector/impl/ComponentDefinition.java:444-449 | one request per inject field, in order, into the constructed object |
| Container.CreateInstance | src/main/java/org/nanoj/injector/impl/ComponentDefinition.java:385-409 | proxied iff the component is an interface and the provider array is non-null; a null from a provider then fails; a class-made instance is new, a provider-made one is the object `get()` returned |
| Container.GetInstance | src/main/java/org/nanoj/injector/impl/ComponentDefinition.java:366-382 | a filled slot is returned with nothing changed; otherwise a new object for a class-based definition or the provider's object for a provider-based one, stored in the slot of a mono-instance definition |
| ContainerLaws.NoConventionFindsNothing | src/main/java/org/nanoj/injector/impl/InjectorImpl.java:240-260 | when every pattern names a missing class, the convention search yields null |
| ContainerLaws.FirstHitDecides | src/main/java/org/nanoj/injector/impl/InjectorImpl.java:240-260 | the search returns the class of the first candidate that loads when all earlier candidates miss |
| ContainerLaws.ConventionWins | src/main/java/org/nanoj/injector/impl/InjectorImpl.java:165-169 | the first loadable convention name decides over provider and explicit binding |
| ContainerLaws.ProviderBeatsExplicit | src/main/java/org/nanoj/injector/impl/InjectorImpl.java:159-163 | without a convention hit a provider decides over the explicit binding |
| ContainerLaws.ExplicitLast | src/main/java/org/nanoj/injector/impl/InjectorImpl.java:153-157 | the explicit binding decides only without convention hit and provider |
| ContainerLaws.ExplicitFailureAborts | src/main/java/org/nanoj/injector/impl/InjectorImpl.java:155-157 | an explicit binding whose definition fails aborts the lookup whatever follows |
| ContainerLaws.NoSource | src/main/java/org/nanoj/injector/impl/InjectorImpl.java:171-182 | with no source, interface or abstract is unresolvable and a concrete class implements itself |
| ContainerLaws.CacheHitIgnoresBindings | src/main/java/org/nanoj/injector/impl/InjectorImpl.java:142-148 | a filled slot is returned with only the log changed, whatever the bindings |
| ContainerLaws.SingletonLaw | src/main/java/org/nanoj/injector/impl/ComponentDefinition.java:368-375 | a second request for a mono-instance component returns the same instance and creates nothing |
| ContainerLaws.NotMonoCreates | src/main/java/org/nanoj/injector/impl/ComponentDefinition.java:377-381 | a successful request for a class-made component that is not mono-instance yields an object newer than the state it started from |
| ContainerLaws.FreshEachTime | src/main/java/org/nanoj/injector/impl/ComponentDefinition.java:377-381 | two such requests give distinct objects |
| ContainerLaws.ProviderResult | src/main/java/org/nanoj/injector/impl/ComponentDefinition.java:421-424 | a successful request for a provider-made component yields the object the provider's `get()` returns at that moment |
| ContainerLaws.SharedProvider | src/main/java/org/nanoj/injector/impl/ComponentDefinition.java:421-424 | a provider that always returns the same object makes two requests yield that same object: freshness holds for class-made components only |
| ContainerLaws.DependencyOrder | src/main/java/org/nanoj/injector/impl/ComponentDefinition.java:444-489 | the requests one level down are the constructor parameter types in order, then the inject field types in order |
| ContainerLaws.FactoryProxiesInterfaces | src/main/java/org/nanoj/injector/impl/ComponentDefinition.java:390-408 | in a factory-built injector an instance is a proxy iff its component is an interface |
| ContainerLaws.DefaultProxyPassesThrough | src/main/java/org/nanoj/injector/InjectorConfiguration.java:144-146 | the default injector's proxies run the target alone and pass its outcome through |

## Left out

- Java reflection (`getConstructors`, `getDeclaredFields`, `newInstance`, `Field.set`, `setAccessible`, `ClassLoader.loadClass`) is replaced by `ClassInfo` records and the `World` map; failures of `newInstance` other than instantiating an abstract class, of `Field.set` and of constructor bodies are not modelled.
- A class name that is not in the `World` fails at request time with `NoClassDefFound`. In Java the requested `Class` object exists already, and a missing parameter or field type fails earlier, during reflection.
- `java.lang.reflect.Proxy` creation is represented by the `Proxy` value holding its handler.
- Logging, `printAllComponents` and `toString` only produce output.
- Concurrency: the unsynchronised cache map and slot are modelled single-threaded.
- Unbounded recursion: a dependency cycle overflows the Java stack. Here the fuel bound turns it into `StackOverflow`, and so does any resolution deeper than the fuel given.
- The bodies of user providers and interceptors: a provider is known by what its `get()` returns as a function of how many objects the container has created so far (null, an object handed out before, or a new one), an interceptor provider by its answer to a query passed to each call. A `get()` that throws and hooks that throw are not modelled, and the query ignores the component instance `getInterceptor` is also given.
- `IllegalArgumentException` checks for null container, component class, implementation class, annotation class and field name, and a null convention pattern: the model's types have no null there.
- A null `getPackage()` is not modelled; the package name is a string, possibly empty.
- The "unexpected error" after the constructor-selection branches (ComponentDefinition.java:278) cannot be reached and has no counterpart.
- The injector shares the configuration's maps by reference; the model copies them when the injector is created.
- Primitive parameter and field types are resolved like any other class name.
- `AbstractInterceptorProvider`, `Interceptor` and `InterceptorProvider` have no logic of their own to model.
