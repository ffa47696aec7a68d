/**
 * The mono-instance (singleton) policies of the container. The default one
 * looks for a `@Singleton` annotation from any package; the others are the
 * alternatives a container subclass can choose from: a given annotation type,
 * a marker interface, or a public static boolean field.
 */
module MonoPolicies {
  import opened Errors
  import opened Classes
  import opened Annotations

  datatype MonoPolicy =
    | BySingletonAnnotation
    | ByAnnotationType(annotation: string)
    | ByMarkerInterface(marker: ClassInfo)
    | ByBooleanStaticField(fieldName: string)

  /** `isMonoInstanceByAnnotation(c)`: some declared annotation satisfies `isSingleton`. */
  predicate MonoByAnnotation(c: ClassInfo)
    ensures MonoByAnnotation(c) <==> exists i :: 0 <= i < |c.annots| && IsSingleton(c.annots[i])
  {
    HasMarker(c.annots, SingletonSuffix)
  }

  /** `isMonoInstanceByAnnotation(c, annotationClass)`: that exact annotation type is declared on `c`. */
  predicate MonoByAnnotationType(c: ClassInfo, annotation: string) {
    annotation in c.annots
  }

  /** `isMonoInstanceByInterface`: `c` is the marker type or one of its subtypes. */
  predicate MonoByInterface(c: ClassInfo, marker: ClassInfo) {
    IsAssignableFrom(marker, c)
  }

  /** `getDeclaredField`: the field declared with that name, if any. */
  function FindDeclaredField(fields: seq<FieldInfo>, name: string): (r: Option<FieldInfo>)
    ensures r.None? <==> forall i :: 0 <= i < |fields| ==> fields[i].name != name
    ensures r.Some? ==> exists i :: 0 <= i < |fields| && fields[i] == r.value
                                    && r.value.name == name
                                    && forall j :: 0 <= j < i ==> fields[j].name != name
  {
    if fields == [] then None
    else if fields[0].name == name then Some(fields[0])
    else
      var r := FindDeclaredField(fields[1..], name);
      assert forall i :: 1 <= i < |fields| ==> fields[i] == fields[1..][i - 1];
      if r.Some? then
        var k :| 0 <= k < |fields[1..]| && fields[1..][k] == r.value && r.value.name == name
                 && forall j :: 0 <= j < k ==> fields[1..][j].name != name;
        assert fields[k + 1] == r.value;
        assert forall j :: 0 <= j < k + 1 ==> fields[j].name != name by {
          forall j | 0 <= j < k + 1
            ensures fields[j].name != name
          {
            if j > 0 {
              assert fields[j] == fields[1..][j - 1];
            }
          }
        }
        r
      else r
  }

  /**
   * `isMonoInstanceByBooleanStaticField`. A missing field, a field of another
   * type than `boolean` and an inaccessible field (`IllegalAccessException`)
   * all read as false. A public field that is not static makes
   * `Field.getBoolean(null)` throw a `NullPointerException`, which
   * `isMonoInstanceByBooleanStaticField` does not catch.
   */
  function MonoByStaticField(c: ClassInfo, fieldName: string): (r: Result<bool>)
    ensures r == Ok(true) <==>
              exists i :: 0 <= i < |c.fields| && FirstNamed(c.fields, fieldName, i)
                          && BooleanMarker(c.fields[i]) && c.fields[i].isStatic && c.fields[i].boolValue
    ensures r.Err? <==>
              exists i :: 0 <= i < |c.fields| && FirstNamed(c.fields, fieldName, i)
                          && BooleanMarker(c.fields[i]) && !c.fields[i].isStatic
    ensures r.Err? ==> r.error == NullPointer
  {
    match FindDeclaredField(c.fields, fieldName)
    case None => Ok(false)
    case Some(f) =>
      if f.typeName != "boolean" then Ok(false)
      else if !f.isPublic then Ok(false)
      else if !f.isStatic then Err(NullPointer)
      else Ok(f.boolValue)
  }

  /** Index `i` holds the first field of `fields` named `name`. */
  predicate FirstNamed(fields: seq<FieldInfo>, name: string, i: int)
    requires 0 <= i < |fields|
  {
    fields[i].name == name && forall j :: 0 <= j < i ==> fields[j].name != name
  }

  /** A field `Field.getBoolean` can read from the container: a public `boolean`. */
  predicate BooleanMarker(f: FieldInfo) {
    f.typeName == "boolean" && f.isPublic
  }

  /** The policy the container applies in `isMonoInstance`. */
  function MonoInstance(policy: MonoPolicy, c: ClassInfo): (r: Result<bool>)
    ensures policy.BySingletonAnnotation? ==> r == Ok(MonoByAnnotation(c))
    ensures r.Err? ==> policy.ByBooleanStaticField?
  {
    match policy
    case BySingletonAnnotation => Ok(MonoByAnnotation(c))
    case ByAnnotationType(a) => Ok(MonoByAnnotationType(c, a))
    case ByMarkerInterface(m) => Ok(MonoByInterface(c, m))
    case ByBooleanStaticField(n) => MonoByStaticField(c, n)
  }
}
