/**
 * Marker annotations are recognised by the canonical name of their type:
 * whatever package an annotation comes from, it counts as `@Singleton` or
 * `@Inject` when its simple name is exactly that.
 */
module Annotations {
  import opened JavaStrings
  import opened Classes

  const SingletonSuffix: string := ".Singleton"
  const InjectSuffix: string := ".Inject"

  /** `isSingleton`: the canonical name ends with `.Singleton`. */
  predicate IsSingleton(annot: string) {
    EndsWith(annot, SingletonSuffix)
  }

  /** `isInject`: the canonical name ends with `.Inject`. */
  predicate IsInject(annot: string) {
    EndsWith(annot, InjectSuffix)
  }

  /**
   * The scan shared by `hasInjectAnnotation` and the default mono-instance
   * policy: does some annotation, in declaration order, end with `suffix`?
   */
  function HasMarker(annots: seq<string>, suffix: string): (r: bool)
    ensures r <==> exists i :: 0 <= i < |annots| && EndsWith(annots[i], suffix)
  {
    if annots == [] then false
    else if EndsWith(annots[0], suffix) then true
    else
      var r := HasMarker(annots[1..], suffix);
      assert forall i :: 1 <= i < |annots| ==> annots[i] == annots[1..][i - 1];
      r
  }

  /** `hasInjectAnnotation(Constructor)`: some declared annotation is an `@Inject`. */
  predicate CtorHasInject(k: Ctor)
    ensures CtorHasInject(k) <==> exists i :: 0 <= i < |k.annots| && IsInject(k.annots[i])
  {
    HasMarker(k.annots, InjectSuffix)
  }

  /** `hasInjectAnnotation(Field)`: some declared annotation is an `@Inject`. */
  predicate FieldHasInject(f: FieldInfo)
    ensures FieldHasInject(f) <==> exists i :: 0 <= i < |f.annots| && IsInject(f.annots[i])
  {
    HasMarker(f.annots, InjectSuffix)
  }

  /** The simple name of a canonical name: what follows its last `.`. */
  function SimpleName(canonical: string): string {
    canonical[LastIndexOf(canonical, '.') + 1..]
  }

  /**
   * Ending with `.N`, for a dot-free `N`, means having a package and the
   * simple name `N`: `x.MySingleton` does not end with `.Singleton`.
   */
  lemma EndsWithSimpleName(a: string, n: string)
    requires '.' !in n
    ensures EndsWith(a, "." + n) <==> '.' in a && SimpleName(a) == n
  {
    var i := LastIndexOf(a, '.');
    if EndsWith(a, "." + n) {
      var k := |a| - |n| - 1;
      assert a[k..] == "." + n;
      assert a[k] == '.';
      assert a[k + 1..] == n;
      assert forall j :: k < j < |a| ==> a[j] == a[k + 1..][j - k - 1];
      assert forall j :: i < j < |a| ==> a[j] == a[i + 1..][j - i - 1];
    }
    if '.' in a && SimpleName(a) == n {
      assert a[i..] == "." + n;
    }
  }

  /** `isSingleton` holds exactly of qualified names whose simple name is `Singleton`. */
  lemma SingletonBySimpleName(a: string)
    ensures IsSingleton(a) <==> '.' in a && SimpleName(a) == "Singleton"
  {
    assert SingletonSuffix == "." + "Singleton";
    EndsWithSimpleName(a, "Singleton");
  }

  /** `isInject` holds exactly of qualified names whose simple name is `Inject`. */
  lemma InjectBySimpleName(a: string)
    ensures IsInject(a) <==> '.' in a && SimpleName(a) == "Inject"
  {
    assert InjectSuffix == "." + "Inject";
    EndsWithSimpleName(a, "Inject");
  }
}
