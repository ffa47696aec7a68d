/**
 * The name-splitting helpers of the container: a fully qualified class name
 * is trimmed and split at its last `.` into a package name and a simple class
 * name. Java `null` is `None`.
 */
module Naming {
  import opened Errors
  import opened JavaStrings

  /** `getClassName`: what follows the last `.` of the trimmed name, or all of it. */
  function ClassName(fullName: Option<string>): (r: Option<string>)
    ensures fullName.None? <==> r.None?
    ensures r.Some? ==> '.' !in r.value
    ensures r.Some? && '.' !in Trim(fullName.value) ==> r.value == Trim(fullName.value)
  {
    match fullName
    case None => None
    case Some(n) =>
      var s := Trim(n);
      var i := LastIndexOf(s, '.');
      if i >= 0 then Some(s[i + 1..]) else Some(s)
  }

  /** `getPackageName`: what precedes the last `.` of the trimmed name, or "". */
  function PackageName(fullName: Option<string>): (r: Option<string>)
    ensures fullName.None? <==> r.None?
    ensures r.Some? && '.' !in Trim(fullName.value) ==> r.value == ""
  {
    match fullName
    case None => None
    case Some(n) =>
      var s := Trim(n);
      var i := LastIndexOf(s, '.');
      if i >= 0 then Some(s[..i]) else Some("")
  }

  /**
   * Splitting is lossless: when the trimmed name has a `.`, the package, a
   * `.` and the class name put it back together; otherwise the class name is
   * the whole trimmed name.
   */
  lemma SplitJoin(n: string)
    ensures var s := Trim(n);
            var pkg := PackageName(Some(n)).value;
            var cls := ClassName(Some(n)).value;
            ('.' in s ==> pkg + "." + cls == s) && ('.' !in s ==> pkg == "" && cls == s)
  {
    var s := Trim(n);
    var i := LastIndexOf(s, '.');
    if i >= 0 {
      assert s[..i] + "." + s[i + 1..] == s;
    }
  }

  /** Joining a package and a dot-free simple name and splitting again gives both back. */
  lemma JoinSplit(pkg: string, cls: string)
    requires '.' !in cls
    requires Trim(pkg + "." + cls) == pkg + "." + cls
    ensures PackageName(Some(pkg + "." + cls)) == Some(pkg)
    ensures ClassName(Some(pkg + "." + cls)) == Some(cls)
  {
    var s := pkg + "." + cls;
    assert s[|pkg|] == '.';
    assert s[..|pkg|] == pkg;
    assert s[|pkg| + 1..] == cls;
  }
}
