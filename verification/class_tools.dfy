/**
 * The naming-convention engine: substitution of `${package}`, `${package-N}`
 * and `${class}` into an implementation-name pattern, plus the two modifier
 * tests on class metadata.
 *
 * Every function is total. Where the Java code would throw an unchecked
 * exception (`charAt` past the end, `parseInt` of a bad digit string) the
 * model returns `Err`, and the predicates `LevelTokenOk` and `VarTokenOk`
 * state the conditions a pattern must meet for that not to happen.
 */
module ClassTools {
  import opened Errors
  import opened JavaStrings
  import opened Classes

  /** `isInterfaceOrAbstract`: an interface, or a class with the abstract modifier. */
  predicate IsInterfaceOrAbstract(c: ClassInfo) {
    c.isInterface || c.isAbstract
  }

  /** `isAbstract`: looks at the abstract modifier only. */
  predicate IsAbstract(c: ClassInfo) {
    c.isAbstract
  }

  const PackageToken: string := "${package}"
  const PackageLevelToken: string := "${package-"
  const PackagePrefix: string := "${package"
  const ClassToken: string := "${class}"

  /** `Integer.MAX_VALUE`: `parseInt` rejects anything larger. */
  const MaxInt: nat := 0x7fff_ffff

  //-----------------------------------------------------------------------------
  // replaceVar
  //-----------------------------------------------------------------------------

  /** Replaces the first occurrence of `name` in `s` by `value`. */
  function ReplaceVar(s: string, name: string, value: string): (r: string)
    ensures !Contains(s, name) ==> r == s
    ensures Contains(s, name) ==> |r| == |s| - |name| + |value|
  {
    var i := IndexOf(s, name);
    if i >= 0 then Splice(s, i, |name|, value) else s
  }

  /** `s` with the `n` characters at `i` replaced by `v`. */
  function Splice(s: string, i: nat, n: nat, v: string): (r: string)
    requires i + n <= |s|
    ensures |r| == |s| - n + |v|
  {
    s[..i] + v + s[i + n..]
  }

  /**
   * The first occurrence is the one replaced, and everything after it is kept
   * as is, including later occurrences of `name` in `b`.
   */
  lemma ReplaceFirstOccurrence(a: string, name: string, b: string, value: string)
    requires forall i: nat :: i < |a| ==> !OccursAt(a + name + b, name, i)
    ensures ReplaceVar(a + name + b, name, value) == a + value + b
  {
    var s := a + name + b;
    assert s[|a|..|a| + |name|] == name;
    IndexOfFirst(s, name, |a|);
    assert s[..|a|] == a;
    assert s[|a| + |name|..] == b;
  }

  /** No occurrence of `name` starts inside a prefix lacking `name[0]`. */
  lemma NoOccurrenceInPrefix(x: string, y: string, name: string)
    requires |name| > 0 && name[0] !in x
    ensures forall i: nat :: i < |x| ==> !OccursAt(x + y, name, i)
  {
    forall i: nat | i < |x|
      ensures !OccursAt(x + y, name, i)
    {
      if OccursAt(x + y, name, i) {
        OccursAtHead(x + y, name, i);
      }
    }
  }

  /** A prefix that cannot start an occurrence of `name` is left untouched. */
  lemma ReplaceVarSkipsPrefix(x: string, y: string, name: string, value: string)
    requires |name| > 0 && name[0] !in x
    ensures ReplaceVar(x + y, name, value) == x + ReplaceVar(y, name, value)
  {
    IndexOfSkipsPrefix(x, y, name);
    if Contains(y, name) {
      ReplaceShifted(x, y, name, value);
    }
  }

  lemma IndexOfSkipsPrefix(x: string, y: string, name: string)
    requires |name| > 0 && name[0] !in x
    ensures !Contains(y, name) ==> !Contains(x + y, name)
    ensures Contains(y, name) ==> IndexOf(x + y, name) == |x| + IndexOf(y, name)
  {
    NoOccurrenceInPrefix(x, y, name);
    IndexOfAppend(x, y, name);
  }

  lemma ReplaceShifted(x: string, y: string, name: string, value: string)
    requires IndexOf(y, name) >= 0 && IndexOf(x + y, name) == |x| + IndexOf(y, name)
    ensures ReplaceVar(x + y, name, value) == x + ReplaceVar(y, name, value)
  {
    SpliceAppend(x, y, IndexOf(y, name), |name|, value);
  }

  lemma SpliceAppend(x: string, y: string, k: nat, n: nat, v: string)
    requires k + n <= |y|
    ensures Splice(x + y, |x| + k, n, v) == x + Splice(y, k, n, v)
  {
    assert (x + y)[..|x| + k] == x + y[..k];
    assert (x + y)[|x| + k + n..] == y[k + n..];
  }

  //-----------------------------------------------------------------------------
  // cutLastLevel and the ${package-N} clamp
  //-----------------------------------------------------------------------------

  /** Number of `.` separators in a package name. */
  function DotCount(s: string): nat {
    if s == [] then 0
    else DotCount(s[..|s| - 1]) + (if s[|s| - 1] == '.' then 1 else 0)
  }

  lemma {:induction false} DotCountAppend(a: string, b: string)
    ensures DotCount(a + b) == DotCount(a) + DotCount(b)
    decreases |b|
  {
    if b != [] {
      assert (a + b)[..|a + b| - 1] == a + b[..|b| - 1];
      DotCountAppend(a, b[..|b| - 1]);
    } else {
      assert a + b == a;
    }
  }

  lemma {:induction false} DotCountZero(s: string)
    ensures DotCount(s) == 0 <==> '.' !in s
  {
    if s != [] {
      DotCountZero(s[..|s| - 1]);
      assert s == s[..|s| - 1] + [s[|s| - 1]];
    }
  }

  /**
   * `cutLastLevel`: the package name without its last segment, that is the
   * prefix before the last `.`; "" when there is no `.`.
   */
  function CutLastLevel(p: string): (r: string)
    ensures '.' !in p ==> r == ""
    ensures '.' in p ==> |r| < |p| && r == p[..|r|] && p[|r|] == '.' && '.' !in p[|r| + 1..]
  {
    var i := LastIndexOf(p, '.');
    if |p| > 0 && i >= 0 then p[..i] else ""
  }

  /** Cutting `a.b`, where `b` has no `.`, gives `a`. */
  lemma CutOneLevel(a: string, b: string)
    requires '.' !in b
    ensures CutLastLevel(a + "." + b) == a
  {
    var p := a + "." + b;
    assert p[|a|] == '.';
    assert p[..|a|] == a;
  }

  /** Cutting the last level removes exactly one separator. */
  lemma CutLastLevelDots(p: string)
    requires '.' in p
    ensures DotCount(CutLastLevel(p)) == DotCount(p) - 1
  {
    var r := CutLastLevel(p);
    var tail := p[|r| + 1..];
    assert p == r + "." + tail;
    DotCountAppend(r + ".", tail);
    DotCountAppend(r, ".");
    DotCountZero(tail);
    assert DotCount(".") == 1 by {
      assert "."[..0] == "";
    }
  }

  /** The `for` loop of `applyClassOnPattern`: `n` applications of `cutLastLevel`. */
  function CutLevels(p: string, n: nat): string
    decreases n
  {
    if n == 0 then p else CutLevels(CutLastLevel(p), n - 1)
  }

  /** Removing more levels than the package has clamps it to "" rather than failing. */
  lemma {:induction false} CutLevelsClamps(p: string, n: nat)
    requires n > DotCount(p)
    ensures CutLevels(p, n) == ""
    decreases n
  {
    if '.' in p {
      CutLastLevelDots(p);
      CutLevelsClamps(CutLastLevel(p), n - 1);
    } else if n > 1 {
      CutLevelsClamps("", n - 1);
    }
  }

  /** Removing at most as many levels as there are separators keeps a prefix with that many fewer. */
  lemma {:induction false} CutLevelsKeeps(p: string, n: nat)
    requires n <= DotCount(p)
    ensures CutLevels(p, n) <= p
    ensures DotCount(CutLevels(p, n)) == DotCount(p) - n
    decreases n
  {
    if n > 0 {
      DotCountZero(p);
      CutLastLevelDots(p);
      var q := CutLastLevel(p);
      CutLevelsKeeps(q, n - 1);
      assert q <= p;
    }
  }

  /** Whatever the count, the result is a prefix of the package name. */
  lemma CutLevelsPrefix(p: string, n: nat)
    ensures |CutLevels(p, n)| <= |p| && p[..|CutLevels(p, n)|] == CutLevels(p, n)
  {
    if n <= DotCount(p) {
      CutLevelsKeeps(p, n);
      assert CutLevels(p, n) <= p;
    } else {
      CutLevelsClamps(p, n);
    }
  }

  //-----------------------------------------------------------------------------
  // getPackageLevel
  //-----------------------------------------------------------------------------

  predicate IsDigit(c: char) {
    '0' <= c <= '9'
  }

  predicate AllDigits(s: string) {
    forall i :: 0 <= i < |s| ==> IsDigit(s[i])
  }

  /** Length of the run of decimal digits of `s` starting at `k`. */
  function DigitRun(s: string, k: nat): (n: nat)
    requires k <= |s|
    decreases |s| - k
    ensures k + n <= |s|
    ensures forall j :: k <= j < k + n ==> IsDigit(s[j])
    ensures k + n < |s| ==> !IsDigit(s[k + n])
  {
    if k == |s| || !IsDigit(s[k]) then 0 else 1 + DigitRun(s, k + 1)
  }

  /** Value of a decimal digit string. */
  function DecimalValue(ds: string): nat
    requires AllDigits(ds)
  {
    if ds == [] then 0
    else DecimalValue(ds[..|ds| - 1]) * 10 + (ds[|ds| - 1] as int - '0' as int)
  }

  /** `Integer.parseInt` on a string of decimal digits. */
  function ParseInt(ds: string): Result<nat>
    requires AllDigits(ds)
  {
    if |ds| == 0 || DecimalValue(ds) > MaxInt then Err(NumberFormat) else Ok(DecimalValue(ds))
  }

  /**
   * What the digit loop of `getPackageLevel` needs from index `start` on: a
   * non-empty run of digits whose value fits in an `int`, followed by at
   * least one more character.
   */
  predicate LevelDigitsOk(p: string, start: nat)
    requires start <= |p|
  {
    var n := DigitRun(p, start);
    0 < n && start + n < |p| && DecimalValue(p[start..start + n]) <= MaxInt
  }

  /** What `getPackageLevel` needs of a pattern: its first `${package-`, if any, is followed by good digits. */
  predicate LevelTokenOk(p: string) {
    var i := IndexOf(p, PackageLevelToken);
    i < 0 || LevelDigitsOk(p, i + |PackageLevelToken|)
  }

  /** The digit loop and `parseInt` of `getPackageLevel`, started at index `start`. */
  function LevelAt(p: string, start: nat): (r: Result<nat>)
    requires start <= |p|
    ensures r.Ok? <==> LevelDigitsOk(p, start)
    ensures r.Ok? ==> r.value <= MaxInt
    ensures r.Err? ==> (r.error == StringIndexOutOfBounds <==> start + DigitRun(p, start) == |p|)
    ensures r.Err? ==> r.error == StringIndexOutOfBounds || r.error == NumberFormat
  {
    var n := DigitRun(p, start);
    // the loop reads one character past the digits
    if start + n == |p| then Err(StringIndexOutOfBounds)
    else ParseInt(p[start..start + n])
  }

  /** `getPackageLevel`: the number N of the first `${package-N`, or 0 when there is none. */
  function PackageLevel(pattern: string): (r: Result<nat>)
    ensures !Contains(pattern, PackageLevelToken) ==> r == Ok(0)
    ensures r.Ok? <==> LevelTokenOk(pattern)
    ensures r.Err? ==> r.error == StringIndexOutOfBounds || r.error == NumberFormat
  {
    var i := IndexOf(pattern, PackageLevelToken);
    if i < 0 then Ok(0) else LevelAt(pattern, i + |PackageLevelToken|)
  }

  /** A maximal run of digits is the run `DigitRun` measures. */
  lemma {:induction false} DigitRunExact(s: string, k: nat, n: nat)
    requires k + n <= |s|
    requires forall j :: k <= j < k + n ==> IsDigit(s[j])
    requires k + n < |s| ==> !IsDigit(s[k + n])
    ensures DigitRun(s, k) == n
    decreases n
  {
    if n > 0 {
      DigitRunExact(s, k + 1, n - 1);
    }
  }

  /** The digits written at `start` are the level read, whatever follows them. */
  lemma LevelAtOf(p: string, start: nat, ds: string)
    requires OccursAt(p, ds, start)
    requires |ds| > 0 && AllDigits(ds) && DecimalValue(ds) <= MaxInt
    requires start + |ds| < |p| && !IsDigit(p[start + |ds|])
    ensures LevelAt(p, start) == Ok(DecimalValue(ds))
  {
    DigitsAt(p, start, ds);
    DigitRunExact(p, start, |ds|);
    LevelAtRun(p, start, ds);
  }

  lemma DigitsAt(p: string, start: nat, ds: string)
    requires OccursAt(p, ds, start) && AllDigits(ds)
    ensures forall j :: start <= j < start + |ds| ==> IsDigit(p[j])
  {
    forall j | start <= j < start + |ds|
      ensures IsDigit(p[j])
    {
      assert p[j] == p[start..start + |ds|][j - start];
    }
  }

  lemma LevelAtRun(p: string, start: nat, ds: string)
    requires start <= |p| && DigitRun(p, start) == |ds|
    requires p[start..start + |ds|] == ds && start + |ds| < |p|
    requires |ds| > 0 && AllDigits(ds) && DecimalValue(ds) <= MaxInt
    ensures LevelAt(p, start) == Ok(DecimalValue(ds))
  {
  }

  /** `getPackageLevel` reads the digits that follow its first `${package-`. */
  lemma PackageLevelAt(p: string, ds: string)
    requires |ds| > 0 && AllDigits(ds) && DecimalValue(ds) <= MaxInt
    requires var start := IndexOf(p, PackageLevelToken) + |PackageLevelToken|;
             IndexOf(p, PackageLevelToken) >= 0 && OccursAt(p, ds, start)
             && start + |ds| < |p| && !IsDigit(p[start + |ds|])
    ensures PackageLevel(p) == Ok(DecimalValue(ds))
  {
    var start := IndexOf(p, PackageLevelToken) + |PackageLevelToken|;
    assert PackageLevel(p) == LevelAt(p, start);
    LevelAtOf(p, start, ds);
  }

  //-----------------------------------------------------------------------------
  // getPackageVar
  //-----------------------------------------------------------------------------

  /** What `getPackageVar` needs of a pattern containing `${package`: a `}` after its first occurrence. */
  predicate VarTokenOk(p: string) {
    var i := IndexOf(p, PackagePrefix);
    i < 0 || '}' in p[i..]
  }

  /** Where the `}` search of `getPackageVar` stops. */
  lemma TokenEnd(p: string, i: nat)
    requires i <= |p|
    ensures var j := IndexOfFrom(p, "}", i);
            (j < 0 <==> '}' !in p[i..])
            && (j >= 0 ==> i <= j < |p| && p[j] == '}' && '}' !in p[i..j])
  {
    assert "}" == ['}'];
    IndexOfChar(p, '}', i);
  }

  /** A whole `${package...}` token: the prefix, then anything but `}`, then the closing `}`. */
  predicate IsVarToken(v: string) {
    && |PackagePrefix| < |v| && v[..|PackagePrefix|] == PackagePrefix
    && v[|v| - 1] == '}' && '}' !in v[..|v| - 1]
  }

  lemma PackageVarShape(p: string, i: nat, j: nat)
    requires OccursAt(p, PackagePrefix, i)
    requires i <= j < |p| && p[j] == '}' && '}' !in p[i..j]
    ensures IsVarToken(p[i..j + 1]) && OccursAt(p, p[i..j + 1], i)
  {
    assert p[i..i + |PackagePrefix|] == PackagePrefix;
    var v := p[i..j + 1];
    assert v[..|v| - 1] == p[i..j];
    assert v[..|PackagePrefix|] == PackagePrefix;
  }

  /**
   * `getPackageVar`: the text from the first `${package` through the next `}`
   * inclusive, inner spaces and all; `None` (Java `null`) when there is no
   * `${package`.
   */
  function PackageVar(pattern: string): (r: Result<Option<string>>)
    ensures !Contains(pattern, PackagePrefix) ==> r == Ok(None)
    ensures Contains(pattern, PackagePrefix) && r.Ok? ==> r.value.Some?
    ensures r.Ok? <==> VarTokenOk(pattern)
    ensures r.Err? ==> r.error == StringIndexOutOfBounds
    ensures r.Ok? && r.value.Some? ==>
              IsVarToken(r.value.value) && OccursAt(pattern, r.value.value, IndexOf(pattern, PackagePrefix))
  {
    var i := IndexOf(pattern, PackagePrefix);
    if i < 0 then Ok(None)
    else
      var j := IndexOfFrom(pattern, "}", i);
      if j < 0 then
        TokenEnd(pattern, i);
        Err(StringIndexOutOfBounds)
      else
        TokenEnd(pattern, i);
        PackageVarShape(pattern, i, j);
        Ok(Some(pattern[i..j + 1]))
  }

  /** `getPackageVar` on a pattern that starts with a whole token returns that token. */
  lemma PackageVarOfToken(tok: string, rest: string)
    requires IsVarToken(tok)
    ensures PackageVar(tok + rest) == Ok(Some(tok))
  {
    var p := tok + rest;
    assert p[0..|PackagePrefix|] == PackagePrefix;
    IndexOfFirst(p, PackagePrefix, 0);
    IndexOfChar(p, '}', 0);
    var j := IndexOfFrom(p, "}", 0);
    assert p[0..|tok| - 1] == tok[..|tok| - 1];
    assert p[|tok| - 1] == '}';
    assert p[0..j + 1] == tok;
  }

  /** `getPackageVar` finds a whole token that follows text without `$`. */
  lemma PackageVarAfter(x: string, tok: string, rest: string)
    requires IsVarToken(tok) && '$' !in x
    ensures PackageVar(x + tok + rest) == Ok(Some(tok))
  {
    var q := tok + rest;
    var p := x + q;
    Regroup(x, tok, rest);
    assert q[0..|PackagePrefix|] == PackagePrefix;
    IndexOfFirst(q, PackagePrefix, 0);
    IndexOfSkipsPrefix(x, q, PackagePrefix);
    var e := |x| + |tok| - 1;
    assert p[e] == '}';
    assert p[|x|..][e - |x|] == '}';
    IndexOfChar(p, '}', |x|);
    var j := IndexOfFrom(p, "}", |x|);
    assert "}" == ['}'];
    assert p[|x|..j + 1] == tok;
  }

  //-----------------------------------------------------------------------------
  // applyClassOnPattern
  //-----------------------------------------------------------------------------

  /**
   * The pattern after substitution and before the leading-dot check.
   * `${package}` is looked for first; only when it is absent is a
   * `${package-N}` form substituted, then the first `${class}`.
   */
  function Substitute(pkg: string, simple: string, pattern: string): (r: Result<string>)
    ensures r.Err? <==> !Contains(pattern, PackageToken) && Contains(pattern, PackageLevelToken)
                        && !(LevelTokenOk(pattern) && VarTokenOk(pattern))
  {
    var s1 :-
      if Contains(pattern, PackageToken) then
        Ok(ReplaceVar(pattern, PackageToken, pkg))
      else if Contains(pattern, PackageLevelToken) then
        var n :- PackageLevel(pattern);
        var v :- PackageVar(pattern);
        var cut := CutLevels(pkg, n);
        Ok(if v.Some? then ReplaceVar(pattern, v.value, cut) else pattern)
      else
        Ok(pattern);
    Ok(ReplaceVar(s1, ClassToken, simple))
  }

  /**
   * The leading-dot check of `applyClassOnPattern`, on a substituted name:
   * `charAt(0)` fails on an empty name, and exactly one leading `.` is
   * stripped.
   */
  function DotStripped(s2: string): (r: Result<string>)
    ensures r.Err? <==> s2 == ""
    ensures r.Err? ==> r.error == StringIndexOutOfBounds
    ensures r.Ok? ==> (s2[0] != '.' && r.value == s2) || s2 == "." + r.value
  {
    if s2 == "" then Err(StringIndexOutOfBounds)
    else if s2[0] == '.' then Ok(s2[1..])
    else Ok(s2)
  }

  /** `applyClassOnPattern`: the candidate implementation name for class `c`. */
  function ApplyClassOnPattern(c: ClassInfo, pattern: string): (r: Result<string>)
    ensures var s2 := Substitute(c.pkg, c.simpleName, pattern);
            r.Err? <==> s2.Err? || s2.value == ""
    ensures var s2 := Substitute(c.pkg, c.simpleName, pattern);
            r.Ok? ==> (s2.value[0] != '.' && r.value == s2.value) || s2.value == "." + r.value
  {
    var s2 :- Substitute(c.pkg, c.simpleName, pattern);
    DotStripped(s2)
  }

  /** A pattern that starts with `${package}` gets the full package name there. */
  lemma PackageForm(c: ClassInfo, rest: string)
    requires '$' !in c.pkg
    ensures ApplyClassOnPattern(c, PackageToken + rest)
            == DotStripped(c.pkg + ReplaceVar(rest, ClassToken, c.simpleName))
  {
    var p := PackageToken + rest;
    assert p[0..|PackageToken|] == PackageToken;
    IndexOfFirst(p, PackageToken, 0);
    ReplaceLeading(PackageToken, rest, c.pkg);
    ReplaceVarSkipsPrefix(c.pkg, rest, ClassToken, c.simpleName);
    ApplyViaSubstitute(c, p, c.pkg + ReplaceVar(rest, ClassToken, c.simpleName));
  }

  /** The shape of a `${package-N...}` token: where its `$`, digits and braces are. */
  lemma LevelTokenShape(ds: string, mid: string)
    requires AllDigits(ds)
    requires '}' !in mid && '$' !in mid
    ensures var tok := PackageLevelToken + ds + mid + "}";
            && tok[..|PackageLevelToken|] == PackageLevelToken
            && tok[..|PackagePrefix|] == PackagePrefix
            && tok[|PackageLevelToken|..|PackageLevelToken| + |ds|] == ds
            && '$' !in tok[1..]
            && '}' !in tok[..|tok| - 1] && tok[|tok| - 1] == '}'
  {
    var tok := PackageLevelToken + ds + mid + "}";
    assert tok[1..] == PackageLevelToken[1..] + ds + mid + "}";
    assert tok[..|tok| - 1] == PackageLevelToken + ds + mid;
    assert '$' !in ds && '}' !in ds;
  }

  /** A pattern whose `${package-N...}` token comes first has no `${package}` when its rest has none. */
  lemma NoPlainPackageToken(tok: string, rest: string)
    requires |PackagePrefix| < |tok| && tok[..|PackagePrefix|] == PackagePrefix
    requires tok[|PackagePrefix|] == '-' && '$' !in tok[1..]
    requires !Contains(rest, PackageToken)
    ensures !Contains(tok + rest, PackageToken)
  {
    var p := tok + rest;
    forall i: nat | i < |tok|
      ensures !OccursAt(p, PackageToken, i)
    {
      if i == 0 {
        assert p[|PackagePrefix|] == '-';
        if OccursAt(p, PackageToken, i) {
          assert false;
        }
      } else {
        assert p[i] == tok[1..][i - 1];
        if OccursAt(p, PackageToken, i) {
          OccursAtHead(p, PackageToken, i);
          assert false;
        }
      }
    }
    IndexOfAppend(tok, rest, PackageToken);
  }

  lemma LevelTokenFirst(tok: string, rest: string)
    requires |PackageLevelToken| <= |tok| && tok[..|PackageLevelToken|] == PackageLevelToken
    ensures IndexOf(tok + rest, PackageLevelToken) == 0
  {
    assert (tok + rest)[0..|PackageLevelToken|] == PackageLevelToken;
    IndexOfFirst(tok + rest, PackageLevelToken, 0);
  }

  lemma LevelDigitsFollow(ds: string, mid: string, rest: string)
    requires mid == "" || !IsDigit(mid[0])
    ensures var p := PackageLevelToken + ds + mid + "}" + rest;
            OccursAt(p, ds, |PackageLevelToken|) && |PackageLevelToken| + |ds| < |p|
            && !IsDigit(p[|PackageLevelToken| + |ds|])
  {
    var p := PackageLevelToken + ds + (mid + "}" + rest);
    assert p == PackageLevelToken + ds + mid + "}" + rest;
    assert p[|PackageLevelToken|..|PackageLevelToken| + |ds|] == ds;
    assert p[|PackageLevelToken| + |ds|] == (mid + "}" + rest)[0];
  }

  /** `getPackageLevel` on a pattern `p` that starts with a `${package-N...}` token `tok`. */
  lemma LevelPatternLevel(ds: string, mid: string, rest: string, tok: string, p: string)
    requires |ds| > 0 && AllDigits(ds) && DecimalValue(ds) <= MaxInt
    requires '}' !in mid && '$' !in mid && (mid == "" || !IsDigit(mid[0]))
    requires !Contains(rest, PackageToken)
    requires tok == PackageLevelToken + ds + mid + "}" && p == tok + rest
    ensures !Contains(p, PackageToken) && Contains(p, PackageLevelToken)
    ensures PackageLevel(p) == Ok(DecimalValue(ds))
  {
    LevelTokenShape(ds, mid);
    assert tok[|PackagePrefix|] == '-';
    NoPlainPackageToken(tok, rest);
    LevelTokenFirst(tok, rest);
    LevelDigitsFollow(ds, mid, rest);
    assert p == PackageLevelToken + ds + mid + "}" + rest;
    PackageLevelAt(p, ds);
  }

  /** `getPackageVar` on a pattern `p` that starts with a `${package-N...}` token `tok`. */
  lemma LevelPatternVar(ds: string, mid: string, rest: string, tok: string, p: string)
    requires AllDigits(ds) && '}' !in mid && '$' !in mid
    requires tok == PackageLevelToken + ds + mid + "}" && p == tok + rest
    ensures PackageVar(p) == Ok(Some(tok))
  {
    LevelTokenShape(ds, mid);
    PackageVarOfToken(tok, rest);
  }

  /** The `${package-N}` branch of `applyClassOnPattern`, once N and the variable are known. */
  lemma SubstituteLevel(pkg: string, simple: string, p: string, n: nat, v: string)
    requires !Contains(p, PackageToken) && Contains(p, PackageLevelToken)
    requires PackageLevel(p) == Ok(n) && PackageVar(p) == Ok(Some(v))
    ensures Substitute(pkg, simple, p) == Ok(ReplaceVar(ReplaceVar(p, v, CutLevels(pkg, n)), ClassToken, simple))
  {
  }

  /** A prefix of a package name has no `$` when the name has none. */
  lemma NoDollarInCut(pkg: string, n: nat)
    requires '$' !in pkg
    ensures '$' !in CutLevels(pkg, n)
  {
    CutLevelsPrefix(pkg, n);
  }

  /** `applyClassOnPattern` is the leading-dot check applied to the substituted pattern. */
  lemma ApplyViaSubstitute(c: ClassInfo, p: string, s2: string)
    requires Substitute(c.pkg, c.simpleName, p) == Ok(s2)
    ensures ApplyClassOnPattern(c, p) == DotStripped(s2)
  {
  }

  /** Replacing a leading token. */
  lemma ReplaceLeading(tok: string, rest: string, v: string)
    ensures ReplaceVar(tok + rest, tok, v) == v + rest
  {
    ReplaceFirstOccurrence("", tok, rest, v);
    assert "" + tok + rest == tok + rest;
    assert "" + v + rest == v + rest;
  }

  /** Applying a pattern whose leading `${package-N...}` token `tok` has been read as level `n`. */
  lemma ApplyLevelToken(c: ClassInfo, p: string, tok: string, rest: string, n: nat)
    requires p == tok + rest
    requires !Contains(p, PackageToken) && Contains(p, PackageLevelToken)
    requires PackageLevel(p) == Ok(n) && PackageVar(p) == Ok(Some(tok))
    requires '$' !in c.pkg
    ensures ApplyClassOnPattern(c, p)
            == DotStripped(CutLevels(c.pkg, n) + ReplaceVar(rest, ClassToken, c.simpleName))
  {
    var cut := CutLevels(c.pkg, n);
    SubstituteLevel(c.pkg, c.simpleName, p, n, tok);
    ReplaceLeading(tok, rest, cut);
    NoDollarInCut(c.pkg, n);
    ReplaceVarSkipsPrefix(cut, rest, ClassToken, c.simpleName);
    ApplyViaSubstitute(c, p, cut + ReplaceVar(rest, ClassToken, c.simpleName));
  }

  /**
   * A pattern that starts with `${package-N}` (any text without `}` or `$`
   * and not starting with a digit may sit between N and the brace) gets the
   * package name without its N last levels there.
   */
  lemma PackageLevelForm(c: ClassInfo, ds: string, mid: string, rest: string)
    requires |ds| > 0 && AllDigits(ds) && DecimalValue(ds) <= MaxInt
    requires '}' !in mid && '$' !in mid && (mid == "" || !IsDigit(mid[0]))
    requires !Contains(rest, PackageToken)
    requires '$' !in c.pkg
    ensures ApplyClassOnPattern(c, PackageLevelToken + ds + mid + "}" + rest)
            == DotStripped(CutLevels(c.pkg, DecimalValue(ds)) + ReplaceVar(rest, ClassToken, c.simpleName))
  {
    var tok := PackageLevelToken + ds + mid + "}";
    var p := tok + rest;
    LevelPatternLevel(ds, mid, rest, tok, p);
    LevelPatternVar(ds, mid, rest, tok, p);
    ApplyLevelToken(c, p, tok, rest, DecimalValue(ds));
  }

  /**
   * Text without `$` ahead of `${package}` is kept, and the token after it
   * gets the full package name.
   */
  lemma PackageAfter(c: ClassInfo, pre: string, rest: string)
    requires '$' !in pre && '$' !in c.pkg
    ensures ApplyClassOnPattern(c, pre + PackageToken + rest)
            == DotStripped(pre + c.pkg + ReplaceVar(rest, ClassToken, c.simpleName))
  {
    var q := PackageToken + rest;
    var p := pre + q;
    assert p == pre + PackageToken + rest;
    assert q[0..|PackageToken|] == PackageToken;
    IndexOfFirst(q, PackageToken, 0);
    IndexOfSkipsPrefix(pre, q, PackageToken);
    NoOccurrenceInPrefix(pre, q, PackageToken);
    ReplaceFirstOccurrence(pre, PackageToken, rest, c.pkg);
    ReplaceVarSkipsPrefix(pre + c.pkg, rest, ClassToken, c.simpleName);
    ApplyViaSubstitute(c, p, pre + c.pkg + ReplaceVar(rest, ClassToken, c.simpleName));
  }

  /** `getPackageLevel` reads the same level when text without `$` is put in front. */
  lemma LevelAfter(pre: string, q: string, ds: string)
    requires |ds| > 0 && AllDigits(ds) && DecimalValue(ds) <= MaxInt && '$' !in pre
    requires IndexOf(q, PackageLevelToken) == 0 && OccursAt(q, ds, |PackageLevelToken|)
    requires |PackageLevelToken| + |ds| < |q| && !IsDigit(q[|PackageLevelToken| + |ds|])
    ensures Contains(pre + q, PackageLevelToken) && PackageLevel(pre + q) == Ok(DecimalValue(ds))
  {
    var p := pre + q;
    var k := |PackageLevelToken|;
    IndexOfSkipsPrefix(pre, q, PackageLevelToken);
    assert IndexOf(p, PackageLevelToken) + k == |pre| + k;
    OccursShift(pre, q, ds, k);
    assert p[|pre| + k + |ds|] == q[k + |ds|];
    PackageLevelAt(p, ds);
  }

  /** `getPackageLevel` and `getPackageVar` on a `${package-N...}` token that follows text without `$`. */
  lemma LevelTokenAfter(pre: string, ds: string, mid: string, rest: string, tok: string)
    requires |ds| > 0 && AllDigits(ds) && DecimalValue(ds) <= MaxInt
    requires '}' !in mid && '$' !in mid && (mid == "" || !IsDigit(mid[0]))
    requires !Contains(rest, PackageToken) && '$' !in pre
    requires tok == PackageLevelToken + ds + mid + "}"
    ensures !Contains(pre + tok + rest, PackageToken) && Contains(pre + tok + rest, PackageLevelToken)
    ensures PackageLevel(pre + tok + rest) == Ok(DecimalValue(ds))
    ensures PackageVar(pre + tok + rest) == Ok(Some(tok))
  {
    var q := tok + rest;
    Regroup(pre, tok, rest);
    LevelTokenFacts(ds, mid, rest, tok);
    IndexOfSkipsPrefix(pre, q, PackageToken);
    LevelAfter(pre, q, ds);
    PackageVarAfter(pre, tok, rest);
  }

  /** What reading a pattern that starts with a `${package-N...}` token relies on. */
  lemma LevelTokenFacts(ds: string, mid: string, rest: string, tok: string)
    requires AllDigits(ds) && '}' !in mid && '$' !in mid && (mid == "" || !IsDigit(mid[0]))
    requires !Contains(rest, PackageToken)
    requires tok == PackageLevelToken + ds + mid + "}"
    ensures IsVarToken(tok) && !Contains(tok + rest, PackageToken)
    ensures IndexOf(tok + rest, PackageLevelToken) == 0 && OccursAt(tok + rest, ds, |PackageLevelToken|)
    ensures |PackageLevelToken| + |ds| < |tok + rest| && !IsDigit((tok + rest)[|PackageLevelToken| + |ds|])
  {
    LevelTokenShape(ds, mid);
    assert tok[|PackagePrefix|] == '-';
    NoPlainPackageToken(tok, rest);
    LevelTokenFirst(tok, rest);
    LevelDigitsFollow(ds, mid, rest);
  }

  /** Replacing a `$`-led token that follows text without `$`, then the first `${class}`. */
  lemma ReplaceTokenAfter(pre: string, tok: string, rest: string, v: string, simple: string)
    requires |tok| > 0 && tok[0] == '$' && '$' !in pre && '$' !in v
    ensures ReplaceVar(ReplaceVar(pre + tok + rest, tok, v), ClassToken, simple)
            == pre + v + ReplaceVar(rest, ClassToken, simple)
  {
    NoOccurrenceInPrefix(pre, tok + rest, tok);
    assert pre + (tok + rest) == pre + tok + rest;
    ReplaceFirstOccurrence(pre, tok, rest, v);
    ReplaceVarSkipsPrefix(pre + v, rest, ClassToken, simple);
  }

  /**
   * Text without `$` ahead of a `${package-N...}` token is kept, and the
   * token gets the package name without its N last levels.
   */
  lemma PackageLevelAfter(c: ClassInfo, pre: string, ds: string, mid: string, rest: string)
    requires |ds| > 0 && AllDigits(ds) && DecimalValue(ds) <= MaxInt
    requires '}' !in mid && '$' !in mid && (mid == "" || !IsDigit(mid[0]))
    requires !Contains(rest, PackageToken)
    requires '$' !in pre && '$' !in c.pkg
    ensures ApplyClassOnPattern(c, pre + PackageLevelToken + ds + mid + "}" + rest)
            == DotStripped(pre + CutLevels(c.pkg, DecimalValue(ds)) + ReplaceVar(rest, ClassToken, c.simpleName))
  {
    var tok := PackageLevelToken + ds + mid + "}";
    TokenAfterText(pre, ds, mid);
    LevelTokenAfter(pre, ds, mid, rest, tok);
    ApplyTokenAfter(c, pre, tok, rest, DecimalValue(ds));
  }

  /** Regrouping text ahead of a `${package-N...}` token. */
  lemma TokenAfterText(pre: string, ds: string, mid: string)
    ensures pre + (PackageLevelToken + ds + mid + "}") == pre + PackageLevelToken + ds + mid + "}"
  {
    assert pre + (PackageLevelToken + ds + mid) == pre + PackageLevelToken + ds + mid;
  }

  /** Applying a pattern whose `${package-N...}` token `tok`, read as level `n`, follows text without `$`. */
  lemma ApplyTokenAfter(c: ClassInfo, pre: string, tok: string, rest: string, n: nat)
    requires |tok| > 0 && tok[0] == '$' && '$' !in pre && '$' !in c.pkg
    requires !Contains(pre + tok + rest, PackageToken) && Contains(pre + tok + rest, PackageLevelToken)
    requires PackageLevel(pre + tok + rest) == Ok(n) && PackageVar(pre + tok + rest) == Ok(Some(tok))
    ensures ApplyClassOnPattern(c, pre + tok + rest)
            == DotStripped(pre + CutLevels(c.pkg, n) + ReplaceVar(rest, ClassToken, c.simpleName))
  {
    var p := pre + tok + rest;
    var cut := CutLevels(c.pkg, n);
    SubstituteLevel(c.pkg, c.simpleName, p, n, tok);
    NoDollarInCut(c.pkg, n);
    ReplaceTokenAfter(pre, tok, rest, cut, c.simpleName);
    ApplyViaSubstitute(c, p, pre + cut + ReplaceVar(rest, ClassToken, c.simpleName));
  }

  /** A pattern containing a longer token contains each of its prefixes. */
  lemma ContainsPrefixOf(p: string, t: string, u: string)
    requires |t| <= |u| && u[..|t|] == t && Contains(p, u)
    ensures Contains(p, t)
  {
    var i := IndexOf(p, u);
    assert p[i..i + |t|] == p[i..i + |u|][..|t|];
    assert OccursAt(p, t, i);
  }

  /** A pattern with no `${package` only has its first `${class}` replaced. */
  lemma NoPackageForm(c: ClassInfo, p: string)
    requires !Contains(p, PackagePrefix)
    ensures ApplyClassOnPattern(c, p) == DotStripped(ReplaceVar(p, ClassToken, c.simpleName))
  {
    if Contains(p, PackageToken) {
      ContainsPrefixOf(p, PackagePrefix, PackageToken);
    }
    if Contains(p, PackageLevelToken) {
      ContainsPrefixOf(p, PackagePrefix, PackageLevelToken);
    }
    ApplyViaSubstitute(c, p, ReplaceVar(p, ClassToken, c.simpleName));
  }

  /** `${class}` followed by a suffix becomes the simple name followed by that suffix. */
  lemma ClassThenSuffix(pre: string, simple: string, suffix: string)
    requires '$' !in pre
    ensures ReplaceVar(pre + ClassToken + suffix, ClassToken, simple) == pre + simple + suffix
  {
    assert pre + ClassToken + suffix == pre + (ClassToken + suffix);
    ReplaceVarSkipsPrefix(pre, ClassToken + suffix, ClassToken, simple);
    ReplaceLeading(ClassToken, suffix, simple);
  }

  /** `${package}<mid>${class}<suffix>`: the package, `mid`, the simple name and `suffix`. */
  lemma PackageThenClass(c: ClassInfo, mid: string, suffix: string)
    requires '$' !in c.pkg && '$' !in mid
    ensures ApplyClassOnPattern(c, PackageToken + mid + ClassToken + suffix)
            == DotStripped(c.pkg + mid + c.simpleName + suffix)
  {
    var rest := mid + ClassToken + suffix;
    Regroup(PackageToken, mid, ClassToken);
    Regroup(PackageToken, mid + ClassToken, suffix);
    PackageForm(c, rest);
    ClassThenSuffix(mid, c.simpleName, suffix);
    Regroup(c.pkg, mid, c.simpleName);
    Regroup(c.pkg, mid + c.simpleName, suffix);
  }

  /** The two conventions a factory-built injector starts with. */
  const FirstConvention: string := PackageToken + "." + ClassToken + "Impl"
  const SecondConvention: string := PackageToken + ".impl." + ClassToken + "Impl"
  const DefaultConventions: seq<string> := [FirstConvention, SecondConvention]

  /** What a Java package name looks like, as far as the patterns are concerned. */
  predicate PlainPackage(pkg: string) {
    '$' !in pkg && (pkg == "" || pkg[0] != '.')
  }

  /** The leading-dot check keeps a name that starts with a plain package. */
  lemma DotStrippedPlain(pkg: string, tail: string)
    requires PlainPackage(pkg) && |tail| > 0 && tail[0] == '.'
    ensures pkg != "" ==> DotStripped(pkg + tail) == Ok(pkg + tail)
    ensures pkg == "" ==> DotStripped(pkg + tail) == Ok(tail[1..])
  {
    if pkg != "" {
      assert (pkg + tail)[0] == pkg[0];
    } else {
      assert pkg + tail == tail;
    }
  }

  /**
   * A `${package}<mid>${class}Impl` convention, with `mid` starting with a
   * `.` (both default conventions have this form, with `mid` equal to `.` and
   * `.impl.`): it names `<package><mid><Simple>Impl`, and in the unnamed
   * package the leading `.` is dropped.
   */
  lemma ConventionName(c: ClassInfo, mid: string)
    requires PlainPackage(c.pkg) && '$' !in mid && |mid| > 0 && mid[0] == '.'
    ensures ApplyClassOnPattern(c, PackageToken + mid + ClassToken + "Impl")
            == Ok(if c.pkg == "" then mid[1..] + c.simpleName + "Impl" else c.pkg + mid + c.simpleName + "Impl")
  {
    PackageThenClass(c, mid, "Impl");
    ImplName(c.pkg, mid, c.simpleName);
  }

  /** The leading-dot check on `<package><mid><Simple>Impl`, for a `mid` starting with `.`. */
  lemma ImplName(pkg: string, mid: string, x: string)
    requires PlainPackage(pkg) && |mid| > 0 && mid[0] == '.'
    ensures DotStripped(pkg + mid + x + "Impl") == Ok(if pkg == "" then mid[1..] + x + "Impl" else pkg + mid + x + "Impl")
  {
    var t := mid + (x + "Impl");
    assert pkg + mid + x + "Impl" == pkg + t;
    assert t[0] == '.';
    DotStrippedPlain(pkg, t);
    if pkg == "" {
      DropFirst(mid, x + "Impl");
      assert mid[1..] + x + "Impl" == mid[1..] + (x + "Impl");
    } else {
      assert mid + x + "Impl" == t;
    }
  }

  /** Dropping the first character of a concatenation drops it from the left part. */
  lemma DropFirst(a: string, b: string)
    requires |a| > 0
    ensures (a + b)[1..] == a[1..] + b
  {
    assert forall i :: 0 <= i < |a| + |b| - 1 ==> (a + b)[1..][i] == (a[1..] + b)[i];
  }

  /**
   * Asking for more levels than the package has leaves nothing of it: the
   * pattern's rest, after `${class}` substitution and the leading-dot check,
   * is the whole name.
   */
  lemma LevelClampForm(c: ClassInfo, ds: string, mid: string, rest: string)
    requires |ds| > 0 && AllDigits(ds) && DecimalValue(ds) <= MaxInt
    requires '}' !in mid && '$' !in mid && (mid == "" || !IsDigit(mid[0]))
    requires DecimalValue(ds) > DotCount(c.pkg)
    requires !Contains(rest, PackageToken) && '$' !in c.pkg
    ensures ApplyClassOnPattern(c, PackageLevelToken + ds + mid + "}" + rest)
            == DotStripped(ReplaceVar(rest, ClassToken, c.simpleName))
  {
    PackageLevelForm(c, ds, mid, rest);
    CutLevelsClamps(c.pkg, DecimalValue(ds));
    assert "" + ReplaceVar(rest, ClassToken, c.simpleName) == ReplaceVar(rest, ClassToken, c.simpleName);
  }
}
