/**
 * The few `java.lang.String` operations the injector relies on, over `seq<char>`:
 * `indexOf`, `lastIndexOf`, `endsWith` and `trim`.
 */
module JavaStrings {

  /** `t` occurs in `s` starting at index `i`. */
  predicate OccursAt(s: string, t: string, i: nat) {
    i + |t| <= |s| && s[i..i + |t|] == t
  }

  /** `s.indexOf(t, from)`: the first index at or after `from` where `t` occurs, or -1. */
  function IndexOfFrom(s: string, t: string, from: nat): (r: int)
    decreases |s| - from
    ensures r == -1 || (from <= r && OccursAt(s, t, r))
    ensures r == -1 ==> forall i: nat :: from <= i ==> !OccursAt(s, t, i)
    ensures r >= 0 ==> forall i: nat :: from <= i < r ==> !OccursAt(s, t, i)
  {
    if from + |t| > |s| then -1
    else if s[from..from + |t|] == t then from
    else IndexOfFrom(s, t, from + 1)
  }

  /** `s.indexOf(t)`. */
  function IndexOf(s: string, t: string): int {
    IndexOfFrom(s, t, 0)
  }

  /** `s.contains(t)`. */
  predicate Contains(s: string, t: string) {
    IndexOf(s, t) >= 0
  }

  /** `s.lastIndexOf(c)`: the last index holding `c`, or -1. */
  function LastIndexOf(s: string, c: char): (r: int)
    ensures -1 <= r < |s|
    ensures r == -1 <==> c !in s
    ensures r >= 0 ==> s[r] == c && c !in s[r + 1..]
  {
    if s == [] then -1
    else if s[|s| - 1] == c then |s| - 1
    else
      var r := LastIndexOf(s[..|s| - 1], c);
      assert s[..|s| - 1] + [s[|s| - 1]] == s;
      r
  }

  /** `s.endsWith(suffix)`. */
  predicate EndsWith(s: string, suffix: string) {
    |suffix| <= |s| && s[|s| - |suffix|..] == suffix
  }

  /** `String.trim` removes every leading and trailing character at or below U+0020. */
  predicate IsBlank(c: char) {
    c <= ' '
  }

  /** Number of leading blank characters of `s`. */
  function LeadingBlanks(s: string): (n: nat)
    ensures n <= |s|
    ensures forall i :: 0 <= i < n ==> IsBlank(s[i])
    ensures n < |s| ==> !IsBlank(s[n])
  {
    if s == [] || !IsBlank(s[0]) then 0
    else 1 + LeadingBlanks(s[1..])
  }

  /** Number of trailing blank characters of `s`. */
  function TrailingBlanks(s: string): (n: nat)
    ensures n <= |s|
    ensures forall i :: |s| - n <= i < |s| ==> IsBlank(s[i])
    ensures n < |s| ==> !IsBlank(s[|s| - n - 1])
  {
    if s == [] || !IsBlank(s[|s| - 1]) then 0
    else 1 + TrailingBlanks(s[..|s| - 1])
  }

  /** `s.trim()`: `s` without its leading and trailing blanks. */
  function Trim(s: string): (r: string)
    ensures r == "" || (!IsBlank(r[0]) && !IsBlank(r[|r| - 1]))
    ensures LeadingBlanks(s) + |r| <= |s| && s[LeadingBlanks(s)..LeadingBlanks(s) + |r|] == r
    ensures forall i :: LeadingBlanks(s) + |r| <= i < |s| ==> IsBlank(s[i])
  {
    var a := LeadingBlanks(s);
    var rest := s[a..];
    var b := TrailingBlanks(rest);
    var r := rest[..|rest| - b];
    assert s[a..a + |r|] == r;
    r
  }

  /** An occurrence of a non-empty `t` starts with `t[0]`. */
  lemma OccursAtHead(s: string, t: string, i: nat)
    requires |t| > 0 && OccursAt(s, t, i)
    ensures s[i] == t[0]
  {
    assert s[i..i + |t|][0] == s[i];
  }

  /** `indexOf` returns the position of the first occurrence. */
  lemma IndexOfFirst(s: string, t: string, p: nat)
    requires OccursAt(s, t, p)
    requires forall i: nat :: i < p ==> !OccursAt(s, t, i)
    ensures IndexOf(s, t) == p
  {
  }

  /** Concatenation regroups. */
  lemma Regroup(a: string, b: string, c: string)
    ensures a + b + c == a + (b + c)
  {
  }

  /** Occurrences in `x + y` past `x` are the occurrences in `y`, shifted. */
  lemma OccursShift(x: string, y: string, t: string, j: nat)
    ensures OccursAt(x + y, t, |x| + j) <==> OccursAt(y, t, j)
  {
    if j + |t| <= |y| {
      assert (x + y)[|x| + j..|x| + j + |t|] == y[j..j + |t|];
    }
  }

  /**
   * When `t` does not start inside `x`, searching `x + y` finds the first
   * occurrence in `y`, shifted by `|x|`.
   */
  lemma IndexOfAppend(x: string, y: string, t: string)
    requires forall i: nat :: i < |x| ==> !OccursAt(x + y, t, i)
    ensures IndexOf(y, t) == -1 ==> IndexOf(x + y, t) == -1
    ensures IndexOf(y, t) >= 0 ==> IndexOf(x + y, t) == |x| + IndexOf(y, t)
  {
    var k := IndexOf(y, t);
    if k == -1 {
      forall i: nat | |x| <= i
        ensures !OccursAt(x + y, t, i)
      {
        OccursShift(x, y, t, i - |x|);
      }
    } else {
      OccursShift(x, y, t, k);
      forall i: nat | i < |x| + k
        ensures !OccursAt(x + y, t, i)
      {
        if i >= |x| {
          OccursShift(x, y, t, i - |x|);
        }
      }
      IndexOfFirst(x + y, t, |x| + k);
    }
  }

  /** For a one-character needle, `indexOf(c, from)` is the first index at or after `from` holding `c`. */
  lemma {:induction false} IndexOfChar(s: string, c: char, from: nat)
    requires from <= |s|
    ensures var r := IndexOfFrom(s, [c], from);
            (r == -1 <==> c !in s[from..])
            && (r >= 0 ==> from <= r < |s| && s[r] == c && c !in s[from..r])
    decreases |s| - from
  {
    if from < |s| {
      assert s[from..from + 1] == [s[from]];
      assert s[from..] == [s[from]] + s[from + 1..];
      if s[from] != c {
        IndexOfChar(s, c, from + 1);
        var r := IndexOfFrom(s, [c], from + 1);
        if r >= 0 {
          assert s[from..r] == [s[from]] + s[from + 1..r];
        }
      }
    }
  }

  /** A string lacking some character of `t` does not contain `t`. */
  lemma AbsentChar(s: string, t: string, c: char)
    requires c in t && c !in s
    ensures !Contains(s, t)
  {
  }
}
