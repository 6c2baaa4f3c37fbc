/** The java.lang.String operations the core relies on, for the characters
    a request carries: startsWith, replace of one character by nothing,
    trim, isBlank and equalsIgnoreCase. */
module JavaStrings {

  /** String.startsWith. */
  predicate StartsWith(s: string, prefix: string) {
    |prefix| <= |s| && s[..|prefix|] == prefix
  }

  /** The characters String.trim removes: every code point up to U+0020. */
  predicate IsTrimmable(c: char) {
    c <= ' '
  }

  /** Character.isWhitespace on the ASCII range: space, U+0009..U+000D, U+001C..U+001F. */
  predicate IsJavaWhitespace(c: char) {
    var n := c as int;
    n == 32 || (9 <= n <= 13) || (28 <= n <= 31)
  }

  /** String.isBlank: empty or only whitespace. */
  predicate IsBlank(s: string) {
    forall k :: 0 <= k < |s| ==> IsJavaWhitespace(s[k])
  }

  /** s.replace(String.valueOf(c), ""): every occurrence of c removed. */
  function RemoveChar(s: string, c: char): (r: string)
    ensures c !in r
    ensures |r| <= |s|
    ensures c !in s ==> r == s
    ensures forall d :: d != c ==> multiset(r)[d] == multiset(s)[d]
  {
    if s == [] then []
    else
      var rest := RemoveChar(s[1..], c);
      assert s == [s[0]] + s[1..];
      if s[0] == c then rest else [s[0]] + rest
  }

  /** Removing a character commutes with concatenation, so the order of the
      remaining characters is kept. */
  lemma {:induction false} RemoveCharConcat(a: string, b: string, c: char)
    ensures RemoveChar(a + b, c) == RemoveChar(a, c) + RemoveChar(b, c)
  {
    if a != [] {
      assert (a + b)[1..] == a[1..] + b;
      RemoveCharConcat(a[1..], b, c);
    } else {
      assert a + b == b;
    }
  }

  /** Index of the first character trim keeps (|s| when there is none). */
  function FirstKept(s: string): (i: nat)
    ensures i <= |s|
    ensures forall k :: 0 <= k < i ==> IsTrimmable(s[k])
    ensures i < |s| ==> !IsTrimmable(s[i])
  {
    if s == [] || !IsTrimmable(s[0]) then 0 else 1 + FirstKept(s[1..])
  }

  /** One past the index of the last character trim keeps (0 when there is none). */
  function EndKept(s: string): (j: nat)
    ensures j <= |s|
    ensures forall k :: j <= k < |s| ==> IsTrimmable(s[k])
    ensures j > 0 ==> !IsTrimmable(s[j - 1])
  {
    if s == [] || !IsTrimmable(s[|s| - 1]) then |s| else EndKept(s[..|s| - 1])
  }

  /** r is what trim leaves of s when r starts at index i of s: an infix of s,
      everything before and after it trimmable, and r itself neither starting
      nor ending with a trimmable character. */
  ghost predicate IsTrimAt(r: string, s: string, i: nat) {
    (r == [] || (!IsTrimmable(r[0]) && !IsTrimmable(r[|r| - 1]))) &&
    i + |r| <= |s| && s[i..i + |r|] == r &&
    (forall k :: 0 <= k < i ==> IsTrimmable(s[k])) &&
    (forall k :: i + |r| <= k < |s| ==> IsTrimmable(s[k]))
  }

  /** r is what trim leaves of s. */
  ghost predicate IsTrimOf(r: string, s: string) {
    exists i: nat :: IsTrimAt(r, s, i)
  }

  /** String.trim. */
  function Trim(s: string): (r: string)
    ensures IsTrimOf(r, s)
  {
    var i := FirstKept(s);
    if i == |s| then
      assert IsTrimAt("", s, 0);
      ""
    else
      var j := EndKept(s);
      assert i < j;
      assert IsTrimAt(s[i..j], s, i);
      s[i..j]
  }

  /** IsTrimOf determines its result: trim has exactly one admissible answer. */
  lemma TrimOfIsUnique(r1: string, r2: string, s: string)
    requires IsTrimOf(r1, s) && IsTrimOf(r2, s)
    ensures r1 == r2
  {
    var i1: nat :| IsTrimAt(r1, s, i1);
    var i2: nat :| IsTrimAt(r2, s, i2);
    if r1 != [] && r2 != [] {
      // both start at the first kept character and end after the last one
      assert s[i1] == r1[0] && s[i2] == r2[0];
      assert i1 == i2;
      assert s[i1 + |r1| - 1] == r1[|r1| - 1] && s[i2 + |r2| - 1] == r2[|r2| - 1];
      assert |r1| == |r2|;
    }
  }

  /** Trim is idempotent. */
  lemma TrimIdempotent(s: string)
    ensures Trim(Trim(s)) == Trim(s)
  {
    var t := Trim(s);
    assert IsTrimAt(t, t, 0) by {
      var i: nat :| IsTrimAt(t, s, i);
      assert t[0..|t|] == t;
    }
    TrimOfIsUnique(Trim(t), t, t);
  }

  /** ASCII case folding (Character.toLowerCase on A..Z). */
  function LowerAscii(c: char): char {
    if 'A' <= c <= 'Z' then (c as int + 32) as char else c
  }

  /** String.equalsIgnoreCase, with case folding restricted to ASCII letters:
      same length, and the characters agree pairwise once folded. */
  predicate EqualsIgnoreCase(a: string, b: string)
    decreases |a|
  {
    |a| == |b| && (a == [] || (LowerAscii(a[0]) == LowerAscii(b[0]) && EqualsIgnoreCase(a[1..], b[1..])))
  }

  /** The character-by-character reading of equalsIgnoreCase. */
  lemma {:induction false} EqualsIgnoreCasePointwise(a: string, b: string)
    ensures EqualsIgnoreCase(a, b) <==>
      |a| == |b| && forall k :: 0 <= k < |a| ==> LowerAscii(a[k]) == LowerAscii(b[k])
    decreases |a|
  {
    if a != [] && |a| == |b| {
      EqualsIgnoreCasePointwise(a[1..], b[1..]);
      if forall k :: 0 <= k < |a| ==> LowerAscii(a[k]) == LowerAscii(b[k]) {
        assert forall k :: 0 <= k < |a| - 1 ==> LowerAscii(a[1..][k]) == LowerAscii(b[1..][k]) by {
          forall k | 0 <= k < |a| - 1
            ensures LowerAscii(a[1..][k]) == LowerAscii(b[1..][k])
          {
            assert a[1..][k] == a[k + 1] && b[1..][k] == b[k + 1];
          }
        }
      }
      if EqualsIgnoreCase(a, b) {
        forall k | 0 <= k < |a|
          ensures LowerAscii(a[k]) == LowerAscii(b[k])
        {
          if k > 0 {
            assert a[1..][k - 1] == a[k] && b[1..][k - 1] == b[k];
          }
        }
      }
    }
  }

  /** equalsIgnoreCase is an equivalence: reflexive, symmetric and transitive. */
  lemma EqualsIgnoreCaseIsEquivalence(a: string, b: string, c: string)
    ensures EqualsIgnoreCase(a, a)
    ensures EqualsIgnoreCase(a, b) ==> EqualsIgnoreCase(b, a)
    ensures EqualsIgnoreCase(a, b) && EqualsIgnoreCase(b, c) ==> EqualsIgnoreCase(a, c)
  {
    EqualsIgnoreCasePointwise(a, a);
    EqualsIgnoreCasePointwise(a, b);
    EqualsIgnoreCasePointwise(b, a);
    EqualsIgnoreCasePointwise(b, c);
    EqualsIgnoreCasePointwise(a, c);
  }
}
