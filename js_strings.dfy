/**
 * The JavaScript string operations the blog's post handling relies on:
 * `endsWith`, `includes`, `toLowerCase` and the relational operator `<`.
 */
module JsStrings {

  /** `s.endsWith(suffix)`. */
  predicate EndsWith(s: string, suffix: string)
    ensures EndsWith(s, suffix) ==> |suffix| <= |s| && s == s[..|s| - |suffix|] + suffix
  {
    |suffix| <= |s| && s[|s| - |suffix|..] == suffix
  }

  lemma EndsWithAppended(s: string, suffix: string)
    ensures EndsWith(s + suffix, suffix)
  {
    assert (s + suffix)[|s|..] == suffix;
  }

  /** `sub` occurs in `s` starting at index `i`. */
  predicate OccursAt(s: string, sub: string, i: int) {
    0 <= i <= |s| - |sub| && s[i..i + |sub|] == sub
  }

  /** `s.includes(sub)`: `sub` occurs in `s` at some position. */
  predicate Includes(s: string, sub: string)
    ensures sub == [] ==> Includes(s, sub)
    ensures Includes(s, sub) ==> |sub| <= |s|
  {
    assert sub == [] ==> OccursAt(s, sub, 0);
    exists i | 0 <= i <= |s| :: OccursAt(s, sub, i)
  }

  /** `Includes` holds exactly when `s` splits as `before + sub + after`. */
  lemma {:induction false} IncludesSplit(s: string, sub: string)
    ensures Includes(s, sub) <==> exists before, after :: s == before + sub + after
  {
    if Includes(s, sub) {
      var i :| 0 <= i <= |s| && OccursAt(s, sub, i);
      assert s == s[..i] + sub + s[i + |sub|..];
    }
    if exists before, after :: s == before + sub + after {
      var before, after :| s == before + sub + after;
      var i := |before|;
      assert s[i..i + |sub|] == sub;
      assert OccursAt(s, sub, i);
      assert Includes(s, sub);
    }
  }

  /**
   * The relational operator `a < b` on two strings: lexicographic order,
   * where a proper prefix is smaller than the longer string.
   */
  predicate Less(a: string, b: string)
    ensures Less(a, b) ==> a != b
    ensures |a| < |b| && a == b[..|a|] ==> Less(a, b)
    decreases |a|
  {
    if |a| == 0 then |b| > 0
    else if |b| == 0 then false
    else if a[0] != b[0] then a[0] < b[0]
    else Less(a[1..], b[1..])
  }

  lemma {:induction false} LessIrreflexive(a: string)
    ensures !Less(a, a)
    decreases |a|
  {
    if |a| > 0 {
      LessIrreflexive(a[1..]);
    }
  }

  lemma {:induction false} LessTransitive(a: string, b: string, c: string)
    requires Less(a, b) && Less(b, c)
    ensures Less(a, c)
    decreases |a|
  {
    if |a| > 0 && a[0] == b[0] && b[0] == c[0] {
      LessTransitive(a[1..], b[1..], c[1..]);
    }
  }

  lemma {:induction false} LessTotal(a: string, b: string)
    ensures a == b || Less(a, b) || Less(b, a)
    decreases |a|
  {
    if |a| > 0 && |b| > 0 && a[0] == b[0] {
      LessTotal(a[1..], b[1..]);
      if a[1..] == b[1..] {
        assert a == [a[0]] + a[1..] && b == [b[0]] + b[1..];
      }
    }
  }

  lemma {:induction false} LessAsymmetric(a: string, b: string)
    requires Less(a, b)
    ensures !Less(b, a)
  {
    if Less(b, a) {
      LessTransitive(a, b, a);
      LessIrreflexive(a);
    }
  }

  /** "Not smaller than" is transitive: the ordering a descending sort relies on. */
  lemma NotLessTransitive(a: string, b: string, c: string)
    requires !Less(a, b) && !Less(b, c)
    ensures !Less(a, c)
  {
    LessTotal(a, b);
    LessTotal(b, c);
    if a == c {
      LessIrreflexive(a);
    } else {
      if b != a && b != c {
        LessTransitive(c, b, a);
      }
      LessAsymmetric(c, a);
    }
  }

  /** `toLowerCase` on one character, restricted to the ASCII letters. */
  function LowerChar(c: char): char {
    if IsUpper(c) then (c as int + 32) as char else c
  }

  /** An upper-case ASCII letter. */
  predicate IsUpper(c: char) {
    'A' <= c <= 'Z'
  }

  /** `s.toLowerCase()`, ASCII letters only. */
  function Lower(s: string): (r: string)
    ensures |r| == |s|
    ensures forall i :: 0 <= i < |s| ==> r[i] == LowerChar(s[i])
    ensures forall i :: 0 <= i < |r| ==> !IsUpper(r[i])
  {
    if s == [] then [] else [LowerChar(s[0])] + Lower(s[1..])
  }

  /** Lowering twice is lowering once. */
  lemma LowerIdempotent(s: string)
    ensures Lower(Lower(s)) == Lower(s)
  {
    var l := Lower(s);
    assert forall i :: 0 <= i < |l| ==> LowerChar(l[i]) == l[i];
  }

  /** Lowering leaves only the empty string empty. */
  lemma LowerEmpty(s: string)
    ensures Lower(s) == "" <==> s == ""
  {
  }
}
