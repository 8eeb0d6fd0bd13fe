/**
  Go's `<` on strings. Go compares strings byte by byte in their UTF-8
  encoding; UTF-8 preserves the order of code points, so comparing the
  characters (Unicode scalar values) one by one gives the same order.
  A proper prefix is smaller than the longer string.
*/
module GoStrings {

  /** Go's `a < b` on strings: lexicographic, shorter prefix first. */
  predicate LexLess(a: string, b: string)
    decreases |a|
  {
    if |a| == 0 then |b| > 0
    else if |b| == 0 then false
    else if a[0] != b[0] then a[0] < b[0]
    else LexLess(a[1..], b[1..])
  }

  /** Go's `a <= b` on strings. */
  predicate LexLessEq(a: string, b: string) {
    !LexLess(b, a)
  }

  lemma {:induction false} LexLessIrreflexive(a: string)
    ensures !LexLess(a, a)
    decreases |a|
  {
    if |a| > 0 {
      LexLessIrreflexive(a[1..]);
    }
  }

  lemma {:induction false} LexLessAsymmetric(a: string, b: string)
    ensures !(LexLess(a, b) && LexLess(b, a))
    decreases |a|
  {
    if |a| > 0 && |b| > 0 && a[0] == b[0] {
      LexLessAsymmetric(a[1..], b[1..]);
    }
  }

  lemma {:induction false} LexLessTransitive(a: string, b: string, c: string)
    requires LexLess(a, b) && LexLess(b, c)
    ensures LexLess(a, c)
    decreases |a|
  {
    if |a| > 0 && a[0] == b[0] && b[0] == c[0] {
      LexLessTransitive(a[1..], b[1..], c[1..]);
    }
  }

  /** Any two different strings are ordered one way or the other. */
  lemma {:induction false} LexLessTotal(a: string, b: string)
    requires a != b
    ensures LexLess(a, b) || LexLess(b, a)
    decreases |a|
  {
    if |a| > 0 && |b| > 0 && a[0] == b[0] {
      assert a == [a[0]] + a[1..] && b == [b[0]] + b[1..];
      LexLessTotal(a[1..], b[1..]);
    }
  }

  /** `<=` on strings is a total order: it relates equal strings and is transitive. */
  lemma LexLessEqIsOrder(a: string, b: string, c: string)
    ensures LexLessEq(a, a)
    ensures LexLessEq(a, b) || LexLessEq(b, a)
    ensures LexLessEq(a, b) && LexLessEq(b, a) ==> a == b
    ensures LexLessEq(a, b) && LexLessEq(b, c) ==> LexLessEq(a, c)
  {
    LexLessIrreflexive(a);
    LexLessAsymmetric(a, b);
    if a != b {
      LexLessTotal(a, b);
    }
    if LexLessEq(a, b) && LexLessEq(b, c) && LexLess(c, a) {
      if a == b {
      } else if b == c {
      } else {
        LexLessTotal(a, b);
        LexLessTotal(b, c);
        LexLessTransitive(c, a, b);
        LexLessAsymmetric(b, c);
      }
    }
  }
}
