/** The byte-wise order on identifiers and keys: Go's `<` on strings. */
module Orders {

  predicate StrLess(a: string, b: string)
    decreases |a|
  {
    |b| > 0 && (|a| == 0 || a[0] < b[0] || (a[0] == b[0] && StrLess(a[1..], b[1..])))
  }

  predicate StrAtMost(a: string, b: string) {
    !StrLess(b, a)
  }

  lemma {:induction false} StrLessTotal(a: string, b: string)
    ensures StrLess(a, b) || a == b || StrLess(b, a)
    decreases |a|
  {
    if |a| > 0 && |b| > 0 && a[0] == b[0] {
      StrLessTotal(a[1..], b[1..]);
      assert a == [a[0]] + a[1..] && b == [b[0]] + b[1..];
    }
  }

  lemma {:induction false} StrLessAsym(a: string, b: string)
    requires StrLess(a, b)
    ensures !StrLess(b, a) && a != b
    decreases |a|
  {
    if |a| > 0 && a[0] == b[0] {
      StrLessAsym(a[1..], b[1..]);
    }
  }

  lemma StrIrreflexive(a: string)
    ensures !StrLess(a, a)
  {
    if StrLess(a, a) { StrLessAsym(a, a); }
  }

  lemma {:induction false} StrLessTrans(a: string, b: string, c: string)
    requires StrLess(a, b) && StrLess(b, c)
    ensures StrLess(a, c)
    decreases |a|
  {
    if |a| > 0 && a[0] == b[0] == c[0] {
      StrLessTrans(a[1..], b[1..], c[1..]);
    }
  }

  lemma StrAtMostTrans(a: string, b: string, c: string)
    requires StrAtMost(a, b) && StrAtMost(b, c)
    ensures StrAtMost(a, c)
  {
    if StrLess(c, a) {
      StrLessTotal(a, b);
      if a != b {
        StrLessTrans(c, a, b);
      }
    }
  }

  lemma StrAtMostAntisym(a: string, b: string)
    requires StrAtMost(a, b) && StrAtMost(b, a)
    ensures a == b
  {
    StrLessTotal(a, b);
  }

  predicate SlashFree(s: string) {
    '/' !in s
  }

  lemma SlashShows(a: string, s: string, b: string, t: string)
    requires a + "/" + s == b + "/" + t
    ensures |a| < |b| ==> '/' in b
  {
    if |a| < |b| {
      assert b[|a|] == (b + "/" + t)[|a|] == (a + "/" + s)[|a|] == '/';
    }
  }

  /** The first slash ends the first part. */
  lemma FirstSlash(a: string, s: string, b: string, t: string)
    requires SlashFree(a) && SlashFree(b) && a + "/" + s == b + "/" + t
    ensures a == b && s == t
  {
    SlashShows(a, s, b, t);
    SlashShows(b, t, a, s);
    var x, y := a + "/" + s, b + "/" + t;
    assert x[..|a|] == a && y[..|b|] == b;
    assert x[|a| + 1..] == s && y[|b| + 1..] == t;
  }

  lemma HasSlash(b: string, t: string)
    ensures !SlashFree(b + "/" + t)
  {
    assert (b + "/" + t)[|b|] == '/';
  }
}
