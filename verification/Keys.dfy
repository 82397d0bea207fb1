/** The key space of the embedded database and its ordered scans
    (internal/store/store.go:21-29, 175-181, 517-552). */
module Keys {
  import opened Orders
  import opened Sorting
  import opened Entities

  // ---------------------------------------------------------------- decimal numbers

  function Digit(d: nat): (c: char)
    requires d < 10
    ensures IsDigit(c) && DigitValue(c) == d
  {
    ('0' as int + d) as char
  }

  predicate IsDigit(c: char) { '0' <= c <= '9' }

  /** fmt's %d. */
  function Decimal(n: nat): (s: string)
    ensures |s| > 0 && (forall c | c in s :: IsDigit(c)) && (n > 0 ==> s[0] != '0') && (n == 0 ==> s == "0")
  {
    if n < 10 then [Digit(n)] else Decimal(n / 10) + [Digit(n % 10)]
  }

  /** fmt's %0*d for a number that fits the width. */
  function Padded(n: nat, width: nat): (s: string)
    ensures |s| == width && forall c | c in s :: IsDigit(c)
  {
    if width == 0 then "" else Padded(n / 10, width - 1) + [Digit(n % 10)]
  }

  function Pow10(k: nat): (p: nat)
    ensures p > 0
  {
    if k == 0 then 1 else 10 * Pow10(k - 1)
  }

  function DigitValue(c: char): (d: nat)
    requires IsDigit(c)
  {
    c as int - '0' as int
  }

  function Value(s: string): (n: nat)
    requires forall c | c in s :: IsDigit(c)
  {
    if s == "" then 0
    else
      assert s[|s| - 1] in s;
      Value(s[..|s| - 1]) * 10 + DigitValue(s[|s| - 1])
  }

  /** strconv.ParseUint(s, 10, 64). */
  function ParseUint(s: string): (r: Option<uint64>) {
    if s != "" && (forall c | c in s :: IsDigit(c)) && Value(s) <= MAX_U64 then Some(Value(s)) else None
  }

  /** Exactly the digit strings whose value fits in 64 bits parse. */
  lemma ParseUintExactly(s: string)
    ensures ParseUint(s).Some? <==>
            s != "" && (forall c | c in s :: '0' <= c <= '9') && Value(s) <= 0xFFFF_FFFF_FFFF_FFFF
    ensures ParseUint(s).Some? ==> ParseUint(s).value == Value(s)
  {
  }

  lemma {:induction false} DecimalValue(n: nat)
    ensures Value(Decimal(n)) == n
  {
    if n >= 10 {
      DecimalValue(n / 10);
      assert Decimal(n)[..|Decimal(n)| - 1] == Decimal(n / 10);
    } else {
      assert Decimal(n)[..0] == "";
    }
  }

  /** A printed revision parses back to itself. */
  lemma DecimalParses(n: uint64)
    ensures ParseUint(Decimal(n)) == Some(n)
  {
    DecimalValue(n);
  }

  lemma {:induction false} PaddedValue(n: nat, width: nat)
    requires n < Pow10(width)
    ensures Value(Padded(n, width)) == n
    decreases width
  {
    if width > 0 {
      PaddedValue(n / 10, width - 1);
      assert Padded(n, width)[..width - 1] == Padded(n / 10, width - 1);
    }
  }

  // ---------------------------------------------------------------- comparing keys

  lemma {:induction false} SamePrefixLess(p: string, a: string, b: string)
    ensures StrLess(p + a, p + b) <==> StrLess(a, b)
    decreases |p|
  {
    if p == "" {
      assert p + a == a && p + b == b;
    } else {
      assert (p + a)[1..] == p[1..] + a && (p + b)[1..] == p[1..] + b;
      SamePrefixLess(p[1..], a, b);
    }
  }

  /** Between strings of one length, the first difference decides. */
  lemma {:induction false} EqualLengthLess(a: string, b: string, x: string, y: string)
    requires |a| == |b| && StrLess(a, b)
    ensures StrLess(a + x, b + y)
    decreases |a|
  {
    if a[0] == b[0] {
      EqualLengthLess(a[1..], b[1..], x, y);
      assert (a + x)[1..] == a[1..] + x && (b + y)[1..] == b[1..] + y;
    }
  }

  /** Zero-padded numbers order byte-wise as the numbers do. */
  lemma {:induction false} PaddedLess(m: nat, n: nat, width: nat)
    requires m < n < Pow10(width)
    ensures StrLess(Padded(m, width), Padded(n, width))
    decreases width
  {
    if m / 10 < n / 10 {
      PaddedLess(m / 10, n / 10, width - 1);
      EqualLengthLess(Padded(m / 10, width - 1), Padded(n / 10, width - 1), [Digit(m % 10)], [Digit(n % 10)]);
    } else {
      assert m / 10 == n / 10 && m % 10 < n % 10;
      SamePrefixLess(Padded(m / 10, width - 1), [Digit(m % 10)], [Digit(n % 10)]);
    }
  }

  const EVENT_PREFIX := "event/"

  /** eventKey: the prefix and the revision in twenty digits. */
  function EventKey(rev: uint64): (k: string)
    ensures EVENT_PREFIX <= k && |k| == 26
  {
    EVENT_PREFIX + Padded(rev, 20)
  }

  lemma TwentyDigits()
    ensures MAX_U64 < Pow10(20)
  {
    assert Pow10(10) == 10000000000;
    assert Pow10(15) == 1000000000000000;
    assert Pow10(20) == 100000000000000000000;
  }

  /** Event keys order byte-wise exactly as their 64-bit revisions do. */
  lemma EventKeyOrder(a: uint64, b: uint64)
    ensures StrLess(EventKey(a), EventKey(b)) <==> a < b
    ensures EventKey(a) == EventKey(b) <==> a == b
  {
    TwentyDigits();
    if a < b {
      PaddedLess(a, b, 20);
      SamePrefixLess(EVENT_PREFIX, Padded(a, 20), Padded(b, 20));
      StrLessAsym(EventKey(a), EventKey(b));
    } else if b < a {
      PaddedLess(b, a, 20);
      SamePrefixLess(EVENT_PREFIX, Padded(b, 20), Padded(a, 20));
      StrLessAsym(EventKey(b), EventKey(a));
    } else {
      StrIrreflexive(EventKey(a));
    }
  }

  /** What OldestRevision reads back from an event key. */
  lemma EventKeyParses(rev: uint64)
    ensures ParseUint(EventKey(rev)[|EVENT_PREFIX|..]) == Some(rev)
  {
    TwentyDigits();
    PaddedValue(rev, 20);
    assert EventKey(rev)[|EVENT_PREFIX|..] == Padded(rev, 20);
  }

  // ---------------------------------------------------------------- prefix scans

  /** prefixEnd: the last byte raised by one. */
  function PrefixEnd(p: string): (e: string)
    requires p != "" && p[|p| - 1] < 255 as char
    ensures |e| == |p|
  {
    p[..|p| - 1] + [(p[|p| - 1] as int + 1) as char]
  }

  /** The keys from a prefix up to its end are exactly the keys with that prefix. */
  lemma {:induction false} PrefixRange(p: string, k: string)
    requires p != "" && p[|p| - 1] < 255 as char
    ensures StrAtMost(p, k) && StrLess(k, PrefixEnd(p)) <==> p <= k
    decreases |p|
  {
    var e := PrefixEnd(p);
    if |p| == 1 {
      assert p[1..] == "" && e[1..] == "";
    } else {
      assert e[1..] == PrefixEnd(p[1..]) && e[0] == p[0];
      if k != "" && k[0] == p[0] {
        PrefixRange(p[1..], k[1..]);
        assert p <= k <==> p[1..] <= k[1..] by {
          if p[1..] <= k[1..] {
            assert p == [p[0]] + p[1..] && k == [k[0]] + k[1..];
          }
        }
      }
    }
  }

  /** A key is below x followed by a zero byte exactly when it is at most x. */
  lemma {:induction false} BelowSuccessor(k: string, x: string)
    ensures StrLess(k, x + [0 as char]) <==> StrAtMost(k, x)
    decreases |x|
  {
    if x == "" {
      assert (x + [0 as char])[1..] == "";
    } else {
      assert (x + [0 as char])[1..] == x[1..] + [0 as char];
      if k != "" && k[0] == x[0] {
        BelowSuccessor(k[1..], x[1..]);
      }
    }
  }

  predicate InRange(k: string, lo: string, hi: string) {
    StrAtMost(lo, k) && StrLess(k, hi)
  }

  /** A listing of a set of keys, once each and in order: what an iterator walks. */
  ghost predicate Walks(keys: seq<string>, s: set<string>) {
    Elements(keys) == s && Distinct(keys) && Sorted(StrLess, keys)
  }

  /** There is one such listing. */
  lemma WalksUnique(a: seq<string>, b: seq<string>, s: set<string>)
    requires Walks(a, s) && Walks(b, s)
    ensures a == b
  {
    DistinctBag(a, b);
    StringsOrdered(s);
    SortedUnique(StrLess, a, b);
  }
}
