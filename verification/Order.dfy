/** The order on identifiers that Python's `min`, `max` and `sorted`, PostgreSQL's
    primary keys and Redis' member comparison share here: lexicographic by code point. */
module Order {

  predicate StrLess(a: string, b: string) {
    b != [] && (a == [] || a[0] < b[0] || (a[0] == b[0] && StrLess(a[1..], b[1..])))
  }

  function StrMin(a: string, b: string): string {
    if StrLess(b, a) then b else a
  }

  function StrMax(a: string, b: string): string {
    if StrLess(b, a) then a else b
  }

  lemma {:induction false} StrLessIsStrict(a: string)
    ensures !StrLess(a, a)
  {
    if a != [] {
      StrLessIsStrict(a[1..]);
    }
  }

  lemma {:induction false} StrLessTotal(a: string, b: string)
    ensures a == b || StrLess(a, b) || StrLess(b, a)
  {
    if a != [] && b != [] && a[0] == b[0] {
      StrLessTotal(a[1..], b[1..]);
      assert a == [a[0]] + a[1..] && b == [b[0]] + b[1..];
    }
  }

  lemma {:induction false} StrLessTransitive(a: string, b: string, c: string)
    requires StrLess(a, b) && StrLess(b, c)
    ensures StrLess(a, c)
  {
    if a != [] && a[0] == b[0] == c[0] {
      StrLessTransitive(a[1..], b[1..], c[1..]);
    }
  }

  /** Canonical pairs: `(min(a,b), max(a,b))` does not depend on the argument order. */
  lemma CanonicalPair(a: string, b: string)
    requires a != b
    ensures StrLess(StrMin(a, b), StrMax(a, b))
    ensures StrMin(a, b) == StrMin(b, a) && StrMax(a, b) == StrMax(b, a)
    ensures {StrMin(a, b), StrMax(a, b)} == {a, b}
  {
    StrLessTotal(a, b);
    if StrLess(a, b) && StrLess(b, a) {
      StrLessTransitive(a, b, a);
      StrLessIsStrict(a);
    }
  }
}
