/** The two built-in Python comparisons the core sorts by: `<` on str
    (code-point lexicographic order) and `>` on integer 3-tuples. */
module PyOrder {
  import opened StableSort

  /** Python `a < b` on strings: first differing character decides, and a
      proper prefix comes first.  "" is below every other string. */
  predicate LexLess(a: string, b: string)
  {
    if a == [] then b != []
    else if b == [] then false
    else if a[0] != b[0] then a[0] < b[0]
    else LexLess(a[1..], b[1..])
  }

  lemma {:induction false} LexLessIrreflexive(a: string)
    ensures !LexLess(a, a)
  {
    if a != [] { LexLessIrreflexive(a[1..]); }
  }

  lemma {:induction false} LexLessTransitive(a: string, b: string, c: string)
    requires LexLess(a, b) && LexLess(b, c)
    ensures LexLess(a, c)
  {
    if a != [] && b != [] && c != [] && a[0] == b[0] && b[0] == c[0] {
      LexLessTransitive(a[1..], b[1..], c[1..]);
    }
  }

  lemma {:induction false} LexLessTotal(a: string, b: string)
    requires a != b
    ensures LexLess(a, b) || LexLess(b, a)
  {
    if a != [] && b != [] && a[0] == b[0] {
      assert a[1..] != b[1..] by {
        assert a == [a[0]] + a[1..] && b == [b[0]] + b[1..];
      }
      LexLessTotal(a[1..], b[1..]);
    }
  }

  /** String comparison is a strict total order, as sorting by it requires. */
  lemma LexLessStrictTotal()
    ensures StrictTotal(LexLess)
  {
    forall a ensures !LexLess(a, a) { LexLessIrreflexive(a); }
    forall a, b, c | LexLess(a, b) && LexLess(b, c) ensures LexLess(a, c) {
      LexLessTransitive(a, b, c);
    }
    forall a, b | a != b ensures LexLess(a, b) || LexLess(b, a) { LexLessTotal(a, b); }
  }

  /** The empty string is the least string. */
  lemma EmptyLeast(a: string)
    ensures !LexLess(a, "")
  {
  }

  type Triple = (int, int, int)

  /** Python `a > b` on (major, minor, patch) tuples: component by component, as integers. */
  predicate TripleGreater(a: Triple, b: Triple)
  {
    a.0 > b.0 || (a.0 == b.0 && (a.1 > b.1 || (a.1 == b.1 && a.2 > b.2)))
  }

  /** `a >= b` on tuples. */
  predicate TripleAtLeast(a: Triple, b: Triple)
  {
    TripleGreater(a, b) || a == b
  }

  lemma TripleGreaterStrictTotal()
    ensures StrictTotal(TripleGreater)
  {
  }

  /** The sort key both routing selectors use, `lambda t: t[0]` on
      (version triple, record) pairs. */
  function VersionKey<T>(c: (Triple, T)): Triple
  {
    c.0
  }
}
