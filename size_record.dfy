/**
 * The code-size record of one compiled object: text, data and bss section
 * sizes and their total. Equality deliberately compares the three section
 * sizes only; the orderings compare the totals only.
 *
 * The record is generic in its field type because the report parser stores
 * the four columns as the text it read (`Size<string>`), while the
 * arithmetic is on numbers (`Size<int>`).
 */
module SizeRecord {

  datatype Size<T> = Size(text: T, data: T, bss: T, total: T)

  /** `a == b`: text, data and bss agree; total is not looked at. */
  predicate Eq<T(==)>(a: Size<T>, b: Size<T>)
    ensures Eq(a, b) <==> a.(total := b.total) == b
  {
    a.text == b.text && a.data == b.data && a.bss == b.bss
  }

  /** `a != b`. */
  predicate Ne<T(==)>(a: Size<T>, b: Size<T>) {
    !Eq(a, b)
  }

  /** `a < b`. */
  predicate Lt(a: Size<int>, b: Size<int>) {
    a.total < b.total
  }

  /** `a <= b`. */
  predicate Le(a: Size<int>, b: Size<int>) {
    Lt(a, b) || Eq(a, b)
  }

  /** `a > b`. */
  predicate Gt(a: Size<int>, b: Size<int>) {
    a.total > b.total
  }

  /** `a >= b`. */
  predicate Ge(a: Size<int>, b: Size<int>) {
    Gt(a, b) || Eq(a, b)
  }

  /** `a + b`, field by field. */
  function Add(a: Size<int>, b: Size<int>): Size<int> {
    Size(a.text + b.text, a.data + b.data, a.bss + b.bss, a.total + b.total)
  }

  /** `a - b`, field by field. */
  function Sub(a: Size<int>, b: Size<int>): Size<int> {
    Size(a.text - b.text, a.data - b.data, a.bss - b.bss, a.total - b.total)
  }

  /** Subtracting what was added gives back every field, total included. */
  lemma AddSubInverse(a: Size<int>, b: Size<int>)
    ensures Sub(Add(a, b), b) == a
    ensures Add(Sub(a, b), b) == a
    ensures Eq(Sub(Add(a, b), b), a)
  {
  }

  /** Records that differ only in total compare equal, and `!=` is the negation of `==`. */
  lemma EqualityIgnoresTotal<T>(a: Size<T>, b: Size<T>)
    requires a.text == b.text && a.data == b.data && a.bss == b.bss
    ensures Eq(a, b) && !Ne(a, b)
  {
  }

  /** Equality is an equivalence relation on the three section sizes. */
  lemma EqualityIsEquivalence<T>(a: Size<T>, b: Size<T>, c: Size<T>)
    ensures Eq(a, a)
    ensures Eq(a, b) ==> Eq(b, a)
    ensures Eq(a, b) && Eq(b, c) ==> Eq(a, c)
    ensures Ne(a, b) <==> !Eq(a, b)
  {
  }

  /** The strict orderings look at the totals only: `<` and `>` are converses and irreflexive. */
  lemma StrictOrderOnTotals(a: Size<int>, b: Size<int>)
    ensures Lt(a, b) <==> Gt(b, a)
    ensures Lt(a, b) <==> a.total < b.total
    ensures !Lt(a, a) && !Gt(a, a)
    ensures Le(a, b) <==> Lt(a, b) || Eq(a, b)
    ensures Ge(a, b) <==> Le(b, a)
  {
  }

  /** `<=` holds whenever text, data and bss agree, even when the left total is the larger. */
  lemma LeBesideLargerTotal(a: Size<int>, b: Size<int>)
    requires Eq(a, b) && a.total > b.total
    ensures Le(a, b) && !Lt(a, b) && Gt(a, b)
  {
  }

  /** Neither `<=` nor `>=` is antisymmetric: both hold of equal records with different totals. */
  lemma LeGeNotAntisymmetric(a: Size<int>, b: Size<int>)
    requires Eq(a, b) && a.total != b.total
    ensures Le(a, b) && Ge(a, b) && Le(b, a) && Ge(b, a) && a != b
  {
  }
}
