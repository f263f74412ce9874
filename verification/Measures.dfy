/**
 * Measures of sequences that add up over concatenation: the length, or the number of occurrences
 * of a value.  A conservation law stated for every such measure says that nothing is lost or added.
 */
module Measures {
  type Measure<!T> = seq<T> -> nat

  ghost predicate Adds<T>(f: Measure<T>, a: seq<T>, b: seq<T>) {
    f(a + b) == f(a) + f(b)
  }

  ghost predicate Additive<T(!new)>(f: Measure<T>) {
    forall a, b :: Adds(f, a, b)
  }

  function Occurrences<T(==)>(x: T): Measure<T> {
    (s: seq<T>) => multiset(s)[x]
  }

  function Length<T>(): Measure<T> {
    (s: seq<T>) => |s|
  }

  lemma OccurrencesAdditive<T(!new)>(x: T)
    ensures Additive(Occurrences(x))
  {
  }

  lemma LengthAdditive<T(!new)>()
    ensures Additive(Length<T>())
  {
  }

  /** Sequences on which every additive measure agrees hold the same elements, equally often. */
  lemma SameMultiset<T(!new)>(a: seq<T>, b: seq<T>)
    requires forall f: Measure<T> :: Additive(f) ==> f(a) == f(b)
    ensures multiset(a) == multiset(b)
  {
    forall x ensures multiset(a)[x] == multiset(b)[x] {
      OccurrencesAdditive(x);
      assert Occurrences(x)(a) == Occurrences(x)(b);
    }
  }

  lemma CountConcat<T(!new)>(a: seq<T>, b: seq<T>, f: Measure<T>)
    requires Additive(f)
    ensures f(a + b) == f(a) + f(b)
    ensures f([]) == 0
  {
    var nothing: seq<T> := [];
    assert Adds(f, a, b) && Adds(f, nothing, nothing);
    assert nothing + nothing == nothing;
  }
}
