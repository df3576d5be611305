/** Facts about sets and sequences of any type, and the choice of a first value that is set. */
module Collections {

  /** The first of the two that is not the zero value, else the default. */
  function FirstNonZero<T(==)>(zero: T, a: T, b: T, default: T): T {
    if a != zero then a else if b != zero then b else default
  }

  /** What occurs in a sequence occurs in every permutation of it. */
  lemma Occurs<T>(s: seq<T>, i: nat, t: seq<T>) returns (j: nat)
    requires i < |s| && multiset(s) == multiset(t)
    ensures j < |t| && t[j] == s[i]
  {
    assert s[i] in multiset(s);
    j :| 0 <= j < |t| && t[j] == s[i];
  }

  /** An injection cannot have a domain larger than its range. */
  lemma {:induction false} InjectionSize<A, B>(domain: set<A>, f: map<A, B>, range: set<B>)
    requires domain <= f.Keys && forall k :: k in domain ==> f[k] in range
    requires forall k, l :: k in domain && l in domain && k != l ==> f[k] != f[l]
    ensures |domain| <= |range|
    decreases |domain|
  {
    if |domain| != 0 {
      var k :| k in domain;
      InjectionSize(domain - {k}, f, range - {f[k]});
    }
  }

  /** A subset is no larger than its superset. */
  lemma SubsetSize<A>(a: set<A>, b: set<A>)
    requires a <= b
    ensures |a| <= |b|
  {
    InjectionSize(a, map k | k in a :: k, b);
  }
}
