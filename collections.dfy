/** The Kotlin collection operations the core uses: `associateBy`, `toSet` and "no duplicates". */
module Collections {

  /**
   * `associateBy(key)`: a map from each key to the element carrying it; when several
   * elements share a key, the last one wins. That every key comes from some
   * element is `IndexByKeys`.
   */
  function IndexBy<T, K(!new)>(xs: seq<T>, key: T -> K): (m: map<K, T>)
    ensures forall i :: 0 <= i < |xs| ==> key(xs[i]) in m
    ensures forall k :: k in m ==> key(m[k]) == k
    ensures forall i :: 0 <= i < |xs| && (forall j :: i < j < |xs| ==> key(xs[j]) != key(xs[i])) ==>
      m[key(xs[i])] == xs[i]
  {
    if xs == [] then map[]
    else
      var init := xs[..|xs| - 1];
      var m0 := IndexBy(init, key);
      assert forall i :: 0 <= i < |init| ==> init[i] == xs[i];
      m0[key(xs[|xs| - 1]) := xs[|xs| - 1]]
  }

  /** Every key of `IndexBy(xs, key)` is the key of some element of `xs`, and that element is the one stored. */
  lemma {:induction false} IndexByKeys<T, K(!new)>(xs: seq<T>, key: T -> K, k: K)
    requires k in IndexBy(xs, key)
    ensures exists i :: 0 <= i < |xs| && key(xs[i]) == k && IndexBy(xs, key)[k] == xs[i]
  {
    var init := xs[..|xs| - 1];
    if k != key(xs[|xs| - 1]) {
      IndexByKeys(init, key, k);
      var i :| 0 <= i < |init| && key(init[i]) == k && IndexBy(init, key)[k] == init[i];
      assert xs[i] == init[i];
    } else {
      assert key(xs[|xs| - 1]) == k && IndexBy(xs, key)[k] == xs[|xs| - 1];
    }
  }

  /** `toSet()`. */
  function ElemSet<T(!new)>(s: seq<T>): (r: set<T>)
    ensures forall x :: x in r <==> x in s
  {
    if s == [] then {} else {s[0]} + ElemSet(s[1..])
  }

  /** No element occurs twice. */
  predicate Distinct<T(==)>(s: seq<T>) {
    forall i, j :: 0 <= i < j < |s| ==> s[i] != s[j]
  }

  /** A list with a head has no duplicates when its tail has none and does not hold the head. */
  lemma DistinctCons<T>(s: seq<T>)
    requires s != []
    ensures Distinct(s) <==> s[0] !in s[1..] && Distinct(s[1..])
  {
    var t := s[1..];
    if Distinct(s) {
      forall i, j | 0 <= i < j < |t| ensures t[i] != t[j] {
        assert t[i] == s[i + 1] && t[j] == s[j + 1];
      }
    }
  }

  /** A list has no duplicates exactly when its set is as large as the list. */
  lemma {:induction false} DistinctIffSetSize<T(!new)>(s: seq<T>)
    ensures |ElemSet(s)| <= |s|
    ensures Distinct(s) <==> |ElemSet(s)| == |s|
  {
    if s != [] {
      var t := s[1..];
      DistinctIffSetSize(t);
      DistinctCons(s);
      assert ElemSet(s) == {s[0]} + ElemSet(t);
      if s[0] in t {
        assert ElemSet(s) == ElemSet(t);
      } else {
        assert s[0] !in ElemSet(t);
      }
    }
  }
}
