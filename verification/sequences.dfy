/** Lists built by PHP loops: the distinct values of a list in the order they are
    first seen (in_array() and $list[] = $x), and one entry per input together
    with its position (foreach ($files as $index => $file)). */
module Sequences {

  predicate NoDuplicates<T(==)>(s: seq<T>) {
    forall i, j :: 0 <= i < j < |s| ==> s[i] != s[j]
  }

  /** The values of s without repeats, each at the place it first occurs. */
  function Distinct<T(==)>(s: seq<T>): (r: seq<T>)
    ensures |r| <= |s|
    ensures |s| > 0 ==> |r| > 0 && r[0] == s[0]
  {
    if s == [] then []
    else
      var d := Distinct(s[..|s| - 1]);
      if s[|s| - 1] in d then d else d + [s[|s| - 1]]
  }

  /** Distinct repeats no value. */
  lemma {:induction false} DistinctNoDuplicates<T>(s: seq<T>)
    ensures NoDuplicates(Distinct(s))
  {
    if s != [] {
      DistinctNoDuplicates(s[..|s| - 1]);
    }
  }

  /** Distinct keeps exactly the values of the list. */
  lemma {:induction false} DistinctMembers<T>(s: seq<T>, x: T)
    ensures x in Distinct(s) <==> x in s
  {
    if s != [] {
      var p := s[..|s| - 1];
      DistinctMembers(p, x);
      DistinctMembers(p, s[|s| - 1]);
      assert s == p + [s[|s| - 1]];
    }
  }

  /** Taking one more entry: a value already seen leaves the list unchanged, a new
      one is appended. */
  lemma DistinctAppend<T>(s: seq<T>, x: T)
    ensures Distinct(s + [x]) == if x in s then Distinct(s) else Distinct(s) + [x]
  {
    var t := s + [x];
    assert t[..|t| - 1] == s;
    DistinctMembers(s, x);
  }

  /** A list has at most one distinct value exactly when all its entries equal its first. */
  lemma DistinctAtMostOne<T>(s: seq<T>)
    ensures |Distinct(s)| <= 1 <==> forall i :: 0 <= i < |s| ==> s[i] == s[0]
  {
    var r := Distinct(s);
    if |r| <= 1 {
      forall i | 0 <= i < |s| ensures s[i] == s[0] {
        DistinctMembers(s, s[i]);
      }
    } else {
      DistinctNoDuplicates(s);
      assert r[0] != r[1];
      DistinctMembers(s, r[1]);
      var i :| 0 <= i < |s| && s[i] == r[1];
      assert s[i] != s[0];
    }
  }

  /** f applied to every entry, in order. */
  function Map<A, B>(xs: seq<A>, f: A -> B): (r: seq<B>)
    ensures |r| == |xs|
    ensures forall i :: 0 <= i < |xs| ==> r[i] == f(xs[i])
  {
    seq(|xs|, i requires 0 <= i < |xs| => f(xs[i]))
  }

  /** Mapping one more entry appends its image. */
  lemma MapStep<A, B>(xs: seq<A>, f: A -> B, k: nat)
    requires k < |xs|
    ensures Map(xs[..k + 1], f) == Map(xs[..k], f) + [f(xs[k])]
  {
    var l, r := Map(xs[..k + 1], f), Map(xs[..k], f) + [f(xs[k])];
    assert forall i :: 0 <= i < |l| ==> l[i] == r[i];
  }

  /** f applied to every entry together with its position, in order. */
  function MapWithIndex<A, B>(xs: seq<A>, f: (nat, A) -> B): (r: seq<B>)
    ensures |r| == |xs|
    ensures forall i :: 0 <= i < |xs| ==> r[i] == f(i, xs[i])
  {
    seq(|xs|, i requires 0 <= i < |xs| => f(i, xs[i]))
  }

  /** Handling entry k after the first k entries appends exactly its own result. */
  lemma MapWithIndexStep<A, B>(xs: seq<A>, f: (nat, A) -> B, k: nat)
    requires k < |xs|
    ensures MapWithIndex(xs[..k + 1], f) == MapWithIndex(xs[..k], f) + [f(k, xs[k])]
  {
    var l, r := MapWithIndex(xs[..k + 1], f), MapWithIndex(xs[..k], f) + [f(k, xs[k])];
    assert forall i :: 0 <= i < |l| ==> l[i] == r[i];
  }
}
