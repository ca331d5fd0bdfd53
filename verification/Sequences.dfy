/** Sequences without repetition, and permutations of sequences as equality of multisets. */
module Sequences {

  predicate Distinct<T(==)>(s: seq<T>) {
    forall i, j :: 0 <= i < j < |s| ==> s[i] != s[j]
  }

  lemma Tail<T>(s: seq<T>)
    requires s != []
    ensures multiset(s[1..]) == multiset(s) - multiset{s[0]}
  {
    assert s == [s[0]] + s[1..];
  }

  lemma TakeOut<T>(s: seq<T>, i: nat)
    requires i < |s|
    ensures multiset(s[..i] + s[i + 1..]) == multiset(s) - multiset{s[i]}
  {
    assert s == s[..i] + [s[i]] + s[i + 1..];
  }

  lemma SameSize<T>(a: seq<T>, b: seq<T>)
    requires multiset(a) == multiset(b)
    ensures |a| == |b|
    ensures forall x :: x in a <==> x in b
  {
    assert |multiset(a)| == |a| && |multiset(b)| == |b|;
    assert forall x :: x in a <==> x in multiset(a);
  }

  function Map<T, U>(f: T -> U, s: seq<T>): seq<U> {
    seq(|s|, i requires 0 <= i < |s| => f(s[i]))
  }

  lemma MapTail<T, U>(f: T -> U, s: seq<T>)
    requires s != []
    ensures f(s[0]) in multiset(Map(f, s)) && multiset(Map(f, s)) - multiset{f(s[0])} == multiset(Map(f, s[1..]))
  {
    var m := Map(f, s);
    assert m[0] == f(s[0]) && m[1..] == Map(f, s[1..]);
    Tail(m);
    assert m[0] in m;
  }

  lemma MapTakeOut<T, U>(f: T -> U, s: seq<T>, j: nat)
    requires j < |s|
    ensures f(s[j]) in multiset(Map(f, s))
    ensures multiset(Map(f, s)) - multiset{f(s[j])} == multiset(Map(f, s[..j] + s[j + 1..]))
  {
    var m := Map(f, s);
    assert m[j] == f(s[j]) && m[..j] + m[j + 1..] == Map(f, s[..j] + s[j + 1..]);
    TakeOut(m, j);
    assert m[j] in m;
  }

  lemma Restore<T>(a: multiset<T>, b: multiset<T>, x: T)
    requires x in a && x in b && a - multiset{x} == b - multiset{x}
    ensures a == b
  {
    assert a == (a - multiset{x}) + multiset{x};
    assert b == (b - multiset{x}) + multiset{x};
  }

  lemma {:induction false} MapPermutes<T, U>(f: T -> U, a: seq<T>, b: seq<T>)
    requires multiset(a) == multiset(b)
    ensures multiset(Map(f, a)) == multiset(Map(f, b))
  {
    SameSize(a, b);
    if a == [] {
    } else {
      assert a[0] in b;
      var j :| 0 <= j < |b| && b[j] == a[0];
      var rest := b[..j] + b[j + 1..];
      TakeOut(b, j);
      Tail(a);
      MapPermutes(f, a[1..], rest);
      MapTail(f, a);
      MapTakeOut(f, b, j);
      Restore(multiset(Map(f, a)), multiset(Map(f, b)), f(a[0]));
    }
  }
}
