/** Sets collected from a list, one element after the other. */
module Unions {

  ghost function Elements<T>(s: seq<T>): set<T> {
    set x | x in s
  }

  ghost function UnionOver<T, U>(s: seq<T>, f: T -> set<U>): set<U> {
    if s == [] then {} else UnionOver(s[..|s| - 1], f) + f(s[|s| - 1])
  }

  lemma {:induction false} UnionOverMember<T(!new), U>(s: seq<T>, f: T -> set<U>, x: U)
    ensures x in UnionOver(s, f) <==> exists y :: y in s && x in f(y)
  {
    if s != [] {
      var front, last := s[..|s| - 1], s[|s| - 1];
      UnionOverMember(front, f, x);
      assert s == front + [last];
      if y :| y in s && x in f(y) {
        assert y in front || y == last;
      }
    }
  }

  lemma UnionOverNext<T, U>(s: seq<T>, i: nat, f: T -> set<U>)
    requires i < |s|
    ensures UnionOver(s[..i + 1], f) == UnionOver(s[..i], f) + f(s[i])
  {
    assert s[..i + 1][..i] == s[..i];
  }

  lemma ElementsConcat<T>(a: seq<T>, b: seq<T>)
    ensures Elements(a + b) == Elements(a) + Elements(b)
  {
  }

  /** Appends the elements of a set, in any order, except for those that are there already. */
  method AppendMissing<T(==)>(labels: seq<T>, more: set<T>) returns (all: seq<T>)
    ensures forall x :: x in all <==> x in labels || x in more
  {
    all := labels;
    var rest := more;
    while rest != {}
      invariant rest <= more
      invariant forall x :: x in all <==> x in labels || (x in more && x !in rest)
      decreases rest
    {
      var x :| x in rest;
      if x !in all {
        all := all + [x];
      }
      rest := rest - {x};
    }
  }
}
