/** What several of the modules share: an optional value, the lesser and the greater, a sequence's elements, and
    sequences with nothing twice. */
module Prelude {
  datatype Option<T> = None | Some(value: T)

  function Min(a: nat, b: nat): nat {
    if a < b then a else b
  }

  function Max(a: nat, b: nat): nat {
    if a < b then b else a
  }

  function Elems(q: seq<nat>): set<nat> {
    set x | x in q
  }

  ghost predicate NoDup(q: seq<nat>) {
    forall i, j :: 0 <= i < j < |q| ==> q[i] != q[j]
  }

  /** The first of a sequence, and what is left of it. */
  lemma FirstGone(q: seq<nat>)
    requires NoDup(q) && q != []
    ensures NoDup(q[1..]) && q[0] !in q[1..] && forall x :: x in q <==> x == q[0] || x in q[1..]
  {
    var t := q[1..];
    assert forall i, j :: 0 <= i < j < |t| ==> t[i] == q[i + 1] && t[j] == q[j + 1];
    assert q == [q[0]] + t;
  }
}
