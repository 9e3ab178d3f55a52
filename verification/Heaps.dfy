/** The binary heap and its sort, in place: a sift moves elements into a hole and lands the one it holds with one
    write. Keys are totally ordered. */
module Heaps {
  import opened Prelude

  datatype Element<T> = Element(key: int, val: T)

  /** Whether a key comes first: the smallest where `min`, else the largest. */
  predicate Ahead(min: bool, x: int, y: int) {
    if min then x < y else y < x
  }

  function Parent(i: nat): nat
    requires i > 0
  {
    (i - 1) / 2
  }

  /** Within `from..sz`, no element comes before its parent. */
  ghost predicate HeapFrom<T>(min: bool, a: seq<Element<T>>, from: nat, sz: nat) {
    sz <= |a| && forall i :: from < i < sz && Parent(i) >= from ==> !Ahead(min, a[i].key, a[Parent(i)].key)
  }

  /** As `HeapFrom`, but for the children of `hole`, which still follow its parent. */
  ghost predicate HeapBut<T>(min: bool, a: seq<Element<T>>, from: nat, sz: nat, hole: nat) {
    && sz <= |a| && from <= hole < sz
    && (forall i :: from < i < sz && Parent(i) >= from && Parent(i) != hole ==> !Ahead(min, a[i].key, a[Parent(i)].key))
    && (forall i :: from < i < sz && Parent(i) == hole && hole > from && Parent(hole) >= from ==>
          !Ahead(min, a[i].key, a[Parent(hole)].key))
  }

  function Swap<T>(a: seq<T>, i: nat, j: nat): (b: seq<T>)
    requires i < |a| && j < |a|
    ensures |b| == |a|
  {
    a[i := a[j]][j := a[i]]
  }

  lemma SwapSame<T>(a: seq<T>, i: nat, j: nat)
    requires i < |a| && j < |a|
    ensures multiset(Swap(a, i, j)) == multiset(a)
  {
  }

  /** The hole moved down over the child that comes first. */
  lemma SiftStep<T>(min: bool, a: seq<Element<T>>, from: nat, sz: nat, hole: nat, child: nat)
    requires HeapBut(min, a, from, sz, hole) && hole < child < sz && Parent(child) == hole
    requires Ahead(min, a[child].key, a[hole].key)
    requires forall i :: from < i < sz && Parent(i) == hole ==> !Ahead(min, a[i].key, a[child].key)
    ensures HeapBut(min, Swap(a, hole, child), from, sz, child)
  {
  }

  lemma SiftStart<T>(min: bool, a: seq<Element<T>>, from: nat, sz: nat)
    requires from < sz && HeapFrom(min, a, from + 1, sz)
    ensures HeapBut(min, a, from, sz, from)
  {
  }

  lemma HoleDown<T>(s: seq<T>, i: nat, c: nat, e: T)
    requires i < c < |s|
    ensures s[i := s[c]][c := e] == Swap(s[i := e], i, c)
  {
  }

  /** One turn of a sift down: the child that comes first moved into the hole, `b` the heap with the held element there. */
  lemma SiftOn<T>(min: bool, m: seq<Element<T>>, b: seq<Element<T>>, root: nat, sz: nat, i: nat, child: nat, e: Element<T>)
    requires i < child < sz <= |m| && Parent(child) == i && b == m[i := e] && HeapBut(min, b, root, sz, i)
    requires Ahead(min, m[child].key, e.key)
    requires forall k :: root < k < sz && Parent(k) == i ==> !Ahead(min, m[k].key, m[child].key)
    ensures Swap(b, i, child) == m[i := m[child]][child := e] && HeapBut(min, Swap(b, i, child), root, sz, child)
    ensures multiset(Swap(b, i, child)) == multiset(b)
  {
    hide HeapBut, Swap, Ahead;
    SiftStep(min, b, root, sz, i, child);
    SwapSame(b, i, child);
    HoleDown(m, i, child, e);
  }

  lemma SiftDone<T>(min: bool, a: seq<Element<T>>, from: nat, sz: nat, hole: nat)
    requires HeapBut(min, a, from, sz, hole)
    requires forall i :: from < i < sz && Parent(i) == hole ==> !Ahead(min, a[i].key, a[hole].key)
    ensures HeapFrom(min, a, from, sz)
  {
  }

  /** Restores the heap from `root`, both of whose subtrees hold it. */
  method Heapify<T>(min: bool, a: array<Element<T>>, root: nat, sz: nat)
    requires root < sz <= a.Length && HeapFrom(min, a[..], root + 1, sz)
    modifies a
    ensures HeapFrom(min, a[..], root, sz) && multiset(a[..]) == multiset(old(a[..]))
    ensures forall k :: 0 <= k < a.Length && !(root <= k < sz) ==> a[k] == old(a[k])
  {
    hide HeapFrom, HeapBut, Swap;
    var i, e := root, a[root];
    var child := 2 * i + 1;
    ghost var b := a[..];
    SiftStart(min, b, root, sz);
    while child < sz
      invariant root <= i < sz && child == 2 * i + 1
      invariant b == a[..][i := e] && HeapBut(min, b, root, sz, i) && multiset(b) == multiset(old(a[..]))
      invariant forall k :: 0 <= k < a.Length && !(root <= k < sz) ==> a[k] == old(a[k])
      decreases sz - i
    {
      var r := child + 1;
      if r < sz && Ahead(min, a[r].key, a[child].key) {
        child := r;
      }
      if !Ahead(min, a[child].key, e.key) {
        break;
      }
      ghost var m := a[..];
      SiftOn(min, m, b, root, sz, i, child, e);
      b := Swap(b, i, child);
      a[i] := a[child];
      assert a[..] == m[i := m[child]];
      i := child;
      child := 2 * i + 1;
    }
    SiftDone(min, b, root, sz, i);
    a[i] := e;
    assert a[..] == b;
  }

  /** The first `sz` elements made a heap. */
  method BuildOf<T>(min: bool, a: array<Element<T>>, sz: nat)
    requires sz <= a.Length
    modifies a
    ensures HeapFrom(min, a[..], 0, sz) && multiset(a[..]) == multiset(old(a[..]))
    ensures forall k :: sz <= k < a.Length ==> a[k] == old(a[k])
  {
    var i := sz / 2;
    while i > 0
      invariant 0 <= i <= sz / 2 && HeapFrom(min, a[..], i, sz) && multiset(a[..]) == multiset(old(a[..]))
      invariant forall k :: sz <= k < a.Length ==> a[k] == old(a[k])
    {
      i := i - 1;
      Heapify(min, a, i, sz);
    }
  }

  /** The root of a heap comes before no other element is ahead of it. */
  lemma {:induction false} RootFirst<T>(min: bool, a: seq<Element<T>>, sz: nat, i: nat)
    requires HeapFrom(min, a, 0, sz) && i < sz
    ensures !Ahead(min, a[i].key, a[0].key)
  {
    if i > 0 {
      RootFirst(min, a, sz, Parent(i));
    }
  }

  /** No key is less, where the least come first; none is greater, where the greatest do. */
  predicate NoneBefore<T>(min: bool, all: seq<Element<T>>, key: int) {
    forall k :: 0 <= k < |all| ==> if min then key <= all[k].key else all[k].key <= key
  }

  /** A heap over an array with room to grow. */
  class Heap<T> {
    const min: bool
    const a: array<Element<T>>
    var len: nat

    /** Over the first `len` elements of an array, in whatever order they are. */
    constructor (min: bool, a: array<Element<T>>, len: nat)
      requires len <= a.Length
      ensures this.min == min && this.a == a && this.len == len
      ensures len <= 1 ==> Valid()
    {
      this.min, this.a, this.len := min, a, len;
    }

    ghost predicate Valid()
      reads this, a
    {
      len <= a.Length && HeapFrom(min, a[..], 0, len)
    }

    ghost function Elements(): multiset<Element<T>>
      requires len <= a.Length
      reads this, a
    {
      multiset(a[..len])
    }

    /** A heap of what is there. */
    method Build()
      requires len <= a.Length
      modifies a
      ensures Valid() && Elements() == old(Elements())
    {
      hide HeapFrom;
      ghost var m := a[..];
      BuildOf(min, a, len);
      SamePart(m, a[..], len);
    }

    method Push(e: Element<T>)
      requires Valid() && len < a.Length
      modifies this`len, a
      ensures Valid() && Elements() == old(Elements()) + multiset{e}
    {
      hide HeapFrom, Rising;
      a[len] := e;
      len := len + 1;
      Appended(min, old(a[..]), old(len), a[..len], e);
      SiftUp(len - 1, e);
      Grown(min, a[..len], a[..], len);
    }

    /** The held element up from `from`, past every parent it comes before, to where it lands. */
    method SiftUp(from: nat, e: Element<T>)
      requires from < len <= a.Length && a[from] == e && Rising(min, a[..len], from)
      requires from > 0 || HeapFrom(min, a[..len], 0, len)
      modifies a
      ensures HeapFrom(min, a[..len], 0, len) && multiset(a[..len]) == multiset(old(a[..len]))
    {
      hide HeapFrom, Rising, Swap, Ahead;
      var i: nat := from;
      ghost var b := a[..len];
      while i > 0
        invariant i < len && b == a[..len][i := e] && Rising(min, b, i)
        invariant i > 0 || HeapFrom(min, b, 0, |b|)
        invariant multiset(b) == multiset(old(a[..len]))
        decreases i
      {
        var p := (i - 1) / 2;
        if !Ahead(min, e.key, a[p].key) {
          Risen(min, b, i);
          break;
        }
        ghost var m := a[..len];
        RiseOn(min, m, b, i, e);
        b := Swap(b, i, p);
        a[i] := a[p];
        assert a[..len] == m[i := m[p]];
        i := p;
      }
      a[i] := e;
      assert a[..len] == b;
    }

    /** The first element, none where there is none. */
    method Pop() returns (r: Option<Element<T>>)
      requires Valid()
      modifies this`len, a
      ensures Valid() && (r.None? <==> old(len) == 0)
      ensures r.None? ==> len == old(len) && a[..] == old(a[..])
      ensures r.Some? ==> && old(Elements()) == Elements() + multiset{r.value}
                          && NoneBefore(min, old(a[..len]), r.value.key)
    {
      if len == 0 {
        return None;
      }
      var out := a[0];
      hide HeapFrom, Ahead, NoneBefore;
      ghost var was := a[..];
      PopStep(min, was, len);
      len := len - 1;
      a[0] := a[len];
      assert a[..] == was[0 := was[len]];
      if len > 0 {
        ghost var m := a[..];
        Heapify(min, a, 0, len);
        SamePart(m, a[..], len);
      }
      return Some(out);
    }
  }

  /** The first of a heap taken, the last in its place. */
  lemma PopStep<T>(min: bool, m: seq<Element<T>>, n: nat)
    requires 0 < n <= |m| && HeapFrom(min, m, 0, n)
    ensures var m' := m[0 := m[n - 1]];
            && HeapFrom(min, m', 1, n - 1) && (n == 1 ==> HeapFrom(min, m', 0, 0))
            && multiset(m[..n]) == multiset(m'[..n - 1]) + multiset{m[0]}
    ensures NoneBefore(min, m[..n], m[0].key)
  {
    forall k | 0 <= k < n
      ensures if min then m[0].key <= m[..n][k].key else m[..n][k].key <= m[0].key
    {
      RootFirst(min, m, n, k);
    }
    LastFirst(m[..n], m[0 := m[n - 1]][..n - 1]);
  }

  /** A heap but for element `i`, which may come before its parent; its children still follow that one. */
  ghost predicate Rising<T>(min: bool, a: seq<Element<T>>, i: nat) {
    && i < |a|
    && (forall k :: 0 < k < |a| && k != i ==> !Ahead(min, a[k].key, a[Parent(k)].key))
    && (forall k :: 0 < k < |a| && Parent(k) == i && i > 0 ==> !Ahead(min, a[k].key, a[Parent(i)].key))
  }

  /** An element put after a heap's. */
  lemma Appended<T>(min: bool, was: seq<Element<T>>, n: nat, b: seq<Element<T>>, e: Element<T>)
    requires n < |was| && HeapFrom(min, was, 0, n) && |b| == n + 1 && b[n] == e && forall k :: 0 <= k < n ==> b[k] == was[k]
    ensures Rising(min, b, n) && multiset(b) == multiset(was[..n]) + multiset{e} && b == b[n := e]
    ensures n > 0 || HeapFrom(min, b, 0, |b|)
  {
    assert b == was[..n] + [e];
  }

  lemma Risen<T>(min: bool, b: seq<Element<T>>, i: nat)
    requires Rising(min, b, i) && (i == 0 || !Ahead(min, b[i].key, b[Parent(i)].key))
    ensures HeapFrom(min, b, 0, |b|)
  {
  }

  lemma Grown<T>(min: bool, b: seq<Element<T>>, m: seq<Element<T>>, n: nat)
    requires n == |b| <= |m| && m[..n] == b && HeapFrom(min, b, 0, n)
    ensures HeapFrom(min, m, 0, n)
  {
    assert forall k :: 0 <= k < n ==> m[k] == b[k];
  }

  lemma HoleUp<T>(s: seq<T>, i: nat, p: nat, e: T)
    requires p < i < |s|
    ensures s[i := s[p]][p := e] == Swap(s[i := e], i, p)
  {
  }

  lemma RiseStep<T>(min: bool, a: seq<Element<T>>, i: nat)
    requires 0 < i < |a| && Rising(min, a, i) && Ahead(min, a[i].key, a[Parent(i)].key)
    ensures Rising(min, Swap(a, i, Parent(i)), Parent(i))
  {
    hide Rising, Swap, Ahead;
    var p, b := Parent(i), Swap(a, i, Parent(i));
    forall k: nat | 0 < k < |b|
      ensures k != p ==> !Ahead(min, b[k].key, b[Parent(k)].key)
      ensures Parent(k) == p && p > 0 ==> !Ahead(min, b[k].key, b[Parent(p)].key)
    {
      RiseAt(min, a, i, k);
    }
    IsRising(min, b, p);
  }

  lemma IsRising<T>(min: bool, b: seq<Element<T>>, p: nat)
    requires p < |b|
    requires forall k: nat :: 0 < k < |b| && k != p ==> !Ahead(min, b[k].key, b[Parent(k)].key)
    requires forall k: nat :: 0 < k < |b| && Parent(k) == p && p > 0 ==> !Ahead(min, b[k].key, b[Parent(p)].key)
    ensures Rising(min, b, p)
  {
    hide Ahead, Parent;
  }

  /** Element `k` once `i` and its parent have changed places. */
  lemma RiseAt<T>(min: bool, a: seq<Element<T>>, i: nat, k: nat)
    requires Rising(min, a, i) && i > 0 && Ahead(min, a[i].key, a[Parent(i)].key) && 0 < k < |a|
    ensures var p, b := Parent(i), Swap(a, i, Parent(i));
            && (k != p ==> !Ahead(min, b[k].key, b[Parent(k)].key))
            && (Parent(k) == p && p > 0 ==> !Ahead(min, b[k].key, b[Parent(p)].key))
  {
    var p := Parent(i);
    if p > 0 {
      assert !Ahead(min, a[p].key, a[Parent(p)].key);
    }
    if k != i {
      assert !Ahead(min, a[k].key, a[Parent(k)].key);
    }
  }

  /** One turn of a sift up: the parent moved into the hole, `b` the heap with the held element there. */
  lemma RiseOn<T>(min: bool, m: seq<Element<T>>, b: seq<Element<T>>, i: nat, e: Element<T>)
    requires 0 < i < |m| && b == m[i := e] && Rising(min, b, i) && Ahead(min, e.key, m[Parent(i)].key)
    ensures var p := Parent(i);
            && Swap(b, i, p) == m[i := m[p]][p := e] && Rising(min, Swap(b, i, p), p)
            && multiset(Swap(b, i, p)) == multiset(b) && (p > 0 || HeapFrom(min, Swap(b, i, p), 0, |b|))
  {
    hide Rising, Swap, Ahead, HeapFrom;
    var p := Parent(i);
    SwapSame(b, i, p);
    RiseStep(min, b, i);
    HoleUp(m, i, p, e);
    if p == 0 {
      Risen(min, Swap(b, i, p), 0);
    }
  }

  /** The last element in the first's place. */
  lemma LastFirst<T>(was: seq<T>, now: seq<T>)
    requires |was| > 0 && |now| == |was| - 1
    requires forall k :: 0 <= k < |now| ==> now[k] == was[if k == 0 then |was| - 1 else k]
    ensures multiset(was) == multiset(now) + multiset{was[0]}
  {
    var n := |now|;
    assert was == [was[0]] + was[1..];
    if n > 0 {
      assert was[1..] == was[1..n] + [was[n]] && now == [was[n]] + was[1..n];
    }
  }

  /** Elements past `n` the same, those before it are the same ones. */
  lemma SamePart<T>(m: seq<T>, m': seq<T>, n: nat)
    requires |m| == |m'| && n <= |m| && multiset(m) == multiset(m')
    requires forall k :: n <= k < |m| ==> m'[k] == m[k]
    ensures multiset(m'[..n]) == multiset(m[..n])
  {
    assert m == m[..n] + m[n..] && m' == m'[..n] + m'[n..];
    assert multiset(m) == multiset(m[..n]) + multiset(m[n..]) && multiset(m') == multiset(m'[..n]) + multiset(m'[n..]);
    assert m[n..] == m'[n..];
    assert multiset(m[..n]) == multiset(m) - multiset(m[n..]) && multiset(m'[..n]) == multiset(m') - multiset(m'[n..]);
  }

  // The sort

  ghost predicate Sorted<T>(a: seq<Element<T>>, from: nat) {
    forall i, j :: from <= i < j < |a| ==> a[i].key <= a[j].key
  }

  method HeapSort<T>(a: array<Element<T>>)
    modifies a
    ensures Sorted(a[..], 0) && multiset(a[..]) == multiset(old(a[..]))
  {
    hide HeapFrom, Sorted, Swap, Placed, Ahead;
    var n := a.Length;
    SortedStart(a[..]);
    if n <= 1 {
      return;
    }
    BuildOf(false, a, n);
    SortedStart(a[..]);
    var end := n - 1;
    while end > 0
      invariant 0 <= end < n && HeapFrom(false, a[..], 0, end + 1) && multiset(a[..]) == multiset(old(a[..]))
      invariant Placed(a[..], end + 1)
    {
      Extract(a, end);
      end := end - 1;
    }
    AllPlaced(a[..]);
  }

  /** The largest of the first `end + 1` put in its place, the rest a heap again. */
  method Extract<T>(a: array<Element<T>>, end: nat)
    requires 0 < end < a.Length && HeapFrom(false, a[..], 0, end + 1) && Placed(a[..], end + 1)
    modifies a
    ensures HeapFrom(false, a[..], 0, end) && Placed(a[..], end) && multiset(a[..]) == multiset(old(a[..]))
  {
    hide HeapFrom, Sorted, Swap, Placed, Ahead;
    ghost var m := a[..];
    a[0], a[end] := a[end], a[0];
    ghost var swapped := a[..];
    SwapFirst(m, swapped, end);
    Heapify(false, a, 0, end);
    SamePart(swapped, a[..], end);
    PlacedOn(swapped, a[..], end);
  }

  lemma SortedStart<T>(a: seq<Element<T>>)
    ensures |a| <= 1 ==> Sorted(a, 0)
    ensures Placed(a, |a|)
  {
  }

  /** From `n` on the elements are in order, and none before is larger. */
  ghost predicate Placed<T>(a: seq<Element<T>>, n: nat) {
    && Sorted(a, n) && forall i, j :: 0 <= i < n <= j < |a| ==> a[i].key <= a[j].key
  }

  lemma AllPlaced<T>(a: seq<Element<T>>)
    requires Placed(a, 1)
    ensures Sorted(a, 0)
  {
  }

  /** A heap's largest, swapped with its last, is in its place; the rest is a heap but for its root. */
  lemma SwapFirst<T>(m: seq<Element<T>>, m': seq<Element<T>>, end: nat)
    requires 0 < end < |m| && HeapFrom(false, m, 0, end + 1) && Placed(m, end + 1)
    requires |m'| == |m| && m'[0] == m[end] && m'[end] == m[0] && forall k :: 0 < k < |m| && k != end ==> m'[k] == m[k]
    ensures multiset(m') == multiset(m) && Placed(m', end) && HeapFrom(false, m', 1, end)
  {
    assert m' == Swap(m, 0, end);
    SwapSame(m, 0, end);
    MaxFirst(m, end + 1);
  }

  lemma PlacedOn<T>(m: seq<Element<T>>, m': seq<Element<T>>, end: nat)
    requires |m| == |m'| && end < |m| && Placed(m, end) && multiset(m[..end]) == multiset(m'[..end])
    requires forall k :: end <= k < |m| ==> m'[k] == m[k]
    ensures Placed(m', end)
  {
    forall i, j | 0 <= i < end <= j < |m|
      ensures m'[i].key <= m'[j].key
    {
      assert m'[..end][i] in multiset(m'[..end]);
      assert m'[i] in m[..end];
    }
  }

  lemma MaxFirst<T>(a: seq<Element<T>>, sz: nat)
    requires HeapFrom(false, a, 0, sz)
    ensures forall i :: 0 <= i < sz ==> a[i].key <= a[0].key
  {
    forall i | 0 <= i < sz
      ensures a[i].key <= a[0].key
    {
      RootFirst(false, a, sz, i);
    }
  }
}
