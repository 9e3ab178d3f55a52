/** The buddy allocator's states and steps as values: which node is what, each bucket's free list in order,
    and the high-water mark. Addresses are offsets from the base. `BuddyMalloc` is proved to take exactly
    these steps in memory; what its users are promised is proved here and in `BuddyProperties`. */
module BuddySpec {
  import opened Arith
  import opened BuddyTree
  import opened Prelude

  /** A free block's two links, in bytes. */
  const LIST: nat := 8

  /** The bytes a tree is laid over: the least and the largest block, and how many bytes there are. */
  datatype Range = Range(minLog2: nat, maxLog2: nat, bytes: nat) {
    ghost predicate Good() {
      3 <= minLog2 && minLog2 + 3 <= maxLog2 <= minLog2 + 32 && LIST <= bytes
    }

    function Buckets(): nat
      requires Good()
    {
      maxLog2 - minLog2 + 1
    }
  }

  /** What a node is. `Absent`: part of a larger block, or outside the tree. `Top`: above the root, the tree
      not yet grown to it. */
  datatype Status = Absent | Top | Free | Used | Split {
    predicate InUse() { Used? || Split? }
    predicate Present() { Free? || Used? || Split? }
  }

  /** `limit` is the root's bucket; `max` the high-water mark. */
  datatype State = State(limit: nat, st: seq<Status>, lists: seq<seq<nat>>, max: nat)

  // The invariant

  ghost predicate NodeOk(st: seq<Status>, p: nat)
    requires p < |st|
  {
    if 2 * p + 2 < |st| then
      var l, r := st[2 * p + 1], st[2 * p + 2];
      match st[p]
      case Split => l.Present() && r.Present() && !(l.Free? && r.Free?)
      case Top => !l.Absent? && r.Absent?
      case _ => l.Absent? && r.Absent?
    else
      !st[p].Split? && !st[p].Top?
  }

  ghost predicate Shape(cnt: nat, st: seq<Status>, limit: nat) {
    && limit < cnt
    && |st| == First(cnt)
    && (forall p :: 0 <= p < |st| ==> NodeOk(st, p))
    && RootOk(st, limit)
  }

  /** The root is the first node of bucket `limit`, and all above it is yet to grow. */
  ghost predicate RootOk(st: seq<Status>, limit: nat) {
    && First(limit) < |st|
    && st[First(limit)].Present()
    && (limit > 0 ==> First(limit - 1) < |st| && st[First(limit - 1)].Top?)
  }

  ghost predicate ListOk(st: seq<Status>, q: seq<nat>, b: nat) {
    && (forall i :: i in q <==> Listed(st, i, b))
    && NoDup(q)
  }

  predicate Listed(st: seq<Status>, i: nat, b: nat) {
    i < |st| && st[i].Free? && Depth(i) == b
  }

  ghost predicate Lists(cnt: nat, st: seq<Status>, lists: seq<seq<nat>>) {
    && |lists| == cnt
    && forall b :: 0 <= b < cnt ==> ListOk(st, lists[b], b)
  }

  /** What lies below the mark: every free block's links, and every used block whole but `but`'s. */
  ghost predicate Below(m: nat, st: seq<Status>, max: nat, but: int) {
    forall i :: 0 <= i < |st| ==> BelowAt(m, st[i], max, i, but)
  }

  ghost predicate BelowAt(m: nat, s: Status, max: nat, i: nat, but: int) {
    && (s.Present() ==> Off(m, i) + LIST <= max)
    && (s.Used? && i != but ==> Off(m, i) + Size(m, Depth(i)) <= max)
  }

  ghost predicate Inv(r: Range, s: State) {
    && Core(r, s)
    && Below(r.maxLog2, s.st, s.max, -1)
  }

  ghost predicate Core(r: Range, s: State) {
    && r.Good()
    && Shape(r.Buckets(), s.st, s.limit)
    && Lists(r.Buckets(), s.st, s.lists)
    && s.max <= r.bytes
  }

  // Micro steps: each keeps the shape and the lists

  /** A free node leaves its list and is used. */
  function Use(s: State, b: nat, i: nat): State
    requires b < |s.lists| && i < |s.st|
  {
    s.(st := s.st[i := Used], lists := s.lists[b := Without(s.lists[b], i)])
  }

  /** A used node is split: its left child used, its right child listed. */
  function SplitStep(s: State, b: nat, i: nat): State
    requires b + 1 < |s.lists| && 2 * i + 2 < |s.st|
  {
    s.(st := s.st[i := Split][2 * i + 1 := Used][2 * i + 2 := Free],
       lists := s.lists[b + 1 := s.lists[b + 1] + [2 * i + 2]])
  }

  /** A used node and its free buddy become their used parent. */
  function MergeStep(s: State, b: nat, i: nat): State
    requires b < |s.lists| && 0 < i < |s.st| && Sibling(i) < |s.st|
  {
    s.(st := s.st[i := Absent][Sibling(i) := Absent][Parent(i) := Used],
       lists := s.lists[b := Without(s.lists[b], Sibling(i))])
  }

  /** A used node is free, at the back of its list. */
  function Settle(s: State, b: nat, i: nat): State
    requires b < |s.lists| && i < |s.st|
  {
    s.(st := s.st[i := Free], lists := s.lists[b := s.lists[b] + [i]])
  }

  /** The tree all free, its root becomes the node above. */
  function RaiseFree(s: State): State
    requires 0 < s.limit < |s.lists| && First(s.limit) < |s.st| && First(s.limit - 1) < |s.st|
  {
    var root, top := First(s.limit), First(s.limit - 1);
    s.(limit := s.limit - 1,
       st := s.st[root := Absent][top := Free],
       lists := s.lists[s.limit := Without(s.lists[s.limit], root)][s.limit - 1 := [top]])
  }

  /** The tree in use, the node above is split over it and a free right child. */
  function RaiseUsed(s: State): State
    requires 0 < s.limit < |s.lists| && First(s.limit) + 1 < |s.st| && First(s.limit - 1) < |s.st|
  {
    var right, top := First(s.limit) + 1, First(s.limit - 1);
    s.(limit := s.limit - 1,
       st := s.st[top := Split][right := Free],
       lists := s.lists[s.limit := s.lists[s.limit] + [right]][s.limit - 1 := []])
  }

  function Without(q: seq<nat>, i: nat): seq<nat> {
    if q == [] then []
    else if q[0] == i then q[1..]
    else [q[0]] + Without(q[1..], i)
  }

  // The steps' lemmas: lists

  lemma {:induction false} WithoutMembers(q: seq<nat>, i: nat)
    requires NoDup(q)
    ensures NoDup(Without(q, i))
    ensures forall x :: x in Without(q, i) <==> x in q && x != i
  {
    if q != [] {
      var t := q[1..];
      assert forall x, y :: 0 <= x < y < |t| ==> t[x] == q[x + 1] && t[y] == q[y + 1];
      assert NoDup(t);
      WithoutMembers(t, i);
      assert forall x :: x in q <==> x == q[0] || x in t;
      assert q[0] !in t;
      if q[0] != i {
        var w := Without(t, i);
        assert Without(q, i) == [q[0]] + w;
        assert q[0] !in w;
        forall x, y | 0 <= x < y < |w| + 1
          ensures ([q[0]] + w)[x] != ([q[0]] + w)[y]
        {
          assert w[y - 1] in w;
        }
      }
    }
  }

  lemma WithoutListOk(st: seq<Status>, st': seq<Status>, q: seq<nat>, b: nat, i: nat)
    requires ListOk(st, q, b)
    requires forall x :: Listed(st', x, b) <==> Listed(st, x, b) && x != i
    ensures ListOk(st', Without(q, i), b)
  {
    WithoutMembers(q, i);
  }

  lemma AppendListOk(st: seq<Status>, st': seq<Status>, q: seq<nat>, b: nat, i: nat)
    requires ListOk(st, q, b)
    requires !Listed(st, i, b)
    requires forall x :: Listed(st', x, b) <==> Listed(st, x, b) || x == i
    ensures ListOk(st', q + [i], b)
  {
    assert i !in q;
    forall x, y | 0 <= x < y < |q| + 1
      ensures (q + [i])[x] != (q + [i])[y]
    {
    }
  }

  lemma SameListOk(st: seq<Status>, st': seq<Status>, q: seq<nat>, b: nat)
    requires ListOk(st, q, b)
    requires forall x :: Listed(st', x, b) <==> Listed(st, x, b)
    ensures ListOk(st', q, b)
  {
  }

  lemma ListsAppend(cnt: nat, st: seq<Status>, st': seq<Status>, lists: seq<seq<nat>>, b: nat, i: nat)
    requires Lists(cnt, st, lists) && b < cnt
    requires !Listed(st, i, b)
    requires forall x, c :: Listed(st', x, c) <==> Listed(st, x, c) || (x == i && c == b)
    ensures Lists(cnt, st', lists[b := lists[b] + [i]])
  {
    var lists' := lists[b := lists[b] + [i]];
    forall c | 0 <= c < cnt
      ensures ListOk(st', lists'[c], c)
    {
      assert ListOk(st, lists[c], c);
      if c == b {
        AppendListOk(st, st', lists[b], b, i);
      } else {
        SameListOk(st, st', lists[c], c);
      }
    }
  }

  lemma ListsWithout(cnt: nat, st: seq<Status>, st': seq<Status>, lists: seq<seq<nat>>, b: nat, i: nat)
    requires Lists(cnt, st, lists) && b < cnt
    requires forall x, c :: Listed(st', x, c) <==> Listed(st, x, c) && !(x == i && c == b)
    ensures Lists(cnt, st', lists[b := Without(lists[b], i)])
  {
    var lists' := lists[b := Without(lists[b], i)];
    forall c | 0 <= c < cnt
      ensures ListOk(st', lists'[c], c)
    {
      assert ListOk(st, lists[c], c);
      if c == b {
        WithoutListOk(st, st', lists[b], b, i);
      } else {
        SameListOk(st, st', lists[c], c);
      }
    }
  }

  /** Only node `i` changes, so only its list can. */
  lemma ListedUpdate(st: seq<Status>, i: nat, v: Status)
    requires i < |st|
    ensures forall x, c :: Listed(st[i := v], x, c) <==> (x != i && Listed(st, x, c)) || (x == i && v.Free? && c == Depth(i))
  {
    var st' := st[i := v];
    forall x: nat, c: nat
      ensures Listed(st', x, c) <==> (x != i && Listed(st, x, c)) || (x == i && v.Free? && c == Depth(i))
    {
      if x < |st| && x != i {
        assert st'[x] == st[x];
      }
    }
  }

  // The steps' lemmas

  lemma UseCore(r: Range, s: State, b: nat, i: nat)
    requires Core(r, s) && b < r.Buckets()
    requires Listed(s.st, i, b)
    ensures Core(r, Use(s, b, i))
  {
    var st' := s.st[i := Used];
    forall p | 0 <= p < |st'|
      ensures NodeOk(st', p)
    {
      assert NodeOk(s.st, p);
    }
    ListedUpdate(s.st, i, Used);
    ListsWithout(r.Buckets(), s.st, st', s.lists, b, i);
  }

  /** Whether a used node can be free as it stands: its buddy, if it has one, is not. */
  predicate Unmergeable(s: State, i: nat)
    requires i < |s.st|
  {
    i == First(s.limit) || (0 < i && Sibling(i) < |s.st| && !s.st[Sibling(i)].Free?)
  }

  lemma SettleShape(cnt: nat, s: State, i: nat)
    requires Shape(cnt, s.st, s.limit) && i < |s.st|
    requires s.st[i].Used? && Unmergeable(s, i)
    ensures Shape(cnt, s.st[i := Free], s.limit)
  {
    var st' := s.st[i := Free];
    if i == First(s.limit) && s.limit > 0 {
      DepthFirst(s.limit);
    }
    forall p | 0 <= p < |st'|
      ensures NodeOk(st', p)
    {
      assert NodeOk(s.st, p);
    }
  }

  lemma SettleCore(r: Range, s: State, i: nat)
    requires Core(r, s) && i < |s.st|
    requires s.st[i].Used? && Unmergeable(s, i)
    ensures Depth(i) < r.Buckets() && Core(r, Settle(s, Depth(i), i))
  {
    DepthBelow(i, r.Buckets());
    SettleShape(r.Buckets(), s, i);
    ListedUpdate(s.st, i, Free);
    ListsAppend(r.Buckets(), s.st, s.st[i := Free], s.lists, Depth(i), i);
  }

  lemma SplitShape(cnt: nat, st: seq<Status>, limit: nat, i: nat)
    requires Shape(cnt, st, limit) && 2 * i + 2 < |st|
    requires st[i].Used?
    ensures st[2 * i + 1].Absent? && st[2 * i + 2].Absent?
    ensures Shape(cnt, st[i := Split][2 * i + 1 := Used][2 * i + 2 := Free], limit)
  {
    var st' := st[i := Split][2 * i + 1 := Used][2 * i + 2 := Free];
    assert NodeOk(st, i);
    forall p | 0 <= p < |st'|
      ensures NodeOk(st', p)
    {
      assert NodeOk(st, p);
      if p == 2 * i + 1 || p == 2 * i + 2 {
        assert st[p].Absent?;
      }
    }
  }

  lemma SplitListed(st: seq<Status>, i: nat)
    requires 2 * i + 2 < |st| && st[i].Used? && st[2 * i + 1].Absent? && st[2 * i + 2].Absent?
    ensures var st' := st[i := Split][2 * i + 1 := Used][2 * i + 2 := Free];
            forall x, c :: Listed(st', x, c) <==> Listed(st, x, c) || (x == 2 * i + 2 && c == Depth(i) + 1)
  {
    assert Depth(2 * i + 2) == Depth(i) + 1;
  }

  lemma SplitCore(r: Range, s: State, i: nat)
    requires Core(r, s) && 2 * i + 2 < |s.st|
    requires s.st[i].Used?
    ensures Depth(i) + 1 < r.Buckets()
    ensures Core(r, SplitStep(s, Depth(i), i))
  {
    hide NodeOk, ListOk, Listed, Depth, First, RootOk;
    CoreSizes(r, s);
    ChildDepth(i);
    DepthBelow(2 * i + 2, r.Buckets());
    SplitShape(r.Buckets(), s.st, s.limit, i);
    SplitListed(s.st, i);
    NotListed(s.st, 2 * i + 2, Depth(i) + 1);
    ListsAppend(r.Buckets(), s.st, s.st[i := Split][2 * i + 1 := Used][2 * i + 2 := Free], s.lists, Depth(i) + 1, 2 * i + 2);
  }

  lemma NotListed(st: seq<Status>, i: nat, b: nat)
    requires i < |st| && !st[i].Free?
    ensures !Listed(st, i, b)
  {
  }

  lemma ChildDepth(i: nat)
    ensures Depth(2 * i + 1) == Depth(i) + 1 == Depth(2 * i + 2)
  {
  }

  lemma CoreSizes(r: Range, s: State)
    requires Core(r, s)
    ensures r.Good() && |s.st| == First(r.Buckets()) && |s.lists| == r.Buckets() && s.limit < r.Buckets()
    ensures First(s.limit) < |s.st| && s.st[First(s.limit)].Present() && s.max <= r.bytes
    ensures |s.st| % 2 == 1
  {
  }

  lemma MergeShape(cnt: nat, st: seq<Status>, limit: nat, i: nat)
    requires Shape(cnt, st, limit) && 0 < i < |st| && Sibling(i) < |st|
    requires st[i].Used? && st[Sibling(i)].Free?
    ensures st[Parent(i)].Split?
    ensures Shape(cnt, st[i := Absent][Sibling(i) := Absent][Parent(i) := Used], limit)
  {
    var u := Parent(i);
    var st' := st[i := Absent][Sibling(i) := Absent][u := Used];
    assert NodeOk(st, u);
    if limit > 0 {
      DepthFirst(limit);
    }
    forall p | 0 <= p < |st'|
      ensures NodeOk(st', p)
    {
      assert NodeOk(st, p);
    }
  }

  lemma MergeListed(st: seq<Status>, i: nat)
    requires 0 < i < |st| && Sibling(i) < |st| && st[i].Used? && st[Sibling(i)].Free? && st[Parent(i)].Split?
    ensures var st' := st[i := Absent][Sibling(i) := Absent][Parent(i) := Used];
            forall x, c :: Listed(st', x, c) <==> Listed(st, x, c) && !(x == Sibling(i) && c == Depth(i))
  {
    assert Depth(Sibling(i)) == Depth(i);
  }

  lemma MergeCore(r: Range, s: State, i: nat)
    requires Core(r, s) && 0 < i < |s.st| && Sibling(i) < |s.st|
    requires s.st[i].Used? && s.st[Sibling(i)].Free?
    ensures Depth(i) < r.Buckets()
    ensures Core(r, MergeStep(s, Depth(i), i))
  {
    hide NodeOk, ListOk, Listed, Depth, First, RootOk, Sibling;
    CoreSizes(r, s);
    DepthBelow(i, r.Buckets());
    MergeShape(r.Buckets(), s.st, s.limit, i);
    MergeListed(s.st, i);
    ListsWithout(r.Buckets(), s.st, s.st[i := Absent][Sibling(i) := Absent][Parent(i) := Used], s.lists, Depth(i), Sibling(i));
  }

  lemma RootFacts(cnt: nat, st: seq<Status>, limit: nat)
    requires Shape(cnt, st, limit) && limit > 0
    ensures First(limit) + 1 < |st|
    ensures Depth(First(limit)) == limit == Depth(First(limit) + 1)
    ensures Depth(First(limit - 1)) == limit - 1
    ensures Parent(First(limit)) == First(limit - 1) == Parent(First(limit) + 1)
    ensures 2 * First(limit - 1) + 1 == First(limit)
    ensures st[First(limit) + 1].Absent?
  {
    DepthFirst(limit);
    DepthFirst(limit - 1);
    assert NodeOk(st, First(limit - 1));
    Pow2Monotone(limit + 1, cnt);
    DepthUnique(First(limit) + 1, limit);
  }

  lemma RaiseFreeShape(cnt: nat, st: seq<Status>, limit: nat)
    requires Shape(cnt, st, limit) && limit > 0
    requires st[First(limit)].Free?
    ensures Shape(cnt, st[First(limit) := Absent][First(limit - 1) := Free], limit - 1)
  {
    RootFacts(cnt, st, limit);
    var root, top := First(limit), First(limit - 1);
    var st' := st[root := Absent][top := Free];
    if limit > 1 {
      TopAbove(cnt, st, limit);
    }
    forall p | 0 <= p < |st'|
      ensures NodeOk(st', p)
    {
      assert NodeOk(st, p);
    }
  }

  /** What lies above a `Top` node is `Top`. */
  lemma TopAbove(cnt: nat, st: seq<Status>, limit: nat)
    requires Shape(cnt, st, limit) && limit > 1
    ensures First(limit - 2) < |st| && st[First(limit - 2)].Top?
    ensures Parent(First(limit - 1)) == First(limit - 2)
  {
    DepthFirst(limit - 1);
    assert NodeOk(st, First(limit - 2));
  }

  lemma RaiseFreeCore(r: Range, s: State)
    requires Core(r, s) && s.limit > 0
    requires s.st[First(s.limit)].Free?
    ensures First(s.limit) in s.lists[s.limit]
    ensures Core(r, RaiseFree(s))
  {
    var root, top := First(s.limit), First(s.limit - 1);
    RootFacts(r.Buckets(), s.st, s.limit);
    RaiseFreeShape(r.Buckets(), s.st, s.limit);
    assert Listed(s.st, root, s.limit);
    NoneAt(r, s, s.limit - 1);
    var st1 := s.st[root := Absent];
    ListedUpdate(s.st, root, Absent);
    ListsWithout(r.Buckets(), s.st, st1, s.lists, s.limit, root);
    var lists1 := s.lists[s.limit := Without(s.lists[s.limit], root)];
    ListedUpdate(st1, top, Free);
    ListsAppend(r.Buckets(), st1, st1[top := Free], lists1, s.limit - 1, top);
    assert lists1[s.limit - 1] + [top] == [top];
  }

  /** No free node lies above the root. */
  lemma NoneAt(r: Range, s: State, b: nat)
    requires Core(r, s) && b < s.limit
    ensures s.lists[b] == []
  {
    if s.lists[b] != [] {
      var i := s.lists[b][0];
      assert Listed(s.st, i, b);
      AboveRoot(r.Buckets(), s.st, s.limit, i);
      assert false;
    }
  }

  lemma {:induction false} TopSpine(cnt: nat, st: seq<Status>, limit: nat, d: nat)
    requires Shape(cnt, st, limit) && d < limit
    ensures First(d) < |st| && st[First(d)].Top?
    decreases limit - d
  {
    if d + 1 < limit {
      TopSpine(cnt, st, limit, d + 1);
      DepthFirst(d + 1);
      assert NodeOk(st, First(d));
    }
  }

  /** Above the root there is nothing but what is yet to grow. */
  lemma {:induction false} AboveRoot(cnt: nat, st: seq<Status>, limit: nat, i: nat)
    requires Shape(cnt, st, limit) && i < |st| && Depth(i) < limit
    ensures if i == First(Depth(i)) then st[i].Top? else st[i].Absent?
  {
    TopSpine(cnt, st, limit, Depth(i));
    if i != First(Depth(i)) {
      DepthFirst(Depth(i));
      AboveRoot(cnt, st, limit, Parent(i));
      assert NodeOk(st, Parent(i));
    }
  }

  lemma RaiseUsedShape(cnt: nat, st: seq<Status>, limit: nat)
    requires Shape(cnt, st, limit) && limit > 0
    requires !st[First(limit)].Free?
    ensures First(limit) + 1 < |st|
    ensures Shape(cnt, st[First(limit - 1) := Split][First(limit) + 1 := Free], limit - 1)
  {
    RootFacts(cnt, st, limit);
    var root, top := First(limit), First(limit - 1);
    var st' := st[top := Split][root + 1 := Free];
    if limit > 1 {
      TopAbove(cnt, st, limit);
    }
    forall p | 0 <= p < |st'|
      ensures NodeOk(st', p)
    {
      assert NodeOk(st, p);
      if p == root + 1 {
        assert st[p].Absent?;
      }
    }
  }

  lemma RaiseUsedListed(st: seq<Status>, top: nat, right: nat)
    requires top < right < |st| && !st[top].Free? && !st[right].Free?
    ensures forall x, c :: Listed(st[top := Split][right := Free], x, c) <==> Listed(st, x, c) || (x == right && c == Depth(right))
  {
    var st' := st[top := Split][right := Free];
    forall x: nat, c: nat
      ensures Listed(st', x, c) <==> Listed(st, x, c) || (x == right && c == Depth(right))
    {
      if x < |st| && x != top && x != right {
        assert st'[x] == st[x];
      }
    }
  }

  lemma RaiseUsedCore(r: Range, s: State)
    requires Core(r, s) && s.limit > 0
    requires !s.st[First(s.limit)].Free?
    ensures First(s.limit) + 1 < |s.st|
    ensures Core(r, RaiseUsed(s))
  {
    hide NodeOk, ListOk, Listed, Depth, RootOk;
    var right, top := First(s.limit) + 1, First(s.limit - 1);
    CoreSizes(r, s);
    RootFacts(r.Buckets(), s.st, s.limit);
    TopSpine(r.Buckets(), s.st, s.limit, s.limit - 1);
    RaiseUsedShape(r.Buckets(), s.st, s.limit);
    NoneAt(r, s, s.limit - 1);
    RaiseUsedListed(s.st, top, right);
    NotListed(s.st, right, s.limit);
    ListsAppend(r.Buckets(), s.st, s.st[top := Split][right := Free], s.lists, s.limit, right);
    var lists1 := s.lists[s.limit := s.lists[s.limit] + [right]];
    assert lists1[s.limit - 1 := []] == lists1;
  }

  // The steps' lemmas: the mark

  lemma LeastSize(r: Range, d: nat)
    requires r.Good() && d < r.Buckets()
    ensures Size(r.maxLog2, d) >= LIST
    ensures d + 1 < r.Buckets() ==> Size(r.maxLog2, d) == 2 * Size(r.maxLog2, d + 1) >= 2 * LIST
  {
    Pow2Monotone(3, r.maxLog2 - d);
    assert Pow2(3) == LIST;
    if d + 1 < r.Buckets() {
      Pow2Monotone(4, r.maxLog2 - d);
      assert Pow2(4) == 2 * LIST;
    }
  }

  lemma BelowUpdate(m: nat, st: seq<Status>, max: nat, but: int, i: nat, v: Status, but': int)
    requires Below(m, st, max, but) && i < |st|
    requires BelowAt(m, v, max, i, but')
    requires forall j: nat :: j < |st| && j != i && j == but ==> BelowAt(m, st[j], max, j, but')
    ensures Below(m, st[i := v], max, but')
  {
    var st' := st[i := v];
    forall j | 0 <= j < |st'|
      ensures BelowAt(m, st'[j], max, j, but')
    {
      assert BelowAt(m, st[j], max, j, but);
    }
  }

  lemma BelowMore(m: nat, st: seq<Status>, max: nat, max': nat, but: int)
    requires Below(m, st, max, but) && max <= max'
    ensures Below(m, st, max', but)
  {
    forall j | 0 <= j < |st|
      ensures BelowAt(m, st[j], max', j, but)
    {
      assert BelowAt(m, st[j], max, j, but);
    }
  }

  lemma LeftOff(m: nat, i: nat)
    ensures Off(m, 2 * i + 1) == Off(m, i) && Off(m, 2 * i + 2) == Off(m, i) + Size(m, Depth(2 * i + 2))
  {
  }

  lemma UsedBelow(m: nat, st: seq<Status>, max: nat, i: nat)
    requires Below(m, st, max, i) && i < |st| && st[i].Used?
    ensures Off(m, i) + LIST <= max
  {
    assert BelowAt(m, st[i], max, i, i);
  }

  lemma SplitBelow(r: Range, s: State, i: nat)
    requires Core(r, s) && 2 * i + 2 < |s.st| && s.st[i].Used?
    requires Below(r.maxLog2, s.st, s.max, i)
    requires Off(r.maxLog2, i) + Size(r.maxLog2, Depth(2 * i + 2)) + LIST <= s.max
    ensures Depth(i) + 1 < r.Buckets()
    ensures Below(r.maxLog2, SplitStep(s, Depth(i), i).st, s.max, -1)
    ensures Off(r.maxLog2, 2 * i + 1) == Off(r.maxLog2, i)
    ensures Off(r.maxLog2, i) + Size(r.maxLog2, Depth(i) + 1) <= s.max
  {
    var m := r.maxLog2;
    hide Shape, Lists, Below;
    CoreSizes(r, s);
    DepthBelow(2 * i + 2, r.Buckets());
    ChildDepth(i);
    LeastSize(r, Depth(i) + 1);
    LeftOff(m, i);
    UsedBelow(m, s.st, s.max, i);
    BelowUpdate(m, s.st, s.max, i, i, Split, -1);
    var st1 := s.st[i := Split];
    BelowUpdate(m, st1, s.max, -1, 2 * i + 1, Used, -1);
    BelowUpdate(m, st1[2 * i + 1 := Used], s.max, -1, 2 * i + 2, Free, -1);
  }

  lemma MergeBelow(r: Range, s: State, i: nat)
    requires Core(r, s) && 0 < i < |s.st| && Sibling(i) < |s.st|
    requires s.st[i].Used? && s.st[Sibling(i)].Free?
    requires Below(r.maxLog2, s.st, s.max, i)
    ensures Depth(i) < r.Buckets()
    ensures Below(r.maxLog2, MergeStep(s, Depth(i), i).st, s.max, Parent(i))
  {
    var m := r.maxLog2;
    DepthBelow(i, r.Buckets());
    assert BelowAt(m, s.st[i], s.max, i, i) && BelowAt(m, s.st[Sibling(i)], s.max, Sibling(i), i);
    BelowUpdate(m, s.st, s.max, i, i, Absent, -1);
    var st1 := s.st[i := Absent];
    BelowUpdate(m, st1, s.max, -1, Sibling(i), Absent, -1);
    BelowUpdate(m, st1[Sibling(i) := Absent], s.max, -1, Parent(i), Used, Parent(i));
  }

  // The operations

  /** Raises the mark to `to` where the range reaches it. */
  function Reach(r: Range, s: State, to: nat): (State, bool) {
    if to <= s.max then (s, true)
    else if to > r.bytes then (s, false)
    else (s.(max := to), true)
  }

  lemma ReachKeeps(r: Range, s: State, to: nat, but: int)
    requires Core(r, s) && Below(r.maxLog2, s.st, s.max, but)
    ensures var (s', ok) := Reach(r, s, to);
            && Core(r, s') && Below(r.maxLog2, s'.st, s'.max, but)
            && ok == (to <= r.bytes) && s.max <= s'.max && (ok ==> to <= s'.max)
  {
    BelowMore(r.maxLog2, s.st, s.max, Reach(r, s, to).0.max, but);
  }

  /** The nodes in use are the same ones: the tree changed only around them. */
  ghost predicate SameUsed(st: seq<Status>, st': seq<Status>) {
    |st| == |st'| && forall i :: 0 <= i < |st| ==> (st'[i].Used? <==> st[i].Used?)
  }

  /** Node `j` is in use in `st'` and was not in `st`; nothing else differs in that. */
  ghost predicate OneMore(st: seq<Status>, st': seq<Status>, j: nat) {
    && |st| == |st'| && j < |st|
    && !st[j].Used? && st'[j].Used?
    && forall i :: 0 <= i < |st| && i != j ==> (st'[i].Used? <==> st[i].Used?)
  }

  /** The root's bucket lowered by one: false, and nothing changed, where the range ends too soon. */
  ghost function Grow(r: Range, s: State): (res: (State, bool))
    requires Inv(r, s) && s.limit > 0
    ensures Inv(r, res.0) && SameUsed(s.st, res.0.st)
    ensures if res.1 then res.0.limit == s.limit - 1 else res.0 == s
  {
    RootFacts(r.Buckets(), s.st, s.limit);
    if s.st[First(s.limit)].Free? then
      RaiseFreeInv(r, s);
      (RaiseFree(s), true)
    else
      var to := Off(r.maxLog2, First(s.limit) + 1) + LIST;
      ReachKeeps(r, s, to, -1);
      var (s1, ok) := Reach(r, s, to);
      if !ok then (s, false)
      else
        RaiseUsedInv(r, s1);
        (RaiseUsed(s1), true)
  }

  lemma RaiseFreeInv(r: Range, s: State)
    requires Inv(r, s) && s.limit > 0 && s.st[First(s.limit)].Free?
    ensures Inv(r, RaiseFree(s)) && SameUsed(s.st, RaiseFree(s).st)
  {
    RaiseFreeCore(r, s);
    RaiseFreeBelow(r, s);
    RootFacts(r.Buckets(), s.st, s.limit);
  }

  lemma RaiseUsedInv(r: Range, s: State)
    requires Inv(r, s) && s.limit > 0
    requires First(s.limit) + 1 < |s.st| && !s.st[First(s.limit)].Free?
    requires Off(r.maxLog2, First(s.limit) + 1) + LIST <= s.max
    ensures Inv(r, RaiseUsed(s)) && SameUsed(s.st, RaiseUsed(s).st)
  {
    hide NodeOk, ListOk, BelowAt;
    RaiseUsedCore(r, s);
    RaiseUsedMark(r, s);
  }

  lemma RaiseUsedMark(r: Range, s: State)
    requires r.Good() && Shape(r.Buckets(), s.st, s.limit) && s.limit > 0
    requires Below(r.maxLog2, s.st, s.max, -1)
    requires First(s.limit) + 1 < |s.st| && !s.st[First(s.limit)].Free?
    requires Off(r.maxLog2, First(s.limit) + 1) + LIST <= s.max
    ensures First(s.limit - 1) < |s.st|
    ensures Below(r.maxLog2, s.st[First(s.limit - 1) := Split][First(s.limit) + 1 := Free], s.max, -1)
    ensures !s.st[First(s.limit - 1)].Used? && !s.st[First(s.limit) + 1].Used?
  {
    var root, top := First(s.limit), First(s.limit - 1);
    RootFacts(r.Buckets(), s.st, s.limit);
    hide *;
    BelowRaised(r.maxLog2, s.st, s.max, root, top);
  }

  lemma RaiseFreeBelow(r: Range, s: State)
    requires Inv(r, s) && s.limit > 0
    requires s.st[First(s.limit)].Free?
    ensures Below(r.maxLog2, RaiseFree(s).st, s.max, -1)
  {
    var m, root, top := r.maxLog2, First(s.limit), First(s.limit - 1);
    RootFacts(r.Buckets(), s.st, s.limit);
    assert BelowAt(m, s.st[root], s.max, root, -1);
    assert Off(m, root) == Off(m, top);
    BelowUpdate(m, s.st, s.max, -1, root, Absent, -1);
    BelowUpdate(m, s.st[root := Absent], s.max, -1, top, Free, -1);
  }

  lemma BelowRaised(m: nat, st: seq<Status>, max: nat, root: nat, top: nat)
    requires Below(m, st, max, -1)
    requires root + 1 < |st| && root == 2 * top + 1
    requires st[root].Present() && Off(m, root + 1) + LIST <= max
    ensures Below(m, st[top := Split][root + 1 := Free], max, -1)
  {
    assert BelowAt(m, st[root], max, root, -1);
    BelowUpdate(m, st, max, -1, top, Split, -1);
    BelowUpdate(m, st[top := Split], max, -1, root + 1, Free, -1);
  }

  /** The tree grown until its root lies at bucket `b`. */
  ghost function Lower(r: Range, s: State, b: nat): (res: (State, bool))
    requires Inv(r, s)
    ensures Inv(r, res.0) && SameUsed(s.st, res.0.st)
    ensures res.0.limit <= s.limit
    ensures res.1 <==> res.0.limit <= b
    ensures s.limit <= b ==> res.0 == s
    decreases s.limit
  {
    if b < s.limit then
      var (s1, ok) := Grow(r, s);
      if ok then Lower(r, s1, b) else (s1, false)
    else
      (s, true)
  }

  /** The used node `i` split down to bucket `goal`: the state, and the node at that bucket. */
  ghost function SplitDown(r: Range, s: State, i: nat, goal: nat): (res: (State, nat))
    requires CanSplit(r, s, i, goal)
    ensures Inv(r, res.0) && res.0.limit == s.limit && res.0.max == s.max
    ensures res.1 < |s.st| == |res.0.st| && res.0.st[res.1].Used?
    ensures Depth(res.1) == goal && Off(r.maxLog2, res.1) == Off(r.maxLog2, i)
    ensures forall x :: 0 <= x < |s.st| && x != res.1 ==> (res.0.st[x].Used? <==> s.st[x].Used? && x != i)
    decreases goal - Depth(i)
  {
    var m := r.maxLog2;
    if Depth(i) == goal then
      SplitDone(r, s, i);
      (s, i)
    else
      ChildrenIn(i, r.Buckets());
      SplitDownStep(r, s, i, goal);
      SplitUsed(s.st, i);
      SplitDown(r, SplitStep(s, Depth(i), i), 2 * i + 1, goal)
  }

  /** Node `i` may be split down to `goal`: it is used, and the mark past all that writes. */
  ghost predicate CanSplit(r: Range, s: State, i: nat, goal: nat) {
    && Core(r, s) && i < |s.st| && s.st[i].Used? && Below(r.maxLog2, s.st, s.max, i)
    && Depth(i) <= goal < r.Buckets() && Off(r.maxLog2, i) + Room(r, Depth(i), goal) <= s.max
  }

  lemma SplitDownStep(r: Range, s: State, i: nat, goal: nat)
    requires Core(r, s) && i < |s.st| && s.st[i].Used?
    requires Below(r.maxLog2, s.st, s.max, i)
    requires Depth(i) < goal < r.Buckets() && 2 * i + 2 < |s.st|
    requires Off(r.maxLog2, i) + Room(r, Depth(i), goal) <= s.max
    ensures NodeOk(s.st, i)
    ensures var s1 := SplitStep(s, Depth(i), i);
            && Core(r, s1) && Below(r.maxLog2, s1.st, s1.max, 2 * i + 1)
            && Depth(2 * i + 1) == Depth(i) + 1 && Off(r.maxLog2, 2 * i + 1) == Off(r.maxLog2, i)
            && Off(r.maxLog2, 2 * i + 1) + Room(r, Depth(2 * i + 1), goal) <= s1.max
  {
    SplitRoom(r, s, i, goal);
    SplitCore(r, s, i);
    SplitBelow(r, s, i);
    var s1 := SplitStep(s, Depth(i), i);
    BelowWeaker(r.maxLog2, s1.st, s1.max, 2 * i + 1);
    RoomShrinks(r, Depth(i) + 1, goal);
  }

  lemma SplitUsed(st: seq<Status>, i: nat)
    requires 2 * i + 2 < |st| && NodeOk(st, i) && st[i].Used?
    ensures var st' := st[i := Split][2 * i + 1 := Used][2 * i + 2 := Free];
            forall x :: 0 <= x < |st| && x != 2 * i + 1 ==> (st'[x].Used? <==> st[x].Used? && x != i)
    ensures !st[2 * i + 1].Used?
  {
  }

  /** The bytes past its start that splitting a bucket-`b` block down to `goal` writes or hands out. */
  function Room(r: Range, b: nat, goal: nat): nat {
    if b < goal then Size(r.maxLog2, b) / 2 + LIST else Size(r.maxLog2, b)
  }

  lemma SplitRoom(r: Range, s: State, i: nat, goal: nat)
    requires Core(r, s) && i < |s.st| && Depth(i) < goal < r.Buckets()
    ensures 2 * i + 2 < |s.st| && Depth(2 * i + 2) == Depth(i) + 1 == Depth(2 * i + 1)
    ensures Room(r, Depth(i), goal) == Size(r.maxLog2, Depth(i) + 1) + LIST
  {
    LeastSize(r, Depth(i));
    ChildrenIn(i, r.Buckets());
  }

  lemma ChildrenIn(i: nat, cnt: nat)
    requires Depth(i) + 1 < cnt
    ensures 2 * i + 2 < First(cnt)
    ensures Depth(2 * i + 1) == Depth(i) + 1 == Depth(2 * i + 2)
  {
    DepthBounds(i);
    Pow2Monotone(Depth(i) + 2, cnt);
  }

  lemma RoomShrinks(r: Range, d: nat, goal: nat)
    requires r.Good() && d <= goal < r.Buckets()
    ensures Room(r, d, goal) <= Size(r.maxLog2, d)
  {
    LeastSize(r, d);
  }

  lemma BelowWeaker(m: nat, st: seq<Status>, max: nat, but: int)
    requires Below(m, st, max, -1)
    ensures Below(m, st, max, but)
  {
    forall j | 0 <= j < |st|
      ensures BelowAt(m, st[j], max, j, but)
    {
      assert BelowAt(m, st[j], max, j, -1);
    }
  }

  lemma SplitDone(r: Range, s: State, i: nat)
    requires Below(r.maxLog2, s.st, s.max, i) && i < |s.st|
    requires Off(r.maxLog2, i) + Size(r.maxLog2, Depth(i)) <= s.max
    ensures Below(r.maxLog2, s.st, s.max, -1)
  {
    forall j | 0 <= j < |s.st|
      ensures BelowAt(r.maxLog2, s.st[j], s.max, j, -1)
    {
      assert BelowAt(r.maxLog2, s.st[j], s.max, j, i);
    }
  }

  /** The node at the back of a bucket's list. */
  function Back(s: State, b: nat): nat
    requires b < |s.lists| && s.lists[b] != []
  {
    s.lists[b][|s.lists[b]| - 1]
  }

  lemma BackListed(r: Range, s: State, b: nat)
    requires Core(r, s) && b < r.Buckets() && s.lists[b] != []
    ensures Listed(s.st, Back(s, b), b)
  {
    assert Back(s, b) in s.lists[b];
  }

  /** The back of bucket `b`'s list taken and split down to `goal`; none, and the state as it was, where the
      range ends too soon. */
  ghost function TakeLast(r: Range, s: State, b: nat, goal: nat): (res: (State, Option<nat>))
    requires Inv(r, s) && b <= goal < r.Buckets() && s.lists[b] != []
    ensures Inv(r, res.0) && res.0.limit == s.limit
    ensures res.1.None? ==> res.0 == s
    ensures res.1.Some? ==> OneMore(s.st, res.0.st, res.1.value) && Depth(res.1.value) == goal
  {
    var i := Back(s, b);
    BackListed(r, s, b);
    var to := Off(r.maxLog2, i) + Room(r, b, goal);
    ReachKeeps(r, s, to, -1);
    var (s1, ok) := Reach(r, s, to);
    if !ok then (s, None)
    else
      UseCore(r, s1, b, i);
      UseBelow(r, s1, i);
      var (s2, j) := SplitDown(r, Use(s1, b, i), i, goal);
      NotYetUsed(r, s, i, j);
      (s2, Some(j))
  }

  lemma UseBelow(r: Range, s: State, i: nat)
    requires Inv(r, s) && i < |s.st| && s.st[i].Free?
    ensures Below(r.maxLog2, s.st[i := Used], s.max, i)
  {
    BelowWeaker(r.maxLog2, s.st, s.max, i);
    assert BelowAt(r.maxLog2, s.st[i], s.max, i, -1);
    BelowUpdate(r.maxLog2, s.st, s.max, i, i, Used, i);
  }

  /** A node at the start of a free block, below it, is not in use. */
  lemma NotYetUsed(r: Range, s: State, i: nat, j: nat)
    requires Core(r, s) && i < |s.st| && j < |s.st| && s.st[i].Free?
    requires Depth(i) <= Depth(j) && Off(r.maxLog2, i) == Off(r.maxLog2, j)
    ensures !s.st[j].Used?
  {
    DepthBelow(j, r.Buckets());
    OverlapAbove(r.maxLog2, i, j);
    if i != j {
      SplitAbove(r.Buckets(), s.st, s.limit, i, j);
    }
  }

  /** What lies above a node that is present, or yet to grow, is split or yet to grow. */
  lemma {:induction false} SplitAbove(cnt: nat, st: seq<Status>, limit: nat, a: nat, j: nat)
    requires Shape(cnt, st, limit) && a < |st| && j < |st|
    requires Above(a, j) && a != j
    ensures !st[j].Absent? ==> st[a].Split? || st[a].Top?
  {
    assert NodeOk(st, Parent(j));
    if a != Parent(j) {
      SplitAbove(cnt, st, limit, a, Parent(j));
    }
  }

  /** The search for a block of bucket `goal`, from bucket `b` up. */
  ghost function Find(r: Range, s: State, b: nat, goal: nat): (res: (State, Option<nat>))
    requires Inv(r, s) && b <= goal < r.Buckets()
    ensures Inv(r, res.0)
    ensures res.1.None? ==> SameUsed(s.st, res.0.st)
    ensures res.1.Some? ==> OneMore(s.st, res.0.st, res.1.value) && Depth(res.1.value) == goal
    decreases b
  {
    var (s1, ok) := Lower(r, s, b);
    if !ok then (s1, None)
    else if s1.lists[b] != [] then TakeLast(r, s1, b, goal)
    else if b == 0 then (s1, None)
    else if b != s1.limit then Find(r, s1, b - 1, goal)
    else
      var (s2, grown) := Lower(r, s1, b - 1);
      if !grown then (s2, None)
      else
        GrowListed(r, s1);
        TakeLast(r, s2, b, goal)
  }

  /** Grown over a root in use, the tree has a free block as large as that root. */
  lemma GrowListed(r: Range, s: State)
    requires Inv(r, s) && s.limit > 0 && s.lists[s.limit] == []
    ensures var (s', ok) := Lower(r, s, s.limit - 1);
            ok ==> s' == Grow(r, s).0 && s'.lists[s.limit] == [First(s.limit) + 1]
  {
    hide Shape, Off, Below, NodeOk;
    ListsSized(r, s);
    RootBusy(r, s);
  }

  lemma ListsSized(r: Range, s: State)
    requires Inv(r, s)
    ensures s.limit < |s.lists|
  {
  }

  lemma RootBusy(r: Range, s: State)
    requires Inv(r, s) && s.limit < |s.lists| && s.lists[s.limit] == []
    ensures First(s.limit) < |s.st| && !s.st[First(s.limit)].Free?
  {
    CoreSizes(r, s);
    DepthFirst(s.limit);
    assert ListOk(s.st, s.lists[s.limit], s.limit);
    assert Listed(s.st, First(s.limit), s.limit) <==> First(s.limit) in s.lists[s.limit];
  }

  /** The tree of the first call: one free block of the least size. */
  ghost function Initial(r: Range): (s: State)
    requires r.Good()
    ensures Inv(r, s)
    ensures forall i :: 0 <= i < |s.st| ==> !s.st[i].Used?
  {
    var last := r.Buckets() - 1;
    var s := State(last, seq(First(r.Buckets()), (i: nat) => if !OnSpine(i) then Absent else if i < First(last) then Top else Free),
                   seq(r.Buckets(), b => if b == last then [First(last)] else []), LIST);
    InitialCore(r, s, last);
    s
  }

  /** The first node of each bucket. */
  predicate OnSpine(i: nat) {
    i == 0 || (i % 2 == 1 && OnSpine(Parent(i)))
  }

  lemma {:induction false} SpineFirst(i: nat)
    ensures OnSpine(i) <==> i == First(Depth(i))
  {
    if i > 0 {
      SpineFirst(Parent(i));
      DepthFirst(Depth(i));
    }
  }

  lemma InitialCore(r: Range, s: State, last: nat)
    requires r.Good() && last == r.Buckets() - 1
    requires s.limit == last && |s.st| == First(r.Buckets()) && s.max == LIST
    requires forall i :: 0 <= i < |s.st| ==> s.st[i] == if !OnSpine(i) then Absent else if i < First(last) then Top else Free
    requires |s.lists| == r.Buckets()
    requires forall b :: 0 <= b < |s.lists| ==> s.lists[b] == if b == last then [First(last)] else []
    ensures Inv(r, s)
  {
    DepthFirst(last);
    SpineFirst(First(last));
    SpineFirst(First(last - 1));
    DepthFirst(last - 1);
    InitialNodes(r, s.st, last);
    forall b | 0 <= b < r.Buckets()
      ensures ListOk(s.st, s.lists[b], b)
    {
    }
  }

  lemma InitialNodes(r: Range, st: seq<Status>, last: nat)
    requires r.Good() && last == r.Buckets() - 1 && |st| == First(r.Buckets())
    requires forall i :: 0 <= i < |st| ==> st[i] == if !OnSpine(i) then Absent else if i < First(last) then Top else Free
    ensures forall p :: 0 <= p < |st| ==> NodeOk(st, p)
    ensures forall i :: 0 <= i < |st| ==> (st[i].Free? <==> i == First(last))
    ensures Below(r.maxLog2, st, LIST, -1)
  {
    forall p | 0 <= p < |st|
      ensures NodeOk(st, p)
    {
      assert OnSpine(2 * p + 1) <==> OnSpine(p);
    }
    forall i | 0 <= i < |st|
      ensures st[i].Free? <==> i == First(last)
      ensures BelowAt(r.maxLog2, st[i], LIST, i, -1)
    {
      InitialNode(r, st, last, i);
    }
  }

  lemma InitialNode(r: Range, st: seq<Status>, last: nat, i: nat)
    requires r.Good() && last == r.Buckets() - 1 && i < |st| == First(r.Buckets())
    requires st[i] == if !OnSpine(i) then Absent else if i < First(last) then Top else Free
    ensures st[i].Free? <==> i == First(last)
    ensures BelowAt(r.maxLog2, st[i], LIST, i, -1)
  {
    SpineFirst(i);
    DepthBounds(i);
    DepthBelow(i, r.Buckets());
    SpineStart(r.maxLog2, i);
    if st[i].Free? && Depth(i) < last {
      Pow2Monotone(Depth(i) + 1, last);
      assert false;
    }
    DepthFirst(last);
    SpineFirst(First(last));
  }

  lemma {:induction false} SpineStart(m: nat, i: nat)
    ensures OnSpine(i) ==> Off(m, i) == 0
  {
    if i > 0 {
      SpineStart(m, Parent(i));
    }
  }

  /** Merging puts the parent in the place of the node in use. */
  lemma MergeUsed(r: Range, s: State, i: nat)
    requires Core(r, s) && 0 < i < |s.st| && Sibling(i) < |s.st| && s.st[i].Used? && s.st[Sibling(i)].Free?
    ensures Depth(i) < |s.lists| && Parent(i) < i
    ensures var s' := MergeStep(s, Depth(i), i);
            && |s'.st| == |s.st| && s'.st[Parent(i)].Used? && !s.st[Parent(i)].Used? && s'.limit == s.limit && s'.max == s.max
            && forall x :: 0 <= x < |s.st| && x != Parent(i) ==> (s'.st[x].Used? <==> s.st[x].Used? && x != i)
  {
    CoreSizes(r, s);
    DepthBelow(i, r.Buckets());
    MergeShape(r.Buckets(), s.st, s.limit, i);
  }

  /** A used node let go: merged with its buddy while that is free, then listed. */
  ghost function Release(r: Range, s: State, i: nat): (s': State)
    requires Core(r, s) && i < |s.st| && s.st[i].Used?
    requires Below(r.maxLog2, s.st, s.max, i)
    ensures Inv(r, s') && s'.limit == s.limit && s'.max == s.max
    ensures OneMore(s'.st, s.st, i)
    decreases i
  {
    if i > 0 && SiblingIn(r, s, i) && s.st[Sibling(i)].Free? then
      MergeCore(r, s, i);
      MergeBelow(r, s, i);
      MergeUsed(r, s, i);
      Release(r, MergeStep(s, Depth(i), i), Parent(i))
    else
      ReleaseDone(r, s, i);
      SettleUsed(r, s, i);
      Settle(s, Depth(i), i)
  }

  predicate SiblingIn(r: Range, s: State, i: nat)
    requires i > 0
  {
    Sibling(i) < |s.st|
  }

  lemma SettleUsed(r: Range, s: State, i: nat)
    requires Core(r, s) && i < |s.st| && s.st[i].Used?
    ensures Depth(i) < |s.lists| && OneMore(Settle(s, Depth(i), i).st, s.st, i)
  {
    hide NodeOk, ListOk, RootOk;
    CoreSizes(r, s);
    DepthBelow(i, r.Buckets());
  }

  lemma ReleaseDone(r: Range, s: State, i: nat)
    requires Core(r, s) && i < |s.st| && s.st[i].Used?
    requires Below(r.maxLog2, s.st, s.max, i)
    requires i > 0 ==> Sibling(i) >= |s.st| || !s.st[Sibling(i)].Free?
    ensures Depth(i) < r.Buckets() && Inv(r, Settle(s, Depth(i), i))
  {
    if i == 0 && s.limit > 0 {
      AboveRoot(r.Buckets(), s.st, s.limit, i);
      assert false;
    }
    SettleCore(r, s, i);
    assert BelowAt(r.maxLog2, s.st[i], s.max, i, i);
    BelowUpdate(r.maxLog2, s.st, s.max, i, i, Free, -1);
  }

  // Requests

  /** The bucket a request of `request` bytes is served from, looked for from bucket `from` up. */
  function BucketFrom(r: Range, request: nat, from: nat): (b: nat)
    ensures b <= from
    ensures b == 0 || request <= Size(r.maxLog2, b)
  {
    if from == 0 || request <= Size(r.maxLog2, from) then from else BucketFrom(r, request, from - 1)
  }

  function BucketFor(r: Range, request: nat): (b: nat)
    requires r.Good()
    ensures b < r.Buckets()
  {
    BucketFrom(r, request, r.Buckets() - 1)
  }

  /** The bucket for a request holds it, and the next smaller block would not. */
  lemma {:induction false} BucketTight(r: Range, request: nat, from: nat)
    requires r.Good() && from < r.Buckets() && request <= Pow2(r.maxLog2)
    ensures var b := BucketFrom(r, request, from);
            request <= Size(r.maxLog2, b) && (b < from ==> Size(r.maxLog2, b + 1) < request)
  {
    if from > 0 && request > Size(r.maxLog2, from) {
      BucketTight(r, request, from - 1);
    }
  }
}
