/** What holds of every state the buddy allocator reaches, and of its answers. */
module BuddyProperties {
  import opened Arith
  import opened BuddyTree
  import opened BuddySpec
  import opened Prelude

  // Tiling

  /** A block handed out or on a free list. */
  predicate Leaf(s: Status) {
    s.Free? || s.Used?
  }

  predicate Holds(m: nat, i: nat, x: nat) {
    Off(m, i) <= x < Off(m, i) + Size(m, Depth(i))
  }

  /** Two blocks, live or free, never overlap. */
  lemma LeavesDisjoint(r: Range, s: State, i: nat, j: nat)
    requires Core(r, s) && i < |s.st| && j < |s.st| && i != j
    requires Leaf(s.st[i]) && Leaf(s.st[j])
    ensures !Overlap(r.maxLog2, i, j)
  {
    var m, cnt := r.maxLog2, r.Buckets();
    DepthBelow(i, cnt);
    DepthBelow(j, cnt);
    if Overlap(m, i, j) {
      if Depth(i) <= Depth(j) {
        OverlapAbove(m, i, j);
        SplitAbove(cnt, s.st, s.limit, i, j);
      } else {
        OverlapAbove(m, j, i);
        SplitAbove(cnt, s.st, s.limit, j, i);
      }
      assert false;
    }
  }

  lemma {:induction false} LeafBelow(r: Range, s: State, i: nat, x: nat) returns (j: nat)
    requires Inv(r, s) && i < |s.st| && s.st[i].Present()
    requires Holds(r.maxLog2, i, x)
    ensures j < |s.st| && Leaf(s.st[j]) && Holds(r.maxLog2, j, x)
    decreases |s.st| - i
  {
    if Leaf(s.st[i]) {
      j := i;
    } else {
      assert NodeOk(s.st, i);
      DepthBelow(2 * i + 1, r.Buckets());
      if Holds(r.maxLog2, 2 * i + 1, x) {
        j := LeafBelow(r, s, 2 * i + 1, x);
      } else {
        assert Depth(2 * i + 2) == Depth(i) + 1 == Depth(2 * i + 1);
        j := LeafBelow(r, s, 2 * i + 2, x);
      }
    }
  }

  /** Live and free blocks tile the root's span: every address in it lies in exactly one of them, aligned to
      its own size. */
  lemma Tiling(r: Range, s: State, x: nat) returns (j: nat)
    requires Inv(r, s) && x < Size(r.maxLog2, s.limit)
    ensures j < |s.st| && Leaf(s.st[j]) && Holds(r.maxLog2, j, x)
    ensures Off(r.maxLog2, j) % Size(r.maxLog2, Depth(j)) == 0
    ensures Off(r.maxLog2, j) + Size(r.maxLog2, Depth(j)) <= Size(r.maxLog2, s.limit)
    ensures forall i :: 0 <= i < |s.st| && Leaf(s.st[i]) && Holds(r.maxLog2, i, x) ==> i == j
    ensures Depth(j) < |s.lists| && (s.st[j].Free? <==> j in s.lists[Depth(j)])
  {
    var m := r.maxLog2;
    var root := First(s.limit);
    DepthFirst(s.limit);
    SpineFirst(root);
    SpineStart(m, root);
    j := LeafBelow(r, s, root, x);
    DepthBelow(j, r.Buckets());
    Aligned(m, j);
    forall i | 0 <= i < |s.st| && Leaf(s.st[i]) && Holds(m, i, x)
      ensures i == j
    {
      if i != j {
        LeavesDisjoint(r, s, i, j);
      }
    }
    InSpan(r, s, j);
    assert Listed(s.st, j, Depth(j)) <==> s.st[j].Free?;
  }

  /** What is present lies in the root's span. */
  lemma InSpan(r: Range, s: State, j: nat)
    requires Inv(r, s) && j < |s.st| && s.st[j].Present()
    ensures s.limit <= Depth(j)
    ensures Off(r.maxLog2, j) + Size(r.maxLog2, Depth(j)) <= Size(r.maxLog2, s.limit)
  {
    var root := First(s.limit);
    if Depth(j) < s.limit {
      AboveRoot(r.Buckets(), s.st, s.limit, j);
      assert false;
    }
    RootAbove(r, s, j);
    DepthFirst(s.limit);
    SpineFirst(root);
    SpineStart(r.maxLog2, root);
    DepthBelow(j, r.Buckets());
    Nested(r.maxLog2, root, j);
  }

  lemma {:induction false} RootAbove(r: Range, s: State, j: nat)
    requires Inv(r, s) && j < |s.st| && s.st[j].Present() && s.limit <= Depth(j)
    ensures Above(First(s.limit), j)
  {
    if Depth(j) == s.limit {
      AtRootDepth(r, s, j);
    } else {
      assert NodeOk(s.st, Parent(j));
      if s.st[Parent(j)].Top? {
        TopDepth(r.Buckets(), s.st, s.limit, Parent(j));
        assert false;
      }
      RootAbove(r, s, Parent(j));
    }
  }

  lemma AtRootDepth(r: Range, s: State, j: nat)
    requires Inv(r, s) && j < |s.st| && s.st[j].Present() && s.limit == Depth(j)
    ensures j == First(s.limit)
  {
    if j > 0 {
      hide Inv, Off, Size, Pow2, First, Depth;
      ParentFacts(r, s, j);
      FirstDoubles(Depth(j));
    }
  }

  lemma ParentFacts(r: Range, s: State, j: nat)
    requires Inv(r, s) && 0 < j < |s.st| && s.st[j].Present() && s.limit == Depth(j)
    ensures Depth(j) > 0 && Parent(j) == First(Depth(j) - 1) && j % 2 == 1
  {
    hide Off, Size, ListOk, BelowAt, RootOk, First, Pow2;
    CoreSizes(r, s);
    NodeFacts(r, s, Parent(j));
    AboveRoot(r.Buckets(), s.st, s.limit, Parent(j));
  }

  lemma FirstDoubles(d: nat)
    requires d > 0
    ensures First(d) == 2 * First(d - 1) + 1
  {
  }

  /** Only what lies above the root is yet to grow. */
  lemma {:induction false} TopDepth(cnt: nat, st: seq<Status>, limit: nat, i: nat)
    requires Shape(cnt, st, limit) && i < |st| && st[i].Top?
    ensures Depth(i) < limit
  {
    if i > 0 {
      assert NodeOk(st, Parent(i));
      TopDepth(cnt, st, limit, Parent(i));
      AboveRoot(cnt, st, limit, Parent(i));
      DepthFirst(Depth(Parent(i)));
      DepthFirst(Depth(i));
      if Depth(i) == limit {
        assert false;
      }
    } else if limit == 0 {
      assert false;
    }
  }

  lemma {:induction false} Nested(m: nat, i: nat, j: nat)
    requires Above(i, j) && Depth(j) <= m
    ensures Off(m, i) <= Off(m, j)
    ensures Off(m, j) + Size(m, Depth(j)) <= Off(m, i) + Size(m, Depth(i))
  {
    if i != j {
      ChildInside(m, j);
      Nested(m, i, Parent(j));
    }
  }

  // Live bytes

  /** The bytes of the used blocks at or below node `i`. */
  ghost function LiveBelow(m: nat, st: seq<Status>, i: nat): nat
    decreases |st| - i
  {
    if i >= |st| then 0
    else (if st[i].Used? then Size(m, Depth(i)) else 0) + LiveBelow(m, st, 2 * i + 1) + LiveBelow(m, st, 2 * i + 2)
  }

  ghost function Live(m: nat, st: seq<Status>): nat {
    LiveBelow(m, st, 0)
  }

  lemma {:induction false} AboveChildren(i: nat, j: nat)
    ensures Above(i, j) ==> i <= j
    ensures Above(i, j) <==> i == j || Above(2 * i + 1, j) || Above(2 * i + 2, j)
    ensures !(Above(2 * i + 1, j) && Above(2 * i + 2, j))
    decreases j
  {
    if j > 0 {
      AboveChildren(i, Parent(j));
      AboveChildren(2 * i + 1, Parent(j));
      AboveChildren(2 * i + 2, Parent(j));
    }
  }

  lemma {:induction false} LiveGrows(m: nat, st: seq<Status>, st': seq<Status>, j: nat, i: nat)
    requires OneMore(st, st', j)
    ensures LiveBelow(m, st', i) == LiveBelow(m, st, i) + if Above(i, j) then Size(m, Depth(j)) else 0
    decreases |st| - i
  {
    AboveChildren(i, j);
    if i < |st| {
      LiveGrows(m, st, st', j, 2 * i + 1);
      LiveGrows(m, st, st', j, 2 * i + 2);
      AboveChildren(2 * i + 1, j);
      AboveChildren(2 * i + 2, j);
    }
  }

  lemma {:induction false} LiveSame(m: nat, st: seq<Status>, st': seq<Status>, i: nat)
    requires SameUsed(st, st')
    ensures LiveBelow(m, st', i) == LiveBelow(m, st, i)
    decreases |st| - i
  {
    if i < |st| {
      LiveSame(m, st, st', 2 * i + 1);
      LiveSame(m, st, st', 2 * i + 2);
    }
  }

  lemma {:induction false} AboveRootZero(j: nat)
    ensures Above(0, j)
  {
    if j > 0 {
      AboveRootZero(Parent(j));
    }
  }

  /** A block handed out adds its size to the live bytes; one let go takes it away. */
  lemma LiveOneMore(m: nat, st: seq<Status>, st': seq<Status>, j: nat)
    requires OneMore(st, st', j)
    ensures Live(m, st') == Live(m, st) + Size(m, Depth(j))
  {
    LiveGrows(m, st, st', j, 0);
    AboveRootZero(j);
  }

  function Clip(max: nat, off: nat, size: nat): nat {
    if max <= off then 0 else if max - off <= size then max - off else size
  }

  lemma {:induction false} AbsentEmpty(m: nat, cnt: nat, st: seq<Status>, limit: nat, i: nat)
    requires Shape(cnt, st, limit)
    requires i < |st| ==> st[i].Absent?
    ensures LiveBelow(m, st, i) == 0
    decreases |st| - i
  {
    if i < |st| {
      assert NodeOk(st, i);
      AbsentEmpty(m, cnt, st, limit, 2 * i + 1);
      AbsentEmpty(m, cnt, st, limit, 2 * i + 2);
    }
  }

  lemma {:induction false} LiveBound(r: Range, s: State, i: nat)
    requires Inv(r, s) && i < |s.st|
    ensures LiveBelow(r.maxLog2, s.st, i) <= Clip(s.max, Off(r.maxLog2, i), Size(r.maxLog2, Depth(i)))
    decreases |s.st| - i
  {
    hide Inv, Off, Depth, Size, Clip, LiveBelow, First;
    NodeFacts(r, s, i);
    LiveUnfold(r.maxLog2, s.st, i);
    if s.st[i].Split? || s.st[i].Top? {
      LiveBound(r, s, 2 * i + 1);
      LiveBound(r, s, 2 * i + 2);
      ClipChildren(r.maxLog2, s.max, i);
    } else {
      EmptyBelow(r, s, i);
      ClipWhole(r, s, i);
    }
  }

  lemma NodeFacts(r: Range, s: State, i: nat)
    requires Inv(r, s) && i < |s.st|
    ensures r.Good() && NodeOk(s.st, i) && BelowAt(r.maxLog2, s.st[i], s.max, i, -1)
    ensures Depth(i) < r.Buckets() && Depth(i) < r.maxLog2
    ensures s.st[i].Split? || s.st[i].Top? ==> 2 * i + 2 < |s.st|
  {
    DepthBelow(i, r.Buckets());
  }

  lemma LiveUnfold(m: nat, st: seq<Status>, i: nat)
    requires i < |st|
    ensures LiveBelow(m, st, i) == (if st[i].Used? then Size(m, Depth(i)) else 0) + LiveBelow(m, st, 2 * i + 1) + LiveBelow(m, st, 2 * i + 2)
  {
  }

  lemma EmptyBelow(r: Range, s: State, i: nat)
    requires Inv(r, s) && i < |s.st| && !s.st[i].Split? && !s.st[i].Top?
    ensures LiveBelow(r.maxLog2, s.st, 2 * i + 1) == 0 == LiveBelow(r.maxLog2, s.st, 2 * i + 2)
  {
    hide ListOk, BelowAt, RootOk, First, LiveBelow;
    CoreSizes(r, s);
    assert NodeOk(s.st, i);
    AbsentEmpty(r.maxLog2, r.Buckets(), s.st, s.limit, 2 * i + 1);
    AbsentEmpty(r.maxLog2, r.Buckets(), s.st, s.limit, 2 * i + 2);
  }

  lemma ClipWhole(r: Range, s: State, i: nat)
    requires i < |s.st| && BelowAt(r.maxLog2, s.st[i], s.max, i, -1)
    ensures (if s.st[i].Used? then Size(r.maxLog2, Depth(i)) else 0) <= Clip(s.max, Off(r.maxLog2, i), Size(r.maxLog2, Depth(i)))
  {
  }

  lemma ClipChildren(m: nat, max: nat, i: nat)
    requires Depth(i) < m
    ensures Clip(max, Off(m, 2 * i + 1), Size(m, Depth(2 * i + 1)))
         + Clip(max, Off(m, 2 * i + 2), Size(m, Depth(2 * i + 2))) == Clip(max, Off(m, i), Size(m, Depth(i)))
  {
    assert Depth(2 * i + 1) == Depth(i) + 1 == Depth(2 * i + 2);
  }

  /** The live bytes are at most the high-water mark, and that at most the range. */
  lemma LiveBounded(r: Range, s: State)
    requires Inv(r, s)
    ensures Live(r.maxLog2, s.st) <= s.max <= r.bytes
  {
    LiveBound(r, s, 0);
  }

  // What a refusal means

  /** The `Size` bytes at `a` lie in the range, and in the largest tree, and no live block touches them. */
  ghost predicate Vacant(r: Range, st: seq<Status>, a: nat, d: nat) {
    && a % Size(r.maxLog2, d) == 0
    && a + Size(r.maxLog2, d) <= r.bytes && a + Size(r.maxLog2, d) <= Pow2(r.maxLog2)
    && forall i :: 0 <= i < |st| && st[i].Used? ==> Apart(r.maxLog2, i, a, d)
  }

  predicate Apart(m: nat, i: nat, a: nat, d: nat) {
    a + Size(m, d) <= Off(m, i) || Off(m, i) + Size(m, Depth(i)) <= a
  }

  /** Whether the range holds the tree's largest block, every byte of it. */
  predicate Ample(r: Range) {
    r.bytes >= Pow2(r.maxLog2)
  }

  /** On an ample range the tree always grows. */
  lemma GrowSucceeds(r: Range, s: State)
    requires Inv(r, s) && Ample(r) && s.limit > 0
    ensures Grow(r, s).1
  {
    hide NodeOk, ListOk, BelowAt, Depth, Off, Pow2, First, RaiseUsed, RaiseFree;
    CoreSizes(r, s);
    RootFacts(r.Buckets(), s.st, s.limit);
    WithinTree(r.maxLog2, First(s.limit) + 1);
    LeastSize(r, s.limit);
  }

  lemma {:induction false} LowerSucceeds(r: Range, s: State, b: nat)
    requires Inv(r, s) && Ample(r)
    ensures Lower(r, s, b).1
    decreases s.limit
  {
    if b < s.limit {
      GrowSucceeds(r, s);
      LowerSucceeds(r, Grow(r, s).0, b);
    }
  }

  lemma TakeSucceeds(r: Range, s: State, b: nat, goal: nat)
    requires Inv(r, s) && Ample(r) && b <= goal < r.Buckets() && s.lists[b] != []
    ensures TakeLast(r, s, b, goal).1.Some?
  {
    var q := s.lists[b];
    var i := q[|q| - 1];
    assert Listed(s.st, i, b);
    WithinTree(r.maxLog2, i);
    RoomShrinks(r, b, goal);
  }

  /** A search that fails has grown the tree whole and found every list it could use empty. */
  lemma {:induction false} FindNone(r: Range, s: State, b: nat, goal: nat)
    requires Inv(r, s) && Ample(r) && b <= goal < r.Buckets()
    requires b == goal || s.limit <= b
    requires forall c :: b < c <= goal ==> s.lists[c] == []
    ensures Find(r, s, b, goal).1.None? ==> var s' := Find(r, s, b, goal).0;
              s'.limit == 0 && forall c :: 0 <= c <= goal ==> s'.lists[c] == []
    decreases b
  {
    hide Shape, Below, ListOk, SameUsed, OneMore, TakeLast, Grow, Lower, Ample;
    LowerSucceeds(r, s, b);
    var s1 := Lower(r, s, b).0;
    if s1.lists[b] != [] {
      TakeSucceeds(r, s1, b, goal);
    } else if b > 0 {
      if b != s1.limit {
        FindNone(r, s1, b - 1, goal);
      } else {
        LowerSucceeds(r, s1, b - 1);
        GrowListed(r, s1);
        TakeSucceeds(r, Lower(r, s1, b - 1).0, b, goal);
      }
    }
  }

  /** No live block at or below `i`: then it is all one free block. */
  lemma {:induction false} AllFree(r: Range, s: State, i: nat)
    requires Inv(r, s) && i < |s.st| && s.st[i].Present()
    requires forall j :: 0 <= j < |s.st| && s.st[j].Used? ==> !Above(i, j)
    ensures s.st[i].Free?
    decreases |s.st| - i
  {
    AboveChildren(i, i);
    if s.st[i].Split? {
      assert NodeOk(s.st, i);
      forall j | 0 <= j < |s.st| && s.st[j].Used?
        ensures !Above(2 * i + 1, j) && !Above(2 * i + 2, j)
      {
        AboveChildren(i, j);
      }
      AllFree(r, s, 2 * i + 1);
      AllFree(r, s, 2 * i + 2);
      assert false;
    }
  }

  /** What lies above node `n` and is a block, or `n` itself. */
  lemma {:induction false} LeafOver(r: Range, s: State, n: nat) returns (i: nat)
    requires Inv(r, s) && n < |s.st| && s.limit == 0
    ensures i < |s.st| && Above(i, n) && s.st[i].Present() && (i == n || Leaf(s.st[i]))
  {
    if s.st[n].Present() {
      i := n;
    } else {
      if n == 0 || s.st[n].Top? {
        if s.st[n].Top? {
          TopDepth(r.Buckets(), s.st, 0, n);
        }
        assert false;
      }
      i := LeafOver(r, s, Parent(n));
      if i == Parent(n) {
        assert NodeOk(s.st, i);
      }
    }
  }

  /** The node an aligned address names at bucket `d`. */
  lemma NodeOf(r: Range, a: nat, d: nat) returns (n: nat)
    requires r.Good() && d < r.Buckets()
    requires a % Size(r.maxLog2, d) == 0 && a + Size(r.maxLog2, d) <= Pow2(r.maxLog2)
    ensures n < First(r.Buckets()) && Depth(n) == d && Off(r.maxLog2, n) == a
  {
    var z := Size(r.maxLog2, d);
    var k := a / z;
    assert a == k * z + a % z;
    Pow2Add(d, r.maxLog2 - d);
    if k >= Pow2(d) {
      MulMonotone(Pow2(d), k, z);
      assert false;
    }
    n := NodeAt(r.maxLog2, d, k);
    Pow2Monotone(d + 1, r.Buckets());
  }

  /** The tree whole and nothing listed at or above bucket `d`: no room for a block of that size. */
  lemma EmptyListsNoRoom(r: Range, s: State, a: nat, d: nat)
    requires Inv(r, s) && Ample(r) && s.limit == 0 && d < r.Buckets()
    requires forall c :: 0 <= c <= d ==> s.lists[c] == []
    ensures !Vacant(r, s.st, a, d)
  {
    if Vacant(r, s.st, a, d) {
      var n := NodeOf(r, a, d);
      var i := LeafOver(r, s, n);
      DepthBelow(n, r.Buckets());
      Nested(r.maxLog2, i, n);
      AboveDepth(i, n);
      forall j | 0 <= j < |s.st| && s.st[j].Used?
        ensures !Above(n, j) && j != i
      {
        DepthBelow(j, r.Buckets());
        if Above(n, j) {
          Nested(r.maxLog2, n, j);
        }
      }
      if i == n {
        AllFree(r, s, n);
      }
      EmptyList(r, s, i);
      assert false;
    }
  }

  lemma EmptyList(r: Range, s: State, i: nat)
    requires Inv(r, s) && i < |s.st| && Depth(i) < r.Buckets() && s.lists[Depth(i)] == []
    ensures !s.st[i].Free?
  {
    assert i in s.lists[Depth(i)] <==> Listed(s.st, i, Depth(i));
  }

  lemma {:induction false} AboveDepth(i: nat, j: nat)
    requires Above(i, j)
    ensures Depth(i) <= Depth(j)
    ensures i != j ==> Depth(i) < Depth(j)
  {
    if i != j {
      AboveDepth(i, Parent(j));
    }
  }

  /** A block handed out lay in room there was. */
  lemma TakenWasVacant(r: Range, s: State, s': State, j: nat, d: nat)
    requires Inv(r, s) && Inv(r, s') && OneMore(s.st, s'.st, j) && Depth(j) == d
    ensures Vacant(r, s.st, Off(r.maxLog2, j), d)
  {
    var m := r.maxLog2;
    assert BelowAt(m, s'.st[j], s'.max, j, -1);
    DepthBelow(j, r.Buckets());
    WithinTree(m, j);
    Aligned(m, j);
    forall i | 0 <= i < |s.st| && s.st[i].Used?
      ensures Apart(m, i, Off(m, j), d)
    {
      LeavesDisjoint(r, s', i, j);
    }
  }

  /** On an ample range a request is refused exactly when no aligned stretch of its block's size is free of
      live blocks. */
  lemma RefusedIffNoRoom(r: Range, s: State, goal: nat)
    requires Inv(r, s) && Ample(r) && goal < r.Buckets()
    ensures Find(r, s, goal, goal).1.None? <==> !exists a :: Vacant(r, s.st, a, goal)
  {
    var (s', got) := Find(r, s, goal, goal);
    if got.Some? {
      TakenWasVacant(r, s, s', got.value, goal);
    } else {
      FindNone(r, s, goal, goal);
      forall a: nat
        ensures !Vacant(r, s.st, a, goal)
      {
        EmptyListsNoRoom(r, s', a, goal);
        VacantSame(r, s.st, s'.st, a, goal);
      }
    }
  }

  lemma VacantSame(r: Range, st: seq<Status>, st': seq<Status>, a: nat, d: nat)
    requires |st| == |st'|
    requires forall i :: 0 <= i < |st| && st'[i].Used? ==> st[i].Used?
    ensures Vacant(r, st, a, d) ==> Vacant(r, st', a, d)
  {
  }

  /** A run of requests, each answered or refused, and nothing let go. */
  ghost function Requests(r: Range, s: State, goals: seq<nat>): (s': State)
    requires Inv(r, s) && forall k :: 0 <= k < |goals| ==> goals[k] < r.Buckets()
    ensures Inv(r, s') && |s'.st| == |s.st|
    ensures forall i :: 0 <= i < |s.st| && s.st[i].Used? ==> s'.st[i].Used?
    decreases |goals|
  {
    if goals == [] then s else Requests(r, Find(r, s, goals[0], goals[0]).0, goals[1..])
  }

  /** On an ample range a refused request is refused until a block is let go, whatever is asked meanwhile. */
  lemma RefusalStands(r: Range, s: State, goal: nat, goals: seq<nat>)
    requires Inv(r, s) && Ample(r) && goal < r.Buckets()
    requires forall k :: 0 <= k < |goals| ==> goals[k] < r.Buckets()
    requires Find(r, s, goal, goal).1.None?
    ensures Find(r, Requests(r, s, goals), goal, goal).1.None?
  {
    var s' := Requests(r, s, goals);
    RefusedIffNoRoom(r, s, goal);
    RefusedIffNoRoom(r, s', goal);
    forall a: nat
      ensures !Vacant(r, s'.st, a, goal)
    {
      VacantSame(r, s'.st, s.st, a, goal);
    }
  }

  // What letting everything go leaves

  /** With nothing live the tree is one free root, and no node is in use: every split bit is clear. */
  lemma NothingLive(r: Range, s: State)
    requires Inv(r, s) && forall i :: 0 <= i < |s.st| ==> !s.st[i].Used?
    ensures s.st[First(s.limit)].Free?
    ensures forall i :: 0 <= i < |s.st| ==> !s.st[i].InUse()
    ensures s.limit < |s.lists| && s.lists[s.limit] == [First(s.limit)]
    ensures forall b :: 0 <= b < |s.lists| && b != s.limit ==> s.lists[b] == []
  {
    var root := First(s.limit);
    AllFree(r, s, root);
    forall i | 0 <= i < |s.st|
      ensures !s.st[i].InUse()
      ensures s.st[i].Free? ==> i == root
    {
      if s.st[i].Present() {
        AllFree(r, s, i);
        if i != root {
          InSpan(r, s, i);
          RootAbove(r, s, i);
          SplitAbove(r.Buckets(), s.st, s.limit, root, i);
          assert false;
        }
      }
    }
    DepthFirst(s.limit);
    assert Listed(s.st, root, s.limit);
    OnlyMember(s.lists[s.limit], root);
    forall b | 0 <= b < |s.lists| && b != s.limit
      ensures s.lists[b] == []
    {
      NoneListed(s.st, s.lists[b], b);
    }
  }

  lemma NoneListed(st: seq<Status>, q: seq<nat>, b: nat)
    requires ListOk(st, q, b) && forall i :: !Listed(st, i, b)
    ensures q == []
  {
    Members(q);
  }

  lemma Members(q: seq<nat>)
    ensures q == [] || q[0] in q
    ensures |q| < 2 || q[1] in q
  {
  }

  lemma OnlyMember(q: seq<nat>, i: nat)
    requires NoDup(q) && forall x :: x in q <==> x == i
    ensures q == [i]
  {
    assert i in q;
    Members(q);
  }

  // Letting go and asking again

  /** The node that letting `i` go leaves free: `i` itself, or what it merged into. */
  ghost function Settled(r: Range, s: State, i: nat): (j: nat)
    requires Core(r, s) && i < |s.st| && s.st[i].Used?
    requires Below(r.maxLog2, s.st, s.max, i)
    ensures j <= i && Above(j, i)
    decreases i
  {
    if i > 0 && SiblingIn(r, s, i) && s.st[Sibling(i)].Free? then
      MergeCore(r, s, i);
      MergeBelow(r, s, i);
      var j := Settled(r, MergeStep(s, Depth(i), i), Parent(i));
      AboveUp(j, i);
      j
    else i
  }

  lemma AboveUp(j: nat, i: nat)
    requires i > 0 && Above(j, Parent(i))
    ensures Above(j, i)
  {
  }

  /** What letting go leaves at the back of a list: `j`, with room for a block at its start below the mark. */
  ghost predicate BackIs(r: Range, s: State, i: nat, j: nat) {
    && j < |s.st| && s.st[j].Free? && Depth(j) < |s.lists|
    && s.lists[Depth(j)] != [] && s.lists[Depth(j)][|s.lists[Depth(j)]| - 1] == j
    && (j != i ==> Off(r.maxLog2, j) + Size(r.maxLog2, Depth(j) + 1) + LIST <= s.max)
  }

  lemma {:induction false} SettledLast(r: Range, s: State, i: nat)
    requires Core(r, s) && i < |s.st| && s.st[i].Used?
    requires Below(r.maxLog2, s.st, s.max, i)
    ensures BackIs(r, Release(r, s, i), i, Settled(r, s, i))
    decreases i
  {
    if i > 0 && SiblingIn(r, s, i) && s.st[Sibling(i)].Free? {
      SettledMerge(r, s, i);
      SettledLast(r, MergeStep(s, Depth(i), i), Parent(i));
      hide *;
    } else {
      ReleaseDone(r, s, i);
      hide Shape, Below, ListOk, OneMore, Inv;
    }
  }

  lemma SettledMerge(r: Range, s: State, i: nat)
    requires Core(r, s) && 0 < i < |s.st| && s.st[i].Used?
    requires Below(r.maxLog2, s.st, s.max, i)
    requires SiblingIn(r, s, i) && s.st[Sibling(i)].Free?
    ensures Depth(i) < |s.lists|
    ensures var s1 := MergeStep(s, Depth(i), i);
            && Core(r, s1) && Below(r.maxLog2, s1.st, s1.max, Parent(i))
            && Release(r, s, i) == Release(r, s1, Parent(i))
            && Settled(r, s, i) == Settled(r, s1, Parent(i))
            && (BackIs(r, Release(r, s, i), Parent(i), Settled(r, s, i)) ==> BackIs(r, Release(r, s, i), i, Settled(r, s, i)))
  {
    MergeCore(r, s, i);
    MergeBelow(r, s, i);
    MergedRoom(r, s, i);
  }

  lemma MergedRoom(r: Range, s: State, i: nat)
    requires 0 < i < |s.st| && Sibling(i) < |s.st| && s.st[i].Used? && s.st[Sibling(i)].Free?
    requires Below(r.maxLog2, s.st, s.max, i)
    ensures Depth(Parent(i)) + 1 == Depth(i)
    ensures Off(r.maxLog2, Parent(i)) + Size(r.maxLog2, Depth(i)) + LIST <= s.max
  {
    assert BelowAt(r.maxLog2, s.st[i], s.max, i, i);
    assert BelowAt(r.maxLog2, s.st[Sibling(i)], s.max, Sibling(i), i);
    assert Depth(Sibling(i)) == Depth(i) && Parent(Sibling(i)) == Parent(i);
  }

  /** Whether the lists of the buckets past `j`'s, to bucket `b`, are empty. */
  ghost predicate NoneBetween(s: State, j: nat, b: nat)
    requires b < |s.lists|
  {
    forall c :: Depth(j) < c <= b ==> s.lists[c] == []
  }

  /** A block let go and asked for again comes back at the same address exactly when what it merged into
      starts there and no smaller free block is large enough. */
  lemma SameAddress(r: Range, s: State, i: nat)
    requires Inv(r, s) && i < |s.st| && s.st[i].Used?
    requires Below(r.maxLog2, s.st, s.max, i) && Depth(i) < r.Buckets()
    ensures var s' := Release(r, s, i);
            var got := Find(r, s', Depth(i), Depth(i)).1;
            var j := Settled(r, s, i);
            (got.Some? && Off(r.maxLog2, got.value) == Off(r.maxLog2, i))
              <==> Off(r.maxLog2, j) == Off(r.maxLog2, i) && NoneBetween(s', j, Depth(i))
  {
    var s' := Release(r, s, i);
    var j := Settled(r, s, i);
    var b := Depth(i);
    SettledLast(r, s, i);
    InSpan(r, s, i);
    InSpan(r, s', j);
    AboveDepth(j, i);
    if NoneBetween(s', j, b) {
      DownTo(r, s', Depth(j), b, b);
      SettledFits(r, s, i, j);
    } else {
      var c := FirstListed(r, s', j, b, b);
      DownTo(r, s', c, b, b);
      OtherAddress(r, s', i, j, c, b);
    }
  }

  lemma {:induction false} FirstListed(r: Range, s: State, j: nat, b: nat, top: nat) returns (c: nat)
    requires b < |s.lists| && Depth(j) <= b
    requires !NoneBetween(s, j, b)
    ensures Depth(j) < c <= b && s.lists[c] != []
    ensures forall x :: c < x <= b ==> s.lists[x] == []
  {
    if s.lists[b] != [] {
      c := b;
    } else {
      c := FirstListed(r, s, j, b - 1, top);
    }
  }

  /** The search passes over empty lists to the first that is not. */
  lemma {:induction false} DownTo(r: Range, s: State, c: nat, b: nat, goal: nat)
    requires Inv(r, s) && s.limit <= c <= b <= goal < r.Buckets()
    requires s.lists[c] != [] && forall x :: c < x <= b ==> s.lists[x] == []
    ensures Find(r, s, b, goal) == TakeLast(r, s, c, goal)
    decreases b
  {
    hide Shape, Below, ListOk, SameUsed, OneMore, TakeLast, Grow, Lower;
    if c < b {
      DownTo(r, s, c, b - 1, goal);
    }
  }

  lemma SettledFits(r: Range, s: State, i: nat, j: nat)
    requires Inv(r, s) && i < |s.st| && s.st[i].Used? && Depth(i) < r.Buckets()
    requires Below(r.maxLog2, s.st, s.max, i)
    requires j == Settled(r, s, i) && Depth(j) <= Depth(i)
    ensures var s' := Release(r, s, i);
            && s'.lists[Depth(j)] != []
            && var got := TakeLast(r, s', Depth(j), Depth(i)).1;
               got.Some? && Off(r.maxLog2, got.value) == Off(r.maxLog2, j)
  {
    assert BelowAt(r.maxLog2, s.st[i], s.max, i, -1);
    SettledLast(r, s, i);
    AboveDepth(j, i);
    var s' := Release(r, s, i);
    SettledRoom(r, s', i, j);
    hide *;
    TakeFits(r, s', Depth(j), Depth(i));
  }

  lemma SettledRoom(r: Range, s: State, i: nat, j: nat)
    requires Inv(r, s) && BackIs(r, s, i, j) && Depth(j) <= Depth(i) < r.Buckets()
    requires i == j ==> Off(r.maxLog2, i) + Size(r.maxLog2, Depth(i)) <= s.max
    requires i != j ==> Depth(j) < Depth(i)
    ensures Off(r.maxLog2, s.lists[Depth(j)][|s.lists[Depth(j)]| - 1]) + Room(r, Depth(j), Depth(i)) <= s.max
  {
    LeastSize(r, Depth(j));
  }

  lemma TakeFits(r: Range, s: State, b: nat, goal: nat)
    requires Inv(r, s) && b <= goal < r.Buckets() && s.lists[b] != []
    requires Off(r.maxLog2, s.lists[b][|s.lists[b]| - 1]) + Room(r, b, goal) <= s.max
    ensures var got := TakeLast(r, s, b, goal).1;
            got.Some? && Off(r.maxLog2, got.value) == Off(r.maxLog2, s.lists[b][|s.lists[b]| - 1])
  {
  }

  lemma OtherAddress(r: Range, s: State, i: nat, j: nat, c: nat, goal: nat)
    requires Inv(r, s) && j < |s.st| && s.st[j].Free? && Above(j, i) && i < |s.st|
    requires Depth(j) < c <= goal < r.Buckets() && s.lists[c] != []
    ensures var got := TakeLast(r, s, c, goal).1;
            got.Some? ==> Off(r.maxLog2, got.value) != Off(r.maxLog2, i)
  {
    var q := s.lists[c];
    var x := q[|q| - 1];
    assert Listed(s.st, x, c);
    LeavesDisjoint(r, s, x, j);
    DepthBelow(i, r.Buckets());
    Nested(r.maxLog2, j, i);
  }

  /** A block let go that found no free buddy is what the next request of its size gets, and the two undo
      each other. */
  lemma ReleaseThenFind(r: Range, s: State, i: nat)
    requires Inv(r, s) && i < |s.st| && s.st[i].Used?
    requires i > 0 && Sibling(i) < |s.st| ==> !s.st[Sibling(i)].Free?
    ensures Below(r.maxLog2, s.st, s.max, i)
    ensures Depth(i) < r.Buckets()
    ensures Find(r, Release(r, s, i), Depth(i), Depth(i)) == (s, Some(i))
  {
    var b := Depth(i);
    BelowWeaker(r.maxLog2, s.st, s.max, i);
    DepthBelow(i, r.Buckets());
    InSpan(r, s, i);
    var s1 := Release(r, s, i);
    assert s1 == Settle(s, b, i);
    assert BelowAt(r.maxLog2, s.st[i], s.max, i, -1);
    var q := s.lists[b];
    assert !Listed(s.st, i, b);
    WithoutLast(q, i);
    assert Use(s1, b, i).st == s.st;
    assert Use(s1, b, i).lists == s.lists;
  }

  lemma {:induction false} WithoutLast(q: seq<nat>, i: nat)
    requires i !in q
    ensures Without(q + [i], i) == q
  {
    if q != [] {
      assert (q + [i])[1..] == q[1..] + [i];
      WithoutLast(q[1..], i);
    }
  }
}
