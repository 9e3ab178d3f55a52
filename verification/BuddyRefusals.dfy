/** When a refused request can be served with nothing let go. At most one free block crosses the end of the range, and
    a refusal is undone by other requests exactly when that block is what stopped the search at the list of the
    request's own size, its first half can still be handed out, and another block would do. */
module BuddyRefusals {
  import opened Arith
  import opened BuddyTree
  import opened BuddySpec
  import opened BuddyProperties
  import opened Prelude

  // What a refusal leaves

  ghost predicate Sized(r: Range, s: State) {
    r.Good() && |s.lists| == r.Buckets() && s.limit < r.Buckets()
  }

  /** The bucket of the least blocks. */
  function Last(r: Range): nat
    requires r.Good()
  {
    r.Buckets() - 1
  }

  /** Node `i`, of bucket `c`, does not fit a request of bucket `goal`. */
  predicate Short(r: Range, i: nat, c: nat, goal: nat) {
    Off(r.maxLog2, i) + Room(r, c, goal) > r.bytes
  }

  /** The tree can grow no more while its root is in use. */
  predicate Stuck(r: Range, s: State) {
    s.limit == 0 || Off(r.maxLog2, First(s.limit) + 1) + LIST > r.bytes
  }

  ghost predicate EmptyPast(s: State, c: nat, g: nat)
    requires g < |s.lists|
  {
    forall d :: c < d <= g ==> s.lists[d] == []
  }

  /** Another block listed for bucket `g` or for larger ones than the last of `g`'s. */
  ghost predicate Another(s: State, g: nat)
    requires g < |s.lists|
  {
    |s.lists[g]| > 1 || exists c :: 0 <= c < g && s.lists[c] != []
  }

  /** The refusal of bucket `g` that requests alone undo: the search stopped at the back of the list of `g` itself, on
      a block that crosses the end and whose first half may still be handed out, and there is another. */
  ghost predicate Undoable(r: Range, s: State, g: nat)
    requires Sized(r, s) && g < r.Buckets()
  {
    && s.limit <= g && s.lists[g] != [] && Short(r, Back(s, g), g, g) && !Short(r, Back(s, g), g, Last(r))
    && Another(s, g)
  }

  /** Nothing fits and the tree does not grow. */
  ghost predicate NoneFits(r: Range, s: State, g: nat)
    requires Sized(r, s) && g < r.Buckets()
  {
    && (s.limit > g ==> s.lists[s.limit] == [])
    && (s.lists[s.limit] == [] ==> Stuck(r, s))
    && forall c :: 0 <= c <= g ==> AllShort(r, s.lists[c], c, g)
  }

  ghost predicate AllShort(r: Range, q: seq<nat>, c: nat, g: nat) {
    forall i :: i in q ==> Short(r, i, c, g)
  }

  /** The search stops at a block of bucket `c` that no request can take. */
  ghost predicate Behind(r: Range, s: State, g: nat, c: nat)
    requires Sized(r, s) && g < r.Buckets()
  {
    && s.limit <= c <= g && s.lists[c] != [] && Short(r, Back(s, c), c, Last(r)) && EmptyPast(s, c, g)
    && (c == s.limit || (s.lists[s.limit] == [] && Stuck(r, s)))
  }

  ghost predicate Blocked(r: Range, s: State, g: nat)
    requires Sized(r, s) && g < r.Buckets()
  {
    NoneFits(r, s, g) || exists c :: Behind(r, s, g, c)
  }

  // One free block at most crosses the end

  lemma InvSized(r: Range, s: State)
    requires Inv(r, s)
    ensures Sized(r, s)
  {
    CoreSizes(r, s);
  }

  lemma ListedFree(r: Range, s: State, c: nat, i: nat)
    requires Inv(r, s) && c < |s.lists| && i in s.lists[c]
    ensures i < |s.st| && s.st[i].Free? && Depth(i) == c < r.Buckets()
    ensures Off(r.maxLog2, i) + LIST <= r.bytes
  {
    assert ListOk(s.st, s.lists[c], c);
    assert Listed(s.st, i, c);
    assert BelowAt(r.maxLog2, s.st[i], s.max, i, -1);
  }

  /** Where one free block crosses the end every other lies inside. */
  lemma OthersInside(r: Range, s: State, c: nat, i: nat, d: nat, j: nat)
    requires Inv(r, s) && c < |s.lists| && i in s.lists[c] && d < |s.lists| && j in s.lists[d] && i != j
    requires Short(r, i, c, c)
    ensures Off(r.maxLog2, j) + Size(r.maxLog2, d) <= r.bytes
  {
    hide Inv, Core, Off, Size, Depth;
    ListedFree(r, s, c, i);
    ListedFree(r, s, d, j);
    InvCore(r, s);
    LeavesDisjoint(r, s, i, j);
  }

  lemma InvCore(r: Range, s: State)
    requires Inv(r, s)
    ensures Core(r, s) && r.Good()
  {
  }

  /** A list's entries are different. */
  lemma BackOnce(r: Range, s: State, c: nat, k: nat)
    requires Inv(r, s) && c < |s.lists| && k + 1 < |s.lists[c]|
    ensures s.lists[c][k] != Back(s, c)
  {
    assert ListOk(s.st, s.lists[c], c);
  }

  /** A node is on one list at most. */
  lemma OneList(r: Range, s: State, c: nat, d: nat, i: nat)
    requires Inv(r, s) && c < |s.lists| && d < |s.lists| && i in s.lists[c] && i in s.lists[d]
    ensures c == d
  {
    ListedFree(r, s, c, i);
    ListedFree(r, s, d, i);
  }

  /** A bucket above the root's lists nothing. */
  lemma AboveEmpty(r: Range, s: State, c: nat)
    requires Inv(r, s) && c < s.limit
    ensures c < |s.lists| && s.lists[c] == []
  {
    CoreSizes(r, s);
    NoneAt(r, s, c);
  }

  lemma InTree(r: Range, s: State, c: nat)
    requires Inv(r, s) && c < |s.lists| && s.lists[c] != []
    ensures s.limit <= c
  {
    if c < s.limit {
      AboveEmpty(r, s, c);
    }
  }

  /** The root's own bucket lists the root, where it is free, and no other. */
  lemma RootListed(r: Range, s: State)
    requires Inv(r, s)
    ensures s.limit < |s.lists|
    ensures s.lists[s.limit] == if s.st[First(s.limit)].Free? then [First(s.limit)] else []
  {
    hide Off, Size, Depth, First, Below, NodeOk;
    CoreSizes(r, s);
    var q, root := s.lists[s.limit], First(s.limit);
    DepthFirst(s.limit);
    InvLists(r, s, s.limit);
    forall i | i in q
      ensures i == root
    {
      ListedFree(r, s, s.limit, i);
      AtRootDepth(r, s, i);
    }
    assert Listed(s.st, root, s.limit) <==> s.st[root].Free?;
    if s.st[root].Free? {
      OnlyMember(q, root);
    } else {
      Members(q);
    }
  }

  lemma InvLists(r: Range, s: State, b: nat)
    requires Inv(r, s) && b < |s.lists|
    ensures ListOk(s.st, s.lists[b], b) && NoDup(s.lists[b])
  {
  }

  /** The right half of the tree grown starts where the tree ends. */
  lemma RightAt(r: Range, s: State)
    requires Inv(r, s) && s.limit > 0
    ensures Off(r.maxLog2, First(s.limit) + 1) == Size(r.maxLog2, s.limit)
  {
    hide Pow2, NodeOk, ListOk, BelowAt;
    var root := First(s.limit);
    RootFacts(r.Buckets(), s.st, s.limit);
    DepthFirst(s.limit - 1);
    SpineFirst(First(s.limit - 1));
    SpineStart(r.maxLog2, First(s.limit - 1));
    assert (root + 1) % 2 == 0;
  }

  /** A tree that holds a block across the end does not grow while in use. */
  lemma CrossStuck(r: Range, s: State, c: nat, i: nat)
    requires Inv(r, s) && c < |s.lists| && i in s.lists[c] && Short(r, i, c, c)
    ensures Stuck(r, s)
  {
    hide Inv, Off, Size, Depth, Room;
    ListedFree(r, s, c, i);
    InSpan(r, s, i);
    RoomWhole(r, c);
    if s.limit > 0 {
      RightAt(r, s);
    }
  }

  lemma RoomWhole(r: Range, c: nat)
    ensures Room(r, c, c) == Size(r.maxLog2, c)
  {
  }

  /** The room a request needs of a block: less where the block is larger, and then the same for all. */
  lemma Rooms(r: Range, c: nat, g: nat, h: nat)
    requires r.Good() && c <= g < r.Buckets() && c <= h < r.Buckets()
    ensures c < g && c < h ==> Room(r, c, g) == Room(r, c, h)
    ensures Room(r, c, g) <= Room(r, c, c) && Room(r, c, Last(r)) <= Room(r, c, g)
  {
    RoomShrinks(r, c, g);
    RoomShrinks(r, c, Last(r));
  }

  /** The whole tree free and its root short: the root above is short too. */
  lemma TopShort(r: Range, b: nat, g: nat)
    requires r.Good() && 0 < b < r.Buckets() && b <= g < r.Buckets()
    ensures Room(r, b - 1, g) >= Room(r, b, g) && Room(r, b - 1, b - 1) >= Room(r, b, b)
    ensures Room(r, b - 1, Last(r)) >= Room(r, b, Last(r))
  {
    LeastSize(r, b - 1);
    RoomShrinks(r, b, g);
    RoomShrinks(r, b, Last(r));
  }

  // What growing and taking do to the lists

  lemma GrowStuck(r: Range, s: State)
    requires Inv(r, s) && s.limit > 0 && s.limit < |s.lists| && s.lists[s.limit] == [] && Stuck(r, s)
    ensures Grow(r, s) == (s, false)
  {
    hide Off, First, RaiseFree, RaiseUsed, BelowAt, NodeOk;
    RootListed(r, s);
    StuckOut(r, s);
  }

  lemma StuckOut(r: Range, s: State)
    requires Inv(r, s)
    ensures s.max <= r.bytes
  {
  }

  /** A free root raised: it alone is listed, one bucket up. */
  lemma GrowRaises(r: Range, s: State)
    requires Inv(r, s) && s.limit > 0 && s.limit < |s.lists| && s.lists[s.limit] != []
    ensures Grow(r, s).1 && Sized(r, Grow(r, s).0)
    ensures var s' := Grow(r, s).0;
            && s'.limit == s.limit - 1 && s.lists[s.limit] == [First(s.limit)]
            && s'.lists == s.lists[s.limit := []][s.limit - 1 := [First(s.limit - 1)]]
  {
    hide Off, First, RaiseUsed, BelowAt, NodeOk;
    RootListed(r, s);
    InvSized(r, Grow(r, s).0);
  }

  lemma RootOff(r: Range, b: nat)
    ensures Off(r.maxLog2, First(b)) == 0
  {
    DepthFirst(b);
    SpineFirst(First(b));
    SpineStart(r.maxLog2, First(b));
  }

  lemma {:induction false} LowerStays(r: Range, s: State, b: nat)
    requires Inv(r, s) && (s.limit <= b || (s.limit < |s.lists| && s.lists[s.limit] == [] && Stuck(r, s)))
    ensures Lower(r, s, b) == (s, s.limit <= b)
  {
    if b < s.limit {
      GrowStuck(r, s);
    }
  }

  /** Growing that fails leaves a tree in use that grows no more. */
  lemma {:induction false} LowerFails(r: Range, s: State, b: nat)
    requires Inv(r, s) && !Lower(r, s, b).1
    ensures var s' := Lower(r, s, b).0; Sized(r, s') && s'.lists[s'.limit] == [] && Stuck(r, s') && s'.limit > b
    decreases s.limit
  {
    hide Off, First, RaiseUsed, RaiseFree, BelowAt, NodeOk, ListOk, Depth, RootOk;
    InvSized(r, Lower(r, s, b).0);
    if Grow(r, s).1 {
      LowerFails(r, Grow(r, s).0, b);
    } else {
      GrowFails(r, s);
    }
  }

  lemma GrowFails(r: Range, s: State)
    requires Inv(r, s) && s.limit > 0 && !Grow(r, s).1
    ensures s.limit < |s.lists| && s.lists[s.limit] == [] && Stuck(r, s)
  {
    hide Off, First, RaiseUsed, RaiseFree, BelowAt, NodeOk, ListOk, Depth, RootOk;
    RootListed(r, s);
  }

  /** Splitting lists nothing but between the block's bucket and the one it is split to. */
  lemma {:induction false} SplitDownLists(r: Range, s: State, i: nat, goal: nat)
    requires CanSplit(r, s, i, goal)
    ensures var s' := SplitDown(r, s, i, goal).0;
            |s'.lists| == |s.lists| && forall c :: 0 <= c < |s.lists| && !(Depth(i) < c <= goal) ==> s'.lists[c] == s.lists[c]
    decreases goal - Depth(i)
  {
    if Depth(i) < goal {
      hide Core, Below, Off, Room;
      CoreLists(r, s);
      ChildrenIn(i, r.Buckets());
      SplitDownStep(r, s, i, goal);
      SplitDownLists(r, SplitStep(s, Depth(i), i), 2 * i + 1, goal);
    }
  }

  lemma CoreLists(r: Range, s: State)
    requires Core(r, s)
    ensures r.Good() && |s.lists| == r.Buckets() && |s.st| == First(r.Buckets())
  {
  }

  /** What taking the back of list `b` leaves of the lists. */
  ghost predicate Taken(s: State, s': State, b: nat, goal: nat)
    requires b < |s.lists| && s.lists[b] != []
  {
    && |s'.lists| == |s.lists| && s'.limit == s.limit
    && s'.lists[b] == s.lists[b][..|s.lists[b]| - 1]
    && forall c :: 0 <= c < |s.lists| && !(b <= c <= goal) ==> s'.lists[c] == s.lists[c]
  }

  /** The back of a list is taken exactly where it has the room. */
  lemma TakeLists(r: Range, s: State, b: nat, goal: nat)
    requires Inv(r, s) && b <= goal < r.Buckets() && b < |s.lists| && s.lists[b] != []
    ensures var (s', got) := TakeLast(r, s, b, goal);
            if Short(r, Back(s, b), b, goal) then s' == s && got.None? else got.Some? && Taken(s, s', b, goal)
  {
    hide BelowAt, NodeOk, ListOk, Off, Room, First, SplitDown, SameUsed, Without;
    var i := Back(s, b);
    BackListed(r, s, b);
    var to := Off(r.maxLog2, i) + Room(r, b, goal);
    if !Short(r, i, b, goal) {
      ReachKeeps(r, s, to, -1);
      var s1 := Reach(r, s, to).0;
      UseCore(r, s1, b, i);
      UseBelow(r, s1, i);
      SplitDownLists(r, Use(s1, b, i), i, goal);
      InvLists(r, s, b);
      LastWithout(s.lists[b]);
    } else {
      StuckOut(r, s);
    }
  }

  lemma {:induction false} LastWithout(q: seq<nat>)
    requires NoDup(q) && q != []
    ensures Without(q, q[|q| - 1]) == q[..|q| - 1]
  {
    var n := |q| - 1;
    assert q == q[..n] + [q[n]];
    assert forall k :: 0 <= k < n ==> q[k] != q[n];
    WithoutLast(q[..n], q[n]);
  }

  // Where nothing fits, nothing will

  lemma {:induction false} LowerKeepsNone(r: Range, s: State, b: nat, g: nat)
    requires Inv(r, s) && g < r.Buckets() && Sized(r, s) && NoneFits(r, s, g)
    ensures Sized(r, Lower(r, s, b).0) && NoneFits(r, Lower(r, s, b).0, g)
    ensures s.lists[s.limit] == [] && b < s.limit ==> Lower(r, s, b) == (s, false)
    decreases s.limit
  {
    hide Inv, Grow, Lower;
    InvSized(r, Lower(r, s, b).0);
    if b >= s.limit || s.lists[s.limit] == [] {
      LowerStays(r, s, b);
    } else {
      GrowRaises(r, s);
      RaisedNone(r, s, g);
      LowerKeepsNone(r, Grow(r, s).0, b, g);
      LowerStep(r, s, b);
    }
  }

  lemma LowerStep(r: Range, s: State, b: nat)
    requires Inv(r, s) && b < s.limit && Grow(r, s).1
    ensures Lower(r, s, b) == Lower(r, Grow(r, s).0, b)
  {
    hide Inv, Grow;
  }

  lemma RaisedNone(r: Range, s: State, g: nat)
    requires Inv(r, s) && g < r.Buckets() && Sized(r, s) && NoneFits(r, s, g)
    requires s.limit > 0 && s.lists[s.limit] != []
    ensures Sized(r, Grow(r, s).0) && NoneFits(r, Grow(r, s).0, g)
  {
    hide Inv, Grow, Room;
    GrowRaises(r, s);
    RootOff(r, s.limit);
    RootOff(r, s.limit - 1);
    TopShort(r, s.limit, g);
    assert Short(r, First(s.limit), s.limit, g) by {
      assert AllShort(r, s.lists[s.limit], s.limit, g);
      assert First(s.limit) in s.lists[s.limit];
    }
  }

  /** Taking where nothing fits `g`: only a block of `g`'s own size, for something smaller. */
  lemma TakeKeepsNone(r: Range, s: State, b: nat, goal: nat, g: nat)
    requires Inv(r, s) && g < r.Buckets() && Sized(r, s) && NoneFits(r, s, g)
    requires s.limit <= b <= goal < r.Buckets() && s.lists[b] != []
    ensures var (s', got) := TakeLast(r, s, b, goal);
            Sized(r, s') && NoneFits(r, s', g) && (goal <= g ==> got.None?)
  {
    hide Inv, TakeLast, Room;
    TakeLists(r, s, b, goal);
    var s' := TakeLast(r, s, b, goal).0;
    InvSized(r, s');
    if b <= g {
      assert AllShort(r, s.lists[b], b, g) && Back(s, b) in s.lists[b];
      Rooms(r, b, g, goal);
      Rooms(r, b, goal, g);
      if !Short(r, Back(s, b), b, goal) {
        CrossStuck(r, s, b, Back(s, b));
        FewerShort(r, s, s', b, goal, g);
      }
    } else {
      FewerShort(r, s, s', b, goal, g);
    }
  }

  lemma FewerShort(r: Range, s: State, s': State, b: nat, goal: nat, g: nat)
    requires Sized(r, s) && Sized(r, s') && g < r.Buckets() && NoneFits(r, s, g)
    requires s.limit <= b <= goal < r.Buckets() && g <= b && s.lists[b] != []
    requires s' == s || Taken(s, s', b, goal)
    requires s' != s && b == g ==> Stuck(r, s)
    ensures NoneFits(r, s', g)
  {
    hide Room, Off;
    forall c | 0 <= c <= g
      ensures AllShort(r, s'.lists[c], c, g)
    {
      assert AllShort(r, s.lists[c], c, g);
    }
  }

  lemma {:induction false} NoneFitsKept(r: Range, s: State, b: nat, goal: nat, g: nat)
    requires Inv(r, s) && b <= goal < r.Buckets() && g < r.Buckets() && Sized(r, s) && NoneFits(r, s, g)
    ensures var (s', got) := Find(r, s, b, goal);
            Sized(r, s') && NoneFits(r, s', g) && (goal <= g ==> got.None?)
    decreases b
  {
    hide Inv, Lower, TakeLast, NoneFits, Stuck;
    LowerKeepsNone(r, s, b, g);
    var (s1, ok) := Lower(r, s, b);
    if ok {
      if s1.lists[b] != [] {
        TakeKeepsNone(r, s1, b, goal, g);
      } else if b > 0 {
        if b != s1.limit {
          NoneFitsKept(r, s1, b - 1, goal, g);
        } else {
          LowerKeepsNone(r, s1, b - 1, g);
        }
      }
    }
  }

  // Behind a block that no request can take

  lemma {:induction false} LowerKeepsBehind(r: Range, s: State, b: nat, g: nat, c: nat) returns (c': nat)
    requires Inv(r, s) && g < r.Buckets() && Sized(r, s) && Behind(r, s, g, c)
    ensures Sized(r, Lower(r, s, b).0) && Behind(r, Lower(r, s, b).0, g, c')
    ensures if c == s.limit && b < c then c' == b && Lower(r, s, b).1 && Lower(r, s, b).0.limit == b
            else c' == c && Lower(r, s, b) == (s, s.limit <= b)
    decreases s.limit
  {
    hide Inv, Grow, Lower;
    if c == s.limit && b < c {
      GrowRaises(r, s);
      RaisedBehind(r, s, g, c);
      LowerStep(r, s, b);
      c' := LowerKeepsBehind(r, Grow(r, s).0, b, g, c - 1);
      LowerStays(r, Grow(r, s).0, c - 1);
    } else {
      LowerStays(r, s, b);
      c' := c;
    }
  }

  lemma RaisedBehind(r: Range, s: State, g: nat, c: nat)
    requires Inv(r, s) && g < r.Buckets() && Sized(r, s) && Behind(r, s, g, c) && c == s.limit > 0
    ensures Sized(r, Grow(r, s).0) && Behind(r, Grow(r, s).0, g, c - 1)
  {
    hide Inv, Grow, Room;
    GrowRaises(r, s);
    RootOff(r, c);
    RootOff(r, c - 1);
    TopShort(r, c, c);
  }

  /** Taking from another list leaves it where it is; taking from its own fails. */
  lemma TakeKeepsBehind(r: Range, s: State, b: nat, goal: nat, g: nat, c: nat)
    requires Inv(r, s) && g < r.Buckets() && Sized(r, s) && Behind(r, s, g, c)
    requires s.limit <= b <= goal < r.Buckets() && s.lists[b] != []
    requires if goal < c then c != s.limit else b >= c
    ensures var (s', got) := TakeLast(r, s, b, goal);
            Sized(r, s') && Behind(r, s', g, c) && (c <= goal <= g ==> got.None?)
  {
    hide Inv, TakeLast, Room, Off;
    TakeLists(r, s, b, goal);
    var s' := TakeLast(r, s, b, goal).0;
    InvSized(r, s');
    if b == c {
      Rooms(r, c, goal, g);
    } else if c <= goal {
      assert b > g;
    }
  }

  lemma {:induction false} BehindKept(r: Range, s: State, b: nat, goal: nat, g: nat, c: nat) returns (c': nat)
    requires Inv(r, s) && b <= goal < r.Buckets() && g < r.Buckets() && Sized(r, s) && Behind(r, s, g, c)
    requires if goal < c then b == goal || s.limit <= b else b >= c
    ensures var (s', got) := Find(r, s, b, goal);
            Sized(r, s') && Behind(r, s', g, c') && (c <= goal <= g ==> got.None?)
    decreases b
  {
    hide Inv, Lower, TakeLast, Stuck, Room;
    var c1 := LowerKeepsBehind(r, s, b, g, c);
    var (s1, ok) := Lower(r, s, b);
    c' := c1;
    if ok {
      if s1.lists[b] != [] {
        TakeKeepsBehind(r, s1, b, goal, g, c1);
      } else if b > 0 {
        if b != s1.limit {
          c' := BehindKept(r, s1, b - 1, goal, g, c1);
        } else {
          c' := LowerKeepsBehind(r, s1, b - 1, g, c1);
        }
      }
    }
  }

  // What a refused search leaves

  /** The search stopped at the back of list `b`. */
  lemma BackCase(r: Range, s: State, b: nat, g: nat)
    requires Inv(r, s) && Sized(r, s) && s.limit <= b <= g < r.Buckets()
    requires s.lists[b] != [] && EmptyPast(s, b, g) && Short(r, Back(s, b), b, g)
    ensures Undoable(r, s, g) || Blocked(r, s, g)
  {
    hide Inv, Room, Stuck, Off;
    var x := Back(s, b);
    assert x in s.lists[b];
    Rooms(r, b, g, Last(r));
    CrossStuck(r, s, b, x);
    RootListed(r, s);
    if Short(r, x, b, Last(r)) {
      OnlyRoot(r, s, b, x);
      assert Behind(r, s, g, b);
    } else if !Another(s, g) {
      assert s.lists[g] == [x];
      assert NoneFits(r, s, g);
    }
  }

  /** A free root is all there is. */
  lemma OnlyRoot(r: Range, s: State, b: nat, x: nat)
    requires Inv(r, s) && b < |s.lists| && x in s.lists[b] && s.limit < |s.lists|
    ensures b == s.limit || s.lists[s.limit] == []
  {
    hide Inv, Off, Size, Depth;
    ListedFree(r, s, b, x);
    RootListed(r, s);
    if s.lists[s.limit] != [] && b != s.limit {
      InvCore(r, s);
      ListedFree(r, s, s.limit, First(s.limit));
      LeavesDisjoint(r, s, First(s.limit), x);
      InSpan(r, s, x);
      RootOff(r, s.limit);
      SpanOverlap(r, s, x);
      assert false;
    }
  }

  lemma SpanOverlap(r: Range, s: State, x: nat)
    requires Off(r.maxLog2, First(s.limit)) == 0
    requires Off(r.maxLog2, x) + Size(r.maxLog2, Depth(x)) <= Size(r.maxLog2, s.limit)
    ensures Overlap(r.maxLog2, First(s.limit), x)
  {
    DepthFirst(s.limit);
  }

  lemma {:induction false} RefusedLeaves(r: Range, s: State, b: nat, g: nat)
    requires Inv(r, s) && Sized(r, s) && b <= g < r.Buckets() && (b == g || s.limit <= b) && EmptyPast(s, b, g)
    requires Find(r, s, b, g).1.None?
    ensures var s' := Find(r, s, b, g).0; Sized(r, s') && (Undoable(r, s', g) || Blocked(r, s', g))
    decreases b
  {
    hide Inv, Lower, TakeLast, Off, Room, Undoable, Blocked, Short;
    var (s1, ok) := Lower(r, s, b);
    InvSized(r, s1);
    SameLower(r, s, b, g);
    if !ok {
      LowerFails(r, s, b);
      NothingListed(r, s1, g);
    } else {
      if s1.lists[b] != [] {
        TakeLists(r, s1, b, g);
        BackCase(r, s1, b, g);
      } else if b == 0 {
        NothingListed(r, s1, g);
      } else if b != s1.limit {
        RefusedLeaves(r, s1, b - 1, g);
      } else {
        GrownLeaves(r, s1, b, g);
      }
    }
  }

  lemma SameLower(r: Range, s: State, b: nat, g: nat)
    requires Inv(r, s) && Sized(r, s) && b <= g < r.Buckets() && (b == g || s.limit <= b) && EmptyPast(s, b, g)
    ensures Sized(r, Lower(r, s, b).0) && EmptyPast(Lower(r, s, b).0, b, g) && (b < g ==> Lower(r, s, b).1)
  {
    InvSized(r, Lower(r, s, b).0);
    if b < g {
      LowerStays(r, s, b);
    }
  }

  /** All lists to `g` empty and a tree that does not grow. */
  lemma NothingListed(r: Range, s: State, g: nat)
    requires Inv(r, s) && Sized(r, s) && g < r.Buckets() && s.lists[s.limit] == [] && Stuck(r, s)
    requires s.limit <= g ==> EmptyPast(s, s.limit, g)
    ensures Blocked(r, s, g)
  {
    hide Inv, Stuck, Short;
    forall c | 0 <= c <= g
      ensures AllShort(r, s.lists[c], c, g)
    {
      if c < s.limit {
        AboveEmpty(r, s, c);
      }
    }
    assert NoneFits(r, s, g);
  }

  /** The search grew the tree for the root's own size, or could not. */
  lemma GrownLeaves(r: Range, s: State, b: nat, g: nat)
    requires Inv(r, s) && Sized(r, s) && 0 < b == s.limit <= g < r.Buckets() && s.lists[b] == [] && EmptyPast(s, b, g)
    requires Find(r, s, b, g).1.None?
    ensures var s' := Find(r, s, b, g).0; Sized(r, s') && (Undoable(r, s', g) || Blocked(r, s', g))
  {
    hide Inv, TakeLast, Stuck, Room, Undoable, Blocked, Short, Grow;
    LowerStays(r, s, b);
    var (s2, grown) := Lower(r, s, b - 1);
    InvSized(r, s2);
    if !grown {
      LowerFails(r, s, b - 1);
      OneLower(r, s);
      NothingListed(r, s2, g);
    } else {
      GrowListed(r, s);
      GrownLists(r, s);
      TakeLists(r, s2, b, g);
      BackCase(r, s2, b, g);
    }
  }

  lemma OneLower(r: Range, s: State)
    requires Inv(r, s) && s.limit > 0
    ensures !Lower(r, s, s.limit - 1).1 ==> Lower(r, s, s.limit - 1).0 == s
  {
    hide Inv, Grow;
    if Grow(r, s).1 {
      LowerStays(r, Grow(r, s).0, s.limit - 1);
    }
  }

  lemma GrownLists(r: Range, s: State)
    requires Inv(r, s) && Sized(r, s) && s.limit > 0 && s.lists[s.limit] == [] && Grow(r, s).1
    ensures var s' := Grow(r, s).0;
            && |s'.lists| == |s.lists|
            && forall c :: s.limit < c < |s.lists| ==> s'.lists[c] == s.lists[c]
  {
    hide Off, First, BelowAt, NodeOk, ListOk;
    RootListed(r, s);
  }

  // Undone

  /** What the smaller requests are that undo a refusal: first those that empty the list below. */
  lemma {:induction false} Undo(r: Range, s: State, g: nat) returns (goals: seq<nat>)
    requires Inv(r, s) && Sized(r, s) && g < r.Buckets() && Undoable(r, s, g)
    ensures Asked(r, goals) && Find(r, Requests(r, s, goals), g, g).1.Some?
    decreases if g + 1 < |s.lists| then |s.lists[g + 1]| else 0
  {
    hide Inv, Find, Undoable, Requests;
    Smaller(r, s, g);
    var s1 := Find(r, s, g + 1, g + 1).0;
    InvSized(r, s1);
    if s.lists[g + 1] != [] {
      OneShorter(r, s, g);
      var rest := Undo(r, s1, g);
      goals := [g + 1] + rest;
      RequestsMore(r, s, g + 1, rest);
    } else {
      SplitOut(r, s, g);
      goals := [g + 1] + [];
      RequestsMore(r, s, g + 1, []);
      NoRequests(r, s1);
    }
  }

  ghost predicate Asked(r: Range, goals: seq<nat>)
    requires r.Good()
  {
    forall k :: 0 <= k < |goals| ==> goals[k] < r.Buckets()
  }

  lemma Smaller(r: Range, s: State, g: nat)
    requires Sized(r, s) && g < r.Buckets() && Undoable(r, s, g)
    ensures g + 1 < r.Buckets()
  {
    hide Room, Off;
  }

  lemma RequestsMore(r: Range, s: State, goal: nat, rest: seq<nat>)
    requires Inv(r, s) && goal < r.Buckets() && Asked(r, rest)
    ensures Asked(r, [goal] + rest)
    ensures Requests(r, s, [goal] + rest) == Requests(r, Find(r, s, goal, goal).0, rest)
  {
    hide Inv, Find;
    var goals := [goal] + rest;
    assert goals[1..] == rest && goals[0] == goal;
  }

  lemma NoRequests(r: Range, s: State)
    requires Inv(r, s)
    ensures Requests(r, s, []) == s
  {
  }

  /** While the list below is not empty, a request of its size shortens it and leaves the larger ones. */
  lemma OneShorter(r: Range, s: State, g: nat)
    requires Inv(r, s) && Sized(r, s) && g + 1 < r.Buckets() && Undoable(r, s, g) && s.lists[g + 1] != []
    ensures var s' := Find(r, s, g + 1, g + 1).0;
            Sized(r, s') && Undoable(r, s', g) && |s'.lists[g + 1]| < |s.lists[g + 1]|
  {
    hide Inv, TakeLast, Room, Off, Size, Find;
    var y, s' := Back(s, g + 1), Find(r, s, g + 1, g + 1).0;
    InvSized(r, s');
    assert Back(s, g) in s.lists[g] && y in s.lists[g + 1];
    if y == Back(s, g) {
      OneList(r, s, g, g + 1, y);
      assert false;
    }
    OthersInside(r, s, g, Back(s, g), g + 1, y);
    RoomWhole(r, g + 1);
    DownTo(r, s, g + 1, g + 1, g + 1);
    TakeLists(r, s, g + 1, g + 1);
  }

  /** The block across the end split for a smaller request: what is listed for `g` and above fits, and there is one. */
  lemma SplitOut(r: Range, s: State, g: nat)
    requires Inv(r, s) && Sized(r, s) && g + 1 < r.Buckets() && Undoable(r, s, g) && s.lists[g + 1] == []
    ensures Find(r, Find(r, s, g + 1, g + 1).0, g, g).1.Some?
  {
    hide Inv, TakeLast, Room, Off, Size, Find;
    var s' := Find(r, s, g + 1, g + 1).0;
    InvSized(r, s');
    Rooms(r, g, g + 1, Last(r));
    DownTo(r, s, g, g + 1, g + 1);
    TakeLists(r, s, g, g + 1);
    var c := LargestListed(s', g);
    InTree(r, s', c);
    DownTo(r, s', c, g, g);
    var y := Back(s', c);
    assert y in s'.lists[c];
    StillListed(r, s, s', g, c, y);
    OthersInside(r, s, g, Back(s, g), c, y);
    Rooms(r, c, g, g);
    RoomWhole(r, c);
    TakeLists(r, s', c, g);
  }

  lemma StillListed(r: Range, s: State, s': State, g: nat, c: nat, y: nat)
    requires Inv(r, s) && g < |s.lists| && s.lists[g] != [] && Taken(s, s', g, g + 1) && c <= g && y in s'.lists[c]
    ensures y in s.lists[c] && y != Back(s, g)
  {
    hide Inv;
    if c == g {
      var k :| 0 <= k < |s'.lists[g]| && s'.lists[g][k] == y;
      BackOnce(r, s, g, k);
    } else if y == Back(s, g) {
      OneList(r, s, c, g, y);
    }
  }

  /** The nearest list to `g`'s, from `g` up, that is not empty. */
  lemma {:induction false} LargestListed(s: State, g: nat) returns (c: nat)
    requires g < |s.lists| && exists d :: 0 <= d <= g && s.lists[d] != []
    ensures c <= g && s.lists[c] != [] && EmptyPast(s, c, g)
  {
    if s.lists[g] != [] {
      c := g;
    } else {
      c := LargestListed(s, g - 1);
    }
  }

  // Together

  lemma BlockedRefuses(r: Range, s: State, g: nat, goal: nat)
    requires Inv(r, s) && Sized(r, s) && g < r.Buckets() && goal < r.Buckets() && Blocked(r, s, g)
    ensures var (s', got) := Find(r, s, goal, goal); Sized(r, s') && Blocked(r, s', g) && (goal == g ==> got.None?)
  {
    hide Inv, Find, NoneFits, Behind;
    if NoneFits(r, s, g) {
      NoneFitsKept(r, s, goal, goal, g);
    } else {
      var c :| Behind(r, s, g, c);
      BehindWithin(r, s, g, c);
      var c' := BehindKept(r, s, goal, goal, g, c);
    }
  }

  lemma BehindWithin(r: Range, s: State, g: nat, c: nat)
    requires Sized(r, s) && g < r.Buckets() && Behind(r, s, g, c)
    ensures c <= g
  {
  }

  lemma {:induction false} BlockedStands(r: Range, s: State, g: nat, goals: seq<nat>)
    requires Inv(r, s) && Sized(r, s) && g < r.Buckets() && Blocked(r, s, g) && Asked(r, goals)
    ensures Find(r, Requests(r, s, goals), g, g).1.None?
    decreases |goals|
  {
    hide Inv, Find, Blocked, Requests;
    if goals == [] {
      NoRequests(r, s);
      BlockedRefuses(r, s, g, g);
    } else {
      BlockedRefuses(r, s, g, goals[0]);
      BlockedStands(r, Find(r, s, goals[0], goals[0]).0, g, goals[1..]);
      assert goals == [goals[0]] + goals[1..];
      RequestsMore(r, s, goals[0], goals[1..]);
    }
  }

  /** A refused request can be served with nothing let go exactly where the refusal left the state `Undoable`. */
  lemma UndoneIff(r: Range, s: State, g: nat)
    requires Inv(r, s) && g < r.Buckets() && Find(r, s, g, g).1.None?
    ensures var s' := Find(r, s, g, g).0;
            && Sized(r, s')
            && ((exists goals :: Asked(r, goals) && Find(r, Requests(r, s', goals), g, g).1.Some?) <==> Undoable(r, s', g))
  {
    hide Inv, Find, Blocked, Undoable, Requests;
    var s' := Find(r, s, g, g).0;
    InvSized(r, s);
    RefusedLeaves(r, s, g, g);
    if Undoable(r, s', g) {
      var goals := Undo(r, s', g);
    } else {
      forall goals | Asked(r, goals)
        ensures Find(r, Requests(r, s', goals), g, g).1.None?
      {
        BlockedStands(r, s', g, goals);
      }
    }
  }
}
