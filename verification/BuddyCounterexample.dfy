/** Two runs over a range that ends inside the tree's largest block. A refused request is served later with nothing
    let go in between: a merged block that crosses the end sits behind one that does not, a request for the pair's
    size meets the crossing one first, and a smaller request in between splits it out of the way. And a block let go
    and asked for again comes back at another address, its buddy being free before it. */
module BuddyCounterexample {
  import opened Arith
  import opened BuddyTree
  import opened BuddySpec
  import opened BuddySteps
  import opened Prelude

  /** Blocks of 16 to 128 bytes over 120 bytes. */
  const SHORT := Range(4, 7, 120)

  /** The statuses of the tree's fifteen nodes, each named by its letter. */
  function Tree(a: Status, b: Status, c: Status, d: Status, e: Status, f: Status, g: Status,
                h: Status, n: Status, o: Status): seq<Status> {
    [a, b, c, d, e, f, g, h, Absent, Absent, Absent, Absent, Absent, n, o]
  }

  lemma Sizes()
    ensures SHORT.Good() && SHORT.Buckets() == 4
    ensures First(0) == 0 && First(1) == 1 && First(2) == 3 && First(3) == 7 && First(4) == 15
    ensures Size(7, 0) == 128 && Size(7, 1) == 64 && Size(7, 2) == 32 && Size(7, 3) == 16
  {
    assert Pow2(4) == 16 && Pow2(5) == 32 && Pow2(6) == 64 && Pow2(7) == 128;
  }

  lemma Depths()
    ensures Depth(1) == 1 && Depth(2) == 1
    ensures Depth(3) == 2 && Depth(4) == 2 && Depth(5) == 2 && Depth(6) == 2
    ensures Depth(7) == 3 && Depth(13) == 3 && Depth(14) == 3
  {
    assert Depth(1) == 1 && Depth(2) == 1;
    assert Depth(3) == 2 && Depth(6) == 2;
  }

  lemma Places()
    ensures Depth(1) == 1 && Depth(2) == 1
    ensures Depth(3) == 2 && Depth(4) == 2 && Depth(5) == 2 && Depth(6) == 2
    ensures Depth(7) == 3 && Depth(13) == 3 && Depth(14) == 3
    ensures Off(7, 2) == 64 && Off(7, 3) == 0 && Off(7, 4) == 32 && Off(7, 5) == 64 && Off(7, 6) == 96
    ensures Off(7, 13) == 96 && Off(7, 14) == 112
  {
    hide Depth, Size;
    Sizes();
    Depths();
    assert Off(7, 0) == 0 && Off(7, 1) == 0;
    assert Off(7, 2) == 64;
  }

  const S0 := State(3, Tree(Top, Top, Absent, Top, Absent, Absent, Absent, Free, Absent, Absent), [[], [], [], [7]], 8)

  lemma Begin()
    ensures SHORT.Good() && Initial(SHORT) == S0
  {
    hide Inv, Pow2, OnSpine;
    Sizes();
    Spine();
    var s := Initial(SHORT);
    assert s.st == S0.st;
    assert s.lists == S0.lists;
  }

  lemma Spine()
    ensures forall i: nat :: i < 15 ==> (OnSpine(i) <==> i == 0 || i == 1 || i == 3 || i == 7)
  {
    assert OnSpine(0) && OnSpine(1) && OnSpine(3) && OnSpine(7);
    assert !OnSpine(2) && !OnSpine(4) && !OnSpine(5) && !OnSpine(6);
    assert !OnSpine(8) && !OnSpine(9) && !OnSpine(10) && !OnSpine(11) && !OnSpine(12) && !OnSpine(13) && !OnSpine(14);
  }

  /** 32 bytes at 0. */
  const S1 := State(2, Tree(Top, Top, Absent, Used, Absent, Absent, Absent, Absent, Absent, Absent), [[], [], [], []], 32)

  /** The back of a list taken whole. */
  lemma Whole(s: State, t: State, b: nat, i: nat)
    requires Inv(SHORT, s) && s.limit <= b < 4 && |s.lists| == 4 && |s.st| == 15 && s.lists[b] != [] && Back(s, b) == i
    requires i < 15 && Depth(i) == b
    requires var to := Off(7, i) + Size(7, b);
             to <= 120 && t == Use(s.(max := if to <= s.max then s.max else to), b, i)
    ensures Find(SHORT, s, b, b) == (t, Some(i))
  {
    hide Inv, Find, Use, Off, Size, Depth, TakeLast, SplitDown, CanSplit, Room;
    Sizes();
    RoomWhole(b);
    FindListed(SHORT, s, b, b);
    TakeUsed(SHORT, s, b, b);
    NotSplit(t, i, b);
  }

  lemma RoomWhole(b: nat)
    ensures Room(SHORT, b, b) == Size(7, b)
  {
  }

  lemma NotSplit(t: State, i: nat, b: nat)
    requires CanSplit(SHORT, t, i, b) && Depth(i) == b
    ensures SplitDown(SHORT, t, i, b) == (t, i)
  {
  }

  /** The back of a list halved, its left half taken. */
  lemma Halved(s: State, t: State, b: nat, i: nat)
    requires Inv(SHORT, s) && s.limit <= b < 3 && |s.lists| == 4 && |s.st| == 15 && s.lists[b] != [] && Back(s, b) == i
    requires s.lists[b + 1] == [] && 2 * i + 2 < 15 && Depth(i) == b
    requires var to := Off(7, i) + Size(7, b) / 2 + LIST;
             to <= 120 && t == SplitStep(Use(s.(max := if to <= s.max then s.max else to), b, i), b, i)
    ensures Find(SHORT, s, b + 1, b + 1) == (t, Some((2 * i + 1) as nat))
  {
    hide Inv, Find, Use, Off, Size, Depth, SplitStep;
    DownFrom(s, b);
    HalvedTake(s, t, b, i);
  }

  lemma HalvedTake(s: State, t: State, b: nat, i: nat)
    requires Inv(SHORT, s) && s.limit <= b < 3 && |s.lists| == 4 && |s.st| == 15 && s.lists[b] != [] && Back(s, b) == i
    requires 2 * i + 2 < 15 && Depth(i) == b
    requires var to := Off(7, i) + Size(7, b) / 2 + LIST;
             to <= 120 && t == SplitStep(Use(s.(max := if to <= s.max then s.max else to), b, i), b, i)
    ensures SHORT.Good() && SHORT.Buckets() == 4
    ensures TakeLast(SHORT, s, b, b + 1) == (t, Some((2 * i + 1) as nat))
  {
    hide Inv, Find, Use, Off, Size, Depth, SplitStep;
    Sizes();
    ChildDepth(i);
    TakeUsed(SHORT, s, b, b + 1);
    var u := Use(Reach(SHORT, s, Off(7, i) + Size(7, b) / 2 + LIST).0, b, i);
    SplitDownIs(SHORT, u, i, b + 1);
    NotSplit(t, 2 * i + 1, b + 1);
  }

  lemma DownFrom(s: State, b: nat)
    requires Inv(SHORT, s) && s.limit <= b < 3 && |s.lists| == 4 && s.lists[b] != [] && s.lists[b + 1] == []
    ensures SHORT.Good() && SHORT.Buckets() == 4
    ensures Find(SHORT, s, b + 1, b + 1) == TakeLast(SHORT, s, b, b + 1)
  {
  }

  lemma AskA()
    requires Inv(SHORT, S0)
    ensures Find(SHORT, S0, 2, 2) == (S1, Some(3))
  {
    hide Inv, Find, Lower, Grow, SplitDown, Depth, Off, Pow2;
    Sizes();
    Places();
    var t := State(2, Tree(Top, Top, Absent, Free, Absent, Absent, Absent, Absent, Absent, Absent), [[], [], [3], []], 8);
    assert RaiseFree(S0) == t;
    GrowFree(SHORT, S0);
    LowerOnce(SHORT, S0);
    FindAfterLower(SHORT, S0, 2, 2);
    assert Without([3], 3) == [];
    assert Use(t.(max := 32), 2, 3) == S1;
    Whole(t, S1, 2, 3);
  }

  /** 32 bytes at 32: the tree grows over its root. */
  const S2 := State(1, Tree(Top, Split, Absent, Used, Used, Absent, Absent, Absent, Absent, Absent), [[], [], [], []], 64)

  lemma AskB()
    requires Inv(SHORT, S1)
    ensures Find(SHORT, S1, 2, 2) == (S2, Some(4))
  {
    hide Inv, Find, Lower, Grow, TakeLast, SplitDown, Depth, Off, Pow2, RaiseUsed, Use;
    Sizes();
    Places();
    GrownB();
    GrowUsed(SHORT, S1);
    LowerOnce(SHORT, S1);
    FindRaise(SHORT, S1, 2, 2);
    FindListed(SHORT, T1, 2, 2);
    Whole(T1, S2, 2, 4);
  }

  const T1 := State(1, Tree(Top, Split, Absent, Used, Free, Absent, Absent, Absent, Absent, Absent), [[], [], [4], []], 40)

  lemma GrownB()
    ensures RaiseUsed(S1.(max := 40)) == T1 && Use(T1.(max := 64), 2, 4) == S2
  {
    Sizes();
    assert S1.lists[2] + [4] == [4];
    assert Without([4], 4) == [];
  }

  /** 32 bytes at 64: the tree grows again, and its right half is split. */
  const S3 := State(0, Tree(Split, Split, Split, Used, Used, Used, Free, Absent, Absent, Absent), [[], [], [6], []], 104)

  lemma AskC()
    requires Inv(SHORT, S2)
    ensures Find(SHORT, S2, 2, 2) == (S3, Some(5))
  {
    hide Inv, Find, Lower, Grow, TakeLast, SplitDown, Depth, Off, Pow2, RaiseUsed, Use, SplitStep;
    Sizes();
    Places();
    GrownC();
    GrowUsed(SHORT, S2);
    LowerOnce(SHORT, S2);
    FindNext(SHORT, S2, 2, 2);
    FindRaise(SHORT, S2, 1, 2);
    HalvedTake(T2, S3, 1, 2);
  }

  const T2 := State(0, Tree(Split, Split, Free, Used, Used, Absent, Absent, Absent, Absent, Absent), [[], [2], [], []], 72)

  lemma GrownC()
    ensures RaiseUsed(S2.(max := 72)) == T2 && SplitStep(Use(T2.(max := 104), 1, 2), 1, 2) == S3
  {
    Sizes();
    assert S2.lists[1] + [2] == [2];
    assert Without([2], 2) == [];
    var none: seq<nat> := [];
    assert none + [6] == [6];
  }

  /** 16 bytes at 96: the last block that fits is split. */
  const S4 := State(0, Tree(Split, Split, Split, Used, Used, Used, Split, Absent, Used, Free), [[], [], [], [14]], 120)

  lemma AskD()
    requires Inv(SHORT, S3)
    ensures Find(SHORT, S3, 3, 3) == (S4, Some(13))
  {
    hide Inv, Find, Depth, Off, Pow2;
    Sizes();
    Places();
    var u := State(0, Tree(Split, Split, Split, Used, Used, Used, Used, Absent, Absent, Absent), [[], [], [], []], 120);
    assert Without([6], 6) == [];
    assert Use(S3.(max := 120), 2, 6) == u;
    assert u.lists[3] + [14] == [14];
    assert SplitStep(u, 2, 6) == S4;
    Halved(S3, S4, 2, 6);
  }

  /** The first block let go, then the last: that one merges into 32 bytes at 96, which cross the end. */
  const S5 := State(0, Tree(Split, Split, Split, Free, Used, Used, Split, Absent, Used, Free), [[], [], [3], [14]], 120)
  const S6 := State(0, Tree(Split, Split, Split, Free, Used, Used, Free, Absent, Absent, Absent), [[], [], [3, 6], []], 120)

  lemma LetGoBoth()
    requires Inv(SHORT, S4)
    ensures Below(7, S4.st, 120, 3) && Release(SHORT, S4, 3) == S5
    ensures Inv(SHORT, S5) && Below(7, S5.st, 120, 13) && Release(SHORT, S5, 13) == S6
  {
    hide Core, Below, Depth, Off, Pow2, Size;
    Sizes();
    Places();
    BelowWeaker(7, S4.st, 120, 3);
    ReleaseSettle(SHORT, S4, 3);
    assert S4.lists[2] + [3] == [3];
    assert Settle(S4, 2, 3) == S5;
    BelowWeaker(7, S5.st, 120, 13);
    ReleaseMerge(SHORT, S5, 13);
    var t := State(0, Tree(Split, Split, Split, Free, Used, Used, Used, Absent, Absent, Absent), [[], [], [3], []], 120);
    assert Without([14], 14) == [];
    assert MergeStep(S5, 3, 13) == t;
    ReleaseSettle(SHORT, t, 6);
    assert t.lists[2] + [6] == [3, 6];
    assert Settle(t, 2, 6) == S6;
  }

  /** 32 bytes: the block at the back of the list crosses the end. */
  lemma Refused()
    requires Inv(SHORT, S6)
    ensures Find(SHORT, S6, 2, 2) == (S6, None)
  {
    hide Inv, Find, Depth, Off, Pow2, Size;
    Sizes();
    Places();
    FindListed(SHORT, S6, 2, 2);
    TakeRefused(SHORT, S6, 2, 2);
  }

  /** 16 bytes: that block is split. */
  const S7 := State(0, Tree(Split, Split, Split, Free, Used, Used, Split, Absent, Used, Free), [[], [], [3], [14]], 120)

  lemma AskSmaller()
    requires Inv(SHORT, S6)
    ensures Find(SHORT, S6, 3, 3) == (S7, Some(13))
  {
    hide Inv, Find, Depth, Off, Pow2;
    Sizes();
    Places();
    var u := State(0, Tree(Split, Split, Split, Free, Used, Used, Used, Absent, Absent, Absent), [[], [], [3], []], 120);
    assert Without([3, 6], 6) == [3];
    assert Use(S6, 2, 6) == u;
    assert u.lists[3] + [14] == [14];
    assert SplitStep(u, 2, 6) == S7;
    Halved(S6, S7, 2, 6);
  }

  /** 32 bytes again: served. */
  lemma Served()
    requires Inv(SHORT, S7)
    ensures Find(SHORT, S7, 2, 2).1 == Some(3)
  {
    hide Inv, Find, Depth, Off, Pow2;
    Sizes();
    Places();
    Whole(S7, Use(S7, 2, 3), 2, 3);
  }

  /** From the first call on: after four requests and two releases a request is refused, and after one more
      request, with nothing let go, it is served. */
  lemma RefusedThenServed()
    ensures SHORT.Good()
    ensures var s3 := Find(SHORT, Find(SHORT, Find(SHORT, Initial(SHORT), 2, 2).0, 2, 2).0, 2, 2).0;
            var s4 := Find(SHORT, s3, 3, 3).0;
            && 13 < |s4.st| && s4.st[3].Used? && Below(7, s4.st, s4.max, 3)
            && var s5 := Release(SHORT, s4, 3);
               && 13 < |s5.st| && s5.st[13].Used? && Below(7, s5.st, s5.max, 13)
               && var s6 := Release(SHORT, s5, 13);
                  && Find(SHORT, s6, 2, 2).1.None?
                  && Find(SHORT, Find(SHORT, s6, 3, 3).0, 2, 2).1.Some?
  {
    hide Inv, Core, Below, Find, Release;
    Begin();
    AskA();
    AskB();
    AskC();
    AskD();
    LetGoBoth();
    Refused();
    AskSmaller();
    Served();
  }

  // Another address

  /** The statuses where the tree has grown to its first 32 bytes at most: node 3's and its children's. */
  function Pair(d: Status, h: Status, i: Status): seq<Status> {
    [Top, Top, Absent, d, Absent, Absent, Absent, h, i, Absent, Absent, Absent, Absent, Absent, Absent]
  }

  lemma PairPlaces()
    ensures Depth(3) == 2 && Depth(7) == 3 && Depth(8) == 3
    ensures Off(7, 3) == 0 && Off(7, 7) == 0 && Off(7, 8) == 16
  {
    hide Depth, Size;
    Sizes();
    Depths();
    PairDepth();
    assert Off(7, 1) == 0 && Off(7, 3) == 0 && Off(7, 7) == 0;
  }

  lemma PairDepth()
    ensures Depth(8) == 3
  {
    Depths();
  }

  /** 16 bytes at 0, then 16 at 16: the tree grows over its root. */
  const P1 := State(3, Pair(Top, Used, Absent), [[], [], [], []], 16)
  const P2 := State(2, Pair(Split, Used, Used), [[], [], [], []], 32)

  lemma AskFirst()
    requires Inv(SHORT, S0)
    ensures Find(SHORT, S0, 3, 3) == (P1, Some(7))
  {
    hide Inv, Find, Depth, Off, Pow2;
    Sizes();
    PairPlaces();
    assert Without([7], 7) == [];
    assert Use(S0.(max := 16), 3, 7) == P1;
    Whole(S0, P1, 3, 7);
  }

  const T3 := State(2, Pair(Split, Used, Free), [[], [], [], [8]], 24)

  lemma AskSecond()
    requires Inv(SHORT, P1)
    ensures Find(SHORT, P1, 3, 3) == (P2, Some(8))
  {
    hide Inv, Find, Lower, Grow, TakeLast, SplitDown, Depth, Off, Pow2, RaiseUsed, Use;
    Sizes();
    PairPlaces();
    GrownPair();
    GrowUsed(SHORT, P1);
    LowerOnce(SHORT, P1);
    FindRaise(SHORT, P1, 3, 3);
    FindListed(SHORT, T3, 3, 3);
    Whole(T3, P2, 3, 8);
  }

  lemma GrownPair()
    ensures RaiseUsed(P1.(max := 24)) == T3 && Use(T3.(max := 32), 3, 8) == P2
  {
    Sizes();
    assert P1.lists[3] + [8] == [8];
    assert Without([8], 8) == [];
  }

  /** The first let go, then the second, which merges with it. */
  const P3 := State(2, Pair(Split, Free, Used), [[], [], [], [7]], 32)
  const P4 := State(2, Pair(Free, Absent, Absent), [[], [], [3], []], 32)

  lemma LetGoPair()
    requires Inv(SHORT, P2)
    ensures Below(7, P2.st, 32, 7) && Release(SHORT, P2, 7) == P3
    ensures Inv(SHORT, P3) && Below(7, P3.st, 32, 8) && Release(SHORT, P3, 8) == P4 && Inv(SHORT, P4)
  {
    hide Core, Below, Depth, Off, Pow2, Size;
    Sizes();
    PairPlaces();
    BelowWeaker(7, P2.st, 32, 7);
    ReleaseSettle(SHORT, P2, 7);
    assert P2.lists[3] + [7] == [7];
    assert Settle(P2, 3, 7) == P3;
    BelowWeaker(7, P3.st, 32, 8);
    ReleaseMerge(SHORT, P3, 8);
    var t := State(2, Pair(Used, Absent, Absent), [[], [], [], []], 32);
    assert Without([7], 7) == [];
    assert MergeStep(P3, 3, 8) == t;
    ReleaseSettle(SHORT, t, 3);
    assert t.lists[2] + [3] == [3];
    assert Settle(t, 2, 3) == P4;
  }

  lemma AskAgain()
    requires Inv(SHORT, P4)
    ensures Find(SHORT, P4, 3, 3).1 == Some(7)
  {
    hide Inv, Find, Depth, Off, Pow2;
    Sizes();
    PairPlaces();
    var u := State(2, Pair(Used, Absent, Absent), [[], [], [], []], 32);
    assert Without([3], 3) == [];
    assert Use(P4, 2, 3) == u;
    assert u.lists[3] + [8] == [8];
    var t := State(2, Pair(Split, Used, Free), [[], [], [], [8]], 32);
    assert SplitStep(u, 2, 3) == t;
    Halved(P4, t, 2, 3);
  }

  /** From the first call on: two requests of 16 bytes, the first let go and then the second, which was at 16. The next
      request of 16 bytes is served at 0. */
  lemma AnotherAddress()
    ensures SHORT.Good()
    ensures var (s1, first) := Find(SHORT, Initial(SHORT), 3, 3);
            var (s2, second) := Find(SHORT, s1, 3, 3);
            && first == Some(7) && second == Some(8) && 8 < |s2.st| && s2.st[7].Used? && Below(7, s2.st, s2.max, 7)
            && var s3 := Release(SHORT, s2, 7);
               && 8 < |s3.st| && s3.st[8].Used? && Below(7, s3.st, s3.max, 8)
               && Find(SHORT, Release(SHORT, s3, 8), 3, 3).1 == Some(7)
    ensures Off(7, 8) == 16 && Off(7, 7) == 0
  {
    hide Inv, Core, Below, Find, Release;
    Begin();
    PairPlaces();
    AskFirst();
    AskSecond();
    LetGoPair();
    AskAgain();
  }
}
