/** Each step of the buddy tree, in memory: what the links and bits become is what holds the stepped state,
    and no live block's bytes change. */
module BuddySteps {
  import opened Arith
  import opened BuddyTree
  import opened BuddySpec
  import opened BuddyProperties
  import opened BuddyMemory
  import opened Prelude

  /** Memory `w` and bits `bits` hold state `s`. */
  ghost predicate Stored(g: Layout, r: Range, s: State, but: int, w: seq<nat>, bits: seq<bv8>) {
    && r.Good() && Fits(g, r, |w|)
    && Core(r, s) && Below(r.maxLog2, s.st, s.max, but)
    && ListsLinked(g, r, s.lists, s.limit, w)
    && BitsOk(s.st, bits)
  }

  function FlipAbove(bits: seq<bv8>, i: nat): seq<bv8>
    requires i > 0 ==> Parent(i) / 8 < |bits|
  {
    if i == 0 then bits else Flip(bits, Parent(i))
  }

  /** Node `i` alone comes into use, or goes out of it. */
  lemma BitsToggled(st: seq<Status>, st': seq<Status>, bits: seq<bv8>, i: nat)
    requires BitsOk(st, bits) && |st'| == |st| && i < |st| && |st| % 2 == 1
    requires forall j :: 0 <= j < |st| && j != i ==> st'[j].InUse() == st[j].InUse()
    requires st'[i].InUse() != st[i].InUse()
    ensures i > 0 ==> Parent(i) / 8 < |bits|
    ensures BitsOk(st', FlipAbove(bits, i))
  {
    if i > 0 {
      BitsFlipped(st, st', bits, i);
    } else {
      forall p: nat | 2 * p + 2 < |st|
        ensures BitOk(st', bits, p)
      {
        assert BitOk(st, bits, p);
      }
    }
  }

  lemma OddSize(r: Range, s: State)
    requires Core(r, s)
    ensures |s.st| % 2 == 1
  {
  }

  /** A listed node's links lie in the memory. */
  lemma NodeFits(g: Layout, r: Range, s: State, but: int, i: nat, n: nat)
    requires Core(r, s) && Below(r.maxLog2, s.st, s.max, but) && Fits(g, r, n)
    requires i < |s.st| && s.st[i].Present()
    ensures NodeAddr(g, r, i) + LIST <= n
  {
    assert BelowAt(r.maxLog2, s.st[i], s.max, i, but);
  }

  /** A free node taken off its list. */
  lemma RemoveListed(g: Layout, r: Range, s: State, but: int, b: nat, i: nat, w: seq<nat>)
    requires Core(r, s) && Below(r.maxLog2, s.st, s.max, but) && Fits(g, r, |w|) && ListsLinked(g, r, s.lists, s.limit, w)
    requires Listed(s.st, i, b)
    ensures s.limit <= b < r.Buckets()
    ensures var e := NodeAddr(g, r, i);
            && e + LIST <= |w| && w[e] + LIST <= |w| && w[e + 4] + LIST <= |w| && Sep(w[e], e)
            && ListsLinked(g, r, s.lists[b := Without(s.lists[b], i)], s.limit, LinkRemove(w, e))
            && Intact(g, r, s.st, w, LinkRemove(w, e))
  {
    NotAboveRoot(r, s, i);
    DepthBelow(i, r.Buckets());
    assert ListOk(s.st, s.lists[b], b);
    var k := WhereListed(s.st, s.lists[b], b, i);
    hide *;
    RemoveAt(g, r, s, but, b, k, w);
  }

  lemma WhereListed(st: seq<Status>, q: seq<nat>, b: nat, i: nat) returns (k: nat)
    requires ListOk(st, q, b) && Listed(st, i, b)
    ensures k < |q| && q[k] == i && Without(q, i) == q[..k] + q[k + 1..]
  {
    assert i in q;
    k :| 0 <= k < |q| && q[k] == i;
    WithoutAt(q, k);
  }

  lemma RemoveAt(g: Layout, r: Range, s: State, but: int, b: nat, k: nat, w: seq<nat>)
    requires Core(r, s) && Below(r.maxLog2, s.st, s.max, but) && Fits(g, r, |w|) && ListsLinked(g, r, s.lists, s.limit, w)
    requires s.limit <= b < r.Buckets() && k < |s.lists[b]|
    ensures var e := NodeAddr(g, r, s.lists[b][k]);
            && e + LIST <= |w| && w[e] + LIST <= |w| && w[e + 4] + LIST <= |w| && Sep(w[e], e)
            && ListsLinked(g, r, s.lists[b := s.lists[b][..k] + s.lists[b][k + 1..]], s.limit, LinkRemove(w, e))
            && Intact(g, r, s.st, w, LinkRemove(w, e))
  {
    RemoveMem(g, r, s, b, k, w);
    hide ListOk, Shape, LinkRemove, ListsLinked, Below, NodeAddr;
    RemoveIntact(g, r, s, but, b, k, w);
  }

  /** The back of a list, popped and used. */
  lemma StoredUse(g: Layout, r: Range, s: State, b: nat, w: seq<nat>, bits: seq<bv8>)
    requires Stored(g, r, s, -1, w, bits) && s.limit <= b < r.Buckets() && s.lists[b] != []
    ensures var i := Back(s, b);
            var e := NodeAddr(g, r, i);
            && i < |s.st| && s.st[i].Free? && Depth(i) == b && (i > 0 ==> Parent(i) / 8 < |bits|)
            && e + LIST <= |w| && w[e] + LIST <= |w| && w[e + 4] + LIST <= |w| && Sep(w[e], e)
            && Stored(g, r, Use(s, b, i), i, LinkRemove(w, e), FlipAbove(bits, i))
            && Intact(g, r, s.st, w, LinkRemove(w, e))
  {
    var i := Back(s, b);
    BackListed(r, s, b);
    RemoveListed(g, r, s, -1, b, i, w);
    UseCore(r, s, b, i);
    UseBelow(r, s, i);
    OddSize(r, s);
    BitsToggled(s.st, s.st[i := Used], bits, i);
  }

  /** A used node split: its right child pushed, its own bit flipped. */
  lemma StoredSplit(g: Layout, r: Range, s: State, i: nat, w: seq<nat>, bits: seq<bv8>)
    requires Stored(g, r, s, i, w, bits) && 2 * i + 2 < |s.st| && s.st[i].Used?
    requires Off(r.maxLog2, i) + Size(r.maxLog2, Depth(2 * i + 2)) + LIST <= s.max
    ensures Depth(i) + 1 < r.Buckets() && Parent(2 * i + 1) == i && i / 8 < |bits|
    ensures var h, e := HeadAt(g, Depth(i) + 1), NodeAddr(g, r, 2 * i + 2);
            var s' := SplitStep(s, Depth(i), i);
            && h + LIST <= |w| && e + LIST <= |w| && w[h] + LIST <= |w|
            && Stored(g, r, s', -1, LinkPush(w, h, e), Flip(bits, i))
            && Intact(g, r, s'.st, w, LinkPush(w, h, e))
  {
    var b := Depth(i) + 1;
    hide NodeOk, ListOk, BelowAt, ListLinked, LinkPush, Intact, HeadAt;
    SplitCore(r, s, i);
    SplitBelow(r, s, i);
    var s' := SplitStep(s, Depth(i), i);
    SplitFacts(r, s, i);
    NodeFits(g, r, s', -1, 2 * i + 2, |w|);
    ListsBut(g, r, s.lists, s'.lists, s.limit, b, w);
    PushMem(g, r, s', s.limit, b, s.lists[b], 2 * i + 2, w);
    PushIntact(g, r, s', -1, b, s.lists[b], 2 * i + 2, w);
    BitsToggled(s.st, s'.st, bits, 2 * i + 1);
  }

  lemma SplitFacts(r: Range, s: State, i: nat)
    requires Core(r, s) && 2 * i + 2 < |s.st| && s.st[i].Used? && Depth(i) + 1 < r.Buckets()
    ensures var s' := SplitStep(s, Depth(i), i);
            && |s.st| % 2 == 1 && s.limit <= Depth(i)
            && (forall j :: 0 <= j < |s.st| && j != 2 * i + 1 ==> s'.st[j].InUse() == s.st[j].InUse())
            && s'.st[2 * i + 1].InUse() && !s.st[2 * i + 1].InUse()
  {
    assert NodeOk(s.st, i);
    NotAboveRoot(r, s, i);
  }

  lemma NotAboveRoot(r: Range, s: State, i: nat)
    requires Core(r, s) && i < |s.st| && s.st[i].Present()
    ensures s.limit <= Depth(i)
  {
    if Depth(i) < s.limit {
      AboveRoot(r.Buckets(), s.st, s.limit, i);
      assert false;
    }
  }

  /** The lists in memory are those of `lists`, which differ from `lists'` in bucket `b` only. */
  lemma ListsBut(g: Layout, r: Range, lists: seq<seq<nat>>, lists': seq<seq<nat>>, limit: nat, b: nat, w: seq<nat>)
    requires ListsLinked(g, r, lists, limit, w) && |lists'| == |lists| && limit <= b < |lists|
    requires forall c :: 0 <= c < |lists| && c != b ==> lists'[c] == lists[c]
    ensures ListsLinked(g, r, lists'[b := lists[b]], limit, w)
    ensures ListLinked(g, r, lists[b], b, w)
  {
    assert lists'[b := lists[b]] == lists;
    assert ListLinked(g, r, lists[b], b, w);
  }

  /** A used node and its free buddy merged: the buddy taken off its list. The bit above is flipped already. */
  lemma StoredMerge(g: Layout, r: Range, s: State, i: nat, w: seq<nat>, bits: seq<bv8>)
    requires Stored(g, r, s, i, w, bits) && 0 < i < |s.st| && Sibling(i) < |s.st|
    requires s.st[i].Used? && s.st[Sibling(i)].Free?
    ensures Depth(i) < r.Buckets() && Parent(i) / 8 < |bits|
    ensures var e := NodeAddr(g, r, Sibling(i));
            var s' := MergeStep(s, Depth(i), i);
            && e + LIST <= |w| && w[e] + LIST <= |w| && w[e + 4] + LIST <= |w| && Sep(w[e], e)
            && Stored(g, r, s', Parent(i), LinkRemove(w, e), Flip(bits, Parent(i)))
            && Intact(g, r, s.st, w, LinkRemove(w, e))
  {
    hide Core, Below, ListsLinked, BitsOk, Intact, Flip, Listed, LinkRemove, Depth, NodeAddr, Sep, Without;
    MergeStored(g, r, s, i, w, bits);
    RemoveListed(g, r, s, i, Depth(i), Sibling(i), w);
    MergeLists(r, s, i);
  }

  lemma MergeStored(g: Layout, r: Range, s: State, i: nat, w: seq<nat>, bits: seq<bv8>)
    requires Stored(g, r, s, i, w, bits) && 0 < i < |s.st| && Sibling(i) < |s.st|
    requires s.st[i].Used? && s.st[Sibling(i)].Free?
    ensures Depth(i) < r.Buckets() && Parent(i) / 8 < |bits| && Listed(s.st, Sibling(i), Depth(i))
    ensures var s' := MergeStep(s, Depth(i), i);
            forall w' :: Fits(g, r, |w'|) && ListsLinked(g, r, s'.lists, s.limit, w') ==>
                           Stored(g, r, s', Parent(i), w', Flip(bits, Parent(i)))
  {
    MergeCore(r, s, i);
    MergeBelow(r, s, i);
    MergeFacts(r, s, i);
    BitsToggled(s.st, MergeStep(s, Depth(i), i).st, bits, i);
  }

  lemma MergeLists(r: Range, s: State, i: nat)
    requires Core(r, s) && 0 < i < |s.st| && Sibling(i) < |s.st| && Depth(i) < r.Buckets()
    ensures |s.lists| == r.Buckets()
    ensures MergeStep(s, Depth(i), i).lists == s.lists[Depth(i) := Without(s.lists[Depth(i)], Sibling(i))]
  {
  }

  lemma MergeFacts(r: Range, s: State, i: nat)
    requires Core(r, s) && 0 < i < |s.st| && Sibling(i) < |s.st| && Depth(i) < r.Buckets()
    requires s.st[i].Used? && s.st[Sibling(i)].Free?
    ensures var s' := MergeStep(s, Depth(i), i);
            && |s.st| % 2 == 1 && s.limit <= Depth(i) && Depth(Sibling(i)) == Depth(i)
            && (forall j :: 0 <= j < |s.st| && j != i ==> s'.st[j].InUse() == s.st[j].InUse())
            && !s'.st[i].InUse()
  {
    hide NodeOk, ListOk, RootOk, Depth, First;
    CoreSizes(r, s);
    MergeShape(r.Buckets(), s.st, s.limit, i);
    SiblingDepth(i);
    NotAboveRoot(r, s, i);
  }

  lemma SiblingDepth(i: nat)
    requires i > 0
    ensures Depth(Sibling(i)) == Depth(i) && Sibling(i) != i && Parent(i) != i && Parent(i) != Sibling(i)
  {
    var j := Sibling(i);
    assert j > 0 && Parent(j) == Parent(i);
    DepthStep(i);
    DepthStep(j);
    hide Depth;
  }

  lemma DepthStep(i: nat)
    requires i > 0
    ensures Depth(i) == 1 + Depth(Parent(i))
  {
  }

  /** A used node with no free buddy, listed as free. */
  lemma StoredSettle(g: Layout, r: Range, s: State, i: nat, w: seq<nat>, bits: seq<bv8>)
    requires Stored(g, r, s, i, w, bits) && i < |s.st| && s.st[i].Used?
    requires i > 0 ==> Sibling(i) >= |s.st| || !s.st[Sibling(i)].Free?
    ensures Depth(i) < r.Buckets() && (i > 0 ==> Parent(i) / 8 < |bits|)
    ensures var h, e := HeadAt(g, Depth(i)), NodeAddr(g, r, i);
            var s' := Settle(s, Depth(i), i);
            && h + LIST <= |w| && e + LIST <= |w| && w[h] + LIST <= |w|
            && Stored(g, r, s', -1, LinkPush(w, h, e), FlipAbove(bits, i))
            && Intact(g, r, s'.st, w, LinkPush(w, h, e))
  {
    var b := Depth(i);
    ReleaseDone(r, s, i);
    var s' := Settle(s, b, i);
    OddSize(r, s);
    NotAboveRoot(r, s, i);
    NodeFits(g, r, s', -1, i, |w|);
    ListsBut(g, r, s.lists, s'.lists, s.limit, b, w);
    PushMem(g, r, s', s.limit, b, s.lists[b], i, w);
    PushIntact(g, r, s', -1, b, s.lists[b], i, w);
    BitsToggled(s.st, s'.st, bits, i);
  }

  /** The tree free, its root raised: the root off its list, the new root's list begun with it. */
  lemma StoredRaiseFree(g: Layout, r: Range, s: State, w: seq<nat>, bits: seq<bv8>)
    requires Stored(g, r, s, -1, w, bits) && s.limit > 0 && s.st[First(s.limit)].Free?
    ensures var e, h := g.base, HeadAt(g, s.limit - 1);
            var s' := RaiseFree(s);
            && e == NodeAddr(g, r, First(s.limit)) && h + LIST <= |w|
            && e + LIST <= |w| && w[e] + LIST <= |w| && w[e + 4] + LIST <= |w| && Sep(w[e], e)
            && var w1 := LinkInit(LinkRemove(w, e), h);
               && w1[h] + LIST <= |w|
               && Stored(g, r, s', -1, LinkPush(w1, h, e), bits)
               && Intact(g, r, s.st, w, LinkPush(w1, h, e))
  {
    hide NodeOk, ListOk, BelowAt, ListLinked, BitOk, Intact, LinkPush, LinkInit, LinkRemove, Off, Depth, Without, Sep;
    var b, root, top := s.limit, First(s.limit), First(s.limit - 1);
    RaiseFreeInv(r, s);
    RootFacts(r.Buckets(), s.st, b);
    RootAtBase(g, r, b);
    RootAtBase(g, r, b - 1);
    BitsKept(s.st, RaiseFree(s).st, bits);
    assert Listed(s.st, root, b);
    assert FewerUsed(s.st, RaiseFree(s).st);
    RemoveListed(g, r, s, -1, b, root, w);
    SepDiffers(w[g.base], g.base);
    RaiseFreePush(g, r, s, w, LinkRemove(w, g.base));
  }

  lemma RootAtBase(g: Layout, r: Range, b: nat)
    ensures NodeAddr(g, r, First(b)) == g.base
  {
    DepthFirst(b);
    SpineFirst(First(b));
    SpineStart(r.maxLog2, First(b));
  }

  lemma RaiseFreePush(g: Layout, r: Range, s: State, w: seq<nat>, w1: seq<nat>)
    requires Inv(r, s) && s.limit > 0 && s.st[First(s.limit)].Free? && Fits(g, r, |w|) && |w1| == |w|
    requires Inv(r, RaiseFree(s)) && FewerUsed(s.st, RaiseFree(s).st)
    requires ListsLinked(g, r, s.lists[s.limit := Without(s.lists[s.limit], First(s.limit))], s.limit, w1)
    requires Intact(g, r, s.st, w, w1)
    ensures var e, h := g.base, HeadAt(g, s.limit - 1);
            && h + LIST <= |w| && e + LIST <= |w|
            && var w2 := LinkInit(w1, h);
               && w2[h] + LIST <= |w|
               && ListsLinked(g, r, RaiseFree(s).lists, s.limit - 1, LinkPush(w2, h, e))
               && Intact(g, r, s.st, w, LinkPush(w2, h, e))
  {
    var b, top := s.limit - 1, First(s.limit - 1);
    var s' := RaiseFree(s);
    var lists1 := s.lists[s.limit := Without(s.lists[s.limit], First(s.limit))];
    RootAtBase(g, r, b);
    InitMemLists(g, r, s', lists1, b, w1);
    InitIntact(g, r, s.st, b, w1);
    var w2 := LinkInit(w1, HeadAt(g, b));
    NodeFits(g, r, s', -1, top, |w|);
    assert s'.lists[b] == [] + [top];
    assert s'.lists[b := []] == lists1[b := []];
    PushMem(g, r, s', b, b, [], top, w2);
    assert ListLinked(g, r, s'.lists[b := []][b], b, w2);
    PushIntact(g, r, s', -1, b, [], top, w2);
    var w3 := LinkPush(w2, HeadAt(g, b), g.base);
    IntactFewer(g, r, s.st, s'.st, w2, w3);
    IntactThen(g, r, s.st, w, w1, w2);
    IntactThen(g, r, s.st, w, w2, w3);
  }

  /** A bucket's head is made an empty list, the others those of `lists`. */
  lemma InitMemLists(g: Layout, r: Range, s': State, lists: seq<seq<nat>>, b: nat, w: seq<nat>)
    requires Core(r, s') && b == s'.limit && Fits(g, r, |w|) && |lists| == |s'.lists|
    requires forall c :: b < c < |lists| ==> lists[c] == s'.lists[c]
    requires ListsLinked(g, r, lists, b + 1, w)
    ensures HeadAt(g, b) + LIST <= |w|
    ensures ListsLinked(g, r, lists[b := []], b, LinkInit(w, HeadAt(g, b)))
  {
    var w' := LinkInit(w, HeadAt(g, b));
    var lists' := lists[b := []];
    forall c | b <= c < |lists'|
      ensures ListLinked(g, r, lists'[c], c, w')
    {
      if c == b {
        InitLinked(w, HeadAt(g, b));
        assert Addrs(g, r, []) == [];
      } else {
        assert ListLinked(g, r, lists[c], c, w);
        InitOthers(g, r, s', b, w, c);
      }
    }
  }

  /** The tree in use, its root raised: the right child listed, the new root's list empty. */
  lemma StoredRaiseUsed(g: Layout, r: Range, s: State, w: seq<nat>, bits: seq<bv8>)
    requires Stored(g, r, s, -1, w, bits) && s.limit > 0 && !s.st[First(s.limit)].Free?
    requires First(s.limit) + 1 < |s.st| && Off(r.maxLog2, First(s.limit) + 1) + LIST <= s.max
    ensures var right, top := First(s.limit) + 1, First(s.limit - 1);
            var e, h, h' := NodeAddr(g, r, right), HeadAt(g, s.limit), HeadAt(g, s.limit - 1);
            var s' := RaiseUsed(s);
            && (top > 0 ==> Parent(top) / 8 < |bits|)
            && h' + LIST <= |w| && h + LIST <= |w| && e + LIST <= |w| && w[h] + LIST <= |w|
            && var w1 := LinkInit(LinkPush(w, h, e), h');
               && Stored(g, r, s', -1, w1, FlipAbove(bits, top))
               && Intact(g, r, s.st, w, w1)
  {
    hide NodeOk, ListOk, BelowAt, ListLinked, BitOk, Intact, LinkPush, LinkInit, HeadAt, Off;
    var b, right, top := s.limit, First(s.limit) + 1, First(s.limit - 1);
    var s' := RaiseUsed(s);
    RaiseUsedInv(r, s);
    RootFacts(r.Buckets(), s.st, b);
    NodeFits(g, r, s', -1, right, |w|);
    OddSize(r, s);
    RaiseUsedMem(g, r, s, w);
    RaiseUsedBits(r, s, bits);
  }

  lemma RaiseUsedBits(r: Range, s: State, bits: seq<bv8>)
    requires r.Good() && Core(r, s) && s.limit > 0 && First(s.limit) + 1 < |s.st| && BitsOk(s.st, bits)
    requires s.limit < |s.lists| && First(s.limit - 1) < |s.st|
    ensures var top := First(s.limit - 1);
            (top > 0 ==> Parent(top) / 8 < |bits|) && BitsOk(RaiseUsed(s).st, FlipAbove(bits, top))
  {
    hide Core, BitsOk, FlipAbove, Shape, RaiseUsed;
    CoreShape(r, s);
    RootFacts(r.Buckets(), s.st, s.limit);
    OddSize(r, s);
    TopToggled(r, s);
    BitsToggled(s.st, RaiseUsed(s).st, bits, First(s.limit - 1));
  }

  lemma CoreShape(r: Range, s: State)
    requires Core(r, s)
    ensures Shape(r.Buckets(), s.st, s.limit) && RootOk(s.st, s.limit) && |s.lists| == r.Buckets()
  {
  }

  /** Only the new root comes into use: the right child was absent and is free. */
  lemma TopToggled(r: Range, s: State)
    requires s.limit > 0 && First(s.limit) + 1 < |s.st| && s.limit < |s.lists| && RootOk(s.st, s.limit)
    requires s.st[First(s.limit) + 1].Absent? && 2 * First(s.limit - 1) + 1 == First(s.limit)
    ensures var top := First(s.limit - 1);
            && |RaiseUsed(s).st| == |s.st| && RaiseUsed(s).st[top].InUse() && !s.st[top].InUse()
            && forall j :: 0 <= j < |s.st| && j != top ==> RaiseUsed(s).st[j].InUse() == s.st[j].InUse()
  {
    hide First;
  }

  lemma RaiseUsedMem(g: Layout, r: Range, s: State, w: seq<nat>)
    requires Inv(r, s) && s.limit > 0 && Fits(g, r, |w|) && First(s.limit) + 1 < |s.st|
    requires Inv(r, RaiseUsed(s)) && SameUsed(s.st, RaiseUsed(s).st)
    requires NodeAddr(g, r, First(s.limit) + 1) + LIST <= |w|
    requires ListsLinked(g, r, s.lists, s.limit, w)
    ensures var e, h, h' := NodeAddr(g, r, First(s.limit) + 1), HeadAt(g, s.limit), HeadAt(g, s.limit - 1);
            && h' + LIST <= |w| && h + LIST <= |w| && w[h] + LIST <= |w|
            && var w1 := LinkInit(LinkPush(w, h, e), h');
               && ListsLinked(g, r, RaiseUsed(s).lists, s.limit - 1, w1)
               && Intact(g, r, s.st, w, w1)
  {
    var b, right := s.limit, First(s.limit) + 1;
    var s' := RaiseUsed(s);
    var q := s.lists[b];
    NoneAt(r, s, b - 1);
    assert s'.lists == s.lists[b := q + [right]];
    ListsLower(g, r, s'.lists, s.lists, b, w);
    PushMem(g, r, s', b, b, q, right, w);
    PushIntact(g, r, s', -1, b, q, right, w);
    var w0 := LinkPush(w, HeadAt(g, b), NodeAddr(g, r, right));
    InitMemLists(g, r, s', s'.lists, b - 1, w0);
    InitIntact(g, r, s.st, b - 1, w0);
    IntactFewer(g, r, s.st, s'.st, w, w0);
    IntactThen(g, r, s.st, w, w0, LinkInit(w0, HeadAt(g, b - 1)));
    assert s'.lists[b - 1 := []] == s'.lists;
  }

  lemma ListsLower(g: Layout, r: Range, lists': seq<seq<nat>>, lists: seq<seq<nat>>, b: nat, w: seq<nat>)
    requires |lists'| == |lists| && b < |lists| && lists' == lists[b := lists'[b]]
    requires ListsLinked(g, r, lists, b, w)
    ensures ListsLinked(g, r, lists'[b := lists[b]], b, w) && ListLinked(g, r, lists[b], b, w)
  {
    assert lists'[b := lists[b]] == lists;
    assert ListLinked(g, r, lists[b], b, w);
  }

  /** Raising the mark alone. */
  lemma StoredReach(g: Layout, r: Range, s: State, to: nat, w: seq<nat>, bits: seq<bv8>)
    requires Stored(g, r, s, -1, w, bits)
    ensures var (s', ok) := Reach(r, s, to);
            && Stored(g, r, s', -1, w, bits)
            && (ok ==> to <= s'.max) && (!ok ==> s' == s)
            && s'.st == s.st && s'.limit == s.limit && s'.lists == s.lists
  {
    ReachKeeps(r, s, to, -1);
  }

  lemma GrowUsed(r: Range, s: State)
    requires Inv(r, s) && s.limit > 0 && !s.st[First(s.limit)].Free?
    ensures First(s.limit) + 1 < |s.st|
    ensures var (s1, ok) := Reach(r, s, Off(r.maxLog2, First(s.limit) + 1) + LIST);
            && 0 < s1.limit < |s1.lists| && First(s1.limit) + 1 < |s1.st|
            && Grow(r, s) == if ok then (RaiseUsed(s1), true) else (s, false)
  {
    hide Shape, First, Off;
    CoreShape(r, s);
    RootFacts(r.Buckets(), s.st, s.limit);
  }

  /** A popped block pushed back leaves the memory as it was. */
  lemma PopPush(g: Layout, r: Range, s: State, b: nat, w: seq<nat>, bits: seq<bv8>)
    requires Stored(g, r, s, -1, w, bits) && s.limit <= b < r.Buckets() && s.lists[b] != []
    ensures var h, e := HeadAt(g, b), NodeAddr(g, r, Back(s, b));
            && e + LIST <= |w| && w[e] + LIST <= |w| && w[e + 4] + LIST <= |w| && Sep(w[e], e)
            && h + LIST <= |w| && LinkRemove(w, e)[h] + LIST <= |w|
            && LinkPush(LinkRemove(w, e), h, e) == w
  {
    var c := BucketRing(g, r, s.lists[b], b);
    assert ListLinked(g, r, s.lists[b], b, w);
    BucketSpread(g, r, s, b);
    assert c[|c| - 2] == NodeAddr(g, r, Back(s, b));
    PopPushWords(w, c, HeadAt(g, b));
  }

  lemma PopPushWords(w: seq<nat>, c: seq<nat>, h: nat)
    requires |c| >= 3 && c[0] == h && c[|c| - 1] == h && Spread(c) && Linked(w, c)
    ensures var e := c[|c| - 2];
            && e + LIST <= |w| && w[e] + LIST <= |w| && w[e + 4] + LIST <= |w| && Sep(w[e], e)
            && h + LIST <= |w| && LinkRemove(w, e)[h] + LIST <= |w|
            && LinkPush(LinkRemove(w, e), h, e) == w
  {
    var n := |c|;
    assert LinkedAt(w, c[n - 3], c[n - 2]) && LinkedAt(w, c[n - 2], c[n - 1]);
    assert Sep(c[n - 3], c[n - 2]) && Sep(c[0], c[n - 2]);
    assert n > 3 ==> Sep(c[0], c[n - 3]);
  }

  /** With a used child's bit flipped, the parent's bit says whether its buddy is in use. */
  lemma FlippedBit(st: seq<Status>, bits: seq<bv8>, i: nat)
    requires BitsOk(st, bits) && 0 < i < |st| && |st| % 2 == 1 && st[i].Used?
    ensures Parent(i) / 8 < |bits| && Sibling(i) < |st|
    ensures SplitBit(Flip(bits, Parent(i)), Parent(i)) == st[Sibling(i)].InUse()
  {
    assert BitOk(st, bits, Parent(i));
    FlipOne(bits, Parent(i), Parent(i));
  }

  /** A used node below the root has a buddy; the root has none. */
  lemma BuddyPresent(r: Range, s: State, i: nat)
    requires Core(r, s) && 0 < i < |s.st| && s.st[i].Used?
    ensures Sibling(i) < |s.st| && s.limit <= Depth(i)
    ensures if Depth(i) == s.limit then s.st[Sibling(i)].Absent? else s.st[Sibling(i)].Present()
  {
    hide ListOk, First, RootOk, Depth;
    OddSize(r, s);
    DepthStep(i);
    NotAboveRoot(r, s, i);
    assert NodeOk(s.st, Parent(i));
    if s.st[Parent(i)].Top? {
      TopDepth(r.Buckets(), s.st, s.limit, Parent(i));
    } else if Depth(i) == s.limit {
      AboveRoot(r.Buckets(), s.st, s.limit, Parent(i));
    }
  }

  /** The first call's tree laid in memory: its one bucket begun, its one block listed. */
  lemma StoredInitial(g: Layout, r: Range, w: seq<nat>, bits: seq<bv8>)
    requires r.Good() && Fits(g, r, |w|) && 8 * |bits| == Pow2(r.Buckets() - 1)
    requires forall k :: 0 <= k < |bits| ==> bits[k] == 0
    ensures var s, h, e := Initial(r), HeadAt(g, r.Buckets() - 1), g.base;
            && h + LIST <= |w| && e + LIST <= |w|
            && var w1 := LinkInit(w, h);
               && w1[h] + LIST <= |w|
               && Stored(g, r, s, -1, LinkPush(w1, h, e), bits)
               && Intact(g, r, s.st, w, LinkPush(w1, h, e))
  {
    var s := Initial(r);
    var b := r.Buckets() - 1;
    var w1 := LinkInit(w, HeadAt(g, b));
    RootAtBase(g, r, b);
    assert ListsLinked(g, r, s.lists[b := []], b + 1, w);
    InitMemLists(g, r, s, s.lists[b := []], b, w);
    InitIntact(g, r, s.st, b, w);
    assert s.lists[b := []][b := []] == s.lists[b := []];
    assert s.lists[b] == [] + [First(b)];
    PushMem(g, r, s, b, b, [], First(b), w1);
    assert ListLinked(g, r, s.lists[b := []][b], b, w1);
    PushIntact(g, r, s, -1, b, [], First(b), w1);
    IntactThen(g, r, s.st, w, w1, LinkPush(w1, HeadAt(g, b), g.base));
    ClearBits(r, s.st, bits);
  }

  lemma ClearBits(r: Range, st: seq<Status>, bits: seq<bv8>)
    requires r.Good() && |st| == First(r.Buckets()) && 8 * |bits| == Pow2(r.Buckets() - 1)
    requires forall k :: 0 <= k < |bits| ==> bits[k] == 0
    requires forall i :: 0 <= i < |st| ==> !st[i].InUse()
    ensures BitsOk(st, bits)
  {
    forall p: nat | 2 * p + 2 < |st|
      ensures BitOk(st, bits, p)
    {
      ZeroBit(p % 8);
    }
  }

  lemma ZeroBit(k: nat)
    requires k < 8
    ensures !BitAt(0, k)
  {
  }

  /** One level of splitting down towards `goal`, as `StoredSplit`, keeping the blocks of `keep`. */
  lemma StoredSplitDown(g: Layout, r: Range, s: State, i: nat, goal: nat, keep: seq<Status>, w: seq<nat>, bits: seq<bv8>)
    requires Stored(g, r, s, i, w, bits) && i < |s.st| && s.st[i].Used? && Depth(i) < goal < r.Buckets()
    requires Off(r.maxLog2, i) + Room(r, Depth(i), goal) <= s.max
    requires FewerUsed(keep, s.st) && !keep[i].Used?
    ensures 2 * i + 2 < |s.st| && Depth(2 * i + 2) == Depth(i) + 1 == Depth(2 * i + 1) && i / 8 < |bits|
    ensures var h, e := HeadAt(g, Depth(i) + 1), NodeAddr(g, r, 2 * i + 2);
            var s' := SplitStep(s, Depth(i), i);
            && h + LIST <= |w| && e + LIST <= |w| && w[h] + LIST <= |w|
            && Stored(g, r, s', 2 * i + 1, LinkPush(w, h, e), Flip(bits, i))
            && Intact(g, r, keep, w, LinkPush(w, h, e))
            && FewerUsed(keep, s'.st) && !keep[2 * i + 1].Used?
            && s'.limit == s.limit && s'.max == s.max && |s'.st| == |s.st| && s'.st[2 * i + 1].Used?
            && Off(r.maxLog2, 2 * i + 1) + Room(r, Depth(i) + 1, goal) <= s'.max
            && CanSplit(r, s', 2 * i + 1, goal)
            && SplitDown(r, s, i, goal) == SplitDown(r, s', 2 * i + 1, goal)
  {
    hide Core, Below, ListsLinked, BitsOk, Intact, Flip, LinkPush, Depth, NodeAddr, HeadAt, Off, Size, FewerUsed, NodeOk, Room, SplitDown, SplitStep;
    SplitRoom(r, s, i, goal);
    StoredSplit(g, r, s, i, w, bits);
    SplitDownStep(r, s, i, goal);
    SplitDownIs(r, s, i, goal);
    SplitKeeps(r, s, i, keep);
    IntactFewer(g, r, keep, SplitStep(s, Depth(i), i).st, w, LinkPush(w, HeadAt(g, Depth(i) + 1), NodeAddr(g, r, 2 * i + 2)));
  }

  lemma SplitDownIs(r: Range, s: State, i: nat, goal: nat)
    requires CanSplit(r, s, i, goal) && Depth(i) < goal
    ensures 2 * i + 2 < |s.st| && Depth(i) + 1 < |s.lists|
    ensures CanSplit(r, SplitStep(s, Depth(i), i), 2 * i + 1, goal)
    ensures SplitDown(r, s, i, goal) == SplitDown(r, SplitStep(s, Depth(i), i), 2 * i + 1, goal)
  {
    hide Core, Below, Off, Room;
    CoreSizes(r, s);
    ChildrenIn(i, r.Buckets());
    SplitDownStep(r, s, i, goal);
  }

  lemma SplitKeeps(r: Range, s: State, i: nat, keep: seq<Status>)
    requires 2 * i + 2 < |s.st| && Depth(i) + 1 < |s.lists| && NodeOk(s.st, i) && s.st[i].Used?
    requires FewerUsed(keep, s.st) && !keep[i].Used?
    ensures var s' := SplitStep(s, Depth(i), i);
            && FewerUsed(keep, s'.st) && !keep[2 * i + 1].Used?
            && s'.limit == s.limit && s'.max == s.max && |s'.st| == |s.st| && s'.st[2 * i + 1].Used?
  {
    assert s.st[2 * i + 1].Absent? && s.st[2 * i + 2].Absent?;
  }

  /** What taking the back of a list does once the range reaches: the block used, then split. */
  lemma TakeUsed(r: Range, s: State, b: nat, goal: nat)
    requires Inv(r, s) && b <= goal < r.Buckets() && s.lists[b] != []
    requires Off(r.maxLog2, Back(s, b)) + Room(r, b, goal) <= r.bytes
    ensures var i := Back(s, b);
            var s1 := Reach(r, s, Off(r.maxLog2, i) + Room(r, b, goal)).0;
            && b < |s1.lists| && i < |s1.st|
            && CanSplit(r, Use(s1, b, i), i, goal)
            && TakeLast(r, s, b, goal) == (SplitDown(r, Use(s1, b, i), i, goal).0, Some(SplitDown(r, Use(s1, b, i), i, goal).1))
  {
    hide NodeOk, ListOk, BelowAt, RootOk, Room, Off, Size, SplitDown;
    var i := Back(s, b);
    BackListed(r, s, b);
    var to := Off(r.maxLog2, i) + Room(r, b, goal);
    ReachKeeps(r, s, to, -1);
    var s1 := Reach(r, s, to).0;
    UseCore(r, s1, b, i);
    UseBelow(r, s1, i);
  }

  lemma TakeRefused(r: Range, s: State, b: nat, goal: nat)
    requires Inv(r, s) && b <= goal < r.Buckets() && s.lists[b] != []
    requires !Reach(r, s, Off(r.maxLog2, Back(s, b)) + Room(r, b, goal)).1
    ensures TakeLast(r, s, b, goal) == (s, None)
  {
  }

  // One turn of the search

  /** What the search finds once the tree is grown to bucket `b`. */
  lemma FindAfterLower(r: Range, s: State, b: nat, goal: nat)
    requires Inv(r, s) && b <= goal < r.Buckets()
    ensures var (s1, ok) := Lower(r, s, b);
            && (!ok ==> Find(r, s, b, goal) == (s1, None))
            && (ok ==> Find(r, s, b, goal) == Find(r, s1, b, goal) && b < |s1.lists| && s1.limit <= b)
  {
  }

  /** Grown already and a block listed: it is taken. */
  lemma FindListed(r: Range, s: State, b: nat, goal: nat)
    requires Inv(r, s) && s.limit <= b <= goal < r.Buckets() && s.lists[b] != []
    ensures Find(r, s, b, goal) == TakeLast(r, s, b, goal)
  {
  }

  /** Grown already and none listed, away from the root or at the tree's top. */
  lemma FindNext(r: Range, s: State, b: nat, goal: nat)
    requires Inv(r, s) && s.limit <= b <= goal < r.Buckets() && s.lists[b] == []
    ensures b == 0 ==> Find(r, s, b, goal) == (s, None)
    ensures b > 0 && b != s.limit ==> Find(r, s, b, goal) == Find(r, s, b - 1, goal)
  {
  }

  /** None listed at the root's bucket: the tree is grown once more. */
  lemma FindRaise(r: Range, s: State, b: nat, goal: nat)
    requires Inv(r, s) && 0 < s.limit == b <= goal < r.Buckets() && s.lists[b] == []
    ensures var (s1, ok) := Lower(r, s, b - 1);
            && (!ok ==> Find(r, s, b, goal) == (s1, None))
            && (ok ==> b < |s1.lists| && s1.limit <= b && s1.lists[b] != []
                       && Find(r, s, b, goal) == TakeLast(r, s1, b, goal))
  {
    GrowListed(r, s);
  }

  lemma TakeAddr(r: Range, s: State, b: nat, goal: nat)
    requires Inv(r, s) && b <= goal < r.Buckets() && s.lists[b] != []
    ensures var got := TakeLast(r, s, b, goal).1;
            got.Some? ==> Off(r.maxLog2, got.value) == Off(r.maxLog2, Back(s, b))
  {
  }

  /** A search lets nothing go. */
  lemma SearchFewer(r: Range, s: State, b: nat, goal: nat)
    requires Inv(r, s) && b <= goal < r.Buckets()
    ensures FewerUsed(s.st, Lower(r, s, b).0.st)
    ensures FewerUsed(s.st, Find(r, s, b, goal).0.st)
    ensures s.lists[b] != [] ==> FewerUsed(s.st, TakeLast(r, s, b, goal).0.st)
    ensures FewerUsed(s.st, s.st)
  {
  }

  lemma FewerThen(a: seq<Status>, b: seq<Status>, c: seq<Status>)
    requires FewerUsed(a, b) && FewerUsed(b, c)
    ensures FewerUsed(a, c)
  {
  }

  /** One level of letting go: where the buddy is free, the two merge and the rest is letting their parent go. */
  lemma ReleaseMerge(r: Range, s: State, i: nat)
    requires Core(r, s) && 0 < i < |s.st| && s.st[i].Used? && Below(r.maxLog2, s.st, s.max, i)
    requires Sibling(i) < |s.st| && s.st[Sibling(i)].Free?
    ensures Depth(i) < |s.lists|
    ensures var s' := MergeStep(s, Depth(i), i);
            && Core(r, s') && Parent(i) < |s'.st| && s'.st[Parent(i)].Used? && Below(r.maxLog2, s'.st, s'.max, Parent(i))
            && s'.limit == s.limit && s'.max == s.max
            && Release(r, s, i) == Release(r, s', Parent(i))
  {
    MergeCore(r, s, i);
    MergeBelow(r, s, i);
  }

  lemma ReleaseSettle(r: Range, s: State, i: nat)
    requires Core(r, s) && i < |s.st| && s.st[i].Used? && Below(r.maxLog2, s.st, s.max, i)
    requires i > 0 ==> Sibling(i) >= |s.st| || !s.st[Sibling(i)].Free?
    ensures Depth(i) < |s.lists| && Release(r, s, i) == Settle(s, Depth(i), i)
    ensures Settle(s, Depth(i), i).limit == s.limit && Settle(s, Depth(i), i).max == s.max
  {
    DepthBelow(i, r.Buckets());
  }

  /** What a used node is on the way up: its buddy free exactly when its bit, flipped, is clear below the root. */
  lemma BuddyFree(r: Range, s: State, i: nat, bits: seq<bv8>)
    requires Core(r, s) && BitsOk(s.st, bits) && 0 < i < |s.st| && s.st[i].Used?
    ensures Parent(i) / 8 < |bits| && Sibling(i) < |s.st| && s.limit <= Depth(i)
    ensures s.st[Sibling(i)].Free? <==> !SplitBit(Flip(bits, Parent(i)), Parent(i)) && Depth(i) != s.limit
  {
    OddSize(r, s);
    FlippedBit(s.st, bits, i);
    BuddyPresent(r, s, i);
  }

  /** Letting one block go lets no other go. */
  lemma ReleaseFewer(r: Range, s: State, i: nat)
    requires Core(r, s) && i < |s.st| && s.st[i].Used? && Below(r.maxLog2, s.st, s.max, i)
    ensures FewerUsed(Release(r, s, i).st, s.st)
  {
  }

  lemma GrowFree(r: Range, s: State)
    requires Inv(r, s) && 0 < s.limit < |s.lists| && s.st[First(s.limit)].Free?
    ensures Grow(r, s) == (RaiseFree(s), true)
  {
  }

  /** Growing by one bucket is one turn of the loop. */
  lemma LowerOnce(r: Range, s: State)
    requires Inv(r, s) && s.limit > 0
    ensures Lower(r, s, s.limit - 1) == Grow(r, s)
  {
  }

  /** A change within live blocks leaves every list as it was. */
  lemma StoredKept(g: Layout, r: Range, s: State, w: seq<nat>, w': seq<nat>, bits: seq<bv8>)
    requires Stored(g, r, s, -1, w, bits) && |w'| == |w|
    requires forall x :: 0 <= x < |w| && w'[x] != w[x] ==> LiveByte(g, r, s.st, x)
    ensures Stored(g, r, s, -1, w', bits)
  {
    forall b | s.limit <= b < |s.lists|
      ensures ListLinked(g, r, s.lists[b], b, w')
    {
      assert ListLinked(g, r, s.lists[b], b, w);
      RingKept(g, r, s, b, w, w');
    }
  }

  lemma RingKept(g: Layout, r: Range, s: State, b: nat, w: seq<nat>, w': seq<nat>)
    requires Core(r, s) && Below(r.maxLog2, s.st, s.max, -1) && Fits(g, r, |w|) && b < r.Buckets() && |w'| == |w|
    requires ListLinked(g, r, s.lists[b], b, w)
    requires forall x :: 0 <= x < |w| && w'[x] != w[x] ==> LiveByte(g, r, s.st, x)
    ensures ListLinked(g, r, s.lists[b], b, w')
  {
    hide Core, Below, LiveByte, Linked;
    SizesOf(r, s);
    var c := BucketRing(g, r, s.lists[b], b);
    RingFits(w, c);
    forall k | 0 <= k < |c|
      ensures w'[c[k]] == w[c[k]] && w'[c[k] + 4] == w[c[k] + 4]
    {
      RingWords(g, r, s, -1, b, k, c[k]);
      RingWords(g, r, s, -1, b, k, c[k] + 4);
    }
    KeptLinked(w, w', c);
  }
}
