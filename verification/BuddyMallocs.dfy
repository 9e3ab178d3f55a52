/** The buddy allocator as it runs: links written into the free blocks themselves, split bits packed eight to
    a byte, the tree grown as it is needed. Each method is proved to take the step of `BuddySpec` that its
    name says, and to touch no live block's bytes. Addresses and sizes are a 32-bit guest's: a pointer is one
    word, a `List` two. */
module BuddyMallocs {
  import opened Arith
  import opened BuddyTree
  import opened BuddySpec
  import opened BuddyProperties
  import opened BuddyMemory
  import opened BuddySteps
  import opened Prelude

  class BuddyMalloc {
    const r: Range
    const g: Layout
    /** The guest's memory, a word at the byte address it starts at. */
    const mem: array<nat>
    /** The linearized tree of split bits. */
    const nodeIsSplit: array<bv8>
    var bucketLimit: nat
    var basePtr: nat
    var maxPtr: nat
    var endPtr: nat
    var live: nat
    var releases: nat
    var allocs: nat
    /** The tree as a value; before the first call, the one that call makes. */
    ghost var s: State

    ghost predicate Placed()
      reads this
    {
      && r.Good() && Fits(g, r, mem.Length) && 0 < g.base
      && 8 * nodeIsSplit.Length == Pow2(r.Buckets() - 1)
      && mem as object != nodeIsSplit as object
    }

    /** The fields and the memory hold `s`, its used blocks below the mark but for `but`. */
    ghost predicate Rep(but: int)
      reads this, mem, nodeIsSplit
    {
      RepIn(but, mem[..], nodeIsSplit[..])
    }

    /** As `Rep`, of memory and bits as they once were. */
    ghost predicate RepIn(but: int, w: seq<nat>, bits: seq<bv8>)
      reads this
    {
      && Placed()
      && basePtr == g.base && endPtr == g.base + r.bytes && maxPtr == g.base + s.max && bucketLimit == s.limit
      && Stored(g, r, s, but, w, bits)
    }

    ghost predicate Valid()
      reads this, mem, nodeIsSplit
    {
      && Placed()
      && Inv(r, s)
      && (basePtr != 0 ==> Rep(-1))
      && (basePtr == 0 ==> s == Initial(r) && maxPtr == 0 && endPtr == 0 && AllClear(nodeIsSplit[..]))
      && live == Live(r.maxLog2, s.st)
    }

    ghost predicate AllClear(bits: seq<bv8>) {
      forall k :: 0 <= k < |bits| ==> bits[k] == 0
    }

    constructor (r: Range, g: Layout, mem: array<nat>)
      requires r.Good() && Fits(g, r, mem.Length) && 0 < g.base
      ensures Valid() && this.r == r && this.g == g && this.mem == mem && fresh(nodeIsSplit)
      ensures s == Initial(r) && basePtr == 0
    {
      this.r := r;
      this.g := g;
      this.mem := mem;
      bucketLimit, basePtr, maxPtr, endPtr, live, releases, allocs := 0, 0, 0, 0, 0, 0, 0;
      s := Initial(r);
      var bytes := Pow2(r.maxLog2 - r.minLog2) / 8;
      WholeBytes(r.maxLog2 - r.minLog2);
      nodeIsSplit := new bv8[bytes](_ => 0);
      new;
      NoneLive(r.maxLog2, s.st, 0);
    }

    // The bits

    function ParentIsSplit(i: nat): bool
      requires i > 0 && Parent(i) / 8 < nodeIsSplit.Length
      reads nodeIsSplit
    {
      SplitBit(nodeIsSplit[..], Parent(i))
    }

    method FlipParentIsSplit(i: nat)
      requires i > 0 && Parent(i) / 8 < nodeIsSplit.Length
      modifies nodeIsSplit
      ensures nodeIsSplit[..] == Flip(old(nodeIsSplit[..]), Parent(i))
    {
      var p := Parent(i);
      nodeIsSplit[p / 8] := nodeIsSplit[p / 8] ^ (1 << (p % 8));
    }

    /** As the root has no bit above it. */
    method FlipAboveNode(i: nat)
      requires i > 0 ==> Parent(i) / 8 < |nodeIsSplit[..]|
      requires mem as object != nodeIsSplit as object
      modifies nodeIsSplit
      ensures nodeIsSplit[..] == FlipAbove(old(nodeIsSplit[..]), i) && mem[..] == old(mem[..])
    {
      if i != 0 {
        FlipParentIsSplit(i);
      }
    }

    // The addresses

    function PtrForNode(i: nat, bucket: nat): nat
      requires Pow2(bucket) <= i + 1 && bucket <= r.maxLog2
    {
      g.base + Shl(i + 1 - Pow2(bucket), r.maxLog2 - bucket)
    }

    function NodeForPtr(ptr: nat, bucket: nat): nat
      requires g.base <= ptr && bucket <= r.maxLog2
    {
      Shr(ptr - g.base, r.maxLog2 - bucket) + Pow2(bucket) - 1
    }

    lemma PtrIsAddr(i: nat)
      requires Depth(i) <= r.maxLog2
      ensures Pow2(Depth(i)) <= i + 1
      ensures PtrForNode(i, Depth(i)) == NodeAddr(g, r, i)
      ensures NodeForPtr(NodeAddr(g, r, i), Depth(i)) == i
    {
      AddrFormulas(r.maxLog2, i);
    }

    // The lists

    method ListInit(bucket: nat)
      requires HeadAt(g, bucket) + LIST <= mem.Length
      modifies mem
      ensures mem[..] == LinkInit(old(mem[..]), HeadAt(g, bucket))
    {
      var h := HeadAt(g, bucket);
      mem[h] := h;
      mem[h + 4] := h;
    }

    method ListPush(bucket: nat, entry: nat)
      requires HeadAt(g, bucket) + LIST <= mem.Length && entry + LIST <= mem.Length
      requires mem[HeadAt(g, bucket)] + LIST <= mem.Length
      modifies mem
      ensures mem[..] == LinkPush(old(mem[..]), HeadAt(g, bucket), entry)
    {
      var list := HeadAt(g, bucket);
      var prev := mem[list];
      mem[entry] := prev;
      mem[entry + 4] := list;
      mem[prev + 4] := entry;
      mem[list] := entry;
    }

    method ListRemove(entry: nat)
      requires entry + LIST <= mem.Length && Sep(mem[entry], entry)
      requires mem[entry] + LIST <= mem.Length && mem[entry + 4] + LIST <= mem.Length
      modifies mem
      ensures mem[..] == LinkRemove(old(mem[..]), entry)
    {
      mem[mem[entry] + 4] := mem[entry + 4];
      mem[mem[entry + 4]] := mem[entry];
    }

    method ListPop(bucket: nat) returns (ptr: nat)
      requires Rep(-1) && s.limit <= bucket < r.Buckets()
      modifies mem
      ensures (ptr == 0) == (s.lists[bucket] == [])
      ensures ptr == 0 ==> Rep(-1) && mem[..] == old(mem[..])
      ensures ptr != 0 ==> Popped(bucket, ptr, old(mem[..]))
    {
      hide Stored, Placed, Core, NodeAddr, Sep, LinkRemove, BitsOk, Intact, FlipAbove, HeadAt, Back;
      PopReady(bucket);
      var list := HeadAt(g, bucket);
      var back := mem[list];
      if back == list {
        return 0;
      }
      ListRemove(back);
      assert nodeIsSplit[..] == old(nodeIsSplit[..]);
      return back;
    }

    lemma PopReady(bucket: nat)
      requires Rep(-1) && s.limit <= bucket < r.Buckets()
      ensures bucket < |s.lists| && HeadAt(g, bucket) + LIST <= mem.Length && mem as object != nodeIsSplit as object
      ensures s.lists[bucket] == [] ==> mem[HeadAt(g, bucket)] == HeadAt(g, bucket)
      ensures s.lists[bucket] != [] ==>
                var e := NodeAddr(g, r, Back(s, bucket));
                && e != 0 && e != HeadAt(g, bucket) && mem[HeadAt(g, bucket)] == e
                && e + LIST <= mem.Length && mem[e] + LIST <= mem.Length && mem[e + 4] + LIST <= mem.Length && Sep(mem[e], e)
    {
      hide Core, NodeAddr, Sep, LinkRemove, BitsOk, Intact, FlipAbove, ListsLinked, HeadAt, Below;
      SizesOf(r, s);
      HeadPoints(g, r, s, bucket, mem[..]);
      if s.lists[bucket] != [] {
        StoredUse(g, r, s, bucket, mem[..], nodeIsSplit[..]);
      }
    }

    // The mark

    /** Raises the mark to `newVal` where the range reaches it. */
    method UpdateMaxPtr(newVal: nat, ghost w: seq<nat>, ghost bits: seq<bv8>) returns (ok: bool)
      requires RepIn(-1, w, bits) && g.base <= newVal
      modifies this`maxPtr, this`s
      ensures RepIn(-1, w, bits) && (s, ok) == Reach(r, old(s), newVal - g.base)
    {
      StoredReach(g, r, s, newVal - g.base, w, bits);
      hide Stored;
      if newVal > maxPtr {
        if newVal > endPtr {
          return false;
        }
        maxPtr := newVal;
        s := s.(max := newVal - g.base);
      }
      return true;
    }

    // The root

    lemma RootPlace()
      requires Rep(-1) && s.limit > 0
      ensures s.limit <= r.maxLog2 && NodeForPtr(g.base, s.limit) == First(s.limit) && First(s.limit) > 0
    {
      RootAtBase(g, r, s.limit);
      RootFacts(r.Buckets(), s.st, s.limit);
      PtrIsAddr(First(s.limit));
    }

    lemma RootBit()
      requires Rep(-1) && s.limit > 0
      ensures s.limit <= r.maxLog2 && NodeForPtr(g.base, s.limit) == First(s.limit) && First(s.limit) > 0
      ensures Parent(First(s.limit)) / 8 < nodeIsSplit.Length
      ensures ParentIsSplit(First(s.limit)) <==> !s.st[First(s.limit)].Free?
    {
      hide NodeForPtr, ListsLinked, Below, Lists, Fits;
      RootPlace();
      RootFacts(r.Buckets(), s.st, s.limit);
      assert BitOk(s.st, nodeIsSplit[..], Parent(First(s.limit)));
    }

    /** The whole space free: the root's list is cleared and the widened space given to the new root. */
    method RaiseOverFree()
      requires Rep(-1) && s.limit > 0 && s.st[First(s.limit)].Free?
      modifies this`bucketLimit, this`s, mem
      ensures Rep(-1) && s == RaiseFree(old(s))
      ensures Intact(g, r, old(s.st), old(mem[..]), mem[..])
    {
      StoredRaiseFree(g, r, s, mem[..], nodeIsSplit[..]);
      ghost var s' := RaiseFree(s);
      hide Stored, Intact, LinkRemove, LinkPush, LinkInit;
      ListRemove(basePtr);
      bucketLimit := bucketLimit - 1;
      ListInit(bucketLimit);
      ListPush(bucketLimit, basePtr);
      s := s';
      assert nodeIsSplit[..] == old(nodeIsSplit[..]);
    }

    /** The tree in use: a parent for the root, split, its right child listed. */
    method RaiseOverUsed(root: nat) returns (ok: bool)
      requires Rep(-1) && s.limit > 0 && root == First(s.limit) && !s.st[root].Free?
      modifies this`bucketLimit, this`maxPtr, this`s, mem, nodeIsSplit
      ensures Rep(-1) && (s, ok) == Grow(r, old(s))
      ensures Intact(g, r, old(s.st), old(mem[..]), mem[..])
    {
      hide Stored, Placed, Grow, RaiseUsed, Off, First, Inv, Core, Below, Pow2, Shl, Depth, Size, PtrForNode, Intact;
      RightChild(root);
      GrowUsed(r, s);
      IntactSame(g, r, s.st, mem[..]);
      var rightChild := PtrForNode(root + 1, bucketLimit);
      ok := UpdateMaxPtr(rightChild + LIST, mem[..], nodeIsSplit[..]);
      assert mem[..] == old(mem[..]) && nodeIsSplit[..] == old(nodeIsSplit[..]);
      if ok {
        SplitOverRoot(root, rightChild);
      }
    }

    lemma RightChild(root: nat)
      requires Rep(-1) && s.limit > 0 && root == First(s.limit)
      ensures r.Good() && Inv(r, s) && bucketLimit == s.limit && root + 1 < |s.st|
      ensures s.limit <= r.maxLog2 && Pow2(s.limit) <= root + 2
      ensures PtrForNode(root + 1, s.limit) == NodeAddr(g, r, root + 1)
    {
      hide Below, ListsLinked, BitsOk, NodeOk, ListOk, PtrForNode, NodeForPtr, NodeAddr, Pow2, Depth;
      CoreSizes(r, s);
      RootFacts(r.Buckets(), s.st, s.limit);
      PtrIsAddr(root + 1);
    }

    method SplitOverRoot(root: nat, rightChild: nat)
      requires Rep(-1) && s.limit > 0 && root == First(s.limit) && !s.st[root].Free?
      requires root + 1 < |s.st| && Off(r.maxLog2, root + 1) + LIST <= s.max
      requires rightChild == NodeAddr(g, r, root + 1)
      modifies this`bucketLimit, this`s, mem, nodeIsSplit
      ensures Rep(-1) && s == RaiseUsed(old(s))
      ensures Intact(g, r, old(s.st), old(mem[..]), mem[..])
    {
      hide Stored, Intact, LinkPush, LinkInit, Flip, FlipAbove, RaiseUsed, Off, Core, First, HeadAt, Below;
      RightChild(root);
      RaisedFields(root);
      StoredRaiseUsed(g, r, s, mem[..], nodeIsSplit[..]);
      var top := Parent(root);
      ghost var s' := RaiseUsed(s);
      ListRoot(bucketLimit, rightChild, top);
      bucketLimit := bucketLimit - 1;
      s := s';
    }

    lemma RaisedFields(root: nat)
      requires Rep(-1) && s.limit > 0 && root == First(s.limit) && root + 1 < |s.st|
      ensures root > 0 && Parent(root) == First(s.limit - 1) && s.limit < |s.lists|
      ensures RaiseUsed(s).limit == s.limit - 1 && RaiseUsed(s).max == s.max
    {
      hide Below, ListsLinked, BitsOk, NodeOk, ListOk;
      CoreSizes(r, s);
      RootFacts(r.Buckets(), s.st, s.limit);
    }

    /** The root's right child listed, the new root's list begun, the bit above it flipped. */
    method ListRoot(bucket: nat, rightChild: nat, top: nat)
      requires bucket > 0 && HeadAt(g, bucket) + LIST <= mem.Length && rightChild + LIST <= mem.Length
      requires mem[..][HeadAt(g, bucket)] + LIST <= mem.Length
      requires top > 0 ==> Parent(top) / 8 < |nodeIsSplit[..]|
      requires mem as object != nodeIsSplit as object
      modifies mem, nodeIsSplit
      ensures mem[..] == LinkInit(LinkPush(old(mem[..]), HeadAt(g, bucket), rightChild), HeadAt(g, bucket - 1))
      ensures nodeIsSplit[..] == FlipAbove(old(nodeIsSplit[..]), top)
    {
      ListPush(bucket, rightChild);
      ListInit(bucket - 1);
      assert nodeIsSplit[..] == old(nodeIsSplit[..]);
      FlipAboveNode(top);
    }

    /** Grows the tree until its root lies at `bucket`. */
    method LowerBucketLimit(bucket: nat) returns (ok: bool)
      requires Rep(-1)
      modifies this`bucketLimit, this`maxPtr, this`s, mem, nodeIsSplit
      ensures Rep(-1) && (s, ok) == Lower(r, old(s), bucket)
      ensures Intact(g, r, old(s.st), old(mem[..]), mem[..])
    {
      while bucket < bucketLimit
        invariant Rep(-1) && Lower(r, s, bucket) == Lower(r, old(s), bucket)
        invariant SameUsed(old(s.st), s.st)
        invariant Intact(g, r, old(s.st), old(mem[..]), mem[..])
        decreases bucketLimit
      {
        ghost var s0, w0 := s, mem[..];
        RootBit();
        var root := NodeForPtr(basePtr, bucketLimit);
        var grown := true;
        if !ParentIsSplit(root) {
          RaiseOverFree();
        } else {
          grown := RaiseOverUsed(root);
        }
        assert (s, grown) == Grow(r, s0);
        IntactFewer(g, r, old(s.st), s0.st, w0, mem[..]);
        IntactThen(g, r, old(s.st), old(mem[..]), w0, mem[..]);
        if !grown {
          return false;
        }
      }
      return true;
    }

    // Requests

    method BucketForRequest(request: nat) returns (bucket: nat)
      requires r.Good() && request <= Pow2(r.maxLog2)
      ensures bucket == BucketFor(r, request)
    {
      bucket := r.Buckets() - 1;
      var sz := Pow2(r.minLog2);
      while sz < request
        invariant bucket < r.Buckets() && sz == Size(r.maxLog2, bucket)
        invariant BucketFrom(r, request, bucket) == BucketFor(r, request)
        decreases bucket
      {
        bucket := bucket - 1;
        sz := 2 * sz;
      }
    }

    /** The used node `at` split down to bucket `goal`, each right child listed. */
    method SplitTo(at: nat, from: nat, goal: nat, ghost keep: seq<Status>)
      requires Rep(at) && at < |s.st| && s.st[at].Used? && Depth(at) == from <= goal < r.Buckets()
      requires Off(r.maxLog2, at) + Room(r, from, goal) <= s.max
      requires FewerUsed(keep, s.st) && !keep[at].Used?
      modifies this`s, mem, nodeIsSplit
      ensures Rep(-1) && s == SplitDown(r, old(s), at, goal).0
      ensures Intact(g, r, keep, old(mem[..]), mem[..])
    {
      hide Stored, Placed, SplitDown, Intact, FewerUsed, Room, Off, Depth, Inv, Core, Below;
      SplitStart(at, from, goal, keep);
      var i: nat, bucket: nat := at, from;
      while bucket < goal
        invariant Rep(i) && i < |s.st| && s.st[i].Used? && Depth(i) == bucket <= goal
        invariant Off(r.maxLog2, i) + Room(r, bucket, goal) <= s.max
        invariant |keep| == |s.st| && FewerUsed(keep, s.st) && !keep[i].Used?
        invariant CanSplit(r, s, i, goal) && SplitDown(r, s, i, goal) == SplitDown(r, old(s), at, goal)
        invariant Intact(g, r, keep, old(mem[..]), mem[..])
      {
        ghost var w := mem[..];
        SplitLevel(i, bucket, goal, keep);
        i, bucket := 2 * i + 1, bucket + 1;
        SplitStart(i, bucket, goal, keep);
        IntactThen(g, r, keep, old(mem[..]), w, mem[..]);
      }
      SplitEnd(i, goal);
    }

    lemma SplitStart(i: nat, bucket: nat, goal: nat, keep: seq<Status>)
      requires Rep(i) && i < |s.st| && s.st[i].Used? && Depth(i) == bucket <= goal < r.Buckets()
      requires Off(r.maxLog2, i) + Room(r, bucket, goal) <= s.max
      requires FewerUsed(keep, s.st)
      ensures r.Good() && |keep| == |s.st| && CanSplit(r, s, i, goal) && Intact(g, r, keep, mem[..], mem[..])
    {
    }

    lemma SplitEnd(i: nat, goal: nat)
      requires Rep(i) && CanSplit(r, s, i, goal) && Depth(i) == goal
      ensures Rep(-1) && SplitDown(r, s, i, goal).0 == s
    {
      SplitDone(r, s, i);
    }

    method SplitLevel(i: nat, bucket: nat, goal: nat, ghost keep: seq<Status>)
      requires Rep(i) && i < |s.st| && s.st[i].Used? && Depth(i) == bucket < goal < r.Buckets()
      requires Off(r.maxLog2, i) + Room(r, bucket, goal) <= s.max
      requires FewerUsed(keep, s.st) && |keep| == |s.st| && !keep[i].Used?
      modifies this`s, mem, nodeIsSplit
      ensures 2 * i + 1 < |s.st| && Rep(2 * i + 1) && s.st[2 * i + 1].Used? && Depth(2 * i + 1) == bucket + 1
      ensures Off(r.maxLog2, 2 * i + 1) + Room(r, bucket + 1, goal) <= s.max
      ensures FewerUsed(keep, s.st) && |keep| == |s.st| && !keep[2 * i + 1].Used?
      ensures CanSplit(r, s, 2 * i + 1, goal) && SplitDown(r, s, 2 * i + 1, goal) == SplitDown(r, old(s), i, goal)
      ensures Intact(g, r, keep, old(mem[..]), mem[..])
    {
      hide Stored, Intact, SplitDown, FewerUsed, LinkPush, Flip, Room, Off, SplitStep, Depth, Pow2, Size, Shl, Core, Below, PtrForNode;
      LevelReady(i, goal);
      StoredSplitDown(g, r, s, i, goal, keep, mem[..], nodeIsSplit[..]);
      ghost var s' := SplitStep(s, bucket, i);
      ListRight(2 * i + 1, bucket + 1);
      s := s';
    }

    lemma LevelReady(i: nat, goal: nat)
      requires Rep(i) && i < |s.st| && Depth(i) < goal < r.Buckets()
      ensures Depth(i) + 1 <= r.maxLog2 && Pow2(Depth(i) + 1) <= 2 * i + 3
      ensures PtrForNode(2 * i + 2, Depth(i) + 1) == NodeAddr(g, r, 2 * i + 2)
      ensures Depth(i) + 1 < |s.lists| && 2 * i + 2 < |s.st|
    {
      hide ListsLinked, BitsOk, Depth, Shl, Off, Below, NodeOk, ListOk, Pow2, NodeAddr, PtrForNode, NodeForPtr;
      ChildrenIn(i, r.Buckets());
      PtrIsAddr(2 * i + 2);
    }

    /** The bit above a split node's left child flipped, its right child listed. */
    method ListRight(left: nat, bucket: nat)
      requires left % 2 == 1 && left / 2 / 8 < |nodeIsSplit[..]| && bucket <= r.maxLog2 && Pow2(bucket) <= left + 2
      requires HeadAt(g, bucket) + LIST <= mem.Length && PtrForNode(left + 1, bucket) + LIST <= mem.Length
      requires mem[..][HeadAt(g, bucket)] + LIST <= mem.Length
      requires mem as object != nodeIsSplit as object
      modifies mem, nodeIsSplit
      ensures mem[..] == LinkPush(old(mem[..]), HeadAt(g, bucket), PtrForNode(left + 1, bucket))
      ensures nodeIsSplit[..] == Flip(old(nodeIsSplit[..]), left / 2)
    {
      hide Pow2, PtrForNode, HeadAt, LinkPush, Flip;
      FlipParentIsSplit(left);
      assert mem[..] == old(mem[..]);
      ghost var bits := nodeIsSplit[..];
      ListPush(bucket, PtrForNode(left + 1, bucket));
      assert nodeIsSplit[..] == bits;
    }

    /** Memory from which the back of bucket `bucket`'s list, at `ptr`, has been popped; `w` is as it was. */
    ghost predicate Popped(bucket: nat, ptr: nat, w: seq<nat>)
      reads this, mem, nodeIsSplit
    {
      && RepIn(-1, w, nodeIsSplit[..])
      && s.limit <= bucket < |s.lists| && s.lists[bucket] != []
      && ptr == NodeAddr(g, r, Back(s, bucket))
      && ptr + LIST <= |w| && w[ptr] + LIST <= |w| && w[ptr + 4] + LIST <= |w| && Sep(w[ptr], ptr)
      && mem[..] == LinkRemove(w, ptr)
    }

    /** The state and the node that a search gave, `ptr` the node's address. */
    ghost predicate Answers(res: (State, Option<nat>), ptr: nat)
      reads this
    {
      && s == res.0
      && match res.1
         case None => ptr == 0
         case Some(j) => ptr == NodeAddr(g, r, j) && ptr != 0
    }

    /** The popped block split down to `goal`, or put back where the range ends too soon. */
    method Take(bucket: nat, goal: nat, ptr: nat, ghost w: seq<nat>) returns (ok: bool)
      requires Popped(bucket, ptr, w) && bucket <= goal < r.Buckets()
      modifies this`maxPtr, this`s, mem, nodeIsSplit
      ensures Rep(-1) && Answers(TakeLast(r, old(s), bucket, goal), if ok then ptr else 0)
      ensures Intact(g, r, old(s.st), w, mem[..])
    {
      hide Stored, Placed, Inv, TakeLast, SplitDown, CanSplit, Room, Use, Intact, LinkRemove, LinkPush, Off, Pow2, Sep, HeadAt;
      TakeFacts(bucket, goal, w);
      var sz := Pow2(r.maxLog2 - bucket);
      var bytesNeeded := if bucket < goal then sz / 2 + LIST else sz;
      ok := UpdateMaxPtr(ptr + bytesNeeded, w, nodeIsSplit[..]);
      assert mem[..] == old(mem[..]) && nodeIsSplit[..] == old(nodeIsSplit[..]);
      if ok {
        TakeUsed(r, old(s), bucket, goal);
        TakeAddr(r, old(s), bucket, goal);
        TakeBlock(bucket, goal, ptr, w);
      } else {
        TakeRefused(r, s, bucket, goal);
        PutBack(bucket, ptr, w);
        IntactSame(g, r, s.st, w);
      }
    }

    method PutBack(bucket: nat, ptr: nat, ghost w: seq<nat>)
      requires Popped(bucket, ptr, w)
      modifies mem
      ensures Rep(-1) && mem[..] == w
    {
      PopPush(g, r, s, bucket, w, nodeIsSplit[..]);
      ListPush(bucket, ptr);
      assert nodeIsSplit[..] == old(nodeIsSplit[..]);
    }

    lemma TakeFacts(bucket: nat, goal: nat, w: seq<nat>)
      requires RepIn(-1, w, nodeIsSplit[..]) && s.limit <= bucket <= goal < r.Buckets()
      ensures r.Good() && s.max <= r.bytes && 0 < g.base
      ensures bucket <= r.maxLog2 && Room(r, bucket, goal) == if bucket < goal then Pow2(r.maxLog2 - bucket) / 2 + LIST else Pow2(r.maxLog2 - bucket)
      ensures Inv(r, s)
    {
    }

    method TakeBlock(bucket: nat, goal: nat, ptr: nat, ghost w: seq<nat>)
      requires Popped(bucket, ptr, w) && bucket <= goal < r.Buckets()
      requires Back(s, bucket) < |s.st| && CanSplit(r, Use(s, bucket, Back(s, bucket)), Back(s, bucket), goal)
      modifies this`s, mem, nodeIsSplit
      ensures Rep(-1) && s == SplitDown(r, Use(old(s), bucket, Back(old(s), bucket)), Back(old(s), bucket), goal).0
      ensures Intact(g, r, old(s.st), w, mem[..])
    {
      hide Stored, Below, BitsOk, Intact, LinkRemove, FlipAbove, Pow2, Depth, Off, Room, SplitDown, Inv, Shr, ListsLinked;
      StoredUse(g, r, s, bucket, w, nodeIsSplit[..]);
      BlockReady(bucket, w);
      var i := NodeForPtr(ptr, bucket);
      ghost var st := s.st;
      FlipAboveNode(i);
      s := Use(s, bucket, i);
      SplitTo(i, bucket, goal, st);
      IntactThen(g, r, st, w, old(mem[..]), mem[..]);
    }

    /** The first call's tree, of one least block. */
    method Start()
      requires Valid() && basePtr == 0
      modifies this`basePtr, this`maxPtr, this`endPtr, this`bucketLimit, mem
      ensures Valid() && basePtr == g.base != 0
      ensures Intact(g, r, s.st, old(mem[..]), mem[..])
    {
      StoredInitial(g, r, mem[..], nodeIsSplit[..]);
      basePtr := g.base;
      maxPtr := basePtr;
      endPtr := g.base + r.bytes;
      bucketLimit := r.Buckets() - 1;
      maxPtr := basePtr + LIST;
      ListInit(bucketLimit);
      ListPush(bucketLimit, basePtr);
      assert nodeIsSplit[..] == old(nodeIsSplit[..]);
    }

    /** One turn of the search: the answer, or that the next larger bucket is to be tried. */
    method TryBucket(bucket: nat, goal: nat) returns (more: bool, ptr: nat)
      requires Rep(-1) && bucket <= goal < r.Buckets()
      modifies this`bucketLimit, this`maxPtr, this`s, mem, nodeIsSplit
      ensures Rep(-1) && FewerUsed(old(s.st), s.st)
      ensures !more ==> Answers(Find(r, old(s), bucket, goal), ptr)
      ensures more ==> bucket > 0 && Find(r, s, bucket - 1, goal) == Find(r, old(s), bucket, goal)
      ensures Intact(g, r, old(s.st), old(mem[..]), mem[..])
    {
      hide Stored, Placed, Inv, Find, Lower, TakeLast, Intact, FewerUsed, Pow2, First;
      SearchFacts(bucket, goal);
      FindAfterLower(r, s, bucket, goal);
      ghost var s0, w0 := s, mem[..];
      var ok := LowerBucketLimit(bucket);
      if !ok {
        return false, 0;
      }
      ghost var s1, w1 := s, mem[..];
      more, ptr := PopBucket(bucket, goal);
      IntactFewer(g, r, s0.st, s1.st, w1, mem[..]);
      IntactThen(g, r, s0.st, w0, w1, mem[..]);
      FewerThen(s0.st, s1.st, s.st);
    }

    lemma SearchFacts(bucket: nat, goal: nat)
      requires Rep(-1) && bucket <= goal < r.Buckets()
      ensures r.Good() && Inv(r, s) && |s.lists| == r.Buckets() && bucketLimit == s.limit && 0 < g.base
      ensures FewerUsed(s.st, Lower(r, s, bucket).0.st)
      ensures FewerUsed(s.st, Find(r, s, bucket, goal).0.st)
      ensures s.lists[bucket] != [] ==> FewerUsed(s.st, TakeLast(r, s, bucket, goal).0.st)
      ensures FewerUsed(s.st, s.st) && Intact(g, r, s.st, mem[..], mem[..])
    {
      hide Stored, NodeOk, ListOk, Below;
      RepInv();
      SearchFewer(r, s, bucket, goal);
    }

    lemma RepInv()
      requires Rep(-1)
      ensures r.Good() && Inv(r, s) && |s.lists| == r.Buckets() && basePtr != 0 && bucketLimit == s.limit < r.Buckets()
    {
    }

    /** The tree grown to `bucket`: its list popped, or the next larger bucket, or the tree grown once more. */
    method PopBucket(bucket: nat, goal: nat) returns (more: bool, ptr: nat)
      requires Rep(-1) && s.limit <= bucket <= goal < r.Buckets()
      modifies this`bucketLimit, this`maxPtr, this`s, mem, nodeIsSplit
      ensures Rep(-1) && FewerUsed(old(s.st), s.st)
      ensures !more ==> Answers(Find(r, old(s), bucket, goal), ptr)
      ensures more ==> bucket > 0 && Find(r, s, bucket - 1, goal) == Find(r, old(s), bucket, goal)
      ensures Intact(g, r, old(s.st), old(mem[..]), mem[..])
    {
      hide Stored, Placed, Inv, Find, Lower, TakeLast, Intact, FewerUsed, Pow2, First, LinkRemove;
      SearchFacts(bucket, goal);
      ghost var s0, w0 := s, mem[..];
      if s.lists[bucket] != [] {
        FindListed(r, s, bucket, goal);
      } else {
        FindNext(r, s, bucket, goal);
      }
      ptr := ListPop(bucket);
      if ptr == 0 {
        if bucket != bucketLimit || bucket == 0 {
          return bucket != 0, 0;
        }
        ptr := RaiseAndTake(bucket, goal);
      } else {
        var ok := Take(bucket, goal, ptr, w0);
        ptr := if ok then ptr else 0;
      }
      more := false;
    }

    /** The tree grown over its root, in use, and the block that gave it taken. */
    method RaiseAndTake(bucket: nat, goal: nat) returns (ptr: nat)
      requires Rep(-1) && 0 < s.limit == bucket <= goal < r.Buckets() && s.lists[bucket] == []
      modifies this`bucketLimit, this`maxPtr, this`s, mem, nodeIsSplit
      ensures Rep(-1) && FewerUsed(old(s.st), s.st)
      ensures Answers(Find(r, old(s), bucket, goal), ptr)
      ensures Intact(g, r, old(s.st), old(mem[..]), mem[..])
    {
      hide Stored, Placed, Inv, Find, Lower, TakeLast, Intact, FewerUsed, Pow2, First, LinkRemove;
      SearchFacts(bucket, goal);
      SearchFacts(bucket - 1, goal);
      FindRaise(r, s, bucket, goal);
      ghost var s0, w0 := s, mem[..];
      var ok := LowerBucketLimit(bucket - 1);
      if !ok {
        return 0;
      }
      ghost var s1, w1 := s, mem[..];
      ptr := ListPop(bucket);
      ok := Take(bucket, goal, ptr, w1);
      IntactFewer(g, r, s0.st, s1.st, w1, mem[..]);
      IntactThen(g, r, s0.st, w0, w1, mem[..]);
      return if ok then ptr else 0;
    }

    /** A bucket with a free list at least as large as needed, a larger block split where there is no exact
        match; 0 where there is none. */
    method Search(goal: nat) returns (ptr: nat)
      requires Rep(-1) && goal < r.Buckets()
      modifies this`bucketLimit, this`maxPtr, this`s, mem, nodeIsSplit
      ensures Rep(-1) && Answers(Find(r, old(s), goal, goal), ptr)
      ensures Intact(g, r, old(s.st), old(mem[..]), mem[..])
    {
      hide Stored, Placed, Inv, Find, Intact, FewerUsed, NodeAddr;
      var bucket: nat := goal;
      var more := true;
      ptr := 0;
      SearchFacts(bucket, goal);
      while more
        invariant bucket <= goal && Rep(-1) && FewerUsed(old(s.st), s.st)
        invariant more ==> Inv(r, s) && Find(r, s, bucket, goal) == Find(r, old(s), goal, goal)
        invariant !more ==> Answers(Find(r, old(s), goal, goal), ptr)
        invariant Intact(g, r, old(s.st), old(mem[..]), mem[..])
        decreases more, bucket
      {
        ghost var s0, w0 := s, mem[..];
        more, ptr := TryBucket(bucket, goal);
        IntactFewer(g, r, old(s.st), s0.st, w0, mem[..]);
        IntactThen(g, r, old(s.st), old(mem[..]), w0, mem[..]);
        FewerThen(old(s.st), s0.st, s.st);
        RepInv();
        if more {
          bucket := bucket - 1;
        }
      }
    }

    /** A block of a power of two, aligned to its own size from the base, or 0. */
    method Malloc(request: nat) returns (ptr: nat)
      requires Valid()
      modifies this, mem, nodeIsSplit
      ensures Valid()
      ensures request > Pow2(r.maxLog2) ==> ptr == 0 && s == old(s)
      ensures request <= Pow2(r.maxLog2) ==> Answers(Find(r, old(s), BucketFor(r, request), BucketFor(r, request)), ptr)
      ensures Intact(g, r, old(s.st), old(mem[..]), mem[..])
      ensures releases == old(releases)
      ensures allocs == if ptr == 0 then old(allocs) else (old(allocs) + 1) % 0x1_0000_0000
    {
      hide Stored, Placed, Inv, Find, Intact, Live, Pow2, AllClear, RepIn, NodeAddr;
      ghost var s0, w0 := s, mem[..];
      Reflexive();
      if basePtr == 0 {
        Start();
      }
      if request > Pow2(r.maxLog2) {
        return 0;
      }
      ghost var w1 := mem[..];
      ptr := Serve(request);
      IntactThen(g, r, s0.st, w0, w1, mem[..]);
    }

    method Serve(request: nat) returns (ptr: nat)
      requires Valid() && basePtr != 0 && request <= Pow2(r.maxLog2)
      modifies this`bucketLimit, this`maxPtr, this`s, this`live, this`allocs, mem, nodeIsSplit
      ensures Valid()
      ensures Answers(Find(r, old(s), BucketFor(r, request), BucketFor(r, request)), ptr)
      ensures Intact(g, r, old(s.st), old(mem[..]), mem[..])
      ensures allocs == if ptr == 0 then old(allocs) else (old(allocs) + 1) % 0x1_0000_0000
    {
      hide Stored, Inv, Find, Intact, Live, Pow2, AllClear, NodeAddr;
      RepInv();
      var goal := BucketForRequest(request);
      ptr := Search(goal);
      LiveAfter(r, old(s), goal);
      RepInv();
      if ptr != 0 {
        live := live + Pow2(r.maxLog2 - goal);
        allocs := (allocs + 1) % 0x1_0000_0000;
      }
    }

    lemma Reflexive()
      requires Valid()
      ensures r.Good() && Intact(g, r, s.st, mem[..], mem[..])
    {
    }

    lemma BlockReady(bucket: nat, w: seq<nat>)
      requires RepIn(-1, w, nodeIsSplit[..]) && bucket < r.Buckets() && s.lists[bucket] != []
      ensures bucket <= r.maxLog2 && Back(s, bucket) < |s.st|
      ensures NodeForPtr(NodeAddr(g, r, Back(s, bucket)), bucket) == Back(s, bucket)
      ensures var i := Back(s, bucket);
              FewerUsed(s.st, Use(s, bucket, i).st) && !s.st[i].Used? && Use(s, bucket, i).limit == s.limit
    {
      BackListed(r, s, bucket);
      PtrIsAddr(Back(s, bucket));
    }

    // Letting go

    /** Whether `at` is a live block of bucket `bucket`. */
    ghost predicate LiveBlock(at: nat, bucket: nat)
      reads this
    {
      && g.base <= at && bucket <= r.maxLog2
      && var i := NodeForPtr(at, bucket);
         i < |s.st| && s.st[i].Used? && Depth(i) == bucket && at == NodeAddr(g, r, i)
    }

    /** A used node, and memory and bits that hold it. */
    ghost predicate Holding(i: nat, w: seq<nat>, bits: seq<bv8>)
      reads this
    {
      RepIn(i, w, bits) && i < |s.st| && s.st[i].Used?
    }

    lemma HoldingFacts(i: nat, w: seq<nat>, bits: seq<bv8>)
      requires Holding(i, w, bits)
      ensures r.Good() && Core(r, s) && Below(r.maxLog2, s.st, s.max, i) && BitsOk(s.st, bits)
      ensures Stored(g, r, s, i, w, bits)
      ensures Depth(i) < r.Buckets() <= r.maxLog2 + 1 && Pow2(Depth(i)) <= i + 1
      ensures PtrForNode(i, Depth(i)) == NodeAddr(g, r, i)
      ensures bucketLimit == s.limit && mem as object != nodeIsSplit as object
    {
      DepthBelow(i, r.Buckets());
      PtrIsAddr(i);
    }

    /** The bit above `i` flipped; merged with its buddy where that is free. */
    method MergeUp(i: nat, bucket: nat) returns (merged: bool)
      requires i > 0 && Holding(i, mem[..], nodeIsSplit[..]) && bucket == Depth(i)
      modifies this`s, mem, nodeIsSplit
      ensures merged ==> && bucket > 0 && Holding(Parent(i), mem[..], nodeIsSplit[..]) && Depth(Parent(i)) == bucket - 1
                         && Release(r, s, Parent(i)) == Release(r, old(s), i)
      ensures !merged ==> && s == old(s) && mem[..] == old(mem[..]) && Holding(i, mem[..], old(nodeIsSplit[..]))
                          && nodeIsSplit[..] == FlipAbove(old(nodeIsSplit[..]), i)
                          && (Sibling(i) >= |s.st| || !s.st[Sibling(i)].Free?)
      ensures r.Good() && Intact(g, r, old(s.st), old(mem[..]), mem[..])
    {
      hide Stored, Core, Below, BitsOk, Release, Intact, Flip, LinkRemove, Pow2, Depth, PtrForNode, SplitBit, MergeStep, Inv;
      HoldingFacts(i, mem[..], nodeIsSplit[..]);
      BuddyFree(r, s, i, nodeIsSplit[..]);
      IntactSame(g, r, s.st, mem[..]);
      ghost var bits := nodeIsSplit[..];
      FlipParentIsSplit(i);
      assert mem[..] == old(mem[..]);
      if ParentIsSplit(i) || bucket == bucketLimit {
        return false;
      }
      Merge(i, bucket, bits);
      return true;
    }

    /** The free buddy off its list: the two are their parent. */
    method Merge(i: nat, bucket: nat, ghost bits: seq<bv8>)
      requires i > 0 && Holding(i, mem[..], bits) && bucket == Depth(i)
      requires Parent(i) / 8 < |bits| && nodeIsSplit[..] == Flip(bits, Parent(i))
      requires Sibling(i) < |s.st| && s.st[Sibling(i)].Free?
      modifies this`s, mem
      ensures bucket > 0 && Holding(Parent(i), mem[..], nodeIsSplit[..]) && Depth(Parent(i)) == bucket - 1
      ensures Release(r, s, Parent(i)) == Release(r, old(s), i)
      ensures r.Good() && Intact(g, r, old(s.st), old(mem[..]), mem[..])
    {
      hide Stored, Core, Below, BitsOk, Release, Intact, Flip, LinkRemove, Pow2, PtrForNode, MergeStep, Inv;
      HoldingFacts(i, mem[..], bits);
      SiblingAddr(i);
      StoredMerge(g, r, s, i, mem[..], bits);
      ReleaseMerge(r, s, i);
      ghost var s' := MergeStep(s, bucket, i);
      ListRemove(PtrForNode(Sibling(i), bucket));
      assert nodeIsSplit[..] == old(nodeIsSplit[..]);
      s := s';
    }

    lemma SiblingAddr(i: nat)
      requires i > 0 && Depth(i) <= r.maxLog2
      ensures Pow2(Depth(i)) <= Sibling(i) + 1 && PtrForNode(Sibling(i), Depth(i)) == NodeAddr(g, r, Sibling(i))
    {
      hide PtrForNode, NodeForPtr, NodeAddr, Pow2, Depth, Sibling;
      SiblingDepth(i);
      PtrIsAddr(Sibling(i));
    }

    /** Node `at` let go: up to the root, used blocks made free and merged with free buddies. */
    method LetGo(at: nat, from: nat)
      requires Holding(at, mem[..], nodeIsSplit[..]) && from == Depth(at)
      modifies this`s, mem, nodeIsSplit
      ensures Rep(-1) && s == Release(r, old(s), at)
      ensures r.Good() && Intact(g, r, s.st, old(mem[..]), mem[..])
    {
      hide Stored, Core, Below, BitsOk, Release, Intact, Flip, Pow2, Depth, RepIn, PtrForNode, FewerUsed, Inv;
      var i, bucket := at, from;
      ghost var s0, w0, bits := s, mem[..], nodeIsSplit[..];
      HoldingFacts(at, mem[..], bits);
      ghost var goal := Release(r, s0, at);
      IntactSame(g, r, goal.st, w0);
      while i != 0
        invariant Holding(i, mem[..], bits) && bucket == Depth(i) && bits == nodeIsSplit[..]
        invariant Core(r, s) && Below(r.maxLog2, s.st, s.max, i) && Release(r, s, i) == goal
        invariant Intact(g, r, goal.st, w0, mem[..])
        decreases i
      {
        ghost var s1, w1 := s, mem[..];
        ReleaseFewer(r, s, i);
        var merged := MergeUp(i, bucket);
        IntactFewer(g, r, goal.st, s1.st, w1, mem[..]);
        IntactThen(g, r, goal.st, w0, w1, mem[..]);
        if !merged {
          break;
        }
        i, bucket := Parent(i), bucket - 1;
        bits := nodeIsSplit[..];
        HoldingFacts(i, mem[..], bits);
      }
      ghost var w2 := mem[..];
      Relist(i, bucket, bits);
      IntactThen(g, r, goal.st, w0, w2, mem[..]);
    }

    /** A node with nothing to merge with, at the back of its list. */
    method Relist(i: nat, bucket: nat, ghost bits: seq<bv8>)
      requires Holding(i, mem[..], bits) && bucket == Depth(i)
      requires i > 0 ==> Parent(i) / 8 < |bits|
      requires nodeIsSplit[..] == FlipAbove(bits, i)
      requires i > 0 ==> Sibling(i) >= |s.st| || !s.st[Sibling(i)].Free?
      modifies this`s, mem
      ensures Rep(-1) && s == Release(r, old(s), i)
      ensures r.Good() && Intact(g, r, s.st, old(mem[..]), mem[..])
    {
      hide Stored, Core, Below, BitsOk, Release, Intact, LinkPush, Pow2, Settle, Inv, PtrForNode, Flip;
      HoldingFacts(i, mem[..], bits);
      StoredSettle(g, r, s, i, mem[..], bits);
      ReleaseSettle(r, s, i);
      ghost var s' := Settle(s, bucket, i);
      ListPush(bucket, PtrForNode(i, bucket));
      assert nodeIsSplit[..] == old(nodeIsSplit[..]);
      s := s';
    }

    /** Takes back the block at `at`, of the size it was asked for with. */
    method Free(at: nat, request: nat)
      requires Valid()
      requires at != 0 ==> request <= Pow2(r.maxLog2) && LiveBlock(at, BucketFor(r, request))
      modifies this, mem, nodeIsSplit
      ensures Valid()
      ensures at == 0 ==> s == old(s) && mem[..] == old(mem[..]) && releases == old(releases)
      ensures at != 0 ==> Freed(old(s), NodeForPtr(at, BucketFor(r, request)))
      ensures at != 0 ==> releases == (old(releases) + 1) % 0x1_0000_0000
      ensures allocs == old(allocs)
      ensures Intact(g, r, s.st, old(mem[..]), mem[..])
    {
      hide Inv, Placed, RepIn, Live, AllClear, Freed, Intact, Pow2, LiveBlock, NodeForPtr;
      Reflexive();
      if at == 0 {
        return;
      }
      var bucket := BucketForRequest(request);
      FreeNode(at, bucket);
    }

    /** The state is what letting node `i` of `s0` go leaves. */
    ghost predicate Freed(s0: State, i: nat)
      reads this
    {
      && Core(r, s0) && i < |s0.st| && s0.st[i].Used? && Below(r.maxLog2, s0.st, s0.max, i)
      && s == Release(r, s0, i)
    }

    method FreeNode(at: nat, bucket: nat)
      requires Valid() && LiveBlock(at, bucket)
      modifies this`s, this`live, this`releases, mem, nodeIsSplit
      ensures Valid() && Freed(old(s), NodeForPtr(at, bucket))
      ensures releases == (old(releases) + 1) % 0x1_0000_0000
      ensures r.Good() && Intact(g, r, s.st, old(mem[..]), mem[..])
    {
      hide Stored, Inv, Intact, Live, Pow2, AllClear, NodeAddr, Release, Core, Below, BitsOk, Shr;
      var i := NodeForPtr(at, bucket);
      Held(i, at, bucket);
      live := live - Pow2(r.maxLog2 - bucket);
      releases := (releases + 1) % 0x1_0000_0000;
      LetGo(i, bucket);
      RepInv();
    }

    /** A live block is a used node of a tree already begun; letting it go takes its bytes off the live ones. */
    lemma Held(i: nat, at: nat, bucket: nat)
      requires Valid() && LiveBlock(at, bucket) && i == NodeForPtr(at, bucket)
      ensures basePtr != 0 && Holding(i, mem[..], nodeIsSplit[..]) && Depth(i) == bucket
      ensures r.Good() && Core(r, s) && Below(r.maxLog2, s.st, s.max, i)
      ensures Pow2(r.maxLog2 - bucket) <= live
      ensures Live(r.maxLog2, Release(r, s, i).st) == live - Pow2(r.maxLog2 - bucket)
    {
      BelowWeaker(r.maxLog2, s.st, s.max, i);
      LiveOneMore(r.maxLog2, Release(r, s, i).st, s.st, i);
    }

    // What is left

    /** `n` is the size of the largest free block, 0 where there is none. */
    ghost predicate Largest(n: nat)
      reads this
    {
      && (forall i :: 0 <= i < |s.st| && s.st[i].Free? ==> Size(r.maxLog2, Depth(i)) <= n)
      && (n != 0 ==> exists i :: 0 <= i < |s.st| && s.st[i].Free? && Size(r.maxLog2, Depth(i)) == n)
    }

    /** 0 also where nothing has been asked for yet. */
    method LargestFree() returns (n: nat)
      requires Valid()
      ensures if basePtr == 0 then n == 0 else Largest(n)
    {
      hide Stored, Placed, Inv, AllClear, Live, Pow2, Size, Depth, First, RepIn, Largest;
      if basePtr == 0 {
        return 0;
      }
      RepInv();
      var b := bucketLimit;
      while b < r.Buckets()
        invariant s.limit <= b <= r.Buckets()
        invariant forall c :: s.limit <= c < b ==> s.lists[c] == []
      {
        HeadOf(b);
        if mem[HeadAt(g, b) + 4] != HeadAt(g, b) {
          FoundAt(b);
          return Pow2(r.maxLog2 - b);
        }
        b := b + 1;
      }
      FoundNone(b);
      return 0;
    }

    lemma FoundAt(b: nat)
      requires Inv(r, s) && s.limit <= b < |s.lists| && s.lists[b] != []
      requires forall c :: s.limit <= c < b ==> s.lists[c] == []
      ensures b <= r.maxLog2 && Largest(Pow2(r.maxLog2 - b))
    {
      BackListed(r, s, b);
      NoneLarger(b);
      assert Size(r.maxLog2, Depth(Back(s, b))) == Pow2(r.maxLog2 - b);
    }

    lemma FoundNone(b: nat)
      requires Inv(r, s) && b == |s.lists|
      requires forall c :: s.limit <= c < b ==> s.lists[c] == []
      ensures Largest(0)
    {
      NoneLarger(b);
    }

    lemma HeadOf(b: nat)
      requires Rep(-1) && s.limit <= b < r.Buckets()
      ensures Core(r, s) && b <= r.maxLog2
      ensures HeadAt(g, b) + LIST <= mem.Length
      ensures mem[HeadAt(g, b) + 4] == HeadAt(g, b) <==> s.lists[b] == []
    {
      HeadNext(g, r, s, b, mem[..]);
    }

    ghost predicate EmptyBefore(b: nat)
      reads this
    {
      forall c :: s.limit <= c < b ==> c < |s.lists| && s.lists[c] == []
    }

    /** With every list before `b` empty, no free block is larger than bucket `b`'s. */
    lemma NoneLarger(b: nat)
      requires Inv(r, s) && EmptyBefore(b)
      ensures forall i :: 0 <= i < |s.st| && s.st[i].Free? ==> b < r.Buckets() && Size(r.maxLog2, Depth(i)) <= Size(r.maxLog2, b)
    {
      hide Shape, Below, Lists, Size, Depth;
      forall i | 0 <= i < |s.st| && s.st[i].Free?
        ensures b < r.Buckets() && Size(r.maxLog2, Depth(i)) <= Size(r.maxLog2, b)
      {
        NoLarger(b, i);
      }
    }

    lemma NoLarger(b: nat, i: nat)
      requires Inv(r, s) && EmptyBefore(b)
      requires i < |s.st| && s.st[i].Free?
      ensures b < r.Buckets() && Size(r.maxLog2, Depth(i)) <= Size(r.maxLog2, b)
    {
      CoreSizes(r, s);
      DepthBelow(i, r.Buckets());
      InSpan(r, s, i);
      if Depth(i) < b {
        EmptyList(r, s, i);
        assert false;
      }
      Pow2Monotone(r.maxLog2 - Depth(i), r.maxLog2 - b);
    }

    // A user's writes

    /** What users write in their blocks is nothing to the allocator. */
    twostate lemma KeptByUsers()
      requires old(Valid())
      requires unchanged(this) && unchanged(nodeIsSplit)
      requires forall x :: 0 <= x < mem.Length && mem[x] != old(mem[x]) ==> LiveByte(g, r, s.st, x)
      ensures Valid()
    {
      hide Inv, Live, LiveByte, AllClear;
      assert nodeIsSplit[..] == old(nodeIsSplit[..]);
      if basePtr != 0 {
        StoredKept(g, r, s, old(mem[..]), mem[..], nodeIsSplit[..]);
      }
    }
  }

  /** The address of a node and the node at an address, as the code's shifts compute them. */
  lemma AddrFormulas(m: nat, i: nat)
    requires Depth(i) <= m
    ensures Pow2(Depth(i)) <= i + 1
    ensures Shl(i + 1 - Pow2(Depth(i)), m - Depth(i)) == Off(m, i)
    ensures Shr(Off(m, i), m - Depth(i)) + Pow2(Depth(i)) - 1 == i
  {
    DepthBounds(i);
    OffFormula(m, i);
    NodeFormula(m, i, Off(m, i));
  }

  /** The bits fill whole bytes. */
  lemma WholeBytes(n: nat)
    requires n >= 3
    ensures 8 * (Pow2(n) / 8) == Pow2(n)
  {
    Pow2Add(3, n - 3);
    assert Pow2(3) == 8 by {
      assert Pow2(1) == 2 * Pow2(0);
      assert Pow2(2) == 2 * Pow2(1);
    }
    DivUnique(Pow2(n), Pow2(n - 3), 0, 8);
  }

  /** A tree in which nothing is in use holds no live bytes. */
  lemma {:induction false} NoneLive(m: nat, st: seq<Status>, i: nat)
    requires forall j :: 0 <= j < |st| ==> !st[j].Used?
    ensures LiveBelow(m, st, i) == 0
    decreases |st| - i
  {
    if i < |st| {
      NoneLive(m, st, 2 * i + 1);
      NoneLive(m, st, 2 * i + 2);
    }
  }

  /** What a head's first word points back at: itself, or the back of its list. */
  lemma HeadPoints(g: Layout, r: Range, s: State, b: nat, w: seq<nat>)
    requires Core(r, s) && Fits(g, r, |w|) && s.limit <= b < r.Buckets()
    requires ListsLinked(g, r, s.lists, s.limit, w)
    ensures HeadAt(g, b) + LIST <= |w|
    ensures s.lists[b] == [] ==> w[HeadAt(g, b)] == HeadAt(g, b)
    ensures s.lists[b] != [] ==> var e := NodeAddr(g, r, Back(s, b));
                                 w[HeadAt(g, b)] == e && e >= g.base && e != HeadAt(g, b)
  {
    assert ListLinked(g, r, s.lists[b], b, w);
    var c := BucketRing(g, r, s.lists[b], b);
    assert LinkedAt(w, c[|c| - 2], c[|c| - 1]);
    Member(g, r, s, b, |c| - 2);
  }

  /** What a search does to the live bytes. */
  lemma LiveAfter(r: Range, s: State, goal: nat)
    requires Inv(r, s) && goal < r.Buckets()
    ensures var (s', got) := Find(r, s, goal, goal);
            && goal <= r.maxLog2 && Inv(r, s')
            && Live(r.maxLog2, s'.st) == Live(r.maxLog2, s.st) + if got.Some? then Pow2(r.maxLog2 - goal) else 0
  {
    hide Inv, OneMore, SameUsed, LiveBelow, Find;
    var (s', got) := Find(r, s, goal, goal);
    if got.Some? {
      LiveOneMore(r.maxLog2, s.st, s'.st, got.value);
    } else {
      LiveSame(r.maxLog2, s.st, s'.st, 0);
    }
  }

  /** What a head's second word points at: itself exactly when its list is empty. */
  lemma HeadNext(g: Layout, r: Range, s: State, b: nat, w: seq<nat>)
    requires Core(r, s) && Fits(g, r, |w|) && s.limit <= b < r.Buckets()
    requires ListsLinked(g, r, s.lists, s.limit, w)
    ensures HeadAt(g, b) + LIST <= |w|
    ensures w[HeadAt(g, b) + 4] == HeadAt(g, b) <==> s.lists[b] == []
  {
    assert ListLinked(g, r, s.lists[b], b, w);
    var c := BucketRing(g, r, s.lists[b], b);
    assert LinkedAt(w, c[0], c[1]);
    Member(g, r, s, b, 1);
  }
}
