/** How a state of the buddy tree lies in memory: each bucket's list as a ring of links through its head and
    its free blocks, and the split bits as bytes. A word is indexed by the byte address it starts at. */
module BuddyMemory {
  import opened BuddyTree
  import opened BuddySpec
  import opened BuddyProperties
  import opened Prelude

  // Split bits

  function BitAt(byte: bv8, k: nat): bool
    requires k < 8
  {
    (byte >> k) & 1 == 1
  }

  lemma FlipBit(byte: bv8, k: nat, j: nat)
    requires k < 8 && j < 8
    ensures BitAt(byte ^ (1 << k), j) == (BitAt(byte, j) != (j == k))
  {
  }

  predicate SplitBit(bits: seq<bv8>, p: nat)
    requires p / 8 < |bits|
  {
    BitAt(bits[p / 8], p % 8)
  }

  function Flip(bits: seq<bv8>, p: nat): seq<bv8>
    requires p / 8 < |bits|
  {
    bits[p / 8 := bits[p / 8] ^ (1 << (p % 8))]
  }

  lemma FlipOne(bits: seq<bv8>, p: nat, q: nat)
    requires p / 8 < |bits| && q / 8 < |bits|
    ensures SplitBit(Flip(bits, p), q) == (SplitBit(bits, q) != (q == p))
  {
    if p / 8 == q / 8 {
      FlipBit(bits[p / 8], p % 8, q % 8);
    }
    hide BitAt;
  }

  /** Each parent's bit says whether exactly one of its children is in use. */
  ghost predicate BitsOk(st: seq<Status>, bits: seq<bv8>) {
    && |st| < 16 * |bits|
    && forall p: nat :: 2 * p + 2 < |st| ==> BitOk(st, bits, p)
  }

  ghost predicate BitOk(st: seq<Status>, bits: seq<bv8>, p: nat)
    requires |st| < 16 * |bits| && 2 * p + 2 < |st|
  {
    SplitBit(bits, p) == (st[2 * p + 1].InUse() != st[2 * p + 2].InUse())
  }

  /** Node `i` alone comes into use, or goes out of it: its parent's bit is flipped. */
  lemma BitsFlipped(st: seq<Status>, st': seq<Status>, bits: seq<bv8>, i: nat)
    requires BitsOk(st, bits) && |st'| == |st| && 0 < i < |st| && |st| % 2 == 1
    requires forall j :: 0 <= j < |st| ==> st'[j].InUse() == (st[j].InUse() != (j == i))
    ensures Parent(i) / 8 < |bits|
    ensures BitsOk(st', Flip(bits, Parent(i)))
  {
    var u := Parent(i);
    forall p: nat | 2 * p + 2 < |st|
      ensures BitOk(st', Flip(bits, u), p)
    {
      FlipOne(bits, u, p);
      assert BitOk(st, bits, p);
    }
  }

  lemma BitsKept(st: seq<Status>, st': seq<Status>, bits: seq<bv8>)
    requires BitsOk(st, bits) && |st'| == |st|
    requires forall j :: 0 <= j < |st| ==> st'[j].InUse() == st[j].InUse()
    ensures BitsOk(st', bits)
  {
    forall p: nat | 2 * p + 2 < |st|
      ensures BitOk(st', bits, p)
    {
      assert BitOk(st, bits, p);
    }
  }

  // Links

  /** Where the buckets' own links lie, and where the range begins. */
  datatype Layout = Layout(heads: nat, base: nat)

  function HeadAt(g: Layout, b: nat): nat {
    g.heads + LIST * b
  }

  function NodeAddr(g: Layout, r: Range, i: nat): (a: nat)
    ensures a >= g.base
  {
    g.base + Off(r.maxLog2, i)
  }

  function Addrs(g: Layout, r: Range, q: seq<nat>): (a: seq<nat>)
    ensures |a| == |q|
    ensures forall k :: 0 <= k < |q| ==> a[k] == NodeAddr(g, r, q[k])
  {
    seq(|q|, k requires 0 <= k < |q| => NodeAddr(g, r, q[k]))
  }

  /** A bucket's ring, from its head and back to it. */
  function Ring(h: nat, a: seq<nat>): (c: seq<nat>)
    ensures |c| == |a| + 2 && c[0] == h && c[|a| + 1] == h
    ensures forall k :: 0 <= k < |a| ==> c[k + 1] == a[k]
  {
    [h] + a + [h]
  }

  predicate Sep(a: nat, b: nat) {
    a + LIST <= b || b + LIST <= a
  }

  lemma SepDiffers(a: nat, b: nat)
    requires Sep(a, b)
    ensures a != b
  {
  }

  /** Each member's second word is the next one's address, and that one's first word is its own. */
  ghost predicate Linked(w: seq<nat>, c: seq<nat>) {
    && (forall k :: 0 <= k < |c| ==> c[k] + LIST <= |w|)
    && (forall k :: 0 <= k < |c| - 1 ==> LinkedAt(w, c[k], c[k + 1]))
  }

  predicate LinkedAt(w: seq<nat>, a: nat, b: nat)
    requires a + LIST <= |w| && b + LIST <= |w|
  {
    w[a + 4] == b && w[b] == a
  }

  function LinkInit(w: seq<nat>, h: nat): (w': seq<nat>)
    requires h + LIST <= |w|
    ensures |w'| == |w|
  {
    w[h := h][h + 4 := h]
  }

  function LinkPush(w: seq<nat>, h: nat, e: nat): (w': seq<nat>)
    requires h + LIST <= |w| && e + LIST <= |w| && w[h] + LIST <= |w|
    ensures |w'| == |w|
  {
    w[e := w[h]][e + 4 := h][w[h] + 4 := e][h := e]
  }

  function LinkRemove(w: seq<nat>, e: nat): (w': seq<nat>)
    requires e + LIST <= |w| && w[e] + LIST <= |w| && w[e + 4] + LIST <= |w|
    requires w[e] + 4 != e + 4
    ensures |w'| == |w|
  {
    w[w[e] + 4 := w[e + 4]][w[e + 4] := w[e]]
  }

  /** No two members' words overlap, but for the head at both ends. */
  ghost predicate Spread(c: seq<nat>) {
    forall x, y :: 0 <= x < y < |c| - 1 ==> Sep(c[x], c[y])
  }

  lemma PushCells(w: seq<nat>, h: nat, e: nat)
    requires h + LIST <= |w| && e + LIST <= |w| && w[h] + LIST <= |w|
    requires Sep(h, e) && Sep(w[h], e) && (w[h] == h || Sep(w[h], h))
    ensures var w' := LinkPush(w, h, e);
            && |w'| == |w| && w'[e] == w[h] && w'[e + 4] == h && w'[w[h] + 4] == e && w'[h] == e
            && forall x :: 0 <= x < |w| && x != e && x != e + 4 && x != w[h] + 4 && x != h ==> w'[x] == w[x]
  {
  }

  lemma PushLinked(w: seq<nat>, h: nat, a: seq<nat>, e: nat)
    requires Linked(w, Ring(h, a)) && e + LIST <= |w|
    requires Spread(Ring(h, a + [e]))
    ensures w[h] == Ring(h, a)[|a|]
    ensures Linked(LinkPush(w, h, e), Ring(h, a + [e]))
  {
    var c, c' := Ring(h, a), Ring(h, a + [e]);
    assert LinkedAt(w, c[|a|], c[|a| + 1]);
    var p := c[|a|];
    var w' := LinkPush(w, h, e);
    assert c' == c[..|a| + 1] + [e, h];
    PushEnds(c', h, e, p, |a|);
    PushCells(w, h, e);
    forall k | 0 <= k < |c'| - 1
      ensures LinkedAt(w', c'[k], c'[k + 1])
    {
      if k < |a| {
        assert LinkedAt(w, c[k], c[k + 1]);
        PushApart(c', h, e, p, |a|, k);
        PushKept(w, w', h, e, p, c[k], c[k + 1]);
      }
    }
  }

  lemma PushEnds(c: seq<nat>, h: nat, e: nat, p: nat, n: nat)
    requires |c| == n + 3 && c[0] == h && c[n] == p && c[n + 1] == e && c[n + 2] == h
    requires Spread(c)
    ensures Sep(h, e) && Sep(p, e) && (n == 0 || Sep(p, h))
  {
    assert Sep(c[0], c[n + 1]) && Sep(c[n], c[n + 1]);
    assert n > 0 ==> Sep(c[0], c[n]);
  }

  lemma PushApart(c: seq<nat>, h: nat, e: nat, p: nat, n: nat, k: nat)
    requires |c| == n + 3 && c[0] == h && c[n] == p && c[n + 1] == e && c[n + 2] == h
    requires Spread(c) && k < n
    ensures Sep(c[k], e) && Sep(c[k], p) && Sep(c[k + 1], h) && Sep(c[k + 1], e)
    ensures k == 0 || Sep(c[k], h)
    ensures k + 1 == n || Sep(c[k + 1], p)
  {
    assert Sep(c[k], c[n + 1]) && Sep(c[k], c[n]) && Sep(c[0], c[k + 1]) && Sep(c[k + 1], c[n + 1]);
    assert k > 0 ==> Sep(c[0], c[k]);
    assert k + 1 < n ==> Sep(c[k + 1], c[n]);
  }

  lemma PushKept(w: seq<nat>, w': seq<nat>, h: nat, e: nat, p: nat, a: nat, b: nat)
    requires a + LIST <= |w| == |w'| && b + LIST <= |w| && LinkedAt(w, a, b)
    requires Sep(a, e) && Sep(a, p) && Sep(b, h) && Sep(b, e)
    requires a != p && (a == h || Sep(a, h)) && (b == p || Sep(b, p))
    requires forall x :: 0 <= x < |w| && x != e && x != e + 4 && x != p + 4 && x != h ==> w'[x] == w[x]
    ensures LinkedAt(w', a, b)
  {
  }

  lemma InitLinked(w: seq<nat>, h: nat)
    requires h + LIST <= |w|
    ensures Linked(LinkInit(w, h), Ring(h, []))
  {
    var w' := LinkInit(w, h);
    assert w'[h] == h && w'[h + 4] == h;
  }

  lemma RemoveCells(w: seq<nat>, e: nat, p: nat, n: nat)
    requires e + LIST <= |w| && p + LIST <= |w| && n + LIST <= |w|
    requires w[e] == p && w[e + 4] == n && Sep(p, e) && Sep(n, e)
    ensures var w' := LinkRemove(w, e);
            && |w'| == |w| && (p == n || Sep(p, n) ==> w'[p + 4] == n) && w'[n] == p
            && forall x :: 0 <= x < |w| && x != p + 4 && x != n ==> w'[x] == w[x]
  {
  }

  lemma RemoveLinked(w: seq<nat>, h: nat, a: seq<nat>, k: nat)
    requires Linked(w, Ring(h, a)) && k < |a| && Spread(Ring(h, a))
    ensures a[k] + LIST <= |w| && w[a[k]] + LIST <= |w| && w[a[k] + 4] + LIST <= |w| && Sep(w[a[k]], a[k])
    ensures w[a[k]] == Ring(h, a)[k] && w[a[k] + 4] == Ring(h, a)[k + 2]
    ensures Linked(LinkRemove(w, a[k]), Ring(h, a[..k] + a[k + 1..]))
  {
    hide Linked, Spread, Sep, LinkRemove, Ring;
    var c, c' := Ring(h, a), Ring(h, a[..k] + a[k + 1..]);
    RingWithout(h, a, k);
    RemoveFromRing(w, c, c', h, k);
    SepDiffers(w[a[k]], a[k]);
  }

  lemma RingWithout(h: nat, a: seq<nat>, k: nat)
    requires k < |a|
    ensures var c, c' := Ring(h, a), Ring(h, a[..k] + a[k + 1..]);
            |c'| == |c| - 1 && forall j :: 0 <= j < |c'| ==> c'[j] == c[if j <= k then j else j + 1]
  {
  }

  lemma RemoveFromRing(w: seq<nat>, c: seq<nat>, c': seq<nat>, h: nat, k: nat)
    requires |c| >= 3 && c[0] == h && c[|c| - 1] == h && k + 2 < |c| && Spread(c) && Linked(w, c)
    requires |c'| == |c| - 1
    requires forall j :: 0 <= j < |c'| ==> c'[j] == c[if j <= k then j else j + 1]
    ensures var e := c[k + 1];
            && e + LIST <= |w| && c[k] + LIST <= |w| && c[k + 2] + LIST <= |w|
            && w[e] == c[k] && w[e + 4] == c[k + 2] && Sep(c[k], e)
            && Linked(LinkRemove(w, e), c')
  {
    assert LinkedAt(w, c[k], c[k + 1]) && LinkedAt(w, c[k + 1], c[k + 2]);
    RemoveEnds(c, h, k);
    RemoveCells(w, c[k + 1], c[k], c[k + 2]);
    var w' := LinkRemove(w, c[k + 1]);
    forall j | 0 <= j < |c'| - 1
      ensures LinkedAt(w', c'[j], c'[j + 1])
    {
      if j != k {
        RemoveKept(w, w', c, h, k, if j < k then j else j + 1);
      }
    }
  }

  lemma RemoveKept(w: seq<nat>, w': seq<nat>, c: seq<nat>, h: nat, k: nat, j: nat)
    requires |c| >= 3 && c[0] == h && c[|c| - 1] == h && k + 2 < |c| && Spread(c) && Linked(w, c)
    requires j + 1 < |c| && (j < k || j > k + 1) && |w'| == |w|
    requires forall x :: 0 <= x < |w| && x != c[k] + 4 && x != c[k + 2] ==> w'[x] == w[x]
    ensures LinkedAt(w', c[j], c[j + 1])
  {
    assert LinkedAt(w, c[j], c[j + 1]);
    RemoveApart(c, h, k, j);
  }

  lemma RemoveEnds(c: seq<nat>, h: nat, k: nat)
    requires |c| >= 3 && c[0] == h && c[|c| - 1] == h && k + 2 < |c| && Spread(c)
    ensures Sep(c[k], c[k + 1]) && Sep(c[k + 2], c[k + 1])
    ensures c[k] == c[k + 2] || Sep(c[k], c[k + 2])
  {
    assert k + 2 < |c| - 1 ==> Sep(c[k + 1], c[k + 2]) && Sep(c[k], c[k + 2]);
    assert k + 2 == |c| - 1 ==> Sep(c[0], c[k + 1]);
    assert k + 2 == |c| - 1 && k > 0 ==> Sep(c[0], c[k]);
  }

  /** A link away from the member removed keeps its words. */
  lemma RemoveApart(c: seq<nat>, h: nat, k: nat, j: nat)
    requires |c| >= 3 && c[0] == h && c[|c| - 1] == h && k + 2 < |c| && Spread(c)
    requires j + 1 < |c| && (j < k || j > k + 1)
    ensures c[j] != c[k] && (c[j] == c[k + 2] || Sep(c[j], c[k + 2]))
    ensures c[j + 1] != c[k + 2] && (c[j + 1] == c[k] || Sep(c[j + 1], c[k]))
  {
    var z := |c| - 1;
    assert k + 2 == z && j > 0 && j < k ==> Sep(c[0], c[j]);
    if j < k {
      assert Sep(c[j], c[k]);
      assert k + 2 < z ==> Sep(c[j], c[k + 2]) && Sep(c[j + 1], c[k + 2]);
      assert j + 1 < k ==> Sep(c[j + 1], c[k]);
      assert k + 2 == z ==> Sep(c[0], c[j + 1]);
    } else {
      assert Sep(c[k], c[j]);
      assert j > k + 2 ==> Sep(c[k + 2], c[j]);
      assert j + 1 < z ==> Sep(c[k + 2], c[j + 1]) && Sep(c[k], c[j + 1]);
      assert j + 1 == z ==> Sep(c[0], c[k + 2]);
      assert j + 1 == z && k > 0 ==> Sep(c[0], c[k]);
    }
  }

  /** A ring whose members' words a change leaves alone. */
  lemma KeptLinked(w: seq<nat>, w': seq<nat>, c: seq<nat>)
    requires Linked(w, c) && |w'| == |w|
    requires forall k :: 0 <= k < |c| ==> w'[c[k]] == w[c[k]] && w'[c[k] + 4] == w[c[k] + 4]
    ensures Linked(w', c)
  {
    forall k | 0 <= k < |c| - 1
      ensures LinkedAt(w', c[k], c[k + 1])
    {
      assert LinkedAt(w, c[k], c[k + 1]);
    }
  }

  // Every list

  /** Where things lie: the heads below the range, the range within the memory. */
  predicate Fits(g: Layout, r: Range, n: nat)
    requires r.Good()
  {
    g.heads + LIST * r.Buckets() <= g.base && g.base + r.bytes <= n
  }

  ghost predicate ListsLinked(g: Layout, r: Range, lists: seq<seq<nat>>, limit: nat, w: seq<nat>) {
    forall b :: limit <= b < |lists| ==> ListLinked(g, r, lists[b], b, w)
  }

  ghost predicate ListLinked(g: Layout, r: Range, q: seq<nat>, b: nat, w: seq<nat>) {
    Linked(w, BucketRing(g, r, q, b))
  }

  function BucketRing(g: Layout, r: Range, q: seq<nat>, b: nat): seq<nat> {
    Ring(HeadAt(g, b), Addrs(g, r, q))
  }

  /** The words of two free blocks, or of a free block and a head, are apart. */
  lemma FreeSep(g: Layout, r: Range, s: State, i: nat, j: nat)
    requires Core(r, s) && i < |s.st| && j < |s.st| && i != j
    requires Leaf(s.st[i]) && Leaf(s.st[j])
    ensures Sep(NodeAddr(g, r, i), NodeAddr(g, r, j))
  {
    LeavesDisjoint(r, s, i, j);
    DepthBelow(i, r.Buckets());
    DepthBelow(j, r.Buckets());
    LeastSize(r, Depth(i));
    LeastSize(r, Depth(j));
  }

  lemma HeadSep(g: Layout, r: Range, b: nat, c: nat, i: nat)
    requires r.Good() && g.heads + LIST * r.Buckets() <= g.base && b < r.Buckets()
    ensures Sep(HeadAt(g, b), NodeAddr(g, r, i))
    ensures b != c ==> Sep(HeadAt(g, b), HeadAt(g, c))
  {
  }

  /** What member `k` of a bucket's ring is: the head at both ends, a listed node between. */
  lemma Member(g: Layout, r: Range, s: State, b: nat, k: nat)
    requires Core(r, s) && b < r.Buckets() && k < |s.lists[b]| + 2
    ensures var c := BucketRing(g, r, s.lists[b], b);
            if k == 0 || k == |s.lists[b]| + 1 then c[k] == HeadAt(g, b)
            else c[k] == NodeAddr(g, r, s.lists[b][k - 1]) && Listed(s.st, s.lists[b][k - 1], b)
  {
    var q := s.lists[b];
    if 0 < k <= |q| {
      assert q[k - 1] in q;
    }
  }

  lemma BucketSpread(g: Layout, r: Range, s: State, b: nat)
    requires Core(r, s) && b < r.Buckets() && g.heads + LIST * r.Buckets() <= g.base
    ensures Spread(BucketRing(g, r, s.lists[b], b))
  {
    var q := s.lists[b];
    forall x, y | 0 <= x < y < |q|
      ensures Sep(NodeAddr(g, r, q[x]), NodeAddr(g, r, q[y]))
    {
      NodesSpread(g, r, s, b, x, y);
    }
    RingSpread(g, r, q, b);
  }

  lemma RingSpread(g: Layout, r: Range, q: seq<nat>, b: nat)
    requires r.Good() && b < r.Buckets() && g.heads + LIST * r.Buckets() <= g.base
    requires forall x, y :: 0 <= x < y < |q| ==> Sep(NodeAddr(g, r, q[x]), NodeAddr(g, r, q[y]))
    ensures Spread(BucketRing(g, r, q, b))
  {
    var c := BucketRing(g, r, q, b);
    forall x, y | 0 <= x < y < |c| - 1
      ensures Sep(c[x], c[y])
    {
      assert c[y] == NodeAddr(g, r, q[y - 1]);
      if x == 0 {
        HeadSep(g, r, b, b, q[y - 1]);
      } else {
        assert c[x] == NodeAddr(g, r, q[x - 1]);
      }
    }
  }

  lemma NodesSpread(g: Layout, r: Range, s: State, b: nat, x: nat, y: nat)
    requires Core(r, s) && b < r.Buckets() && x < y < |s.lists[b]|
    ensures Sep(NodeAddr(g, r, s.lists[b][x]), NodeAddr(g, r, s.lists[b][y]))
  {
    var q := s.lists[b];
    assert ListOk(s.st, q, b);
    ListPair(s.st, q, b, x, y);
    ListedLeaf(s.st, b, q[x]);
    ListedLeaf(s.st, b, q[y]);
    hide *;
    FreeSep(g, r, s, q[x], q[y]);
  }

  lemma ListPair(st: seq<Status>, q: seq<nat>, b: nat, x: nat, y: nat)
    requires ListOk(st, q, b) && x < y < |q|
    ensures q[x] != q[y] && Listed(st, q[x], b) && Listed(st, q[y], b)
  {
    assert q[x] in q && q[y] in q;
  }

  lemma ListedLeaf(st: seq<Status>, b: nat, i: nat)
    requires Listed(st, i, b)
    ensures i < |st| && Leaf(st[i])
  {
  }

  /** Members of different buckets' rings are apart. */
  lemma BucketsApart(g: Layout, r: Range, s: State, b: nat, c: nat, x: nat, y: nat)
    requires Core(r, s) && b < r.Buckets() && c < r.Buckets() && b != c
    requires g.heads + LIST * r.Buckets() <= g.base
    requires x < |s.lists[b]| + 2 && y < |s.lists[c]| + 2
    ensures Sep(BucketRing(g, r, s.lists[b], b)[x], BucketRing(g, r, s.lists[c], c)[y])
  {
    Member(g, r, s, b, x);
    Member(g, r, s, c, y);
    var p, q := s.lists[b], s.lists[c];
    if x == 0 || x == |p| + 1 {
      HeadSep(g, r, b, c, if y == 0 || y == |q| + 1 then 0 else q[y - 1]);
    } else if y == 0 || y == |q| + 1 {
      HeadSep(g, r, c, b, p[x - 1]);
    } else {
      FreeSep(g, r, s, p[x - 1], q[y - 1]);
    }
  }

  lemma PushBounds(g: Layout, r: Range, w: seq<nat>, q: seq<nat>, b: nat, i: nat)
    requires ListLinked(g, r, q, b, w)
    requires NodeAddr(g, r, i) + LIST <= |w|
    requires Spread(BucketRing(g, r, q + [i], b))
    ensures var h, e := HeadAt(g, b), NodeAddr(g, r, i);
            && h + LIST <= |w| && w[h] + LIST <= |w|
            && w[h] == BucketRing(g, r, q, b)[|q|] == BucketRing(g, r, q + [i], b)[|q|]
            && e == BucketRing(g, r, q + [i], b)[|q| + 1]
            && ListLinked(g, r, q + [i], b, LinkPush(w, h, e))
  {
    var h, a, e := HeadAt(g, b), Addrs(g, r, q), NodeAddr(g, r, i);
    assert Addrs(g, r, q + [i]) == a + [e];
    PushLinked(w, h, a, e);
    RingPush(h, a, e);
    assert w[h] == Ring(h, a)[|q|];
    hide Linked, Spread, Addrs, HeadAt, NodeAddr, LinkPush;
  }

  lemma RingPush(h: nat, a: seq<nat>, e: nat)
    ensures Ring(h, a + [e])[|a|] == Ring(h, a)[|a|] && Ring(h, a + [e])[|a| + 1] == e
  {
  }

  /** A node is put at the back of its list in memory, the lists before `from` not yet begun. */
  lemma PushMem(g: Layout, r: Range, s: State, from: nat, b: nat, q: seq<nat>, i: nat, w: seq<nat>)
    requires Core(r, s) && from <= b < r.Buckets() && Fits(g, r, |w|)
    requires s.lists[b] == q + [i]
    requires ListsLinked(g, r, s.lists[b := q], from, w)
    requires NodeAddr(g, r, i) + LIST <= |w|
    ensures HeadAt(g, b) + LIST <= |w| && w[HeadAt(g, b)] + LIST <= |w|
    ensures ListsLinked(g, r, s.lists, from, LinkPush(w, HeadAt(g, b), NodeAddr(g, r, i)))
  {
    assert ListLinked(g, r, s.lists[b := q][b], b, w);
    BucketSpread(g, r, s, b);
    PushBounds(g, r, w, q, b, i);
    var w' := LinkPush(w, HeadAt(g, b), NodeAddr(g, r, i));
    forall c | from <= c < |s.lists|
      ensures ListLinked(g, r, s.lists[c], c, w')
    {
      if c != b {
        assert ListLinked(g, r, s.lists[b := q][c], c, w);
        PushOthers(g, r, s, b, q, i, w, c);
      }
    }
  }

  lemma PushOthers(g: Layout, r: Range, s: State, b: nat, q: seq<nat>, i: nat, w: seq<nat>, c: nat)
    requires Core(r, s) && b < r.Buckets() && c < r.Buckets() && b != c && Fits(g, r, |w|)
    requires s.lists[b] == q + [i]
    requires ListLinked(g, r, s.lists[c], c, w)
    requires var h, e := HeadAt(g, b), NodeAddr(g, r, i);
             && h + LIST <= |w| && e + LIST <= |w| && w[h] + LIST <= |w|
             && w[h] == BucketRing(g, r, q + [i], b)[|q|] && e == BucketRing(g, r, q + [i], b)[|q| + 1]
    ensures ListLinked(g, r, s.lists[c], c, LinkPush(w, HeadAt(g, b), NodeAddr(g, r, i)))
  {
    hide LinkPush, Sep, Core, HeadAt, NodeAddr, Linked;
    SizesOf(r, s);
    var h, e := HeadAt(g, b), NodeAddr(g, r, i);
    var ring := BucketRing(g, r, s.lists[c], c);
    var w' := LinkPush(w, h, e);
    RingFits(w, ring);
    forall k | 0 <= k < |ring|
      ensures w'[ring[k]] == w[ring[k]] && w'[ring[k] + 4] == w[ring[k] + 4]
    {
      BucketsApart(g, r, s, b, c, 0, k);
      BucketsApart(g, r, s, b, c, |q|, k);
      BucketsApart(g, r, s, b, c, |q| + 1, k);
      RingPush(h, Addrs(g, r, q), e);
      PushKeeps(w, h, e, ring[k]);
    }
    KeptLinked(w, w', ring);
  }

  lemma SizesOf(r: Range, s: State)
    requires Core(r, s)
    ensures r.Good() && |s.lists| == r.Buckets()
  {
  }

  lemma RingFits(w: seq<nat>, c: seq<nat>)
    requires Linked(w, c)
    ensures forall k :: 0 <= k < |c| ==> c[k] + LIST <= |w|
  {
  }

  /** A push changes no word apart from the head, the back and the entry. */
  lemma PushKeeps(w: seq<nat>, h: nat, e: nat, a: nat)
    requires h + LIST <= |w| && e + LIST <= |w| && w[h] + LIST <= |w| && a + LIST <= |w|
    requires Sep(h, a) && Sep(e, a) && Sep(w[h], a)
    ensures LinkPush(w, h, e)[a] == w[a] && LinkPush(w, h, e)[a + 4] == w[a + 4]
  {
  }

  /** A removal changes no word apart from the entry's neighbours. */
  lemma RemoveKeeps(w: seq<nat>, e: nat, a: nat)
    requires e + LIST <= |w| && w[e] + LIST <= |w| && w[e + 4] + LIST <= |w| && w[e] != e && a + LIST <= |w|
    requires Sep(w[e], a) && Sep(w[e + 4], a)
    ensures LinkRemove(w, e)[a] == w[a] && LinkRemove(w, e)[a + 4] == w[a + 4]
  {
  }

  /** A listed node is taken out of its list in memory. */
  lemma RemoveMem(g: Layout, r: Range, s: State, b: nat, k: nat, w: seq<nat>)
    requires Core(r, s) && s.limit <= b < r.Buckets() && Fits(g, r, |w|) && k < |s.lists[b]|
    requires ListsLinked(g, r, s.lists, s.limit, w)
    ensures var e := NodeAddr(g, r, s.lists[b][k]);
            && e + LIST <= |w| && w[e] + LIST <= |w| && w[e + 4] + LIST <= |w| && Sep(w[e], e)
            && ListsLinked(g, r, s.lists[b := s.lists[b][..k] + s.lists[b][k + 1..]], s.limit, LinkRemove(w, e))
  {
    hide LinkRemove, Core, HeadAt, NodeAddr, Linked, Sep, Spread;
    SizesOf(r, s);
    var q := s.lists[b];
    var e := NodeAddr(g, r, q[k]);
    BucketSpread(g, r, s, b);
    assert ListLinked(g, r, q, b, w);
    RemoveLinked(w, HeadAt(g, b), Addrs(g, r, q), k);
    SepDiffers(w[e], e);
    var w' := LinkRemove(w, e);
    var q' := q[..k] + q[k + 1..];
    AddrsWithout(g, r, q, k);
    RemoveEach(g, r, s, b, k, w);
    ListsChanged(g, r, s.lists, s.lists[b := q'], s.limit, b, w');
  }

  lemma AddrsWithout(g: Layout, r: Range, q: seq<nat>, k: nat)
    requires k < |q|
    ensures Addrs(g, r, q[..k] + q[k + 1..]) == Addrs(g, r, q)[..k] + Addrs(g, r, q)[k + 1..]
  {
  }

  /** Every other bucket's list and bucket `b`'s new one. */
  lemma ListsChanged(g: Layout, r: Range, lists: seq<seq<nat>>, lists': seq<seq<nat>>, from: nat, b: nat, w: seq<nat>)
    requires |lists'| == |lists| && from <= b < |lists|
    requires forall c :: 0 <= c < |lists| && c != b ==> lists'[c] == lists[c]
    requires forall c :: from <= c < |lists| && c != b ==> ListLinked(g, r, lists[c], c, w)
    requires ListLinked(g, r, lists'[b], b, w)
    ensures ListsLinked(g, r, lists', from, w)
  {
  }

  lemma RemoveEach(g: Layout, r: Range, s: State, b: nat, k: nat, w: seq<nat>)
    requires Core(r, s) && b < r.Buckets() && Fits(g, r, |w|) && k < |s.lists[b]|
    requires ListsLinked(g, r, s.lists, s.limit, w)
    requires var e, ring := NodeAddr(g, r, s.lists[b][k]), BucketRing(g, r, s.lists[b], b);
             && e + LIST <= |w| && w[e] + LIST <= |w| && w[e + 4] + LIST <= |w| && w[e] != e
             && w[e] == ring[k] && w[e + 4] == ring[k + 2]
    ensures forall c :: s.limit <= c < |s.lists| && c != b ==>
                          ListLinked(g, r, s.lists[c], c, LinkRemove(w, NodeAddr(g, r, s.lists[b][k])))
  {
    hide LinkRemove, Core, HeadAt, NodeAddr, Linked, Sep, Spread, ListLinked;
    SizesOf(r, s);
    forall c | s.limit <= c < |s.lists| && c != b
      ensures ListLinked(g, r, s.lists[c], c, LinkRemove(w, NodeAddr(g, r, s.lists[b][k])))
    {
      RemoveOthers(g, r, s, b, k, w, c);
    }
  }

  lemma RemoveOthers(g: Layout, r: Range, s: State, b: nat, k: nat, w: seq<nat>, c: nat)
    requires Core(r, s) && b < r.Buckets() && c < r.Buckets() && b != c && Fits(g, r, |w|) && k < |s.lists[b]|
    requires ListLinked(g, r, s.lists[c], c, w)
    requires var e, ring := NodeAddr(g, r, s.lists[b][k]), BucketRing(g, r, s.lists[b], b);
             && e + LIST <= |w| && w[e] + LIST <= |w| && w[e + 4] + LIST <= |w| && w[e] != e
             && w[e] == ring[k] && w[e + 4] == ring[k + 2]
    ensures ListLinked(g, r, s.lists[c], c, LinkRemove(w, NodeAddr(g, r, s.lists[b][k])))
  {
    hide LinkRemove, Core, HeadAt, NodeAddr, Linked, Addrs;
    SizesOf(r, s);
    var e := NodeAddr(g, r, s.lists[b][k]);
    var w' := LinkRemove(w, e);
    var ring := BucketRing(g, r, s.lists[c], c);
    RingFits(w, ring);
    forall x | 0 <= x < |ring|
      ensures w'[ring[x]] == w[ring[x]] && w'[ring[x] + 4] == w[ring[x] + 4]
    {
      BucketsApart(g, r, s, b, c, k, x);
      BucketsApart(g, r, s, b, c, k + 2, x);
      RemoveKeeps(w, e, ring[x]);
    }
    KeptLinked(w, w', ring);
  }

  /** A bucket's head is made an empty list. */
  lemma InitMem(g: Layout, r: Range, s: State, b: nat, w: seq<nat>)
    requires Core(r, s) && b < r.Buckets() && Fits(g, r, |w|) && b + 1 == s.limit
    requires ListsLinked(g, r, s.lists, s.limit, w)
    ensures HeadAt(g, b) + LIST <= |w|
    ensures ListsLinked(g, r, s.lists[b := []], b, LinkInit(w, HeadAt(g, b)))
  {
    var h := HeadAt(g, b);
    var w' := LinkInit(w, h);
    var lists' := s.lists[b := []];
    forall c | b <= c < |lists'|
      ensures ListLinked(g, r, lists'[c], c, w')
    {
      if c == b {
        InitLinked(w, h);
        assert Addrs(g, r, []) == [];
      } else {
        assert ListLinked(g, r, s.lists[c], c, w);
        InitOthers(g, r, s, b, w, c);
      }
    }
  }

  lemma InitOthers(g: Layout, r: Range, s: State, b: nat, w: seq<nat>, c: nat)
    requires Core(r, s) && b < r.Buckets() && c < r.Buckets() && b != c && Fits(g, r, |w|)
    requires ListLinked(g, r, s.lists[c], c, w) && HeadAt(g, b) + LIST <= |w|
    ensures ListLinked(g, r, s.lists[c], c, LinkInit(w, HeadAt(g, b)))
  {
    var w' := LinkInit(w, HeadAt(g, b));
    var ring := BucketRing(g, r, s.lists[c], c);
    forall x | 0 <= x < |ring|
      ensures w'[ring[x]] == w[ring[x]] && w'[ring[x] + 4] == w[ring[x] + 4]
    {
      BucketsApart(g, r, s, b, c, 0, x);
    }
    KeptLinked(w, w', ring);
  }

  lemma {:induction false} WithoutAt(q: seq<nat>, k: nat)
    requires NoDup(q) && k < |q|
    ensures Without(q, q[k]) == q[..k] + q[k + 1..]
  {
    if k > 0 {
      assert q[0] != q[k];
      var t := q[1..];
      assert forall x, y :: 0 <= x < y < |t| ==> t[x] == q[x + 1] && t[y] == q[y + 1];
      WithoutAt(t, k - 1);
      assert q[..k] + q[k + 1..] == [q[0]] + (t[..k - 1] + t[k..]);
    }
  }

  // What the lists' upkeep leaves alone

  ghost predicate LiveByte(g: Layout, r: Range, st: seq<Status>, a: nat) {
    a >= g.base && exists i :: 0 <= i < |st| && st[i].Used? && Holds(r.maxLog2, i, a - g.base)
  }

  predicate Outside(g: Layout, r: Range, a: nat)
    requires r.Good()
  {
    a < g.heads || g.heads + LIST * r.Buckets() <= a < g.base || g.base + r.bytes <= a
  }

  /** Every word in a live block of `st`, and every word outside the range and the heads, is as it was. */
  ghost predicate Intact(g: Layout, r: Range, st: seq<Status>, w: seq<nat>, w': seq<nat>)
    requires r.Good()
  {
    && |w'| == |w|
    && forall a :: 0 <= a < |w| && w'[a] != w[a] ==> !LiveByte(g, r, st, a) && !Outside(g, r, a)
  }

  lemma IntactSame(g: Layout, r: Range, st: seq<Status>, w: seq<nat>)
    requires r.Good()
    ensures Intact(g, r, st, w, w)
  {
  }

  lemma IntactThen(g: Layout, r: Range, st: seq<Status>, w: seq<nat>, w1: seq<nat>, w2: seq<nat>)
    requires r.Good() && Intact(g, r, st, w, w1) && Intact(g, r, st, w1, w2)
    ensures Intact(g, r, st, w, w2)
  {
    forall a | 0 <= a < |w| && w2[a] != w[a]
      ensures !LiveByte(g, r, st, a) && !Outside(g, r, a)
    {
      if w1[a] == w[a] {
        assert w2[a] != w1[a];
      }
    }
  }

  ghost predicate FewerUsed(st: seq<Status>, st': seq<Status>) {
    |st| == |st'| && forall i :: 0 <= i < |st| && st[i].Used? ==> st'[i].Used?
  }

  lemma IntactFewer(g: Layout, r: Range, st: seq<Status>, st': seq<Status>, w: seq<nat>, w': seq<nat>)
    requires r.Good() && Intact(g, r, st', w, w') && FewerUsed(st, st')
    ensures Intact(g, r, st, w, w')
  {
    forall a | 0 <= a < |w| && w'[a] != w[a]
      ensures !LiveByte(g, r, st, a)
    {
      assert !LiveByte(g, r, st', a);
    }
  }

  /** A free block's links lie in no live block. */
  lemma FreeWords(g: Layout, r: Range, s: State, but: int, i: nat, a: nat)
    requires Core(r, s) && Below(r.maxLog2, s.st, s.max, but) && i < |s.st| && s.st[i].Free?
    requires NodeAddr(g, r, i) <= a < NodeAddr(g, r, i) + LIST
    requires g.heads + LIST * r.Buckets() <= g.base
    ensures !LiveByte(g, r, s.st, a) && !Outside(g, r, a)
  {
    var m := r.maxLog2;
    assert BelowAt(m, s.st[i], s.max, i, but);
    DepthBelow(i, r.Buckets());
    LeastSize(r, Depth(i));
    forall j | 0 <= j < |s.st| && s.st[j].Used?
      ensures !Holds(m, j, a - g.base)
    {
      LeavesDisjoint(r, s, i, j);
    }
  }

  lemma RingWords(g: Layout, r: Range, s: State, but: int, b: nat, k: nat, a: nat)
    requires Core(r, s) && Below(r.maxLog2, s.st, s.max, but) && b < r.Buckets() && k < |s.lists[b]| + 2
    requires BucketRing(g, r, s.lists[b], b)[k] <= a < BucketRing(g, r, s.lists[b], b)[k] + LIST
    requires g.heads + LIST * r.Buckets() <= g.base
    ensures !LiveByte(g, r, s.st, a) && !Outside(g, r, a)
  {
    Member(g, r, s, b, k);
    if 0 < k <= |s.lists[b]| {
      FreeWords(g, r, s, but, s.lists[b][k - 1], a);
    }
  }

  lemma PushIntact(g: Layout, r: Range, s: State, but: int, b: nat, q: seq<nat>, i: nat, w: seq<nat>)
    requires Core(r, s) && Below(r.maxLog2, s.st, s.max, but) && s.limit <= b < r.Buckets() && Fits(g, r, |w|)
    requires s.lists[b] == q + [i] && ListLinked(g, r, q, b, w) && NodeAddr(g, r, i) + LIST <= |w|
    ensures HeadAt(g, b) + LIST <= |w| && w[HeadAt(g, b)] + LIST <= |w|
    ensures Intact(g, r, s.st, w, LinkPush(w, HeadAt(g, b), NodeAddr(g, r, i)))
  {
    BucketSpread(g, r, s, b);
    PushBounds(g, r, w, q, b, i);
    var h, e := HeadAt(g, b), NodeAddr(g, r, i);
    var w' := LinkPush(w, h, e);
    forall a | 0 <= a < |w| && w'[a] != w[a]
      ensures !LiveByte(g, r, s.st, a) && !Outside(g, r, a)
    {
      RingWords(g, r, s, but, b, if a == h then 0 else if a == w[h] + 4 then |q| else |q| + 1, a);
    }
  }

  lemma RemoveIntact(g: Layout, r: Range, s: State, but: int, b: nat, k: nat, w: seq<nat>)
    requires Core(r, s) && Below(r.maxLog2, s.st, s.max, but) && s.limit <= b < r.Buckets() && Fits(g, r, |w|)
    requires k < |s.lists[b]| && ListsLinked(g, r, s.lists, s.limit, w)
    ensures var e := NodeAddr(g, r, s.lists[b][k]);
            && e + LIST <= |w| && w[e] + LIST <= |w| && w[e + 4] + LIST <= |w| && Sep(w[e], e)
            && Intact(g, r, s.st, w, LinkRemove(w, e))
  {
    var e := NodeAddr(g, r, s.lists[b][k]);
    BucketSpread(g, r, s, b);
    assert ListLinked(g, r, s.lists[b], b, w);
    RemoveLinked(w, HeadAt(g, b), Addrs(g, r, s.lists[b]), k);
    var w' := LinkRemove(w, e);
    forall a | 0 <= a < |w| && w'[a] != w[a]
      ensures !LiveByte(g, r, s.st, a) && !Outside(g, r, a)
    {
      RingWords(g, r, s, but, b, if a == w[e] + 4 then k else k + 2, a);
    }
  }

  lemma InitIntact(g: Layout, r: Range, st: seq<Status>, b: nat, w: seq<nat>)
    requires r.Good() && b < r.Buckets() && Fits(g, r, |w|)
    ensures HeadAt(g, b) + LIST <= |w|
    ensures Intact(g, r, st, w, LinkInit(w, HeadAt(g, b)))
  {
  }
}
