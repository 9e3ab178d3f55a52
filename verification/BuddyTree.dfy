/** The geometry of a buddy tree.

    Nodes are numbered as a linearized binary tree: the root is 0, the children of `i` are `2*i+1` and
    `2*i+2`. A tree of the largest block `Pow2(m)` gives each node an extent, `Off` to `Off + Size`, which
    its two children halve. The formulas the allocator computes addresses with are proved against this
    recursive reading. */
module BuddyTree {

  import opened Arith

  function Parent(i: nat): nat
    requires i > 0
  {
    (i - 1) / 2
  }

  function Sibling(i: nat): nat
    requires i > 0
  {
    if i % 2 == 1 then i + 1 else i - 1
  }

  function Depth(i: nat): nat {
    if i == 0 then 0 else 1 + Depth(Parent(i))
  }

  /** The extent of a node `d` levels down, where the whole tree spans `Pow2(m)`. */
  function Size(m: nat, d: nat): (s: nat)
    ensures s >= 1
  {
    if d <= m then Pow2(m - d) else 1
  }

  function Off(m: nat, i: nat): nat {
    if i == 0 then 0
    else Off(m, Parent(i)) + if i % 2 == 0 then Size(m, Depth(i)) else 0
  }

  /** The first node at depth `d`: a bucket's first node. */
  function First(d: nat): nat {
    Pow2(d) - 1
  }

  lemma {:induction false} DepthBounds(i: nat)
    ensures First(Depth(i)) <= i < First(Depth(i) + 1)
  {
    if i > 0 {
      DepthBounds(Parent(i));
    }
  }

  lemma DepthUnique(i: nat, d: nat)
    requires First(d) <= i < First(d + 1)
    ensures Depth(i) == d
  {
    DepthBounds(i);
    if Depth(i) < d {
      Pow2Monotone(Depth(i) + 1, d);
    } else if d < Depth(i) {
      Pow2Monotone(d + 1, Depth(i));
    }
  }

  lemma DepthBelow(i: nat, cnt: nat)
    requires i < First(cnt)
    ensures Depth(i) < cnt
  {
    DepthBounds(i);
    if cnt <= Depth(i) {
      Pow2Monotone(cnt, Depth(i));
    }
  }

  lemma DepthFirst(d: nat)
    ensures Depth(First(d)) == d
    ensures d > 0 ==> Parent(First(d)) == First(d - 1) && First(d) % 2 == 1
  {
    DepthUnique(First(d), d);
  }

  function Rank(i: nat): nat {
    DepthBounds(i);
    i + 1 - Pow2(Depth(i))
  }

  lemma RankOfChild(i: nat)
    requires i > 0
    ensures Rank(i) == 2 * Rank(Parent(i)) + if i % 2 == 0 then 1 else 0
  {
  }

  /** The address formula `(i + 1 - (1 << b)) << (m - b)` of a node at bucket `b`. */
  lemma {:induction false} OffFormula(m: nat, i: nat)
    requires Depth(i) <= m
    ensures Off(m, i) == Rank(i) * Size(m, Depth(i))
  {
    if i > 0 {
      OffFormula(m, Parent(i));
      RankOfChild(i);
      Doubled(Rank(Parent(i)), Size(m, Depth(i)));
    }
  }

  lemma Aligned(m: nat, i: nat)
    requires Depth(i) <= m
    ensures Off(m, i) % Size(m, Depth(i)) == 0
  {
    OffFormula(m, i);
    DivUnique(Off(m, i), Rank(i), 0, Size(m, Depth(i)));
  }

  lemma {:induction false} WithinTree(m: nat, i: nat)
    requires Depth(i) <= m
    ensures Off(m, i) + Size(m, Depth(i)) <= Pow2(m)
  {
    if i > 0 {
      ChildInside(m, i);
      WithinTree(m, Parent(i));
    }
  }

  lemma Doubled(h: int, s: int)
    ensures h * (2 * s) == (2 * h) * s
    ensures (2 * h + 1) * s == (2 * h) * s + s
  {
  }

  /** The inverse formula `(off >> (m - b)) + (1 << b) - 1`, from any address in the node's extent. */
  lemma NodeFormula(m: nat, i: nat, x: nat)
    requires Depth(i) <= m
    requires Off(m, i) <= x < Off(m, i) + Size(m, Depth(i))
    ensures x / Size(m, Depth(i)) + Pow2(Depth(i)) - 1 == i
  {
    OffFormula(m, i);
    DivUnique(x, Rank(i), x - Off(m, i), Size(m, Depth(i)));
  }

  /** Every multiple of a bucket's size is the address of exactly one node of that bucket. */
  lemma NodeAt(m: nat, d: nat, k: nat) returns (i: nat)
    requires d <= m && k < Pow2(d)
    ensures i == k + First(d) && Depth(i) == d && Off(m, i) == k * Size(m, d)
  {
    i := k + Pow2(d) - 1;
    DepthUnique(i, d);
    OffFormula(m, i);
  }

  predicate Overlap(m: nat, i: nat, j: nat) {
    && Off(m, i) < Off(m, j) + Size(m, Depth(j))
    && Off(m, j) < Off(m, i) + Size(m, Depth(i))
  }

  lemma ChildInside(m: nat, i: nat)
    requires 0 < i && Depth(i) <= m
    ensures Off(m, Parent(i)) <= Off(m, i)
    ensures Off(m, i) + Size(m, Depth(i)) <= Off(m, Parent(i)) + Size(m, Depth(Parent(i)))
  {
  }

  lemma {:induction false} SameDepthDisjoint(m: nat, i: nat, j: nat)
    requires Depth(i) == Depth(j) <= m
    requires i != j
    ensures !Overlap(m, i, j)
  {
    if i > 0 && j > 0 {
      ChildInside(m, i);
      ChildInside(m, j);
      if Parent(i) != Parent(j) {
        SameDepthDisjoint(m, Parent(i), Parent(j));
      }
    }
  }

  /** `a` is `j` or lies above it. */
  predicate Above(a: nat, j: nat) {
    a == j || (j > 0 && Above(a, Parent(j)))
  }

  /** Extents are nested or disjoint: overlapping nodes are on one path to the root. */
  lemma {:induction false} OverlapAbove(m: nat, i: nat, j: nat)
    requires Depth(i) <= Depth(j) <= m
    requires Overlap(m, i, j)
    ensures Above(i, j)
  {
    if Depth(i) == Depth(j) {
      if i != j {
        SameDepthDisjoint(m, i, j);
      }
    } else {
      ChildInside(m, j);
      OverlapAbove(m, i, Parent(j));
    }
  }
}
