/** Where things lie in a branch's bytes, and what the packed forms of bits and strings say of them. */
module XtpLayout {
  import opened Arith
  import opened Bytes
  import opened XtpTree

  // Bits

  lemma SetBitBits(b: Byte, j: nat, i: nat)
    requires j < 8 && i < 8
    ensures SetBit(b, j) / Pow2(i) % 2 == if i == j then 1 else b / Pow2(i) % 2
  {
    Powers();
    if b / Pow2(j) % 2 == 0 {
      SetBitFits(b, j);
      BitAdded(b, j, i);
    }
  }

  /** Adding a power of two whose bit is clear sets that bit and no other. */
  lemma BitAdded(b: nat, j: nat, i: nat)
    requires b / Pow2(j) % 2 == 0
    ensures (b + Pow2(j)) / Pow2(i) % 2 == if i == j then 1 else b / Pow2(i) % 2
  {
    if i < j {
      LowBits(b, j, i);
    } else if i > j {
      HighBits(b, j, i);
    } else {
      AddOne(b, Pow2(j));
    }
  }

  lemma AddOne(b: nat, p: nat)
    requires p > 0
    ensures (b + p) / p == b / p + 1
  {
    MulAdd(b / p, 1, p);
    DivUnique(b + p, b / p + 1, b % p, p);
  }

  lemma LowBits(b: nat, j: nat, i: nat)
    requires i < j
    ensures (b + Pow2(j)) / Pow2(i) % 2 == b / Pow2(i) % 2
  {
    hide Pow2;
    var d := j - i - 1;
    Pow2Add(d + 1, i);
    PowNext(d);
    AddEven(b, Pow2(d + 1), Pow2(i), Pow2(j));
  }

  lemma AddEven(b: nat, y: nat, p: nat, z: nat)
    requires p > 0 && y % 2 == 0 && z == y * p
    ensures (b + z) / p % 2 == b / p % 2
  {
    AddMany(b, y, p);
    EvenMore(b / p, y);
  }

  lemma EvenMore(x: nat, y: nat)
    requires y % 2 == 0
    ensures (x + y) % 2 == x % 2
  {
  }

  lemma AddMany(b: nat, m: nat, p: nat)
    requires p > 0
    ensures (b + m * p) / p == b / p + m
  {
    MulAdd(b / p, m, p);
    DivUnique(b + m * p, b / p + m, b % p, p);
  }

  lemma {:induction false} PowNext(d: nat)
    ensures Pow2(d + 1) == 2 * Pow2(d) && Pow2(d + 1) % 2 == 0
  {
    var p := Pow2(d);
    assert Pow2(d + 1) == 2 * p;
    DivUnique(2 * p, p, 0, 2);
  }

  lemma HighBits(b: nat, j: nat, i: nat)
    requires b / Pow2(j) % 2 == 0 && i > j
    ensures (b + Pow2(j)) / Pow2(i) == b / Pow2(i)
  {
    hide Pow2;
    var p, e := Pow2(j), Pow2(i - j - 1);
    Pow2Add(i - j - 1, j + 1);
    PowNext(j);
    var h, low := b / p / 2, b % p;
    Halved(b, p);
    DivUnique(b, h, low, 2 * p);
    DivUnique(b + p, h, low + p, 2 * p);
    DivDiv(b, 2 * p, e);
    DivDiv(b + p, 2 * p, e);
  }

  lemma Halved(b: nat, p: nat)
    requires p > 0 && b / p % 2 == 0
    ensures b == b / p / 2 * (2 * p) + b % p
  {
    var h := b / p / 2;
    assert b / p == 2 * h;
    MulAssoc(h, 2, p);
    assert b == (2 * h) * p + b % p;
  }

  lemma DivDiv(b: nat, x: nat, e: nat)
    requires x > 0 && e > 0
    ensures e * x > 0 && b / (e * x) == b / x / e
  {
    var q := b / x;
    var n, r := q / e, q % e;
    MulAssoc(n, e, x);
    MulAdd(n * e, r, x);
    MulAdd(r, 1, x);
    MulMonotone(r + 1, e, x);
    DivUnique(b, n, r * x + b % x, e * x);
  }

  /** What is packed is what is read: bit by bit, and zero past the last. */
  lemma {:induction false} PackedBits(bits: seq<bool>, n: nat, i: nat)
    requires n <= |bits| && i / 8 < (|bits| + 7) / 8
    ensures Bit(Packed(bits, n), i) <==> i < n && bits[i]
  {
    Powers();
    if n > 0 {
      PackedBits(bits, n - 1, i);
      var s := Packed(bits, n - 1);
      if i / 8 == (n - 1) / 8 {
        SetBitBits(s[i / 8], (n - 1) % 8, i % 8);
      }
    } else {
      assert Zeros((|bits| + 7) / 8)[i / 8] == 0;
    }
  }

  // Strings

  lemma {:induction false} BlobGrows(items: seq<seq<Byte>>, j: nat, k: nat)
    requires j <= k <= |items|
    ensures |Blob(items, j)| <= |Blob(items, k)| && Blob(items, k)[..|Blob(items, j)|] == Blob(items, j)
  {
    if j < k {
      BlobGrows(items, j, k - 1);
      assert Blob(items, k)[..|Blob(items, j)|] == Blob(items, k - 1)[..|Blob(items, j)|];
    }
  }

  lemma BlobPart(items: seq<seq<Byte>>, k: nat)
    requires k < |items|
    ensures |Blob(items, k)| <= |Blob(items, k + 1)| <= |Blob(items, |items|)|
    ensures Blob(items, |items|)[|Blob(items, k)|..|Blob(items, k + 1)|] == items[k]
  {
    var all := Blob(items, |items|);
    BlobGrows(items, k + 1, |items|);
    assert all[|Blob(items, k)|..|Blob(items, k + 1)|] == all[..|Blob(items, k + 1)|][|Blob(items, k)|..];
  }

  /** The offset a lane holds at place `k`, the first of all at 0. */
  lemma {:induction false} LaneAt(items: seq<seq<Byte>>, n: nat, k: nat)
    requires k <= n <= |items| && |Blob(items, |items|)| < U32
    ensures |Blob(items, k)| < U32
    ensures Load4(Le4(0) + Lane(items, n), 4 * k) == |Blob(items, k)|
  {
    hide Le4, Load4, Blob, Lane;
    BlobGrows(items, k, |items|);
    var lane := Le4(0) + Lane(items, n);
    LaneNext(items, n);
    if k < n {
      LaneAt(items, n - 1, k);
      var less := Le4(0) + Lane(items, n - 1);
      assert lane == less + Le4(|Blob(items, n)|);
      assert lane[4 * k..4 * k + 4] == less[4 * k..4 * k + 4];
      SameLoad(lane, less, 4 * k);
    } else {
      assert lane[4 * k..4 * k + 4] == Le4(|Blob(items, k)|);
      LoadStored(lane, 4 * k, |Blob(items, k)|);
    }
  }

  lemma {:induction false} LaneNext(items: seq<seq<Byte>>, n: nat)
    requires n <= |items|
    ensures n == 0 ==> Lane(items, n) == [] && |Blob(items, n)| == 0
    ensures n > 0 ==> Lane(items, n) == Lane(items, n - 1) + Le4(|Blob(items, n)|)
  {
    hide Le4;
  }

  lemma SameLoad(p: seq<Byte>, q: seq<Byte>, off: nat)
    requires off + 4 <= |p| && off + 4 <= |q| && p[off..off + 4] == q[off..off + 4]
    ensures Load4(p, off) == Load4(q, off)
  {
    var s, t := p[off..off + 4], q[off..off + 4];
    assert s[0] == p[off] && s[1] == p[off + 1] && s[2] == p[off + 2] && s[3] == p[off + 3];
    assert t[0] == q[off] && t[1] == q[off + 1] && t[2] == q[off + 2] && t[3] == q[off + 3];
  }

  // Children

  lemma {:induction false} KidsGrow(kids: seq<Tree>, j: nat, k: nat)
    requires j <= k <= |kids|
    ensures |Kids(kids, j)| <= |Kids(kids, k)| && Kids(kids, k)[..|Kids(kids, j)|] == Kids(kids, j)
  {
    if j < k {
      KidsGrow(kids, j, k - 1);
      assert Kids(kids, k)[..|Kids(kids, j)|] == Kids(kids, k - 1)[..|Kids(kids, j)|];
    }
  }

  /** A child's bytes, where its entry says. */
  lemma KidBytes(kids: seq<Tree>, k: nat)
    requires k < |kids| && Body(kids[k]) != []
    ensures var at := KidAt(kids, k) - TableSz(|kids|);
            && at + |Body(kids[k])| == |Kids(kids, k + 1)| <= |Kids(kids, |kids|)|
            && Kids(kids, |kids|)[at..at + |Body(kids[k])|] == Body(kids[k])
  {
    hide Body;
    KidsGrow(kids, k + 1, |kids|);
    var at, all, some := KidAt(kids, k) - TableSz(|kids|), Kids(kids, |kids|), Kids(kids, k + 1);
    KidLast(kids, k);
    Middle(all, |some|, at);
  }

  lemma KidLast(kids: seq<Tree>, k: nat)
    requires k < |kids| && Body(kids[k]) != []
    ensures var at := KidAt(kids, k) - TableSz(|kids|);
            at + |Body(kids[k])| == |Kids(kids, k + 1)| && Kids(kids, k + 1)[at..] == Body(kids[k])
  {
    hide Body;
  }

  lemma Middle(s: seq<Byte>, n: nat, at: nat)
    requires at <= n <= |s|
    ensures s[at..n] == s[..n][at..]
  {
  }

  function EntryOf(kids: seq<Tree>, k: nat): (off: nat)
    requires k < |kids|
  {
    if Body(kids[k]) == [] then 0 else KidAt(kids, k)
  }

  lemma {:induction false} EntryBytes(kids: seq<Tree>, n: nat, k: nat)
    requires k < n <= |kids|
    ensures Entries(kids, n)[WORD * k..WORD * k + WORD] == Slot(EntryOf(kids, k), TypeOf(kids[k]))
  {
    hide Body, KidAt, Entries, Slot, TypeOf, EntryOf;
    EntriesNext(kids, n);
    var less, last := Entries(kids, n - 1), Slot(EntryOf(kids, n - 1), TypeOf(kids[n - 1]));
    if k + 1 < n {
      EntryBytes(kids, n - 1, k);
      assert (less + last)[WORD * k..WORD * k + WORD] == less[WORD * k..WORD * k + WORD];
    } else {
      assert (less + last)[WORD * k..WORD * k + WORD] == last;
    }
  }

  lemma {:induction false} EntriesNext(kids: seq<Tree>, n: nat)
    requires 0 < n <= |kids|
    ensures Entries(kids, n) == Entries(kids, n - 1) + Slot(EntryOf(kids, n - 1), TypeOf(kids[n - 1]))
  {
    hide Body, KidAt, Slot, TypeOf;
  }

  /** A branch's bytes: its length, its entries, its children. */
  lemma BranchParts(kids: seq<Tree>)
    ensures var s, n, all := Body(Branch(kids)), |kids|, Kids(kids, |kids|);
            && |s| >= TableSz(n) + |all| && |s| % WORD == 0
            && s[..WORD] == Slot(n, 0) && s[WORD..TableSz(n)] == Entries(kids, n)
            && s[TableSz(n)..TableSz(n) + |all|] == all
  {
    var n, all := |kids|, Kids(kids, |kids|);
    var whole := Slot(n, 0) + Entries(kids, n) + all;
    var s := Body(Branch(kids));
    assert s[..|whole|] == whole;
    assert s[..WORD] == whole[..WORD] && s[WORD..TableSz(n)] == whole[WORD..TableSz(n)];
    assert s[TableSz(n)..TableSz(n) + |all|] == whole[TableSz(n)..];
  }

  /** Only a null or an empty graft has no bytes. */
  lemma Present(t: Tree)
    requires Typed(t) && !t.Graft?
    ensures Body(t) == [] <==> t.Null?
  {
  }
}
