/** What is written is what is read: any tree's packet gives back its nodes, their types and values in order. */
module XtpRoundTrip {
  import opened Arith
  import opened Bytes
  import opened XtpTree
  import opened XtpReader
  import opened XtpLayout
  import Utf8

  /** A tree as its reader sees it. The reader checks that strings are UTF-8, and the writer does not. */
  ghost predicate Readable(t: Tree)
    decreases t
  {
    Typed(t)
    && match t
       case Str(s) => Utf8.Text(s)
       case Strs(items) => forall k :: 0 <= k < |items| ==> Utf8.Text(items[k])
       case Branch(kids) => forall k :: 0 <= k < |kids| ==> Readable(kids[k])
       case Graft(_) => false
       case _ => true
  }

  ghost function DeepOf(t: Tree): Deep
    requires Readable(t)
    decreases t
  {
    match t
    case Null(ty) => Leaf(ty, VNull)
    case Scalar(ty, b) => Leaf(ty, if ty == BOOLEAN then VBool(b[0] != 0) else VNumber(ty, b))
    case Array(ty, b) => Leaf(ty, VArray(ty, b))
    case Bitset(bits) => Leaf(BITSET, VBitset(Packed(bits, |bits|), |bits|))
    case Str(s) => Leaf(STR, VStr(s))
    case Strs(items) => Leaf(STRS, VStrs(Le4(0) + Lane(items, |items|), Blob(items, |items|), |items|))
    case Branch(kids) => List(DeepsOf(kids, 0))
  }

  ghost function DeepsOf(kids: seq<Tree>, k: nat): (ds: seq<Deep>)
    requires k <= |kids| && forall j :: 0 <= j < |kids| ==> Readable(kids[j])
    ensures |ds| == |kids| - k
    ensures forall j :: k <= j < |kids| ==> ds[j - k] == DeepOf(kids[j])
    decreases kids, |kids| - k
  {
    if k == |kids| then [] else [DeepOf(kids[k])] + DeepsOf(kids, k + 1)
  }

  /** A bit set reads as its bits. */
  lemma BitsRead(bits: seq<bool>, i: nat)
    requires Readable(Bitset(bits)) && i < |bits|
    ensures BitAt(DeepOf(Bitset(bits)).v, i) == bits[i]
  {
    PackedBits(bits, |bits|, i);
  }

  /** A string sequence reads as its strings. */
  lemma StringsRead(items: seq<seq<Byte>>, i: nat)
    requires Readable(Strs(items)) && i < |items| && |Blob(items, |items|)| < U32
    ensures var v := DeepOf(Strs(items)).v;
            && Load4(v.offs, 4 * i) <= Load4(v.offs, 4 * (i + 1)) <= |v.blob|
            && StrsAt(v, i) == items[i]
  {
    LaneAt(items, |items|, i);
    LaneAt(items, |items|, i + 1);
    BlobPart(items, i);
  }

  // A node's bytes in a packet

  /** Bytes `s` lie at `base` of the packet, within the extent. */
  predicate Placed(pkt: seq<Byte>, end: nat, base: nat, s: seq<Byte>) {
    base + |s| <= end <= |pkt| && pkt[base..base + |s|] == s
  }

  lemma PlacedPart(pkt: seq<Byte>, end: nat, base: nat, s: seq<Byte>, i: nat, j: nat)
    requires Placed(pkt, end, base, s) && i <= j <= |s|
    ensures Placed(pkt, end, base + i, s[i..j])
  {
    forall k | i <= k < j
      ensures pkt[base + k] == s[k]
    {
      assert pkt[base..base + |s|][k] == s[k];
    }
    assert pkt[base + i..base + j] == s[i..j];
  }

  lemma PlacedIn(pkt: seq<Byte>, end: nat, end': nat, base: nat, s: seq<Byte>, i: nat, b: seq<Byte>)
    requires Placed(pkt, end, base, s) && i + |b| <= |s| && s[i..i + |b|] == b && base + i + |b| <= end' <= end
    ensures Placed(pkt, end', base + i, b)
  {
    PlacedPart(pkt, end, base, s, i, i + |b|);
  }

  /** A sequence's length slot, read. */
  lemma SlotPlaced(pkt: seq<Byte>, end: nat, base: nat, n: nat, rest: seq<Byte>)
    requires Placed(pkt, end, base, Slot(n, 0) + rest) && n < U32
    ensures base + WORD <= end && GetLen(pkt, base) == Ok(n)
    ensures Placed(pkt, end, base + WORD, rest)
  {
    var s := Slot(n, 0) + rest;
    PlacedPart(pkt, end, base, s, 0, WORD);
    PlacedPart(pkt, end, base, s, WORD, |s|);
    assert s[..WORD] == Slot(n, 0) && s[WORD..] == rest;
    SlotRead(pkt, base, n, 0);
  }

  lemma PaddedPlaced(pkt: seq<Byte>, end: nat, base: nat, s: seq<Byte>)
    requires Placed(pkt, end, base, Padded(s))
    ensures Placed(pkt, end, base, s)
  {
    PlacedPart(pkt, end, base, Padded(s), 0, |s|);
  }

  /** A node of a leaf's type is read as it is. */
  lemma LeafAt(pkt: seq<Byte>, end: nat, base: nat, t: Byte)
    requires end <= |pkt| <= MAX_PKT && 0 < base && Known(t) && t != NIL && t != BRANCH
    requires base % AlignSz(t).value == 0
    ensures At(pkt, end, base, t) == Ok(Cursor(pkt, end, base, t, 0))
  {
  }

  /** A leaf's cursor, and how it is read. */
  lemma LeafRead(c: Cursor)
    requires c.Sound() && c.base > 0 && Known(c.t) && c.t != NIL && c.t != BRANCH
    ensures IsScalar(c.t) ==> Get(c) == match GetScalar(c, AlignSz(c.t).value)
                                         case Err(e) => Err(e)
                                         case Ok(b) => Ok(if c.t == BOOLEAN then VBool(b[0] != 0) else VNumber(c.t, b))
    ensures IsArray(c.t) ==> Get(c) == GetArray(c)
    ensures c.t == BITSET ==> Get(c) == GetBitset(c)
    ensures c.t == STR ==> Get(c) == GetStr(c)
    ensures c.t == STRS ==> Get(c) == GetStrs(c)
    ensures GetDeep(c) == match Get(c) case Err(e) => Err(e) case Ok(v) => Ok(Leaf(c.t, v))
  {
  }

  lemma ReadScalar(c: Cursor, t: Tree)
    requires t.Scalar? && Readable(t) && c.Sound() && c.base > 0 && c.t == TypeOf(t)
    requires Placed(c.pkt, c.end, c.base, Body(t))
    ensures Get(c) == Ok(DeepOf(t).v)
  {
    hide Get, Known;
    LeafTyped(t);
    LeafRead(c);
  }

  lemma ReadArray(c: Cursor, t: Tree)
    requires t.Array? && Readable(t) && c.Sound() && c.base > 0 && c.t == TypeOf(t)
    requires Placed(c.pkt, c.end, c.base, Body(t))
    ensures Get(c) == Ok(DeepOf(t).v)
  {
    hide Get, Known, Padded, GetLen, ElemSz, Readable, Placed;
    var len, z := |t.bytes| / ElemSz(t.t), ElemSz(t.t);
    LeafTyped(t);
    LeafRead(c);
    WholeElements(t);
    SlotPlaced(c.pkt, c.end, c.base, len, Padded(t.bytes));
    PaddedPlaced(c.pkt, c.end, c.base + WORD, t.bytes);
    PlacedView(c.pkt, c.end, c.base + WORD, t.bytes);
  }

  lemma WholeElements(t: Tree)
    requires t.Array? && Readable(t)
    ensures var len, z := |t.bytes| / ElemSz(t.t), ElemSz(t.t); len * z == |t.bytes| && len < U32 && IsArray(t.t)
  {
    hide ElemSz;
    var len, z := |t.bytes| / ElemSz(t.t), ElemSz(t.t);
    assert |t.bytes| == len * z;
    MulMonotone(1, z, len);
  }

  lemma PlacedView(pkt: seq<Byte>, end: nat, base: nat, s: seq<Byte>)
    requires Placed(pkt, end, base, s)
    ensures base + |s| <= end <= |pkt| && View(pkt, end, base, |s|) == s
  {
  }

  lemma ReadBitset(c: Cursor, t: Tree)
    requires t.Bitset? && Readable(t) && c.Sound() && c.base > 0 && c.t == TypeOf(t)
    requires Placed(c.pkt, c.end, c.base, Body(t))
    ensures Get(c) == Ok(DeepOf(t).v)
  {
    hide Get, Known, Padded, GetLen, Packed, Placed;
    var p := Packed(t.bits, |t.bits|);
    LeafTyped(t);
    LeafRead(c);
    SlotPlaced(c.pkt, c.end, c.base, |t.bits|, Padded(p));
    PaddedPlaced(c.pkt, c.end, c.base + WORD, p);
    PlacedView(c.pkt, c.end, c.base + WORD, p);
  }

  lemma ReadStr(c: Cursor, t: Tree)
    requires t.Str? && Readable(t) && c.Sound() && c.base > 0 && c.t == TypeOf(t)
    requires Placed(c.pkt, c.end, c.base, Body(t))
    ensures Get(c) == Ok(DeepOf(t).v)
  {
    hide Get, Known, Padded, GetLen, Placed;
    var s := t.s + [0];
    LeafTyped(t);
    LeafRead(c);
    SlotPlaced(c.pkt, c.end, c.base, |t.s|, Padded(s));
    PaddedPlaced(c.pkt, c.end, c.base + WORD, s);
    TwoParts(c.pkt, c.end, c.base + WORD, t.s, [0]);
  }

  lemma TwoParts(pkt: seq<Byte>, end: nat, base: nat, a: seq<Byte>, b: seq<Byte>)
    requires Placed(pkt, end, base, a + b)
    ensures base + |a| + |b| <= end <= |pkt|
    ensures View(pkt, end, base, |a|) == a && View(pkt, end, base + |a|, |b|) == b
  {
    var s := a + b;
    PlacedPart(pkt, end, base, s, 0, |a|);
    PlacedPart(pkt, end, base, s, |a|, |s|);
    assert s[..|a|] == a && s[|a|..] == b;
  }

  lemma ReadStrs(c: Cursor, t: Tree)
    requires t.Strs? && Readable(t) && c.Sound() && c.base > 0 && c.t == TypeOf(t)
    requires Placed(c.pkt, c.end, c.base, Body(t))
    ensures Get(c) == Ok(DeepOf(t).v)
  {
    hide Get, Known, Padded, GetLen, Placed, Lane, Blob, StrsFrom, Load4, Le4;
    var items, n := t.items, |t.items|;
    var offs, blob := Le4(0) + Lane(items, n), Blob(items, n);
    LeafTyped(t);
    LeafRead(c);
    SlotPlaced(c.pkt, c.end, c.base, n, Padded(offs + blob));
    PaddedPlaced(c.pkt, c.end, c.base + WORD, offs + blob);
    TwoParts(c.pkt, c.end, c.base + WORD, offs, blob);
    LaneAt(items, n, n);
    StrsChecked(t, 0);
  }

  lemma {:induction false} StrsChecked(t: Tree, i: nat)
    requires t.Strs? && Readable(t) && i <= |t.items| && |Blob(t.items, |t.items|)| < U32
    ensures StrsFrom(Le4(0) + Lane(t.items, |t.items|), Blob(t.items, |t.items|), |t.items|, i)
    decreases |t.items| - i
  {
    if i < |t.items| {
      StringsRead(t.items, i);
      StrsChecked(t, i + 1);
    }
  }

  // Branches

  /** A branch's cursor over the branch's bytes. */
  ghost predicate BranchAt(c: Cursor, kids: seq<Tree>) {
    && c.Sound() && c.IsBranch() && c.len == |kids| && c.base % WORD == 0 && c.base >= HDR
    && (forall k :: 0 <= k < |kids| ==> Readable(kids[k]))
    && Placed(c.pkt, c.end, c.base, Body(Branch(kids)))
  }

  /** The entry of child `k`, read. */
  lemma EntryRead(c: Cursor, kids: seq<Tree>, k: nat)
    requires BranchAt(c, kids) && k < |kids|
    ensures EntryOff(c, k) == EntryOf(kids, k)
    ensures GetDesc(c.pkt, c.base + WORD + k * WORD) == Ok(Desc(EntryOf(kids, k), TypeOf(kids[k])))
    ensures EntryOf(kids, k) == 0 <==> kids[k].Null?
  {
    hide Body, Entries, Kids, Load4, Slot, Le4, KidAt, Padded, Known;
    EntryPlaced(c, kids, k);
    Present(kids[k]);
    EntrySmall(c, kids, k);
    SlotRead(c.pkt, c.base + WORD + k * WORD, EntryOf(kids, k), TypeOf(kids[k]));
    KidTyped(kids[k]);
  }

  lemma KidTyped(t: Tree)
    requires Readable(t)
    ensures Known(TypeOf(t)) && Typed(t) && !t.Graft?
  {
  }

  lemma EntryPlaced(c: Cursor, kids: seq<Tree>, k: nat)
    requires BranchAt(c, kids) && k < |kids|
    ensures c.base + WORD + k * WORD + WORD <= |c.pkt|
    ensures c.pkt[c.base + WORD + k * WORD..c.base + WORD + k * WORD + WORD] == Slot(EntryOf(kids, k), TypeOf(kids[k]))
  {
    hide Body, Entries, Kids, Slot, Padded, Readable;
    BranchParts(kids);
    EntryBytes(kids, |kids|, k);
    var s, at, e := Body(Branch(kids)), WORD + k * WORD, Entries(kids, |kids|);
    PlacedPart(c.pkt, c.end, c.base, s, at, at + WORD);
    Nested(s, WORD, e, WORD * k, WORD * k + WORD);
  }

  lemma EntrySmall(c: Cursor, kids: seq<Tree>, k: nat)
    requires BranchAt(c, kids) && k < |kids|
    ensures EntryOf(kids, k) < U32
    ensures Body(kids[k]) != [] ==> KidAt(kids, k) + |Body(kids[k])| <= TableSz(|kids|) + |Kids(kids, k + 1)| <= c.end - c.base
  {
    BranchParts(kids);
    if Body(kids[k]) != [] {
      KidBytes(kids, k);
    }
  }

  /** The extent before child `k` ends past all the children before it. */
  lemma {:induction false} EndPast(c: Cursor, kids: seq<Tree>, k: nat)
    requires BranchAt(c, kids) && k <= |kids|
    ensures EndFrom(c, k) >= c.base + TableSz(|kids|) + |Kids(kids, k)|
    decreases |kids| - k
  {
    hide Body, Entries, KidAt, Padded, Slot, Readable;
    BranchParts(kids);
    if k < |kids| {
      EndPast(c, kids, k + 1);
      EntryRead(c, kids, k);
      KidsGrow(kids, k, |kids|);
      KidAfter(kids, k);
    }
  }

  lemma KidAfter(kids: seq<Tree>, k: nat)
    requires k < |kids|
    ensures KidAt(kids, k) >= TableSz(|kids|) + |Kids(kids, k)|
    ensures Body(kids[k]) == [] ==> Kids(kids, k + 1) == Kids(kids, k)
  {
  }

  /** Child `k`'s place and extent. */
  lemma {:induction false} KidPlaced(c: Cursor, kids: seq<Tree>, k: nat)
    requires BranchAt(c, kids) && k < |kids| && !kids[k].Null?
    ensures var base, end := c.base + KidAt(kids, k), EndFrom(c, k + 1);
            && Placed(c.pkt, end, base, Body(kids[k])) && Body(kids[k]) != []
            && base % Unit(kids[k]) == 0 && base > HDR
            && ChildAt(c, k) == At(c.pkt, end, base, TypeOf(kids[k]))
  {
    hide Body, Entries, Kids, KidAt, Padded, Slot, Readable, EndFrom, At, AlignSz, TypeOf, GetDesc, Placed;
    var t, at := kids[k], KidAt(kids, k);
    KidTyped(t);
    KidAtUnit(kids, k);
    EntryRead(c, kids, k);
    Present(t);
    EndPast(c, kids, k + 1);
    KidBytes(kids, k);
    EntrySmall(c, kids, k);
    KidInBody(kids, k);
    PlacedIn(c.pkt, c.end, EndFrom(c, k + 1), c.base, Body(Branch(kids)), at, Body(t));
    BothMultiples(c.base, at, Unit(t));
    ChildRead(c, k, Desc(at, TypeOf(t)));
  }

  lemma KidInBody(kids: seq<Tree>, k: nat)
    requires k < |kids| && Body(kids[k]) != []
    ensures var s, at := Body(Branch(kids)), KidAt(kids, k);
            at + |Body(kids[k])| <= |s| && s[at..at + |Body(kids[k])|] == Body(kids[k])
  {
    hide Body, Entries, Kids, KidAt, Padded, Slot;
    BranchParts(kids);
    KidBytes(kids, k);
    var s, all, from := Body(Branch(kids)), Kids(kids, |kids|), KidAt(kids, k) - TableSz(|kids|);
    Nested(s, TableSz(|kids|), all, from, from + |Body(kids[k])|);
  }

  /** A child's entry followed. */
  lemma ChildRead(c: Cursor, k: nat, d: Desc)
    requires c.Sound() && c.IsBranch() && k < c.len && GetDesc(c.pkt, c.base + WORD + k * WORD) == Ok(d)
    requires d.off >= TableSz(c.len) && c.base + d.off < EndFrom(c, k + 1)
    ensures ChildAt(c, k) == At(c.pkt, EndFrom(c, k + 1), c.base + d.off, d.t)
  {
  }

  lemma KidAtUnit(kids: seq<Tree>, k: nat)
    requires k < |kids|
    ensures KidAt(kids, k) % Unit(kids[k]) == 0
  {
  }

  lemma Nested(s: seq<Byte>, n: nat, all: seq<Byte>, i: nat, j: nat)
    requires n + |all| <= |s| && s[n..n + |all|] == all && i <= j <= |all|
    ensures s[n + i..n + j] == all[i..j]
  {
    forall k | i <= k < j
      ensures s[n + k] == all[k]
    {
      assert s[n..n + |all|][k] == all[k];
    }
    assert s[n + i..n + j] == all[i..j];
  }

  lemma BothMultiples(a: nat, b: nat, u: nat)
    requires a % WORD == 0 && (u == 1 || u == 2 || u == 4 || u == 8) && b % u == 0
    ensures (a + b) % u == 0
  {
  }

  /** Any node but a null, read where it is placed. */
  lemma {:induction false} ReadNode(pkt: seq<Byte>, end: nat, base: nat, t: Tree)
    requires Readable(t) && !t.Null? && |pkt| <= MAX_PKT && base >= HDR && base % Unit(t) == 0
    requires Placed(pkt, end, base, Body(t))
    ensures At(pkt, end, base, TypeOf(t)).Ok?
    ensures GetDeep(At(pkt, end, base, TypeOf(t)).value) == Ok(DeepOf(t))
    decreases t, 1, 0
  {
    if t.Branch? {
      BranchHead(pkt, end, base, t.kids);
      ReadKids(At(pkt, end, base, BRANCH).value, t.kids, 0);
    } else {
      ReadLeaf(pkt, end, base, t);
    }
  }

  lemma ReadLeaf(pkt: seq<Byte>, end: nat, base: nat, t: Tree)
    requires Readable(t) && !t.Null? && !t.Branch? && |pkt| <= MAX_PKT && base >= HDR && base % Unit(t) == 0
    requires Placed(pkt, end, base, Body(t))
    ensures At(pkt, end, base, TypeOf(t)).Ok?
    ensures GetDeep(At(pkt, end, base, TypeOf(t)).value) == Ok(DeepOf(t))
  {
    hide GetDeep, DeepOf, Body, Get;
    LeafTyped(t);
    LeafAt(pkt, end, base, TypeOf(t));
    var c := Cursor(pkt, end, base, TypeOf(t), 0);
    LeafRead(c);
    LeafDeep(t);
    match t
    case Scalar(_, _) => ReadScalar(c, t);
    case Array(_, _) => ReadArray(c, t);
    case Bitset(_) => ReadBitset(c, t);
    case Str(_) => ReadStr(c, t);
    case Strs(_) => ReadStrs(c, t);
  }

  lemma LeafDeep(t: Tree)
    requires Readable(t) && !t.Null? && !t.Branch?
    ensures DeepOf(t).Leaf? && DeepOf(t).t == TypeOf(t)
  {
  }

  lemma LeafTyped(t: Tree)
    requires Readable(t) && !t.Null? && !t.Branch?
    ensures Known(TypeOf(t)) && TypeOf(t) != NIL && TypeOf(t) != BRANCH && Unit(t) == AlignSz(TypeOf(t)).value
  {
  }

  lemma BranchHead(pkt: seq<Byte>, end: nat, base: nat, kids: seq<Tree>)
    requires Readable(Branch(kids)) && |pkt| <= MAX_PKT && base >= HDR && base % WORD == 0
    requires Placed(pkt, end, base, Body(Branch(kids)))
    ensures At(pkt, end, base, BRANCH) == Ok(Cursor(pkt, end, base, BRANCH, |kids|))
    ensures BranchAt(Cursor(pkt, end, base, BRANCH, |kids|), kids)
  {
    BranchParts(kids);
    var s := Body(Branch(kids));
    PlacedPart(pkt, end, base, s, 0, WORD);
    SlotRead(pkt, base, |kids|, 0);
  }

  lemma {:induction false} ReadKids(c: Cursor, kids: seq<Tree>, k: nat)
    requires BranchAt(c, kids) && k <= |kids|
    ensures GetKids(c, k) == Ok(DeepsOf(kids, k))
    decreases kids, 0, |kids| - k
  {
    hide Body, Kids, KidAt, Entries, ChildAt, GetDeep, DeepOf, Readable;
    if k < |kids| {
      ReadKids(c, kids, k + 1);
      ReadKid(c, kids, k);
    }
  }

  lemma {:induction false} ReadKid(c: Cursor, kids: seq<Tree>, k: nat)
    requires BranchAt(c, kids) && k < |kids|
    ensures ChildAt(c, k).Ok? && GetDeep(ChildAt(c, k).value) == Ok(DeepOf(kids[k]))
    decreases kids, 0, 0
  {
    hide Body, Kids, KidAt, Entries, At, EndFrom, GetDesc;
    EntryRead(c, kids, k);
    if !kids[k].Null? {
      KidPlaced(c, kids, k);
      ReadNode(c.pkt, EndFrom(c, k + 1), c.base + KidAt(kids, k), kids[k]);
    }
  }

  /** Any tree's packet, whatever follows it, reads as the tree. */
  lemma RoundTrip(t: Tree, tail: seq<Byte>)
    requires Readable(t) && |Packet(t) + tail| <= MAX_PKT
    ensures Root(Packet(t) + tail).Ok?
    ensures GetDeep(Root(Packet(t) + tail).value) == Ok(DeepOf(t))
  {
    hide Body, GetLen, GetDesc, Packet;
    var pkt := Packet(t) + tail;
    HeaderRead(t, tail);
    Present(t);
    NullBody(t);
    if !t.Null? {
      Present(t);
      ReadNode(pkt, HDR + |Body(t)|, HDR, t);
    }
  }

  lemma NullBody(t: Tree)
    ensures t.Null? ==> Body(t) == [] && TypeOf(t) == t.t
  {
  }

  lemma HeaderRead(t: Tree, tail: seq<Byte>)
    requires Typed(t) && |Packet(t) + tail| <= MAX_PKT
    ensures var pkt := Packet(t) + tail;
            && GetLen(pkt, 0) == Ok(MAGIC) && GetDesc(pkt, WORD) == Ok(Desc(|Body(t)|, TypeOf(t)))
            && HDR + |Body(t)| <= |pkt| && Placed(pkt, HDR + |Body(t)|, HDR, Body(t))
  {
    hide Body;
    var pkt, head := Packet(t) + tail, Slot(MAGIC, 0) + Slot(|Body(t)|, TypeOf(t));
    assert pkt[..HDR] == head && pkt[HDR..HDR + |Body(t)|] == Body(t);
    assert pkt[0..WORD] == head[..WORD] == Slot(MAGIC, 0);
    assert pkt[WORD..HDR] == head[WORD..] == Slot(|Body(t)|, TypeOf(t));
    SlotRead(pkt, 0, MAGIC, 0);
    SlotRead(pkt, WORD, |Body(t)|, TypeOf(t));
    TypedKnown(t);
  }

  lemma TypedKnown(t: Tree)
    requires Typed(t)
    ensures Known(TypeOf(t))
  {
  }
}
