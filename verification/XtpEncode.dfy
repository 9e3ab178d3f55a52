/** Encoding a tree: a buffer doubled until the tree fits it. And what grafting is worth: a finished packet placed
    is its tree written. */
module XtpEncode {
  import opened Arith
  import opened Bytes
  import opened XtpTree
  import opened XtpReader
  import opened XtpLayout
  import opened XtpRoundTrip
  import opened XtpPlacing
  import opened XtpWriter
  import opened Prelude

  /** A tree written into one buffer of `cap` bytes. */
  function OnePass(t: Tree, cap: nat): (r: Result<seq<Byte>>) {
    match Refusal(t, HDR, cap)
    case Some(e) => Err(e)
    case None => if |Packet(t)| > cap then Err(EOVERFLOW) else Ok(Packet(t))
  }

  // A larger buffer changes an overflow only

  lemma {:induction false} MoreRoom(t: Tree, lim: nat, cap: nat, cap': nat)
    requires cap <= cap'
    ensures Refusal(t, lim, cap) != Some(EOVERFLOW) ==> Refusal(t, lim, cap') == Refusal(t, lim, cap)
    decreases t
  {
    if t.Branch? {
      hide Body;
      MoreRoomKids(t.kids, RoundUp(lim, WORD), cap, cap', |t.kids|);
    }
  }

  lemma {:induction false} MoreRoomKids(kids: seq<Tree>, base: nat, cap: nat, cap': nat, k: nat)
    requires cap <= cap' && k <= |kids|
    ensures KidsRefusal(kids, base, cap, k) != Some(EOVERFLOW) ==> KidsRefusal(kids, base, cap', k) == KidsRefusal(kids, base, cap, k)
    decreases kids, k
  {
    if k > 0 {
      MoreRoomKids(kids, base, cap, cap', k - 1);
      MoreRoom(kids[k - 1], base + TableSz(|kids|) + |Kids(kids, k - 1)|, cap, cap');
    }
  }

  lemma OnePassStands(t: Tree, cap: nat, cap': nat)
    requires cap <= cap' && OnePass(t, cap) != Err(EOVERFLOW)
    ensures OnePass(t, cap') == OnePass(t, cap)
  {
    MoreRoom(t, HDR, cap, cap');
  }

  // A tree all of whose grafts are packets is refused only for want of room

  predicate Grafted(t: Tree)
    decreases t
  {
    match t
    case Graft(pkt) => GraftDesc(pkt).Ok?
    case Branch(kids) => forall k :: 0 <= k < |kids| ==> Grafted(kids[k])
    case _ => true
  }

  lemma {:induction false} RefusedIffShort(t: Tree, lim: nat, cap: nat)
    requires Typed(t) && Grafted(t)
    ensures Refusal(t, lim, cap) == if Body(t) != [] then NoRoom(lim, Unit(t), |Body(t)|, cap) else None
    decreases t
  {
    if t.Branch? {
      var kids, base := t.kids, RoundUp(lim, WORD);
      BranchParts(kids);
      if base + |Body(t)| <= cap {
        RoomForKids(kids, base, cap, |kids|);
      } else {
        KidsShort(kids, base, cap, |kids|);
      }
      assert Unit(t) == WORD;
    } else if !t.Graft? {
      Present(t);
    }
  }

  lemma {:induction false} RoomForKids(kids: seq<Tree>, base: nat, cap: nat, k: nat)
    requires Typed(Branch(kids)) && Grafted(Branch(kids)) && k <= |kids| && base % WORD == 0
    requires base + TableSz(|kids|) + |Kids(kids, |kids|)| <= cap
    ensures KidsRefusal(kids, base, cap, k) == None
    decreases kids, k
  {
    hide Body, Typed, Grafted;
    if k > 0 {
      RoomForKids(kids, base, cap, k - 1);
      var t := kids[k - 1];
      KidHolds(kids, k - 1);
      RefusedIffShort(t, base + TableSz(|kids|) + |Kids(kids, k - 1)|, cap);
      RoomForKid(kids, base, cap, k - 1);
    }
  }

  lemma KidHolds(kids: seq<Tree>, k: nat)
    requires Typed(Branch(kids)) && Grafted(Branch(kids)) && k < |kids|
    ensures Typed(kids[k]) && Grafted(kids[k])
  {
  }

  /** Where a branch has room for all its children, each has its own. */
  lemma {:induction false} RoomForKid(kids: seq<Tree>, base: nat, cap: nat, k: nat)
    requires k < |kids| && base % WORD == 0 && base + TableSz(|kids|) + |Kids(kids, |kids|)| <= cap
    ensures Body(kids[k]) != [] ==>
              NoRoom(base + TableSz(|kids|) + |Kids(kids, k)|, Unit(kids[k]), |Body(kids[k])|, cap) == None
  {
    hide Body, Kids, KidAt, RoundUp;
    RoundShift(base, TableSz(|kids|) + |Kids(kids, k)|, Unit(kids[k]));
    if Body(kids[k]) != [] {
      KidBytes(kids, k);
      KidAtIs(kids, k);
    }
  }

  lemma {:induction false} KidAtIs(kids: seq<Tree>, k: nat)
    requires k < |kids|
    ensures KidAt(kids, k) == RoundUp(TableSz(|kids|) + |Kids(kids, k)|, Unit(kids[k]))
  {
  }

  lemma {:induction false} KidsShort(kids: seq<Tree>, base: nat, cap: nat, k: nat)
    requires Typed(Branch(kids)) && Grafted(Branch(kids)) && k <= |kids|
    ensures KidsRefusal(kids, base, cap, k) == None || KidsRefusal(kids, base, cap, k) == Some(EOVERFLOW)
    decreases kids, k
  {
    hide Body;
    if k > 0 {
      KidsShort(kids, base, cap, k - 1);
      RefusedIffShort(kids[k - 1], base + TableSz(|kids|) + |Kids(kids, k - 1)|, cap);
    }
  }

  /** Refused exactly when its packet is larger than the cap. */
  lemma OverflowIffLarger(t: Tree, cap: nat)
    requires Typed(t) && Grafted(t)
    ensures OnePass(t, cap) == if |Packet(t)| > cap then Err(EOVERFLOW) else Ok(Packet(t))
  {
    hide Body;
    RefusedIffShort(t, HDR, cap);
    PacketSize(t);
    RoundShift(HDR, 0, Unit(t));
  }

  // As it runs

  method EncodeOnce(t: Tree, cap: nat) returns (r: Result<seq<Byte>>)
    requires Typed(t) && HDR <= cap <= MAX_PKT
    ensures r == OnePass(t, cap)
  {
    hide Refusal, Body, Packet;
    var buf := new Byte[cap](_ => 0);
    var w := new PacketWriter(buf);
    w.Walk(t);
    RootPlaced(t);
    var n := w.Finish(t);
    match n
    case Err(e) => return Err(e);
    case Ok(len) => return Ok(buf[..len]);
  }

  lemma RootPlaced(t: Tree)
    ensures Place(Zeros(HDR), t) == Zeros(HDR) + Body(t)
  {
    hide Body;
    RoundShift(HDR, 0, Unit(t));
  }

  /** A tree's packet, however small the first buffer: what one pass into the largest gives. */
  method Encode(t: Tree, initCap: nat, maxCap: nat) returns (r: Result<seq<Byte>>)
    requires Typed(t)
    ensures r == if maxCap < 16 || maxCap > 0x7fff_ffff then Err(EINVAL) else OnePass(t, maxCap)
  {
    if maxCap < HDR || maxCap > MAX_PKT {
      return Err(EINVAL);
    }
    var least := if initCap < maxCap then initCap else maxCap;
    var cap := if HDR < least then least else HDR;
    while true
      invariant HDR <= cap <= maxCap
      decreases maxCap - cap
    {
      r := EncodeOnce(t, cap);
      if r.Ok? || r.errno != EOVERFLOW || cap == maxCap {
        if cap != maxCap {
          OnePassStands(t, cap, maxCap);
        }
        return r;
      }
      cap := if cap > maxCap / 2 then maxCap else cap * 2;
    }
  }

  // Grafts

  /** A finished packet is a graft of its root. */
  lemma PacketGrafts(t: Tree)
    requires Typed(t) && |Packet(t)| <= MAX_PKT
    ensures GraftDesc(Packet(t)) == Ok(Desc(|Body(t)|, TypeOf(t)))
    ensures Body(Graft(Packet(t))) == Body(t) && TypeOf(Graft(Packet(t))) == TypeOf(t)
  {
    hide Body, GetLen, GetDesc, Packet, AlignSz, TypeOf;
    assert Packet(t) + [] == Packet(t);
    HeaderRead(t, []);
    BodyWhole(t);
    GraftBody(Packet(t));
  }

  lemma GraftBody(pkt: seq<Byte>)
    requires GraftDesc(pkt).Ok?
    ensures Body(Graft(pkt)) == pkt[HDR..HDR + GraftDesc(pkt).value.off] && TypeOf(Graft(pkt)) == GraftDesc(pkt).value.t
  {
  }

  lemma BodyWhole(t: Tree)
    requires Typed(t)
    ensures Body(t) != [] ==> AlignSz(TypeOf(t)).Ok? && |Body(t)| % AlignSz(TypeOf(t)).value == 0
  {
    hide AlignSz, Body, Padded, Known;
    match t
    case Null(_) => NullBody(t);
    case Scalar(ty, v) => ScalarWhole(t);
    case Graft(pkt) => GraftWhole(t);
    case Branch(kids) =>
      BranchParts(kids);
      WordUnit(BRANCH);
    case _ => SequenceWhole(t);
  }

  lemma SequenceWhole(t: Tree)
    requires Typed(t) && (t.Array? || t.Bitset? || t.Str? || t.Strs?)
    ensures AlignSz(TypeOf(t)) == Ok(WORD) && |Body(t)| % WORD == 0
  {
    hide Packed, Lane, Blob, Padded, Slot, ElemSz, AlignSz, Quotient, Typed, Zeros;
    SeqTyped(t);
    WordUnit(TypeOf(t));
    match t
    case Array(ty, b) => SlotPadded(Quotient(|b|, ElemSz(ty)), b);
    case Bitset(bits) => SlotPadded(|bits|, Packed(bits, |bits|));
    case Str(s) => SlotPadded(|s|, s + [0]);
    case Strs(items) => SlotPadded(|items|, Le4(0) + Lane(items, |items|) + Blob(items, |items|));
  }

  lemma SeqTyped(t: Tree)
    requires Typed(t) && (t.Array? || t.Bitset? || t.Str? || t.Strs?)
    ensures IsSeq(TypeOf(t))
  {
  }

  lemma SlotPadded(n: nat, s: seq<Byte>)
    ensures |Slot(n, 0) + Padded(s)| % WORD == 0
  {
    hide RoundUp;
    assert |Padded(s)| == RoundUp(|s|, WORD);
  }

  lemma WordUnit(t: Byte)
    requires t == BRANCH || IsSeq(t)
    ensures AlignSz(t) == Ok(WORD)
  {
  }

  lemma ScalarWhole(t: Tree)
    requires Typed(t) && t.Scalar?
    ensures Body(t) == t.bytes && TypeOf(t) == t.t && AlignSz(t.t).Ok? && |t.bytes| % AlignSz(t.t).value == 0
  {
  }

  lemma GraftWhole(t: Tree)
    requires t.Graft?
    ensures Body(t) != [] ==> AlignSz(TypeOf(t)).Ok? && |Body(t)| % AlignSz(TypeOf(t)).value == 0
  {
    hide GraftDesc;
  }

  /** Grafting a tree's finished packet leaves what writing the tree there would, whatever is written before it,
      and is refused where that would be. */
  lemma GraftIsInline(t: Tree, b: seq<Byte>, cap: nat)
    requires Typed(t) && Grafted(t) && |Packet(t)| <= MAX_PKT
    ensures var g := Graft(Packet(t));
            && Place(b, g) == Place(b, t) && PlaceAt(b, g) == PlaceAt(b, t) && TypeOf(g) == TypeOf(t)
            && Refusal(g, |b|, cap) == Refusal(t, |b|, cap)
  {
    hide Body, Packet, TypeOf, GraftDesc;
    PacketGrafts(t);
    RefusedIffShort(t, |b|, cap);
    RefusedIffShort(Graft(Packet(t)), |b|, cap);
    SameUnit(Graft(Packet(t)), t);
  }

  lemma SameUnit(t: Tree, u: Tree)
    requires TypeOf(t) == TypeOf(u)
    ensures Unit(t) == Unit(u)
  {
  }

  /** `u` is `t` with some of its grafts of finished packets written as the packets' trees. */
  predicate Inlined(t: Tree, u: Tree)
    decreases t
  {
    || t == u
    || (t.Graft? && Typed(u) && Grafted(u) && t.pkt == Packet(u) && |t.pkt| <= MAX_PKT)
    || (t.Branch? && u.Branch? && |t.kids| == |u.kids| && forall k :: 0 <= k < |t.kids| ==> Inlined(t.kids[k], u.kids[k]))
  }

  /** Every place in a tree where a packet is grafted may as well be written in line: the bytes are the same. */
  lemma {:induction false} InlinedSame(t: Tree, u: Tree)
    requires Inlined(t, u)
    ensures Body(t) == Body(u) && TypeOf(t) == TypeOf(u) && Unit(t) == Unit(u)
    decreases t
  {
    if t == u {
    } else if t.Graft? {
      PacketGrafts(u);
      SameUnit(t, u);
    } else {
      InlinedKids(t.kids, u.kids, |t.kids|);
    }
  }

  lemma {:induction false} InlinedKids(ts: seq<Tree>, us: seq<Tree>, k: nat)
    requires k <= |ts| == |us| && forall j :: 0 <= j < |ts| ==> Inlined(ts[j], us[j])
    ensures Kids(ts, k) == Kids(us, k) && Entries(ts, k) == Entries(us, k)
    decreases ts, k
  {
    hide Body, Kids, Entries, TypeOf, Unit, EntryOf, PadTo, Slot;
    KidsNone(ts);
    KidsNone(us);
    if k > 0 {
      InlinedKids(ts, us, k - 1);
      InlinedSame(ts[k - 1], us[k - 1]);
      KidsNext(ts, k - 1);
      KidsNext(us, k - 1);
      SameEntry(ts, us, k - 1);
    }
  }

  lemma SameEntry(ts: seq<Tree>, us: seq<Tree>, k: nat)
    requires k < |ts| == |us| && |Kids(ts, k)| == |Kids(us, k)|
    requires Body(ts[k]) == Body(us[k]) && Unit(ts[k]) == Unit(us[k])
    ensures EntryOf(ts, k) == EntryOf(us, k)
  {
    hide Body, Kids, Unit;
  }

  lemma KidsNone(kids: seq<Tree>)
    ensures Kids(kids, 0) == [] && Entries(kids, 0) == []
  {
  }

  /** A tree with packets grafted in it reads as the tree with them in line. */
  lemma GraftedRoundTrip(t: Tree, u: Tree, tail: seq<Byte>)
    requires Inlined(t, u) && Readable(u) && |Packet(t) + tail| <= MAX_PKT
    ensures Root(Packet(t) + tail).Ok?
    ensures GetDeep(Root(Packet(t) + tail).value) == Ok(DeepOf(u))
  {
    hide Body, Readable, DeepOf, GetDeep, Root;
    InlinedSame(t, u);
    assert Packet(t) == Packet(u);
    RoundTrip(u, tail);
  }
}
