/** XTP's trees and the bytes they are on the wire: types, what a node's payload is, where a branch's children
    lie in it, the packet. A number is its bytes, little end first. */
module XtpTree {
  import opened Arith
  import opened Bytes

  // Types: a leaf's byte has its top bit set, then a reserved bit, whether it is a sequence, its class and the
  // class's argument

  const NIL: Byte := 0x00
  const BRANCH: Byte := 0x20
  const BOOLEAN: Byte := 0x98
  const BITSET: Byte := 0xb8
  const STR: Byte := 0xb9
  const STRS: Byte := 0xba

  predicate IsLeaf(t: Byte) {
    t / 0x80 == 1
  }

  predicate IsSeq(t: Byte) {
    IsLeaf(t) && t / 0x20 % 2 == 1
  }

  /** Unsigned, signed, float or neither. */
  function Class(t: Byte): (c: nat) {
    t / 8 % 4
  }

  function Arg(t: Byte): (a: nat) {
    t % 8
  }

  /** A type the wire carries: the untyped null, a branch, or a leaf of a width its class has. */
  predicate Known(t: Byte) {
    t == NIL || t == BRANCH
    || (IsLeaf(t) && t / 0x40 % 2 == 0
        && (if Class(t) == 2 then Arg(t) == 2 || Arg(t) == 3
            else if Class(t) == 3 then Arg(t) <= if IsSeq(t) then 2 else 0
            else Arg(t) <= 3))
  }

  const WORD: nat := 8
  const HDR: nat := 16
  const MAGIC: nat := 0x0050_5458
  const MAX_PKT: nat := 0x7fff_ffff

  /** What a node of a type starts at a multiple of: a sequence or a branch, a word, so that its leading slot
      is one; a scalar, its width. */
  function AlignSz(t: Byte): (r: Result<nat>)
    ensures r.Ok? ==> r.value == 1 || r.value == 2 || r.value == 4 || r.value == 8
  {
    if t == BRANCH || IsSeq(t) then Ok(WORD)
    else if t == 0x80 || t == 0x88 || t == BOOLEAN then Ok(1)
    else if t == 0x81 || t == 0x89 then Ok(2)
    else if t == 0x82 || t == 0x8a || t == 0x92 then Ok(4)
    else if t == 0x83 || t == 0x8b || t == 0x93 then Ok(8)
    else Err(EBADMSG)
  }

  predicate IsScalar(t: Byte) {
    IsLeaf(t) && Known(t) && !IsSeq(t)
  }

  predicate IsArray(t: Byte) {
    IsSeq(t) && Known(t) && Class(t) != 3
  }

  /** A sequence's element, in bytes: a string sequence's is its offsets' word. */
  function ElemSz(t: Byte): (z: nat)
    ensures z > 0
  {
    if t == STRS then 4 else if Class(t) == 3 then 1 else Pow2(Arg(t))
  }

  // Trees

  /** A null of any type; a scalar or an array as its bytes; a finished packet, to be placed as its root. */
  datatype Tree =
    | Null(t: Byte)
    | Scalar(t: Byte, bytes: seq<Byte>)
    | Array(t: Byte, bytes: seq<Byte>)
    | Bitset(bits: seq<bool>)
    | Str(s: seq<Byte>)
    | Strs(items: seq<seq<Byte>>)
    | Branch(kids: seq<Tree>)
    | Graft(pkt: seq<Byte>)

  /** A tree the encoder's types allow: its lengths a 32-bit guest's. */
  predicate Typed(t: Tree)
    decreases t
  {
    match t
    case Null(ty) => Known(ty)
    case Scalar(ty, b) => IsScalar(ty) && |b| == AlignSz(ty).value && (ty == BOOLEAN ==> b[0] <= 1)
    case Array(ty, b) => IsArray(ty) && |b| % ElemSz(ty) == 0 && |b| < U32
    case Bitset(bits) => |bits| < U32
    case Str(s) => |s| < U32
    case Strs(items) => |items| < U32
    case Branch(kids) => |kids| < U32 && forall k :: 0 <= k < |kids| ==> Typed(kids[k])
    case Graft(pkt) => |pkt| < U32
  }

  // Slots

  function Slot(lo: nat, hi: nat): (s: seq<Byte>)
    ensures |s| == WORD
  {
    Le4(lo) + Le4(hi)
  }

  /** A slot whose high half is reserved. */
  function GetLen(p: seq<Byte>, off: nat): (r: Result<nat>)
    requires off + WORD <= |p|
    ensures r.Ok? ==> r.value < U32
  {
    if Load4(p, off + 4) != 0 then Err(EBADMSG) else Ok(Load4(p, off))
  }

  datatype Desc = Desc(off: nat, t: Byte)

  /** A child's entry or the root's: an offset or a size, and a known type with the rest reserved. */
  function GetDesc(p: seq<Byte>, off: nat): (r: Result<Desc>)
    requires off + WORD <= |p|
    ensures r.Ok? ==> r.value.off < U32 && Known(r.value.t)
  {
    var t := Load4(p, off + 4);
    if t >= 256 || !Known(t) then Err(EBADMSG) else Ok(Desc(Load4(p, off), t))
  }

  lemma SlotRead(p: seq<Byte>, off: nat, lo: nat, hi: nat)
    requires off + WORD <= |p| && p[off..off + WORD] == Slot(lo, hi) && lo < U32 && hi < U32
    ensures Load4(p, off) == lo && Load4(p, off + 4) == hi
  {
    var s := p[off..off + WORD];
    assert p[off..off + 4] == s[..4] == Le4(lo);
    assert p[off + 4..off + 8] == s[4..] == Le4(hi);
    LoadStored(p, off, lo);
    LoadStored(p, off + 4, hi);
  }

  // Grafts

  /** What a packet's header gives a graft of it: nothing where it is refused. */
  function GraftDesc(pkt: seq<Byte>): (r: Result<Desc>)
    ensures r.Ok? ==> |pkt| >= HDR + r.value.off && Known(r.value.t)
    ensures r.Ok? && r.value.off != 0 ==> AlignSz(r.value.t).Ok? && r.value.off % AlignSz(r.value.t).value == 0
  {
    if |pkt| < HDR || GetLen(pkt, 0) != Ok(MAGIC) then Err(EBADMSG)
    else
      match GetDesc(pkt, WORD)
      case Err(e) => Err(e)
      case Ok(d) =>
        if d.off > |pkt| - HDR then Err(EBADMSG)
        else if d.off != 0 && (AlignSz(d.t).Err? || d.off % AlignSz(d.t).value != 0) then Err(EBADMSG)
        else Ok(d)
  }

  // A node's payload

  /** The type a node goes under. A refused graft goes under none, and nothing of it is used. */
  function TypeOf(t: Tree): Byte {
    match t
    case Null(ty) => ty
    case Scalar(ty, _) => ty
    case Array(ty, _) => ty
    case Bitset(_) => BITSET
    case Str(_) => STR
    case Strs(_) => STRS
    case Branch(_) => BRANCH
    case Graft(pkt) => if GraftDesc(pkt).Ok? then GraftDesc(pkt).value.t else NIL
  }

  function Unit(t: Tree): (u: nat)
    ensures u == 1 || u == 2 || u == 4 || u == 8
  {
    match AlignSz(TypeOf(t))
    case Ok(u) => u
    case Err(_) => 1
  }

  function PadTo(n: nat, unit: nat): (s: seq<Byte>)
    requires unit > 0
    ensures |s| < unit && (n + |s|) == RoundUp(n, unit)
  {
    Zeros(RoundUp(n, unit) - n)
  }

  /** Bytes up to a word. */
  function Padded(s: seq<Byte>): (r: seq<Byte>)
    ensures |r| == RoundUp(|s|, WORD) && |s| <= |r| && r[..|s|] == s
  {
    s + PadTo(|s|, WORD)
  }

  predicate Bit(s: seq<Byte>, i: nat)
    requires i / 8 < |s|
  {
    s[i / 8] / Pow2(i % 8) % 2 == 1
  }

  function SetBit(b: Byte, j: nat): (r: Byte)
    requires j < 8
  {
    if b / Pow2(j) % 2 == 1 then b
    else
      SetBitFits(b, j);
      b + Pow2(j)
  }

  lemma SetBitFits(b: Byte, j: nat)
    requires j < 8 && b / Pow2(j) % 2 == 0
    ensures b + Pow2(j) < 256
  {
    hide Pow2;
    Powers();
    assert j == 0 || j == 1 || j == 2 || j == 3 || j == 4 || j == 5 || j == 6 || j == 7;
  }

  lemma Powers()
    ensures Pow2(0) == 1 && Pow2(1) == 2 && Pow2(2) == 4 && Pow2(3) == 8
    ensures Pow2(4) == 16 && Pow2(5) == 32 && Pow2(6) == 64 && Pow2(7) == 128
  {
    assert Pow2(4) == 2 * Pow2(3);
    assert Pow2(6) == 2 * Pow2(5);
  }

  /** The first `i` bits packed, low bit first. */
  function Packed(bits: seq<bool>, i: nat): (s: seq<Byte>)
    requires i <= |bits|
    ensures |s| == (|bits| + 7) / 8
  {
    if i == 0 then Zeros((|bits| + 7) / 8)
    else
      var s := Packed(bits, i - 1);
      if bits[i - 1] then s[(i - 1) / 8 := SetBit(s[(i - 1) / 8], (i - 1) % 8)] else s
  }

  /** The bytes of the first `k` strings. */
  function Blob(items: seq<seq<Byte>>, k: nat): (s: seq<Byte>)
    requires k <= |items|
  {
    if k == 0 then [] else Blob(items, k - 1) + items[k - 1]
  }

  /** Where each of the first `k` strings ends in the blob. */
  function Lane(items: seq<seq<Byte>>, k: nat): (s: seq<Byte>)
    requires k <= |items|
    ensures |s| == 4 * k
  {
    if k == 0 then [] else Lane(items, k - 1) + Le4(|Blob(items, k)|)
  }

  /** A node's bytes from where it is placed: none where it is absent. Nothing in them depends on where. */
  function Body(t: Tree): (s: seq<Byte>)
    decreases t
  {
    match t
    case Null(_) => []
    case Scalar(_, b) => b
    case Array(ty, b) => Slot(Quotient(|b|, ElemSz(ty)), 0) + Padded(b)
    case Bitset(bits) => Slot(|bits|, 0) + Padded(Packed(bits, |bits|))
    case Str(s) => Slot(|s|, 0) + Padded(s + [0])
    case Strs(items) => Slot(|items|, 0) + Padded(Le4(0) + Lane(items, |items|) + Blob(items, |items|))
    case Branch(kids) => Padded(Slot(|kids|, 0) + Entries(kids, |kids|) + Kids(kids, |kids|))
    case Graft(pkt) => if GraftDesc(pkt).Ok? then pkt[HDR..HDR + GraftDesc(pkt).value.off] else []
  }

  function TableSz(n: nat): nat {
    WORD + WORD * n
  }

  /** A branch's first `k` children, each placed after the one before it. */
  function Kids(kids: seq<Tree>, k: nat): (s: seq<Byte>)
    requires k <= |kids|
    decreases kids, 2 * k
  {
    if k == 0 then []
    else
      var t := kids[k - 1];
      if Body(t) == [] then Kids(kids, k - 1)
      else Kids(kids, k - 1) + PadTo(TableSz(|kids|) + |Kids(kids, k - 1)|, Unit(t)) + Body(t)
  }

  /** Where child `k` is, from its branch's start. */
  function KidAt(kids: seq<Tree>, k: nat): (at: nat)
    requires k < |kids|
    ensures at >= TableSz(|kids|)
    decreases kids, 2 * k + 1
  {
    RoundUp(TableSz(|kids|) + |Kids(kids, k)|, Unit(kids[k]))
  }

  /** The entries of a branch's first `k` children. */
  function Entries(kids: seq<Tree>, k: nat): (s: seq<Byte>)
    requires k <= |kids|
    ensures |s| == WORD * k
    decreases kids, 2 * k
  {
    if k == 0 then []
    else Entries(kids, k - 1) + Slot(if Body(kids[k - 1]) == [] then 0 else KidAt(kids, k - 1), TypeOf(kids[k - 1]))
  }

  /** The packet: its header, and the tree's bytes to a word. */
  function Packet(t: Tree): (s: seq<Byte>)
    ensures |s| >= HDR
  {
    Padded(Slot(MAGIC, 0) + Slot(|Body(t)|, TypeOf(t)) + Body(t))
  }
}
