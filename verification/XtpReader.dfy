/** The validating reader: cursors over a packet, each with the extent it may read. Every load is shown to lie in
    that extent, whatever the bytes. */
module XtpReader {
  import opened Bytes
  import opened XtpTree
  import opened Prelude
  import Utf8

  /** A node of packet `pkt`, of which only the first `end` bytes are its to read; at 0 where it is absent. */
  datatype Cursor = Cursor(pkt: seq<Byte>, end: nat, base: nat, t: Byte, len: nat) {
    predicate IsNull() {
      base == 0
    }

    predicate IsBranch() {
      !IsNull() && t == BRANCH
    }

    /** What every cursor the reader makes is: within its packet, and a branch's table within its extent. */
    predicate Sound() {
      && end <= |pkt| && |pkt| <= MAX_PKT
      && (IsBranch() ==> base + TableSz(len) <= end)
    }
  }

  datatype Value =
    | VNull
    | VBool(b: bool)
    | VNumber(t: Byte, bytes: seq<Byte>)
    | VArray(t: Byte, bytes: seq<Byte>)
    | VBitset(packed: seq<Byte>, len: nat)
    | VStr(s: seq<Byte>)
    | VStrs(offs: seq<Byte>, blob: seq<Byte>, len: nat)
    | VBranch(node: Cursor)

  // Loads, each within an extent

  function Len(pkt: seq<Byte>, end: nat, off: nat): (r: Result<nat>)
    requires off + WORD <= end <= |pkt|
    ensures r.Ok? ==> r.value < U32
  {
    GetLen(pkt, off)
  }

  function View(pkt: seq<Byte>, end: nat, from: nat, n: nat): (s: seq<Byte>)
    requires from + n <= end <= |pkt|
    ensures |s| == n
  {
    pkt[from..from + n]
  }

  // Nodes

  /** The node of type `t` at `base`, checked as far as it must be to be read. */
  function At(pkt: seq<Byte>, end: nat, base: nat, t: Byte): (r: Result<Cursor>)
    requires end <= |pkt| <= MAX_PKT
    ensures r.Ok? ==> r.value.Sound() && r.value.pkt == pkt && r.value.end == end && r.value.base == base && r.value.t == t
  {
    var unit := AlignSz(t);
    if unit.Err? then Err(unit.errno)
    else if base % unit.value != 0 then Err(EBADMSG)
    else if t != BRANCH then Ok(Cursor(pkt, end, base, t, 0))
    else if base + WORD > end then Err(EBADMSG)
    else
      match Len(pkt, end, base)
      case Err(e) => Err(e)
      case Ok(len) =>
        if len > (end - base - WORD) / WORD then Err(EBADMSG)
        else Ok(Cursor(pkt, end, base, t, len))
  }

  /** The offset in a branch's entry `j`. */
  function EntryOff(c: Cursor, j: nat): (off: nat)
    requires c.Sound() && c.IsBranch() && j < c.len
    ensures off < U32
  {
    Load4(c.pkt, c.base + WORD + j * WORD)
  }

  /** Where the extent before child `j` ends: the next present child's base, or the branch's own end. */
  function EndFrom(c: Cursor, j: nat): (end: nat)
    requires c.Sound() && c.IsBranch() && j <= c.len
    ensures end <= c.end
    decreases c.len - j
  {
    if j == c.len then c.end
    else if EntryOff(c, j) != 0 then Min(c.base + EntryOff(c, j), c.end)
    else EndFrom(c, j + 1)
  }

  function ChildAt(c: Cursor, idx: nat): (r: Result<Cursor>)
    requires c.Sound() && c.IsBranch()
    ensures r.Ok? ==> r.value.Sound() && r.value.pkt == c.pkt && r.value.end <= c.end
  {
    if idx >= c.len then Err(EFAULT)
    else
      match GetDesc(c.pkt, c.base + WORD + idx * WORD)
      case Err(e) => Err(e)
      case Ok(d) =>
        if d.off == 0 then Ok(Cursor(c.pkt, c.end, 0, d.t, 0))
        else if d.off >= c.end - c.base then Err(EBADMSG)
        else
          var child, end := c.base + d.off, EndFrom(c, idx + 1);
          if child < c.base + TableSz(c.len) || child >= end then Err(EBADMSG)
          else At(c.pkt, end, child, d.t)
  }

  /** A packet's root. What follows the payload its header tells of is not read. */
  function Root(pkt: seq<Byte>): (r: Result<Cursor>)
    requires |pkt| <= MAX_PKT
    ensures r.Ok? ==> r.value.Sound() && r.value.pkt == pkt && (r.value.base == 0 || r.value.base == HDR)
  {
    if |pkt| < HDR || GetLen(pkt, 0) != Ok(MAGIC) then Err(EBADMSG)
    else
      match GetDesc(pkt, WORD)
      case Err(e) => Err(e)
      case Ok(d) =>
        if d.off > |pkt| - HDR then Err(EBADMSG)
        else if d.off == 0 then Ok(Cursor(pkt, |pkt|, 0, d.t, 0))
        else At(pkt, HDR + d.off, HDR, d.t)
  }

  // Values

  function GetScalar(c: Cursor, width: nat): (r: Result<seq<Byte>>)
    requires c.Sound()
    ensures r.Ok? ==> |r.value| == width
  {
    if c.base + width > c.end then Err(EBADMSG) else Ok(View(c.pkt, c.end, c.base, width))
  }

  /** A sequence's length, where its slot is within the extent. */
  function SeqLen(c: Cursor): (r: Result<nat>)
    requires c.Sound()
    ensures r.Ok? ==> r.value < U32 && c.base + WORD <= c.end
  {
    if c.base + WORD > c.end then Err(EBADMSG) else Len(c.pkt, c.end, c.base)
  }

  function GetArray(c: Cursor): (r: Result<Value>)
    requires c.Sound()
  {
    match SeqLen(c)
    case Err(e) => Err(e)
    case Ok(len) =>
      if len * ElemSz(c.t) > c.end - (c.base + WORD) then Err(EBADMSG)
      else Ok(VArray(c.t, View(c.pkt, c.end, c.base + WORD, len * ElemSz(c.t))))
  }

  function GetBitset(c: Cursor): (r: Result<Value>)
    requires c.Sound()
  {
    match SeqLen(c)
    case Err(e) => Err(e)
    case Ok(len) =>
      if (len + 7) / 8 > c.end - (c.base + WORD) then Err(EBADMSG)
      else Ok(VBitset(View(c.pkt, c.end, c.base + WORD, (len + 7) / 8), len))
  }

  /** A string: a zero byte after it that its length leaves out, and its bytes UTF-8. */
  ghost function GetStr(c: Cursor): (r: Result<Value>)
    requires c.Sound()
    ensures r.Ok? ==> r.value.VStr? && Utf8.Text(r.value.s)
  {
    match SeqLen(c)
    case Err(e) => Err(e)
    case Ok(n) =>
      var payload := c.base + WORD;
      if n + 1 > c.end - payload then Err(EBADMSG)
      else if View(c.pkt, c.end, payload + n, 1)[0] != 0 then Err(EBADMSG)
      else if !Utf8.Text(View(c.pkt, c.end, payload, n)) then Err(EBADMSG)
      else Ok(VStr(View(c.pkt, c.end, payload, n)))
  }

  /** Strings `i` and after in a string sequence are in order, within the blob and UTF-8. */
  ghost predicate StrsFrom(offs: seq<Byte>, blob: seq<Byte>, n: nat, i: nat)
    requires |offs| == 4 * (n + 1) && i <= n
    decreases n - i
  {
    i == n || (Load4(offs, 4 * i) <= Load4(offs, 4 * (i + 1)) <= |blob|
               && Utf8.Text(blob[Load4(offs, 4 * i)..Load4(offs, 4 * (i + 1))]) && StrsFrom(offs, blob, n, i + 1))
  }

  ghost function GetStrs(c: Cursor): (r: Result<Value>)
    requires c.Sound()
  {
    match SeqLen(c)
    case Err(e) => Err(e)
    case Ok(n) =>
      var payload := c.base + WORD;
      var blobAt := payload + 4 * (n + 1);
      if blobAt > c.end then Err(EBADMSG)
      else
        var offs := View(c.pkt, c.end, payload, 4 * (n + 1));
        var total := Load4(offs, 4 * n);
        if total > c.end - blobAt then Err(EBADMSG)
        else
          var blob := View(c.pkt, c.end, blobAt, total);
          if !StrsFrom(offs, blob, n, 0) then Err(EBADMSG) else Ok(VStrs(offs, blob, n))
  }

  /** String `i` of a string sequence. */
  function StrsAt(v: Value, i: nat): (s: seq<Byte>)
    requires v.VStrs? && |v.offs| == 4 * (v.len + 1) && i < v.len
    requires Load4(v.offs, 4 * i) <= Load4(v.offs, 4 * (i + 1)) <= |v.blob|
  {
    v.blob[Load4(v.offs, 4 * i)..Load4(v.offs, 4 * (i + 1))]
  }

  /** Bit `i` of a bit set. */
  function BitAt(v: Value, i: nat): bool
    requires v.VBitset? && i / 8 < |v.packed|
  {
    Bit(v.packed, i)
  }

  /** A node's value: the node's own type says how it is read. */
  ghost function Get(c: Cursor): (r: Result<Value>)
    requires c.Sound()
  {
    if c.IsNull() then Ok(VNull)
    else if c.IsBranch() then Ok(VBranch(c))
    else if IsScalar(c.t) then
      match GetScalar(c, AlignSz(c.t).value)
      case Err(e) => Err(e)
      case Ok(b) => Ok(if c.t == BOOLEAN then VBool(b[0] != 0) else VNumber(c.t, b))
    else if IsArray(c.t) then GetArray(c)
    else if c.t == BITSET then GetBitset(c)
    else if c.t == STR then GetStr(c)
    else if c.t == STRS then GetStrs(c)
    else Err(EBADMSG)
  }

  // Whole trees

  /** A tree as it is read: each node's type, as its cursor has it, and its value. */
  datatype Deep = Leaf(t: Byte, v: Value) | List(kids: seq<Deep>)

  /** A child's extent is strictly inside its branch's, past the table. */
  lemma ChildInside(c: Cursor, idx: nat)
    requires c.Sound() && c.IsBranch() && ChildAt(c, idx).Ok? && !ChildAt(c, idx).value.IsNull()
    ensures var d := ChildAt(c, idx).value;
            c.base + TableSz(c.len) <= d.base < d.end <= c.end
  {
  }

  /** The extents of a branch's children do not meet, and lie in the children's order. */
  lemma SiblingsApart(c: Cursor, i: nat, j: nat)
    requires c.Sound() && c.IsBranch() && i < j && ChildAt(c, i).Ok? && ChildAt(c, j).Ok?
    requires !ChildAt(c, i).value.IsNull() && !ChildAt(c, j).value.IsNull()
    requires forall k :: i < k < j ==> ChildAt(c, k).Ok?
    ensures ChildAt(c, i).value.end <= ChildAt(c, j).value.base
  {
    hide At, EndFrom, GetDesc;
    ChildPlace(c, i);
    ChildPlace(c, j);
    NextPresent(c, i + 1, j);
  }

  lemma ChildPlace(c: Cursor, i: nat)
    requires c.Sound() && c.IsBranch() && ChildAt(c, i).Ok?
    ensures var d := ChildAt(c, i).value;
            i < c.len && (if d.IsNull() then EntryOff(c, i) == 0
                          else EntryOff(c, i) != 0 && d.base == c.base + EntryOff(c, i) && d.end == EndFrom(c, i + 1))
  {
  }

  /** An extent ends no later than any present child from `i` on. */
  lemma {:induction false} NextPresent(c: Cursor, i: nat, j: nat)
    requires c.Sound() && c.IsBranch() && i <= j && j < c.len && EntryOff(c, j) != 0
    requires forall k :: i <= k <= j ==> ChildAt(c, k).Ok?
    ensures EndFrom(c, i) <= c.base + EntryOff(c, j)
    decreases j - i
  {
    if i < j {
      NextPresent(c, i + 1, j);
      if EntryOff(c, i) != 0 {
        assert ChildAt(c, i).value.base == c.base + EntryOff(c, i);
      }
    }
  }

  /** The bytes a branch has to itself. */
  function Extent(c: Cursor): nat
    requires c.Sound()
  {
    if c.IsBranch() then c.end - c.base else 0
  }

  /** The whole tree under a node: a branch all of whose children read, or a value. */
  ghost function GetDeep(c: Cursor): (r: Result<Deep>)
    requires c.Sound()
    decreases Extent(c), 1, 0
  {
    if !c.IsBranch() then
      match Get(c)
      case Err(e) => Err(e)
      case Ok(v) => Ok(Leaf(c.t, v))
    else
      match GetKids(c, 0)
      case Err(e) => Err(e)
      case Ok(kids) => Ok(List(kids))
  }

  ghost function GetKids(c: Cursor, idx: nat): (r: Result<seq<Deep>>)
    requires c.Sound() && c.IsBranch() && idx <= c.len
    ensures r.Ok? ==> |r.value| == c.len - idx
    decreases Extent(c), 0, c.len - idx
  {
    if idx == c.len then Ok([])
    else
      match ChildAt(c, idx)
      case Err(e) => Err(e)
      case Ok(child) =>
        match GetDeep(child)
        case Err(e) => Err(e)
        case Ok(first) =>
          match GetKids(c, idx + 1)
          case Err(e) => Err(e)
          case Ok(rest) => Ok([first] + rest)
  }

  /** Where all of a branch's children from `idx` on read, each does. */
  lemma {:induction false} KidsRead(c: Cursor, idx: nat, k: nat)
    requires c.Sound() && c.IsBranch() && idx <= k < c.len && GetKids(c, idx).Ok?
    ensures ChildAt(c, k).Ok? && GetDeep(ChildAt(c, k).value) == Ok(GetKids(c, idx).value[k - idx])
    decreases k - idx
  {
    hide ChildAt, GetDeep;
    if k > idx {
      KidsRead(c, idx + 1, k);
    }
  }

  /** Every child of a branch, and of every branch under it, has its extent strictly inside its branch's and past the
      table, and no two of a branch's meet. */
  ghost predicate Tidy(c: Cursor)
    requires c.Sound()
    decreases Extent(c)
  {
    c.IsBranch() ==>
      && (forall i :: 0 <= i < c.len ==> ChildAt(c, i).Ok? && ChildTidy(c, ChildAt(c, i).value))
      && (forall i, j :: 0 <= i < j < c.len && !ChildAt(c, i).value.IsNull() && !ChildAt(c, j).value.IsNull() ==>
            ChildAt(c, i).value.end <= ChildAt(c, j).value.base)
  }

  ghost predicate ChildTidy(c: Cursor, d: Cursor)
    requires c.Sound() && c.IsBranch() && d.Sound()
    decreases Extent(c), 0
  {
    !d.IsNull() ==> c.base + TableSz(c.len) <= d.base < d.end <= c.end && Extent(d) < Extent(c) && Tidy(d)
  }

  /** A tree that reads whole is tidy all through. */
  lemma {:induction false} DeepTidy(c: Cursor)
    requires c.Sound() && GetDeep(c).Ok?
    ensures Tidy(c)
    decreases Extent(c)
  {
    hide ChildAt;
    if c.IsBranch() {
      forall i | 0 <= i < c.len
        ensures ChildAt(c, i).Ok? && ChildTidy(c, ChildAt(c, i).value)
      {
        KidsRead(c, 0, i);
        if !ChildAt(c, i).value.IsNull() {
          ChildInside(c, i);
          DeepTidy(ChildAt(c, i).value);
        }
      }
      forall i, j | 0 <= i < j < c.len && !ChildAt(c, i).value.IsNull() && !ChildAt(c, j).value.IsNull()
        ensures ChildAt(c, i).value.end <= ChildAt(c, j).value.base
      {
        SiblingsApart(c, i, j);
      }
    }
  }

  function Nodes(d: Deep): (n: nat)
    ensures n > 0
    decreases d
  {
    match d
    case Leaf(_, _) => 1
    case List(kids) => 1 + NodesIn(kids)
  }

  function NodesIn(kids: seq<Deep>): nat
    decreases kids
  {
    if kids == [] then 0 else Nodes(kids[0]) + NodesIn(kids[1..])
  }

  /** A node that reads has at most a node for every word of its extent, and one more. */
  lemma {:induction false} NodesBound(c: Cursor)
    requires c.Sound() && GetDeep(c).Ok?
    ensures !c.IsBranch() ==> Nodes(GetDeep(c).value) == 1
    ensures c.IsBranch() ==> WORD * Nodes(GetDeep(c).value) <= c.end - c.base
    decreases Extent(c), 1, 0
  {
    if c.IsBranch() {
      KidsBound(c, 0);
    }
  }

  lemma {:induction false} KidsBound(c: Cursor, idx: nat)
    requires c.Sound() && c.IsBranch() && idx <= c.len && GetKids(c, idx).Ok?
    ensures WORD * NodesIn(GetKids(c, idx).value) <= WORD * (c.len - idx) + Room(c, idx)
    ensures EndFrom(c, idx) >= c.base + TableSz(c.len)
    decreases Extent(c), 0, c.len - idx
  {
    if idx < c.len {
      var child := ChildAt(c, idx).value;
      var kids := GetKids(c, idx).value;
      KidsBound(c, idx + 1);
      assert kids[1..] == GetKids(c, idx + 1).value;
      RoomShrinks(c, idx);
      NodesBound(child);
    }
  }

  /** The bytes from the first present child at or past `idx` to the branch's end. */
  function Room(c: Cursor, idx: nat): (n: nat)
    requires c.Sound() && c.IsBranch() && idx <= c.len
  {
    c.end - EndFrom(c, idx)
  }

  lemma RoomShrinks(c: Cursor, idx: nat)
    requires c.Sound() && c.IsBranch() && idx < c.len && ChildAt(c, idx).Ok?
    ensures var child := ChildAt(c, idx).value;
            if child.IsNull() then Room(c, idx) == Room(c, idx + 1)
            else Room(c, idx) == Room(c, idx + 1) + (child.end - child.base)
  {
  }

  /** On any bytes: a tree that reads has at most one node for each eight bytes, and one more. */
  lemma PacketNodes(pkt: seq<Byte>)
    requires |pkt| <= MAX_PKT && Root(pkt).Ok? && GetDeep(Root(pkt).value).Ok?
    ensures Nodes(GetDeep(Root(pkt).value).value) <= 1 + |pkt| / WORD
  {
    NodesBound(Root(pkt).value);
  }
}
