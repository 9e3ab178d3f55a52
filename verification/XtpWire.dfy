/** Which bytes are a packet: told on the bytes, and what the reader takes and refuses against that. */
module XtpWire {
  import opened Bytes
  import opened XtpTree
  import opened XtpReader
  import opened Prelude
  import Utf8

  /** Four bytes' number, the first the least. */
  function Num(p: seq<Byte>, at: nat): (n: nat)
    requires at + 4 <= |p|
  {
    var (a: int, b: int, c: int, d: int) := (p[at], p[at + 1], p[at + 2], p[at + 3]);
    a + 0x100 * b + 0x1_0000 * c + 0x100_0000 * d
  }

  // Types by their bytes: null, branch, and the leaves of one, two, four and eight bytes

  predicate Ones(t: Byte) { t == 0x80 || t == 0x88 || t == 0x98 }
  predicate Twos(t: Byte) { t == 0x81 || t == 0x89 }
  predicate Fours(t: Byte) { t == 0x82 || t == 0x8a || t == 0x92 }
  predicate Eights(t: Byte) { t == 0x83 || t == 0x8b || t == 0x93 }

  /** An array of those, its type's byte with bit 5 set; a bit set, a string and strings are no numbers' arrays. */
  predicate Listed(t: Byte) {
    0xa0 <= t <= 0xa3 || 0xa8 <= t <= 0xab || t == 0xb2 || t == 0xb3
  }

  predicate Scalars(t: Byte) {
    Ones(t) || Twos(t) || Fours(t) || Eights(t)
  }

  predicate Typed8(t: Byte) {
    t == 0x00 || t == 0x20 || Scalars(t) || Listed(t) || t == 0xb8 || t == 0xb9 || t == 0xba
  }

  /** What a scalar takes, and what it starts at a multiple of; every other node starts at a multiple of eight. */
  function Wide(t: Byte): (w: nat)
    ensures w > 0
  {
    if Ones(t) then 1 else if Twos(t) then 2 else if Fours(t) then 4 else 8
  }

  function ElemOf(t: Byte): nat
    requires Listed(t)
  {
    Wide(t - 0x20)
  }

  lemma NumIs(p: seq<Byte>, at: nat)
    requires at + 4 <= |p|
    ensures Num(p, at) == Load4(p, at)
  {
  }

  /** The types by their bits and by their bytes. */
  lemma TypesAre(t: Byte)
    ensures Known(t) <==> Typed8(t)
    ensures IsScalar(t) <==> Scalars(t)
    ensures IsArray(t) <==> Listed(t)
    ensures Known(t) && t != 0 ==> AlignSz(t) == Ok(Wide(t))
    ensures t == 0 ==> AlignSz(t) == Err(EBADMSG)
    ensures Listed(t) ==> ElemSz(t) == ElemOf(t)
  {
    Powers();
  }

  // A packet's bytes

  /** The magic and four zero bytes; a payload's size, within the packet; a type, and three zero bytes. */
  predicate Header(p: seq<Byte>) {
    && |p| >= 16 && p[..8] == [0x58, 0x54, 0x50, 0, 0, 0, 0, 0]
    && Num(p, 8) <= |p| - 16 && Typed8(p[12]) && p[13] == 0 && p[14] == 0 && p[15] == 0
  }

  /** A count in eight bytes, the high four zero. */
  predicate Counts(p: seq<Byte>, from: nat, end: nat) {
    from + 8 <= end <= |p| && p[from + 4..from + 8] == [0, 0, 0, 0]
  }

  /** Past a count: as many elements of `w` bytes, bits in bytes, a string and a zero byte, strings in order. */
  predicate ArrayBytes(p: seq<Byte>, from: nat, end: nat, w: nat) {
    Counts(p, from, end) && Num(p, from) * w <= end - from - 8
  }

  predicate BitsBytes(p: seq<Byte>, from: nat, end: nat) {
    Counts(p, from, end) && (Num(p, from) + 7) / 8 <= end - from - 8
  }

  ghost predicate StrBytes(p: seq<Byte>, from: nat, end: nat) {
    && Counts(p, from, end) && Num(p, from) < end - from - 8
    && p[from + 8 + Num(p, from)] == 0 && Utf8.Text(p[from + 8..from + 8 + Num(p, from)])
  }

  ghost predicate StrsBytes(p: seq<Byte>, from: nat, end: nat) {
    && Counts(p, from, end)
    && var n := Num(p, from);
       var blob := from + 8 + 4 * (n + 1);
       && blob <= end && Num(p, blob - 4) <= end - blob
       && forall i :: 0 <= i < n ==> StrAtBytes(p, from, blob, end, i)
  }

  /** String `i` of them: its offset and the next, in order, and what lies between in UTF-8. */
  ghost predicate StrAtBytes(p: seq<Byte>, from: nat, blob: nat, end: nat, i: nat)
    requires from + 8 + 4 * (i + 2) <= blob <= end <= |p|
  {
    var a, b := Num(p, from + 8 + 4 * i), Num(p, from + 12 + 4 * i);
    a <= b <= Num(p, blob - 4) && blob + b <= end && Utf8.Text(p[blob + a..blob + b])
  }

  /** Where a branch's `k`th entry is, and the offset in it. */
  function Entry(from: nat, k: nat): nat {
    from + 8 + 8 * k
  }

  /** Child `j`, the next that is there, ends the extent at `to`. */
  predicate EndsAt(p: seq<Byte>, from: nat, end: nat, j: nat, to: nat)
    requires from + 8 + 8 * (j + 1) <= end <= |p|
  {
    Num(p, Entry(from, j)) != 0 && to == Min(from + Num(p, Entry(from, j)), end)
  }

  /** The extent before `to` is child `k`'s: `to` is where the next child that is there starts, or the branch's end. */
  predicate Until(p: seq<Byte>, from: nat, end: nat, n: nat, k: nat, to: nat)
    requires from + 8 + 8 * n <= end <= |p|
  {
    || (exists j :: k < j < n && NoneIn(p, from, k + 1, j) && EndsAt(p, from, end, j, to))
    || (NoneIn(p, from, k + 1, n) && to == end)
  }

  predicate NoneIn(p: seq<Byte>, from: nat, i: nat, j: nat)
    requires i <= j ==> from + 8 + 8 * j <= |p|
  {
    forall k :: i <= k < j ==> Num(p, Entry(from, k)) == 0
  }

  /** The bytes from `from` to `end` hold a node of type `t`: for a branch, all its children. */
  ghost predicate Holds(p: seq<Byte>, from: nat, end: nat, t: Byte)
    requires end <= |p|
    decreases end - from, 1
  {
    if Scalars(t) then from + Wide(t) <= end
    else if Listed(t) then ArrayBytes(p, from, end, ElemOf(t))
    else if t == 0xb8 then BitsBytes(p, from, end)
    else if t == 0xb9 then StrBytes(p, from, end)
    else if t == 0xba then StrsBytes(p, from, end)
    else if t == 0x20 then
      && Counts(p, from, end) && from + 8 + 8 * Num(p, from) <= end
      && forall k :: 0 <= k < Num(p, from) ==> ChildHeld(p, from, end, Num(p, from), k)
    else false
  }

  /** A branch's child is absent, or lies past the entries, before the next, where its type may start. */
  ghost predicate ChildHeld(p: seq<Byte>, from: nat, end: nat, n: nat, k: nat)
    requires k < n && from + 8 + 8 * n <= end <= |p|
    decreases end - from, 0
  {
    var e := Entry(from, k);
    var off, t := Num(p, e), p[e + 4];
    && Typed8(t) && p[e + 5] == 0 && p[e + 6] == 0 && p[e + 7] == 0
    && (off == 0
        || (&& t != 0 && 8 + 8 * n <= off < end - from && (from + off) % Wide(t) == 0
            && exists to :: from + off < to <= end && Until(p, from, end, n, k, to) && Holds(p, from + off, to, t)))
  }

  // The reader takes exactly those

  /** A count is taken where its high half is zero. */
  lemma CountIs(p: seq<Byte>, from: nat, end: nat)
    requires end <= |p|
    ensures Counts(p, from, end) <==> from + 8 <= end && GetLen(p, from).Ok?
    ensures Counts(p, from, end) ==> GetLen(p, from) == Ok(Num(p, from))
  {
    if from + 8 <= end {
      ZeroHalf(p, from + 4);
      NumIs(p, from);
    }
  }

  lemma ZeroHalf(p: seq<Byte>, at: nat)
    requires at + 4 <= |p|
    ensures Load4(p, at) == 0 <==> p[at..at + 4] == [0, 0, 0, 0]
  {
    var z := p[at..at + 4];
    assert z[0] == p[at] && z[1] == p[at + 1] && z[2] == p[at + 2] && z[3] == p[at + 3];
  }

  /** A description is taken where its type is known and the three bytes past it are zero. */
  lemma DescIs(p: seq<Byte>, at: nat)
    requires at + 8 <= |p|
    ensures GetDesc(p, at) == if Typed8(p[at + 4]) && p[at + 5] == 0 && p[at + 6] == 0 && p[at + 7] == 0
                              then Ok(Desc(Num(p, at), p[at + 4])) else Err(EBADMSG)
  {
    hide Typed8, Known;
    NumIs(p, at);
    TypesAre(p[at + 4]);
    var (a: int, b: int, c: int, d: int) := (p[at + 4], p[at + 5], p[at + 6], p[at + 7]);
    assert Load4(p, at + 4) == a + 256 * (b + 256 * (c + 256 * d));
    assert Load4(p, at + 4) < 256 <==> b == 0 && c == 0 && d == 0;
  }

  lemma MagicIs(p: seq<Byte>)
    requires |p| >= 8
    ensures GetLen(p, 0) == Ok(MAGIC) <==> p[..8] == [0x58, 0x54, 0x50, 0, 0, 0, 0, 0]
  {
    ZeroHalf(p, 4);
    var m := p[..8];
    assert m[0] == p[0] && m[1] == p[1] && m[2] == p[2] && m[3] == p[3] && m[4..] == p[4..4 + 4];
    var (a: int, b: int, c: int, d: int) := (p[0], p[1], p[2], p[3]);
    assert Load4(p, 0) == a + 256 * (b + 256 * (c + 256 * d));
    assert Load4(p, 0) == MAGIC <==> a == 0x58 && b == 0x54 && c == 0x50 && d == 0;
    if m == [0x58, 0x54, 0x50, 0, 0, 0, 0, 0] {
      assert m[4] == 0 && m[5] == 0 && m[6] == 0 && m[7] == 0;
      assert p[4..4 + 4] == [0, 0, 0, 0];
    }
  }

  lemma AtIs(p: seq<Byte>, end: nat, from: nat, t: Byte)
    requires end <= |p| <= MAX_PKT && Known(t)
    ensures At(p, end, from, t).Ok? <==>
              t != 0 && from % Wide(t) == 0 && (t == 0x20 ==> Counts(p, from, end) && from + 8 + 8 * Num(p, from) <= end)
    ensures At(p, end, from, t).Ok? && t == 0x20 ==> At(p, end, from, t).value.len == Num(p, from)
    ensures At(p, end, from, t).Err? ==> At(p, end, from, t) == Err(EBADMSG)
  {
    hide Typed8, Wide, GetLen, Counts;
    TypesAre(t);
    CountIs(p, from, end);
    assert t == 0x20 ==> Wide(t) == 8 by {
      BranchWide();
    }
    LenRefused(p, from, end);
  }

  lemma BranchWide()
    ensures Wide(0x20) == 8
  {
  }

  lemma LenRefused(p: seq<Byte>, from: nat, end: nat)
    requires end <= |p|
    ensures from + 8 <= end && GetLen(p, from).Err? ==> GetLen(p, from) == Err(EBADMSG)
  {
  }

  /** A packet's root is there to read exactly where its header is one and it is null, or may start where it does and,
      a branch, has its entries within the payload. */
  lemma RootIff(p: seq<Byte>)
    requires |p| <= MAX_PKT
    ensures Root(p).Ok? <==> && Header(p)
                             && (Num(p, 8) != 0 ==> && p[12] != 0
                                                    && (p[12] == 0x20 ==> Counts(p, 16, 16 + Num(p, 8)) && 24 + 8 * Num(p, 16) <= 16 + Num(p, 8)))
    ensures Root(p).Err? ==> Root(p) == Err(EBADMSG)
    ensures Root(p).Ok? ==> var n := Num(p, 8);
                            Root(p) == if n == 0 then Ok(Cursor(p, |p|, 0, p[12], 0)) else At(p, 16 + n, 16, p[12])
  {
    hide Typed8, Known, At, GetLen, GetDesc, Counts;
    if |p| >= 16 {
      MagicIs(p);
      DescIs(p, 8);
      TypesAre(p[12]);
      if Header(p) && Num(p, 8) != 0 {
        AtIs(p, 16 + Num(p, 8), 16, p[12]);
        Sixteenth(p[12]);
      }
    }
  }

  lemma Sixteenth(t: Byte)
    ensures 16 % Wide(t) == 0
  {
  }

  lemma StrIs(c: Cursor)
    requires c.Sound()
    ensures GetStr(c).Ok? <==> StrBytes(c.pkt, c.base, c.end)
  {
    hide Utf8.Text, GetLen, Counts;
    CountIs(c.pkt, c.base, c.end);
  }

  lemma {:induction false} StrsFromIs(p: seq<Byte>, from: nat, blob: nat, end: nat, n: nat, i: nat)
    requires blob == from + 8 + 4 * (n + 1) && i <= n && blob <= end <= |p| && blob + Num(p, blob - 4) <= end
    ensures var total := Num(p, blob - 4);
            StrsFrom(p[from + 8..blob], p[blob..blob + total], n, i) <==> forall k :: i <= k < n ==> StrAtBytes(p, from, blob, end, k)
    decreases n - i
  {
    hide Utf8.Text, StrAtBytes;
    if i < n {
      StrsFromIs(p, from, blob, end, n, i + 1);
      StrAtIs(p, from, blob, end, n, i);
    }
  }

  lemma StrAtIs(p: seq<Byte>, from: nat, blob: nat, end: nat, n: nat, i: nat)
    requires blob == from + 8 + 4 * (n + 1) && i < n && blob <= end <= |p| && blob + Num(p, blob - 4) <= end
    ensures var offs, bytes := p[from + 8..blob], p[blob..blob + Num(p, blob - 4)];
            StrAtBytes(p, from, blob, end, i) <==>
              && Load4(offs, 4 * i) <= Load4(offs, 4 * (i + 1)) <= |bytes|
              && Utf8.Text(bytes[Load4(offs, 4 * i)..Load4(offs, 4 * (i + 1))])
  {
    hide Utf8.Text, Num, Load4;
    var offs, bytes := p[from + 8..blob], p[blob..blob + Num(p, blob - 4)];
    NumPart(p, from + 8, blob, 4 * i);
    NumPart(p, from + 8, blob, 4 * (i + 1));
    var a, b := Load4(offs, 4 * i), Load4(offs, 4 * (i + 1));
    if a <= b <= |bytes| {
      assert bytes[a..b] == p[blob + a..blob + b];
    }
  }

  lemma NumPart(p: seq<Byte>, from: nat, to: nat, at: nat)
    requires from + at + 4 <= to <= |p|
    ensures Load4(p[from..to], at) == Num(p, from + at)
  {
  }

  lemma StrsIs(c: Cursor)
    requires c.Sound()
    ensures GetStrs(c).Ok? <==> StrsBytes(c.pkt, c.base, c.end)
  {
    hide Utf8.Text, GetLen, Counts, StrAtBytes, StrsFrom, Num, Load4;
    CountIs(c.pkt, c.base, c.end);
    if Counts(c.pkt, c.base, c.end) {
      var n := Num(c.pkt, c.base);
      var blob := c.base + 8 + 4 * (n + 1);
      if blob <= c.end {
        NumPart(c.pkt, c.base + 8, blob, 4 * n);
        if Num(c.pkt, blob - 4) <= c.end - blob {
          StrsFromIs(c.pkt, c.base, blob, c.end, n, 0);
        }
      }
    }
  }

  /** A leaf is read exactly where its bytes are its type's. */
  lemma LeafIs(c: Cursor)
    requires c.Sound() && c.base > 0 && c.t != 0x20 && Known(c.t) && c.t != 0
    ensures Get(c).Ok? <==> Holds(c.pkt, c.base, c.end, c.t)
  {
    hide Utf8.Text, GetLen, Counts, StrsBytes, StrBytes, Known, IsScalar, IsArray, AlignSz;
    TypesAre(c.t);
    CountIs(c.pkt, c.base, c.end);
    StrIs(c);
    StrsIs(c);
  }

  /** What a leaf's bytes are: a scalar's own, any of a boolean but 0 true; else those past the count. */
  predicate Gives(p: seq<Byte>, at: nat, end: nat, t: Byte, v: Value)
    requires end <= |p| && if Scalars(t) then at + Wide(t) <= end else Counts(p, at, end)
  {
    if t == 0x98 then v == VBool(p[at] != 0)
    else if Scalars(t) then v == VNumber(t, p[at..at + Wide(t)])
    else
      var n := Num(p, at);
      if Listed(t) then at + 8 + n * ElemOf(t) <= end && v == VArray(t, p[at + 8..at + 8 + n * ElemOf(t)])
      else if t == 0xb8 then at + 8 + (n + 7) / 8 <= end && v == VBitset(p[at + 8..at + 8 + (n + 7) / 8], n)
      else if t == 0xb9 then at + 8 + n <= end && v == VStr(p[at + 8..at + 8 + n])
      else at + 8 + 4 * (n + 1) <= end && GivesStrs(p, at, end, at + 8 + 4 * (n + 1), v)
  }

  predicate GivesStrs(p: seq<Byte>, at: nat, end: nat, blob: nat, v: Value)
    requires at + 12 <= blob <= end <= |p|
  {
    blob + Num(p, blob - 4) <= end && v == VStrs(p[at + 8..blob], p[blob..blob + Num(p, blob - 4)], Num(p, at))
  }

  lemma LeafGives(c: Cursor)
    requires c.Sound() && c.base > 0 && c.t != 0x20 && Known(c.t) && c.t != 0 && Get(c).Ok?
    ensures if Scalars(c.t) then c.base + Wide(c.t) <= c.end else Counts(c.pkt, c.base, c.end)
    ensures Gives(c.pkt, c.base, c.end, c.t, Get(c).value)
  {
    hide Utf8.Text, GetLen, Counts, Known, IsScalar, IsArray, AlignSz, StrsFrom, StrAtBytes, Num, Load4;
    LeafIs(c);
    TypesAre(c.t);
    CountIs(c.pkt, c.base, c.end);
    if c.t == 0xba {
      var n := Num(c.pkt, c.base);
      NumPart(c.pkt, c.base + 8, c.base + 8 + 4 * (n + 1), 4 * n);
    }
  }

  lemma {:induction false} UntilIs(c: Cursor, i: nat, to: nat)
    requires c.Sound() && c.IsBranch() && 1 <= i <= c.len
    ensures Until(c.pkt, c.base, c.end, c.len, i - 1, to) <==> to == EndFrom(c, i)
    decreases c.len - i
  {
    hide Num, NoneIn, Until;
    UntilLast(c.pkt, c.base, c.end, c.len, to);
    if i < c.len {
      NumIs(c.pkt, Entry(c.base, i));
      if Num(c.pkt, Entry(c.base, i)) == 0 {
        UntilIs(c, i + 1, to);
        UntilPast(c.pkt, c.base, c.end, c.len, i, to);
      } else {
        UntilHere(c.pkt, c.base, c.end, c.len, i, to);
      }
    }
  }

  lemma UntilLast(p: seq<Byte>, from: nat, end: nat, n: nat, to: nat)
    requires from + 8 + 8 * n <= end <= |p|
    ensures n > 0 ==> (Until(p, from, end, n, n - 1, to) <==> to == end)
  {
    hide Num;
  }

  lemma NoneNext(p: seq<Byte>, from: nat, i: nat, j: nat)
    requires i < j && from + 8 + 8 * j <= |p|
    ensures NoneIn(p, from, i, j) <==> Num(p, Entry(from, i)) == 0 && NoneIn(p, from, i + 1, j)
  {
    hide Num, Entry;
  }

  lemma UntilPast(p: seq<Byte>, from: nat, end: nat, n: nat, i: nat, to: nat)
    requires from + 8 + 8 * n <= end <= |p| && 1 <= i < n && Num(p, Entry(from, i)) == 0
    ensures Until(p, from, end, n, i - 1, to) <==> Until(p, from, end, n, i, to)
  {
    hide Num, Entry, NoneIn;
    NoneNext(p, from, i, n);
    forall j | i < j < n
      ensures NoneIn(p, from, i, j) <==> NoneIn(p, from, i + 1, j)
    {
      NoneNext(p, from, i, j);
    }
  }

  lemma UntilHere(p: seq<Byte>, from: nat, end: nat, n: nat, i: nat, to: nat)
    requires from + 8 + 8 * n <= end <= |p| && 1 <= i < n && Num(p, Entry(from, i)) != 0
    ensures Until(p, from, end, n, i - 1, to) <==> to == Min(from + Num(p, Entry(from, i)), end)
  {
    hide Num, NoneIn;
    NoneNext(p, from, i, n);
    assert NoneIn(p, from, i, i) by {
      NoneEmpty(p, from, i);
    }
    assert EndsAt(p, from, end, i, to) <==> to == Min(from + Num(p, Entry(from, i)), end);
    forall j | i < j < n
      ensures !NoneIn(p, from, i, j)
    {
      NoneNext(p, from, i, j);
    }
  }

  lemma NoneEmpty(p: seq<Byte>, from: nat, i: nat)
    requires from + 8 + 8 * i <= |p|
    ensures NoneIn(p, from, i, i)
  {
  }

  // Whole trees

  /** A branch's children read whole, each as it is. */
  lemma {:induction false} KidsIff(c: Cursor, idx: nat)
    requires c.Sound() && c.IsBranch() && idx <= c.len
    ensures GetKids(c, idx).Ok? <==> forall k :: idx <= k < c.len ==> ChildAt(c, k).Ok? && GetDeep(ChildAt(c, k).value).Ok?
    decreases c.len - idx
  {
    hide ChildAt, GetDeep;
    if idx < c.len {
      KidsIff(c, idx + 1);
    }
  }

  /** Any bytes: a node of a type on the wire is read whole exactly where they hold one. */
  lemma {:induction false} DeepIff(p: seq<Byte>, end: nat, from: nat, t: Byte)
    requires end <= |p| <= MAX_PKT && from > 0 && Known(t)
    ensures At(p, end, from, t).Ok? && GetDeep(At(p, end, from, t).value).Ok? <==>
              t != 0 && from % Wide(t) == 0 && Holds(p, from, end, t)
    decreases end - from, 1
  {
    hide Known, Wide, Typed8, Counts, ChildAt, ChildHeld;
    AtIs(p, end, from, t);
    if At(p, end, from, t).Ok? {
      var c := At(p, end, from, t).value;
      if t != 0x20 {
        LeafIs(c);
      } else {
        BranchFalls();
        KidsIff(c, 0);
        forall k | 0 <= k < c.len
          ensures ChildAt(c, k).Ok? && GetDeep(ChildAt(c, k).value).Ok? <==> ChildHeld(p, from, end, c.len, k)
        {
          ChildIff(c, k);
        }
      }
    } else if t == 0x20 {
      BranchFalls();
    }
  }

  lemma BranchFalls()
    ensures !Scalars(0x20) && !Listed(0x20)
  {
  }

  /** Whether a branch's entry describes a child past the entries and before the next. */
  predicate Placed(c: Cursor, k: nat)
    requires c.Sound() && c.IsBranch() && k < c.len
  {
    var off := Num(c.pkt, Entry(c.base, k));
    8 + 8 * c.len <= off < c.end - c.base && c.base + off < EndFrom(c, k + 1)
  }

  predicate Described(p: seq<Byte>, e: nat)
    requires e + 8 <= |p|
  {
    Typed8(p[e + 4]) && p[e + 5] == 0 && p[e + 6] == 0 && p[e + 7] == 0
  }

  lemma ChildAtIs(c: Cursor, k: nat)
    requires c.Sound() && c.IsBranch() && k < c.len
    ensures var e := Entry(c.base, k);
            var off, t := Num(c.pkt, e), c.pkt[e + 4];
            && (ChildAt(c, k).Ok? <==> Described(c.pkt, e) && (off == 0 || (Placed(c, k) && At(c.pkt, EndFrom(c, k + 1), c.base + off, t).Ok?)))
            && (ChildAt(c, k).Ok? ==> if off == 0 then ChildAt(c, k).value.IsNull()
                                      else ChildAt(c, k) == At(c.pkt, EndFrom(c, k + 1), c.base + off, t))
    ensures forall j :: j >= c.len ==> ChildAt(c, j) == Err(EFAULT)
  {
    hide Typed8, EndFrom, At, GetDesc, Num;
    DescIs(c.pkt, Entry(c.base, k));
  }

  lemma {:induction false} ChildIff(c: Cursor, k: nat)
    requires c.Sound() && c.IsBranch() && k < c.len
    ensures ChildAt(c, k).Ok? && GetDeep(ChildAt(c, k).value).Ok? <==> ChildHeld(c.pkt, c.base, c.end, c.len, k)
    decreases c.end - c.base, 0
  {
    hide Known, Wide, Typed8, ChildAt, GetDeep, EndFrom, At, Holds, Until, Num, EndsAt;
    var e := Entry(c.base, k);
    var off, t, to := Num(c.pkt, e), c.pkt[e + 4], EndFrom(c, k + 1);
    ChildAtIs(c, k);
    TypesAre(t);
    OneEnd(c, k);
    assert Until(c.pkt, c.base, c.end, c.len, k, to);
    if off == 0 {
      if ChildAt(c, k).Ok? {
        NullRead(ChildAt(c, k).value);
      }
    } else if Described(c.pkt, e) && Placed(c, k) {
      DeepIff(c.pkt, to, c.base + off, t);
    }
  }

  lemma OneEnd(c: Cursor, k: nat)
    requires c.Sound() && c.IsBranch() && k < c.len
    ensures forall to :: Until(c.pkt, c.base, c.end, c.len, k, to) <==> to == EndFrom(c, k + 1)
  {
    hide Until, EndFrom;
    forall to: nat
      ensures Until(c.pkt, c.base, c.end, c.len, k, to) <==> to == EndFrom(c, k + 1)
    {
      UntilIs(c, k + 1, to);
    }
  }

  lemma NullRead(c: Cursor)
    requires c.Sound() && c.IsNull()
    ensures GetDeep(c).Ok?
  {
  }

  /** Any bytes: a packet is read whole exactly where its header is one and its payload holds a node of its type, or is
      empty. */
  lemma PacketIff(p: seq<Byte>)
    requires |p| <= MAX_PKT
    ensures Root(p).Ok? && GetDeep(Root(p).value).Ok? <==>
              Header(p) && (Num(p, 8) == 0 || (p[12] != 0 && Holds(p, 16, 16 + Num(p, 8), p[12])))
  {
    hide Root, Known, Typed8, Wide, Holds, At, Counts, GetDeep, Num;
    RootIff(p);
    if Root(p).Ok? && Num(p, 8) == 0 {
      NullRead(Root(p).value);
    }
    if Header(p) {
      TypesAre(p[12]);
      Sixteenth(p[12]);
      if Num(p, 8) != 0 {
        DeepIff(p, 16 + Num(p, 8), 16, p[12]);
        AtIs(p, 16 + Num(p, 8), 16, p[12]);
      }
    }
  }

  // Grafts

  /** A finished packet as it must be to be placed: its payload, where it has one, whole units of its root's type. */
  predicate Graftable(p: seq<Byte>) {
    Header(p) && (Num(p, 8) != 0 ==> p[12] != 0 && Num(p, 8) % Wide(p[12]) == 0)
  }

  lemma GraftIff(p: seq<Byte>)
    ensures GraftDesc(p).Ok? <==> Graftable(p)
    ensures GraftDesc(p).Ok? ==> GraftDesc(p).value == Desc(Num(p, 8), p[12])
    ensures GraftDesc(p).Err? ==> GraftDesc(p) == Err(EBADMSG)
  {
    hide Typed8, Known, GetLen, GetDesc, Wide;
    if |p| >= 16 {
      MagicIs(p);
      DescIs(p, 8);
      TypesAre(p[12]);
    }
  }
}
