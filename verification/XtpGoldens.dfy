/** Packets byte for byte, as the golden records that hold every language's encoding to the same bytes have them. */
module XtpGoldens {
  import opened Arith
  import opened Bytes
  import opened XtpTree

  /** A packet is its header, its root's bytes, and zeros to a multiple of eight. */
  lemma Framed(t: Tree, body: seq<Byte>, pad: nat)
    requires Body(t) == body && |body| < 256 && pad < 8 && (|body| + pad) % 8 == 0
    ensures Packet(t) == [0x58, 0x54, 0x50, 0, 0, 0, 0, 0, |body|, 0, 0, 0, TypeOf(t), 0, 0, 0] + body + Zeros(pad)
  {
    hide Body, TypeOf, Slot, RoundUp;
    Slots(|body|, TypeOf(t));
    Rounded(HDR + |body|, pad);
  }

  lemma Slots(n: nat, t: Byte)
    requires n < 256
    ensures Slot(MAGIC, 0) == [0x58, 0x54, 0x50, 0, 0, 0, 0, 0] && Slot(n, t) == [n, 0, 0, 0, t, 0, 0, 0]
  {
  }

  lemma Rounded(n: nat, pad: nat)
    requires pad < 8 && (n + pad) % 8 == 0
    ensures RoundUp(n, WORD) == n + pad
  {
  }

  lemma Nil()
    ensures Packet(Null(0)) == [0x58, 0x54, 0x50, 0, 0, 0, 0, 0, 0, 0, 0, 0, 0, 0, 0, 0]
  {
    Framed(Null(0), [], 0);
  }

  lemma TypedNull()
    ensures Packet(Null(0x82)) == [0x58, 0x54, 0x50, 0, 0, 0, 0, 0, 0, 0, 0, 0, 0x82, 0, 0, 0]
  {
    Framed(Null(0x82), [], 0);
  }

  lemma Number()
    ensures Packet(Scalar(0x8a, [0x2a, 0, 0, 0])) == [0x58, 0x54, 0x50, 0, 0, 0, 0, 0, 4, 0, 0, 0, 0x8a, 0, 0, 0] + [0x2a, 0, 0, 0, 0, 0, 0, 0]
  {
    Framed(Scalar(0x8a, [0x2a, 0, 0, 0]), [0x2a, 0, 0, 0], 4);
  }

  lemma Text()
    ensures Packet(Str([0x68, 0xc3, 0xa9, 0x6c, 0x6c, 0x6f]))
            == [0x58, 0x54, 0x50, 0, 0, 0, 0, 0, 0x10, 0, 0, 0, 0xb9, 0, 0, 0]
               + [6, 0, 0, 0, 0, 0, 0, 0, 0x68, 0xc3, 0xa9, 0x6c, 0x6c, 0x6f, 0, 0]
  {
    hide Slot, RoundUp;
    var t, body := Str([0x68, 0xc3, 0xa9, 0x6c, 0x6c, 0x6f]), [6, 0, 0, 0, 0, 0, 0, 0, 0x68, 0xc3, 0xa9, 0x6c, 0x6c, 0x6f, 0, 0];
    Small(6, 0);
    Rounded(7, 1);
    assert Body(t) == body;
    Framed(t, body, 0);
  }

  lemma Shorts()
    ensures Packet(Array(0xa1, [1, 0, 2, 0, 3, 0]))
            == [0x58, 0x54, 0x50, 0, 0, 0, 0, 0, 0x10, 0, 0, 0, 0xa1, 0, 0, 0] + [3, 0, 0, 0, 0, 0, 0, 0, 1, 0, 2, 0, 3, 0, 0, 0]
  {
    hide Slot, RoundUp;
    Small(3, 0);
    Rounded(6, 2);
    var t, body := Array(0xa1, [1, 0, 2, 0, 3, 0]), [3, 0, 0, 0, 0, 0, 0, 0, 1, 0, 2, 0, 3, 0, 0, 0];
    assert ElemSz(0xa1) == 2 by {
      Powers();
    }
    assert Body(t) == body;
    Framed(t, body, 0);
  }

  lemma Bits()
    ensures Packet(Bitset([true, false, true, true, false, false, false, false, true]))
            == [0x58, 0x54, 0x50, 0, 0, 0, 0, 0, 0x10, 0, 0, 0, 0xb8, 0, 0, 0] + [9, 0, 0, 0, 0, 0, 0, 0, 0x0d, 1, 0, 0, 0, 0, 0, 0]
  {
    var bits := [true, false, true, true, false, false, false, false, true];
    var t, body := Bitset(bits), [9, 0, 0, 0, 0, 0, 0, 0, 0x0d, 1, 0, 0, 0, 0, 0, 0];
    hide Packed, Slot, RoundUp;
    BitsPacked(bits);
    Small(9, 0);
    Rounded(2, 6);
    assert Body(t) == body;
    Framed(t, body, 0);
  }

  lemma BitsPacked(bits: seq<bool>)
    requires bits == [true, false, true, true, false, false, false, false, true]
    ensures Packed(bits, 9) == [0x0d, 1]
  {
    hide Pow2;
    Powers();
    assert Packed(bits, 1) == [1, 0] == Packed(bits, 2);
    assert Packed(bits, 3) == [5, 0];
    assert Packed(bits, 4) == [13, 0] == Packed(bits, 5);
    assert Packed(bits, 7) == [13, 0] == Packed(bits, 6);
    assert Packed(bits, 8) == [13, 0];
  }

  lemma Strings()
    ensures Packet(Strs([[0x61], [], [0x68, 0xc3, 0xa9, 0x6c, 0x6c, 0x6f]]))
            == [0x58, 0x54, 0x50, 0, 0, 0, 0, 0, 0x20, 0, 0, 0, 0xba, 0, 0, 0]
               + ([3, 0, 0, 0, 0, 0, 0, 0]
                  + ([0, 0, 0, 0] + [1, 0, 0, 0, 1, 0, 0, 0, 7, 0, 0, 0] + [0x61, 0x68, 0xc3, 0xa9, 0x6c, 0x6c, 0x6f] + [0]))
  {
    hide Blob, Lane, RoundUp, Le4, Slot, Body, Packet, PadTo;
    var items: seq<seq<Byte>> := [[0x61], [], [0x68, 0xc3, 0xa9, 0x6c, 0x6c, 0x6f]];
    Offsets(items);
    Small(0, 0);
    StringsBody(items);
    Framed(Strs(items), [3, 0, 0, 0, 0, 0, 0, 0] + (Le4(0) + Lane(items, 3) + Blob(items, 3) + [0]), 0);
    assert Zeros(0) == [];
  }

  lemma StringsBody(items: seq<seq<Byte>>)
    requires |items| == 3 && |Blob(items, 3)| == 7
    ensures Body(Strs(items)) == [3, 0, 0, 0, 0, 0, 0, 0] + (Le4(0) + Lane(items, 3) + Blob(items, 3) + [0])
  {
    hide Blob, Lane, RoundUp, Le4, Slot;
    Small(3, 0);
    Rounded(23, 1);
    assert PadTo(23, WORD) == [0];
  }

  lemma Small(n: nat, t: nat)
    requires n < 256 && t < 256
    ensures Le4(n) == [n, 0, 0, 0] && Slot(n, t) == [n, 0, 0, 0, t, 0, 0, 0]
  {
  }

  lemma Offsets(items: seq<seq<Byte>>)
    requires items == [[0x61], [], [0x68, 0xc3, 0xa9, 0x6c, 0x6c, 0x6f]]
    ensures Blob(items, 3) == [0x61, 0x68, 0xc3, 0xa9, 0x6c, 0x6c, 0x6f]
    ensures Lane(items, 3) == [1, 0, 0, 0, 1, 0, 0, 0, 7, 0, 0, 0]
  {
    hide Le4;
    Small(1, 0);
    Small(7, 0);
    assert Blob(items, 1) == [0x61] == Blob(items, 2);
    assert Blob(items, 3) == [0x61, 0x68, 0xc3, 0xa9, 0x6c, 0x6c, 0x6f];
    assert Lane(items, 1) == [1, 0, 0, 0];
    assert Lane(items, 2) == [1, 0, 0, 0, 1, 0, 0, 0];
  }

  /** A null, a null that has a type, a string that is null, and a number, which alone has bytes. */
  lemma Branches()
    ensures Packet(Branch([Null(0), Null(0x80), Null(0xb9), Scalar(0x82, [9, 0, 0, 0])]))
            == [0x58, 0x54, 0x50, 0, 0, 0, 0, 0, 0x30, 0, 0, 0, 0x20, 0, 0, 0]
               + [4, 0, 0, 0, 0, 0, 0, 0, 0, 0, 0, 0, 0, 0, 0, 0, 0, 0, 0, 0, 0x80, 0, 0, 0, 0, 0, 0, 0, 0xb9, 0, 0, 0,
                  0x28, 0, 0, 0, 0x82, 0, 0, 0, 9, 0, 0, 0, 0, 0, 0, 0]
  {
    hide Kids, Entries, RoundUp, Slot;
    var kids := [Null(0), Null(0x80), Null(0xb9), Scalar(0x82, [9, 0, 0, 0])];
    KidsLaid(kids);
    var all := Slot(4, 0) + Entries(kids, 4) + Kids(kids, 4);
    Small(4, 0);
    Rounded(44, 4);
    assert Body(Branch(kids)) == all + Zeros(4);
    Framed(Branch(kids), all + Zeros(4), 0);
  }

  lemma KidsLaid(kids: seq<Tree>)
    requires kids == [Null(0), Null(0x80), Null(0xb9), Scalar(0x82, [9, 0, 0, 0])]
    ensures Kids(kids, 4) == [9, 0, 0, 0]
    ensures Entries(kids, 4) == [0, 0, 0, 0, 0, 0, 0, 0, 0, 0, 0, 0, 0x80, 0, 0, 0, 0, 0, 0, 0, 0xb9, 0, 0, 0, 0x28, 0, 0, 0, 0x82, 0, 0, 0]
  {
    hide Kids, Entries, Slot, KidAt;
    KidsNone(kids);
    Absent(kids, 0);
    Absent(kids, 1);
    Absent(kids, 2);
    Present(kids, 3, 0x28);
    Small(0, 0);
    Small(0, 0x80);
    Small(0, 0xb9);
    Small(0x28, 0x82);
  }

  lemma KidsNone(kids: seq<Tree>)
    ensures Kids(kids, 0) == [] && Entries(kids, 0) == []
  {
  }

  lemma Absent(kids: seq<Tree>, k: nat)
    requires k < |kids| && kids[k].Null?
    ensures Kids(kids, k + 1) == Kids(kids, k) && Entries(kids, k + 1) == Entries(kids, k) + Slot(0, kids[k].t)
  {
    hide Slot, KidAt;
  }

  /** A scalar of four bytes where four bytes' multiple is. */
  lemma Present(kids: seq<Tree>, k: nat, at: nat)
    requires k < |kids| && kids[k].Scalar? && kids[k].t == 0x82 && |kids[k].bytes| == 4
    requires Kids(kids, k) == [] && at == TableSz(|kids|) && at % 4 == 0
    ensures Kids(kids, k + 1) == kids[k].bytes && Entries(kids, k + 1) == Entries(kids, k) + Slot(at, 0x82)
  {
    hide Slot;
    assert RoundUp(at, 4) == at;
    assert PadTo(at, 4) == [];
  }
}
