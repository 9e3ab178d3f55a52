/** The packet writer as it runs: a tree written in place into a buffer, its children's entries filled in as each
    is placed. */
module XtpWriter {
  import opened Bytes
  import opened XtpTree
  import opened XtpPlacing
  import opened Prelude
  import W = XtpWire

  class PacketWriter {
    const buf: array<Byte>
    const cap: nat
    var lim: nat
    var frame: Frame
    var rootType: Byte
    /** The first reason only. */
    var err: Option<Errno>

    ghost predicate Valid()
      reads this, buf
    {
      && cap <= buf.Length && cap <= MAX_PKT
      && (cap < HDR ==> err.Some?)
      && (err.None? ==> HDR <= lim <= cap && (frame.root || FrameIn(frame, lim)))
    }

    /** What has been written: nothing to count on once refused. */
    function Content(): (s: seq<Byte>)
      requires Valid()
      reads this, buf
      ensures err.None? ==> |s| == lim
    {
      if err.None? then buf[..lim] else []
    }

    constructor (buf: array<Byte>)
      modifies buf
      ensures Valid() && this.buf == buf && cap == Min(buf.Length, MAX_PKT)
      ensures err == (if cap < HDR then Some(EINVAL) else None)
      ensures err.None? ==> Content() == Zeros(HDR)
      ensures frame == Frame(0, 1, 0, true)
    {
      this.buf := buf;
      cap := Min(buf.Length, MAX_PKT);
      lim := HDR;
      frame := Frame(0, 1, 0, true);
      rootType := NIL;
      err := if Min(buf.Length, MAX_PKT) < HDR then Some(EINVAL) else None;
      new;
      if err.None? {
        Zero(0, HDR);
        assert buf[..HDR] == Zeros(HDR);
      }
    }

    // Memory

    method Zero(from: nat, to: nat)
      requires from <= to <= buf.Length
      modifies buf
      ensures buf[..] == Splice(old(buf[..]), from, Zeros(to - from))
    {
      forall k | from <= k < to {
        buf[k] := 0;
      }
    }

    method Store(off: nat, s: seq<Byte>)
      requires off + |s| <= buf.Length
      modifies buf
      ensures buf[..] == Splice(old(buf[..]), off, s)
    {
      forall k | 0 <= k < |s| {
        buf[off + k] := s[k];
      }
    }

    method SetWord(off: nat, lo: nat, hi: nat)
      requires off + WORD <= buf.Length
      modifies buf
      ensures buf[..] == Splice(old(buf[..]), off, Slot(lo, hi))
    {
      Store(off, Slot(lo, hi));
    }

    /** Bytes stored among those written. */
    method StoreIn(off: nat, s: seq<Byte>)
      requires Valid() && err.None? && off + |s| <= lim
      modifies buf
      ensures Valid() && Content() == Splice(old(Content()), off, s)
    {
      SplicePrefix(buf[..], lim, off, s);
      Store(off, s);
    }

    // Room

    method Spoil(errno: Errno)
      modifies this`err
      ensures err == Then(old(err), Some(errno))
    {
      if err.None? {
        err := Some(errno);
      }
    }

    /** Room for `bytes` from a multiple of `unit`, zeroed, with what comes before it. */
    method Reserve(unit: nat, bytes: nat) returns (at: Option<nat>)
      requires Valid() && unit > 0
      modifies this`lim, this`err, buf
      ensures Valid() && err == Then(old(err), NoRoom(old(lim), unit, bytes, cap))
      ensures at.Some? == err.None?
      ensures err.None? ==> && at == Some(RoundUp(old(lim), unit))
                            && Content() == old(Content()) + PadTo(old(lim), unit) + Zeros(bytes)
    {
      if err.Some? {
        return None;
      }
      var base := RoundUp(lim, unit);
      var end := base + bytes;
      if end > cap {
        Spoil(EOVERFLOW);
        return None;
      }
      ghost var b := Content();
      Zero(lim, end);
      lim := end;
      ZeroedOn(b, old(buf[..]), buf[..], unit, bytes);
      return Some(base);
    }

    /** A child's or the root's entry. */
    method Entry(at: Option<nat>, t: Byte)
      requires Valid() && frame.written < frame.cnt
      requires err.None? && at.Some? ==> frame.root || frame.base <= at.value
      modifies this`frame, this`rootType, buf
      ensures Valid() && frame == old(frame).(written := old(frame).written + 1)
      ensures rootType == if frame.root then t else old(rootType)
      ensures err.None? ==> Content() == Entered(old(Content()), old(frame), at, t)
    {
      hide Slot, Splice;
      if frame.root {
        rootType := t;
      } else if err.None? {
        StoreIn(frame.base + WORD + frame.written * WORD, Slot(if at.Some? then at.value - frame.base else 0, t));
      }
      frame := frame.(written := frame.written + 1);
    }

    // Nodes

    /** Node `t` has been placed after `b`, or refused. */
    ghost predicate Wrote(b: seq<Byte>, e: Option<Errno>, t: Tree, at: Option<nat>)
      reads this, buf
    {
      && Valid() && err == Then(e, Refusal(t, |b|, cap))
      && (err.None? ==> Content() == Place(b, t) && at == PlaceAt(b, t))
    }

    /** Node `t` has been placed after `b` and entered in frame `f`, or refused. */
    ghost predicate Done(b: seq<Byte>, e: Option<Errno>, f: Frame, ty: Byte, t: Tree)
      requires f.root || (FrameIn(f, |b|) && f.written < f.cnt) || e.Some?
      reads this, buf
    {
      && Valid() && err == Then(e, Refusal(t, |b|, cap))
      && frame == f.(written := f.written + 1) && rootType == (if f.root then TypeOf(t) else ty)
      && (err.None? ==> Content() == Entered(Place(b, t), f, PlaceAt(b, t), TypeOf(t)))
    }

    ghost predicate Ready()
      reads this, buf
    {
      Valid() && frame.written < frame.cnt
    }

    /** A placed node entered. */
    method EnterAs(at: Option<nat>, t: Byte, ghost n: Tree, ghost b: seq<Byte>, ghost e: Option<Errno>)
      requires Ready() && Wrote(b, e, n, at) && t == TypeOf(n)
      requires frame.root || (FrameIn(frame, |b|) && frame.written < frame.cnt) || e.Some?
      modifies this`frame, this`rootType, buf
      ensures Done(b, e, old(frame), old(rootType), n)
    {
      hide Refusal, Body, Entered, Slot, TypeOf;
      Entry(at, t);
    }

    method Null(t: Byte)
      requires Ready()
      modifies this`frame, this`rootType, buf
      ensures Done(old(Content()), old(err), old(frame), old(rootType), Tree.Null(t))
    {
      Entry(None, t);
    }

    method Scalar(t: Byte, v: seq<Byte>)
      requires Ready() && Typed(Tree.Scalar(t, v))
      modifies this`lim, this`err, this`frame, this`rootType, buf
      ensures Done(old(Content()), old(err), old(frame), old(rootType), Tree.Scalar(t, v))
    {
      ghost var b, e, n := Content(), err, Tree.Scalar(t, v);
      ScalarUnit(t, v);
      var at := Reserve(|v|, |v|);
      if at.Some? {
        SpliceEnd(b + PadTo(|b|, |v|), Zeros(|v|), v);
        StoreIn(at.value, v);
      }
      EnterAs(at, t, n, b, e);
    }

    /** Room for a sequence of `bytes`, its length before them. */
    method Sequence(len: nat, bytes: nat) returns (at: Option<nat>)
      requires Valid()
      modifies this`lim, this`err, buf
      ensures Valid() && err == Then(old(err), NoRoom(|old(Content())|, WORD, WORD + RoundUp(bytes, WORD), cap))
      ensures at.Some? == err.None?
      ensures err.None? ==> && at == Some(RoundUp(|old(Content())|, WORD))
                            && Content() == Head(old(Content()), len) + Zeros(RoundUp(bytes, WORD))
    {
      ghost var b := Content();
      at := Reserve(WORD, WORD + RoundUp(bytes, WORD));
      if at.Some? {
        SpliceSlot(b + PadTo(|b|, WORD), WORD + RoundUp(bytes, WORD), len);
        StoreIn(at.value, Slot(len, 0));
      }
    }

    method Array(t: Byte, a: seq<Byte>)
      requires Ready() && Typed(Tree.Array(t, a))
      modifies this`lim, this`err, this`frame, this`rootType, buf
      ensures Done(old(Content()), old(err), old(frame), old(rootType), Tree.Array(t, a))
    {
      hide Part, Head, Splice, Slot, Place, PlaceAt, Padded, Zeros, ElemSz, Refusal, Entered, Done, Known, IsArray, RoundUp;
      ghost var b, e, n := Content(), err, Tree.Array(t, a);
      var z, len := ElemSz(t), |a| / ElemSz(t);
      SequenceUnit(n);
      RefusalLeaf(n, |b|, cap);
      Elements(|a|, z);
      var at := Sequence(len, len * z);
      if at.Some? {
        PutElements(at.value + WORD, a, z, Head(b, len));
        SequencePlaced(b, n, len, Padded(a));
      }
      EnterAs(at, t, n, b, e);
    }

    /** A payload's elements, one by one. */
    method PutElements(payload: nat, a: seq<Byte>, z: nat, ghost p: seq<Byte>)
      requires Valid() && err.None? && z > 0 && |a| % z == 0 && payload == |p|
      requires Content() == p + Zeros(RoundUp(|a|, WORD))
      modifies buf
      ensures Valid() && Content() == p + Padded(a)
    {
      hide Part, Splice, Padded, Zeros, RoundUp;
      var i, len := 0, |a| / z;
      Elements(|a|, z);
      PartWhole(a);
      while i < len
        invariant i <= len && i * z <= |a| && Valid()
        invariant Content() == p + Part(a, i * z, RoundUp(|a|, WORD))
      {
        ElementIn(i, len, z);
        NextPart(p, a, i * z, (i + 1) * z, RoundUp(|a|, WORD));
        StoreIn(payload + i * z, a[i * z..(i + 1) * z]);
        i := i + 1;
      }
    }

    method Bitset(bits: seq<bool>)
      requires Ready() && Typed(Tree.Bitset(bits))
      modifies this`lim, this`err, this`frame, this`rootType, buf
      ensures Done(old(Content()), old(err), old(frame), old(rootType), Tree.Bitset(bits))
    {
      hide Head, Splice, Slot, Place, PlaceAt, Padded, Zeros, Refusal, Entered, Done, RoundUp, SetBit, Packed;
      ghost var b, e, n := Content(), err, Tree.Bitset(bits);
      var len, z := |bits|, (|bits| + 7) / 8;
      SequenceUnit(n);
      RefusalLeaf(n, |b|, cap);
      var at := Sequence(len, z);
      if at.Some? {
        PackedStart(bits);
        PutBits(at.value, bits, Head(b, len));
        SequencePlaced(b, n, len, Padded(Packed(bits, len)));
      }
      EnterAs(at, BITSET, n, b, e);
    }

    /** The bits set, one at a time, in the zeros of the payload. */
    method PutBits(at: nat, bits: seq<bool>, ghost p: seq<Byte>)
      requires Valid() && err.None? && |p| == at + WORD && Content() == p + Padded(Packed(bits, 0))
      modifies buf
      ensures Valid() && Content() == p + Padded(Packed(bits, |bits|))
    {
      hide Splice, Padded, SetBit, Packed, Zeros;
      var i := 0;
      while i < |bits|
        invariant i <= |bits| && Valid() && Content() == p + Padded(Packed(bits, i))
      {
        PackedNext(p, bits, i);
        if bits[i] {
          StoreIn(at + WORD + i / 8, [SetBit(buf[at + WORD + i / 8], i % 8)]);
        }
        i := i + 1;
      }
    }

    // Strings, copied the way one written in place goes in

    function StrPayload(): nat
      reads this
    {
      RoundUp(lim, WORD) + WORD
    }

    method StrRoom() returns (room: Option<nat>)
      requires Valid()
      modifies this`err
      ensures Valid()
      ensures room.Some? == err.None?
      ensures err == Then(old(err), if RoundUp(lim, WORD) + WORD > cap then Some(EOVERFLOW) else None)
      ensures room.Some? ==> room.value == cap - RoundUp(lim, WORD) - WORD
    {
      if err.Some? {
        return None;
      }
      var payload := StrPayload();
      if payload > cap {
        Spoil(EOVERFLOW);
        return None;
      }
      return Some(cap - payload);
    }

    /** The string already past its length's slot, made a node. */
    method StrCommit(len: nat, ghost b: seq<Byte>, ghost s: seq<Byte>) returns (at: Option<nat>)
      requires Valid() && err.None? && b == Content() && |s| == len
      requires RoundUp(lim, WORD) + WORD + len <= cap && buf[RoundUp(lim, WORD) + WORD..RoundUp(lim, WORD) + WORD + len] == s
      modifies this`lim, this`err, buf
      ensures Valid() && err == NoRoom(|b|, WORD, WORD + RoundUp(len + 1, WORD), cap) && at.Some? == err.None?
      ensures err.None? ==> at == Some(RoundUp(|b|, WORD)) && Content() == Head(b, len) + Padded(s + [0])
    {
      hide Splice, Zeros, Slot, Head, Padded, RoundUp;
      RoundsUp(lim, len + 1);
      var payload := StrPayload();
      var end := RoundUp(payload + len + 1, WORD);
      if end > cap {
        Spoil(EOVERFLOW);
        return None;
      }
      var base := payload - WORD;
      Zero(lim, base);
      Zero(payload + len, end);
      SetWord(base, len, 0);
      StrLaid(b, s, old(buf[..]), buf[..], end);
      lim := end;
      return Some(base);
    }

    method Str(s: seq<Byte>)
      requires Ready() && Typed(Tree.Str(s))
      modifies this`lim, this`err, this`frame, this`rootType, buf
      ensures Done(old(Content()), old(err), old(frame), old(rootType), Tree.Str(s))
    {
      hide Head, Splice, Slot, Place, PlaceAt, Padded, Zeros, Refusal, Entered, Done;
      ghost var b, e, n := Content(), err, Tree.Str(s);
      SequenceUnit(n);
      RefusalLeaf(n, |b|, cap);
      var at: Option<nat> := None;
      var room := StrRoom();
      if room.Some? {
        var payload := StrPayload();
        if |s| > room.value {
          Spoil(EOVERFLOW);
        } else {
          StoredPast(buf[..], lim, payload, s);
          Store(payload, s);
          at := StrCommit(|s|, b, s);
          SequencePlaced(b, n, |s|, Padded(s + [0]));
        }
      }
      EnterAs(at, STR, n, b, e);
    }

    method Strs(items: seq<seq<Byte>>)
      requires Ready() && Typed(Tree.Strs(items))
      modifies this`lim, this`err, this`frame, this`rootType, buf
      ensures Done(old(Content()), old(err), old(frame), old(rootType), Tree.Strs(items))
    {
      hide Head, Splice, Slot, Place, PlaceAt, Padded, Zeros, Refusal, Entered, Done, RoundUp, Lane, Blob, Le4, StrsPart;
      ghost var b, e, t := Content(), err, Tree.Strs(items);
      var n, lane := |items|, 4 * (|items| + 1);
      SequenceUnit(t);
      RefusalLeaf(t, |b|, cap);
      var blob := BlobLen(items);
      var at := Sequence(n, lane + blob);
      if at.Some? {
        PutStrings(at.value + WORD, items, Head(b, n));
        StrsDone(items);
        SequencePlaced(b, t, n, StrsPart(items, n));
      }
      EnterAs(at, STRS, t, b, e);
    }

    /** The strings' bytes, and the offset past each. */
    method PutStrings(payload: nat, items: seq<seq<Byte>>, ghost p: seq<Byte>)
      requires Valid() && err.None? && payload == |p|
      requires Content() == p + Zeros(RoundUp(4 * (|items| + 1) + |Blob(items, |items|)|, WORD))
      modifies buf
      ensures Valid() && Content() == p + StrsPart(items, |items|)
    {
      hide Splice, Zeros, RoundUp, Lane, Blob, Le4, StrsPart;
      var n, lane, off, i := |items|, 4 * (|items| + 1), 0, 0;
      StrsFirst(p, items);
      StoreIn(payload, Le4(0));
      while i < n
        invariant i <= n && Valid() && off == |Blob(items, i)|
        invariant Content() == p + StrsPart(items, i)
      {
        StrsNext(p, items, i);
        StoreIn(payload + lane + off, items[i]);
        off := off + |items[i]|;
        StoreIn(payload + 4 * (i + 1), Le4(off));
        i := i + 1;
      }
    }

    method BlobLen(items: seq<seq<Byte>>) returns (blob: nat)
      ensures blob == |Blob(items, |items|)|
    {
      blob := 0;
      var i := 0;
      while i < |items|
        invariant i <= |items| && blob == |Blob(items, i)|
      {
        blob := blob + |items[i]|;
        i := i + 1;
      }
    }

    // Branches

    method BranchOpen(cnt: nat) returns (at: Option<nat>)
      requires Valid()
      modifies this`lim, this`err, buf
      ensures Valid() && err == Then(old(err), NoRoom(|old(Content())|, WORD, TableSz(cnt), cap))
      ensures at.Some? == err.None?
      ensures err.None? ==> && at == Some(RoundUp(|old(Content())|, WORD))
                            && Content() == Head(old(Content()), cnt) + Zeros(WORD * cnt)
    {
      ghost var b := Content();
      at := Reserve(WORD, WORD + cnt * WORD);
      if at.Some? {
        SpliceSlot(b + PadTo(|b|, WORD), WORD + cnt * WORD, cnt);
        StoreIn(at.value, Slot(cnt, 0));
      }
    }

    /** A branch ends on a word, so that what follows it starts on one. */
    method BranchClose(at: Option<nat>) returns (r: Option<nat>)
      requires Valid() && (err.None? ==> at.Some?)
      modifies this`lim, this`err, buf
      ensures Valid()
      ensures err == Then(old(err), if RoundUp(old(lim), WORD) > cap then Some(EOVERFLOW) else None)
      ensures err.None? ==> r == at && Content() == old(Content()) + PadTo(old(lim), WORD)
    {
      if at.None? || err.Some? {
        return at;
      }
      var end := RoundUp(lim, WORD);
      if end > cap {
        Spoil(EOVERFLOW);
        return None;
      }
      ghost var b := Content();
      Zero(lim, end);
      lim := end;
      ZeroedOn(b, old(buf[..]), buf[..], WORD, 0);
      return at;
    }

    method Branch(kids: seq<Tree>)
      requires Ready() && Typed(Tree.Branch(kids))
      modifies this`lim, this`err, this`frame, this`rootType, buf
      ensures Done(old(Content()), old(err), old(frame), old(rootType), Tree.Branch(kids))
      decreases kids, 1
    {
      hide Head, Splice, Slot, Place, PlaceAt, Padded, Zeros, Refusal, KidsRefusal, Entered, Done, RoundUp, Body, PadTo, Stage;
      ghost var b, e, t, n := Content(), err, Tree.Branch(kids), |kids|;
      var at := BranchOpen(|kids|);
      var outer := frame;
      frame := Frame(if at.Some? then at.value else 0, |kids|, 0, false);
      ghost var p, e1 := b + PadTo(|b|, WORD), err;
      BranchBegun(b, kids);
      Fill(kids, p, e1);
      frame := outer;
      BranchDone(b, kids, cap);
      at := BranchClose(at);
      EnterAs(at, BRANCH, t, b, e);
    }

    /** A branch's children, each entered in its frame. */
    method Fill(kids: seq<Tree>, ghost p: seq<Byte>, ghost e: Option<Errno>)
      requires Valid() && Typed(Tree.Branch(kids)) && err == e && !frame.root && frame.cnt == |kids| && frame.written == 0
      requires err.None? ==> Content() == p + Stage(kids, 0) && frame.base == |p| && |p| % WORD == 0 && |p| >= HDR
      modifies this`lim, this`err, this`frame, this`rootType, buf
      ensures Valid() && rootType == old(rootType) && frame == old(frame).(written := |kids|)
      ensures err == Then(e, KidsRefusal(kids, |p|, cap, |kids|))
      ensures err.None? ==> Content() == p + Stage(kids, |kids|)
      decreases kids, 0
    {
      hide Place, PlaceAt, Refusal, KidsRefusal, Entered, Body, Stage;
      var k := 0;
      NoneRefused(kids, |p|, cap);
      while k < |kids|
        invariant k <= |kids| && Valid() && rootType == old(rootType) && frame == old(frame).(written := k)
        invariant err == Then(e, KidsRefusal(kids, |p|, cap, k))
        invariant err.None? ==> Content() == p + Stage(kids, k)
      {
        NextRefused(kids, |p|, cap, k);
        if err.None? {
          StageNext(p, kids, k);
        }
        Walk(kids[k]);
        k := k + 1;
      }
    }

    // Packets

    /** A packet's root's payload copied, placed as its root's type places it; refused as no packet exactly where its
        bytes are none. */
    method Graft(pkt: seq<Byte>)
      requires Ready() && Typed(Tree.Graft(pkt))
      modifies this`lim, this`err, this`frame, this`rootType, buf
      ensures Done(old(Content()), old(err), old(frame), old(rootType), Tree.Graft(pkt))
      ensures old(err).None? ==> (err == Some(EBADMSG) <==> !W.Graftable(pkt))
    {
      hide Splice, Slot, Place, PlaceAt, Zeros, Entered, Done, RoundUp, PadTo;
      ghost var b, e, t := Content(), err, Tree.Graft(pkt);
      var at: Option<nat>, ty := None, NIL;
      var d := GraftDesc(pkt);
      GraftPlaced(b, pkt);
      W.GraftIff(pkt);
      NotPacket(pkt, |b|, cap);
      if d.Err? {
        Spoil(EBADMSG);
      } else {
        ty := d.value.t;
        if d.value.off != 0 {
          var unit := AlignSz(ty).value;
          at := Reserve(unit, d.value.off);
          if at.Some? {
            SpliceEnd(b + PadTo(|b|, unit), Zeros(d.value.off), pkt[HDR..HDR + d.value.off]);
            StoreIn(at.value, pkt[HDR..HDR + d.value.off]);
          }
        }
      }
      EnterAs(at, ty, t, b, e);
      DoneRefusal(b, e, old(frame), old(rootType), t);
    }

    lemma DoneRefusal(b: seq<Byte>, e: Option<Errno>, f: Frame, ty: Byte, t: Tree)
      requires (f.root || (FrameIn(f, |b|) && f.written < f.cnt) || e.Some?) && Done(b, e, f, ty, t)
      ensures err == Then(e, Refusal(t, |b|, cap))
    {
    }

    method Walk(t: Tree)
      requires Ready() && Typed(t)
      modifies this`lim, this`err, this`frame, this`rootType, buf
      ensures Done(old(Content()), old(err), old(frame), old(rootType), t)
      decreases t
    {
      hide Done;
      match t
      case Null(ty) => Null(ty);
      case Scalar(ty, v) => Scalar(ty, v);
      case Array(ty, a) => Array(ty, a);
      case Bitset(bits) => Bitset(bits);
      case Str(s) => Str(s);
      case Strs(items) => Strs(items);
      case Branch(kids) => Branch(kids);
      case Graft(pkt) => Graft(pkt);
    }

    /** The packet's length, to the word, or why it was refused. */
    method Finish(ghost t: Tree) returns (r: Result<nat>)
      requires Valid() && frame.root && frame.written == frame.cnt
      requires err.None? ==> Content() == Zeros(HDR) + Body(t) && rootType == TypeOf(t)
      modifies this`err, buf
      ensures err.Some? ==> r == Err(err.value)
      ensures old(err).Some? ==> err == old(err)
      ensures old(err).None? ==> r == if |Packet(t)| > cap then Err(EOVERFLOW) else Ok(|Packet(t)|)
      ensures r.Ok? ==> r.value <= buf.Length && buf[..r.value] == Packet(t)
    {
      hide Splice, Slot, Zeros, Body;
      if err.Some? {
        return Err(err.value);
      }
      var end := RoundUp(lim, WORD);
      PacketSize(t);
      if end > cap {
        return Err(EOVERFLOW);
      }
      Zero(lim, end);
      SetWord(0, MAGIC, 0);
      SetWord(WORD, lim - HDR, rootType);
      PacketLaid(t, old(buf[..]), buf[..]);
      return Ok(end);
    }
  }

  lemma NotPacket(pkt: seq<Byte>, lim: nat, cap: nat)
    ensures Refusal(Tree.Graft(pkt), lim, cap) == Some(EBADMSG) <==> GraftDesc(pkt).Err?
  {
  }
}
