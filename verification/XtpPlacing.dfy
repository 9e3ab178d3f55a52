/** Writing as values: what a tree adds to the bytes already written, and where it is first refused. */
module XtpPlacing {
  import opened Arith
  import opened Bytes
  import opened XtpTree
  import opened XtpLayout
  import opened Prelude

  function Then(first: Option<Errno>, next: Option<Errno>): Option<Errno> {
    if first.Some? then first else next
  }

  /** `s` in place of as many bytes of `b` from `off`. */
  function Splice(b: seq<Byte>, off: nat, s: seq<Byte>): (r: seq<Byte>)
    requires off + |s| <= |b|
    ensures |r| == |b|
    ensures forall k :: 0 <= k < |b| ==> r[k] == if off <= k < off + |s| then s[k - off] else b[k]
  {
    b[..off] + s + b[off + |s|..]
  }

  lemma SplicePrefix(b: seq<Byte>, n: nat, off: nat, s: seq<Byte>)
    requires off + |s| <= n <= |b|
    ensures Splice(b, off, s)[..n] == Splice(b[..n], off, s)
  {
  }

  lemma SpliceAfter(p: seq<Byte>, q: seq<Byte>, off: nat, s: seq<Byte>)
    requires off + |s| <= |q|
    ensures Splice(p + q, |p| + off, s) == p + Splice(q, off, s)
  {
  }

  /** The room a node of `bytes` needs past `lim`, refused past `cap`. */
  function NoRoom(lim: nat, unit: nat, bytes: nat, cap: nat): Option<Errno>
    requires unit > 0
  {
    if RoundUp(lim, unit) + bytes > cap then Some(EOVERFLOW) else None
  }

  lemma ZeroedOn(b: seq<Byte>, m: seq<Byte>, m': seq<Byte>, unit: nat, bytes: nat)
    requires unit > 0 && |b| <= |m| && b == m[..|b|] && RoundUp(|b|, unit) + bytes <= |m|
    requires m' == Splice(m, |b|, Zeros(RoundUp(|b|, unit) + bytes - |b|))
    ensures m'[..RoundUp(|b|, unit) + bytes] == b + PadTo(|b|, unit) + Zeros(bytes)
  {
  }

  // A tree placed

  /** The bytes already written with a tree placed after them. */
  function Place(b: seq<Byte>, t: Tree): (r: seq<Byte>)
    ensures |r| >= |b| && r[..|b|] == b
  {
    if Body(t) == [] then b else b + PadTo(|b|, Unit(t)) + Body(t)
  }

  function PlaceAt(b: seq<Byte>, t: Tree): (at: Option<nat>)
    ensures at.Some? ==> at.value >= |b|
  {
    if Body(t) == [] then None else Some(RoundUp(|b|, Unit(t)))
  }

  /** Where a tree written from `lim` is first refused: a graft that is no packet, or past the cap. */
  function Refusal(t: Tree, lim: nat, cap: nat): (e: Option<Errno>)
    decreases t
  {
    match t
    case Null(_) => None
    case Graft(pkt) =>
      if GraftDesc(pkt).Err? then Some(EBADMSG)
      else if Body(t) == [] then None
      else NoRoom(lim, Unit(t), |Body(t)|, cap)
    case Branch(kids) =>
      Then(NoRoom(lim, WORD, TableSz(|kids|), cap),
           Then(KidsRefusal(kids, RoundUp(lim, WORD), cap, |kids|), NoRoom(lim, WORD, |Body(t)|, cap)))
    case _ => NoRoom(lim, Unit(t), |Body(t)|, cap)
  }

  /** The first refusal among a branch's first `k` children. */
  function KidsRefusal(kids: seq<Tree>, base: nat, cap: nat, k: nat): (e: Option<Errno>)
    requires k <= |kids|
    decreases kids, k
  {
    if k == 0 then None
    else Then(KidsRefusal(kids, base, cap, k - 1), Refusal(kids[k - 1], base + TableSz(|kids|) + |Kids(kids, k - 1)|, cap))
  }

  predicate FrameIn(f: Frame, lim: nat) {
    f.base >= HDR && f.base % WORD == 0 && f.base + TableSz(f.cnt) <= lim && f.written <= f.cnt
  }

  /** The branch being written, and how many of its children have been; the root is a branch of one whose entry
      is the header. */
  datatype Frame = Frame(base: nat, cnt: nat, written: nat, root: bool)

  /** What a frame's next entry makes of the bytes. */
  function Entered(b: seq<Byte>, f: Frame, at: Option<nat>, t: Byte): (r: seq<Byte>)
    requires f.root || (FrameIn(f, |b|) && f.written < f.cnt && (at.Some? ==> at.value >= f.base))
    ensures |r| == |b|
  {
    if f.root then b
    else Splice(b, f.base + WORD + WORD * f.written, Slot(if at.Some? then at.value - f.base else 0, t))
  }

  // A branch, child by child

  /** A branch's bytes with its first `k` children written: their entries filled in, the rest still zero. */
  function Stage(kids: seq<Tree>, k: nat): (s: seq<Byte>)
    requires k <= |kids|
    ensures |s| == TableSz(|kids|) + |Kids(kids, k)|
  {
    Slot(|kids|, 0) + Entries(kids, k) + Zeros(WORD * (|kids| - k)) + Kids(kids, k)
  }

  lemma StageNext(p: seq<Byte>, kids: seq<Tree>, k: nat)
    requires k < |kids| && |p| % WORD == 0 && |p| >= HDR
    ensures var b, f, t := p + Stage(kids, k), Frame(|p|, |kids|, k, false), kids[k];
            Entered(Place(b, t), f, PlaceAt(b, t), TypeOf(t)) == p + Stage(kids, k + 1)
  {
    hide Body, Kids, Entries, PadTo, Slot, KidAt, Splice, Place, PlaceAt, Stage, Zeros;
    var b, t := p + Stage(kids, k), kids[k];
    KidPlacedOn(p, kids, k);
    KidAtFrom(p, kids, k);
    var head, tail := Slot(|kids|, 0) + Entries(kids, k), Zeros(WORD * (|kids| - k));
    var entry, after := Slot(EntryOf(kids, k), TypeOf(t)), Kids(kids, k + 1);
    SpliceAfter(p, head + (tail + after), |head|, entry);
    SpliceAfter(head, tail + after, 0, entry);
    EntryFilled(kids, k);
  }

  lemma {:induction false} KidPlacedOn(p: seq<Byte>, kids: seq<Tree>, k: nat)
    requires k < |kids| && |p| % WORD == 0
    ensures Place(p + Stage(kids, k), kids[k])
            == p + (Slot(|kids|, 0) + Entries(kids, k) + (Zeros(WORD * (|kids| - k)) + Kids(kids, k + 1)))
  {
    hide Body, Kids, Entries, PadTo, Slot, KidAt, Zeros, RoundUp, Unit, Stage;
    KidsNext(kids, k);
    RoundShift(|p|, TableSz(|kids|) + |Kids(kids, k)|, Unit(kids[k]));
    StageParts(p, kids, k, PadTo(|p + Stage(kids, k)|, Unit(kids[k])), Body(kids[k]));
  }

  /** What is put after a stage is put after its last part. */
  lemma StageParts(p: seq<Byte>, kids: seq<Tree>, k: nat, pad: seq<Byte>, body: seq<Byte>)
    requires k <= |kids|
    ensures var head, zeros, were := Slot(|kids|, 0) + Entries(kids, k), Zeros(WORD * (|kids| - k)), Kids(kids, k);
            && p + Stage(kids, k) == p + (head + (zeros + were))
            && p + Stage(kids, k) + pad + body == p + (head + (zeros + (were + pad + body)))
  {
    hide Kids, Entries, Slot, Zeros;
  }

  lemma {:induction false} KidAtFrom(p: seq<Byte>, kids: seq<Tree>, k: nat)
    requires k < |kids| && |p| % WORD == 0
    ensures var at := PlaceAt(p + Stage(kids, k), kids[k]);
            EntryOf(kids, k) == if at.Some? then at.value - |p| else 0
  {
    hide Body, Kids, Entries;
    RoundShift(|p|, TableSz(|kids|) + |Kids(kids, k)|, Unit(kids[k]));
  }

  lemma {:induction false} EntryFilled(kids: seq<Tree>, k: nat)
    requires k < |kids|
    ensures var entry, after := Slot(EntryOf(kids, k), TypeOf(kids[k])), Kids(kids, k + 1);
            Slot(|kids|, 0) + Entries(kids, k) + Splice(Zeros(WORD * (|kids| - k)) + after, 0, entry) == Stage(kids, k + 1)
  {
    hide Body, Kids, Entries, Slot, EntryOf;
    KidsNext(kids, k);
    var entry, after := Slot(EntryOf(kids, k), TypeOf(kids[k])), Kids(kids, k + 1);
    assert Splice(Zeros(WORD * (|kids| - k)) + after, 0, entry) == entry + (Zeros(WORD * (|kids| - k - 1)) + after);
  }

  lemma {:induction false} KidsNext(kids: seq<Tree>, k: nat)
    requires k < |kids|
    ensures var t := kids[k];
            Kids(kids, k + 1) == if Body(t) == [] then Kids(kids, k)
                                 else Kids(kids, k) + PadTo(TableSz(|kids|) + |Kids(kids, k)|, Unit(t)) + Body(t)
    ensures Entries(kids, k + 1) == Entries(kids, k) + Slot(EntryOf(kids, k), TypeOf(kids[k]))
  {
    hide Body, Slot, PadTo, TypeOf, KidAt, Unit;
  }

  lemma RoundShift(p: nat, n: nat, unit: nat)
    requires p % WORD == 0 && (unit == 1 || unit == 2 || unit == 4 || unit == 8)
    ensures RoundUp(p + n, unit) == p + RoundUp(n, unit) && PadTo(p + n, unit) == PadTo(n, unit)
  {
    hide RoundUp;
    var m := RoundUp(n, unit);
    MultiplesAdd(p, m, unit);
    RoundUnique(p + n, unit, p + m);
  }

  lemma MultiplesAdd(p: nat, m: nat, unit: nat)
    requires p % WORD == 0 && (unit == 1 || unit == 2 || unit == 4 || unit == 8) && m % unit == 0
    ensures (p + m) % unit == 0
  {
  }

  lemma RoundUnique(n: nat, unit: nat, m: nat)
    requires unit > 0 && n <= m < n + unit && m % unit == 0
    ensures RoundUp(n, unit) == m
  {
    hide RoundUp;
    var r := RoundUp(n, unit);
    var a, b := r / unit, m / unit;
    assert r == unit * a && m == unit * b;
    if a < b {
      MulMonotone(a + 1, b, unit);
      MulAdd(a, 1, unit);
    } else if b < a {
      MulMonotone(b + 1, a, unit);
      MulAdd(b, 1, unit);
    }
  }

  lemma StageFirst(kids: seq<Tree>)
    ensures Stage(kids, 0) == Slot(|kids|, 0) + Zeros(WORD * |kids|)
  {
  }

  lemma StageLast(kids: seq<Tree>)
    ensures Body(Branch(kids)) == Padded(Stage(kids, |kids|))
  {
  }

  // Payloads

  /** The bytes before a sequence's payload: up to a word, then its length. */
  function Head(b: seq<Byte>, len: nat): (s: seq<Byte>)
    ensures |s| == RoundUp(|b|, WORD) + WORD && |s| >= |b| && s[..|b|] == b
  {
    b + PadTo(|b|, WORD) + Slot(len, 0)
  }

  lemma SpliceEnd(p: seq<Byte>, q: seq<Byte>, s: seq<Byte>)
    requires |s| == |q|
    ensures Splice(p + q, |p|, s) == p + s
  {
  }

  lemma SpliceSlot(p: seq<Byte>, n: nat, len: nat)
    requires n >= WORD
    ensures Splice(p + Zeros(n), |p|, Slot(len, 0)) == p + Slot(len, 0) + Zeros(n - WORD)
  {
  }

  lemma ScalarUnit(t: Byte, v: seq<Byte>)
    requires Typed(Scalar(t, v))
    ensures |v| == Unit(Scalar(t, v)) > 0
  {
  }

  lemma SequenceUnit(t: Tree)
    requires Typed(t) && (t.Array? || t.Bitset? || t.Str? || t.Strs? || t.Branch?)
    ensures Unit(t) == WORD && Body(t) != []
    ensures t.Array? ==> |t.bytes| % ElemSz(t.t) == 0 && Body(t) == Slot(|t.bytes| / ElemSz(t.t), 0) + Padded(t.bytes)
    ensures t.Bitset? ==> Body(t) == Slot(|t.bits|, 0) + Padded(Packed(t.bits, |t.bits|))
    ensures t.Str? ==> Body(t) == Slot(|t.s|, 0) + Padded(t.s + [0])
    ensures t.Strs? ==> |Body(t)| == WORD + RoundUp(4 * (|t.items| + 1) + |Blob(t.items, |t.items|)|, WORD)
  {
    hide Padded, Packed, RoundUp, ElemSz, Slot, Blob, Lane, Kids, Entries;
    match t
    case Array(_, b) => SlotThere(0, b);
    case Bitset(bits) => SlotThere(0, Packed(bits, |bits|));
    case Str(s) => SlotThere(0, s + [0]);
    case Strs(items) => SlotThere(0, Le4(0) + Lane(items, |items|) + Blob(items, |items|));
    case Branch(kids) => SlotThere(|kids|, []);
  }

  /** A head and what follows it, to the word. */
  lemma SlotThere(n: nat, s: seq<Byte>)
    ensures |Slot(n, 0)| == WORD && |Padded(s)| == RoundUp(|s|, WORD) >= |s|
  {
    hide RoundUp;
  }

  /** A sequence is refused where its head and payload do not fit. */
  lemma RefusalLeaf(t: Tree, lim: nat, cap: nat)
    requires Typed(t) && (t.Array? || t.Bitset? || t.Str? || t.Strs?)
    ensures Refusal(t, lim, cap) == NoRoom(lim, WORD, |Body(t)|, cap)
  {
  }

  lemma Elements(n: nat, z: nat)
    requires z > 0 && n % z == 0
    ensures n / z * z == n
  {
  }

  lemma ElementIn(i: nat, len: nat, z: nat)
    requires i < len
    ensures (i + 1) * z == i * z + z <= len * z
  {
    MulAdd(i, 1, z);
    MulMonotone(i + 1, len, z);
  }

  /** A payload of `m` bytes of which the first `i` are written. */
  function Part(a: seq<Byte>, i: nat, m: nat): (s: seq<Byte>)
    requires i <= |a| <= m
    ensures |s| == m
  {
    a[..i] + Zeros(m - i)
  }

  lemma NextPart(p: seq<Byte>, a: seq<Byte>, i: nat, j: nat, m: nat)
    requires i <= j <= |a| <= m
    ensures Splice(p + Part(a, i, m), |p| + i, a[i..j]) == p + Part(a, j, m)
  {
    SpliceAfter(p, Part(a, i, m), i, a[i..j]);
    assert Splice(Part(a, i, m), i, a[i..j]) == Part(a, j, m);
  }

  lemma PartWhole(a: seq<Byte>)
    ensures Part(a, |a|, RoundUp(|a|, WORD)) == Padded(a)
    ensures Part(a, 0, RoundUp(|a|, WORD)) == Zeros(RoundUp(|a|, WORD))
  {
  }

  /** A sequence with its payload written is placed. */
  lemma SequencePlaced(b: seq<Byte>, t: Tree, len: nat, payload: seq<Byte>)
    requires Typed(t) && !t.Branch? && Body(t) == Slot(len, 0) + payload && Unit(t) == WORD
    ensures Place(b, t) == Head(b, len) + payload && PlaceAt(b, t) == Some(RoundUp(|b|, WORD))
  {
  }

  lemma PackedStart(bits: seq<bool>)
    ensures Padded(Packed(bits, 0)) == Zeros(RoundUp((|bits| + 7) / 8, WORD))
  {
  }

  lemma PackedNext(p: seq<Byte>, bits: seq<bool>, i: nat)
    requires i < |bits|
    ensures var was, at := p + Padded(Packed(bits, i)), |p| + i / 8;
            at < |was| && p + Padded(Packed(bits, i + 1)) ==
              if bits[i] then Splice(was, at, [SetBit(was[at], i % 8)]) else was
  {
    hide SetBit, RoundUp;
    var s := Packed(bits, i);
    if bits[i] {
      var one := [SetBit(s[i / 8], i % 8)];
      SpliceAfter(p, Padded(s), i / 8, one);
      assert Splice(Padded(s), i / 8, one) == Padded(s[i / 8 := one[0]]);
    }
  }

  lemma RoundsUp(lim: nat, n: nat)
    ensures var payload := RoundUp(lim, WORD) + WORD;
            RoundUp(payload + n, WORD) == payload + RoundUp(n, WORD) && RoundUp(n, WORD) >= n && RoundUp(lim, WORD) >= lim
  {
    RoundShift(RoundUp(lim, WORD) + WORD, n, WORD);
  }

  lemma StoredPast(m: seq<Byte>, lim: nat, off: nat, s: seq<Byte>)
    requires lim <= off && off + |s| <= |m|
    ensures Splice(m, off, s)[..lim] == m[..lim] && Splice(m, off, s)[off..off + |s|] == s
  {
  }

  /** A string past its slot, with what lies before and after it cleared and its length put in. */
  lemma {:induction false} StrLaid(b: seq<Byte>, s: seq<Byte>, m: seq<Byte>, m': seq<Byte>, end: nat)
    requires var base := RoundUp(|b|, WORD);
             && base + WORD + |s| <= |m| && m[..|b|] == b && m[base + WORD..base + WORD + |s|] == s
             && base + WORD + RoundUp(|s| + 1, WORD) == end <= |m|
             && m' == Splice(Splice(Splice(m, |b|, Zeros(base - |b|)), base + WORD + |s|, Zeros(end - (base + WORD + |s|))), base, Slot(|s|, 0))
    ensures m'[..end] == Head(b, |s|) + Padded(s + [0])
  {
    hide RoundUp, Slot, Splice, Padded, Head;
    var base := RoundUp(|b|, WORD);
    var past := base + WORD + |s|;
    var m1 := Splice(m, |b|, Zeros(base - |b|));
    var m2 := Splice(m1, past, Zeros(end - past));
    StrFront(b, |s|, m, m1, m2, m', past, end);
    StrBack(s, m, m1, m2, m', |b|, base, end);
    assert m'[..end] == m'[..base + WORD] + m'[base + WORD..end];
  }

  lemma {:induction false} StrFront(b: seq<Byte>, len: nat, m: seq<Byte>, m1: seq<Byte>, m2: seq<Byte>, m3: seq<Byte>, past: nat, end: nat)
    requires var base := RoundUp(|b|, WORD);
             && base + WORD <= past <= end <= |m| && m[..|b|] == b
             && m1 == Splice(m, |b|, Zeros(base - |b|)) && m2 == Splice(m1, past, Zeros(end - past)) && m3 == Splice(m2, base, Slot(len, 0))
    ensures m3[..RoundUp(|b|, WORD) + WORD] == Head(b, len)
  {
    hide RoundUp, Slot, Splice;
    var base := RoundUp(|b|, WORD);
    assert m3[..base] == m1[..base];
    assert m1[..|b|] == m[..|b|] && m1[|b|..base] == Zeros(base - |b|);
    assert m1[..base] == m1[..|b|] + m1[|b|..base];
    assert m3[base..base + WORD] == Slot(len, 0);
    assert m3[..base + WORD] == m3[..base] + m3[base..base + WORD];
  }

  lemma {:induction false} StrBack(s: seq<Byte>, m: seq<Byte>, m1: seq<Byte>, m2: seq<Byte>, m3: seq<Byte>, n: nat, base: nat, end: nat)
    requires n <= base && base + WORD + |s| <= |m| && m[base + WORD..base + WORD + |s|] == s
    requires base + WORD + RoundUp(|s| + 1, WORD) == end <= |m|
    requires m1 == Splice(m, n, Zeros(base - n)) && m2 == Splice(m1, base + WORD + |s|, Zeros(end - (base + WORD + |s|)))
    requires m3 == Splice(m2, base, Slot(|s|, 0))
    ensures m3[base + WORD..end] == Padded(s + [0])
  {
    hide RoundUp, Slot, Splice;
    var from := base + WORD;
    var past := from + |s|;
    assert m3[from..past] == m[from..past];
    assert m3[past..end] == Zeros(end - past);
    assert m3[from..end] == m3[from..past] + m3[past..end];
    assert Zeros(end - past) == [0] + Zeros(end - past - 1);
  }

  /** A string sequence's payload with its first `i` strings written. */
  function StrsPart(items: seq<seq<Byte>>, i: nat): (s: seq<Byte>)
    requires i <= |items|
    ensures |s| == RoundUp(4 * (|items| + 1) + |Blob(items, |items|)|, WORD)
  {
    BlobGrows(items, i, |items|);
    Le4(0) + Lane(items, i) + Zeros(4 * (|items| - i)) + Blob(items, i)
    + Zeros(RoundUp(4 * (|items| + 1) + |Blob(items, |items|)|, WORD) - 4 * (|items| + 1) - |Blob(items, i)|)
  }

  lemma StrsFirst(p: seq<Byte>, items: seq<seq<Byte>>)
    ensures var m := RoundUp(4 * (|items| + 1) + |Blob(items, |items|)|, WORD);
            |p| + 4 <= |p| + m && Splice(p + Zeros(m), |p|, Le4(0)) == p + StrsPart(items, 0)
    ensures |Blob(items, 0)| == 0
  {
    hide RoundUp, Le4;
    var m := RoundUp(4 * (|items| + 1) + |Blob(items, |items|)|, WORD);
    SpliceAfter(p, Zeros(m), 0, Le4(0));
    assert Blob(items, 0) == [] && Lane(items, 0) == [];
    assert Splice(Zeros(m), 0, Le4(0)) == StrsPart(items, 0);
  }

  lemma StrsNext(p: seq<Byte>, items: seq<seq<Byte>>, i: nat)
    requires i < |items|
    ensures var was, off := p + StrsPart(items, i), |Blob(items, i)|;
            && |p| + 4 * (|items| + 1) + off + |items[i]| <= |was| && |p| + 4 * (i + 1) + 4 <= |was|
            && |Blob(items, i + 1)| == off + |items[i]|
            && Splice(Splice(was, |p| + 4 * (|items| + 1) + off, items[i]), |p| + 4 * (i + 1), Le4(off + |items[i]|))
               == p + StrsPart(items, i + 1)
  {
    hide RoundUp, Le4;
    BlobGrows(items, i + 1, |items|);
    var q, off, lane := StrsPart(items, i), |Blob(items, i)|, 4 * (|items| + 1);
    assert Blob(items, i + 1) == Blob(items, i) + items[i];
    SpliceAfter(p, q, lane + off, items[i]);
    var q' := Splice(q, lane + off, items[i]);
    SpliceAfter(p, q', 4 * (i + 1), Le4(off + |items[i]|));
    StrsStep(items, i);
  }

  lemma StrsStep(items: seq<seq<Byte>>, i: nat)
    requires i < |items|
    ensures var q, off, lane := StrsPart(items, i), |Blob(items, i)|, 4 * (|items| + 1);
            && lane + off + |items[i]| <= |q| && 4 * (i + 1) + 4 <= |q|
            && Splice(Splice(q, lane + off, items[i]), 4 * (i + 1), Le4(off + |items[i]|)) == StrsPart(items, i + 1)
  {
    hide RoundUp, Le4;
    BlobGrows(items, i + 1, |items|);
    var q, off, lane := StrsPart(items, i), |Blob(items, i)|, 4 * (|items| + 1);
    assert Blob(items, i + 1) == Blob(items, i) + items[i];
    assert Lane(items, i + 1) == Lane(items, i) + Le4(off + |items[i]|);
    assert Splice(Splice(q, lane + off, items[i]), 4 * (i + 1), Le4(off + |items[i]|)) == StrsPart(items, i + 1);
  }

  lemma StrsDone(items: seq<seq<Byte>>)
    ensures Body(Strs(items)) == Slot(|items|, 0) + StrsPart(items, |items|)
  {
  }

  // Branches and packets

  lemma BranchBegun(b: seq<Byte>, kids: seq<Tree>)
    ensures var p := b + PadTo(|b|, WORD);
            |p| == RoundUp(|b|, WORD) && |p| % WORD == 0 && Head(b, |kids|) + Zeros(WORD * |kids|) == p + Stage(kids, 0)
  {
    StageFirst(kids);
  }

  /** A branch with its children written and brought to a word is placed; refused where any of it was. */
  lemma BranchDone(b: seq<Byte>, kids: seq<Tree>, cap: nat)
    requires Typed(Branch(kids))
    ensures var p, t := b + PadTo(|b|, WORD), Branch(kids);
            && |p| == RoundUp(|b|, WORD) && Unit(t) == WORD
            && p + Stage(kids, |kids|) + PadTo(|p + Stage(kids, |kids|)|, WORD) == Place(b, t)
            && PlaceAt(b, t) == Some(|p|)
            && RoundUp(|p + Stage(kids, |kids|)|, WORD) == |p| + |Body(t)|
            && Refusal(t, |b|, cap) == Then(NoRoom(|b|, WORD, TableSz(|kids|), cap),
                                            Then(KidsRefusal(kids, |p|, cap, |kids|),
                                                 if |p| + |Body(t)| > cap then Some(EOVERFLOW) else None))
  {
    hide Body, Stage, PadTo, RoundUp, Refusal, Typed, Place, PlaceAt, Then, NoRoom, KidsRefusal;
    BranchPlaced(b, kids);
    BranchRefused(b, kids, cap);
  }

  lemma BranchPlaced(b: seq<Byte>, kids: seq<Tree>)
    ensures var p, t := b + PadTo(|b|, WORD), Branch(kids);
            && |p| == RoundUp(|b|, WORD) && Unit(t) == WORD
            && p + Stage(kids, |kids|) + PadTo(|p + Stage(kids, |kids|)|, WORD) == Place(b, t)
            && PlaceAt(b, t) == Some(|p|)
            && RoundUp(|p + Stage(kids, |kids|)|, WORD) == |p| + |Body(t)|
  {
    hide Body, Stage;
    StageLast(kids);
    RoundShift(|b| + |PadTo(|b|, WORD)|, |Stage(kids, |kids|)|, WORD);
  }

  lemma BranchRefused(b: seq<Byte>, kids: seq<Tree>, cap: nat)
    requires Typed(Branch(kids))
    ensures var base, t := RoundUp(|b|, WORD), Branch(kids);
            Refusal(t, |b|, cap) == Then(NoRoom(|b|, WORD, TableSz(|kids|), cap),
                                         Then(KidsRefusal(kids, base, cap, |kids|),
                                              if base + |Body(t)| > cap then Some(EOVERFLOW) else None))
  {
    hide Body, RoundUp;
  }

  lemma NoneRefused(kids: seq<Tree>, base: nat, cap: nat)
    ensures KidsRefusal(kids, base, cap, 0) == None
  {
  }

  lemma NextRefused(kids: seq<Tree>, base: nat, cap: nat, k: nat)
    requires k < |kids| < U32 && forall j :: 0 <= j < |kids| ==> Typed(kids[j])
    ensures KidsRefusal(kids, base, cap, k + 1)
            == Then(KidsRefusal(kids, base, cap, k), Refusal(kids[k], base + |Stage(kids, k)|, cap))
  {
  }

  lemma GraftPlaced(b: seq<Byte>, pkt: seq<Byte>)
    ensures var t, d := Graft(pkt), GraftDesc(pkt);
            && (d.Err? ==> Place(b, t) == b && PlaceAt(b, t) == None)
            && (d.Ok? && d.value.off == 0 ==> Place(b, t) == b && PlaceAt(b, t) == None)
            && (d.Ok? && d.value.off != 0 ==>
                  var unit := AlignSz(d.value.t).value;
                  && Unit(t) == unit && |Body(t)| == d.value.off
                  && Place(b, t) == b + PadTo(|b|, unit) + pkt[HDR..HDR + d.value.off]
                  && PlaceAt(b, t) == Some(RoundUp(|b|, unit)))
  {
  }

  lemma PacketSize(t: Tree)
    ensures |Packet(t)| == RoundUp(HDR + |Body(t)|, WORD)
  {
  }

  lemma PacketLaid(t: Tree, m: seq<Byte>, m': seq<Byte>)
    requires |Packet(t)| <= |m| && m[..HDR + |Body(t)|] == Zeros(HDR) + Body(t)
    requires m' == Splice(Splice(Splice(m, HDR + |Body(t)|, Zeros(|Packet(t)| - HDR - |Body(t)|)), 0, Slot(MAGIC, 0)),
                          WORD, Slot(|Body(t)|, TypeOf(t)))
    ensures m'[..|Packet(t)|] == Packet(t)
  {
    hide Slot, Body, RoundUp;
    PacketSize(t);
    var p := Packet(t);
    forall k | 0 <= k < |p|
      ensures m'[k] == p[k]
    {
      if HDR <= k < HDR + |Body(t)| {
        assert m[..HDR + |Body(t)|][k] == Body(t)[k - HDR];
      }
    }
  }
}
