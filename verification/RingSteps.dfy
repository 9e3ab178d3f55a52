/** A ring of frames shared by one producer and one consumer, step by step: each step reads or writes one word or one
    byte of the memory they share, and the steps of the two come in any order. */
module RingSteps {
  import opened Arith
  import opened Bytes
  import opened Prelude

  // The header's words, then the frames'
  const HEAD: nat := 1
  const TAIL: nat := 2
  const HEADER_WORDS: nat := 8
  const WORDS: nat := 4

  /** What a ring is made with and keeps: a power of two of frames, a slot for each, and where the slots begin. */
  datatype Config = Config(log2: nat, slotBytes: nat, slotBase: nat) {
    function Cap(): (n: nat)
      ensures n > 0
    {
      Pow2(log2)
    }

    ghost predicate Good() {
      log2 < 32 && slotBytes > 0 && slotBytes % 8 == 0 && 0 < slotBase
    }
  }

  /** A frame, and the packet in its slot. */
  datatype Msg = Msg(tag: nat, cmd: nat, flags: nat, result: nat, pkt: Option<seq<Byte>>)

  function CmdWord(cmd: nat, flags: nat): nat {
    flags * 0x1_0000 % U32 + cmd % 0x1_0000
  }

  /** A packet with the zeros that bring it to a word. */
  function Payload(m: Msg): (b: seq<Byte>) {
    match m.pkt
    case None => []
    case Some(p) => p + Zeros(RoundUp(|p|, 8) - |p|)
  }

  function Index(c: Config, pos: nat): (i: nat)
    ensures i < c.Cap()
  {
    pos % c.Cap()
  }

  function EntryAt(c: Config, pos: nat): nat {
    HEADER_WORDS + Index(c, pos) * WORDS
  }

  /** Where a position's slot lies among the slots. */
  function SlotAt(c: Config, pos: nat): nat {
    Index(c, pos) * c.slotBytes
  }

  function FrameWords(c: Config, pos: nat, m: Msg): (w: seq<nat>)
    ensures |w| == WORDS
  {
    [m.tag, CmdWord(m.cmd, m.flags), m.result, if m.pkt.Some? then c.slotBase + SlotAt(c, pos) else 0]
  }

  datatype Producer = Resting | Writing(m: Msg, bytes: nat, frame: nat)

  /** What the consumer has read of the frame at the head: its words, then its slot's bytes. */
  datatype Consumer = Waiting | Reading(got: seq<nat>, bytes: seq<Byte>)

  /** The shared words and slots; and, as they come to be known, every frame pushed, how many have been taken, what
      each side is doing, and what the consumer read of each it took. */
  datatype State = State(words: seq<nat>, slots: seq<Byte>, pushed: seq<Msg>, taken: nat, prod: Producer, cons: Consumer,
                         read: seq<Consumer>)

  function LenOf(words: seq<nat>): nat
    requires |words| >= HEADER_WORDS
  {
    (words[TAIL] - words[HEAD]) % U32
  }

  ghost predicate Sized(c: Config, s: State) {
    |s.words| == HEADER_WORDS + WORDS * c.Cap() && |s.slots| == c.Cap() * c.slotBytes
  }

  /** Frame `m` is whole at position `pos`. */
  ghost predicate Holds(c: Config, s: State, pos: nat, m: Msg)
    requires Sized(c, s)
  {
    && |Payload(m)| <= c.slotBytes
    && WordsAt(c, s, pos, FrameWords(c, pos, m)) && BytesAt(c, s, pos, Payload(m))
  }

  ghost predicate WordsAt(c: Config, s: State, pos: nat, w: seq<nat>)
    requires Sized(c, s) && |w| <= WORDS
  {
    InRange(c, pos);
    forall k :: 0 <= k < |w| ==> s.words[EntryAt(c, pos) + k] == w[k]
  }

  ghost predicate BytesAt(c: Config, s: State, pos: nat, b: seq<Byte>)
    requires Sized(c, s) && |b| <= c.slotBytes
  {
    InRange(c, pos);
    forall k :: 0 <= k < |b| ==> s.slots[SlotAt(c, pos) + k] == b[k]
  }

  lemma InRange(c: Config, pos: nat)
    ensures HEADER_WORDS <= EntryAt(c, pos) && EntryAt(c, pos) + WORDS <= HEADER_WORDS + WORDS * c.Cap()
    ensures SlotAt(c, pos) + c.slotBytes <= c.Cap() * c.slotBytes
  {
    MulMonotone(Index(c, pos) + 1, c.Cap(), c.slotBytes);
    MulAdd(Index(c, pos), 1, c.slotBytes);
  }

  /** What the consumer has read is the frame's. */
  predicate Faithful(c: Config, pos: nat, m: Msg, r: Consumer) {
    r.Reading? ==>
      && r.got <= FrameWords(c, pos, m)
      && forall k :: 0 <= k < |r.bytes| && k < |Payload(m)| ==> r.bytes[k] == Payload(m)[k]
  }

  ghost predicate Inv(c: Config, s: State) {
    && c.Good() && Sized(c, s)
    && s.words[HEAD] == s.taken % U32 && s.words[TAIL] == |s.pushed| % U32
    && s.taken <= |s.pushed| <= s.taken + c.Cap()
    && (forall i :: s.taken <= i < |s.pushed| ==> Holds(c, s, i, s.pushed[i]))
    && ProducerOk(c, s)
    && (s.cons.Reading? ==> s.taken < |s.pushed| && Faithful(c, s.taken, s.pushed[s.taken], s.cons))
    && |s.read| == s.taken
    && (forall i :: 0 <= i < s.taken ==> s.read[i].Reading? && |s.read[i].got| == WORDS && Faithful(c, i, s.pushed[i], s.read[i]))
  }

  ghost predicate ProducerOk(c: Config, s: State)
    requires Sized(c, s)
  {
    match s.prod
    case Resting => true
    case Writing(m, b, f) =>
      && |s.pushed| < s.taken + c.Cap()
      && b <= |Payload(m)| <= c.slotBytes && f <= WORDS && (f > 0 ==> b == |Payload(m)|)
      && BytesAt(c, s, |s.pushed|, Payload(m)[..b]) && WordsAt(c, s, |s.pushed|, FrameWords(c, |s.pushed|, m)[..f])
  }

  // The steps

  /** The producer finds room for `m`, which fits a slot. */
  predicate Begins(c: Config, s: State, s': State, m: Msg) {
    && s.prod.Resting? && |s.words| >= HEADER_WORDS && LenOf(s.words) < c.Cap() && |Payload(m)| <= c.slotBytes
    && s' == s.(prod := Writing(m, 0, 0))
  }

  /** The slot of the position the tail tells: the positions are 32 bits. */
  function TailSlot(c: Config, s: State): nat
    requires |s.words| >= HEADER_WORDS
  {
    SlotAt(c, s.words[TAIL])
  }

  predicate WritesByte(c: Config, s: State, s': State) {
    && s.prod.Writing? && s.prod.bytes < |Payload(s.prod.m)| && |s.words| >= HEADER_WORDS
    && TailSlot(c, s) + s.prod.bytes < |s.slots|
    && s' == s.(slots := s.slots[TailSlot(c, s) + s.prod.bytes := Payload(s.prod.m)[s.prod.bytes]],
                prod := s.prod.(bytes := s.prod.bytes + 1))
  }

  predicate WritesWord(c: Config, s: State, s': State) {
    && s.prod.Writing? && s.prod.bytes == |Payload(s.prod.m)| && s.prod.frame < WORDS && |s.words| >= HEADER_WORDS
    && EntryAt(c, s.words[TAIL]) + s.prod.frame < |s.words|
    && s' == s.(words := s.words[EntryAt(c, s.words[TAIL]) + s.prod.frame := FrameWords(c, s.words[TAIL], s.prod.m)[s.prod.frame]],
                prod := s.prod.(frame := s.prod.frame + 1))
  }

  /** The frame is whole before the tail says so. */
  predicate Publishes(c: Config, s: State, s': State) {
    && s.prod.Writing? && s.prod.bytes == |Payload(s.prod.m)| && s.prod.frame == WORDS && |s.words| >= HEADER_WORDS
    && s' == s.(words := s.words[TAIL := (s.words[TAIL] + 1) % U32], prod := Resting, pushed := s.pushed + [s.prod.m])
  }

  /** A packet written in place: any byte, in the next frame's slot. */
  predicate Scribbles(c: Config, s: State, s': State, j: nat, b: Byte) {
    && s.prod.Resting? && |s.words| >= HEADER_WORDS && LenOf(s.words) < c.Cap()
    && j < c.slotBytes && TailSlot(c, s) + j < |s.slots|
    && s' == s.(slots := s.slots[TailSlot(c, s) + j := b])
  }

  /** What was written in place is found to be `m`'s bytes; nothing is read or written. */
  predicate Adopts(c: Config, s: State, s': State, m: Msg) {
    && s.prod.Resting? && |s.words| >= HEADER_WORDS && LenOf(s.words) < c.Cap() && |Payload(m)| <= c.slotBytes
    && TailSlot(c, s) + |Payload(m)| <= |s.slots| && s.slots[TailSlot(c, s)..TailSlot(c, s) + |Payload(m)|] == Payload(m)
    && s' == s.(prod := Writing(m, |Payload(m)|, 0))
  }

  predicate Peeks(s: State, s': State) {
    && s.cons.Waiting? && |s.words| >= HEADER_WORDS && LenOf(s.words) != 0
    && s' == s.(cons := Reading([], []))
  }

  predicate ReadsWord(c: Config, s: State, s': State) {
    && s.cons.Reading? && |s.cons.got| < WORDS && |s.words| >= HEADER_WORDS
    && EntryAt(c, s.words[HEAD]) + |s.cons.got| < |s.words|
    && s' == s.(cons := s.cons.(got := s.cons.got + [s.words[EntryAt(c, s.words[HEAD]) + |s.cons.got|]]))
  }

  predicate ReadsByte(c: Config, s: State, s': State) {
    && s.cons.Reading? && |s.cons.got| == WORDS && |s.cons.bytes| < c.slotBytes && |s.words| >= HEADER_WORDS
    && SlotAt(c, s.words[HEAD]) + |s.cons.bytes| < |s.slots|
    && s' == s.(cons := s.cons.(bytes := s.cons.bytes + [s.slots[SlotAt(c, s.words[HEAD]) + |s.cons.bytes|]]))
  }

  predicate Advances(s: State, s': State) {
    && s.cons.Reading? && |s.cons.got| == WORDS && |s.words| >= HEADER_WORDS
    && s' == s.(words := s.words[HEAD := (s.words[HEAD] + 1) % U32], cons := Waiting, taken := s.taken + 1, read := s.read + [s.cons])
  }

  /** One step of either side, or none. */
  ghost predicate Step(c: Config, s: State, s': State) {
    || s' == s
    || (exists m :: Begins(c, s, s', m)) || (exists j, b :: Scribbles(c, s, s', j, b)) || (exists m :: Adopts(c, s, s', m))
    || WritesByte(c, s, s') || WritesWord(c, s, s') || Publishes(c, s, s')
    || Peeks(s, s') || ReadsWord(c, s, s') || ReadsByte(c, s, s') || Advances(s, s')
  }

  // What holds at every step

  /** A position and its 32 bits have one place in the ring. */
  lemma SamePlace(c: Config, pos: nat)
    requires c.Good()
    ensures Index(c, pos % U32) == Index(c, pos)
  {
    hide Pow2;
    Pow2Add(32 - c.log2, c.log2);
    Pow32();
    ModMod(pos, U32, c.Cap(), Pow2(32 - c.log2));
  }

  lemma ModMod(pos: nat, a: nat, n: nat, k: nat)
    requires n > 0 && a > 0 && a == k * n
    ensures pos % a % n == pos % n
  {
    var q, r := pos / a, pos % a;
    assert pos == q * a + r;
    var x := r / n;
    assert r == x * n + r % n;
    MulAssoc(q, k, n);
    MulAdd(q * k, x, n);
    DivUnique(pos, q * k + x, r % n, n);
  }

  lemma Pow32()
    ensures Pow2(32) == U32
  {
    assert Pow2(16) == 0x1_0000 by { Pow16(); }
    Pow2Add(16, 16);
  }

  lemma Pow16()
    ensures Pow2(16) == 0x1_0000
  {
    Pow2Add(8, 8);
    Pow2Add(4, 4);
  }

  lemma CapSmall(c: Config)
    requires c.Good()
    ensures c.Cap() < U32
  {
    Pow2Monotone(c.log2, 31);
    Pow32();
  }

  /** The words' length is the frames pushed and not taken. */
  lemma LenTrue(c: Config, s: State)
    requires Inv(c, s)
    ensures LenOf(s.words) == |s.pushed| - s.taken
  {
    CapSmall(c);
    var x, y := |s.pushed|, s.taken;
    var p, q := x / U32, y / U32;
    assert x == p * U32 + x % U32 && y == q * U32 + y % U32;
    var d := x - y;
    assert d == (p - q) * U32 + (x % U32 - y % U32);
    if x % U32 >= y % U32 {
      DivUnique(x % U32 - y % U32, 0, d, U32) by { assert p == q; }
    } else {
      assert p == q + 1;
      DivUnique(x % U32 - y % U32, -1, d, U32);
    }
  }

  lemma IndexDiffers(c: Config, i: nat, j: nat)
    requires i < j < i + c.Cap()
    ensures Index(c, i) != Index(c, j)
  {
    var n := c.Cap();
    var p, q := i / n, j / n;
    assert i == p * n + i % n && j == q * n + j % n;
    if Index(c, i) == Index(c, j) {
      MulAdd(q, -p, n);
      assert j - i == (q - p) * n;
      if q - p >= 1 {
        MulMonotone(1, q - p, n);
      } else {
        MulMonotone(q - p, 0, n);
      }
    }
  }

  /** Two positions' places in the ring are apart. */
  lemma PlacesApart(c: Config, i: nat, j: nat)
    requires Index(c, i) != Index(c, j)
    ensures EntryAt(c, i) + WORDS <= EntryAt(c, j) || EntryAt(c, j) + WORDS <= EntryAt(c, i)
    ensures SlotAt(c, i) + c.slotBytes <= SlotAt(c, j) || SlotAt(c, j) + c.slotBytes <= SlotAt(c, i)
  {
    var a, b, z := Index(c, i), Index(c, j), c.slotBytes;
    if a < b {
      MulMonotone(a + 1, b, z);
      MulAdd(a, 1, z);
    } else {
      MulMonotone(b + 1, a, z);
      MulAdd(b, 1, z);
    }
  }

  /** A frame is whole still where only words and bytes at another place differ. */
  lemma HoldsStill(c: Config, s: State, s': State, i: nat, m: Msg, pos: nat)
    requires Sized(c, s) && Sized(c, s') && Holds(c, s, i, m) && Index(c, i) != Index(c, pos)
    requires forall k :: HEADER_WORDS <= k < |s.words| && s'.words[k] != s.words[k] ==> EntryAt(c, pos) <= k < EntryAt(c, pos) + WORDS
    requires forall k :: 0 <= k < |s.slots| && s'.slots[k] != s.slots[k] ==> SlotAt(c, pos) <= k < SlotAt(c, pos) + c.slotBytes
    ensures Holds(c, s', i, m)
  {
    hide Payload, FrameWords, EntryAt, SlotAt, Index;
    PlacesApart(c, i, pos);
    InRange(c, i);
  }

  /** Nothing at any place differs: only the header's words do. */
  lemma SamePlaces(c: Config, s: State, s': State)
    requires Sized(c, s) && Sized(c, s') && s'.slots == s.slots
    requires forall k :: HEADER_WORDS <= k < |s.words| ==> s'.words[k] == s.words[k]
    ensures forall i, m :: Holds(c, s, i, m) ==> Holds(c, s', i, m)
    ensures forall i, w :: |w| <= WORDS && WordsAt(c, s, i, w) ==> WordsAt(c, s', i, w)
    ensures forall i, b :: |b| <= c.slotBytes && BytesAt(c, s, i, b) ==> BytesAt(c, s', i, b)
  {
    hide Payload, FrameWords, EntryAt, SlotAt, Index;
    forall i: nat
      ensures HEADER_WORDS <= EntryAt(c, i) && EntryAt(c, i) + WORDS <= |s.words|
    {
      InRange(c, i);
    }
  }

  /** The place the tail tells is the next frame's, and the head's the first's. */
  lemma HeaderPlaces(c: Config, s: State)
    requires Inv(c, s)
    ensures Index(c, s.words[TAIL]) == Index(c, |s.pushed|) && Index(c, s.words[HEAD]) == Index(c, s.taken)
    ensures forall m :: FrameWords(c, s.words[TAIL], m) == FrameWords(c, |s.pushed|, m)
  {
    SamePlace(c, |s.pushed|);
    SamePlace(c, s.taken);
  }

  lemma NextApart(c: Config, s: State, i: nat)
    requires s.taken <= i < |s.pushed| < s.taken + c.Cap()
    ensures Index(c, i) != Index(c, |s.pushed|)
  {
    IndexDiffers(c, i, |s.pushed|);
  }

  lemma BeginsInv(c: Config, s: State, s': State, m: Msg)
    requires Inv(c, s) && Begins(c, s, s', m)
    ensures Inv(c, s')
  {
    hide Payload, FrameWords, EntryAt, SlotAt, Index, LenOf, Faithful;
    LenTrue(c, s);
    SamePlaces(c, s, s');
  }

  lemma ScribblesInv(c: Config, s: State, s': State, j: nat, b: Byte)
    requires Inv(c, s) && Scribbles(c, s, s', j, b)
    ensures Inv(c, s')
  {
    hide Payload, FrameWords, EntryAt, Index, LenOf, Faithful;
    var pos := |s.pushed|;
    LenTrue(c, s);
    HeaderPlaces(c, s);
    InRange(c, pos);
    forall i | s.taken <= i < pos
      ensures Holds(c, s', i, s.pushed[i])
    {
      NextApart(c, s, i);
      HoldsStill(c, s, s', i, s.pushed[i], pos);
    }
  }

  lemma AdoptsInv(c: Config, s: State, s': State, m: Msg)
    requires Inv(c, s) && Adopts(c, s, s', m)
    ensures Inv(c, s')
  {
    hide Payload, FrameWords, EntryAt, Index, LenOf, Faithful;
    LenTrue(c, s);
    SamePlaces(c, s, s');
    HeaderPlaces(c, s);
    var at := TailSlot(c, s);
    forall k | 0 <= k < |Payload(m)|
      ensures s.slots[at + k] == Payload(m)[k]
    {
      assert s.slots[at..at + |Payload(m)|][k] == Payload(m)[k];
    }
    assert BytesAt(c, s', |s.pushed|, Payload(m)[..|Payload(m)|]);
  }

  lemma WritesByteInv(c: Config, s: State, s': State)
    requires Inv(c, s) && WritesByte(c, s, s')
    ensures Inv(c, s')
  {
    hide Payload, FrameWords, EntryAt, Index, LenOf, Faithful;
    var pos := |s.pushed|;
    HeaderPlaces(c, s);
    InRange(c, pos);
    forall i | s.taken <= i < pos
      ensures Holds(c, s', i, s.pushed[i])
    {
      NextApart(c, s, i);
      HoldsStill(c, s, s', i, s.pushed[i], pos);
    }
  }

  lemma WritesWordInv(c: Config, s: State, s': State)
    requires Inv(c, s) && WritesWord(c, s, s')
    ensures Inv(c, s')
  {
    hide Payload, FrameWords, SlotAt, Index, LenOf, Faithful;
    var pos := |s.pushed|;
    HeaderPlaces(c, s);
    InRange(c, pos);
    forall i | s.taken <= i < pos
      ensures Holds(c, s', i, s.pushed[i])
    {
      NextApart(c, s, i);
      HoldsStill(c, s, s', i, s.pushed[i], pos);
    }
  }

  lemma PublishesInv(c: Config, s: State, s': State)
    requires Inv(c, s) && Publishes(c, s, s')
    ensures Inv(c, s')
  {
    hide Payload, FrameWords, SlotAt, EntryAt, Index, LenOf, Faithful;
    SamePlaces(c, s, s');
    var m := s.prod.m;
    assert Payload(m)[..s.prod.bytes] == Payload(m);
    assert FrameWords(c, |s.pushed|, m)[..WORDS] == FrameWords(c, |s.pushed|, m);
    assert Holds(c, s', |s.pushed|, m);
    CountNext(|s.pushed|);
  }

  lemma CountNext(n: nat)
    ensures (n % U32 + 1) % U32 == (n + 1) % U32
  {
  }

  lemma PeeksInv(c: Config, s: State, s': State)
    requires Inv(c, s) && Peeks(s, s')
    ensures Inv(c, s')
  {
    hide Payload, FrameWords, SlotAt, EntryAt, Index, LenOf;
    LenTrue(c, s);
    SamePlaces(c, s, s');
  }

  lemma ReadsWordInv(c: Config, s: State, s': State)
    requires Inv(c, s) && ReadsWord(c, s, s')
    ensures Inv(c, s')
  {
    hide Payload, FrameWords, SlotAt, Index, LenOf;
    HeaderPlaces(c, s);
    SamePlaces(c, s, s');
    InRange(c, s.taken);
    var m, n := s.pushed[s.taken], |s.cons.got|;
    assert Holds(c, s, s.taken, m);
    assert s.words[EntryAt(c, s.taken) + n] == FrameWords(c, s.taken, m)[n];
  }

  lemma ReadsByteInv(c: Config, s: State, s': State)
    requires Inv(c, s) && ReadsByte(c, s, s')
    ensures Inv(c, s')
  {
    hide Payload, FrameWords, EntryAt, Index, LenOf;
    HeaderPlaces(c, s);
    SamePlaces(c, s, s');
    InRange(c, s.taken);
    var m, n := s.pushed[s.taken], |s.cons.bytes|;
    assert Holds(c, s, s.taken, m);
    assert n < |Payload(m)| ==> s.slots[SlotAt(c, s.taken) + n] == Payload(m)[n];
  }

  lemma AdvancesInv(c: Config, s: State, s': State)
    requires Inv(c, s) && Advances(s, s')
    ensures Inv(c, s')
  {
    hide Payload, FrameWords, SlotAt, EntryAt, Index, LenOf, Faithful;
    SamePlaces(c, s, s');
    CountNext(s.taken);
  }

  lemma StepInv(c: Config, s: State, s': State)
    requires Inv(c, s) && Step(c, s, s')
    ensures Inv(c, s')
  {
    hide Inv, Begins, Scribbles, Adopts, WritesByte, WritesWord, Publishes, Peeks, ReadsWord, ReadsByte, Advances;
    if s' != s {
      if m :| Begins(c, s, s', m) {
        BeginsInv(c, s, s', m);
      } else if j, b :| Scribbles(c, s, s', j, b) {
        ScribblesInv(c, s, s', j, b);
      } else if m :| Adopts(c, s, s', m) {
        AdoptsInv(c, s, s', m);
      } else if WritesByte(c, s, s') {
        WritesByteInv(c, s, s');
      } else if WritesWord(c, s, s') {
        WritesWordInv(c, s, s');
      } else if Publishes(c, s, s') {
        PublishesInv(c, s, s');
      } else if Peeks(s, s') {
        PeeksInv(c, s, s');
      } else if ReadsWord(c, s, s') {
        ReadsWordInv(c, s, s');
      } else if ReadsByte(c, s, s') {
        ReadsByteInv(c, s, s');
      } else {
        AdvancesInv(c, s, s');
      }
    }
  }

  // Runs

  /** A ring just made: its header, and nothing yet. */
  ghost predicate Initial(c: Config, s: State) {
    && c.Good() && Sized(c, s) && s.words[HEAD] == 0 && s.words[TAIL] == 0
    && s.pushed == [] && s.taken == 0 && s.prod.Resting? && s.cons.Waiting? && s.read == []
  }

  ghost predicate Run(c: Config, run: seq<State>) {
    && run != [] && Initial(c, run[0])
    && forall k :: 0 <= k < |run| - 1 ==> Step(c, run[k], run[k + 1])
  }

  /** In every state of every run: no more frames than the ring has places, and what the consumer has taken is what
      was pushed, frame by frame, each whole and once, in order. */
  lemma {:induction false} RunIsFifo(c: Config, run: seq<State>)
    requires Run(c, run)
    ensures var s := run[|run| - 1];
            && Inv(c, s) && |s.read| == s.taken <= |s.pushed| <= s.taken + c.Cap()
            && forall i :: 0 <= i < s.taken ==> Took(c, i, s.pushed[i], s.read[i])
  {
    hide Step;
    if |run| > 1 {
      var less := run[..|run| - 1];
      RunIsFifo(c, less);
      StepInv(c, less[|less| - 1], run[|run| - 1]);
    } else {
      InitialInv(c, run[0]);
    }
    TookAll(c, run[|run| - 1]);
  }

  /** The frame's four words, and as many of its packet's bytes as were read. */
  predicate Took(c: Config, pos: nat, m: Msg, r: Consumer) {
    && r.Reading? && r.got == FrameWords(c, pos, m)
    && forall k :: 0 <= k < |r.bytes| && k < |Payload(m)| ==> r.bytes[k] == Payload(m)[k]
  }

  lemma TookAll(c: Config, s: State)
    requires Inv(c, s)
    ensures forall i :: 0 <= i < s.taken ==> Took(c, i, s.pushed[i], s.read[i])
  {
    hide Payload, FrameWords, Holds;
  }

  lemma InitialInv(c: Config, s: State)
    requires Initial(c, s)
    ensures Inv(c, s)
  {
  }

  /** The producer is refused only by a full ring, and the consumer finds nothing only in an empty one. */
  lemma RefusedIffFull(c: Config, s: State)
    requires Inv(c, s)
    ensures LenOf(s.words) >= c.Cap() <==> |s.pushed| == s.taken + c.Cap()
    ensures LenOf(s.words) == 0 <==> |s.pushed| == s.taken
  {
    LenTrue(c, s);
  }
}
