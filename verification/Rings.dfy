/** The ring as either side runs it: its words and its slots in the memory the two share. */
module Rings {
  import opened Arith
  import opened Bytes
  import opened RingSteps
  import opened Prelude

  /** The header's words that a ring is made with. */
  const CAP: nat := 0
  const SLOT_BYTES: nat := 3
  const SLOT_BASE: nat := 4

  const XTP_HDR: nat := 16

  datatype Answer = OK | EAGAIN | EMSGSIZE

  datatype Frame = Frame(tag: nat, cmd: nat, flags: nat, result: nat, pktAt: nat)

  /** A finished XTP packet: its header says how long it is, to the word. */
  predicate Finished(p: seq<Byte>) {
    |p| >= XTP_HDR && |p| == RoundUp(XTP_HDR + Load4(p, 8), 8)
  }

  /** Sixteen bytes, the size bytes 8 to 11 give with the least first, and zeros to a multiple of eight. */
  lemma FinishedIs(p: seq<Byte>)
    requires |p| >= 16
    ensures var (x: int, y: int, z: int, t: int) := (p[8], p[9], p[10], p[11]);
            var n := 16 + x + 0x100 * y + 0x1_0000 * z + 0x100_0000 * t;
            Finished(p) <==> |p| % 8 == 0 && n <= |p| < n + 8
  {
  }

  /** What the consumer is handed of frame `m` at position `pos`. */
  function FrameOf(c: Config, pos: nat, m: Msg): Frame {
    Frame(m.tag, m.cmd % 0x1_0000, m.flags % 0x1_0000, m.result, if m.pkt.Some? then c.slotBase + SlotAt(c, pos) else 0)
  }

  /** A frame with a finished packet. */
  predicate Packed(m: Msg) {
    m.pkt.Some? && Finished(m.pkt.value)
  }

  class Ring {
    const c: Config
    const words: array<nat>
    const slots: array<Byte>
    /** The frames pushed and how many are taken. */
    ghost var s: State

    ghost predicate Valid()
      reads this, words, slots
    {
      && Inv(c, s) && s.words == words[..] && s.slots == slots[..] && s.prod.Resting? && s.cons.Waiting?
    }

    constructor (c: Config)
      requires c.Good()
      ensures Valid() && this.c == c && s.pushed == [] && s.taken == 0 && fresh(words) && fresh(slots)
      ensures words.Length >= 8 && words[0] == c.Cap() && words[3] == c.slotBytes && words[4] == c.slotBase
    {
      this.c := c;
      words := new nat[HEADER_WORDS + WORDS * c.Cap()](_ => 0);
      slots := new Byte[c.Cap() * c.slotBytes](_ => 0);
      new;
      words[CAP] := c.Cap();
      words[SLOT_BYTES] := c.slotBytes;
      words[SLOT_BASE] := c.slotBase;
      s := State(words[..], slots[..], [], 0, Resting, Waiting, []);
      InitialInv(c, s);
    }

    /** What the two sides share, word for word: word 1 counts what is taken and word 2 what is pushed, in 32 bits; from
        word 8 four words for each frame, at its position's remainder: its tag, its command with its flags in the high half,
        its result, and where its packet is, which lies in that place's slot. */
    lemma Shared(i: nat)
      requires Valid() && s.taken <= i < |s.pushed|
      ensures words.Length == 8 + 4 * c.Cap() && slots.Length == c.Cap() * c.slotBytes
      ensures words[1] == s.taken % 0x1_0000_0000 && words[2] == |s.pushed| % 0x1_0000_0000
      ensures var (m, k) := (s.pushed[i], i % c.Cap());
              && words[8 + 4 * k] == m.tag && words[8 + 4 * k + 2] == m.result
              && words[8 + 4 * k + 1] == m.flags % 0x1_0000 * 0x1_0000 + m.cmd % 0x1_0000
              && words[8 + 4 * k + 3] == (if m.pkt.Some? then c.slotBase + k * c.slotBytes else 0)
              && (m.pkt.Some? ==> && k * c.slotBytes + |m.pkt.value| <= slots.Length
                                  && slots[k * c.slotBytes..k * c.slotBytes + |m.pkt.value|] == m.pkt.value)
    {
      hide RoundUp;
      var m, k := s.pushed[i], i % c.Cap();
      assert Holds(c, s, i, m);
      InRange(c, i);
      CmdBack(m.cmd, m.flags);
      assert words[8 + 4 * k] == FrameWords(c, i, m)[0] && words[8 + 4 * k + 1] == FrameWords(c, i, m)[1];
      assert words[8 + 4 * k + 2] == FrameWords(c, i, m)[2] && words[8 + 4 * k + 3] == FrameWords(c, i, m)[3];
      PayloadSize(m);
      if m.pkt.Some? {
        forall j | 0 <= j < |m.pkt.value|
          ensures slots[k * c.slotBytes + j] == m.pkt.value[j]
        {
          assert s.slots[SlotAt(c, i) + j] == Payload(m)[j];
        }
      }
    }

    function Len(): nat
      requires words.Length >= HEADER_WORDS
      reads words
    {
      (words[TAIL] - words[HEAD]) % U32
    }

    ghost predicate Writes(m: Msg, bytes: nat)
      reads this, words, slots
    {
      && Inv(c, s) && s.words == words[..] && s.slots == slots[..] && s.prod == Writing(m, bytes, 0) && s.cons.Waiting?
    }

    /** The producer takes up `m`: nothing of it is written yet. */
    ghost method StartWriting(m: Msg)
      requires Valid() && words.Length >= HEADER_WORDS && LenOf(words[..]) < c.Cap() && |Payload(m)| <= c.slotBytes
      modifies this`s
      ensures Writes(m, 0) && s == old(s).(prod := Writing(m, 0, 0))
    {
      ghost var s' := s.(prod := Writing(m, 0, 0));
      BeginsInv(c, s, s', m);
      s := s';
    }

    /** A frame, with a packet or without; refused where the ring is full, or the packet larger than a slot. */
    method Push(tag: nat, cmd: nat, flags: nat, result: nat, pkt: Option<seq<Byte>>) returns (r: Answer)
      requires Valid()
      modifies this, words, slots
      ensures Valid() && s.taken == old(s.taken) && s.read == old(s.read)
      ensures r == if |old(s.pushed)| == s.taken + c.Cap() then EAGAIN
                   else if pkt.Some? && RoundUp(|pkt.value|, 8) > c.slotBytes then EMSGSIZE else OK
      ensures s.pushed == if r.OK? then old(s.pushed) + [Msg(tag, cmd, flags, result, pkt)] else old(s.pushed)
    {
      hide Inv, Payload, FrameWords, Index, SlotAt, LenOf, RoundUp, CmdWord, Writes;
      ghost var m := Msg(tag, cmd, flags, result, pkt);
      Known();
      RefusedIffFull(c, s);
      LenIs();
      if Len() >= c.Cap() {
        return EAGAIN;
      }
      var pktAt := Load(pkt, m);
      if pktAt.None? {
        return EMSGSIZE;
      }
      Publish(tag, CmdWord(cmd, flags), result, pktAt.value, m);
      return OK;
    }

    lemma LenIs()
      requires words.Length >= HEADER_WORDS
      ensures Len() == LenOf(words[..])
    {
    }

    /** A packet, where there is one, into its slot, and where that is; none where it is larger. */
    method Load(pkt: Option<seq<Byte>>, ghost m: Msg) returns (pktAt: Option<nat>)
      requires Valid() && m.pkt == pkt && words.Length >= HEADER_WORDS && LenOf(words[..]) < c.Cap()
      modifies this`s, slots
      ensures pktAt.None? <==> pkt.Some? && RoundUp(|pkt.value|, 8) > c.slotBytes
      ensures pktAt.None? ==> Valid() && s == old(s)
      ensures pktAt.Some? ==> && Writes(m, |Payload(m)|) && Kept(old(s), s) && |s.words| >= HEADER_WORDS
                              && FrameWords(c, s.words[TAIL], m) == [m.tag, CmdWord(m.cmd, m.flags), m.result, pktAt.value]
    {
      hide Inv, Payload, FrameWords, Index, SlotAt, LenOf, RoundUp, CmdWord;
      Known();
      PayloadSize(m);
      FrameIs(c, words[TAIL], m);
      if pkt.Some? {
        if RoundUp(|pkt.value|, 8) > c.slotBytes {
          return None;
        }
        StartWriting(m);
        var start := SlotAt(c, words[TAIL]);
        CopyIn(start, pkt.value, m);
        return Some(c.slotBase + start);
      }
      StartWriting(m);
      return Some(0);
    }

    /** A packet written in the slot itself, `n` of it wanted; refused where the writer answers none, or more than
        the slot holds. */
    method PushInPlace(tag: nat, cmd: nat, flags: nat, result: nat, content: seq<Byte>, n: Option<nat>) returns (r: Answer)
      requires Valid() && |content| <= c.slotBytes && (n.Some? && n.value <= c.slotBytes ==> n.value <= |content|)
      modifies this, words, slots
      ensures Valid() && s.taken == old(s.taken) && s.read == old(s.read)
      ensures r == if |old(s.pushed)| == s.taken + c.Cap() then EAGAIN
                   else if n.None? || n.value > c.slotBytes then EMSGSIZE else OK
      ensures s.pushed == if r.OK? then old(s.pushed) + [Msg(tag, cmd, flags, result, Some(content[..n.value]))] else old(s.pushed)
    {
      hide Inv, Payload, FrameWords, Index, SlotAt, CmdWord, RoundUp, Load4, Holds;
      Known();
      RefusedIffFull(c, s);
      if Len() >= c.Cap() {
        return EAGAIN;
      }
      var slot := SlotAt(c, words[TAIL]);
      SlotFits();
      Scribble(slot, 0, content);
      if n.None? || n.value > c.slotBytes {
        return EMSGSIZE;
      }
      ghost var m := Msg(tag, cmd, flags, result, Some(content[..n.value]));
      PayloadSize(m);
      WordsFit(n.value, c.slotBytes);
      ghost var before := s;
      Scribble(slot, n.value, Zeros(RoundUp(n.value, 8) - n.value));
      PayloadLaid(slots[..], slot, content, n.value, m, before.slots);
      ghost var s' := s.(prod := Writing(m, |Payload(m)|, 0));
      AdoptsInv(c, s, s', m);
      s := s';
      FrameIs(c, words[TAIL], m);
      Publish(tag, CmdWord(cmd, flags), result, c.slotBase + slot, m);
      return OK;
    }

    lemma SlotFits()
      requires Inv(c, s)
      ensures |s.words| >= HEADER_WORDS && TailSlot(c, s) + c.slotBytes <= |s.slots| && c.slotBytes % 8 == 0
    {
      InRange(c, s.words[TAIL]);
    }

    /** Bytes written in the next frame's slot, from its byte `from` on. */
    method Scribble(slot: nat, from: nat, b: seq<Byte>)
      requires Valid() && |s.words| >= HEADER_WORDS && slot == TailSlot(c, s) && LenOf(s.words) < c.Cap()
      requires from + |b| <= c.slotBytes && slot + c.slotBytes <= slots.Length
      modifies this`s, slots
      ensures Valid() && Kept(old(s), s)
      ensures slots[slot + from..slot + from + |b|] == b
      ensures forall k :: 0 <= k < slots.Length && !(slot + from <= k < slot + from + |b|) ==> slots[k] == old(slots[k])
    {
      hide Inv, Index, SlotAt;
      var i := 0;
      while i < |b|
        invariant i <= |b| && Valid() && Kept(old(s), s)
        invariant forall k :: 0 <= k < slots.Length ==>
                                slots[k] == if slot + from <= k < slot + from + i then b[k - slot - from] else old(slots[k])
      {
        ghost var s' := s.(slots := s.slots[slot + (from + i) := b[i]]);
        ScribblesInv(c, s, s', from + i, b[i]);
        slots[slot + from + i] := b[i];
        s := s';
        i := i + 1;
      }
    }

    // The consumer's side

    /** The head's frame, none when empty. */
    method Peek() returns (f: Option<Frame>)
      requires Valid()
      ensures f == if s.taken == |s.pushed| then None else Some(FrameOf(c, s.taken, s.pushed[s.taken]))
    {
      RefusedIffFull(c, s);
      Known();
      if Len() == 0 {
        return None;
      }
      HeadHolds();
      var e := EntryAt(c, words[HEAD]);
      var word := words[e + 1];
      CmdBack(s.pushed[s.taken].cmd, s.pushed[s.taken].flags);
      return Some(Frame(words[e], word % 0x1_0000, word / 0x1_0000, words[e + 2], words[e + 3]));
    }

    lemma HeadHolds()
      requires Inv(c, s) && s.taken < |s.pushed|
      ensures |s.words| >= HEADER_WORDS && EntryAt(c, s.words[HEAD]) + WORDS <= |s.words|
      ensures var e, w := EntryAt(c, s.words[HEAD]), FrameWords(c, s.taken, s.pushed[s.taken]);
              s.words[e] == w[0] && s.words[e + 1] == w[1] && s.words[e + 2] == w[2] && s.words[e + 3] == w[3]
    {
      hide Payload, FrameWords, SlotAt, Index;
      HeaderPlaces(c, s);
      InRange(c, s.taken);
      assert Holds(c, s, s.taken, s.pushed[s.taken]);
    }

    /** Where the frame's packet lies, and how long its own header says it is; EBADMSG for a frame that names bytes
        outside a slot. */
    method Pkt(f: Frame) returns (r: Result<(nat, nat)>)
      requires Valid()
      ensures f.pktAt == 0 ==> r == Ok((0, 0))
      ensures r.Ok? && f.pktAt != 0 ==> r.value.0 + c.slotBase == f.pktAt && r.value.0 + r.value.1 <= slots.Length
      ensures s.taken < |s.pushed| && f == FrameOf(c, s.taken, s.pushed[s.taken]) && Packed(s.pushed[s.taken])
              ==> r.Ok? && Handed(r.value.0, r.value.1, s.pushed[s.taken].pkt.value)
    {
      hide Inv, FrameWords, Index, Payload, Load4, SlotAt;
      Known();
      if f.pktAt == 0 {
        return Ok((0, 0));
      }
      if s.taken < |s.pushed| && s.pushed[s.taken].pkt.Some? {
        PacketHeld();
      }
      if f.pktAt < c.slotBase {
        return Err(EBADMSG);
      }
      var off := f.pktAt - c.slotBase;
      if off % c.slotBytes != 0 || off + XTP_HDR > slots.Length {
        return Err(EBADMSG);
      }
      var n := RoundUp(XTP_HDR + Load4(slots[..], off + 8), 8);
      if n > c.slotBytes {
        return Err(EBADMSG);
      }
      SlotWhole(off, c.slotBytes, c.Cap());
      return Ok((off, n));
    }

    /** The slots hold just packet `p` there. */
    ghost predicate Handed(off: nat, n: nat, p: seq<Byte>)
      reads slots
    {
      n == |p| && off + n <= slots.Length && slots[off..off + n] == p
    }

    lemma PacketHeld()
      requires Valid() && s.taken < |s.pushed| && s.pushed[s.taken].pkt.Some?
      ensures var p, at := s.pushed[s.taken].pkt.value, SlotAt(c, s.taken);
              && at % c.slotBytes == 0 && |p| <= c.slotBytes && at + c.slotBytes <= slots.Length
              && slots[at..at + |p|] == p
              && (|p| >= XTP_HDR ==> Load4(slots[..], at + 8) == Load4(p, 8))
    {
      hide RoundUp, Load4, Payload, FrameWords;
      var m := s.pushed[s.taken];
      var p, at := m.pkt.value, SlotAt(c, s.taken);
      InRange(c, s.taken);
      assert Holds(c, s, s.taken, m);
      PayloadSize(m);
      DivUnique(at, Index(c, s.taken), 0, c.slotBytes);
      forall k | 0 <= k < |p|
        ensures slots[at + k] == p[k]
      {
        assert s.slots[at + k] == Payload(m)[k];
      }
      if |p| >= XTP_HDR {
        LoadSame(slots[..], at, p);
      }
    }

    /** The head let go, its frame taken. */
    method Advance()
      requires Valid() && s.taken < |s.pushed|
      modifies this`s, words
      ensures Valid() && s.taken == old(s.taken) + 1 && s.pushed == old(s.pushed)
    {
      hide Inv, FrameWords, Index;
      Known();
      TakeInv(c, s);
      ghost var took := Reading(FrameWords(c, s.taken, s.pushed[s.taken]), []);
      s := s.(words := s.words[HEAD := (s.words[HEAD] + 1) % U32], taken := s.taken + 1, read := s.read + [took]);
      words[HEAD] := (words[HEAD] + 1) % U32;
    }

    lemma Known()
      requires Inv(c, s)
      ensures c.Good() && Sized(c, s) && |s.words| >= HEADER_WORDS
      ensures s.words[HEAD] == s.taken % U32 && s.words[TAIL] == |s.pushed| % U32
    {
    }

    /** The packet's bytes and the zeros after them, into the slot at `start`. */
    method CopyIn(start: nat, p: seq<Byte>, ghost m: Msg)
      requires Writes(m, 0) && m.pkt == Some(p) && |s.words| >= HEADER_WORDS && start == TailSlot(c, s)
      modifies this`s, slots
      ensures Writes(m, |Payload(m)|) && Kept(old(s), s)
    {
      hide Inv, FrameWords, Index, SlotAt;
      var i := 0;
      var n := RoundUp(|p|, 8);
      PayloadSize(m);
      while i < n
        invariant i <= n && Writes(m, i) && Kept(old(s), s) && |s.words| >= HEADER_WORDS && start == TailSlot(c, s)
      {
        WritePlace(m, i);
        ghost var s' := s.(slots := s.slots[start + i := Payload(m)[i]], prod := s.prod.(bytes := i + 1));
        WritesByteInv(c, s, s');
        slots[start + i] := if i < |p| then p[i] else 0;
        s := s';
        i := i + 1;
      }
    }

    lemma WritePlace(m: Msg, i: nat)
      requires Writes(m, i) && i < |Payload(m)|
      ensures |s.words| >= HEADER_WORDS && TailSlot(c, s) + i < |s.slots| == slots.Length
    {
      HeaderPlaces(c, s);
      InRange(c, |s.pushed|);
    }

    /** The frame's words, then the tail. */
    method Publish(tag: nat, cmdWord: nat, result: nat, pktAt: nat, ghost m: Msg)
      requires Writes(m, |Payload(m)|) && |s.words| >= HEADER_WORDS && FrameWords(c, s.words[TAIL], m) == [tag, cmdWord, result, pktAt]
      modifies this`s, words
      ensures Valid() && s.pushed == old(s.pushed) + [m] && s.taken == old(s.taken) && s.read == old(s.read)
    {
      hide Inv, FrameWords, Index, EntryAt;
      var t := words[TAIL];
      var f := EntryAt(c, t);
      WriteWord(f, 0, tag, m);
      WriteWord(f, 1, cmdWord, m);
      WriteWord(f, 2, result, m);
      WriteWord(f, 3, pktAt, m);
      ghost var s' := s.(words := s.words[TAIL := (s.words[TAIL] + 1) % U32], prod := Resting, pushed := s.pushed + [s.prod.m]);
      PublishesInv(c, s, s');
      words[TAIL] := (t + 1) % U32;
      s := s';
    }

    method WriteWord(f: nat, k: nat, w: nat, ghost m: Msg)
      requires Inv(c, s) && s.words == words[..] && s.slots == slots[..] && s.prod == Writing(m, |Payload(m)|, k) && k < WORDS
      requires |s.words| >= HEADER_WORDS && f == EntryAt(c, s.words[TAIL]) && w == FrameWords(c, s.words[TAIL], m)[k]
      modifies this`s, words
      ensures Inv(c, s) && s.words == words[..] && s.slots == slots[..] && s.prod == Writing(m, |Payload(m)|, k + 1)
      ensures |s.words| == |old(s).words| && s.words[TAIL] == old(s).words[TAIL]
      ensures s.pushed == old(s).pushed && s.taken == old(s).taken && s.read == old(s).read && s.cons == old(s).cons
    {
      hide Inv, FrameWords, Index;
      FrameFits();
      ghost var s' := s.(words := s.words[f + k := w], prod := s.prod.(frame := k + 1));
      WritesWordInv(c, s, s');
      words[f + k] := w;
      s := s';
    }

    lemma FrameFits()
      requires Inv(c, s)
      ensures |s.words| >= HEADER_WORDS && EntryAt(c, s.words[TAIL]) + WORDS <= |s.words| && EntryAt(c, s.words[TAIL]) >= HEADER_WORDS
    {
      InRange(c, s.words[TAIL]);
    }
  }

  /** All but the producer's work and the slots is as it was. */
  ghost predicate Kept(s0: State, s: State) {
    s.words == s0.words && s.pushed == s0.pushed && s.taken == s0.taken && s.read == s0.read && s.cons == s0.cons
  }

  lemma FrameIs(c: Config, pos: nat, m: Msg)
    ensures FrameWords(c, pos, m) == [m.tag, CmdWord(m.cmd, m.flags), m.result, if m.pkt.Some? then c.slotBase + SlotAt(c, pos) else 0]
  {
  }

  /** A command and its flags come back as the 16 bits each has. */
  lemma CmdBack(cmd: nat, flags: nat)
    ensures CmdWord(cmd, flags) % 0x1_0000 == cmd % 0x1_0000 && CmdWord(cmd, flags) / 0x1_0000 == flags % 0x1_0000
  {
    var q := flags / 0x1_0000;
    assert flags == q * 0x1_0000 + flags % 0x1_0000;
    DivUnique(flags * 0x1_0000, q, flags % 0x1_0000 * 0x1_0000, U32);
  }

  lemma WordsFit(n: nat, z: nat)
    requires n <= z && z % 8 == 0
    ensures RoundUp(n, 8) <= z
  {
  }

  lemma LoadSame(m: seq<Byte>, at: nat, p: seq<Byte>)
    requires at + |p| <= |m| && m[at..at + |p|] == p && |p| >= XTP_HDR
    ensures Load4(m, at + 8) == Load4(p, 8)
  {
    var s := m[at..at + |p|];
    assert m[at + 8] == s[8] && m[at + 9] == s[9] && m[at + 10] == s[10] && m[at + 11] == s[11];
  }

  /** A slot's offset is followed by a slot's bytes. */
  lemma SlotWhole(off: nat, z: nat, cap: nat)
    requires z > 0 && off % z == 0 && off < cap * z
    ensures off + z <= cap * z
  {
    var q := off / z;
    assert off == q * z;
    if cap <= q {
      MulMonotone(cap, q, z);
    } else {
      MulMonotone(q + 1, cap, z);
      MulAdd(q, 1, z);
    }
  }

  lemma PayloadLaid(m1: seq<Byte>, slot: nat, content: seq<Byte>, n: nat, m: Msg, m0: seq<Byte>)
    requires n <= |content| && m.pkt == Some(content[..n]) && slot + |content| <= |m0| == |m1| && slot + |Payload(m)| <= |m1|
    requires m0[slot..slot + |content|] == content
    requires m1[slot + n..slot + |Payload(m)|] == Zeros(|Payload(m)| - n)
    requires forall k :: 0 <= k < |m0| && !(slot + n <= k < slot + |Payload(m)|) ==> m1[k] == m0[k]
    ensures m1[slot..slot + |Payload(m)|] == Payload(m)
  {
    PayloadSize(m);
    forall k | 0 <= k < |Payload(m)|
      ensures m1[slot + k] == Payload(m)[k]
    {
      if k < n {
        assert m0[slot..slot + |content|][k] == content[k];
      } else {
        assert m1[slot + n..slot + |Payload(m)|][k - n] == 0;
      }
    }
  }

  /** The consumer's steps over one frame, its packet left unread, make one. */
  lemma TakeInv(c: Config, s: State)
    requires Inv(c, s) && s.cons.Waiting? && s.taken < |s.pushed|
    ensures |s.words| >= HEADER_WORDS
    ensures var took := Reading(FrameWords(c, s.taken, s.pushed[s.taken]), []);
            Inv(c, s.(words := s.words[HEAD := (s.words[HEAD] + 1) % U32], taken := s.taken + 1, read := s.read + [took]))
  {
    hide Payload, FrameWords, SlotAt, EntryAt, Index;
    var took := Reading(FrameWords(c, s.taken, s.pushed[s.taken]), []);
    var s1 := s.(cons := took);
    SamePlaces(c, s, s1);
    AdvancesInv(c, s1, s1.(words := s1.words[HEAD := (s1.words[HEAD] + 1) % U32], cons := Waiting, taken := s1.taken + 1, read := s1.read + [took]));
  }

  lemma PayloadSize(m: Msg)
    ensures |Payload(m)| == if m.pkt.Some? then RoundUp(|m.pkt.value|, 8) else 0
    ensures m.pkt.Some? ==> forall i :: 0 <= i < |Payload(m)| ==> Payload(m)[i] == if i < |m.pkt.value| then m.pkt.value[i] else 0
  {
  }
}
