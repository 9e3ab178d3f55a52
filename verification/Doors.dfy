/** The guest's end of its two rings: a command is started only while the completion ring has room for all it may
    leave. */
module Doors {
  import Arith
  import opened Bytes
  import opened RingSteps
  import opened Rings
  import opened Prelude

  /** The flags of a frame: a reply, and a reply asked for. */
  const RES: nat := 1
  const ACKREQ: nat := 2

  /** What comes of a submission: its error's number, 0 for none, or its value; and the events it raised. */
  datatype Outcome = Outcome(err: nat, val: nat, events: seq<Msg>)

  function Reply(m: Msg, o: Outcome): seq<Msg> {
    if o.err != 0 then [Msg(m.tag, m.cmd % 0x1_0000, RES, o.err, None)]
    else if m.flags % 0x1_0000 / ACKREQ % 2 == 1 then [Msg(m.tag, m.cmd % 0x1_0000, RES, o.val, None)]
    else []
  }

  /** What a submission leaves in the completion ring: its events, and a reply where it failed or one was asked
      for. */
  function Leaves(m: Msg, o: Outcome): seq<Msg> {
    o.events + Reply(m, o)
  }

  // A drain, as counts

  /** How many submissions a drain applies that finds `len` completions, the `k`th leaving `left[k]` more. */
  function Applies(len: nat, cap: nat, reserve: nat, left: seq<nat>): (n: nat)
    ensures n <= |left|
    decreases |left|
  {
    if left == [] || len + reserve > cap then 0 else 1 + Applies(len + left[0], cap, reserve, left[1..])
  }

  function Sum(left: seq<nat>): nat {
    if left == [] then 0 else left[0] + Sum(left[1..])
  }

  /** The completions a drain ends with. */
  function EndsAt(len: nat, cap: nat, reserve: nat, left: seq<nat>): nat {
    len + Sum(left[..Applies(len, cap, reserve, left)])
  }

  lemma EndsNext(len: nat, cap: nat, reserve: nat, left: seq<nat>)
    requires left != [] && len + reserve <= cap
    ensures EndsAt(len, cap, reserve, left) == EndsAt(len + left[0], cap, reserve, left[1..])
  {
    var n := Applies(len, cap, reserve, left);
    assert left[..n][0] == left[0] && left[..n][1..] == left[1..][..n - 1];
  }

  /** Commands that raise at most `r` events each, and may be replied to. */
  predicate MayLeave(left: seq<nat>, r: nat) {
    forall k :: 0 <= k < |left| ==> left[k] <= r + 1
  }

  lemma {:induction false} EndBound(len: nat, cap: nat, most: nat, r: nat, left: seq<nat>)
    requires MayLeave(left, r) && r <= most < cap && len <= cap - most + r
    ensures EndsAt(len, cap, most + 1, left) <= cap - most + r
    decreases left
  {
    if left != [] && len + most + 1 <= cap {
      EndsNext(len, cap, most + 1, left);
      EndBound(len + left[0], cap, most, r, left[1..]);
    }
  }

  /** Commands that leave a reply each, and then one that leaves all it may. */
  function Worst(n: nat, r: nat): (left: seq<nat>)
    ensures |left| == n + 1
    ensures forall k :: 0 <= k <= n ==> left[k] == if k < n then 1 else r + 1
  {
    seq(n + 1, k => if k < n then 1 else r + 1)
  }

  lemma {:induction false} WorstEnds(len: nat, cap: nat, most: nat, r: nat)
    requires len + most + 1 <= cap
    ensures EndsAt(len, cap, most + 1, Worst(cap - most - 1 - len, r)) == cap - most + r
    decreases cap - len
  {
    var n := cap - most - 1 - len;
    var left := Worst(n, r);
    EndsNext(len, cap, most + 1, left);
    if n > 0 {
      assert left[1..] == Worst(n - 1, r);
      WorstEnds(len + 1, cap, most, r);
    } else {
      assert left[1..] == [];
    }
  }

  /** With commands raising at most `r` events, and the turn at most `p` once its drain is done: the completion ring,
      empty as the turn begins, always has room for the turn's exactly where the two together are no more than the
      bound the door is made with. */
  lemma CreditRule(cap: nat, most: nat, r: nat, p: nat)
    requires r <= most < cap
    ensures (forall left :: MayLeave(left, r) ==> EndsAt(0, cap, most + 1, left) + p <= cap) <==> r + p <= most
  {
    if r + p <= most {
      forall left | MayLeave(left, r)
        ensures EndsAt(0, cap, most + 1, left) + p <= cap
      {
        EndBound(0, cap, most, r, left);
      }
    } else {
      var left := Worst(cap - most - 1, r);
      WorstEnds(0, cap, most, r);
      assert MayLeave(left, r) && EndsAt(0, cap, most + 1, left) + p > cap;
    }
  }

  /** A ring of eight whose door is made for two events, where both a command and the turn raise two: the drain may
      end with the ring full. */
  lemma BothMayNotReachTheBound()
    ensures MayLeave(Worst(5, 2), 2) && EndsAt(0, 8, 3, Worst(5, 2)) == 8
  {
    WorstEnds(0, 8, 2, 2);
  }

  /** A drain that finds the ring empty applies what waits, one at least. */
  lemma OneAtLeast(cap: nat, most: nat, left: seq<nat>)
    requires most < cap && left != []
    ensures Applies(0, cap, most + 1, left) >= 1
  {
  }

  // As it runs

  function Counts(subs: seq<Msg>, outcomes: seq<Outcome>): (left: seq<nat>)
    requires |subs| <= |outcomes|
    ensures |left| == |subs|
    ensures forall k :: 0 <= k < |subs| ==> left[k] == |Leaves(subs[k], outcomes[k])|
  {
    seq(|subs|, k requires 0 <= k < |subs| => |Leaves(subs[k], outcomes[k])|)
  }

  /** What the first `n` submissions leave, in order. */
  function AllLeft(subs: seq<Msg>, outcomes: seq<Outcome>, n: nat): seq<Msg>
    requires n <= |subs| <= |outcomes|
  {
    if n == 0 then [] else AllLeft(subs, outcomes, n - 1) + Leaves(subs[n - 1], outcomes[n - 1])
  }

  /** What a submission adds, frame by frame: its events; then, where its error is not 0 or bit 1 of its flags is set, one
      of its tag and the low half of its command, with bit 0 alone of the flags, that gives the error or else the value. */
  ghost predicate Answer(m: Msg, o: Outcome, added: seq<Msg>) {
    var asked := o.err != 0 || m.flags / 2 % 2 == 1;
    && |added| == |o.events| + (if asked then 1 else 0) && added[..|o.events|] == o.events
    && (asked ==> && added[|o.events|].tag == m.tag && added[|o.events|].cmd == m.cmd % 0x1_0000 && added[|o.events|].flags == 1
                  && added[|o.events|].result == (if o.err != 0 then o.err else o.val) && added[|o.events|].pkt.None?)
  }

  /** What is added answers submissions of `subs` from the first, each from its place in `at` on: each had room for all
      it might leave, and none is passed over that would have. */
  ghost predicate Answered(subs: seq<Msg>, outcomes: seq<Outcome>, at: seq<nat>, added: seq<Msg>, most: nat, cap: nat) {
    && 1 <= |at| <= |subs| + 1 && |subs| <= |outcomes| && at[0] == 0 && at[|at| - 1] == |added|
    && (forall k :: 0 <= k < |at| - 1 ==> AnsweredAt(subs[k], outcomes[k], at[k], at[k + 1], added) && at[k] + most + 1 <= cap)
    && (|at| - 1 == |subs| || |added| + most + 1 > cap)
  }

  ghost predicate AnsweredAt(m: Msg, o: Outcome, from: nat, to: nat, added: seq<Msg>) {
    from <= to <= |added| && Answer(m, o, added[from..to])
  }

  lemma LeavesAnswer(m: Msg, o: Outcome)
    ensures Answer(m, o, Leaves(m, o))
  {
    LowFlags(m.flags);
  }

  lemma LowFlags(f: nat)
    ensures f % 0x1_0000 / 2 % 2 == f / 2 % 2
  {
    var q, low := f / 0x1_0000, f % 0x1_0000;
    Arith.DivUnique(f, 0x8000 * q + low / 2, low % 2, 2);
    Arith.DivUnique(f / 2, 0x4000 * q + low / 2 / 2, low / 2 % 2, 2);
  }

  /** What the first `n` submissions leave answers them. */
  lemma {:induction false} AllAnswered(subs: seq<Msg>, outcomes: seq<Outcome>, n: nat, most: nat, cap: nat) returns (at: seq<nat>)
    requires n <= |subs| <= |outcomes|
    ensures |at| == n + 1 && at[0] == 0 && at[n] == |AllLeft(subs, outcomes, n)|
    ensures forall k :: 0 <= k < n ==> AnsweredAt(subs[k], outcomes[k], at[k], at[k + 1], AllLeft(subs, outcomes, n))
    ensures forall k :: 0 <= k <= n ==> at[k] == Sum(Counts(subs, outcomes)[..k])
  {
    hide Answer, Leaves, Counts;
    LeftSum(subs, outcomes, n);
    if n == 0 {
      return [0];
    }
    var less := AllLeft(subs, outcomes, n - 1);
    var left := Leaves(subs[n - 1], outcomes[n - 1]);
    var before := AllAnswered(subs, outcomes, n - 1, most, cap);
    at := before + [|less + left|];
    LeavesAnswer(subs[n - 1], outcomes[n - 1]);
    assert (less + left)[|less|..|less + left|] == left;
    assert AnsweredAt(subs[n - 1], outcomes[n - 1], at[n - 1], at[n], less + left);
    forall k | 0 <= k < n - 1
      ensures AnsweredAt(subs[k], outcomes[k], at[k], at[k + 1], less + left)
    {
      assert AnsweredAt(subs[k], outcomes[k], before[k], before[k + 1], less);
      assert (less + left)[at[k]..at[k + 1]] == less[at[k]..at[k + 1]];
    }
  }

  /** A drain applies while there is room, and no longer. */
  lemma {:induction false} AppliesRoom(len: nat, cap: nat, reserve: nat, left: seq<nat>)
    ensures var n := Applies(len, cap, reserve, left);
            && (forall k :: 0 <= k < n ==> len + Sum(left[..k]) + reserve <= cap)
            && (n == |left| || len + Sum(left[..n]) + reserve > cap)
    decreases |left|
  {
    var n := Applies(len, cap, reserve, left);
    if n > 0 {
      AppliesRoom(len + left[0], cap, reserve, left[1..]);
      forall k | 0 < k <= n
        ensures Sum(left[..k]) == left[0] + Sum(left[1..][..k - 1])
      {
        assert left[..k][1..] == left[1..][..k - 1];
      }
    }
  }

  class Door {
    const sq: Ring
    const cq: Ring
    const mostEvents: nat
    var cqPeak: nat
    var sqPeak: nat
    var leftPeak: nat

    ghost predicate Valid()
      reads this, sq, sq.words, sq.slots, cq, cq.words, cq.slots
    {
      && sq.Valid() && cq.Valid() && Distinct()
    }

    ghost predicate Distinct()
      reads this, sq, cq
    {
      && sq != cq && sq.words != cq.words && sq.slots != cq.slots
      && sq.words as object != cq.slots as object && sq.slots as object != cq.words as object
    }

    constructor (sq: Ring, cq: Ring, mostEvents: nat)
      requires sq.Valid() && cq.Valid() && sq != cq && sq.words != cq.words && sq.slots != cq.slots
      requires sq.words as object != cq.slots as object && sq.slots as object != cq.words as object
      ensures Valid() && this.sq == sq && this.cq == cq && this.mostEvents == mostEvents
    {
      this.sq, this.cq, this.mostEvents := sq, cq, mostEvents;
      cqPeak, sqPeak, leftPeak := 0, 0, 0;
    }

    ghost function Waiting(): (subs: seq<Msg>)
      requires Valid()
      reads this, sq, sq.words, sq.slots, cq, cq.words, cq.slots
    {
      assert Inv(sq.c, sq.s);
      sq.s.pushed[sq.s.taken..]
    }

    ghost function CqLen(): (n: nat)
      requires Valid()
      reads this, sq, sq.words, sq.slots, cq, cq.words, cq.slots
      ensures n <= cq.c.Cap()
    {
      assert Inv(cq.c, cq.s);
      |cq.s.pushed| - cq.s.taken
    }

    /** A completion; a full ring is a sizing fault. */
    method Post(m: Msg)
      requires Valid() && CqLen() < cq.c.Cap() && (m.pkt.Some? ==> RoundUp(|m.pkt.value|, 8) <= cq.c.slotBytes)
      modifies this`cqPeak, cq, cq.words, cq.slots
      ensures Valid() && cq.s.pushed == old(cq.s.pushed) + [m] && cq.s.taken == old(cq.s.taken) && sq.s == old(sq.s)
      ensures CqLen() == old(CqLen()) + 1
    {
      hide Inv;
      LenKnown(cq);
      var r := cq.Push(m.tag, m.cmd, m.flags, m.result, m.pkt);
      assert r.OK?;
      LenKnown(cq);
      cqPeak := if cq.Len() > cqPeak then cq.Len() else cqPeak;
    }

    /** An event, its packet written in the slot itself. */
    method Raise(m: Msg)
      requires Valid() && CqLen() < cq.c.Cap() && m.pkt.Some? && |m.pkt.value| <= cq.c.slotBytes
      modifies this`cqPeak, cq, cq.words, cq.slots
      ensures Valid() && cq.s.pushed == old(cq.s.pushed) + [m] && cq.s.taken == old(cq.s.taken) && sq.s == old(sq.s)
    {
      hide Inv;
      LenKnown(cq);
      assert m.pkt.value[..|m.pkt.value|] == m.pkt.value;
      var r := cq.PushInPlace(m.tag, m.cmd, m.flags, m.result, m.pkt.value, Some(|m.pkt.value|));
      assert r.OK?;
      LenKnown(cq);
      cqPeak := if cq.Len() > cqPeak then cq.Len() else cqPeak;
    }

    ghost predicate Events(es: seq<Msg>) {
      forall k :: 0 <= k < |es| ==> es[k].pkt.Some? && |es[k].pkt.value| <= cq.c.slotBytes
    }

    method RaiseAll(es: seq<Msg>)
      requires Valid() && Events(es) && CqLen() + |es| <= cq.c.Cap()
      modifies this`cqPeak, cq, cq.words, cq.slots
      ensures Valid() && cq.s.pushed == old(cq.s.pushed) + es && cq.s.taken == old(cq.s.taken) && sq.s == old(sq.s)
    {
      hide Inv;
      var i := 0;
      while i < |es|
        invariant i <= |es| && Valid() && cq.s.pushed == old(cq.s.pushed) + es[..i]
        invariant cq.s.taken == old(cq.s.taken) && sq.s == old(sq.s)
      {
        Raise(es[i]);
        assert es[..i + 1] == es[..i] + [es[i]];
        i := i + 1;
      }
      assert es[..i] == es;
    }

    predicate HasRoom()
      requires cq.words.Length >= HEADER_WORDS
      reads this, cq, cq.words
    {
      cq.Len() + mostEvents + 1 <= cq.c.Cap()
    }

    /** One waiting submission applied, let go, and replied to. */
    method Apply(f: Frame, o: Outcome)
      requires Valid() && CqLen() + mostEvents + 1 <= cq.c.Cap() && Waiting() != []
      requires f == FrameOf(sq.c, sq.s.taken, Waiting()[0]) && |o.events| <= mostEvents && Events(o.events)
      modifies this`cqPeak, sq`s, sq.words, cq, cq.words, cq.slots
      ensures Valid() && cq.s.pushed == old(cq.s.pushed) + Leaves(old(Waiting())[0], o) && cq.s.taken == old(cq.s.taken)
      ensures sq.s.pushed == old(sq.s.pushed) && sq.s.taken == old(sq.s.taken) + 1
    {
      hide Inv;
      LenKnown(sq);
      RaiseAll(o.events);
      sq.Advance();
      if o.err != 0 {
        Post(Msg(f.tag, f.cmd, RES, o.err, None));
      } else if f.flags / ACKREQ % 2 == 1 {
        Post(Msg(f.tag, f.cmd, RES, o.val, None));
      }
      assert cq.s.pushed == old(cq.s.pushed) + Leaves(old(Waiting())[0], o);
    }

    /** What may come of the waiting submissions: none raises more than the door is made for. */
    ghost predicate Bounded(outcomes: seq<Outcome>)
      requires Valid()
      reads this, sq, sq.words, sq.slots, cq, cq.words, cq.slots
    {
      && |Waiting()| <= |outcomes|
      && forall k :: 0 <= k < |outcomes| ==> |outcomes[k].events| <= mostEvents && Events(outcomes[k].events)
    }

    /** Applies waiting submissions in order, each once, while there is room for what one more may leave. Answers
        how many completions it made. */
    method Drain(outcomes: seq<Outcome>) returns (made: nat)
      requires Valid() && Bounded(outcomes)
      modifies this, sq`s, sq.words, cq, cq.words, cq.slots
      ensures Valid() && Drained(old(Waiting()), outcomes, old(CqLen()), old(sq.s), old(cq.s))
      ensures made == (|cq.s.pushed| - |old(cq.s).pushed|) % U32
    {
      hide Inv, AllLeft, Counts, Applies, Drained;
      LenKnown(cq);
      LenKnown(sq);
      Words(cq);
      var tail := cq.words[TAIL];
      sqPeak := if sq.Len() > sqPeak then sq.Len() else sqPeak;
      ApplyAll(outcomes);
      LenKnown(cq);
      LenKnown(sq);
      Words(cq);
      leftPeak := if sq.Len() > leftPeak then sq.Len() else leftPeak;
      TailsApart(|old(cq.s).pushed|, |cq.s.pushed|);
      made := (cq.words[TAIL] - tail) % U32;
    }

    method ApplyAll(outcomes: seq<Outcome>)
      requires Valid() && Bounded(outcomes)
      modifies this`cqPeak, sq`s, sq.words, cq, cq.words, cq.slots
      ensures Valid() && Drained(old(Waiting()), outcomes, old(CqLen()), old(sq.s), old(cq.s))
    {
      hide Inv, AllLeft, Counts, Applies, Leaves, FrameOf, Index, Payload, Drained, Bounded, Events, Ring.Valid;
      LenKnown(cq);
      LenKnown(sq);
      BoundedAt(outcomes);
      var k := 0;
      ghost var subs, len := Waiting(), CqLen();
      ghost var left := Counts(subs, outcomes);
      DrainStart(subs, outcomes, cq.s.pushed);
      assert left[0..] == left;
      while HasRoom()
        invariant Valid() && k <= |subs| && Waiting() == subs[k..]
        invariant sq.s.pushed == old(sq.s.pushed) && sq.s.taken == old(sq.s.taken) + k
        invariant cq.s.taken == old(cq.s.taken) && cq.s.pushed == old(cq.s.pushed) + AllLeft(subs, outcomes, k)
        invariant Applies(len, cq.c.Cap(), mostEvents + 1, left) == k + Applies(CqLen(), cq.c.Cap(), mostEvents + 1, left[k..])
        invariant cq.words.Length >= HEADER_WORDS
        decreases |subs| - k
      {
        LenKnown(cq);
        LenKnown(sq);
        var f := sq.Peek();
        if f.None? {
          break;
        }
        DrainNext(subs, outcomes, k, CqLen(), cq.c.Cap(), mostEvents + 1);
        assert Events(outcomes[k].events);
        Apply(f.value, outcomes[k]);
        Tails(subs, k);
        k := k + 1;
        LenKnown(cq);
      }
      LenKnown(cq);
      DrainEnd(left, k, CqLen(), cq.c.Cap(), mostEvents + 1);
      IsDrained(subs, outcomes, len, old(sq.s), old(cq.s), k);
    }

    lemma BoundedAt(outcomes: seq<Outcome>)
      requires Valid() && Bounded(outcomes)
      ensures |Waiting()| <= |outcomes|
      ensures forall k :: 0 <= k < |outcomes| ==> |outcomes[k].events| <= mostEvents && Events(outcomes[k].events)
    {
    }

    lemma IsDrained(subs: seq<Msg>, outcomes: seq<Outcome>, len: nat, sq0: State, cq0: State, n: nat)
      requires |subs| <= |outcomes| && n == Applies(len, cq.c.Cap(), mostEvents + 1, Counts(subs, outcomes))
      requires sq.s.pushed == sq0.pushed && sq.s.taken == sq0.taken + n
      requires cq.s.taken == cq0.taken && cq.s.pushed == cq0.pushed + AllLeft(subs, outcomes, n)
      ensures Drained(subs, outcomes, len, sq0, cq0)
    {
    }

    /** Of the submissions `subs` that waited, those there was room for are applied, in order, and what each leaves is
        in the completion ring. */
    ghost predicate Drained(subs: seq<Msg>, outcomes: seq<Outcome>, len: nat, sq0: State, cq0: State)
      requires |subs| <= |outcomes|
      reads sq, cq
    {
      var n := Applies(len, cq.c.Cap(), mostEvents + 1, Counts(subs, outcomes));
      && sq.s.pushed == sq0.pushed && sq.s.taken == sq0.taken + n
      && cq.s.taken == cq0.taken && cq.s.pushed == cq0.pushed + AllLeft(subs, outcomes, n)
    }

    /** A turn: its drain, then the events it raises itself. The completion ring, which the host left empty, has room
        for all of it; and of what waits one submission at least is applied. */
    method Turn(outcomes: seq<Outcome>, after: seq<Msg>, ghost r: nat) returns (ghost at: seq<nat>)
      requires Valid() && Bounded(outcomes) && CqLen() == 0 && mostEvents < cq.c.Cap()
      requires r + |after| <= mostEvents && Events(after) && forall k :: 0 <= k < |outcomes| ==> |outcomes[k].events| <= r
      modifies this, sq`s, sq.words, cq, cq.words, cq.slots
      ensures Valid() && sq.s.pushed == old(sq.s.pushed) && cq.s.taken == old(cq.s.taken)
      ensures var n := Applies(0, cq.c.Cap(), mostEvents + 1, Counts(old(Waiting()), outcomes));
              && sq.s.taken == old(sq.s.taken) + n && (old(Waiting()) != [] ==> n > 0)
              && cq.s.pushed == old(cq.s.pushed) + AllLeft(old(Waiting()), outcomes, n) + after
      ensures |old(cq.s.pushed)| + |after| <= |cq.s.pushed| && |at| == sq.s.taken - old(sq.s.taken) + 1
      ensures Answered(old(Waiting()), outcomes, at, cq.s.pushed[|old(cq.s.pushed)|..|cq.s.pushed| - |after|], mostEvents, cq.c.Cap())
    {
      hide Inv, AllLeft, Counts, Applies, EndsAt;
      ghost var subs := Waiting();
      ghost var left := Counts(subs, outcomes);
      LenKnown(cq);
      TurnRoom(subs, outcomes, cq.c.Cap(), mostEvents, r);
      var made := Drain(outcomes);
      LenKnown(cq);
      RaiseAll(after);
      at := TurnAnswers(subs, outcomes, cq.c.Cap(), mostEvents);
      ghost var n := Applies(0, cq.c.Cap(), mostEvents + 1, left);
      assert cq.s.pushed[|old(cq.s.pushed)|..|cq.s.pushed| - |after|] == AllLeft(subs, outcomes, n);
    }

    /** The host's reading of the completion ring, dry before the next turn. */
    method ReadDry()
      requires Valid()
      modifies cq`s, cq.words
      ensures Valid() && CqLen() == 0 && cq.s.pushed == old(cq.s.pushed) && sq.s == old(sq.s)
    {
      hide Inv;
      LenKnown(cq);
      while cq.Len() != 0
        invariant Valid() && cq.words.Length >= HEADER_WORDS && cq.s.pushed == old(cq.s.pushed) && sq.s == old(sq.s)
        decreases |cq.s.pushed| - cq.s.taken
      {
        LenKnown(cq);
        cq.Advance();
        LenKnown(cq);
      }
      LenKnown(cq);
    }
  }

  lemma TurnAnswers(subs: seq<Msg>, outcomes: seq<Outcome>, cap: nat, most: nat) returns (at: seq<nat>)
    requires |subs| <= |outcomes|
    ensures var n := Applies(0, cap, most + 1, Counts(subs, outcomes));
            |at| == n + 1 && Answered(subs, outcomes, at, AllLeft(subs, outcomes, n), most, cap)
  {
    hide AnsweredAt, AllLeft, Applies, Counts, Sum;
    var n := Applies(0, cap, most + 1, Counts(subs, outcomes));
    at := AllAnswered(subs, outcomes, n, most, cap);
    AppliesRoom(0, cap, most + 1, Counts(subs, outcomes));
  }

  lemma TurnRoom(subs: seq<Msg>, outcomes: seq<Outcome>, cap: nat, most: nat, r: nat)
    requires |subs| <= |outcomes| && r <= most < cap && forall k :: 0 <= k < |outcomes| ==> |outcomes[k].events| <= r
    ensures var left := Counts(subs, outcomes);
            var n := Applies(0, cap, most + 1, left);
            && |AllLeft(subs, outcomes, n)| <= cap - most + r && (subs != [] ==> n > 0)
  {
    var left := Counts(subs, outcomes);
    var n := Applies(0, cap, most + 1, left);
    EndBound(0, cap, most, r, left);
    LeftSum(subs, outcomes, n);
    if subs != [] {
      OneAtLeast(cap, most, left);
    }
  }

  lemma {:induction false} LeftSum(subs: seq<Msg>, outcomes: seq<Outcome>, n: nat)
    requires n <= |subs| <= |outcomes|
    ensures |AllLeft(subs, outcomes, n)| == Sum(Counts(subs, outcomes)[..n])
  {
    if n > 0 {
      LeftSum(subs, outcomes, n - 1);
      var left := Counts(subs, outcomes);
      SumLast(left[..n]);
      assert left[..n][..n - 1] == left[..n - 1];
    }
  }

  lemma {:induction false} SumLast(left: seq<nat>)
    requires left != []
    ensures Sum(left) == Sum(left[..|left| - 1]) + left[|left| - 1]
  {
    var n := |left| - 1;
    if n > 0 {
      SumLast(left[1..]);
      assert left[1..][..n - 1] == left[..n][1..];
    } else {
      assert left[1..] == [];
    }
  }

  lemma Words(r: Ring)
    requires r.Valid()
    ensures r.words.Length >= HEADER_WORDS && r.words[TAIL] == |r.s.pushed| % U32
  {
  }

  lemma Tails(subs: seq<Msg>, k: nat)
    requires k < |subs|
    ensures subs[k..][1..] == subs[k + 1..] && subs[k..][0] == subs[k]
  {
  }

  lemma TailsApart(a: nat, b: nat)
    ensures (b % U32 - a % U32) % U32 == (b - a) % U32
  {
  }

  lemma DrainStart(subs: seq<Msg>, outcomes: seq<Outcome>, pushed: seq<Msg>)
    requires |subs| <= |outcomes|
    ensures subs[0..] == subs && pushed + AllLeft(subs, outcomes, 0) == pushed
  {
  }

  lemma DrainNext(subs: seq<Msg>, outcomes: seq<Outcome>, k: nat, len: nat, cap: nat, reserve: nat)
    requires k < |subs| <= |outcomes| && len + reserve <= cap
    ensures var left := Counts(subs, outcomes);
            && Applies(len, cap, reserve, left[k..]) == 1 + Applies(len + |Leaves(subs[k], outcomes[k])|, cap, reserve, left[k + 1..])
    ensures AllLeft(subs, outcomes, k + 1) == AllLeft(subs, outcomes, k) + Leaves(subs[k], outcomes[k])
  {
    var left := Counts(subs, outcomes);
    assert left[k..][1..] == left[k + 1..];
  }

  lemma DrainEnd(left: seq<nat>, k: nat, len: nat, cap: nat, reserve: nat)
    requires k <= |left| && (k == |left| || len + reserve > cap)
    ensures Applies(len, cap, reserve, left[k..]) == 0
  {
  }

  /** A ring's words tell how many of its frames wait. */
  lemma LenKnown(r: Ring)
    requires r.Valid()
    ensures r.words.Length >= HEADER_WORDS && r.Len() == |r.s.pushed| - r.s.taken <= r.c.Cap()
    ensures r.s.taken <= |r.s.pushed|
  {
    LenTrue(r.c, r.s);
  }
}
