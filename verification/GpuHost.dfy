/** The host's side of a turn: the records run in order over its table of objects, each at its handle's slot. */
module GpuHost {
  import opened Streams
  import opened Handles
  import opened Prelude

  const DESTROY: nat := 12
  const ENCODER: nat := 18
  const RENDER_PASS: nat := 25
  const COMPUTE_PASS: nat := 26
  const END: nat := 41
  const SUBMIT: nat := 42
  const CURRENT: nat := 47

  /** The ops below `DESTROY` make what lasts until it is destroyed; a few past it make what a turn lets go. */
  predicate Makes(op: nat) {
    1 <= op < DESTROY || op == ENCODER || op == RENDER_PASS || op == COMPUTE_PASS || op == CURRENT
  }

  predicate Frees(op: nat) {
    op == DESTROY || op == END || op == SUBMIT
  }

  /** What a table keeps of an object: the op that made it where it lasts, else 0. */
  function Kept(op: nat): nat {
    if op < DESTROY then op else 0
  }

  /** The ops by number: 1 to 11 make what lasts; an encoder is 18, the passes 25 and 26 and a surface's view 47; 12 and
      41 let go of the handle that is their first word, 42 of as many as its first says. */
  lemma Ops(op: nat, words: seq<nat>)
    ensures Makes(op) <==> 1 <= op <= 11 || op == 18 || op == 25 || op == 26 || op == 47
    ensures Makes(op) ==> Kept(op) == if op <= 11 then op else 0
    ensures (op == 12 || op == 41) && |words| >= 1 ==> Freeing(Record(op, words)) == [words[0]]
    ensures op == 42 && |words| >= 1 && |words| >= 1 + words[0] ==> Freeing(Record(op, words)) == words[1..1 + words[0]]
    ensures op != 12 && op != 41 && op != 42 ==> !Frees(op) && (Shaped(Record(op, words)) ==> Freeing(Record(op, words)) == [])
  {
  }

  /** A record with the words the host reads of it for its slots. */
  predicate Shaped(r: Record) {
    && (Makes(r.op) || r.op == DESTROY || r.op == END ==> |r.words| >= 1)
    && (r.op == SUBMIT ==> |r.words| >= 1 && |r.words| >= 1 + r.words[0])
  }

  /** The handles a record lets go. */
  function Freeing(r: Record): seq<nat>
    requires Shaped(r)
  {
    if r.op == DESTROY || r.op == END then [r.words[0]]
    else if r.op == SUBMIT then r.words[1..1 + r.words[0]]
    else []
  }

  function SlotsNamed(hs: seq<nat>): set<nat> {
    set h | h in hs :: SlotOf(h)
  }

  /** The slots a record leaves occupied, and by what. */
  function Ran(slots: map<nat, nat>, r: Record): map<nat, nat>
    requires Shaped(r)
  {
    if Makes(r.op) then slots[SlotOf(r.words[0]) := Kept(r.op)] else slots - SlotsNamed(Freeing(r))
  }

  ghost predicate AllShaped(recs: seq<Record>) {
    forall k :: 0 <= k < |recs| ==> Shaped(recs[k])
  }

  ghost function RanAll(slots: map<nat, nat>, recs: seq<Record>): map<nat, nat>
    requires AllShaped(recs)
  {
    if recs == [] then slots else Ran(RanAll(slots, recs[..|recs| - 1]), recs[|recs| - 1])
  }

  lemma RanNext(slots: map<nat, nat>, recs: seq<Record>, r: Record)
    requires AllShaped(recs) && Shaped(r)
    ensures AllShaped(recs + [r]) && RanAll(slots, recs + [r]) == Ran(RanAll(slots, recs), r)
  {
    assert (recs + [r])[..|recs|] == recs;
  }

  class Host {
    var objects: seq<Option<nat>>

    constructor ()
      ensures Slots() == map[]
    {
      objects := [];
    }

    ghost function Slots(): map<nat, nat>
      reads this
    {
      map s: nat | s < |objects| && objects[s].Some? :: objects[s].value
    }

    method Put(id: nat, made: nat)
      modifies this
      ensures Slots() == old(Slots())[SlotOf(id) := made]
    {
      var slot := SlotOf(id);
      if |objects| <= slot {
        objects := objects + seq(slot + 1 - |objects|, _ => None);
      }
      objects := objects[slot := Some(made)];
    }

    method Take(id: nat) returns (r: Option<nat>)
      modifies this
      ensures Slots() == old(Slots()) - {SlotOf(id)}
      ensures r == if SlotOf(id) in old(Slots()) then Some(old(Slots())[SlotOf(id)]) else None
    {
      var slot := SlotOf(id);
      if slot < |objects| {
        r := objects[slot];
        objects := objects[slot := None];
      } else {
        r := None;
      }
    }

    /** One record, of which this keeps what it does to the slots. */
    method RunRecord(op: nat, words: seq<nat>)
      requires Shaped(Record(op, words))
      modifies this
      ensures Slots() == Ran(old(Slots()), Record(op, words))
    {
      hide SlotOf, Kept;
      if Makes(op) {
        Put(words[0], Kept(op));
      } else if op == DESTROY || op == END {
        var gone := Take(words[0]);
        assert SlotsNamed([words[0]]) == {SlotOf(words[0])};
      } else if op == SUBMIT {
        var list := words[1..1 + words[0]];
        var i := 0;
        assert SlotsNamed(list[..0]) == {};
        while i < |list|
          invariant i <= |list| && Slots() == old(Slots()) - SlotsNamed(list[..i])
        {
          var gone := Take(list[i]);
          assert list[..i + 1] == list[..i] + [list[i]];
          assert SlotsNamed(list[..i + 1]) == SlotsNamed(list[..i]) + {SlotOf(list[i])};
          i := i + 1;
        }
        assert list[..i] == list;
      } else {
        assert SlotsNamed([]) == {};
      }
    }

    /** The records a turn left for the host, run in order: those, and no others. */
    method Run(mem: array<nat>, at: nat, head: nat, ghost recs: seq<Record>)
      requires Published(mem[..], at, head, recs) && AllShaped(recs)
      modifies this
      ensures Slots() == RanAll(old(Slots()), recs)
    {
      hide Ran, Shaped, Freeing;
      var end := mem[at];
      var first := at + head;
      var k := 0;
      ghost var i := 0;
      assert recs[..0] == [];
      while k + 2 <= end
        invariant i <= |recs| && k == |Encoded(recs[..i])| && Slots() == RanAll(old(Slots()), recs[..i])
        decreases end - k
      {
        RecordAt(mem[..], first, recs, i);
        var code := mem[first + k];
        var n := mem[first + k + 1];
        RunRecord(code, mem[first + k + 2..first + k + 2 + n]);
        RanNext(old(Slots()), recs[..i], recs[i]);
        assert recs[..i + 1] == recs[..i] + [recs[i]];
        k := k + 2 + n;
        i := i + 1;
      }
      AllRun(recs, i);
    }
  }

  /** The record at the place the ones before it end. */
  lemma RecordAt(m: seq<nat>, first: nat, recs: seq<Record>, i: nat)
    requires i <= |recs| && first + |Encoded(recs)| <= |m| && m[first..first + |Encoded(recs)|] == Encoded(recs)
    requires |Encoded(recs[..i])| + 2 <= |Encoded(recs)|
    ensures i < |recs|
    ensures var k := |Encoded(recs[..i])|;
            && k + 2 + |recs[i].words| == |Encoded(recs[..i + 1])| <= |Encoded(recs)|
            && m[first + k] == recs[i].op && m[first + k + 1] == |recs[i].words|
            && m[first + k + 2..first + k + 2 + |recs[i].words|] == recs[i].words
  {
    assert recs[..|recs|] == recs;
    var r := recs[i];
    assert recs[..i + 1] == recs[..i] + [r];
    EncodedMore(recs[..i], r);
    EncodedPrefix(recs[..i + 1], recs);
    var k, all := |Encoded(recs[..i])|, Encoded(recs);
    var some := all[..k + 2 + |r.words|];
    assert some == Encoded(recs[..i]) + [r.op, |r.words|] + r.words;
    assert m[first + k] == all[k] == some[k] && m[first + k + 1] == all[k + 1] == some[k + 1];
    forall j | 0 <= j < |r.words|
      ensures m[first + k + 2 + j] == r.words[j]
    {
      assert m[first..first + |all|][k + 2 + j] == all[k + 2 + j] == some[k + 2 + j];
    }
  }

  lemma AllRun(recs: seq<Record>, i: nat)
    requires i <= |recs| && |Encoded(recs[..i])| + 2 > |Encoded(recs)|
    ensures recs[..i] == recs
  {
    if i < |recs| {
      assert recs[..i + 1] == recs[..i] + [recs[i]];
      EncodedMore(recs[..i], recs[i]);
      EncodedPrefix(recs[..i + 1], recs);
    }
  }
}
