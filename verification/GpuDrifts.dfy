/** How far the host's slots have come from the guest's live handles: what each record does to that, and where the
    two sides agree. */
module GpuDrifts {
  import opened Streams
  import opened GpuHost
  import opened Prelude
  import H = Handles

  /** The host's slots hold exactly the live handles' objects. */
  ghost predicate Match(slots: map<nat, nat>, live: map<nat, nat>) {
    && (forall h :: h in live ==> H.SlotOf(h) in slots && slots[H.SlotOf(h)] == live[h])
    && (forall s :: s in slots ==> exists h :: h in live && H.SlotOf(h) == s)
  }

  /** No two live handles share a slot. */
  ghost predicate Apart(live: map<nat, nat>) {
    forall h, g :: h in live && g in live && H.SlotOf(h) == H.SlotOf(g) ==> h == g
  }

  /** An object at a live handle's slot is the one made for it. */
  ghost predicate Own(slots: map<nat, nat>, live: map<nat, nat>) {
    forall h :: h in live && H.SlotOf(h) in slots ==> slots[H.SlotOf(h)] == live[h]
  }

  /** The live handles whose object the host has lost, and the slots it has left occupied that are no live handle's. */
  datatype Drift = Drift(lost: set<nat>, left: set<nat>)

  const NO_DRIFT := Drift({}, {})

  ghost function Between(slots: map<nat, nat>, live: map<nat, nat>): Drift {
    Drift((set h | h in live && H.SlotOf(h) !in slots), slots.Keys - SlotsOf(live))
  }

  function SlotsOf(live: map<nat, nat>): set<nat> {
    set h | h in live :: H.SlotOf(h)
  }

  lemma MatchIff(slots: map<nat, nat>, live: map<nat, nat>)
    ensures Match(slots, live) <==> Own(slots, live) && Between(slots, live) == NO_DRIFT
  {
    hide H.SlotOf;
    var d := Between(slots, live);
    if d == NO_DRIFT {
      forall h | h in live
        ensures H.SlotOf(h) in slots
      {
        assert h !in d.lost;
      }
      forall s | s in slots
        ensures exists h :: h in live && H.SlotOf(h) == s
      {
        assert s !in d.left;
      }
    }
  }

  /** Every live handle whose slot one of `hs` names is itself one of `hs`. */
  ghost predicate Harmless(live: map<nat, nat>, hs: seq<nat>) {
    forall h :: h in live && H.SlotOf(h) in SlotsNamed(hs) ==> h in hs
  }

  /** The live handles once `hs` are let go. */
  function Without(live: map<nat, nat>, hs: seq<nat>): map<nat, nat> {
    live - Elems(hs)
  }

  /** The live handles whose slots `hs` name. */
  function Robbed(live: map<nat, nat>, hs: seq<nat>): set<nat> {
    set h | h in live && H.SlotOf(h) in SlotsNamed(hs)
  }

  /** After a record that lets `hs` go: the host takes by slot, the guest by handle. */
  function FreedDrift(d: Drift, live: map<nat, nat>, hs: seq<nat>): Drift {
    Drift(d.lost + Robbed(live, hs) - Elems(hs), d.left - SlotsNamed(hs))
  }

  lemma FreedBetween(slots: map<nat, nat>, live: map<nat, nat>, r: Record)
    requires Own(slots, live) && Shaped(r) && !Makes(r.op)
    ensures var hs := Freeing(r);
            && Own(Ran(slots, r), Without(live, hs))
            && Between(Ran(slots, r), Without(live, hs)) == FreedDrift(Between(slots, live), live, hs)
  {
    hide H.SlotOf, Makes, Shaped, Freeing;
    var hs := Freeing(r);
    var slots', live' := slots - SlotsNamed(hs), Without(live, hs);
    var d, d' := Between(slots, live), Between(slots', live');
    assert d'.lost == d.lost + Robbed(live, hs) - Elems(hs);
    forall s | s in slots'
      ensures s in SlotsOf(live') <==> s in SlotsOf(live)
    {
      if s in SlotsOf(live) {
        var h :| h in live && H.SlotOf(h) == s;
        assert h in hs ==> s in SlotsNamed(hs);
        assert h in live';
      }
    }
    assert d'.left == d.left - SlotsNamed(hs);
  }

  /** Letting handles go leaves two sides that agree agreed exactly where no live handle loses its slot to one that is
      stale. */
  lemma FreedMatch(slots: map<nat, nat>, live: map<nat, nat>, r: Record)
    requires Match(slots, live) && Shaped(r) && !Makes(r.op)
    ensures Match(Ran(slots, r), Without(live, Freeing(r))) <==> Harmless(live, Freeing(r))
  {
    hide Ran, H.SlotOf, Match, Own, Between;
    var hs := Freeing(r);
    MatchIff(slots, live);
    FreedBetween(slots, live, r);
    MatchIff(Ran(slots, r), Without(live, hs));
    FreedNone(live, hs);
  }

  /** Where handles are let go with no drift, none comes of it exactly where it is harmless. */
  lemma FreedNone(live: map<nat, nat>, hs: seq<nat>)
    ensures FreedDrift(NO_DRIFT, live, hs) == NO_DRIFT <==> Harmless(live, hs)
  {
    hide H.SlotOf;
    var d := FreedDrift(NO_DRIFT, live, hs);
    if h :| h in live && H.SlotOf(h) in SlotsNamed(hs) && h !in hs {
      assert h in d.lost;
    } else {
      assert d.lost == {} && d.left == {};
    }
  }

  /** An object made at a slot that is no live handle's: one that was left there is replaced. */
  function MadeDrift(d: Drift, id: nat): Drift {
    Drift(d.lost, d.left - {H.SlotOf(id)})
  }

  lemma MadeBetween(slots: map<nat, nat>, live: map<nat, nat>, r: Record, id: nat)
    requires Own(slots, live) && Shaped(r) && Makes(r.op) && r.words[0] == id
    requires forall h :: h in live ==> H.SlotOf(h) != H.SlotOf(id)
    ensures var live' := live[id := Kept(r.op)];
            && Own(Ran(slots, r), live')
            && Between(Ran(slots, r), live') == MadeDrift(Between(slots, live), id)
  {
    hide H.SlotOf, Makes, Shaped, Kept;
    var slots', live' := slots[H.SlotOf(id) := Kept(r.op)], live[id := Kept(r.op)];
    assert SlotsOf(live') == SlotsOf(live) + {H.SlotOf(id)} by {
      assert forall h :: h in live' <==> h in live || h == id;
      assert H.SlotOf(id) in SlotsOf(live');
    }
    assert Between(slots', live').left == Between(slots, live).left - {H.SlotOf(id)};
    assert Between(slots', live').lost == Between(slots, live).lost;
  }

  /** After a transaction dropped whole, which let `gone` go: the host is as it began, the guest without those. */
  function SpilledDrift(d: Drift, began: map<nat, nat>, gone: set<nat>): Drift {
    Drift(d.lost - gone, d.left + (set h | h in gone && h in began && h !in d.lost :: H.SlotOf(h)))
  }

  lemma SpilledBetween(slots: map<nat, nat>, began: map<nat, nat>, gone: set<nat>)
    requires Own(slots, began) && Apart(began)
    ensures Own(slots, began - gone)
    ensures Between(slots, began - gone) == SpilledDrift(Between(slots, began), began, gone)
  {
    hide H.SlotOf;
    var live := began - gone;
    var d := Between(slots, began);
    var more := set h | h in gone && h in began && h !in d.lost :: H.SlotOf(h);
    forall s
      ensures s in slots && s !in SlotsOf(live) <==> s in d.left || s in more
    {
      if s in slots && s in SlotsOf(began) {
        var h :| h in began && H.SlotOf(h) == s;
        assert h !in d.lost;
        assert h !in gone ==> h in live;
      }
    }
    assert Between(slots, live).left == d.left + more;
  }

  /** Such a transaction leaves no drift exactly where what it let go, of what it began with, is what the host had
      lost, and the host had no slot left over. */
  lemma SpilledIff(d: Drift, began: map<nat, nat>, gone: set<nat>)
    requires d.lost <= began.Keys
    ensures SpilledDrift(d, began, gone) == NO_DRIFT <==> d.left == {} && gone * began.Keys == d.lost
  {
    hide H.SlotOf;
    var d' := SpilledDrift(d, began, gone);
    if h :| h in gone && h in began && h !in d.lost {
      assert H.SlotOf(h) in d'.left;
    }
    assert d.lost - gone == {} <==> d.lost <= gone by {
      assert forall h :: h in d.lost && h !in gone ==> h in d.lost - gone;
    }
  }

  /** Where it began with none: where it let none of those go. */
  lemma SpilledNone(began: map<nat, nat>, gone: set<nat>)
    ensures SpilledDrift(NO_DRIFT, began, gone) == NO_DRIFT <==> gone !! began.Keys
  {
    hide SpilledDrift;
    SpilledIff(NO_DRIFT, began, gone);
    if gone !! began.Keys {
      assert gone * began.Keys == {};
    } else {
      var h :| h in gone && h in began.Keys;
      assert h in gone * began.Keys;
    }
  }

  /** A stale pass ended after its slot was taken again: the host lets the new one go. */
  lemma StaleEnd()
    ensures var slots, live, r := map[1 := 0], map[0x2_0001 := 0], Record(END, [0x1_0001]);
            && Match(slots, live) && Shaped(r) && !Match(Ran(slots, r), Without(live, Freeing(r)))
  {
    var slots, live, r := map[1 := 0], map[0x2_0001 := 0], Record(END, [0x1_0001]);
    assert H.SlotOf(0x1_0001) == 1 == H.SlotOf(0x2_0001);
    assert 0x2_0001 in live;
    assert 0x1_0001 in Freeing(r) && 1 in SlotsNamed(Freeing(r));
    FreedMatch(slots, live, r);
  }
}
