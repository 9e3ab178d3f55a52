/** The table of handles: a slot and the generation that tells one taking of it from another. */
module Handles {
  import opened Arith
  import opened Prelude

  const SLOTS: nat := 0x1_0000
  /** A generation is 16 bits and never 0. */
  const GENERATIONS: nat := 65535

  function SlotOf(handle: nat): nat {
    handle % SLOTS
  }

  function HandleOf(slot: nat, generation: nat): nat {
    slot + SLOTS * generation
  }

  lemma HandleParts(slot: nat, generation: nat)
    requires slot < SLOTS
    ensures SlotOf(HandleOf(slot, generation)) == slot && HandleOf(slot, generation) / SLOTS == generation
    ensures HandleOf(slot, generation) >= slot
  {
    DivUnique(HandleOf(slot, generation), generation, slot, SLOTS);
  }

  lemma PartsHandle(handle: nat)
    ensures HandleOf(SlotOf(handle), handle / SLOTS) == handle
  {
  }

  /** The generation a slot's `n`th taking is under. */
  function Generation(n: nat): (g: nat)
    ensures n > 0 ==> 1 <= g <= GENERATIONS
    ensures n == 0 ==> g == 0
  {
    if n == 0 then 0 else (n - 1) % GENERATIONS + 1
  }

  lemma GenerationNext(n: nat)
    ensures var g := (Generation(n) + 1) % SLOTS;
            Generation(n + 1) == if g == 0 then 1 else g
  {
    if n > 0 {
      var q := (n - 1) / GENERATIONS;
      assert n - 1 == q * GENERATIONS + (n - 1) % GENERATIONS;
      if (n - 1) % GENERATIONS + 1 < GENERATIONS {
        DivUnique(n, q, (n - 1) % GENERATIONS + 1, GENERATIONS);
      } else {
        MulAdd(q, 1, GENERATIONS);
        DivUnique(n, q + 1, 0, GENERATIONS);
      }
    }
  }

  /** Two takings of a slot are under one generation exactly where a whole round of generations lies between. */
  lemma GenerationAgain(a: nat, b: nat)
    requires 1 <= a <= b
    ensures Generation(a) == Generation(b) <==> (b - a) % GENERATIONS == 0
  {
    var x, y, m := a - 1, b - 1, GENERATIONS;
    var p, q := x / m, y / m;
    assert x == p * m + x % m && y == q * m + y % m;
    MulAdd(q, -p, m);
    DivGrows(x, y, m);
    if x % m == y % m {
      DivUnique(y - x, q - p, 0, m);
    } else if x % m < y % m {
      DivUnique(y - x, q - p, y % m - x % m, m);
    } else {
      MulAdd(q - p, -1, m);
      DivUnique(y - x, q - p - 1, m + y % m - x % m, m);
    }
  }

  lemma DivGrows(x: nat, y: nat, m: nat)
    requires x <= y && m > 0
    ensures x / m <= y / m
  {
    var p, q := x / m, y / m;
    assert x == p * m + x % m && y == q * m + y % m;
    if q < p {
      MulMonotone(q + 1, p, m);
      MulAdd(q, 1, m);
    }
  }

  /** A slot: its generation, the epoch it was taken in (one past it, 0 while free), the next free slot. */
  datatype Slot<T> = Slot(generation: nat, made: nat, next: nat, val: T)

  /** The table as a value: its slots, the free list from its head, how often each slot has been taken, the live
      handles and what they hold. */
  datatype Tab<!T> = Tab(sl: seq<Slot<T>>, epoch: nat, top: nat, unused: seq<nat>, takes: seq<nat>, live: map<nat, T>) {
    predicate IsLive(handle: nat) {
      var slot := SlotOf(handle);
      slot != 0 && slot < |sl| && sl[slot].made != 0 && sl[slot].generation == handle / SLOTS
    }

    /** The free list links exactly the slots that have been given back, and ends. */
    ghost predicate Listed() {
      && top < |sl| && NoDup(unused)
      && (forall s :: 1 <= s <= top ==> (s in unused <==> sl[s].made == 0))
      && (forall k :: 0 <= k < |unused| ==> 1 <= unused[k] <= top && sl[unused[k]].next == Head(unused[k + 1..]))
    }

    ghost predicate SlotOk(s: nat)
      requires s < |sl| == |takes|
    {
      && sl[s].generation == Generation(takes[s]) && sl[s].made <= epoch + 1
      && (sl[s].made != 0 ==> takes[s] > 0)
      && (s == 0 || s > top ==> sl[s].made == 0 && takes[s] == 0)
    }

    ghost predicate SlotsOk() {
      |takes| == |sl| && forall s :: 0 <= s < |sl| ==> SlotOk(s)
    }

    ghost predicate LiveOk() {
      && (forall h: nat :: h in live <==> IsLive(h))
      && (forall h :: h in live ==> sl[SlotOf(h)].val == live[h])
    }

    ghost predicate Ok() {
      && 2 <= |sl| <= SLOTS
      && Listed() && SlotsOk() && LiveOk()
      && |live| + |unused| == top
    }

    /** The live handles taken since `Begin`. */
    ghost function Since(): set<nat>
      requires Ok()
    {
      set h | h in live && sl[SlotOf(h)].made == epoch + 1
    }
  }

  function Head(q: seq<nat>): nat {
    if q == [] then 0 else q[0]
  }

  /** Slot `s` taken, off the free list or past every slot yet taken. */
  function Taken<T>(t: Tab<T>, s: nat, g: nat, val: T): (t': Tab<T>)
    requires 1 <= s < |t.sl| == |t.takes|
    ensures |t'.sl| == |t.sl|
  {
    Tab(t.sl[s := Slot(g, t.epoch + 1, t.sl[s].next, val)], t.epoch, if t.unused == [] then t.top + 1 else t.top,
        if t.unused == [] then [] else t.unused[1..],
        t.takes[s := t.takes[s] + 1], t.live[HandleOf(s, g) := val])
  }

  /** The slot the next taking takes. */
  predicate Next<T>(t: Tab<T>, s: nat) {
    s < |t.sl| && s == if t.unused != [] then t.unused[0] else t.top + 1
  }

  lemma TakenOk<T>(t: Tab<T>, s: nat, g: nat, val: T)
    requires t.Ok() && Next(t, s) && g == Generation(t.takes[s] + 1)
    ensures var t', h := Taken(t, s, g, val), HandleOf(s, g);
            && 1 <= s && t'.Ok() && h !in t.live && SlotOf(h) == s && h != 0
            && forall k :: k in t.live ==> SlotOf(k) != s
  {
    hide *;
    NextFree(t, s);
    TakenList(t, s, g, val);
    TakenSlots(t, s, g, val);
    TakenLive(t, s, g, val);
    TakenCount(t, s, g, val);
    OkFrom(Taken(t, s, g, val));
  }

  lemma OkFrom<T>(t: Tab<T>)
    requires 2 <= |t.sl| <= SLOTS && t.Listed() && t.SlotsOk() && t.LiveOk() && |t.live| + |t.unused| == t.top
    ensures t.Ok()
  {
  }

  lemma NextFree<T>(t: Tab<T>, s: nat)
    requires t.Ok() && Next(t, s)
    ensures 1 <= s < |t.sl| == |t.takes| <= SLOTS && t.sl[s].made == 0
    ensures t.LiveOk() && t.SlotsOk() && t.Listed() && 2 <= |t.sl| && |t.live| + |t.unused| == t.top
  {
    hide Generation;
    assert t.SlotOk(s);
    assert t.unused != [] ==> t.unused[0] in t.unused;
  }

  lemma TakenList<T>(t: Tab<T>, s: nat, g: nat, val: T)
    requires t.Listed() && Next(t, s) && 1 <= s < |t.sl| == |t.takes|
    ensures Taken(t, s, g, val).Listed()
  {
    if t.unused != [] {
      TakenHead(t, s, g, val);
    }
  }

  lemma TakenHead<T>(t: Tab<T>, s: nat, g: nat, val: T)
    requires t.Listed() && t.unused != [] && s == t.unused[0] < |t.sl| == |t.takes| && 1 <= s
    ensures Taken(t, s, g, val).Listed()
  {
    hide Generation, HandleOf;
    var t', q := Taken(t, s, g, val), t.unused[1..];
    FirstGone(t.unused);
    forall k | 0 <= k < |q|
      ensures 1 <= q[k] <= t'.top && q[k] != s && t'.sl[q[k]].next == Head(q[k + 1..])
    {
      assert q[k] == t.unused[k + 1] && q[k + 1..] == t.unused[k + 1 + 1..];
    }
  }

  lemma TakenSlots<T>(t: Tab<T>, s: nat, g: nat, val: T)
    requires t.SlotsOk() && t.Listed() && Next(t, s) && 1 <= s < |t.sl| && g == Generation(t.takes[s] + 1)
    ensures Taken(t, s, g, val).SlotsOk()
  {
    hide Generation;
    var t' := Taken(t, s, g, val);
    forall x | 0 <= x < |t'.sl|
      ensures t'.SlotOk(x)
    {
      assert t.SlotOk(x);
    }
  }

  lemma TakenLive<T>(t: Tab<T>, s: nat, g: nat, val: T)
    requires t.LiveOk() && 1 <= s < |t.sl| == |t.takes| <= SLOTS && t.sl[s].made == 0
    ensures var t', h := Taken(t, s, g, val), HandleOf(s, g);
            && t'.LiveOk() && h !in t.live && SlotOf(h) == s && h != 0
            && forall k :: k in t.live ==> SlotOf(k) != s
  {
    hide HandleOf, SlotOf;
    var t', h := Taken(t, s, g, val), HandleOf(s, g);
    HandleParts(s, g);
    forall k: nat
      ensures k in t'.live <==> t'.IsLive(k)
    {
      PartsHandle(k);
      assert k in t.live <==> t.IsLive(k);
    }
  }

  lemma TakenCount<T>(t: Tab<T>, s: nat, g: nat, val: T)
    requires |t.live| + |t.unused| == t.top && Next(t, s) && 1 <= s < |t.sl| == |t.takes| && HandleOf(s, g) !in t.live
    requires t.Listed()
    ensures var t' := Taken(t, s, g, val); |t'.live| + |t'.unused| == t'.top
  {
  }

  /** A live handle's slot put at the head of the free list. */
  function Freed<T>(t: Tab<T>, h: nat, zero: T): (t': Tab<T>)
    requires SlotOf(h) < |t.sl|
    ensures |t'.sl| == |t.sl|
  {
    var s := SlotOf(h);
    Tab(t.sl[s := Slot(t.sl[s].generation, 0, Head(t.unused), zero)], t.epoch, t.top, [s] + t.unused, t.takes, t.live - {h})
  }

  lemma FreedOk<T>(t: Tab<T>, h: nat, zero: T)
    requires t.Ok() && h in t.live
    ensures SlotOf(h) < |t.sl| && Freed(t, h, zero).Ok()
  {
    hide *;
    LiveSlot(t, h);
    FreedList(t, h, zero);
    FreedSlots(t, h, zero);
    FreedLive(t, h, zero);
    FreedCount(t, h, zero);
    OkFrom(Freed(t, h, zero));
  }

  lemma LiveSlot<T>(t: Tab<T>, h: nat)
    requires t.Ok() && h in t.live
    ensures 1 <= SlotOf(h) <= t.top < |t.sl| && t.sl[SlotOf(h)].made != 0
    ensures t.LiveOk() && t.SlotsOk() && t.Listed() && 2 <= |t.sl| <= SLOTS && |t.live| + |t.unused| == t.top
  {
    assert t.IsLive(h) && t.SlotOk(SlotOf(h));
  }

  lemma FreedSlots<T>(t: Tab<T>, h: nat, zero: T)
    requires t.SlotsOk() && 1 <= SlotOf(h) <= t.top < |t.sl|
    ensures Freed(t, h, zero).SlotsOk()
  {
    hide Generation, SlotOf;
    var t' := Freed(t, h, zero);
    forall x | 0 <= x < |t'.sl|
      ensures t'.SlotOk(x)
    {
      assert t.SlotOk(x);
    }
  }

  lemma FreedLive<T>(t: Tab<T>, h: nat, zero: T)
    requires t.LiveOk() && h in t.live && 1 <= SlotOf(h) < |t.sl|
    ensures Freed(t, h, zero).LiveOk()
  {
    hide HandleOf, SlotOf;
    var t' := Freed(t, h, zero);
    PartsHandle(h);
    assert t.IsLive(h);
    forall k: nat
      ensures k in t'.live <==> t'.IsLive(k)
    {
      PartsHandle(k);
      assert k in t.live <==> t.IsLive(k);
    }
  }

  lemma FreedCount<T>(t: Tab<T>, h: nat, zero: T)
    requires |t.live| + |t.unused| == t.top && h in t.live && SlotOf(h) < |t.sl|
    ensures var t' := Freed(t, h, zero); |t'.live| + |t'.unused| == t'.top && |t'.live| == |t.live| - 1
  {
    assert (t.live - {h}).Keys == t.live.Keys - {h};
  }

  lemma FreedList<T>(t: Tab<T>, h: nat, zero: T)
    requires t.Listed() && 1 <= SlotOf(h) <= t.top && t.sl[SlotOf(h)].made != 0
    ensures Freed(t, h, zero).Listed()
  {
    hide SlotOf;
    var s, t' := SlotOf(h), Freed(t, h, zero);
    assert s !in t.unused;
    forall k | 0 <= k < |t'.unused|
      ensures 1 <= t'.unused[k] <= t'.top && t'.sl[t'.unused[k]].next == Head(t'.unused[k + 1..])
    {
      if k == 0 {
        assert t'.unused[1..] == t.unused;
      } else {
        assert t'.unused[k] == t.unused[k - 1] && t'.unused[k + 1..] == t.unused[k..];
        assert t.unused[k - 1] in t.unused;
      }
    }
    assert forall i, j :: 0 <= i < j < |t'.unused| ==> t'.unused[i] != t'.unused[j];
  }

  class Table<!T> {
    const slots: array<Slot<T>>
    const zero: T
    var epoch: nat
    var free: nat
    var top: nat
    var cnt: nat
    ghost var tab: Tab<T>

    ghost predicate Valid()
      reads this, slots
    {
      && tab.Ok() && tab.sl == slots[..] && tab.epoch == epoch && tab.top == top
      && free == Head(tab.unused) && cnt == |tab.live|
    }

    constructor (n: nat, zero: T)
      requires 2 <= n <= SLOTS
      ensures Valid() && fresh(slots) && slots.Length == n && tab.live == map[] && tab.takes == seq(n, _ => 0) && this.zero == zero
    {
      this.zero := zero;
      slots := new Slot<T>[n](_ => Slot(0, 0, 0, zero));
      epoch, free, top, cnt := 0, 0, 0, 0;
      tab := Tab(seq(n, _ => Slot(0, 0, 0, zero)), 0, 0, [], seq(n, _ => 0), map[]);
      new;
      assert tab.sl == slots[..];
    }

    predicate Live(handle: nat)
      reads this, slots
    {
      var slot := SlotOf(handle);
      slot != 0 && slot < slots.Length && slots[slot].made != 0 && slots[slot].generation == handle / SLOTS
    }

    /** The slot given back last, or the one past every slot yet taken; 0 where there is neither. */
    method Pick() returns (slot: nat)
      requires Valid()
      modifies this`free, this`top
      ensures slot == 0 <==> tab.unused == [] && tab.top + 1 == slots.Length
      ensures slot == 0 ==> free == old(free) && top == old(top)
      ensures slot != 0 ==> && Next(tab, slot) && free == (if tab.unused == [] then 0 else Head(tab.unused[1..]))
                            && top == if tab.unused == [] then old(top) + 1 else old(top)
    {
      FreeCount(tab);
      if free != 0 {
        slot := free;
        free := slots[slot].next;
      } else if top + 1 < slots.Length {
        top := top + 1;
        slot := top;
      } else {
        return 0;
      }
    }

    /** A handle for `val`: none exactly when every slot past 0 is live. The slot given back last, or one never taken. */
    method Insert(val: T) returns (r: Option<nat>)
      requires Valid()
      modifies this, slots
      ensures Valid() && old(tab.Ok())
      ensures r.None? <==> old(cnt) == slots.Length - 1
      ensures r.None? ==> tab == old(tab)
      ensures r.Some? ==> TakenAs(old(tab), tab, r.value, val)
      ensures r.Some? ==> if old(tab).unused != [] then SlotOf(r.value) == old(tab).unused[0] && tab.unused == old(tab).unused[1..]
                          else SlotOf(r.value) == old(tab).top + 1 && tab.unused == []
    {
      hide Generation, HandleOf, SlotOf, Taken, TakenAs, Next, Tab.Listed, Tab.LiveOk, Tab.SlotsOk;
      FreeCount(tab);
      var slot := Pick();
      if slot == 0 {
        return None;
      }
      NextGeneration(tab, slot);
      var generation := (slots[slot].generation + 1) % SLOTS;
      generation := if generation == 0 then 1 else generation;
      TakenOk(tab, slot, generation, val);
      TakenParts(tab, slot, generation, val);
      slots[slot] := Slot(generation, epoch + 1, slots[slot].next, val);
      cnt := cnt + 1;
      tab := Taken(tab, slot, generation, val);
      return Some(HandleOf(slot, generation));
    }

    /** What a live handle holds, its slot given back; none, and nothing changed, where it is not live. */
    method Remove(handle: nat) returns (r: Option<T>)
      requires Valid()
      modifies this`free, this`cnt, this`tab, slots
      ensures Valid() && old(tab.Ok())
      ensures r.Some? <==> handle in old(tab.live)
      ensures r.None? ==> tab == old(tab)
      ensures r.Some? ==> && r.value == old(tab.live)[handle] && FreedAs(old(tab), tab, handle)
                          && tab.unused == [SlotOf(handle)] + old(tab).unused
    {
      hide Generation, HandleOf, SlotOf, Freed, FreedAs;
      LiveHere(tab, handle);
      if !Live(handle) {
        return None;
      }
      FreedOk(tab, handle, zero);
      FreedParts(tab, handle, zero);
      var slot := SlotOf(handle);
      var val := slots[slot].val;
      slots[slot] := Slot(slots[slot].generation, 0, free, zero);
      free := slot;
      cnt := cnt - 1;
      tab := Freed(tab, handle, zero);
      return Some(val);
    }

    /** From here, what is taken is what `Rollback` gives back. */
    method Begin()
      requires Valid()
      modifies this`epoch, this`tab
      ensures Valid() && tab == old(tab).(epoch := old(tab).epoch + 1) && tab.Since() == {}
    {
      BegunOk(tab);
      epoch := epoch + 1;
      tab := tab.(epoch := epoch);
    }

    /** Every handle taken since `Begin` and not yet removed, removed; what they held. */
    method Rollback() returns (gone: seq<(nat, T)>)
      requires Valid()
      modifies this`free, this`cnt, this`tab, slots
      ensures Valid() && old(tab.Ok()) && tab.epoch == old(tab).epoch
      ensures tab.live == old(tab).live - old(tab.Since())
      ensures Gone(gone, old(tab), tab)
    {
      hide Generation, HandleOf, SlotOf, Gone, Rolled, FreedAs, Head, Tab.Listed, Tab.LiveOk, Tab.SlotsOk;
      gone := [];
      var slot := 1;
      ghost var t0 := tab;
      RolledStart(t0);
      while slot <= top
        invariant Valid() && 1 <= slot && tab.top == t0.top
        invariant Gone(gone, t0, tab) && Rolled(t0, tab, slot)
        decreases top + 1 - slot
      {
        ghost var t1 := tab;
        SlotHandle(t1, slot);
        var handle := HandleOf(slot, slots[slot].generation);
        if slots[slot].made == epoch + 1 {
          var val := Remove(handle);
          GoneMore(gone, t0, t1, tab, handle, slot);
          RolledOne(t0, t1, tab, slot, handle);
          gone := gone + [(handle, val.value)];
        } else {
          RolledPast(t0, t1, slot);
        }
        slot := slot + 1;
      }
      RolledEnd(t0, tab, slot);
    }
  }

  /** Of the handles of `t0` taken since its epoch began, `t` has let those go whose slots are before `slot`. */
  ghost predicate Rolled<T>(t0: Tab<T>, t: Tab<T>, slot: nat) {
    && t0.Ok() && t.Ok() && t.epoch == t0.epoch && t.top == t0.top
    && (forall h :: h in t.live <==> h in t0.live && !(h in t0.Since() && SlotOf(h) < slot))
    && (forall h :: h in t.live ==> t.live[h] == t0.live[h])
    && (forall h :: h in t.Since() <==> h in t0.Since() && slot <= SlotOf(h))
  }

  lemma RolledStart<T>(t: Tab<T>)
    requires t.Ok()
    ensures Rolled(t, t, 1) && Gone([], t, t)
  {
    hide HandleOf, SlotOf, Generation;
    forall h | h in t.live
      ensures 1 <= SlotOf(h)
    {
      LiveSlot(t, h);
    }
  }

  /** The handle a slot is live under, if it is. */
  lemma SlotHandle<T>(t: Tab<T>, slot: nat)
    requires t.Ok() && 1 <= slot <= t.top
    ensures slot < |t.sl|
    ensures var h := HandleOf(slot, t.sl[slot].generation);
            && SlotOf(h) == slot && (h in t.Since() <==> t.sl[slot].made == t.epoch + 1)
            && (h in t.Since() ==> h in t.live)
            && (forall k :: k in t.live && SlotOf(k) == slot ==> k == h)
  {
    var h := HandleOf(slot, t.sl[slot].generation);
    HandleParts(slot, t.sl[slot].generation);
    forall k | k in t.live && SlotOf(k) == slot
      ensures k == h
    {
      PartsHandle(k);
    }
  }

  lemma RolledOne<T>(t0: Tab<T>, t: Tab<T>, t': Tab<T>, slot: nat, h: nat)
    requires Rolled(t0, t, slot) && FreedAs(t, t', h) && h in t.Since() && SlotOf(h) == slot
    requires forall k :: k in t.live && SlotOf(k) == slot ==> k == h
    ensures Rolled(t0, t', slot + 1) && t'.top == t0.top
  {
    hide HandleOf, SlotOf, Generation;
    forall k | k in t0.Since() && SlotOf(k) == slot
      ensures k == h
    {
      assert k in t.Since();
    }
  }

  lemma RolledPast<T>(t0: Tab<T>, t: Tab<T>, slot: nat)
    requires Rolled(t0, t, slot) && 1 <= slot <= t.top && t.sl[slot].made != t.epoch + 1
    ensures Rolled(t0, t, slot + 1)
  {
    hide HandleOf, SlotOf, Generation;
    NoneSince(t, slot);
  }

  lemma NoneSince<T>(t: Tab<T>, slot: nat)
    requires t.Ok() && 1 <= slot <= t.top && t.sl[slot].made != t.epoch + 1
    ensures forall k :: k in t.Since() ==> SlotOf(k) != slot
  {
  }

  lemma RolledEnd<T>(t0: Tab<T>, t: Tab<T>, slot: nat)
    requires Rolled(t0, t, slot) && slot > t.top
    ensures t.live == t0.live - t0.Since()
  {
    hide HandleOf, SlotOf, Generation;
    forall h | h in t0.live
      ensures SlotOf(h) < slot
    {
      LiveSlot(t0, h);
    }
  }

  lemma GoneMore<T>(gone: seq<(nat, T)>, t0: Tab<T>, t: Tab<T>, t': Tab<T>, h: nat, slot: nat)
    requires Gone(gone, t0, t) && FreedAs(t, t', h) && Rolled(t0, t, slot)
    ensures Gone(gone + [(h, t.live[h])], t0, t')
  {
    hide HandleOf, SlotOf, Generation, Head, Tab.Listed, Tab.LiveOk, Tab.SlotsOk;
    var all := gone + [(h, t.live[h])];
    forall k | k in t0.live && k !in t'.live
      ensures exists i :: 0 <= i < |all| && all[i].0 == k
    {
      if k == h {
        assert all[|gone|].0 == k;
      } else {
        var i :| 0 <= i < |gone| && gone[i].0 == k;
        assert all[i].0 == k;
      }
    }
  }

  /** Handle `h` has been taken for `val` and is new. */
  ghost predicate TakenAs<T>(t0: Tab<T>, t: Tab<T>, h: nat, val: T) {
    && t0.Ok() && t.Ok()
    && h !in t0.live && t.live == t0.live[h := val] && t.Since() == t0.Since() + {h}
    && 1 <= SlotOf(h) < |t0.sl| && h != 0 && (forall k :: k in t0.live ==> SlotOf(k) != SlotOf(h))
    && t.takes == t0.takes[SlotOf(h) := t0.takes[SlotOf(h)] + 1]
    && h == HandleOf(SlotOf(h), Generation(t.takes[SlotOf(h)])) && t.epoch == t0.epoch
  }

  lemma TakenParts<T>(t: Tab<T>, s: nat, g: nat, val: T)
    requires t.Ok() && Next(t, s) && g == Generation(t.takes[s] + 1)
    ensures 1 <= s < |t.sl| == |t.takes|
    ensures var t' := Taken(t, s, g, val);
            && t'.sl == t.sl[s := Slot(g, t.epoch + 1, t.sl[s].next, val)] && t'.epoch == t.epoch
            && t'.top == (if t.unused == [] then t.top + 1 else t.top)
            && t'.unused == (if t.unused == [] then [] else t.unused[1..]) && |t'.live| == |t.live| + 1
            && TakenAs(t, t', HandleOf(s, g), val)
  {
    hide Generation, HandleOf, SlotOf;
    NextFree(t, s);
    TakenOk(t, s, g, val);
    TakenSince(t, s, g, val);
  }

  lemma TakenSince<T>(t: Tab<T>, s: nat, g: nat, val: T)
    requires t.Ok() && 1 <= s < |t.sl| == |t.takes| && Taken(t, s, g, val).Ok() && SlotOf(HandleOf(s, g)) == s
    requires forall k :: k in t.live ==> SlotOf(k) != s
    ensures Taken(t, s, g, val).Since() == t.Since() + {HandleOf(s, g)}
  {
    hide Generation, HandleOf, SlotOf;
    assert forall k :: k in t.live ==> t.IsLive(k);
  }

  /** Handle `h` has been let go. */
  ghost predicate FreedAs<T>(t0: Tab<T>, t: Tab<T>, h: nat) {
    && t0.Ok() && t.Ok() && h in t0.live
    && t.live == t0.live - {h} && t.Since() == t0.Since() - {h} && t.takes == t0.takes && t.epoch == t0.epoch && t.top == t0.top
  }

  lemma FreedParts<T>(t: Tab<T>, h: nat, zero: T)
    requires t.Ok() && h in t.live && SlotOf(h) < |t.sl| && Freed(t, h, zero).Ok()
    ensures var s, t' := SlotOf(h), Freed(t, h, zero);
            && t'.sl == t.sl[s := Slot(t.sl[s].generation, 0, Head(t.unused), zero)] && t'.epoch == t.epoch && t'.top == t.top
            && t'.unused == [s] + t.unused && |t'.live| == |t.live| - 1 && t.sl[s].val == t.live[h]
            && FreedAs(t, t', h)
  {
    hide HandleOf, SlotOf, Generation;
    LiveSlot(t, h);
    FreedCount(t, h, zero);
    FreedSince(t, h, zero);
  }

  lemma FreedSince<T>(t: Tab<T>, h: nat, zero: T)
    requires t.Ok() && h in t.live && SlotOf(h) < |t.sl| && Freed(t, h, zero).Ok()
    ensures Freed(t, h, zero).Since() == t.Since() - {h}
  {
    hide Generation, HandleOf;
    hide SlotOf;
    forall k | k in t.live && k != h
      ensures SlotOf(k) != SlotOf(h) && SlotOf(k) < |t.sl|
    {
      OneOther(t, k, h);
    }
  }

  lemma OneOther<T>(t: Tab<T>, k: nat, h: nat)
    requires t.Ok() && k in t.live && h in t.live && k != h
    ensures SlotOf(k) != SlotOf(h) && SlotOf(k) < |t.sl|
  {
    if SlotOf(k) == SlotOf(h) {
      OneHandle(t, k, h);
    }
    LiveSlot(t, k);
  }

  lemma LiveHere<T>(t: Tab<T>, h: nat)
    requires t.Ok()
    ensures h in t.live <==> t.IsLive(h)
    ensures h in t.live ==> 1 <= SlotOf(h) < |t.sl|
  {
  }

  lemma BegunOk<T>(t: Tab<T>)
    requires t.Ok()
    ensures t.(epoch := t.epoch + 1).Ok() && t.(epoch := t.epoch + 1).Since() == {}
  {
    var t' := t.(epoch := t.epoch + 1);
    forall x | 0 <= x < |t'.sl|
      ensures t'.SlotOk(x)
    {
      assert t.SlotOk(x);
    }
    assert forall k: nat :: t'.IsLive(k) == t.IsLive(k);
    forall k | k in t.live
      ensures t.sl[SlotOf(k)].made <= t.epoch + 1
    {
      LiveSlot(t, k);
      assert t.SlotOk(SlotOf(k));
    }
  }

  /** `gone` holds each handle of `t0` that `t` has not, once, with what it held. */
  ghost predicate Gone<T>(gone: seq<(nat, T)>, t0: Tab<T>, t: Tab<T>) {
    && (forall i, j :: 0 <= i < j < |gone| ==> gone[i].0 != gone[j].0)
    && (forall i :: 0 <= i < |gone| ==> gone[i].0 in t0.live && gone[i].0 !in t.live && gone[i].1 == t0.live[gone[i].0])
    && (forall h :: h in t0.live && h !in t.live ==> exists i :: 0 <= i < |gone| && gone[i].0 == h)
  }

  lemma NextGeneration<T>(t: Tab<T>, s: nat)
    requires t.Ok() && s < |t.sl|
    ensures |t.takes| == |t.sl|
    ensures var g := (t.sl[s].generation + 1) % SLOTS; (if g == 0 then 1 else g) == Generation(t.takes[s] + 1)
  {
    hide Generation;
    assert t.SlotOk(s);
    GenerationNext(t.takes[s]);
  }

  /** With no slot on the free list and none past `top`, every slot is live; and only then. */
  lemma FreeCount<T>(t: Tab<T>)
    requires t.Ok()
    ensures |t.live| == |t.sl| - 1 <==> t.unused == [] && t.top + 1 == |t.sl|
    ensures t.unused != [] ==> t.unused[0] != 0 && t.sl[t.unused[0]].next == Head(t.unused[1..])
  {
  }

  /** A live handle's slot is its own. */
  lemma OneHandle<T>(t: Tab<T>, h: nat, g: nat)
    requires t.Ok() && h in t.live && g in t.live && SlotOf(h) == SlotOf(g)
    ensures h == g
  {
    PartsHandle(h);
    PartsHandle(g);
  }

  /** A handle kept past its release names nothing until its slot has been taken a multiple of 65535 times more
      and is taken. */
  lemma LiveAgain<T>(t: Tab<T>, slot: nat, a: nat)
    requires t.Ok() && 1 <= slot < |t.sl| && 1 <= a <= t.takes[slot]
    ensures HandleOf(slot, Generation(a)) in t.live <==> t.sl[slot].made != 0 && (t.takes[slot] - a) % 65535 == 0
  {
    HandleParts(slot, Generation(a));
    GenerationAgain(a, t.takes[slot]);
    assert t.SlotOk(slot);
  }
}
