/** The guest's encoder over its handles and its stream, and its agreement with the host: after every turn the
    host's occupied slots are the guest's live handles. */
module Gpus {
  import opened Streams
  import H = Handles
  import opened GpuHost
  import opened GpuDrifts
  import opened Prelude

  /** The live handles made by `op`. */
  function MadeBy(live: map<nat, nat>, op: nat): set<nat> {
    set h | h in live && live[h] == op
  }

  /** Of the live handles, each op's are counted. */
  ghost predicate Counted(objects: seq<nat>, live: map<nat, nat>) {
    |objects| == DESTROY && forall op :: 1 <= op < DESTROY ==> objects[op] == |MadeBy(live, op)|
  }

  lemma CountMade(objects: seq<nat>, live: map<nat, nat>, id: nat, op: nat)
    requires Counted(objects, live) && id !in live && op < DESTROY
    ensures Counted(if op == 0 then objects else objects[op := objects[op] + 1], live[id := op])
  {
    hide MadeBy;
    forall p | 1 <= p < DESTROY
      ensures |MadeBy(live[id := op], p)| == |MadeBy(live, p)| + if p == op then 1 else 0
    {
      MadeMore(live, id, op, p);
    }
  }

  lemma MadeMore(live: map<nat, nat>, id: nat, op: nat, p: nat)
    requires id !in live
    ensures |MadeBy(live[id := op], p)| == |MadeBy(live, p)| + if p == op then 1 else 0
  {
    assert MadeBy(live[id := op], p) == MadeBy(live, p) + if p == op then {id} else {};
  }

  lemma CountFreed(objects: seq<nat>, live: map<nat, nat>, id: nat)
    requires Counted(objects, live) && id in live && live[id] < DESTROY
    ensures live[id] != 0 ==> objects[live[id]] > 0
    ensures Counted(if live[id] == 0 then objects else objects[live[id] := objects[live[id]] - 1], live - {id})
  {
    forall p | 1 <= p < DESTROY
      ensures |MadeBy(live, p)| == |MadeBy(live - {id}, p)| + if p == live[id] then 1 else 0
    {
      assert MadeBy(live, p) == MadeBy(live - {id}, p) + if p == live[id] then {id} else {};
    }
  }

  // What made a handle's object, read off the records

  /** The op of the last record that made an object under a handle. */
  ghost function Maker(recs: seq<Record>, h: nat): Option<nat> {
    if recs == [] then None
    else
      var r := recs[|recs| - 1];
      if Shaped(r) && Makes(r.op) && r.words[0] == h then Some(r.op) else Maker(recs[..|recs| - 1], h)
  }

  /** A handle holds the op that made its object where that lasts until it is destroyed, else 0. */
  ghost predicate Recorded(recs: seq<Record>, h: nat, val: nat) {
    Maker(recs, h).Some? && val == if Maker(recs, h).value < DESTROY then Maker(recs, h).value else 0
  }

  ghost predicate AllRecorded(recs: seq<Record>, live: map<nat, nat>) {
    forall h :: h in live ==> Recorded(recs, h, live[h])
  }

  /** The live handles whose objects the records say `op` made. */
  ghost function LiveOf(recs: seq<Record>, live: map<nat, nat>, op: nat): set<nat> {
    set h | h in live && Maker(recs, h) == Some(op)
  }

  lemma MakerNext(recs: seq<Record>, r: Record, h: nat)
    ensures Maker(recs + [r], h) == if Shaped(r) && Makes(r.op) && r.words[0] == h then Some(r.op) else Maker(recs, h)
  {
    assert (recs + [r])[..|recs|] == recs;
  }

  lemma RecordedMade(past: seq<Record>, recs: seq<Record>, live: map<nat, nat>, r: Record, id: nat)
    requires AllRecorded(past + recs, live) && Shaped(r) && Makes(r.op) && r.words[0] == id
    ensures AllRecorded(past + (recs + [r]), live[id := Kept(r.op)])
  {
    hide Shaped, Makes, Maker;
    var live' := live[id := Kept(r.op)];
    assert past + (recs + [r]) == past + recs + [r];
    forall h | h in live'
      ensures Recorded(past + recs + [r], h, live'[h])
    {
      MakerNext(past + recs, r, h);
      assert h != id ==> Recorded(past + recs, h, live[h]);
    }
  }

  lemma RecordedFreed(past: seq<Record>, recs: seq<Record>, live: map<nat, nat>, r: Record, hs: seq<nat>, sent: bool)
    requires AllRecorded(past + recs, live) && !Makes(r.op)
    ensures AllRecorded(past + if sent then recs + [r] else recs, Without(live, hs))
  {
    hide Shaped, Makes, Maker, Elems;
    assert past + (recs + [r]) == past + recs + [r];
    forall h | h in Without(live, hs)
      ensures Recorded(past + if sent then recs + [r] else recs, h, live[h])
    {
      MakerNext(past + recs, r, h);
      assert Recorded(past + recs, h, live[h]);
    }
  }

  /** What is counted is, for each op, the live handles whose objects the records say it made. */
  lemma CountedByRecords(objects: seq<nat>, recs: seq<Record>, live: map<nat, nat>)
    requires Counted(objects, live) && AllRecorded(recs, live)
    ensures |objects| == DESTROY && forall op :: 1 <= op < DESTROY ==> objects[op] == |LiveOf(recs, live, op)|
  {
    hide Maker;
    forall op | 1 <= op < DESTROY
      ensures objects[op] == |LiveOf(recs, live, op)|
    {
      assert forall h :: h in live ==> Recorded(recs, h, live[h]);
      assert LiveOf(recs, live, op) == MadeBy(live, op);
    }
  }

  /** What the records would leave at a live handle's slot is its object; and of what an open transaction began with,
      all that was not let go is still live. */
  ghost predicate Agreed(past: seq<Record>, host: map<nat, nat>, recs: seq<Record>, before: seq<Record>, mark: Mark,
                         began: map<nat, nat>, gone: set<nat>, live: map<nat, nat>, since: set<nat>) {
    && AllShaped(recs)
    && (!mark.Spilled? ==> Own(RanAll(host, recs), live) && AllRecorded(past + recs, live))
    && (!mark.Off? ==> && before <= recs && Own(RanAll(host, before), began) && AllRecorded(past + before, began)
                       && Apart(began) && live - since == began - gone)
  }

  /** A transaction's mark once a record was or was not written. */
  predicate Marked(mark: Mark, mark': Mark, sent: bool) {
    && (sent ==> !mark.Spilled?) && (mark.Off? ==> sent)
    && mark' == if !sent && mark.Open? then Spilled(mark.at) else mark
  }

  lemma AgreedMade(past: seq<Record>, host: map<nat, nat>, recs: seq<Record>, before: seq<Record>, mark: Mark, began: map<nat, nat>,
                   gone: set<nat>, live: map<nat, nat>, since: set<nat>, id: nat, r: Record)
    requires Agreed(past, host, recs, before, mark, began, gone, live, since) && !mark.Spilled?
    requires Shaped(r) && Makes(r.op) && r.words[0] == id && id !in live && forall h :: h in live ==> H.SlotOf(h) != H.SlotOf(id)
    ensures Agreed(past, host, recs + [r], before, mark, began, gone, live[id := Kept(r.op)], since + {id})
    ensures AllShaped(recs) && AllShaped(recs + [r])
    ensures Between(RanAll(host, recs + [r]), live[id := Kept(r.op)]) == MadeDrift(Between(RanAll(host, recs), live), id)
  {
    hide Own, Ran, Apart, Between, MadeDrift, Shaped, Makes, Kept, H.SlotOf, AllRecorded;
    RecordedMade(past, recs, live, r, id);
    RanNext(host, recs, r);
    MadeBetween(RanAll(host, recs), live, r, id);
    MadeSince(live, since, id, Kept(r.op));
  }

  lemma MadeSince(live: map<nat, nat>, since: set<nat>, id: nat, val: nat)
    requires id !in live
    ensures live[id := val] - (since + {id}) == live - since
  {
  }

  lemma AgreedUnsent(past: seq<Record>, host: map<nat, nat>, recs: seq<Record>, before: seq<Record>, mark: Mark, mark': Mark,
                     began: map<nat, nat>, gone: set<nat>, live: map<nat, nat>, since: set<nat>)
    requires Agreed(past, host, recs, before, mark, began, gone, live, since) && Marked(mark, mark', false)
    ensures Agreed(past, host, recs, before, mark', began, gone, live, since)
  {
  }

  /** Handles let go, the record of it written or dropped with its transaction. */
  lemma AgreedFreed(past: seq<Record>, host: map<nat, nat>, recs: seq<Record>, before: seq<Record>, mark: Mark, mark': Mark, began: map<nat, nat>,
                    gone: set<nat>, live: map<nat, nat>, since: set<nat>, r: Record, sent: bool)
    requires Agreed(past, host, recs, before, mark, began, gone, live, since) && Marked(mark, mark', sent)
    requires Shaped(r) && !Makes(r.op)
    ensures Agreed(past, host, if sent then recs + [r] else recs, before, mark', began, gone + Elems(Freeing(r)),
                   Without(live, Freeing(r)), since - Elems(Freeing(r)))
    ensures AllShaped(recs)
    ensures sent ==> && AllShaped(recs + [r])
                     && Between(RanAll(host, recs + [r]), Without(live, Freeing(r)))
                        == FreedDrift(Between(RanAll(host, recs), live), live, Freeing(r))
  {
    hide Own, Ran, Apart, Between, FreedDrift, AllRecorded;
    var hs := Freeing(r);
    if !mark.Spilled? {
      RecordedFreed(past, recs, live, r, hs, sent);
    }
    if sent {
      RanNext(host, recs, r);
      FreedBetween(RanAll(host, recs), live, r);
    }
    assert !mark.Off? ==> Without(live, hs) - (since - Elems(hs)) == (live - since) - Elems(hs);
    assert began - gone - Elems(hs) == began - (gone + Elems(hs));
  }

  /** A transaction dropped whole. */
  lemma AgreedSpilled(past: seq<Record>, host: map<nat, nat>, recs: seq<Record>, before: seq<Record>, mark: Mark, began: map<nat, nat>,
                      gone: set<nat>, live: map<nat, nat>, since: set<nat>)
    requires Agreed(past, host, recs, before, mark, began, gone, live, since) && mark.Spilled?
    ensures AllShaped(before) && live - since == began - gone && Apart(began)
    ensures Agreed(past, host, before, before, Off, began, gone, began - gone, {})
    ensures Between(RanAll(host, before), began - gone) == SpilledDrift(Between(RanAll(host, before), began), began, gone)
  {
    hide Own, Ran, Apart, Between, SpilledDrift, Maker;
    SpilledBetween(RanAll(host, before), began, gone);
  }

  /** What a handle holds is the op of what lasts, or 0. */
  ghost predicate Lasting(live: map<nat, nat>) {
    forall h :: h in live ==> live[h] < DESTROY
  }

  lemma LastingMade(live: map<nat, nat>, id: nat, op: nat)
    requires Lasting(live)
    ensures Lasting(live[id := Kept(op)]) && Kept(op) < DESTROY
  {
  }

  class Gpu {
    const handles: H.Table<nat>
    const objects: array<nat>
    /** The records of the turns there were, and the host's slots as the last left them. */
    ghost var past: seq<Record>
    ghost var host: map<nat, nat>
    /** The live handles as an open transaction began, and the handles let go since. */
    ghost var began: map<nat, nat>
    ghost var gone: set<nat>

    ghost predicate Sound()
      reads this, handles, handles.slots, objects
    {
      && handles.Valid() && handles.slots as object != objects as object
      && Counted(objects[..], handles.tab.live)
      && Lasting(handles.tab.live)
    }

    /** After any calls: what the turn has recorded, run by the host, leaves each live handle its own object or none. */
    ghost predicate Valid(stream: Stream)
      reads this, handles, handles.slots, objects, stream, stream.mem
    {
      && Sound() && stream.Valid() && Apartly(stream)
      && Agreed(past, host, stream.recs, stream.before, stream.mark, began, gone, handles.tab.live, handles.tab.Since())
    }

    ghost predicate Apartly(stream: Stream)
      reads this, handles, stream
    {
      && stream.mem as object != handles.slots as object && stream.mem as object != objects as object
    }

    constructor (n: nat)
      requires 2 <= n <= H.SLOTS
      ensures Sound() && handles.slots.Length == n && handles.tab.live == map[] && handles.tab.takes == seq(n, _ => 0) && host == map[]
      ensures past == [] && fresh(handles) && fresh(handles.slots) && fresh(objects)
    {
      handles := new H.Table<nat>(n, 0);
      objects := new nat[DESTROY](_ => 0);
      past, host, began, gone := [], map[], map[], {};
      new;
      assert forall op :: MadeBy(map[], op) == {};
    }

    /** How far what the turn has recorded would leave the host from what is live. */
    ghost function Drifted(stream: Stream): Drift
      requires Valid(stream)
      reads this, handles, handles.slots, objects, stream, stream.mem
    {
      Between(RanAll(host, stream.recs), handles.tab.live)
    }

    /** How far it was as an open transaction began. */
    ghost function DriftBefore(stream: Stream): Drift
      requires Valid(stream) && !stream.mark.Off?
      reads this, handles, handles.slots, objects, stream, stream.mem
    {
      Between(RanAll(host, stream.before), began)
    }

    // Objects

    method Remember(op: nat)
      requires objects.Length == DESTROY
      modifies objects
      ensures objects[..] == if op < DESTROY then old(objects[..])[op := old(objects[op]) + 1] else old(objects[..])
    {
      if op < DESTROY {
        objects[op] := objects[op] + 1;
      }
    }

    method Forget(op: nat)
      requires op < DESTROY == objects.Length && (op != 0 ==> objects[op] > 0)
      modifies objects
      ensures objects[..] == if op == 0 then old(objects[..]) else old(objects[..])[op := old(objects[op]) - 1]
    {
      if op != 0 {
        objects[op] := objects[op] - 1;
      }
    }

    /** `id` let go, where it was live. */
    method Release(id: nat) returns (was: bool)
      requires Sound()
      modifies handles`free, handles`cnt, handles`tab, handles.slots, objects
      ensures Sound() && old(handles.tab.Ok())
      ensures was == (id in old(handles.tab.live))
      ensures handles.tab.live == old(handles.tab.live) - {id} && handles.tab.Since() == old(handles.tab.Since()) - {id}
      ensures handles.tab.takes == old(handles.tab.takes)
    {
      hide H.Table.Valid, Counted, H.FreedAs, H.Tab.Ok, H.Tab.Since;
      TableOk(handles);
      ghost var t := handles.tab;
      var op := handles.Remove(id);
      TableOk(handles);
      NotThere(t, id);
      if op.Some? {
        FreedFacts(t, handles.tab, id);
        CountFreed(objects[..], t.live, id);
        CountedLen(objects[..], t.live);
        Forget(op.value);
      }
      return op.Some?;
    }

    // Calls

    /** An object's handle, written as its record's first word; none, and nothing changed, where the table is full
        or the record did not fit. */
    method Make(stream: Stream, op: nat, items: seq<Item>) returns (r: Option<nat>)
      requires Valid(stream) && Makes(op) && (stream.mark.Off? ==> 3 + |Flat(items)| <= stream.Left())
      modifies handles, handles.slots, objects, stream`len, stream`mark, stream`recs, stream.mem
      ensures Valid(stream) && old(handles.tab.Ok())
      ensures r.Some? ==> && r.value !in old(handles.tab.live) && handles.tab.live == old(handles.tab.live)[r.value := if op < DESTROY then op else 0]
                          && stream.recs == old(stream.recs) + [Record(op, [r.value] + Flat(items))]
                          && stream.mark == old(stream.mark) && H.TakenAs(old(handles.tab), handles.tab, r.value, Kept(op))
                          && Drifted(stream) == MadeDrift(old(Drifted(stream)), r.value)
                          && objects.Length == DESTROY
                          && objects[..] == if op < DESTROY then old(objects[..])[op := old(objects[op]) + 1] else old(objects[..])
      ensures r.None? ==> handles.tab.live == old(handles.tab.live) && stream.recs == old(stream.recs) && objects[..] == old(objects[..])
      ensures r.None? <==> old(handles.cnt) == handles.slots.Length - 1
                           || old(stream.mark).Spilled? || (old(stream.mark).Open? && 3 + |Flat(items)| > old(stream.Left()))
    {
      hide H.Table.Valid, Stream.Valid, Counted, Agreed, H.Tab.Ok, H.Tab.Since, H.TakenAs, H.FreedAs, Flat, Own, Apart, Between,
        MadeDrift, Ran, RanAll, Lasting, Drifted;
      ghost var t, recs, before, mark, gone0 := handles.tab, stream.recs, stream.before, stream.mark, gone;
      DriftedIs(stream);
      TableOk(handles);
      var id := handles.Insert(Kept(op));
      if id.None? {
        return id;
      }
      TableOk(handles);
      TakenFacts(t, handles.tab, id.value, Kept(op));
      FlatFront(id.value, items);
      var sent := stream.Emit(op, [Word(id.value)] + items);
      if !sent {
        ghost var t1 := handles.tab;
        var back := handles.Remove(id.value);
        TableOk(handles);
        UntakenFacts(t, t1, handles.tab, id.value, Kept(op));
        AgreedUnsent(past, host, recs, before, mark, stream.mark, began, gone0, t.live, t.Since());
        return None;
      }
      AgreedMade(past, host, recs, before, mark, began, gone0, t.live, t.Since(), id.value, Record(op, [id.value] + Flat(items)));
      LastingMade(t.live, id.value, op);
      CountMade(objects[..], t.live, id.value, Kept(op));
      CountedLen(objects[..], t.live);
      Remember(op);
      DriftedIs(stream);
      return id;
    }

    lemma DriftedIs(stream: Stream)
      requires Valid(stream)
      ensures AllShaped(stream.recs) && Drifted(stream) == Between(RanAll(host, stream.recs), handles.tab.live)
    {
    }

    /** Ends a pass: its handle is free whether or not the record was written. */
    method End(stream: Stream, pass: nat) returns (sent: bool)
      requires Valid(stream) && (stream.mark.Off? ==> 3 <= stream.Left())
      modifies this`gone, handles`free, handles`cnt, handles`tab, handles.slots, objects, stream`len, stream`mark, stream`recs, stream.mem
      ensures Valid(stream) && handles.tab.live == old(handles.tab.live) - {pass}
      ensures stream.recs == if sent then old(stream.recs) + [Record(END, [pass])] else old(stream.recs)
      ensures sent == !stream.mark.Spilled? && Marked(old(stream.mark), stream.mark, sent)
      ensures gone == old(gone) + {pass} && handles.tab.takes == old(handles.tab.takes)
      ensures sent <==> !old(stream.mark).Spilled? && 3 <= old(stream.Left())
      ensures sent ==> Drifted(stream) == FreedDrift(old(Drifted(stream)), old(handles.tab.live), [pass])
    {
      hide H.Table.Valid, Stream.Valid, Counted, Agreed, H.Tab.Ok, H.Tab.Since, Flat, Own, Apart, Between, Shaped, Freeing, FreedDrift, Without, Ran, RanAll, Elems, Lasting, Drifted;
      ghost var t, recs, before, mark, gone0 := handles.tab, stream.recs, stream.before, stream.mark, gone;
      DriftedIs(stream);
      TableOk(handles);
      FlatOne(pass);
      sent := stream.Emit(END, [Word(pass)]);
      var was := Release(pass);
      gone := gone + {pass};
      OneFreed(t.live, pass);
      AgreedFreed(past, host, recs, before, mark, stream.mark, began, gone0, t.live, t.Since(), Record(END, [pass]), sent);
      DriftedIs(stream);
    }

    /** An object let go: no record where it was not live. */
    method Destroy(stream: Stream, id: nat)
      requires Valid(stream) && (stream.mark.Off? ==> 3 <= stream.Left())
      modifies this`gone, handles`free, handles`cnt, handles`tab, handles.slots, objects, stream`len, stream`mark, stream`recs, stream.mem
      ensures Valid(stream) && handles.tab.live == old(handles.tab.live) - {id}
      ensures stream.recs == if id in old(handles.tab.live) && !stream.mark.Spilled?
                             then old(stream.recs) + [Record(DESTROY, [id])] else old(stream.recs)
      ensures stream.mark == old(stream.mark) || (id in old(handles.tab.live) && Marked(old(stream.mark), stream.mark, false))
      ensures gone == (if id in old(handles.tab.live) then old(gone) + {id} else old(gone)) && handles.tab.takes == old(handles.tab.takes)
      ensures !stream.mark.Spilled? ==> Drifted(stream) == DestroyedDrift(old(Drifted(stream)), old(handles.tab.live), id)
    {
      hide H.Table.Valid, Stream.Valid, Counted, Agreed, H.Tab.Ok, H.Tab.Since, Flat, Own, Apart, Between, Shaped, Freeing, FreedDrift, Without, Ran, RanAll, Elems, Lasting;
      ghost var t, recs, before, mark, gone0 := handles.tab, stream.recs, stream.before, stream.mark, gone;
      ghost var d := Drifted(stream);
      TableOk(handles);
      FlatOne(id);
      var was := Release(id);
      NotThere(t, id);
      OneFreed(t.live, id);
      if was {
        var sent := stream.Emit(DESTROY, [Word(id)]);
        gone := gone + {id};
        OwnFreed(d, t.live, id);
        AgreedFreed(past, host, recs, before, mark, stream.mark, began, gone0, t.live, t.Since(), Record(DESTROY, [id]), sent);
      }
    }

    /** Each encoder finished, submitted in order and let go, as `End` lets a pass go. */
    method Submit(stream: Stream, encoders: seq<nat>) returns (sent: bool)
      requires Valid(stream) && (stream.mark.Off? ==> 3 + |encoders| <= stream.Left())
      modifies this`gone, handles`free, handles`cnt, handles`tab, handles.slots, objects, stream`len, stream`mark, stream`recs, stream.mem
      ensures Valid(stream) && handles.tab.live == Without(old(handles.tab.live), encoders)
      ensures stream.recs == if sent then old(stream.recs) + [Record(SUBMIT, [|encoders|] + encoders)] else old(stream.recs)
      ensures sent == !stream.mark.Spilled? && Marked(old(stream.mark), stream.mark, sent)
      ensures gone == old(gone) + Elems(encoders) && handles.tab.takes == old(handles.tab.takes)
      ensures sent <==> !old(stream.mark).Spilled? && 3 + |encoders| <= old(stream.Left())
      ensures sent ==> Drifted(stream) == FreedDrift(old(Drifted(stream)), old(handles.tab.live), encoders)
    {
      hide H.Table.Valid, Stream.Valid, Counted, Agreed, H.Tab.Ok, H.Tab.Since, Flat, Own, Apart, Between, Shaped, Freeing, FreedDrift, Without, Ran, RanAll, Elems, Lasting;
      ghost var t, recs, before, mark, gone0 := handles.tab, stream.recs, stream.before, stream.mark, gone;
      TableOk(handles);
      FlatFront(|encoders|, Words(encoders));
      FlatWords(encoders);
      sent := stream.Emit(SUBMIT, [Word(|encoders|)] + Words(encoders));
      ReleaseAll(encoders);
      ghost var r := Record(SUBMIT, [|encoders|] + encoders);
      SubmitFrees(encoders);
      gone := gone + Elems(encoders);
      AgreedFreed(past, host, recs, before, mark, stream.mark, began, gone0, t.live, t.Since(), r, sent);
    }

    method ReleaseAll(ids: seq<nat>)
      requires Sound()
      modifies handles`free, handles`cnt, handles`tab, handles.slots, objects
      ensures Sound() && old(handles.tab.Ok()) && handles.tab.live == Without(old(handles.tab.live), ids)
      ensures handles.tab.Since() == old(handles.tab.Since()) - Elems(ids) && handles.tab.takes == old(handles.tab.takes)
    {
      hide H.Table.Valid, Counted, H.Tab.Ok, H.Tab.Since;
      TableOk(handles);
      ghost var t := handles.tab;
      var i := 0;
      NoneWithout(t);
      assert ids[..0] == [];
      while i < |ids|
        invariant i <= |ids| && Sound() && handles.tab.Ok()
        invariant handles.tab.live == Without(t.live, ids[..i])
        invariant handles.tab.Since() == t.Since() - Elems(ids[..i]) && handles.tab.takes == t.takes
      {
        OneWithout(t, ids, i);
        var was := Release(ids[i]);
        TableOk(handles);
        i := i + 1;
      }
      assert ids[..i] == ids;
    }

    /** A call that makes and frees nothing. */
    method Call(stream: Stream, op: nat, items: seq<Item>) returns (sent: bool)
      requires Valid(stream) && !Makes(op) && !Frees(op) && (stream.mark.Off? ==> 2 + |Flat(items)| <= stream.Left())
      modifies stream`len, stream`mark, stream`recs, stream.mem
      ensures Valid(stream) && handles.tab == old(handles.tab)
      ensures sent <==> !old(stream.mark).Spilled? && 2 + |Flat(items)| <= old(stream.Left())
      ensures sent ==> Drifted(stream) == old(Drifted(stream))
      ensures stream.recs == if sent then old(stream.recs) + [Record(op, Flat(items))] else old(stream.recs)
      ensures sent == !stream.mark.Spilled? && Marked(old(stream.mark), stream.mark, sent)
    {
      hide H.Table.Valid, Stream.Valid, Counted, Agreed, H.Tab.Ok, H.Tab.Since, Flat, Own, Apart, Between, Shaped, Freeing, FreedDrift, Without, Ran, RanAll, Elems, Lasting;
      ghost var t, recs, before, mark, gone0 := handles.tab, stream.recs, stream.before, stream.mark, gone;
      ghost var d := Drifted(stream);
      TableOk(handles);
      sent := stream.Emit(op, items);
      ghost var r := Record(op, Flat(items));
      NoneFreed(t, gone, r);
      UnfreedDrift(d, t.live);
      AgreedFreed(past, host, recs, before, mark, stream.mark, began, gone0, t.live, t.Since(), r, sent);
    }

    // Transactions and turns

    /** The records from here to `Commit` are one, and so are the objects they make. */
    method Begin(stream: Stream)
      requires Valid(stream) && stream.mark.Off?
      modifies this`began, this`gone, handles`epoch, handles`tab, stream`mark, stream`before
      ensures Valid(stream) && stream.mark.Open? && handles.tab.live == old(handles.tab.live) == began && handles.tab.Since() == {}
      ensures stream.recs == old(stream.recs) == stream.before && gone == {} && handles.tab.takes == old(handles.tab.takes)
      ensures Drifted(stream) == DriftBefore(stream) == old(Drifted(stream))
    {
      hide H.Table.Valid, Stream.Valid, Counted, H.Tab.Ok, H.Tab.Since, Own, Between;
      TableOk(handles);
      stream.Begin();
      handles.Begin();
      began, gone := handles.tab.live, {};
      assert began - {} == began;
    }

    /** False where the transaction did not fit: the stream is as at `Begin`, and so is what is live, but for what was
        let go since. Begun without drift, it ends without exactly where none of what it began with was let go. */
    method Commit(stream: Stream) returns (fit: bool)
      requires Valid(stream) && !stream.mark.Off?
      modifies handles`free, handles`cnt, handles`tab, handles.slots, objects, stream`mark, stream`len, stream`recs
      ensures Valid(stream) && stream.mark.Off? && fit == old(stream.mark).Open?
      ensures handles.tab.live == if fit then old(handles.tab.live) else began - gone
      ensures stream.recs == if fit then old(stream.recs) else stream.before
      ensures Drifted(stream) == if fit then old(Drifted(stream)) else SpilledDrift(old(DriftBefore(stream)), began, gone)
      ensures !fit && old(DriftBefore(stream)) == NO_DRIFT ==> (Drifted(stream) == NO_DRIFT <==> gone !! began.Keys)
    {
      hide H.Table.Valid, Stream.Valid, Counted, H.Tab.Ok, H.Tab.Since, Own, Apart, Between, SpilledDrift;
      TableOk(handles);
      ghost var t, recs, mark := handles.tab, stream.recs, stream.mark;
      fit := stream.Commit();
      if !fit {
        AgreedSpilled(past, host, recs, stream.before, mark, began, gone, t.live, t.Since());
        SpilledNone(began, gone);
        ForgetSince();
      }
    }

    /** The handles an open transaction took given back, each counted off. */
    method ForgetSince()
      requires Sound()
      modifies handles`free, handles`cnt, handles`tab, handles.slots, objects
      ensures Sound() && old(handles.tab.Ok()) && handles.tab.live == old(handles.tab.live) - old(handles.tab.Since())
    {
      hide H.Table.Valid, Counted, H.Tab.Ok, H.Tab.Since, H.Gone, Fewer, Apart;
      TableOk(handles);
      ghost var t := handles.tab;
      var back := handles.Rollback();
      TableOk(handles);
      var i := 0;
      ghost var live := t.live;
      CountedLen(objects[..], live);
      NoneFewer(live, back);
      while i < |back|
        invariant i <= |back| && Counted(objects[..], live) && objects.Length == DESTROY
        invariant handles.Valid() && live == Fewer(t.live, back, i) && handles.tab.live == t.live - t.Since() && H.Gone(back, t, handles.tab)
      {
        GoneNext(back, t, handles.tab, i);
        CountFreed(objects[..], live, back[i].0);
        Forget(back[i].1);
        live := live - {back[i].0};
        i := i + 1;
      }
      AllGone(back, t, handles.tab);
    }

    /** A turn's end: its records published, and run by the host before the next. Where there is no drift, the host's
        occupied slots are then the live handles', each by the op that made it; where there is, they are not. */
    method Turn(stream: Stream, far: Host)
      requires Valid(stream) && stream.mark.Off? && far.Slots() == host
      modifies this`past, this`host, stream`len, stream`recs, stream.mem, far
      ensures Valid(stream) && stream.mark.Off? && stream.recs == [] && far.Slots() == host
      ensures AllShaped(old(stream.recs)) && far.Slots() == RanAll(old(host), old(stream.recs))
      ensures Own(far.Slots(), handles.tab.live) && Drifted(stream) == old(Drifted(stream)) && handles.tab == old(handles.tab)
      ensures Match(far.Slots(), handles.tab.live) <==> Drifted(stream) == NO_DRIFT
      ensures past == old(past) + old(stream.recs) && objects.Length == DESTROY
      ensures forall op :: 1 <= op < DESTROY ==> objects[op] == |LiveOf(past, handles.tab.live, op)|
    {
      hide H.Table.Valid, Stream.Valid, H.Tab.Ok, H.Tab.Since, Match, Own, Apart, Between, AllRecorded, LiveOf, Counted;
      ghost var recs := stream.recs;
      stream.Publish();
      far.Run(stream.mem, stream.at, stream.head, recs);
      host := far.Slots();
      past := past + recs;
      assert past + [] == past;
      CountedByRecords(objects[..], past, handles.tab.live);
      MatchIff(host, handles.tab.live);
    }
  }

  lemma TableOk(t: H.Table<nat>)
    requires t.Valid()
    ensures t.tab.Ok() && Apart(t.tab.live)
  {
    forall h, g | h in t.tab.live && g in t.tab.live && H.SlotOf(h) == H.SlotOf(g)
      ensures h == g
    {
      H.OneHandle(t.tab, h, g);
    }
  }

  lemma TakenFacts(t0: H.Tab<nat>, t: H.Tab<nat>, id: nat, val: nat)
    requires H.TakenAs(t0, t, id, val)
    ensures t0.Ok() && t.Ok() && id !in t0.live && t.live == t0.live[id := val] && t.Since() == t0.Since() + {id} && id !in t0.Since()
    ensures forall h :: h in t0.live ==> H.SlotOf(h) != H.SlotOf(id)
  {
  }

  lemma UntakenFacts(t0: H.Tab<nat>, t1: H.Tab<nat>, t: H.Tab<nat>, id: nat, val: nat)
    requires H.TakenAs(t0, t1, id, val) && H.FreedAs(t1, t, id)
    ensures t0.Ok() && t.Ok() && t.live == t0.live && t.Since() == t0.Since()
  {
    hide H.Tab.Ok, H.SlotOf, H.HandleOf, H.Generation;
    SinceLive(t0, id);
  }

  lemma SinceLive(t: H.Tab<nat>, id: nat)
    requires t.Ok() && id !in t.live
    ensures id !in t.Since()
  {
  }

  /** A record's first word, and the rest. */
  lemma {:induction false} FlatFront(id: nat, items: seq<Item>)
    ensures Flat([Word(id)] + items) == [id] + Flat(items)
  {
    hide ItemWords;
    var all := [Word(id)] + items;
    if items != [] {
      FlatFront(id, items[..|items| - 1]);
      assert all[..|all| - 1] == [Word(id)] + items[..|items| - 1];
    } else {
      WordItem(id);
      assert all[..0] == [];
    }
  }

  lemma FlatOne(id: nat)
    ensures Flat([Word(id)]) == [id]
  {
    assert [Word(id)][..0] == [];
    WordItem(id);
  }

  lemma WordItem(id: nat)
    ensures ItemWords(Word(id)) == [id] && Flat([]) == []
  {
  }

  lemma OneFreed(live: map<nat, nat>, h: nat)
    ensures Without(live, [h]) == live - {h} && Elems([h]) == {h}
    ensures Shaped(Record(END, [h])) && Shaped(Record(DESTROY, [h]))
    ensures Freeing(Record(END, [h])) == [h] == Freeing(Record(DESTROY, [h]))
  {
  }

  /** After one live handle is let go: nothing is robbed of its slot. */
  function DestroyedDrift(d: Drift, live: map<nat, nat>, id: nat): Drift {
    if id in live then Drift(d.lost - {id}, d.left - {H.SlotOf(id)}) else d
  }

  lemma OwnFreed(d: Drift, live: map<nat, nat>, id: nat)
    requires Apart(live) && id in live
    ensures FreedDrift(d, live, [id]) == DestroyedDrift(d, live, id)
  {
    hide H.SlotOf;
    assert SlotsNamed([id]) == {H.SlotOf(id)};
    assert Robbed(live, [id]) == {id} == Elems([id]);
  }

  lemma SubmitFrees(hs: seq<nat>)
    ensures Shaped(Record(SUBMIT, [|hs|] + hs)) && Freeing(Record(SUBMIT, [|hs|] + hs)) == hs
  {
  }

  lemma NoneFreed(t: H.Tab<nat>, gone: set<nat>, r: Record)
    requires t.Ok() && !Makes(r.op) && !Frees(r.op)
    ensures Shaped(r) && Freeing(r) == [] && gone + Elems([]) == gone
    ensures Without(t.live, []) == t.live && t.Since() - Elems([]) == t.Since()
  {
  }

  lemma UnfreedDrift(d: Drift, live: map<nat, nat>)
    ensures FreedDrift(d, live, []) == d
  {
  }

  lemma NoneWithout(t: H.Tab<nat>)
    requires t.Ok()
    ensures Without(t.live, []) == t.live && t.Since() - Elems([]) == t.Since()
  {
  }

  lemma OneWithout(t: H.Tab<nat>, ids: seq<nat>, i: nat)
    requires t.Ok() && i < |ids|
    ensures Without(t.live, ids[..i]) - {ids[i]} == Without(t.live, ids[..i + 1])
    ensures t.Since() - Elems(ids[..i]) - {ids[i]} == t.Since() - Elems(ids[..i + 1])
  {
    hide H.Tab.Ok, H.Tab.Since, Elems;
    ElemsNext(ids, i);
    MinusOne(t.live, ids, i);
    var since, e := t.Since(), Elems(ids[..i]);
    assert since - e - {ids[i]} == since - (e + {ids[i]});
  }

  lemma MinusOne(live: map<nat, nat>, ids: seq<nat>, i: nat)
    requires i < |ids| && Elems(ids[..i + 1]) == Elems(ids[..i]) + {ids[i]}
    ensures Without(live, ids[..i]) - {ids[i]} == Without(live, ids[..i + 1])
  {
    hide Elems;
  }

  lemma ElemsNext(ids: seq<nat>, i: nat)
    requires i < |ids|
    ensures Elems(ids[..i + 1]) == Elems(ids[..i]) + {ids[i]}
  {
    assert ids[..i + 1] == ids[..i] + [ids[i]];
  }

  function Words(hs: seq<nat>): (items: seq<Item>)
    ensures |items| == |hs|
  {
    seq(|hs|, k requires 0 <= k < |hs| => Word(hs[k]))
  }

  lemma {:induction false} FlatWords(hs: seq<nat>)
    ensures Flat(Words(hs)) == hs
  {
    if hs != [] {
      var n := |hs| - 1;
      FlatWords(hs[..n]);
      assert Words(hs)[..n] == Words(hs[..n]);
      WordItem(hs[n]);
      assert hs == hs[..n] + [hs[n]];
    }
  }

  /** What is live without the first `i` of those gone. */
  function Fewer(live: map<nat, nat>, gone: seq<(nat, nat)>, i: nat): map<nat, nat>
    requires i <= |gone|
  {
    live - (set k | 0 <= k < i :: gone[k].0)
  }

  lemma NoneFewer(live: map<nat, nat>, gone: seq<(nat, nat)>)
    ensures Fewer(live, gone, 0) == live
  {
  }

  lemma GoneNext(gone: seq<(nat, nat)>, t0: H.Tab<nat>, t: H.Tab<nat>, i: nat)
    requires H.Gone(gone, t0, t) && i < |gone|
    ensures var (h, op) := gone[i];
            && h in t0.live && t0.live[h] == op && h in Fewer(t0.live, gone, i) && Fewer(t0.live, gone, i)[h] == op
            && Fewer(t0.live, gone, i) - {h} == Fewer(t0.live, gone, i + 1)
  {
    var some, more := set k | 0 <= k < i :: gone[k].0, set k | 0 <= k < i + 1 :: gone[k].0;
    assert more == some + {gone[i].0};
    assert gone[i].0 !in some;
  }

  lemma AllGone(gone: seq<(nat, nat)>, t0: H.Tab<nat>, t: H.Tab<nat>)
    requires H.Gone(gone, t0, t) && t0.Ok() && t.live == t0.live - t0.Since()
    ensures Fewer(t0.live, gone, |gone|) == t.live
  {
    hide H.Tab.Ok, H.Tab.Since;
    var all := set k | 0 <= k < |gone| :: gone[k].0;
    forall h | h in t0.live
      ensures h in all <==> h !in t.live
    {
      if h !in t.live {
        var i :| 0 <= i < |gone| && gone[i].0 == h;
      }
    }
  }

  lemma NotThere(t: H.Tab<nat>, id: nat)
    requires t.Ok()
    ensures id !in t.live ==> t.live - {id} == t.live && t.Since() - {id} == t.Since()
  {
  }

  lemma FreedFacts(t0: H.Tab<nat>, t: H.Tab<nat>, id: nat)
    requires H.FreedAs(t0, t, id)
    ensures t0.Ok() && t.Ok() && id in t0.live && t.live == t0.live - {id} && t.Since() == t0.Since() - {id}
    ensures t.takes == t0.takes
  {
  }

  lemma CountedLen(objects: seq<nat>, live: map<nat, nat>)
    requires Counted(objects, live)
    ensures |objects| == DESTROY
  {
  }
}
