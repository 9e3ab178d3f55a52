/** The scheduler's walk of a phase over a registry that shrinks while it is walked. What a step asks to have
    unregistered, itself or a sibling, is its own to say. */
module Ticks {
  import opened Prelude

  datatype Registered = Registered(id: nat, phase: nat)

  ghost predicate Distinct(rs: seq<Registered>) {
    forall i, j :: 0 <= i < j < |rs| ==> rs[i].id != rs[j].id
  }

  /** The steps whose ids are not in `gone`, in order. */
  function Kept(rs: seq<Registered>, gone: set<nat>): (ks: seq<Registered>)
    ensures |ks| <= |rs|
  {
    if rs == [] then []
    else
      var r := rs[|rs| - 1];
      if r.id in gone then Kept(rs[..|rs| - 1], gone) else Kept(rs[..|rs| - 1], gone) + [r]
  }

  /** The steps of a phase that run after those of `past`: each step there was, in its order, but those that steps run
      before it asked off. What a step asks off may hang on all that ran before it. Told over the registry as it was,
      with nothing taken out of it. */
  ghost function Runs(rs: seq<Registered>, phase: nat, past: seq<nat>, asks: seq<nat> -> seq<nat>): seq<nat> {
    if rs == [] then []
    else if rs[0].phase == phase && rs[0].id !in Gone(past, asks) then
      [rs[0].id] + Runs(rs[1..], phase, past + [rs[0].id], asks)
    else Runs(rs[1..], phase, past, asks)
  }

  /** What the steps run asked off. */
  ghost function Gone(ran: seq<nat>, asks: seq<nat> -> seq<nat>): set<nat> {
    set k, id | 0 <= k < |ran| && id in AskedBy(ran, k, asks) :: id
  }

  function AskedBy(ran: seq<nat>, k: nat, asks: seq<nat> -> seq<nat>): seq<nat>
    requires k < |ran|
  {
    asks(ran[..k + 1])
  }

  lemma {:induction false} KeptAll(rs: seq<Registered>)
    ensures Kept(rs, {}) == rs
  {
    if rs != [] {
      KeptAll(rs[..|rs| - 1]);
    }
  }

  lemma {:induction false} KeptSplit(rs: seq<Registered>, gone: set<nat>, k: nat)
    requires k <= |rs|
    ensures Kept(rs, gone) == Kept(rs[..k], gone) + Kept(rs[k..], gone)
  {
    if k == |rs| {
      assert rs[..k] == rs && rs[k..] == [];
    } else {
      var less := rs[..|rs| - 1];
      KeptSplit(less, gone, k);
      assert less[..k] == rs[..k] && less[k..] == rs[k..][..|rs| - k - 1];
    }
  }

  lemma {:induction false} KeptMember(rs: seq<Registered>, gone: set<nat>, r: Registered)
    ensures r in Kept(rs, gone) <==> r in rs && r.id !in gone
  {
    if rs != [] {
      var n := |rs| - 1;
      KeptMember(rs[..n], gone, r);
      assert r in rs <==> r in rs[..n] || r == rs[n];
    }
  }

  /** One more id gone: its step taken out of those kept, wherever it is. */
  lemma {:induction false} KeptLess(rs: seq<Registered>, gone: set<nat>, id: nat)
    ensures Kept(Kept(rs, gone), {id}) == Kept(rs, gone + {id})
  {
    if rs != [] {
      var n := |rs| - 1;
      KeptLess(rs[..n], gone, id);
      var less := Kept(rs[..n], gone);
      if rs[n].id !in gone {
        assert (less + [rs[n]])[..|less|] == less;
      }
    }
  }

  /** The step with an id taken out of a list in which ids are distinct. */
  lemma KeptWithout(rs: seq<Registered>, id: nat, at: nat)
    requires Distinct(rs) && at < |rs| && rs[at].id == id
    ensures Kept(rs, {id}) == rs[..at] + rs[at + 1..]
  {
    hide Kept;
    KeptSplit(rs, {id}, at);
    KeptSplit(rs[at..], {id}, 1);
    KeptSame(rs[..at], {id});
    KeptSame(rs[at + 1..], {id});
    assert rs[at..][1..] == rs[at + 1..] && rs[at..][..1] == [rs[at]];
    KeptNone([rs[at]], {id});
  }

  lemma {:induction false} KeptSame(rs: seq<Registered>, gone: set<nat>)
    requires forall k :: 0 <= k < |rs| ==> rs[k].id !in gone
    ensures Kept(rs, gone) == rs
  {
    if rs != [] {
      KeptSame(rs[..|rs| - 1], gone);
    }
  }

  lemma {:induction false} KeptDistinct(rs: seq<Registered>, gone: set<nat>)
    requires Distinct(rs)
    ensures Distinct(Kept(rs, gone))
  {
    if rs != [] {
      var n := |rs| - 1;
      KeptDistinct(rs[..n], gone);
      var less := Kept(rs[..n], gone);
      forall i | 0 <= i < |less|
        ensures less[i].id != rs[n].id
      {
        KeptMember(rs[..n], gone, less[i]);
      }
    }
  }

  class Tick {
    const capacity: nat
    var registry: seq<Registered>
    var nextId: nat

    ghost predicate Valid()
      reads this
    {
      && |registry| <= capacity && Distinct(registry)
      && forall k :: 0 <= k < |registry| ==> registry[k].id < nextId
    }

    constructor (capacity: nat)
      ensures Valid() && registry == [] && this.capacity == capacity
    {
      this.capacity := capacity;
      registry, nextId := [], 1;
    }

    method OnTick(phase: nat) returns (id: nat)
      requires Valid() && |registry| < capacity
      modifies this
      ensures Valid() && registry == old(registry) + [Registered(id, phase)]
      ensures forall k :: 0 <= k < |old(registry)| ==> old(registry)[k].id != id
    {
      id := nextId;
      nextId := nextId + 1;
      registry := registry + [Registered(id, phase)];
    }

    /** The step with an id taken out, and where it was. */
    method Remove(id: nat) returns (r: Option<nat>)
      requires Valid()
      modifies this`registry
      ensures Valid() && registry == Kept(old(registry), {id})
      ensures r.None? ==> registry == old(registry)
      ensures r.Some? ==> r.value < |old(registry)| && old(registry)[r.value].id == id
                          && registry == old(registry)[..r.value] + old(registry)[r.value + 1..]
    {
      var at := 0;
      while at < |registry|
        invariant at <= |registry| && registry == old(registry)
        invariant forall k :: 0 <= k < at ==> registry[k].id != id
      {
        if registry[at].id == id {
          KeptWithout(registry, id, at);
          KeptDistinct(registry, {id});
          registry := registry[..at] + registry[at + 1..];
          return Some(at);
        }
        at := at + 1;
      }
      KeptSame(registry, {id});
      return None;
    }

    /** What a step asked off taken out, the walk's place kept: the steps walked are those of `rs` that are left. */
    method TakeOff(ids: seq<nat>, at: nat, ghost rs: seq<Registered>, ghost k: nat, ghost gone: set<nat>) returns (i: nat)
      requires Valid() && at <= |registry| && k <= |rs|
      requires registry[..at] == Kept(rs[..k], gone) && registry[at..] == Kept(rs[k..], gone)
      modifies this`registry
      ensures Valid() && i <= |registry|
      ensures registry[..i] == Kept(rs[..k], gone + Elems(ids)) && registry[i..] == Kept(rs[k..], gone + Elems(ids))
    {
      hide Kept, Distinct;
      i := at;
      var j := 0;
      assert gone + Elems(ids[..0]) == gone;
      while j < |ids|
        invariant j <= |ids| && Valid() && i <= |registry|
        invariant registry[..i] == Kept(rs[..k], gone + Elems(ids[..j])) && registry[i..] == Kept(rs[k..], gone + Elems(ids[..j]))
      {
        ghost var before, g := registry, gone + Elems(ids[..j]);
        var off := Remove(ids[j]);
        Divided(before, i, ids[j], off, registry);
        KeptLess(rs[..k], g, ids[j]);
        KeptLess(rs[k..], g, ids[j]);
        assert Elems(ids[..j + 1]) == Elems(ids[..j]) + {ids[j]};
        assert gone + Elems(ids[..j + 1]) == g + {ids[j]};
        if off.Some? && off.value < i {
          i := i - 1;
        }
        j := j + 1;
      }
      assert ids[..j] == ids;
    }

    /** A phase walked: the steps run, in order. */
    method RunPhase(phase: nat, asks: seq<nat> -> seq<nat>) returns (ran: seq<nat>)
      requires Valid()
      modifies this`registry
      ensures Valid()
      ensures ran == Runs(old(registry), phase, [], asks)
      ensures registry == Kept(old(registry), Gone(ran, asks))
    {
      hide Kept, Runs, Gone, Distinct;
      ran := [];
      var i: nat := 0;
      ghost var rs, k: nat, gone := registry, 0, {};
      KeptAll(rs);
      KeptNone([], {});
      GoneNone(asks);
      assert rs[..0] == [] && rs[0..] == rs;
      while i < |registry|
        invariant Valid() && i <= |registry| && k <= |rs|
        invariant registry[..i] == Kept(rs[..k], gone) && registry[i..] == Kept(rs[k..], gone)
        invariant ran + Runs(rs[k..], phase, ran, asks) == Runs(rs, phase, [], asks)
        invariant gone == Gone(ran, asks)
        decreases |rs| - k
      {
        var r := registry[i];
        ghost var n := NextKept(rs, k, phase, ran, asks, registry[i..]);
        i := i + 1;
        Walked(registry, i, rs, k, n, gone);
        RunsNext(rs, n, phase, ran, asks);
        k := n + 1;
        if r.phase != phase {
          continue;
        }
        GoneMore(ran, r.id, asks);
        ran := ran + [r.id];
        i := TakeOff(asks(ran), i, rs, k, gone);
        gone := gone + Elems(asks(ran));
      }
      WalkEnds(registry, i, rs, k, phase, ran, asks);
    }
  }

  /** A list with one step out, either side of a place in it. */
  lemma Divided(before: seq<Registered>, i: nat, id: nat, off: Option<nat>, after: seq<Registered>)
    requires i <= |before| && Distinct(before) && after == Kept(before, {id})
    requires off.None? ==> after == before
    requires off.Some? ==> off.value < |before| && before[off.value].id == id && after == before[..off.value] + before[off.value + 1..]
    ensures var i' := if off.Some? && off.value < i then i - 1 else i;
            i' <= |after| && after[..i'] == Kept(before[..i], {id}) && after[i'..] == Kept(before[i..], {id})
  {
    KeptSplit(before, {id}, i);
    if off.Some? && off.value < i {
      KeptWithout(before[..i], id, off.value);
    } else {
      KeptFirst(before, i, id, off);
    }
  }

  lemma KeptFirst(before: seq<Registered>, i: nat, id: nat, off: Option<nat>)
    requires i <= |before| && Distinct(before)
    requires if off.Some? then i <= off.value < |before| && before[off.value].id == id else Kept(before, {id}) == before
    ensures Kept(before[..i], {id}) == before[..i]
  {
    forall k | 0 <= k < i
      ensures before[k].id != id
    {
      if off.None? {
        KeptMember(before, {id}, before[k]);
      }
    }
    KeptSame(before[..i], {id});
  }

  /** The next step left of those not yet walked, and its place among all there were. */
  lemma {:induction false} NextKept(rs: seq<Registered>, k: nat, phase: nat, ran: seq<nat>, asks: seq<nat> -> seq<nat>,
                                    rest: seq<Registered>)
    returns (n: nat)
    requires k <= |rs| && rest == Kept(rs[k..], Gone(ran, asks)) && rest != []
    ensures k <= n < |rs| && rs[n] == rest[0] && rs[n].id !in Gone(ran, asks)
    ensures forall j :: k <= j < n ==> rs[j].id in Gone(ran, asks)
    ensures Runs(rs[k..], phase, ran, asks) == Runs(rs[n..], phase, ran, asks)
    decreases |rs| - k
  {
    hide Gone;
    var gone := Gone(ran, asks);
    assert k < |rs|;
    assert rs[k..][1..] == rs[k + 1..] && rs[k..][..1] == [rs[k]];
    KeptSplit(rs[k..], gone, 1);
    if rs[k].id in gone {
      assert Kept([rs[k]], gone) == [];
      n := NextKept(rs, k + 1, phase, ran, asks, rest);
    } else {
      assert Kept([rs[k]], gone) == [rs[k]];
      n := k;
    }
  }

  lemma Walked(registry: seq<Registered>, i: nat, rs: seq<Registered>, k: nat, n: nat, gone: set<nat>)
    requires 0 < i <= |registry| && k <= n < |rs| && registry[i - 1] == rs[n] && rs[n].id !in gone
    requires registry[..i - 1] == Kept(rs[..k], gone) && registry[i - 1..] == Kept(rs[k..], gone)
    requires forall j :: k <= j < n ==> rs[j].id in gone
    ensures registry[..i] == Kept(rs[..n + 1], gone) && registry[i..] == Kept(rs[n + 1..], gone)
  {
    hide Kept;
    KeptTo(rs, k, n, gone);
    KeptFrom(rs, k, n, gone);
    assert registry[..i] == registry[..i - 1] + [registry[i - 1]];
    assert registry[i - 1..] == [registry[i - 1]] + registry[i..];
  }

  lemma KeptTo(rs: seq<Registered>, k: nat, n: nat, gone: set<nat>)
    requires k <= n < |rs| && rs[n].id !in gone && forall j :: k <= j < n ==> rs[j].id in gone
    ensures Kept(rs[..n + 1], gone) == Kept(rs[..k], gone) + [rs[n]]
  {
    var mid := rs[k..n];
    KeptNone(mid, gone);
    KeptSplit(rs[..n], gone, k);
    assert rs[..n][..k] == rs[..k] && rs[..n][k..] == mid;
    assert rs[..n + 1][..n] == rs[..n];
  }

  lemma KeptFrom(rs: seq<Registered>, k: nat, n: nat, gone: set<nat>)
    requires k <= n < |rs| && rs[n].id !in gone && forall j :: k <= j < n ==> rs[j].id in gone
    ensures Kept(rs[k..], gone) == [rs[n]] + Kept(rs[n + 1..], gone)
  {
    var mid := rs[k..n];
    KeptNone(mid, gone);
    KeptSplit(rs[k..], gone, n - k);
    assert rs[k..][..n - k] == mid && rs[k..][n - k..] == rs[n..];
    KeptSplit(rs[n..], gone, 1);
    assert rs[n..][..1] == [rs[n]] && rs[n..][1..] == rs[n + 1..];
    assert Kept([rs[n]], gone) == [rs[n]];
  }

  /** A step not gone runs where it is of the phase. */
  lemma RunsNext(rs: seq<Registered>, n: nat, phase: nat, ran: seq<nat>, asks: seq<nat> -> seq<nat>)
    requires n < |rs| && rs[n].id !in Gone(ran, asks)
    ensures Runs(rs[n..], phase, ran, asks)
            == if rs[n].phase == phase then [rs[n].id] + Runs(rs[n + 1..], phase, ran + [rs[n].id], asks)
               else Runs(rs[n + 1..], phase, ran, asks)
  {
    assert rs[n..][1..] == rs[n + 1..];
  }

  lemma {:induction false} KeptNone(rs: seq<Registered>, gone: set<nat>)
    requires forall k :: 0 <= k < |rs| ==> rs[k].id in gone
    ensures Kept(rs, gone) == []
  {
    if rs != [] {
      KeptNone(rs[..|rs| - 1], gone);
    }
  }

  lemma GoneNone(asks: seq<nat> -> seq<nat>)
    ensures Gone([], asks) == {}
  {
  }

  lemma GoneMore(ran: seq<nat>, id: nat, asks: seq<nat> -> seq<nat>)
    ensures Gone(ran + [id], asks) == Gone(ran, asks) + Elems(asks(ran + [id]))
  {
    var more := ran + [id];
    assert more[..|ran| + 1] == more;
    forall x
      ensures x in Gone(more, asks) <==> x in Gone(ran, asks) || x in asks(more)
    {
      if x in Gone(more, asks) {
        var k :| 0 <= k < |more| && x in AskedBy(more, k, asks);
        if k < |ran| {
          assert ran[..k + 1] == more[..k + 1];
          assert x in AskedBy(ran, k, asks);
        }
      }
      if x in Gone(ran, asks) {
        var k :| 0 <= k < |ran| && x in AskedBy(ran, k, asks);
        assert more[..k + 1] == ran[..k + 1] && x in AskedBy(more, k, asks);
      }
      if x in asks(more) {
        assert x in AskedBy(more, |ran|, asks);
      }
    }
  }

  /** With none left to walk, none is left to run. */
  lemma WalkEnds(registry: seq<Registered>, i: nat, rs: seq<Registered>, k: nat, phase: nat, ran: seq<nat>, asks: seq<nat> -> seq<nat>)
    requires i == |registry| && k <= |rs|
    requires registry[..i] == Kept(rs[..k], Gone(ran, asks)) && registry[i..] == Kept(rs[k..], Gone(ran, asks))
    ensures Runs(rs[k..], phase, ran, asks) == [] && registry == Kept(rs, Gone(ran, asks))
  {
    hide Gone;
    KeptSplit(rs, Gone(ran, asks), k);
    assert registry[..i] == registry && registry[i..] == [];
    NoneRuns(rs[k..], phase, ran, asks);
  }

  lemma {:induction false} NoneRuns(rs: seq<Registered>, phase: nat, ran: seq<nat>, asks: seq<nat> -> seq<nat>)
    requires Kept(rs, Gone(ran, asks)) == []
    ensures Runs(rs, phase, ran, asks) == []
  {
    hide Gone;
    if rs != [] {
      KeptMember(rs, Gone(ran, asks), rs[0]);
      KeptSplit(rs, Gone(ran, asks), 1);
      NoneRuns(rs[1..], phase, ran, asks);
    }
  }

  // What a walk runs

  /** The steps run stand in the registry at these places, one after another. */
  ghost predicate InOrder(rs: seq<Registered>, phase: nat, ran: seq<nat>, at: seq<nat>) {
    && |at| == |ran|
    && (forall i :: 0 <= i < |at| ==> at[i] < |rs| && rs[at[i]] == Registered(ran[i], phase))
    && (forall i, j :: 0 <= i < j < |at| ==> at[i] < at[j])
  }

  /** A step is asked off before the walk comes to its place: by one run before, or by one whose place is before it. */
  ghost predicate AskedOff(id: nat, place: nat, past: seq<nat>, ran: seq<nat>, at: seq<nat>, asks: seq<nat> -> seq<nat>)
    requires |at| == |ran|
  {
    id in Gone(past, asks) || exists i :: 0 <= i < |ran| && at[i] < place && id in asks(past + ran[..i + 1])
  }

  /** What runs, runs in the order of the registry; and of the phase's steps each runs exactly where it is not asked off
      before its turn. */
  lemma {:induction false} RunsAll(rs: seq<Registered>, phase: nat, past: seq<nat>, asks: seq<nat> -> seq<nat>) returns (at: seq<nat>)
    ensures InOrder(rs, phase, Runs(rs, phase, past, asks), at)
    ensures forall j :: 0 <= j < |rs| && rs[j].phase == phase ==>
              (j in at <==> !AskedOff(rs[j].id, j, past, Runs(rs, phase, past, asks), at, asks))
  {
    hide Gone;
    var ran := Runs(rs, phase, past, asks);
    if rs == [] {
      return [];
    }
    var r := rs[0];
    var runs := r.phase == phase && r.id !in Gone(past, asks);
    var past' := if runs then past + [r.id] else past;
    var rest := RunsAll(rs[1..], phase, past', asks);
    var more := Runs(rs[1..], phase, past', asks);
    at := Shifted(runs, rest);
    ShiftedOrder(rs, phase, runs, more, rest);
    forall j | 0 <= j < |rs| && rs[j].phase == phase
      ensures j in at <==> !AskedOff(rs[j].id, j, past, ran, at, asks)
    {
      ShiftedIn(runs, rest, j);
      if j > 0 {
        assert rs[1..][j - 1] == rs[j];
        ShiftedAsked(rs[j].id, j, past, r.id, runs, more, rest, asks);
      }
    }
  }

  /** Places one further on, and where the first step runs, its own before them. */
  function Shifted(runs: bool, rest: seq<nat>): (at: seq<nat>)
    ensures runs ==> |at| == |rest| + 1 && at[0] == 0 && forall i :: 1 <= i < |at| ==> at[i] == rest[i - 1] + 1
    ensures !runs ==> |at| == |rest| && forall i :: 0 <= i < |at| ==> at[i] == rest[i] + 1
  {
    var more := seq(|rest|, i requires 0 <= i < |rest| => rest[i] + 1);
    if runs then [0] + more else more
  }

  lemma ShiftedIn(runs: bool, rest: seq<nat>, j: nat)
    ensures j in Shifted(runs, rest) <==> if j == 0 then runs else j - 1 in rest
  {
    var at := Shifted(runs, rest);
    var n := if runs then 1 else 0;
    if j > 0 && j - 1 in rest {
      var i :| 0 <= i < |rest| && rest[i] == j - 1;
      assert at[i + n] == j;
    }
    if j in at {
      var i :| 0 <= i < |at| && at[i] == j;
      assert i >= n ==> rest[i - n] == j - 1;
    }
  }

  lemma ShiftedOrder(rs: seq<Registered>, phase: nat, runs: bool, more: seq<nat>, rest: seq<nat>)
    requires rs != [] && (runs ==> rs[0].phase == phase) && InOrder(rs[1..], phase, more, rest)
    ensures InOrder(rs, phase, if runs then [rs[0].id] + more else more, Shifted(runs, rest))
  {
    var at := Shifted(runs, rest);
    hide Shifted;
    var n := if runs then 1 else 0;
    var ran := if runs then [rs[0].id] + more else more;
    forall i | 0 <= i < |at|
      ensures at[i] < |rs| && rs[at[i]] == Registered(ran[i], phase)
    {
      if i >= n {
        assert rs[1..][rest[i - n]] == rs[at[i]];
      }
    }
    forall i, j | 0 <= i < j < |at|
      ensures at[i] < at[j]
    {
      assert at[j] == rest[j - n] + 1;
      assert i >= n ==> at[i] == rest[i - n] + 1;
    }
  }

  lemma ShiftedAsked(id: nat, j: nat, past: seq<nat>, first: nat, runs: bool, more: seq<nat>, rest: seq<nat>, asks: seq<nat> -> seq<nat>)
    requires j > 0 && |rest| == |more|
    ensures var past', ran := if runs then past + [first] else past, if runs then [first] + more else more;
            AskedOff(id, j - 1, past', more, rest, asks) <==> AskedOff(id, j, past, ran, Shifted(runs, rest), asks)
  {
    hide Gone;
    var at := Shifted(runs, rest);
    if runs {
      var past', ran := past + [first], [first] + more;
      GoneMore(past, first, asks);
      assert past + ran[..1] == past';
      forall i | 0 <= i < |more|
        ensures past' + more[..i + 1] == past + ran[..i + 1 + 1] && at[i + 1] == rest[i] + 1
      {
        assert ran[..i + 1 + 1] == [first] + more[..i + 1];
      }
      if AskedOff(id, j, past, ran, at, asks) && id !in Gone(past', asks) {
        var i :| 0 <= i < |ran| && at[i] < j && id in asks(past + ran[..i + 1]);
        assert i > 0;
        assert rest[i - 1] < j - 1 && past' + more[..i - 1 + 1] == past + ran[..i + 1];
      }
      if AskedOff(id, j - 1, past', more, rest, asks) && id !in Gone(past', asks) {
        var i :| 0 <= i < |more| && rest[i] < j - 1 && id in asks(past' + more[..i + 1]);
        assert at[i + 1] < j && id in asks(past + ran[..i + 1 + 1]);
      }
    } else {
      assert forall i :: 0 <= i < |at| ==> at[i] == rest[i] + 1;
    }
  }

  /** None runs twice, and none that was asked off before it. */
  lemma {:induction false} RunsOnce(rs: seq<Registered>, phase: nat, asks: seq<nat> -> seq<nat>)
    requires Distinct(rs)
    ensures var ran := Runs(rs, phase, [], asks);
            forall i, j :: 0 <= i < j < |ran| ==> ran[i] != ran[j] && ran[j] !in asks(ran[..i + 1])
  {
    hide Gone, Runs;
    var ran := Runs(rs, phase, [], asks);
    var at := RunsAll(rs, phase, [], asks);
    forall i, j | 0 <= i < j < |ran|
      ensures ran[i] != ran[j] && ran[j] !in asks(ran[..i + 1])
    {
      assert rs[at[j]] == Registered(ran[j], phase) && at[j] in at && at[i] < at[j];
      assert !AskedOff(ran[j], at[j], [], ran, at, asks);
      assert [] + ran[..i + 1] == ran[..i + 1];
    }
  }
}
