/** Two runs of the encoder and the host, call by call, after which the two sides do not agree. */
module GpuRuns {
  import opened Bytes
  import opened Streams
  import opened GpuHost
  import opened GpuDrifts
  import opened Gpus
  import opened Prelude
  import H = Handles

  const BUFFER: nat := 1
  const WRITE_BUFFER: nat := 13

  /** The handles of a table's one slot as it is taken the first time and the second. */
  const FIRST: nat := 0x1_0001
  const SECOND: nat := 0x2_0001

  /** A table of one slot taken `n` times, a stream of 16 words, and how far the two sides are apart. */
  ghost predicate Now(gpu: Gpu, stream: Stream, live: map<nat, nat>, n: nat, d: Drift, words: nat)
    reads gpu, gpu.handles, gpu.handles.slots, gpu.objects, stream, stream.mem
  {
    && gpu.Valid(stream) && gpu.Drifted(stream) == d && gpu.handles.tab.live == live
    && gpu.handles.slots.Length == 2 && gpu.handles.tab.takes == [0, n]
    && stream.words == 16 && stream.head == 1 && |Encoded(stream.recs)| == words
  }

  method Begun() returns (gpu: Gpu, stream: Stream, far: Host)
    ensures Now(gpu, stream, map[], 0, NO_DRIFT, 0) && stream.mark.Off? && far.Slots() == gpu.host
    ensures fresh(gpu) && fresh(gpu.handles) && fresh(gpu.handles.slots) && fresh(gpu.objects)
    ensures fresh(stream) && fresh(stream.mem) && fresh(far)
  {
    hide Counted, H.Table.Valid, H.Tab.Ok, H.Tab.Since, Stream.Valid, Agreed, Between, RanAll, Own, Apart;
    gpu := new Gpu(2);
    far := new Host();
    var mem := new nat[16](_ => 0);
    stream := new Stream(mem, 0, 16, 1);
    TableOk(gpu.handles);
    AtFirst(stream.before, gpu.began, gpu.gone, gpu.handles.tab.Since());
  }

  lemma AtFirst(before: seq<Record>, began: map<nat, nat>, gone: set<nat>, since: set<nat>)
    ensures Agreed([], map[], [], before, Off, began, gone, map[], since) && |Encoded([])| == 0
    ensures AllShaped([]) && Between(RanAll(map[], []), map[]) == NO_DRIFT
  {
  }

  lemma RoomLeft(stream: Stream)
    requires stream.Valid()
    ensures stream.Left() == stream.words - stream.head - |Encoded(stream.recs)|
  {
    assert |Encoded(stream.recs)| == stream.len;
  }

  lemma TableLen(t: H.Table<nat>)
    requires t.Valid()
    ensures t.tab.Ok() && t.cnt == |t.tab.live| && |t.tab.sl| == t.slots.Length == |t.tab.takes|
  {
  }

  lemma OnlySlot(t0: H.Tab<nat>, t: H.Tab<nat>, h: nat, val: nat, n: nat)
    requires H.TakenAs(t0, t, h, val) && |t0.sl| == 2 && t0.takes == [0, n]
    ensures h == H.HandleOf(1, H.Generation(n + 1)) && t.takes == [0, n + 1]
  {
  }

  /** The only slot taken. */
  method Take(gpu: Gpu, stream: Stream, op: nat, items: seq<Item>, ghost n: nat, ghost words: nat) returns (h: nat)
    requires Now(gpu, stream, map[], n, NO_DRIFT, words) && stream.mark.Off? && Makes(op) && words + 3 + |Flat(items)| <= 15
    modifies gpu.handles, gpu.handles.slots, gpu.objects, stream`len, stream`mark, stream`recs, stream.mem
    ensures h == H.HandleOf(1, H.Generation(n + 1))
    ensures Now(gpu, stream, map[h := Kept(op)], n + 1, NO_DRIFT, words + 3 + |Flat(items)|) && stream.mark.Off?
  {
    hide Gpu.Valid, Gpu.Drifted, H.TakenAs, H.Table.Valid, H.Tab.Ok, Stream.Valid, Flat, Encoded, H.HandleOf, H.Generation;
    ghost var t, recs := gpu.handles.tab, stream.recs;
    Sides(gpu, stream);
    RoomLeft(stream);
    TableLen(gpu.handles);
    var r := gpu.Make(stream, op, items);
    OnlySlot(t, gpu.handles.tab, r.value, Kept(op), n);
    EncodedMore(recs, Record(op, [r.value] + Flat(items)));
    return r.value;
  }

  lemma Sides(gpu: Gpu, stream: Stream)
    requires gpu.Valid(stream)
    ensures gpu.handles.Valid() && stream.Valid()
  {
  }

  /** An encoder submitted, its slot taken by the next, and the first submitted again: the second is live, and the host
      has let its object go. */
  method SubmittedTwice() returns (gpu: Gpu, far: Host)
    ensures gpu.handles.tab.live == map[SECOND := 0] && far.Slots() == map[]
  {
    hide Gpu.Valid, Gpu.Drifted, FreedDrift, Between, H.Table.Valid, Flat, Encoded, Without, Kept;
    var stream;
    gpu, stream, far := Begun();
    Literals();
    var first := Take(gpu, stream, ENCODER, [], 0, 0);
    Submit(gpu, stream, first, map[FIRST := 0], 1, NO_DRIFT, 3);
    var second := Take(gpu, stream, ENCODER, [], 1, 7);
    Submit(gpu, stream, first, map[SECOND := 0], 2, Drift({SECOND}, {}), 10);
    gpu.Turn(stream, far);
    TurnDrift(gpu, stream);
    Lost(far.Slots(), SECOND, 0);
  }

  lemma Literals()
    ensures H.HandleOf(1, H.Generation(1)) == FIRST && H.HandleOf(1, H.Generation(2)) == SECOND
    ensures Makes(ENCODER) && Kept(ENCODER) == 0 && |Flat([])| == 0
    ensures Without(map[FIRST := 0], [FIRST]) == map[] && Without(map[SECOND := 0], [FIRST]) == map[SECOND := 0]
    ensures FreedDrift(NO_DRIFT, map[FIRST := 0], [FIRST]) == NO_DRIFT
    ensures FreedDrift(NO_DRIFT, map[SECOND := 0], [FIRST]) == Drift({SECOND}, {})
  {
    hide H.SlotOf;
    assert H.SlotOf(FIRST) == 1 == H.SlotOf(SECOND) by {
      Slots();
    }
    assert Elems([FIRST]) == {FIRST} && SlotsNamed([FIRST]) == {1};
    assert Robbed(map[FIRST := 0], [FIRST]) == {FIRST} && Robbed(map[SECOND := 0], [FIRST]) == {SECOND};
    assert map[FIRST := 0] - {FIRST} == map[] && map[SECOND := 0] - {FIRST} == map[SECOND := 0];
  }

  lemma Slots()
    ensures H.SlotOf(FIRST) == 1 == H.SlotOf(SECOND)
  {
  }

  method Submit(gpu: Gpu, stream: Stream, h: nat, ghost live: map<nat, nat>, ghost n: nat, ghost d: Drift, ghost words: nat)
    requires Now(gpu, stream, live, n, NO_DRIFT, words) && stream.mark.Off? && words <= 11
    requires FreedDrift(NO_DRIFT, live, [h]) == d
    modifies gpu`gone, gpu.handles`free, gpu.handles`cnt, gpu.handles`tab, gpu.handles.slots, gpu.objects
    modifies stream`len, stream`mark, stream`recs, stream.mem
    ensures Now(gpu, stream, Without(live, [h]), n, d, words + 4) && stream.mark.Off?
  {
    hide Gpu.Valid, Gpu.Drifted, H.Table.Valid, Stream.Valid, Encoded, FreedDrift, Without;
    ghost var recs := stream.recs;
    Sides(gpu, stream);
    RoomLeft(stream);
    var sent := gpu.Submit(stream, [h]);
    EncodedMore(recs, Record(SUBMIT, [1] + [h]));
  }

  lemma TurnDrift(gpu: Gpu, stream: Stream)
    requires gpu.Valid(stream) && stream.recs == []
    ensures gpu.Drifted(stream) == Between(gpu.host, gpu.handles.tab.live)
  {
  }

  lemma Lost(slots: map<nat, nat>, h: nat, val: nat)
    requires Between(slots, map[h := val]) == Drift({h}, {})
    ensures slots == map[]
  {
    hide H.SlotOf;
    var d := Between(slots, map[h := val]);
    assert h in d.lost;
    assert SlotsOf(map[h := val]) == {H.SlotOf(h)};
    assert slots.Keys == d.left;
  }

  /** A buffer made, then destroyed in a transaction whose write does not fit: nothing is live, and the host keeps the
      object. */
  method DestroyedThenSpilled() returns (gpu: Gpu, far: Host, fit: bool)
    ensures !fit && gpu.handles.tab.live == map[] && far.Slots().Keys == {1}
  {
    hide Gpu.Valid, Gpu.Drifted, Gpu.DriftBefore, Between, H.Table.Valid, Stream.Valid, Flat, Encoded, Kept, SpilledDrift, RanAll;
    var stream;
    gpu, stream, far := Begun();
    Made();
    var buffer := Take(gpu, stream, BUFFER, [Word(16), Word(8), Word(0)], 0, 0);
    gpu.Begin(stream);
    DestroyAndWrite(gpu, stream, buffer);
    assert gpu.gone == {FIRST};
    Spills();
    fit := gpu.Commit(stream);
    gpu.Turn(stream, far);
    TurnDrift(gpu, stream);
    LeftOver(far.Slots());
  }

  /** In a transaction with six of a stream's fifteen words taken: a buffer destroyed, and a write of nine words. */
  method DestroyAndWrite(gpu: Gpu, stream: Stream, h: nat)
    requires gpu.Valid(stream) && stream.mark.Open? && stream.recs == stream.before && h in gpu.handles.tab.live
    requires stream.words == 16 && stream.head == 1 && |Encoded(stream.recs)| == 6
    modifies gpu`gone, gpu.handles`free, gpu.handles`cnt, gpu.handles`tab, gpu.handles.slots, gpu.objects
    modifies stream`len, stream`mark, stream`recs, stream.mem
    ensures gpu.Valid(stream) && stream.mark.Spilled? && gpu.gone == old(gpu.gone) + {h}
    ensures gpu.DriftBefore(stream) == old(gpu.DriftBefore(stream))
  {
    hide Gpu.Valid, Gpu.Drifted, Gpu.DriftBefore, Between, H.Table.Valid, Stream.Valid, Flat, Encoded, RanAll, DestroyedDrift;
    BeganDrift(gpu, stream);
    gpu.Destroy(stream, h);
    Sides(gpu, stream);
    RoomLeft(stream);
    EncodedMore(stream.before, Record(DESTROY, [h]));
    WriteWords(h);
    var sent := gpu.Call(stream, WRITE_BUFFER, [Word(h), Word(0), Text(Zeros(16))]);
    BeganDrift(gpu, stream);
  }

  lemma BeganDrift(gpu: Gpu, stream: Stream)
    requires gpu.Valid(stream) && !stream.mark.Off?
    ensures AllShaped(stream.before) && gpu.DriftBefore(stream) == Between(RanAll(gpu.host, stream.before), gpu.began)
  {
  }

  lemma Made()
    ensures H.HandleOf(1, H.Generation(1)) == FIRST && Makes(BUFFER) && Kept(BUFFER) == BUFFER
    ensures |Flat([Word(16), Word(8), Word(0)])| == 3
  {
    FlatWords([16, 8, 0]);
    assert Words([16, 8, 0]) == [Word(16), Word(8), Word(0)];
  }

  lemma WriteWords(h: nat)
    ensures |Flat([Word(h), Word(0), Text(Zeros(16))])| == 7
  {
    var items := [Word(h), Word(0), Text(Zeros(16))];
    FlatFront(h, items[1..]);
    FlatFront(0, items[2..]);
    assert items == [Word(h)] + items[1..] && items[1..] == [Word(0)] + items[2..];
    assert items[2..][..0] == [];
    assert Flat(items[2..]) == Flat([]) + ItemWords(Text(Zeros(16)));
  }

  lemma Spills()
    ensures SpilledDrift(NO_DRIFT, map[FIRST := BUFFER], {FIRST}) == Drift({}, {1}) && map[FIRST := BUFFER] - {FIRST} == map[]
  {
    Slots();
  }

  lemma LeftOver(slots: map<nat, nat>)
    requires Between(slots, map[]) == Drift({}, {1})
    ensures slots.Keys == {1}
  {
    assert SlotsOf(map[]) == {};
  }
}
