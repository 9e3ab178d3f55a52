/** A pipeline from the guest's call to the host's reading: made by the encoder, run at its slot, and read back. */
module GpuPipelines {
  import opened Streams
  import opened GpuRecords
  import opened GpuHost
  import opened Gpus
  import opened Prelude
  import H = Handles

  const RENDER_PIPELINE: nat := 9

  /** A pipeline's record past its handle. */
  function Described(d: Pipeline): seq<Item>
    requires Typed(d)
  {
    Put([Opt(d.layout), d.shader]) + Items(0, d)[3..]
  }

  lemma HandleFirst(id: nat, d: Pipeline)
    requires Typed(d)
    ensures [Word(id)] + Described(d) == Items(id, d)
  {
    hide BuffersItems, PrimitiveItems, DepthItems, MultisampleItems, FragmentItems;
    assert Put([id, Opt(d.layout), d.shader]) == [Word(id)] + Put([Opt(d.layout), d.shader]);
    assert Items(id, d)[3..] == Items(0, d)[3..];
  }

  lemma DescribedFlat(id: nat, d: Pipeline)
    requires Typed(d)
    ensures [id] + Flat(Described(d)) == Flat(Items(id, d))
  {
    hide Described, Items, Flat;
    HandleFirst(id, d);
    FlatFront(id, Described(d));
  }

  /** A pipeline's handle, its record written; none where there is no handle or no room. */
  method RenderPipeline(gpu: Gpu, stream: Stream, d: Pipeline) returns (r: Option<nat>)
    requires Typed(d) && gpu.Valid(stream) && (stream.mark.Off? ==> 3 + |Flat(Described(d))| <= stream.Left())
    modifies gpu.handles, gpu.handles.slots, gpu.objects, stream`len, stream`mark, stream`recs, stream.mem
    ensures gpu.Valid(stream)
    ensures r.Some? ==> && gpu.handles.tab.live == old(gpu.handles.tab.live)[r.value := RENDER_PIPELINE]
                        && stream.recs == old(stream.recs) + [Record(RENDER_PIPELINE, Flat(Items(r.value, d)))]
    ensures r.None? ==> gpu.handles.tab.live == old(gpu.handles.tab.live) && stream.recs == old(stream.recs)
  {
    hide Described, Items, Flat, Agreed, Counted, H.Table.Valid, Stream.Valid, Typed;
    r := gpu.Make(stream, RENDER_PIPELINE, Described(d));
    if r.Some? {
      DescribedFlat(r.value, d);
    }
  }

  /** The host's run of that record: the handle's slot holds the object, made of what the guest described as the host
      sees it, which is what it is exactly where it is plain. */
  method RunPipeline(far: Host, words: seq<nat>, ghost name: nat, ghost d: Pipeline) returns (p: Pipeline)
    requires Typed(d) && words == Flat(Items(name, d))
    modifies far
    ensures far.Slots() == old(far.Slots())[H.SlotOf(name) := RENDER_PIPELINE]
    ensures p == Seen(d) && (p == d <==> Plain(d))
  {
    hide Items, Described, Flat, Seen, Plain, Typed;
    DescribedFlat(name, d);
    assert words[0] == ([name] + Flat(Described(d)))[0];
    far.RunRecord(RENDER_PIPELINE, words);
    var r := new Words(words, Items(name, d));
    var id;
    id, p := ReadPipeline(r, name, d);
    SeenIffPlain(d);
  }
}
