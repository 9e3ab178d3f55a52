/** A pipeline's record word for word: in the order the protocol gives its fields, and as a golden record of one has it. */
module GpuGoldens {
  import opened Bytes
  import opened Streams
  import opened GpuRecords
  import G = Gpus
  import opened Prelude

  lemma {:induction false} FlatJoin(a: seq<Item>, b: seq<Item>)
    ensures Flat(a + b) == Flat(a) + Flat(b)
  {
    hide ItemWords;
    if b == [] {
      assert a + b == a;
    } else {
      var n := |b| - 1;
      FlatJoin(a, b[..n]);
      assert (a + b)[..|a| + n] == a + b[..n];
    }
  }

  lemma PutFlat(ws: seq<nat>)
    ensures Flat(Put(ws)) == ws
  {
    G.FlatWords(ws);
    assert Put(ws) == G.Words(ws);
  }

  /** A name of two bytes as a word. */
  function Name(b: seq<Byte>): nat
    requires |b| == 2
  {
    var (low: int, high: int) := (b[0], b[1]);
    low + 0x100 * high
  }

  /** A word of a text's bytes, the first the least. */
  lemma WordBytes(b: seq<Byte>, k: nat)
    requires 4 * k + 4 <= |b|
    ensures var (x: int, y: int, z: int, t: int) := (b[4 * k], b[4 * k + 1], b[4 * k + 2], b[4 * k + 3]);
            WordOf(b, k) == x + 0x100 * y + 0x1_0000 * z + 0x100_0000 * t
  {
  }

  lemma TextFlat(b: seq<Byte>)
    requires |b| == 2
    ensures Flat([Text(b)]) == [2, Name(b)]
  {
    assert [Text(b)][..0] == [];
    assert ItemWords(Text(b)) == [2, WordOf(b, 0)];
  }

  lemma ShaderFlat(id: nat, d: Pipeline)
    ensures Flat(Put([id, Opt(d.layout), d.shader])) == [id, if d.layout.Some? then d.layout.value else 0xffff_ffff, d.shader]
  {
    PutFlat([id, Opt(d.layout), d.shader]);
  }

  /** One buffer's words, one attribute in it. */
  lemma BufferFlat(b: VertexBuffer, a: Attribute)
    requires b.attributes == [a]
    ensures Flat(BuffersItems([b])) == [b.stride, b.step, 1, a.format, a.offset, a.location]
  {
    assert [a][1..] == [] && [b][1..] == [];
    PutFlat([b.stride, b.step, 1]);
    PutFlat([a.format, a.offset, a.location]);
    FlatJoin(Put([b.stride, b.step, 1]), Put([a.format, a.offset, a.location]));
    assert AttributesItems([a]) == Put([a.format, a.offset, a.location]);
    assert BuffersItems([b]) == Put([b.stride, b.step, 1]) + Put([a.format, a.offset, a.location]);
  }

  lemma PrimitiveFlat(p: Primitive)
    ensures Flat(PrimitiveItems(p)) == [p.topology, if p.stripFormat.Some? then p.stripFormat.value else 0xffff_ffff, p.frontFace, p.cull,
                                        if p.unclippedDepth then 1 else 0]
  {
    PutFlat([p.topology, Opt(p.stripFormat), p.frontFace, p.cull, Flag(p.unclippedDepth)]);
  }

  function StencilWords(f: Stencil): seq<nat> {
    [f.compare, f.fail, f.depthFail, f.pass]
  }

  lemma DepthFlat(s: DepthStencil)
    requires -0x8000_0000 <= s.bias < 0x8000_0000
    ensures Flat(DepthItems(Some(s)))
            == [s.format, if s.depthWrite then 1 else 0, s.depthCompare] + StencilWords(s.front) + StencilWords(s.back)
               + [s.readMask, s.writeMask, if s.bias < 0 then s.bias + 0x1_0000_0000 else s.bias, s.slopeScale, s.clamp]
  {
    var a, f, b, c := Put([s.format, Flag(s.depthWrite), s.depthCompare]), StencilItems(s.front), StencilItems(s.back), BiasItems(s);
    PutFlat([s.format, Flag(s.depthWrite), s.depthCompare]);
    PutFlat(StencilWords(s.front));
    PutFlat(StencilWords(s.back));
    PutFlat([s.readMask, s.writeMask, Signed(s.bias), s.slopeScale, s.clamp]);
    FlatJoin(a, f);
    FlatJoin(a + f, b);
    FlatJoin(a + f + b, c);
  }

  lemma NoDepthFlat()
    ensures Flat(DepthItems(None)) == [0xffff_ffff, 0, 0] + [0, 0, 0, 0] + [0, 0, 0, 0] + [0, 0, 0, 0, 0]
  {
    var a, f, c := Put([NONE, 0, 0]), StencilItems(Stencil(0, 0, 0, 0)), Put([0, 0, 0, 0, 0]);
    PutFlat([NONE, 0, 0]);
    PutFlat([0, 0, 0, 0]);
    PutFlat([0, 0, 0, 0, 0]);
    FlatJoin(a, f);
    FlatJoin(a + f, f);
    FlatJoin(a + f + f, c);
  }

  lemma MultisampleFlat(m: Multisample)
    ensures Flat(MultisampleItems(m)) == [m.count, m.mask, if m.alphaToCoverage then 1 else 0]
  {
    PutFlat([m.count, m.mask, Flag(m.alphaToCoverage)]);
  }

  lemma TargetFlat(t: Target)
    ensures Flat(TargetsItems([t]))
            == [t.format]
               + (match t.blend
                  case Some(b) => [b.colorOp, b.colorSrc, b.colorDst, b.alphaOp, b.alphaSrc, b.alphaDst]
                  case None => [0xffff_ffff, 0, 0, 0, 0, 0])
               + [t.writeMask]
  {
    var b := match t.blend
             case Some(b) => [b.colorOp, b.colorSrc, b.colorDst, b.alphaOp, b.alphaSrc, b.alphaDst]
             case None => [NONE, 0, 0, 0, 0, 0];
    assert [t][1..] == [];
    assert TargetsItems([t]) == Put([t.format]) + Put(b) + Put([t.writeMask]);
    PutFlat([t.format]);
    PutFlat(b);
    PutFlat([t.writeMask]);
    FlatJoin(Put([t.format]), Put(b));
    FlatJoin(Put([t.format]) + Put(b), Put([t.writeMask]));
  }

  lemma FragmentFlat(f: Fragment, t: Target)
    requires f.targets == [t] && |f.entry| == 2
    ensures Flat(FragmentItems(Some(f))) == [f.shader] + ([2, Name(f.entry)] + ([1] + Flat(TargetsItems([t]))))
  {
    hide TargetsItems;
    var rest := Put([1]) + TargetsItems([t]);
    PutFlat([f.shader]);
    TextFlat(f.entry);
    PutFlat([1]);
    FlatJoin(Put([1]), TargetsItems([t]));
    FlatJoin([Text(f.entry)], rest);
    FlatJoin(Put([f.shader]), [Text(f.entry)] + rest);
  }

  /** A record's parts in order: the handle, the layout and the shader; its entry; the buffers; the primitive; depth and
      stencil; the samples; and the fragment. */
  lemma RecordParts(id: nat, d: Pipeline)
    requires Typed(d)
    ensures Flat(Items(id, d))
            == Flat(Put([id, Opt(d.layout), d.shader]))
               + (Flat([Text(d.entry)])
                  + ([|d.buffers|]
                     + (Flat(BuffersItems(d.buffers))
                        + (Flat(PrimitiveItems(d.primitive))
                           + (Flat(DepthItems(d.depth)) + (Flat(MultisampleItems(d.multisample)) + Flat(FragmentItems(d.fragment))))))))
  {
    hide BuffersItems, PrimitiveItems, DepthItems, MultisampleItems, FragmentItems, Put, Flat;
    var b, p, z, m, f := BuffersItems(d.buffers), PrimitiveItems(d.primitive), DepthItems(d.depth), MultisampleItems(d.multisample), FragmentItems(d.fragment);
    PutFlat([|d.buffers|]);
    FlatJoin(m, f);
    FlatJoin(z, m + f);
    FlatJoin(p, z + (m + f));
    FlatJoin(b, p + (z + (m + f)));
    FlatJoin(Put([|d.buffers|]), b + (p + (z + (m + f))));
    FlatJoin([Text(d.entry)], Put([|d.buffers|]) + (b + (p + (z + (m + f)))));
    FlatJoin(Put([id, Opt(d.layout), d.shader]), [Text(d.entry)] + (Put([|d.buffers|]) + (b + (p + (z + (m + f))))));
  }

  /** The triangle's pipeline: entries "vs" and "fs", one target. */
  const TRIANGLE := Pipeline(None, 0x1_0003, [0x76, 0x73], [], Primitive(3, None, 0, 0, false), None, Multisample(1, 0xffff_ffff, false),
                             Some(Fragment(0x1_0003, [0x66, 0x73], [Target(0x11, None, 0xf)])))

  lemma TriangleRecord()
    ensures Typed(TRIANGLE)
    ensures Encoded([Record(9, Flat(Items(0x1_0004, TRIANGLE)))])
            == [9, 0x2a]
               + ([0x1_0004, 0xffff_ffff, 0x1_0003]
                  + ([2, 0x7376]
                     + ([0]
                        + ([]
                           + ([3, 0xffff_ffff, 0, 0, 0]
                              + ([0xffff_ffff, 0, 0] + [0, 0, 0, 0] + [0, 0, 0, 0] + [0, 0, 0, 0, 0]
                                 + ([1, 0xffff_ffff, 0]
                                    + ([0x1_0003] + ([2, 0x7366] + ([1] + ([0x11] + [0xffff_ffff, 0, 0, 0, 0, 0] + [0xf])))))))))))
  {
    hide Items, BuffersItems, PrimitiveItems, DepthItems, MultisampleItems, FragmentItems, TargetsItems, Put, Flat, Encoded;
    RecordParts(0x1_0004, TRIANGLE);
    ShaderFlat(0x1_0004, TRIANGLE);
    TextFlat([0x76, 0x73]);
    NoBuffers();
    PrimitiveFlat(TRIANGLE.primitive);
    NoDepthFlat();
    MultisampleFlat(TRIANGLE.multisample);
    FragmentFlat(TRIANGLE.fragment.value, Target(0x11, None, 0xf));
    TargetFlat(Target(0x11, None, 0xf));
    EncodedMore([], Record(9, Flat(Items(0x1_0004, TRIANGLE))));
    assert [] + [Record(9, Flat(Items(0x1_0004, TRIANGLE)))] == [Record(9, Flat(Items(0x1_0004, TRIANGLE)))];
    NoRecords();
  }

  lemma NoBuffers()
    ensures Flat(BuffersItems([])) == [] && |Flat([])| == 0
  {
  }

  lemma NoRecords()
    ensures Encoded([]) == []
  {
  }
}
