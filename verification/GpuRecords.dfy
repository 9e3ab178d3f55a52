/** A render pipeline as the guest's encoder writes it and as the host's cursor reads it. Enumerations are their
    numbers and floats their bits. */
module GpuRecords {
  import opened Bytes
  import opened Streams
  import opened Prelude
  import Utf8

  /** What an optional field holds where it is unset. */
  const NONE: nat := 0xffff_ffff

  datatype Stencil = Stencil(compare: nat, fail: nat, depthFail: nat, pass: nat)

  datatype DepthStencil = DepthStencil(format: nat, depthWrite: bool, depthCompare: nat, front: Stencil, back: Stencil,
                                       readMask: nat, writeMask: nat, bias: int, slopeScale: nat, clamp: nat)

  datatype Attribute = Attribute(format: nat, offset: nat, location: nat)

  datatype VertexBuffer = VertexBuffer(stride: nat, step: nat, attributes: seq<Attribute>)

  datatype Blend = Blend(colorOp: nat, colorSrc: nat, colorDst: nat, alphaOp: nat, alphaSrc: nat, alphaDst: nat)

  datatype Target = Target(format: nat, blend: Option<Blend>, writeMask: nat)

  datatype Fragment = Fragment(shader: nat, entry: seq<Byte>, targets: seq<Target>)

  datatype Primitive = Primitive(topology: nat, stripFormat: Option<nat>, frontFace: nat, cull: nat, unclippedDepth: bool)

  datatype Multisample = Multisample(count: nat, mask: nat, alphaToCoverage: bool)

  datatype Pipeline = Pipeline(layout: Option<nat>, shader: nat, entry: seq<Byte>, buffers: seq<VertexBuffer>,
                               primitive: Primitive, depth: Option<DepthStencil>, multisample: Multisample,
                               fragment: Option<Fragment>)

  // Written

  function Opt(v: Option<nat>): nat {
    match v case None => NONE case Some(x) => x
  }

  function Flag(b: bool): nat {
    if b then 1 else 0
  }

  /** A signed 32-bit number's bits. */
  function Signed(i: int): nat
    requires -0x8000_0000 <= i < 0x8000_0000
  {
    if i < 0 then i + U32 else i
  }

  function Put(ws: seq<nat>): (items: seq<Item>)
    ensures |items| == |ws|
    ensures forall k :: 0 <= k < |ws| ==> items[k] == Word(ws[k])
  {
    seq(|ws|, k requires 0 <= k < |ws| => Word(ws[k]))
  }

  predicate Typed(d: Pipeline) {
    d.depth.Some? ==> -0x8000_0000 <= d.depth.value.bias < 0x8000_0000
  }

  function AttributeItems(a: Attribute): seq<Item> {
    Put([a.format, a.offset, a.location])
  }

  function AttributesItems(a: seq<Attribute>): seq<Item> {
    if a == [] then [] else AttributeItems(a[0]) + AttributesItems(a[1..])
  }

  function BufferItems(b: VertexBuffer): seq<Item> {
    Put([b.stride, b.step, |b.attributes|]) + AttributesItems(b.attributes)
  }

  function BuffersItems(b: seq<VertexBuffer>): seq<Item> {
    if b == [] then [] else BufferItems(b[0]) + BuffersItems(b[1..])
  }

  function StencilItems(f: Stencil): seq<Item> {
    Put([f.compare, f.fail, f.depthFail, f.pass])
  }

  function BiasItems(s: DepthStencil): seq<Item>
    requires -0x8000_0000 <= s.bias < 0x8000_0000
  {
    Put([s.readMask, s.writeMask, Signed(s.bias), s.slopeScale, s.clamp])
  }

  /** Present either way, so that the record's shape is fixed. */
  function DepthItems(d: Option<DepthStencil>): seq<Item>
    requires d.Some? ==> -0x8000_0000 <= d.value.bias < 0x8000_0000
  {
    match d
    case Some(s) =>
      Put([s.format, Flag(s.depthWrite), s.depthCompare]) + StencilItems(s.front) + StencilItems(s.back) + BiasItems(s)
    case None =>
      Put([NONE, 0, 0]) + StencilItems(Stencil(0, 0, 0, 0)) + StencilItems(Stencil(0, 0, 0, 0)) + Put([0, 0, 0, 0, 0])
  }

  function TargetItems(t: Target): seq<Item> {
    Put([t.format])
    + (match t.blend
       case Some(b) => Put([b.colorOp, b.colorSrc, b.colorDst, b.alphaOp, b.alphaSrc, b.alphaDst])
       case None => Put([NONE, 0, 0, 0, 0, 0]))
    + Put([t.writeMask])
  }

  function TargetsItems(t: seq<Target>): seq<Item> {
    if t == [] then [] else TargetItems(t[0]) + TargetsItems(t[1..])
  }

  function FragmentItems(f: Option<Fragment>): seq<Item> {
    match f
    case Some(fr) => Put([fr.shader]) + ([Text(fr.entry)] + (Put([|fr.targets|]) + TargetsItems(fr.targets)))
    case None => Put([NONE]) + ([Text([])] + (Put([0]) + []))
  }

  function PrimitiveItems(p: Primitive): seq<Item> {
    Put([p.topology, Opt(p.stripFormat), p.frontFace, p.cull, Flag(p.unclippedDepth)])
  }

  function MultisampleItems(m: Multisample): seq<Item> {
    Put([m.count, m.mask, Flag(m.alphaToCoverage)])
  }

  /** A pipeline's record, its words in the order the spec gives them. */
  function Items(id: nat, d: Pipeline): (items: seq<Item>)
    requires Typed(d)
  {
    Put([id, Opt(d.layout), d.shader])
    + ([Text(d.entry)]
       + (Put([|d.buffers|])
          + (BuffersItems(d.buffers)
             + (PrimitiveItems(d.primitive) + (DepthItems(d.depth) + (MultisampleItems(d.multisample) + FragmentItems(d.fragment)))))))
  }

  // As the host sees it

  /** A field that holds `NONE` reads as unset. */
  function SeenOpt(v: Option<nat>): Option<nat> {
    if v == Some(NONE) then None else v
  }

  function SeenTarget(t: Target): Target {
    if t.blend.Some? && t.blend.value.colorOp == NONE then t.(blend := None) else t
  }

  function SeenTargets(t: seq<Target>): (r: seq<Target>)
    ensures |r| == |t|
    ensures forall k :: 0 <= k < |t| ==> r[k] == SeenTarget(t[k])
  {
    if t == [] then [] else [SeenTarget(t[0])] + SeenTargets(t[1..])
  }

  /** What the host makes of a pipeline's record. */
  ghost function Seen(d: Pipeline): Pipeline {
    d.(layout := SeenOpt(d.layout), entry := Utf8.Reading(d.entry),
       primitive := d.primitive.(stripFormat := SeenOpt(d.primitive.stripFormat)),
       depth := if d.depth.Some? && d.depth.value.format == NONE then None else d.depth,
       fragment := if d.fragment.None? || d.fragment.value.shader == NONE then None
                   else Some(d.fragment.value.(entry := Utf8.Reading(d.fragment.value.entry), targets := SeenTargets(d.fragment.value.targets))))
  }

  /** No optional value is the one that stands for none, and the entries' names are UTF-8. */
  ghost predicate Plain(d: Pipeline) {
    && d.layout != Some(NONE) && d.primitive.stripFormat != Some(NONE)
    && (d.depth.Some? ==> d.depth.value.format != NONE)
    && Utf8.Text(d.entry)
    && (d.fragment.Some? ==> d.fragment.value.shader != NONE && Utf8.Text(d.fragment.value.entry)
                             && forall k :: 0 <= k < |d.fragment.value.targets| ==> PlainTarget(d.fragment.value.targets[k]))
  }

  predicate PlainTarget(t: Target) {
    t.blend.Some? ==> t.blend.value.colorOp != NONE
  }

  /** The host sees what the guest described exactly where it is plain. */
  lemma SeenIffPlain(d: Pipeline)
    ensures Seen(d) == d <==> Plain(d)
  {
    Utf8.ReadingKeepsText(d.entry);
    if d.fragment.Some? {
      Utf8.ReadingKeepsText(d.fragment.value.entry);
      var t := d.fragment.value.targets;
      TargetsIff(t);
    }
  }

  /** A pipeline whose layout is the handle that stands for none, made of one shader's unnamed entry. */
  const LAYOUT_NONE := Pipeline(Some(NONE), 0x1_0001, [], [], Primitive(0, None, 0, 0, false), None, Multisample(1, NONE, false), None)

  /** Its record is that of the pipeline with no layout, which is what the host sees. */
  lemma LayoutLost(id: nat)
    ensures Typed(LAYOUT_NONE)
    ensures var bare := LAYOUT_NONE.(layout := None);
            Typed(bare) && Items(id, LAYOUT_NONE) == Items(id, bare) && Seen(LAYOUT_NONE) == bare == Seen(bare) && bare != LAYOUT_NONE
  {
    Utf8.ReadingKeepsText([]);
    SeenIffPlain(LAYOUT_NONE.(layout := None));
  }

  lemma TargetsIff(t: seq<Target>)
    ensures SeenTargets(t) == t <==> forall k :: 0 <= k < |t| ==> PlainTarget(t[k])
  {
    forall k | 0 <= k < |t|
      ensures SeenTarget(t[k]) == t[k] <==> PlainTarget(t[k])
    {
    }
    if SeenTargets(t) == t {
      forall k | 0 <= k < |t|
        ensures PlainTarget(t[k])
      {
        assert SeenTargets(t)[k] == t[k];
      }
    }
  }

  // The cursor

  /** Items' words, the first item's first. */
  function Ahead(items: seq<Item>): (w: seq<nat>) {
    if items == [] then [] else ItemWords(items[0]) + Ahead(items[1..])
  }

  lemma {:induction false} AheadFlat(items: seq<Item>)
    ensures Ahead(items) == Flat(items)
  {
    hide ItemWords;
    if items != [] {
      var n := |items| - 1;
      AheadFlat(items[1..]);
      AheadFlat(items[..n]);
      if n > 0 {
        AheadFlat(items[1..n]);
        FlatEnds(items);
      } else {
        assert items[..0] == [] && items[1..] == [];
      }
    }
  }

  lemma FlatEnds(items: seq<Item>)
    requires |items| > 1
    ensures var n := |items| - 1;
            && Flat(items[1..]) == Flat(items[1..n]) + ItemWords(items[n])
            && Ahead(items[..n]) == ItemWords(items[0]) + Ahead(items[1..n])
  {
    hide ItemWords;
    var n := |items| - 1;
    assert items[1..][..n - 1] == items[1..n] && items[..n][1..] == items[1..n];
  }

  /** A word's byte `j`, low first. */
  function ByteOf(w: nat, j: nat): Byte {
    if j == 0 then w % 256 else if j == 1 then w / 256 % 256 else if j == 2 then w / 256 / 256 % 256 else w / 256 / 256 / 256 % 256
  }

  /** The first `n` bytes of some words. */
  function Unpacked(ws: seq<nat>, n: nat): (b: seq<Byte>)
    requires n <= 4 * |ws|
    ensures |b| == n
    ensures forall i :: 0 <= i < n ==> b[i] == ByteOf(ws[i / 4], i % 4)
  {
    seq(n, i requires 0 <= i < n => ByteOf(ws[i / 4], i % 4))
  }

  lemma Unchunked(b: seq<Byte>)
    ensures Unpacked(Chunks(b, WordsIn(|b|)), |b|) == b
  {
    forall i | 0 <= i < |b|
      ensures ByteOf(WordOf(b, i / 4), i % 4) == b[i]
    {
      WordBytes(b, i / 4);
    }
  }

  lemma WordBytes(b: seq<Byte>, k: nat)
    ensures ByteOf(WordOf(b, k), 0) == ByteAt(b, 4 * k) && ByteOf(WordOf(b, k), 1) == ByteAt(b, 4 * k + 1)
    ensures ByteOf(WordOf(b, k), 2) == ByteAt(b, 4 * k + 2) && ByteOf(WordOf(b, k), 3) == ByteAt(b, 4 * k + 3)
  {
  }

  /** A record's words, read in order. */
  class Words {
    const w: seq<nat>
    var at: nat
    /** What the words yet to read were put as. */
    ghost var ahead: seq<Item>

    ghost predicate Valid()
      reads this
    {
      at <= |w| && w[at..] == Ahead(ahead)
    }

    constructor (w: seq<nat>, ghost items: seq<Item>)
      requires w == Flat(items)
      ensures Valid() && ahead == items
    {
      AheadFlat(items);
      this.w := w;
      at := 0;
      ahead := items;
    }

    method U() returns (v: nat)
      requires Valid() && ahead != [] && ahead[0].Word?
      modifies this
      ensures Valid() && v == old(ahead)[0].v && ahead == old(ahead)[1..]
    {
      assert w[at..][1..] == w[at + 1..];
      v := w[at];
      at := at + 1;
      ahead := ahead[1..];
    }

    method I() returns (v: int)
      requires Valid() && ahead != [] && ahead[0].Word?
      modifies this
      ensures Valid() && ahead == old(ahead)[1..]
      ensures forall i :: -0x8000_0000 <= i < 0x8000_0000 && old(ahead)[0].v == Signed(i) ==> v == i
    {
      var x := U();
      v := if x >= 0x8000_0000 then x - U32 else x;
    }

    method ReadFlag() returns (v: bool)
      requires Valid() && ahead != [] && ahead[0].Word?
      modifies this
      ensures Valid() && ahead == old(ahead)[1..] && v == (old(ahead)[0].v != 0)
    {
      var x := U();
      v := x != 0;
    }

    method ReadOpt() returns (v: Option<nat>)
      requires Valid() && ahead != [] && ahead[0].Word?
      modifies this
      ensures Valid() && ahead == old(ahead)[1..]
      ensures v == if old(ahead)[0].v == NONE then None else Some(old(ahead)[0].v)
    {
      var x := U();
      v := if x == NONE then None else Some(x);
    }

    /** A count, then the bytes, padded to words. */
    method ReadBytes() returns (b: seq<Byte>)
      requires Valid() && ahead != [] && ahead[0].Text?
      modifies this
      ensures Valid() && b == old(ahead)[0].b && ahead == old(ahead)[1..]
    {
      var n := w[at];
      ghost var text, rest := ahead[0].b, Ahead(ahead[1..]);
      TextAhead(w, at, text, rest);
      b := Unpacked(w[at + 1..at + 1 + WordsIn(n)], n);
      at := at + 1 + WordsIn(n);
      ahead := ahead[1..];
    }

    method ReadText() returns (b: seq<Byte>)
      requires Valid() && ahead != [] && ahead[0].Text?
      modifies this
      ensures Valid() && b == Utf8.Reading(old(ahead)[0].b) && ahead == old(ahead)[1..]
    {
      var raw := ReadBytes();
      b := Utf8.Lossy(raw);
    }
  }

  lemma TextWords(text: seq<Byte>, rest: seq<nat>)
    ensures ItemWords(Text(text)) + rest == [|text|] + (Chunks(text, WordsIn(|text|)) + rest)
  {
    hide Chunks, WordsIn;
  }

  lemma TextAhead(w: seq<nat>, at: nat, text: seq<Byte>, rest: seq<nat>)
    requires at <= |w| && w[at..] == ItemWords(Text(text)) + rest
    ensures at < |w| && w[at] == |text| && at + 1 + WordsIn(|text|) <= |w|
    ensures Unpacked(w[at + 1..at + 1 + WordsIn(|text|)], |text|) == text
    ensures w[at + 1 + WordsIn(|text|)..] == rest
  {
    hide Unpacked, Chunks, WordsIn, WordOf, ItemWords;
    Unchunked(text);
    var c := Chunks(text, WordsIn(|text|));
    TextWords(text, rest);
    SplitAt(w, at, [|text|], c + rest);
    SplitAt(w, at + 1, c, rest);
    assert w[at..at + 1][0] == |text|;
  }

  lemma SplitAt(w: seq<nat>, at: nat, x: seq<nat>, y: seq<nat>)
    requires at <= |w| && w[at..] == x + y
    ensures at + |x| <= |w| && w[at..at + |x|] == x && w[at + |x|..] == y
  {
    assert w[at..at + |x|] == w[at..][..|x|];
    assert w[at + |x|..] == w[at..][|x|..];
  }

  // Read

  method ReadStencil(r: Words, ghost f: Stencil, ghost rest: seq<Item>) returns (p: Stencil)
    requires r.Valid() && r.ahead == StencilItems(f) + rest
    modifies r
    ensures r.Valid() && p == f && r.ahead == rest
  {
    var compare := r.U();
    var fail := r.U();
    var depthFail := r.U();
    var pass := r.U();
    p := Stencil(compare, fail, depthFail, pass);
    assert r.ahead == rest;
  }

  method ReadAttribute(r: Words, ghost a: Attribute, ghost rest: seq<Item>) returns (p: Attribute)
    requires r.Valid() && r.ahead == AttributeItems(a) + rest
    modifies r
    ensures r.Valid() && p == a && r.ahead == rest
  {
    var format := r.U();
    var offset := r.U();
    var location := r.U();
    p := Attribute(format, offset, location);
    assert r.ahead == rest;
  }

  method ReadBuffer(r: Words, ghost b: VertexBuffer, ghost rest: seq<Item>) returns (p: VertexBuffer)
    requires r.Valid() && r.ahead == BufferItems(b) + rest
    modifies r
    ensures r.Valid() && p == b && r.ahead == rest
  {
    hide AttributesItems, BufferItems;
    BufferParts(b, rest);
    var stride := r.U();
    Behind(Word(b.stride), [Word(b.step)] + ([Word(|b.attributes|)] + (AttributesItems(b.attributes) + rest)));
    var step := r.U();
    Behind(Word(b.step), [Word(|b.attributes|)] + (AttributesItems(b.attributes) + rest));
    var n := r.U();
    Behind(Word(|b.attributes|), AttributesItems(b.attributes) + rest);
    var attributes := ReadAttributes(r, n, b.attributes, rest);
    p := VertexBuffer(stride, step, attributes);
  }

  lemma BufferParts(b: VertexBuffer, rest: seq<Item>)
    ensures BufferItems(b) + rest
            == [Word(b.stride)] + ([Word(b.step)] + ([Word(|b.attributes|)] + (AttributesItems(b.attributes) + rest)))
  {
    hide AttributesItems;
    var first := Put([b.stride, b.step, |b.attributes|]);
    assert first == [Word(b.stride)] + ([Word(b.step)] + [Word(|b.attributes|)]);
  }

  lemma Behind(i: Item, more: seq<Item>)
    ensures ([i] + more)[1..] == more
  {
  }

  method ReadAttributes(r: Words, n: nat, ghost all: seq<Attribute>, ghost rest: seq<Item>) returns (attributes: seq<Attribute>)
    requires r.Valid() && n == |all| && r.ahead == AttributesItems(all) + rest
    modifies r
    ensures r.Valid() && attributes == all && r.ahead == rest
  {
    hide AttributesItems, AttributeItems;
    attributes := [];
    assert all[0..] == all;
    while |attributes| < n
      invariant |attributes| <= n && attributes == all[..|attributes|]
      invariant r.Valid() && r.ahead == AttributesItems(all[|attributes|..]) + rest
    {
      ghost var k := |attributes|;
      AttributesNext(all, k, rest);
      var a := ReadAttribute(r, all[k], AttributesItems(all[k + 1..]) + rest);
      attributes := attributes + [a];
    }
    AttributesNone(all, rest);
  }

  lemma AttributesNext(all: seq<Attribute>, k: nat, rest: seq<Item>)
    requires k < |all|
    ensures AttributesItems(all[k..]) + rest == AttributeItems(all[k]) + (AttributesItems(all[k + 1..]) + rest)
  {
    hide AttributeItems;
    assert all[k..][1..] == all[k + 1..];
  }

  lemma AttributesNone(all: seq<Attribute>, rest: seq<Item>)
    ensures AttributesItems(all[|all|..]) + rest == rest
  {
  }

  lemma BuffersNone()
    ensures BuffersItems([]) == []
  {
  }

  lemma BuffersNext(b: seq<VertexBuffer>, k: nat, rest: seq<Item>)
    requires k < |b|
    ensures BuffersItems(b[k..]) + rest == BufferItems(b[k]) + (BuffersItems(b[k + 1..]) + rest)
  {
    hide BufferItems;
    assert b[k..][1..] == b[k + 1..];
  }

  lemma TargetsNone()
    ensures TargetsItems([]) == []
  {
  }

  lemma SeenNext(t: seq<Target>, k: nat)
    requires k < |t|
    ensures SeenTargets(t)[..k + 1] == SeenTargets(t)[..k] + [SeenTarget(t[k])]
  {
    hide SeenTargets, SeenTarget;
  }

  lemma TargetsNext(t: seq<Target>, k: nat, rest: seq<Item>)
    requires k < |t|
    ensures TargetsItems(t[k..]) + rest == TargetItems(t[k]) + (TargetsItems(t[k + 1..]) + rest)
  {
    hide TargetItems;
    assert t[k..][1..] == t[k + 1..];
  }

  method ReadBuffers(r: Words, n: nat, ghost b: seq<VertexBuffer>, ghost rest: seq<Item>) returns (p: seq<VertexBuffer>)
    requires r.Valid() && n == |b| && r.ahead == BuffersItems(b) + rest
    modifies r
    ensures r.Valid() && p == b && r.ahead == rest
  {
    hide BufferItems, BuffersItems;
    p := [];
    assert b[0..] == b;
    BuffersNone();
    while |p| < n
      invariant |p| <= n == |b| && p == b[..|p|]
      invariant r.Valid() && r.ahead == BuffersItems(b[|p|..]) + rest
    {
      ghost var k := |p|;
      BuffersNext(b, k, rest);
      var one := ReadBuffer(r, b[k], BuffersItems(b[k + 1..]) + rest);
      p := p + [one];
    }
    assert b[|p|..] == [] && [] + rest == rest;
  }

  method ReadPrimitive(r: Words, ghost p: Primitive, ghost rest: seq<Item>) returns (q: Primitive)
    requires r.Valid() && r.ahead == PrimitiveItems(p) + rest
    modifies r
    ensures r.Valid() && q == p.(stripFormat := SeenOpt(p.stripFormat)) && r.ahead == rest
  {
    var topology := r.U();
    var stripFormat := r.ReadOpt();
    var frontFace := r.U();
    var cull := r.U();
    var unclippedDepth := r.ReadFlag();
    q := Primitive(topology, stripFormat, frontFace, cull, unclippedDepth);
    assert r.ahead == rest;
  }

  method ReadBias(r: Words, ghost s: DepthStencil, ghost rest: seq<Item>)
    returns (readMask: nat, writeMask: nat, bias: int, slopeScale: nat, clamp: nat)
    requires -0x8000_0000 <= s.bias < 0x8000_0000
    requires r.Valid() && r.ahead == BiasItems(s) + rest
    modifies r
    ensures r.Valid() && r.ahead == rest
    ensures (readMask, writeMask, bias, slopeScale, clamp) == (s.readMask, s.writeMask, s.bias, s.slopeScale, s.clamp)
  {
    readMask := r.U();
    writeMask := r.U();
    bias := r.I();
    slopeScale := r.U();
    clamp := r.U();
    assert r.ahead == rest;
  }

  /** The words of a pipeline with no depth-stencil are there, and are let be. */
  method ReadDepth(r: Words, ghost d: Option<DepthStencil>, ghost rest: seq<Item>) returns (p: Option<DepthStencil>)
    requires d.Some? ==> -0x8000_0000 <= d.value.bias < 0x8000_0000
    requires r.Valid() && r.ahead == DepthItems(d) + rest
    modifies r
    ensures r.Valid() && r.ahead == rest
    ensures p == if d.Some? && d.value.format == NONE then None else d
  {
    hide StencilItems, BiasItems, DepthItems;
    ghost var s := DepthWords(d, rest);
    var format := r.ReadOpt();
    var depthWrite := r.ReadFlag();
    var depthCompare := r.U();
    assert r.ahead == StencilItems(s.front) + (StencilItems(s.back) + (BiasItems(s) + rest));
    var front, back := ReadFaces(r, s, BiasItems(s) + rest);
    var readMask, writeMask, bias, slopeScale, clamp := ReadBias(r, s, rest);
    p := match format
         case None => None
         case Some(f) => Some(DepthStencil(f, depthWrite, depthCompare, front, back, readMask, writeMask, bias, slopeScale, clamp));
  }

  /** The state whose words are there, whether or not the pipeline has one. */
  lemma DepthWords(d: Option<DepthStencil>, rest: seq<Item>) returns (s: DepthStencil)
    requires d.Some? ==> -0x8000_0000 <= d.value.bias < 0x8000_0000
    ensures -0x8000_0000 <= s.bias < 0x8000_0000
    ensures if d.Some? then s == d.value else s.format == NONE
    ensures DepthItems(d) + rest == Put([s.format, Flag(s.depthWrite), s.depthCompare])
                                    + (StencilItems(s.front) + (StencilItems(s.back) + (BiasItems(s) + rest)))
  {
    hide StencilItems, Put;
    var none := Stencil(0, 0, 0, 0);
    s := if d.Some? then d.value else DepthStencil(NONE, false, 0, none, none, 0, 0, 0, 0, 0);
  }

  method ReadFaces(r: Words, ghost s: DepthStencil, ghost rest: seq<Item>) returns (front: Stencil, back: Stencil)
    requires r.Valid() && r.ahead == StencilItems(s.front) + (StencilItems(s.back) + rest)
    modifies r
    ensures r.Valid() && r.ahead == rest && front == s.front && back == s.back
  {
    hide StencilItems;
    front := ReadStencil(r, s.front, StencilItems(s.back) + rest);
    back := ReadStencil(r, s.back, rest);
  }

  method ReadMultisample(r: Words, ghost m: Multisample, ghost rest: seq<Item>) returns (p: Multisample)
    requires r.Valid() && r.ahead == MultisampleItems(m) + rest
    modifies r
    ensures r.Valid() && p == m && r.ahead == rest
  {
    var count := r.U();
    var mask := r.U();
    var alphaToCoverage := r.ReadFlag();
    p := Multisample(count, mask, alphaToCoverage);
    assert r.ahead == rest;
  }

  method ReadTarget(r: Words, ghost t: Target, ghost rest: seq<Item>) returns (p: Target)
    requires r.Valid() && r.ahead == TargetItems(t) + rest
    modifies r
    ensures r.Valid() && p == SeenTarget(t) && r.ahead == rest
  {
    ghost var b := if t.blend.Some? then t.blend.value else Blend(NONE, 0, 0, 0, 0, 0);
    assert r.ahead == Put([t.format]) + (Put([b.colorOp, b.colorSrc, b.colorDst, b.alphaOp, b.alphaSrc, b.alphaDst]) + (Put([t.writeMask]) + rest));
    var format := r.U();
    var colorOp := r.U();
    var colorSrc := r.U();
    var colorDst := r.U();
    var alphaOp := r.U();
    var alphaSrc := r.U();
    var alphaDst := r.U();
    var writeMask := r.U();
    assert r.ahead == rest;
    p := Target(format, if colorOp != NONE then Some(Blend(colorOp, colorSrc, colorDst, alphaOp, alphaSrc, alphaDst)) else None, writeMask);
  }

  method ReadTargets(r: Words, n: nat, ghost t: seq<Target>, ghost rest: seq<Item>) returns (p: seq<Target>)
    requires r.Valid() && n == |t| && r.ahead == TargetsItems(t) + rest
    modifies r
    ensures r.Valid() && p == SeenTargets(t) && r.ahead == rest
  {
    hide TargetItems, SeenTarget, TargetsItems, SeenTargets, Words.Valid;
    p := [];
    assert t[0..] == t;
    TargetsNone();
    while |p| < n
      invariant |p| <= n == |t| && p == SeenTargets(t)[..|p|]
      invariant r.Valid() && r.ahead == TargetsItems(t[|p|..]) + rest
    {
      ghost var k := |p|;
      TargetsNext(t, k, rest);
      var one := ReadTarget(r, t[k], TargetsItems(t[k + 1..]) + rest);
      SeenNext(t, k);
      p := p + [one];
    }
    assert t[|p|..] == [] && [] + rest == rest;
  }

  method ReadFragment(r: Words, ghost f: Option<Fragment>) returns (p: Option<Fragment>)
    requires r.Valid() && r.ahead == FragmentItems(f)
    modifies r
    ensures r.Valid() && r.ahead == []
    ensures p == if f.None? || f.value.shader == NONE then None
                 else Some(f.value.(entry := Utf8.Reading(f.value.entry), targets := SeenTargets(f.value.targets)))
  {
    hide TargetItems;
    ghost var fr := if f.Some? then f.value else Fragment(NONE, [], []);
    assert r.ahead == Put([fr.shader]) + ([Text(fr.entry)] + (Put([|fr.targets|]) + TargetsItems(fr.targets)));
    var shader := r.ReadOpt();
    assert r.ahead == [Text(fr.entry)] + (Put([|fr.targets|]) + TargetsItems(fr.targets));
    var entry := r.ReadText();
    assert r.ahead == Put([|fr.targets|]) + TargetsItems(fr.targets);
    var n := r.U();
    assert r.ahead == TargetsItems(fr.targets) + [];
    var targets := ReadTargets(r, n, fr.targets, []);
    p := match shader case None => None case Some(m) => Some(Fragment(m, entry, targets));
  }

  /** A pipeline's record read: what the guest described, as the host sees it. */
  method ReadPipeline(r: Words, ghost name: nat, ghost d: Pipeline) returns (id: nat, p: Pipeline)
    requires Typed(d) && r.Valid() && r.ahead == Items(name, d)
    modifies r
    ensures r.Valid() && r.ahead == [] && id == name && p == Seen(d)
  {
    hide BuffersItems, PrimitiveItems, DepthItems, MultisampleItems, FragmentItems;
    ghost var tail := MultisampleItems(d.multisample) + FragmentItems(d.fragment);
    ghost var after := PrimitiveItems(d.primitive) + (DepthItems(d.depth) + tail);
    id := r.U();
    var layout := r.ReadOpt();
    var shader := r.U();
    assert r.ahead == [Text(d.entry)] + (Put([|d.buffers|]) + (BuffersItems(d.buffers) + after));
    var entry := r.ReadText();
    assert r.ahead == Put([|d.buffers|]) + (BuffersItems(d.buffers) + after);
    var n := r.U();
    assert r.ahead == BuffersItems(d.buffers) + after;
    var buffers := ReadBuffers(r, n, d.buffers, after);
    var primitive := ReadPrimitive(r, d.primitive, DepthItems(d.depth) + tail);
    var depth := ReadDepth(r, d.depth, tail);
    var multisample := ReadMultisample(r, d.multisample, FragmentItems(d.fragment));
    var fragment := ReadFragment(r, d.fragment);
    p := Pipeline(layout, shader, entry, buffers, primitive, depth, multisample, fragment);
  }
}
