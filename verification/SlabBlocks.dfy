/** What a user of the slab holds: slots of runs and blocks of the buddy, how they lie, and what a change to the
    allocator's own words leaves of them. */
module SlabBlocks {
  import opened Arith
  import opened BuddyTree
  import opened BuddySpec
  import opened BuddyProperties
  import opened BuddyMemory
  import opened SlabSpec
  import opened SlabMemory
  import opened SlabSteps

  /** A slot of a run, or a block of the buddy's own. */
  datatype Block = Slot(run: nat, k: nat) | Whole(node: nat)

  ghost predicate LiveIn(r: Range, st: seq<Status>, runs: map<nat, Run>, b: Block) {
    match b
    case Slot(i, k) => i in runs && 1 <= k < Slots(r, runs[i].c) && k !in runs[i].free
    case Whole(i) => i < |st| && st[i].Used? && i !in runs
  }

  function AddrOf(g: Layout, r: Range, runs: map<nat, Run>, b: Block): nat
    requires b.Slot? ==> b.run in runs
  {
    match b
    case Slot(i, k) => SlotAddr(NodeAddr(g, r, i), runs[i].c, k)
    case Whole(i) => NodeAddr(g, r, i)
  }

  function BytesOf(r: Range, runs: map<nat, Run>, b: Block): nat
    requires b.Slot? ==> b.run in runs
  {
    match b
    case Slot(i, k) => ClassBytes(runs[i].c)
    case Whole(i) => Size(r.maxLog2, Depth(i))
  }

  /** Each run is a used block of its size. */
  ghost predicate RunsAt(r: Range, st: seq<Status>, runs: map<nat, Run>) {
    forall i :: i in runs ==> RunAt(r, st, i, runs[i])
  }

  lemma RunOf(r: Range, st: seq<Status>, runs: map<nat, Run>, i: nat)
    requires RunsAt(r, st, runs) && i in runs
    ensures RunAt(r, st, i, runs[i])
  {
  }

  /** The used block a live block lies in, and where in it. */
  lemma InBlock(g: Layout, r: Range, s: State, runs: map<nat, Run>, b: Block) returns (i: nat)
    requires Core(r, s) && RunsAt(r, s.st, runs) && LiveIn(r, s.st, runs, b)
    ensures i < |s.st| && s.st[i].Used? && i == (match b case Slot(run, _) => run case Whole(node) => node)
    ensures NodeAddr(g, r, i) <= AddrOf(g, r, runs, b)
    ensures b.Slot? ==> NodeAddr(g, r, i) + HEAD <= AddrOf(g, r, runs, b)
    ensures AddrOf(g, r, runs, b) + BytesOf(r, runs, b) <= NodeAddr(g, r, i) + Size(r.maxLog2, Depth(i))
  {
    match b
    case Slot(run, k) =>
      i := run;
      assert RunAt(r, s.st, i, runs[i]);
      SlotFits(r, NodeAddr(g, r, i), runs[i].c, k);
    case Whole(node) =>
      i := node;
  }

  /** Live blocks are disjoint. */
  lemma BlocksDisjoint(g: Layout, r: Range, s: State, runs: map<nat, Run>, b: Block, d: Block)
    requires Core(r, s) && RunsAt(r, s.st, runs) && b != d
    requires LiveIn(r, s.st, runs, b) && LiveIn(r, s.st, runs, d)
    ensures AddrOf(g, r, runs, b) + BytesOf(r, runs, b) <= AddrOf(g, r, runs, d)
         || AddrOf(g, r, runs, d) + BytesOf(r, runs, d) <= AddrOf(g, r, runs, b)
  {
    var i := InBlock(g, r, s, runs, b);
    var j := InBlock(g, r, s, runs, d);
    if i != j {
      LeavesDisjoint(r, s, i, j);
    } else if b.k < d.k {
      SlotsApart(NodeAddr(g, r, i), runs[i].c, b.k, d.k);
    } else {
      SlotsApart(NodeAddr(g, r, i), runs[i].c, d.k, b.k);
    }
  }

  /** A live block's offset from the base is a multiple of its size. */
  lemma BlockAligned(g: Layout, r: Range, s: State, runs: map<nat, Run>, b: Block)
    requires Core(r, s) && RunsAt(r, s.st, runs) && LiveIn(r, s.st, runs, b)
    ensures BytesOf(r, runs, b) > 0 && (AddrOf(g, r, runs, b) - g.base) % BytesOf(r, runs, b) == 0
  {
    match b
    case Whole(i) =>
      DepthBelow(i, r.Buckets());
      Aligned(r.maxLog2, i);
    case Slot(i, k) =>
      hide Core, LiveIn, Off, Size;
      RunOf(r, s.st, runs, i);
      DepthWithin(r, s, i);
      SlotAligned(r, i, runs[i].c, k);
  }

  lemma DepthWithin(r: Range, s: State, i: nat)
    requires Core(r, s) && i < |s.st|
    ensures Depth(i) < r.Buckets() && Depth(i) <= r.maxLog2
  {
    DepthBelow(i, r.Buckets());
  }

  /** A slot of class `c` lies at a multiple of its class from where its run's multiples start. */
  lemma SlotAligned(r: Range, i: nat, c: nat, k: nat)
    requires RunLog2(r, c) + Depth(i) == r.maxLog2
    ensures ClassBytes(c) > 0 && (Off(r.maxLog2, i) + k * ClassBytes(c)) % ClassBytes(c) == 0
  {
    hide Off, Depth, Pow2;
    OffFormula(r.maxLog2, i);
    SlotsFill(r, c);
    var z, n := ClassBytes(c), Slots(r, c);
    MulAssoc(Rank(i), n, z);
    MulAdd(Rank(i) * n, k, z);
    DivUnique(Off(r.maxLog2, i) + k * z, Rank(i) * n + k, 0, z);
  }

  /** Alignment to a power of two follows from alignment to a larger one. */
  lemma AlignedToLess(x: nat, a: nat, b: nat)
    requires a <= b && x % Pow2(b) == 0
    ensures x % Pow2(a) == 0
  {
    var q := x / Pow2(b);
    assert x == q * Pow2(b) + x % Pow2(b);
    Pow2Add(b - a, a);
    MulAssoc(q, Pow2(b - a), Pow2(a));
    DivUnique(x, q * Pow2(b - a), 0, Pow2(a));
  }

  // What is left alone

  /** Every live block's words are as they were. */
  ghost predicate Untouched(g: Layout, r: Range, st: seq<Status>, runs: map<nat, Run>, w: seq<nat>, w': seq<nat>) {
    && |w'| == |w|
    && forall x :: 0 <= x < |w| && w'[x] != w[x] ==> NoBlockAt(g, r, st, runs, x)
  }

  ghost predicate NoBlockAt(g: Layout, r: Range, st: seq<Status>, runs: map<nat, Run>, x: nat) {
    forall b :: LiveIn(r, st, runs, b) ==> Misses(g, r, runs, b, x)
  }

  predicate Misses(g: Layout, r: Range, runs: map<nat, Run>, b: Block, x: nat)
    requires b.Slot? ==> b.run in runs
  {
    x < AddrOf(g, r, runs, b) || AddrOf(g, r, runs, b) + BytesOf(r, runs, b) <= x
  }

  lemma UntouchedThen(g: Layout, r: Range, st: seq<Status>, runs: map<nat, Run>, w: seq<nat>, w1: seq<nat>, w2: seq<nat>)
    requires Untouched(g, r, st, runs, w, w1) && Untouched(g, r, st, runs, w1, w2)
    ensures Untouched(g, r, st, runs, w, w2)
  {
    forall x | 0 <= x < |w| && w2[x] != w[x]
      ensures NoBlockAt(g, r, st, runs, x)
    {
      if w1[x] == w[x] {
        assert w2[x] != w1[x];
      }
    }
  }

  lemma UntouchedSame(g: Layout, r: Range, st: seq<Status>, runs: map<nat, Run>, w: seq<nat>)
    ensures Untouched(g, r, st, runs, w, w)
  {
  }

  /** Every block live by one account is live, and where it was, by the other. */
  ghost predicate FewerLive(g: Layout, r: Range, st: seq<Status>, runs: map<nat, Run>, st': seq<Status>, runs': map<nat, Run>) {
    forall b :: LiveIn(r, st, runs, b) ==> LiveToo(g, r, runs, st', runs', b)
  }

  ghost predicate LiveToo(g: Layout, r: Range, runs: map<nat, Run>, st': seq<Status>, runs': map<nat, Run>, b: Block)
    requires b.Slot? ==> b.run in runs
  {
    && LiveIn(r, st', runs', b)
    && AddrOf(g, r, runs', b) == AddrOf(g, r, runs, b) && BytesOf(r, runs', b) == BytesOf(r, runs, b)
  }

  lemma UntouchedFewer(g: Layout, r: Range, st: seq<Status>, runs: map<nat, Run>, st': seq<Status>, runs': map<nat, Run>, w: seq<nat>, w': seq<nat>)
    requires FewerLive(g, r, st, runs, st', runs') && Untouched(g, r, st', runs', w, w')
    ensures Untouched(g, r, st, runs, w, w')
  {
    forall x | 0 <= x < |w| && w'[x] != w[x]
      ensures NoBlockAt(g, r, st, runs, x)
    {
      assert NoBlockAt(g, r, st', runs', x);
      forall b | LiveIn(r, st, runs, b)
        ensures Misses(g, r, runs, b, x)
      {
        assert LiveToo(g, r, runs, st', runs', b);
        assert Misses(g, r, runs', b, x);
      }
    }
  }

  /** What the buddy leaves alone, the slab's blocks are in. */
  lemma BuddyUntouched(g: Layout, r: Range, s: State, runs: map<nat, Run>, w: seq<nat>, w': seq<nat>)
    requires Core(r, s) && RunsAt(r, s.st, runs) && Intact(g, r, s.st, w, w')
    ensures Untouched(g, r, s.st, runs, w, w')
  {
    forall x | 0 <= x < |w| && w'[x] != w[x]
      ensures NoBlockAt(g, r, s.st, runs, x)
    {
      forall b | LiveIn(r, s.st, runs, b)
        ensures Misses(g, r, runs, b, x)
      {
        var i := InBlock(g, r, s, runs, b);
        assert !LiveByte(g, r, s.st, x);
        assert x >= g.base ==> !Holds(r.maxLog2, i, x - g.base);
      }
    }
  }

  /** A run's header is in no live block. */
  lemma HeaderUntouched(g: Layout, r: Range, s: State, runs: map<nat, Run>, i: nat, x: nat)
    requires Core(r, s) && RunsAt(r, s.st, runs) && i in runs
    requires NodeAddr(g, r, i) <= x < NodeAddr(g, r, i) + HEAD
    ensures NoBlockAt(g, r, s.st, runs, x)
  {
    RunHoldsHead(r, runs[i].c);
    assert RunAt(r, s.st, i, runs[i]);
    forall b | LiveIn(r, s.st, runs, b)
      ensures Misses(g, r, runs, b, x)
    {
      var j := InBlock(g, r, s, runs, b);
      if j != i {
        LeavesDisjoint(r, s, i, j);
      }
    }
  }

  lemma LinksUntouched(g: Layout, r: Range, s: State, runs: map<nat, Run>, w: seq<nat>, w': seq<nat>)
    requires Core(r, s) && RunsAt(r, s.st, runs) && LinksOnly(g, r, w, w', runs.Keys)
    ensures Untouched(g, r, s.st, runs, w, w')
  {
    forall x | 0 <= x < |w| && w'[x] != w[x]
      ensures NoBlockAt(g, r, s.st, runs, x)
    {
      assert LinkWord(g, r, runs.Keys, x);
      var i :| i in runs.Keys && NodeAddr(g, r, i) <= x < NodeAddr(g, r, i) + 8;
      HeaderUntouched(g, r, s, runs, i, x);
    }
  }

  /** A free slot's words are in no live block. */
  lemma FreeUntouched(g: Layout, r: Range, s: State, runs: map<nat, Run>, i: nat, k: nat)
    requires Core(r, s) && RunsAt(r, s.st, runs) && i in runs && 1 <= k < Slots(r, runs[i].c) && k in runs[i].free
    ensures NoBlockAt(g, r, s.st, runs, SlotAddr(NodeAddr(g, r, i), runs[i].c, k))
  {
    var a, c := NodeAddr(g, r, i), runs[i].c;
    hide Core, RunsAt, Misses, SlotAddr, NodeAddr;
    forall b | LiveIn(r, s.st, runs, b)
      ensures Misses(g, r, runs, b, SlotAddr(a, c, k))
    {
      FreeMissed(g, r, s, runs, i, k, b);
    }
  }

  lemma FreeMissed(g: Layout, r: Range, s: State, runs: map<nat, Run>, i: nat, k: nat, b: Block)
    requires Core(r, s) && RunsAt(r, s.st, runs) && i in runs && 1 <= k < Slots(r, runs[i].c) && k in runs[i].free
    requires LiveIn(r, s.st, runs, b)
    ensures Misses(g, r, runs, b, SlotAddr(NodeAddr(g, r, i), runs[i].c, k))
  {
    hide Core, RunsAt, Off;
    var a, c := NodeAddr(g, r, i), runs[i].c;
    RunOf(r, s.st, runs, i);
    SlotFits(r, a, c, k);
    SlotsFill(r, c);
    var j := InBlock(g, r, s, runs, b);
    if j != i {
      LeavesDisjoint(r, s, i, j);
    } else if b.k < k {
      SlotsApart(a, c, b.k, k);
    } else {
      SlotsApart(a, c, k, b.k);
    }
  }

  // A slot handed out, a slot taken back

  /** A run's first free slot popped: its words, every other run's, and every list's. */
  lemma PopStep(g: Layout, r: Range, s: State, runs: map<nat, Run>, i: nat, w: seq<nat>, heads: seq<nat>, lists: seq<seq<nat>>)
    requires Core(r, s) && RunsAt(r, s.st, runs) && i in runs && runs[i].free != []
    requires RunsIn(g, r, w, runs) && HeadsIn(g, r, w, heads, lists) && Known(runs, lists)
    ensures var a, run := NodeAddr(g, r, i), Run(runs[i].c, runs[i].free[1..]);
            && a + HEAD <= |w| && w[a + 8] == SlotAddr(a, runs[i].c, runs[i].free[0]) < |w|
            && var w' := PopWords(w, a);
               && RunsAt(r, s.st, runs[i := run]) && RunsIn(g, r, w', runs[i := run])
               && HeadsIn(g, r, w', heads, lists) && Known(runs[i := run], lists)
               && Untouched(g, r, s.st, runs, w, w')
               && w'[a + 8] == NextFree(a, run, 0)
  {
    hide Core, PopWords, HeadsIn, Untouched;
    var a := NodeAddr(g, r, i);
    assert RunAt(r, s.st, i, runs[i]) && RunIn(r, w, a, runs[i]);
    RunHoldsHead(r, runs[i].c);
    PopRun(r, w, a, runs[i]);
    PopBody(r, w, a, runs[i].c);
    BodyChange(g, r, s, runs, i, w, PopWords(w, a));
    BodyChangeLists(g, r, s, runs, i, w, PopWords(w, a), heads, lists);
    KnownStill(runs, lists, i, Run(runs[i].c, runs[i].free[1..]));
    PopUntouched(g, r, s, runs, i, w);
  }

  lemma PopBody(r: Range, w: seq<nat>, a: nat, c: nat)
    requires a + HEAD <= a + RunBytes(r, c) <= |w| && w[a + 8] < |w|
    ensures BodyOnly(r, w, PopWords(w, a), a, c)
  {
  }

  lemma PopUntouched(g: Layout, r: Range, s: State, runs: map<nat, Run>, i: nat, w: seq<nat>)
    requires Core(r, s) && RunsAt(r, s.st, runs) && i in runs
    requires NodeAddr(g, r, i) + HEAD <= |w| && w[NodeAddr(g, r, i) + 8] < |w|
    ensures Untouched(g, r, s.st, runs, w, PopWords(w, NodeAddr(g, r, i)))
  {
    hide Core, RunsAt, NoBlockAt;
    var a := NodeAddr(g, r, i);
    HeaderUntouched(g, r, s, runs, i, a + 8);
    HeaderUntouched(g, r, s, runs, i, a + 12);
  }

  lemma KnownStill(runs: map<nat, Run>, lists: seq<seq<nat>>, i: nat, run: Run)
    requires Known(runs, lists) && i in runs && run.c == runs[i].c
    ensures Known(runs[i := run], lists)
  {
    forall c | 0 <= c < |lists|
      ensures KnownList(runs[i := run], lists[c], c)
    {
      assert KnownList(runs, lists[c], c);
    }
  }

  /** A slot pushed back on its run's free list. */
  lemma PushStep(g: Layout, r: Range, s: State, runs: map<nat, Run>, i: nat, k: nat, w: seq<nat>, heads: seq<nat>, lists: seq<seq<nat>>)
    requires Core(r, s) && RunsAt(r, s.st, runs) && LiveIn(r, s.st, runs, Slot(i, k))
    requires RunsIn(g, r, w, runs) && HeadsIn(g, r, w, heads, lists) && Known(runs, lists)
    ensures var a, run := NodeAddr(g, r, i), Run(runs[i].c, [k] + runs[i].free);
            var slot := SlotAddr(a, runs[i].c, k);
            && a + HEAD <= |w| && a + HEAD <= slot < |w| && w[a + 12] > 0
            && var w' := PushWords(w, a, slot);
               && RunsAt(r, s.st, runs[i := run]) && RunsIn(g, r, w', runs[i := run])
               && HeadsIn(g, r, w', heads, lists) && Known(runs[i := run], lists)
               && Untouched(g, r, s.st, runs[i := run], w, w')
  {
    hide Core, PushWords, HeadsIn, Untouched;
    var a := NodeAddr(g, r, i);
    assert RunAt(r, s.st, i, runs[i]) && RunIn(r, w, a, runs[i]);
    StillInUse(r, runs[i], k);
    RunHoldsHead(r, runs[i].c);
    SlotFits(r, a, runs[i].c, k);
    PushRun(r, w, a, runs[i], k);
    var slot := SlotAddr(a, runs[i].c, k);
    PushBody(r, w, a, runs[i].c, slot);
    BodyChange(g, r, s, runs, i, w, PushWords(w, a, slot));
    BodyChangeLists(g, r, s, runs, i, w, PushWords(w, a, slot), heads, lists);
    KnownStill(runs, lists, i, Run(runs[i].c, [k] + runs[i].free));
    PushUntouched(g, r, s, runs[i := Run(runs[i].c, [k] + runs[i].free)], i, k, w);
  }

  lemma PushBody(r: Range, w: seq<nat>, a: nat, c: nat, slot: nat)
    requires a + HEAD <= a + RunBytes(r, c) <= |w| && a + HEAD <= slot < a + RunBytes(r, c) && w[a + 12] > 0
    ensures BodyOnly(r, w, PushWords(w, a, slot), a, c)
  {
  }

  lemma PushUntouched(g: Layout, r: Range, s: State, runs: map<nat, Run>, i: nat, k: nat, w: seq<nat>)
    requires Core(r, s) && RunsAt(r, s.st, runs) && i in runs && 1 <= k < Slots(r, runs[i].c) && k in runs[i].free
    requires NodeAddr(g, r, i) + HEAD <= |w| && SlotAddr(NodeAddr(g, r, i), runs[i].c, k) < |w| && w[NodeAddr(g, r, i) + 12] > 0
    ensures Untouched(g, r, s.st, runs, w, PushWords(w, NodeAddr(g, r, i), SlotAddr(NodeAddr(g, r, i), runs[i].c, k)))
  {
    hide Core, RunsAt, NoBlockAt;
    var a := NodeAddr(g, r, i);
    HeaderUntouched(g, r, s, runs, i, a + 8);
    HeaderUntouched(g, r, s, runs, i, a + 12);
    FreeUntouched(g, r, s, runs, i, k);
  }
}
