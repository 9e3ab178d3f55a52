/** Blocks gained and lost: what a slot handed out, a run opened and a run given back do to the live blocks, and
    what the buddy's own work leaves of the runs. */
module SlabTurns {
  import opened Arith
  import opened BuddyTree
  import opened BuddySpec
  import opened BuddyProperties
  import opened BuddyMemory
  import opened SlabSpec
  import opened SlabMemory
  import opened SlabSteps
  import opened SlabBlocks
  import opened Prelude

  /** Block `b` is live by the second account and not by the first; every other is by both, and where it was. */
  ghost predicate Gained(g: Layout, r: Range, st: seq<Status>, runs: map<nat, Run>, st': seq<Status>, runs': map<nat, Run>, b: Block) {
    && LiveIn(r, st', runs', b) && !LiveIn(r, st, runs, b)
    && FewerLive(g, r, st, runs, st', runs')
    && forall d :: LiveIn(r, st', runs', d) ==> d == b || LiveIn(r, st, runs, d)
  }

  /** The same blocks are live, where they were. */
  ghost predicate SameLive(g: Layout, r: Range, st: seq<Status>, runs: map<nat, Run>, st': seq<Status>, runs': map<nat, Run>) {
    FewerLive(g, r, st, runs, st', runs') && FewerLive(g, r, st', runs', st, runs)
  }

  lemma GainedAfterSame(g: Layout, r: Range, st: seq<Status>, runs: map<nat, Run>, st1: seq<Status>, runs1: map<nat, Run>,
                        st2: seq<Status>, runs2: map<nat, Run>, b: Block)
    requires SameLive(g, r, st, runs, st1, runs1) && Gained(g, r, st1, runs1, st2, runs2, b)
    ensures Gained(g, r, st, runs, st2, runs2, b)
  {
    forall d | LiveIn(r, st, runs, d)
      ensures LiveToo(g, r, runs, st2, runs2, d)
    {
      assert LiveToo(g, r, runs, st1, runs1, d);
      assert LiveToo(g, r, runs1, st2, runs2, d);
    }
    forall d | LiveIn(r, st2, runs2, d)
      ensures d == b || LiveIn(r, st, runs, d)
    {
      if d != b {
        assert LiveToo(g, r, runs1, st, runs, d);
      }
    }
    assert LiveIn(r, st, runs, b) ==> LiveToo(g, r, runs, st1, runs1, b);
  }

  // The buddy's work

  /** The buddy's upkeep leaves every run and every list as it was. */
  lemma IntactRuns(g: Layout, r: Range, st: seq<Status>, runs: map<nat, Run>, w: seq<nat>, w': seq<nat>)
    requires r.Good() && RunsAt(r, st, runs) && RunsIn(g, r, w, runs) && Intact(g, r, st, w, w')
    ensures RunsIn(g, r, w', runs)
  {
    forall i | i in runs
      ensures RunIn(r, w', NodeAddr(g, r, i), runs[i])
    {
      var a := NodeAddr(g, r, i);
      assert RunAt(r, st, i, runs[i]) && RunIn(r, w, a, runs[i]);
      forall x | a <= x < a + RunBytes(r, runs[i].c)
        ensures w'[x] == w[x]
      {
        assert Holds(r.maxLog2, i, x - g.base);
      }
      RunInKept(r, w, w', a, runs[i]);
    }
  }

  lemma IntactHeads(g: Layout, r: Range, st: seq<Status>, runs: map<nat, Run>, w: seq<nat>, w': seq<nat>, heads: seq<nat>, lists: seq<seq<nat>>)
    requires r.Good() && RunsAt(r, st, runs) && Known(runs, lists)
    requires HeadsIn(g, r, w, heads, lists) && Intact(g, r, st, w, w')
    ensures HeadsIn(g, r, w', heads, lists)
  {
    forall c | 0 <= c < |lists|
      ensures HeadIn(g, r, w', heads[c], lists[c])
    {
      assert HeadIn(g, r, w, heads[c], lists[c]) && KnownList(runs, lists[c], c);
      var q := Addrs(g, r, lists[c]);
      forall k | 0 <= k < |q| && q[k] + HEAD <= |w|
        ensures w'[q[k]] == w[q[k]] && w'[q[k] + 4] == w[q[k] + 4]
      {
        HeadHeld(g, r, st, runs, lists[c][k]);
      }
      PartialKept(w, w', heads[c], q);
    }
  }

  /** A run's header lies in its block. */
  lemma HeadHeld(g: Layout, r: Range, st: seq<Status>, runs: map<nat, Run>, i: nat)
    requires RunsAt(r, st, runs) && i in runs
    ensures forall x {:trigger LiveByte(g, r, st, x)} :: NodeAddr(g, r, i) <= x < NodeAddr(g, r, i) + RunBytes(r, runs[i].c) ==> LiveByte(g, r, st, x)
    ensures RunBytes(r, runs[i].c) >= HEAD
  {
    assert RunAt(r, st, i, runs[i]);
    RunHoldsHead(r, runs[i].c);
    forall x | NodeAddr(g, r, i) <= x < NodeAddr(g, r, i) + RunBytes(r, runs[i].c)
      ensures LiveByte(g, r, st, x)
    {
      assert Holds(r.maxLog2, i, x - g.base);
    }
  }

  /** The runs stay runs where the same blocks are used, or one more. */
  lemma RunsStay(r: Range, st: seq<Status>, st': seq<Status>, runs: map<nat, Run>)
    requires RunsAt(r, st, runs) && FewerUsed(st, st')
    ensures RunsAt(r, st', runs)
  {
    forall i | i in runs
      ensures RunAt(r, st', i, runs[i])
    {
      assert RunAt(r, st, i, runs[i]);
    }
  }

  lemma SameBlocks(g: Layout, r: Range, st: seq<Status>, st': seq<Status>, runs: map<nat, Run>)
    requires SameUsed(st, st')
    ensures SameLive(g, r, st, runs, st', runs)
  {
  }

  /** A block of the buddy's own handed out. */
  lemma WholeGained(g: Layout, r: Range, st: seq<Status>, st': seq<Status>, runs: map<nat, Run>, j: nat)
    requires OneMore(st, st', j) && RunsAt(r, st, runs)
    ensures j !in runs && Gained(g, r, st, runs, st', runs, Whole(j))
  {
    assert j in runs ==> RunAt(r, st, j, runs[j]);
  }

  /** A block handed out that becomes a run with every slot free. */
  lemma RunOpened(g: Layout, r: Range, st: seq<Status>, st': seq<Status>, runs: map<nat, Run>, j: nat, c: nat)
    requires OneMore(st, st', j) && RunsAt(r, st, runs)
    ensures j !in runs && SameLive(g, r, st, runs, st', runs[j := FreshRun(r, c)])
  {
    assert j in runs ==> RunAt(r, st, j, runs[j]);
    FreshFree(r, c);
  }

  /** A run whose slots are all free: its first out is its lowest. */
  function FreshRun(r: Range, c: nat): Run {
    Run(c, seq(Slots(r, c) - 1, (j: nat) => j + 1))
  }

  /** The first slot out of a fresh run is its lowest, and the rest stay in order. */
  lemma FreshOrder(r: Range, c: nat, k: nat, rest: seq<nat>)
    requires FreshRun(r, c).free == [k] + rest
    ensures k == 1 && forall j :: 0 <= j < |rest| ==> rest[j] == j + 2
  {
    var free := FreshRun(r, c).free;
    assert free[0] == k;
    assert forall j :: 0 <= j < |rest| ==> rest[j] == free[j + 1];
  }

  lemma FreshFree(r: Range, c: nat)
    ensures |FreshRun(r, c).free| == Slots(r, c) - 1 > 0
    ensures forall k :: k in FreshRun(r, c).free <==> 1 <= k < Slots(r, c)
    ensures NoDup(FreshRun(r, c).free) && InUse(r, FreshRun(r, c)) == 0
  {
    var q := FreshRun(r, c).free;
    forall k | 1 <= k < Slots(r, c)
      ensures k in q
    {
      assert q[k - 1] == k;
    }
  }

  /** A run's slot taken. */
  lemma SlotGained(g: Layout, r: Range, st: seq<Status>, runs: map<nat, Run>, i: nat)
    requires i in runs && RunOk(r, runs[i]) && runs[i].free != []
    ensures Gained(g, r, st, runs, st, runs[i := Run(runs[i].c, runs[i].free[1..])], Slot(i, runs[i].free[0]))
  {
    FirstGone(runs[i].free);
    assert runs[i].free[0] in runs[i].free;
  }

  /** A run's slot put back. */
  lemma SlotLost(g: Layout, r: Range, st: seq<Status>, runs: map<nat, Run>, i: nat, k: nat)
    requires LiveIn(r, st, runs, Slot(i, k))
    ensures Gained(g, r, st, runs[i := Run(runs[i].c, [k] + runs[i].free)], st, runs, Slot(i, k))
  {
    var q := [k] + runs[i].free;
    assert forall x :: x in q <==> x == k || x in runs[i].free;
  }

  /** A run with no slot in use has every slot free. */
  lemma AllSlotsFree(r: Range, run: Run, k: nat)
    requires RunOk(r, run) && InUse(r, run) == 0 && 1 <= k < Slots(r, run.c)
    ensures k in run.free
  {
    if k !in run.free {
      StillInUse(r, run, k);
      assert false;
    }
  }

  /** A run with nothing in use given back: no live block goes with it. */
  lemma RunClosed(g: Layout, r: Range, st: seq<Status>, runs: map<nat, Run>, st': seq<Status>, i: nat)
    requires i in runs && RunOk(r, runs[i]) && InUse(r, runs[i]) == 0 && OneMore(st', st, i)
    ensures SameLive(g, r, st, runs, st', runs - {i})
  {
    forall b | LiveIn(r, st, runs, b)
      ensures LiveToo(g, r, runs, st', runs - {i}, b)
    {
      if b.Slot? && b.run == i {
        AllSlotsFree(r, runs[i], b.k);
      }
    }
  }

  lemma LostThenSame(g: Layout, r: Range, st: seq<Status>, runs: map<nat, Run>, st1: seq<Status>, runs1: map<nat, Run>,
                     st2: seq<Status>, runs2: map<nat, Run>, b: Block)
    requires Gained(g, r, st1, runs1, st, runs, b) && SameLive(g, r, st1, runs1, st2, runs2)
    ensures Gained(g, r, st2, runs2, st, runs, b)
  {
    GainedAfterSame(g, r, st2, runs2, st1, runs1, st, runs, b);
  }

  // What the slab writes lies in the buddy's live blocks

  ghost predicate Ours(g: Layout, r: Range, st: seq<Status>, w: seq<nat>, w': seq<nat>) {
    && |w'| == |w|
    && forall x :: 0 <= x < |w| && w'[x] != w[x] ==> LiveByte(g, r, st, x)
  }

  lemma LinksOurs(g: Layout, r: Range, st: seq<Status>, runs: map<nat, Run>, w: seq<nat>, w': seq<nat>)
    requires RunsAt(r, st, runs) && LinksOnly(g, r, w, w', runs.Keys)
    ensures Ours(g, r, st, w, w')
  {
    forall x | 0 <= x < |w| && w'[x] != w[x]
      ensures LiveByte(g, r, st, x)
    {
      assert LinkWord(g, r, runs.Keys, x);
      var i :| i in runs.Keys && NodeAddr(g, r, i) <= x < NodeAddr(g, r, i) + 8;
      HeadHeld(g, r, st, runs, i);
    }
  }

  lemma BodyOurs(g: Layout, r: Range, st: seq<Status>, runs: map<nat, Run>, i: nat, w: seq<nat>, w': seq<nat>)
    requires RunsAt(r, st, runs) && i in runs && BodyOnly(r, w, w', NodeAddr(g, r, i), runs[i].c)
    ensures Ours(g, r, st, w, w')
  {
    HeadHeld(g, r, st, runs, i);
  }

  // A run carved

  /** The slots from `k` on linked in order, the last to none; only words of the block past the header differ. */
  ghost predicate Carved(r: Range, w: seq<nat>, w': seq<nat>, a: nat, c: nat, k: nat) {
    && |w'| == |w| && a + RunBytes(r, c) <= |w|
    && (forall j :: k <= j < Slots(r, c) ==> SlotLinked(r, w', a, c, j))
    && (forall x :: 0 <= x < |w| && w'[x] != w[x] ==> a + HEAD <= x < a + RunBytes(r, c))
  }

  ghost predicate SlotLinked(r: Range, w: seq<nat>, a: nat, c: nat, j: nat) {
    SlotAddr(a, c, j) < |w| && w[SlotAddr(a, c, j)] == NextSlot(r, a, c, j + 1)
  }

  function NextSlot(r: Range, a: nat, c: nat, j: nat): nat {
    if j < Slots(r, c) then SlotAddr(a, c, j) else 0
  }

  lemma CarveNone(r: Range, w: seq<nat>, a: nat, c: nat)
    requires a + RunBytes(r, c) <= |w|
    ensures Carved(r, w, w, a, c, Slots(r, c))
  {
  }

  lemma CarveOne(r: Range, w: seq<nat>, w': seq<nat>, a: nat, c: nat, k: nat)
    requires Carved(r, w, w', a, c, k + 1) && 1 <= k < Slots(r, c)
    ensures SlotAddr(a, c, k) < |w|
    ensures Carved(r, w, w'[SlotAddr(a, c, k) := NextSlot(r, a, c, k + 1)], a, c, k)
  {
    SlotFits(r, a, c, k);
    SlotsFill(r, c);
    var w2 := w'[SlotAddr(a, c, k) := NextSlot(r, a, c, k + 1)];
    forall j | k <= j < Slots(r, c)
      ensures SlotLinked(r, w2, a, c, j)
    {
      if j > k {
        assert SlotLinked(r, w', a, c, j);
        SlotsApart(a, c, k, j);
      }
    }
  }

  /** With its header written, the block is a run with every slot free. */
  lemma CarvedRun(r: Range, w: seq<nat>, w': seq<nat>, a: nat, c: nat)
    requires Carved(r, w, w', a, c, 1) && c < MAX_CLASSES
    ensures a + HEAD <= |w'| && SlotAddr(a, c, 1) == NextSlot(r, a, c, 1)
    ensures RunIn(r, w'[a + 8 := SlotAddr(a, c, 1)][a + 12 := 0], a, FreshRun(r, c)) && RunOk(r, FreshRun(r, c))
    ensures BodyOnly(r, w, w'[a + 8 := SlotAddr(a, c, 1)][a + 12 := 0], a, c)
  {
    RunHoldsHead(r, c);
    FreshFree(r, c);
    var w2, run := w'[a + 8 := SlotAddr(a, c, 1)][a + 12 := 0], FreshRun(r, c);
    assert |run.free| == Slots(r, c) - 1;
    forall j | 0 <= j < |run.free|
      ensures FreeSlotIn(w2, a, run, j)
    {
      assert SlotLinked(r, w', a, c, j + 1);
      LinkPlace(r, run, a, j);
    }
  }

  // A run opened

  /** The bucket a run's request is served from is the one of its own size. */
  lemma RunBucket(r: Range, c: nat)
    requires r.Good() && RunBytes(r, c) <= Pow2(r.maxLog2)
    ensures RunLog2(r, c) + BucketFor(r, RunBytes(r, c)) == r.maxLog2
  {
    var k := RunLog2(r, c);
    if k > r.maxLog2 {
      Pow2Monotone(r.maxLog2, k - 1);
      assert false;
    }
    BucketTight(r, RunBytes(r, c), r.Buckets() - 1);
    var b := BucketFor(r, RunBytes(r, c));
    if r.maxLog2 - b < k {
      Pow2Monotone(r.maxLog2 - b, k - 1);
      assert false;
    } else if k < r.maxLog2 - b {
      Pow2Monotone(k, r.maxLog2 - b - 1);
      assert false;
    }
  }

  lemma KnownMore(runs: map<nat, Run>, lists: seq<seq<nat>>, i: nat, run: Run)
    requires Known(runs, lists) && i !in runs
    ensures Known(runs[i := run], lists)
  {
    forall c | 0 <= c < |lists|
      ensures KnownList(runs[i := run], lists[c], c)
    {
      assert KnownList(runs, lists[c], c);
    }
  }

  lemma RunsMore(r: Range, st: seq<Status>, runs: map<nat, Run>, i: nat, run: Run)
    requires RunsAt(r, st, runs) && RunAt(r, st, i, run)
    ensures RunsAt(r, st, runs[i := run])
  {
    var runs' := runs[i := run];
    forall j | j in runs'
      ensures RunAt(r, st, j, runs'[j])
    {
      assert j != i ==> RunAt(r, st, j, runs[j]);
    }
  }

  /** A change within a run none of whose slots is in use touches no live block. */
  lemma IdleUntouched(g: Layout, r: Range, s: State, runs: map<nat, Run>, i: nat, w: seq<nat>, w': seq<nat>)
    requires Core(r, s) && RunsAt(r, s.st, runs) && i in runs && InUse(r, runs[i]) == 0
    requires BodyOnly(r, w, w', NodeAddr(g, r, i), runs[i].c)
    ensures Untouched(g, r, s.st, runs, w, w')
  {
    forall x | 0 <= x < |w| && w'[x] != w[x]
      ensures NoBlockAt(g, r, s.st, runs, x)
    {
      IdleMissed(g, r, s, runs, i, x);
    }
  }

  lemma IdleMissed(g: Layout, r: Range, s: State, runs: map<nat, Run>, i: nat, x: nat)
    requires Core(r, s) && RunsAt(r, s.st, runs) && i in runs && InUse(r, runs[i]) == 0
    requires NodeAddr(g, r, i) <= x < NodeAddr(g, r, i) + RunBytes(r, runs[i].c)
    ensures NoBlockAt(g, r, s.st, runs, x)
  {
    assert RunAt(r, s.st, i, runs[i]);
    forall b | LiveIn(r, s.st, runs, b)
      ensures Misses(g, r, runs, b, x)
    {
      var j := InBlock(g, r, s, runs, b);
      if j != i {
        LeavesDisjoint(r, s, i, j);
      } else {
        AllSlotsFree(r, runs[i], b.k);
      }
    }
  }

  /** A block in use and no run's: its words changed, what memory holds of the runs and lists is as it was. */
  lemma BlockHeaded(g: Layout, r: Range, s: State, runs: map<nat, Run>, i: nat, c: nat, w: seq<nat>, w': seq<nat>, heads: seq<nat>, lists: seq<seq<nat>>)
    requires Core(r, s) && RunsAt(r, s.st, runs) && i !in runs && RunAt(r, s.st, i, FreshRun(r, c))
    requires RunsIn(g, r, w, runs) && HeadsIn(g, r, w, heads, lists) && Known(runs, lists)
    requires BodyOnly(r, w, w', NodeAddr(g, r, i), c) && RunIn(r, w', NodeAddr(g, r, i), FreshRun(r, c))
    ensures var runs' := runs[i := FreshRun(r, c)];
            && RunsAt(r, s.st, runs') && RunsIn(g, r, w', runs') && HeadsIn(g, r, w', heads, lists) && Known(runs', lists)
            && Untouched(g, r, s.st, runs', w, w') && Ours(g, r, s.st, w, w')
  {
    hide Core, RunAt, RunIn, HeadsIn, BodyOnly, Untouched, Ours, KnownList, FreshRun;
    var runs' := runs[i := FreshRun(r, c)];
    RunsMore(r, s.st, runs, i, FreshRun(r, c));
    KnownMore(runs, lists, i, FreshRun(r, c));
    FreshIdle(r, c);
    BodyChange(g, r, s, runs', i, w, w');
    BodyChangeLists(g, r, s, runs', i, w, w', heads, lists);
    BodyOurs(g, r, s.st, runs', i, w, w');
    IdleUntouched(g, r, s, runs', i, w, w');
  }

  lemma FreshIdle(r: Range, c: nat)
    ensures FreshRun(r, c).c == c && InUse(r, FreshRun(r, c)) == 0 && FreshRun(r, c).free != []
  {
    FreshFree(r, c);
  }

  /** The run headed and put at the front of its class's list. */
  lemma OpenStep(g: Layout, r: Range, s: State, runs: map<nat, Run>, i: nat, c: nat, w: seq<nat>, w1: seq<nat>, heads: seq<nat>, lists: seq<seq<nat>>)
    requires Core(r, s) && 0 < g.base && RunsAt(r, s.st, runs) && i !in runs && PartialOk(runs, lists)
    requires i < |s.st| && s.st[i].Used? && RunLog2(r, c) + Depth(i) == r.maxLog2 && c < |lists| && c < MAX_CLASSES
    requires RunsIn(g, r, w, runs) && HeadsIn(g, r, w, heads, lists)
    requires Carved(r, w, w1, NodeAddr(g, r, i), c, 1)
    ensures var a, runs' := NodeAddr(g, r, i), runs[i := FreshRun(r, c)];
            && a + HEAD <= |w1| && heads[c] < |w1|
            && var w2 := w1[a + 8 := SlotAddr(a, c, 1)][a + 12 := 0];
               var w3 := ListFront(w2, heads[c], a);
               && RunsAt(r, s.st, runs') && PartialOk(runs', lists[c := [i] + lists[c]])
               && RunsIn(g, r, w3, runs') && HeadsIn(g, r, w3, heads[c := a], lists[c := [i] + lists[c]])
               && Untouched(g, r, s.st, runs', w, w3) && Ours(g, r, s.st, w, w3)
  {
    hide Core, RunIn, HeadIn, BodyOnly, Untouched, Ours, KnownList, FreshRun, ListFront, Carved, PartialOk, RunOk, LinksOnly;
    var a, runs' := NodeAddr(g, r, i), runs[i := FreshRun(r, c)];
    CarvedRun(r, w, w1, a, c);
    FreshIdle(r, c);
    PartialKnown(runs, lists);
    var w2 := w1[a + 8 := SlotAddr(a, c, 1)][a + 12 := 0];
    BlockHeaded(g, r, s, runs, i, c, w, w2, heads, lists);
    ListedFront(runs, lists, i, FreshRun(r, c));
    FrontStep(g, r, s, runs', w2, heads, lists, i);
    var w3 := ListFront(w2, heads[c], a);
    LinksUntouched(g, r, s, runs', w2, w3);
    LinksOurs(g, r, s.st, runs', w2, w3);
    UntouchedThen(g, r, s.st, runs', w, w2, w3);
    OursThen(g, r, s.st, w, w2, w3);
  }

  lemma OursThen(g: Layout, r: Range, st: seq<Status>, w: seq<nat>, w1: seq<nat>, w2: seq<nat>)
    requires Ours(g, r, st, w, w1) && Ours(g, r, st, w1, w2)
    ensures Ours(g, r, st, w, w2)
  {
    forall x | 0 <= x < |w| && w2[x] != w[x]
      ensures LiveByte(g, r, st, x)
    {
      if w1[x] == w[x] {
        assert w2[x] != w1[x];
      }
    }
  }

  lemma PopOurs(g: Layout, r: Range, st: seq<Status>, runs: map<nat, Run>, i: nat, w: seq<nat>)
    requires RunsAt(r, st, runs) && i in runs && RunIn(r, w, NodeAddr(g, r, i), runs[i])
    requires w[NodeAddr(g, r, i) + 8] < |w|
    ensures Ours(g, r, st, w, PopWords(w, NodeAddr(g, r, i)))
  {
    hide RunsAt, LiveByte;
    PopBody(r, w, NodeAddr(g, r, i), runs[i].c);
    BodyOurs(g, r, st, runs, i, w, PopWords(w, NodeAddr(g, r, i)));
  }

  lemma PushOurs(g: Layout, r: Range, st: seq<Status>, runs: map<nat, Run>, i: nat, k: nat, w: seq<nat>)
    requires RunsAt(r, st, runs) && LiveIn(r, st, runs, Slot(i, k)) && RunIn(r, w, NodeAddr(g, r, i), runs[i])
    requires SlotAddr(NodeAddr(g, r, i), runs[i].c, k) < |w| && w[NodeAddr(g, r, i) + 12] > 0
    ensures Ours(g, r, st, w, PushWords(w, NodeAddr(g, r, i), SlotAddr(NodeAddr(g, r, i), runs[i].c, k)))
  {
    hide RunsAt, LiveByte;
    var a, c := NodeAddr(g, r, i), runs[i].c;
    SlotFits(r, a, c, k);
    SlotsFill(r, c);
    PushBody(r, w, a, c, SlotAddr(a, c, k));
    BodyOurs(g, r, st, runs, i, w, PushWords(w, a, SlotAddr(a, c, k)));
  }

  /** What a run's header says of its free list and its slots in use. */
  lemma HeaderSays(g: Layout, r: Range, runs: map<nat, Run>, i: nat, w: seq<nat>)
    requires RunsIn(g, r, w, runs) && i in runs && 0 < g.base
    ensures var a := NodeAddr(g, r, i);
            && a + HEAD <= |w| && RunIn(r, w, a, runs[i])
            && ((w[a + 8] == 0) == (runs[i].free == [])) && w[a + 12] == InUse(r, runs[i])
  {
    assert RunIn(r, w, NodeAddr(g, r, i), runs[i]);
  }

  /** What dropping the header at `a`, the `k`-th of list `c`, leaves. */
  ghost predicate Left(g: Layout, r: Range, s: State, runs: map<nat, Run>, w: seq<nat>, heads: seq<nat>, lists: seq<seq<nat>>,
                       c: nat, k: nat, a: nat)
    requires r.Good() && 0 < g.base && c < |lists| && c < |heads| && k < |lists[c]| && RunsAt(r, s.st, runs)
  {
    && a + HEAD <= |w| && w[a] + HEAD <= |w| && w[a + 4] + HEAD <= |w|
    && (w[a] != 0 ==> w[a] != a && w[a] + 4 != a)
    && var w' := ListDrop(w, a);
       && RunsIn(g, r, w', runs)
       && HeadsIn(g, r, w', if w[a] == 0 then heads[c := w[a + 4]] else heads, lists[c := lists[c][..k] + lists[c][k + 1..]])
       && Untouched(g, r, s.st, runs, w, w') && Ours(g, r, s.st, w, w')
  }

  lemma LeaveStep(g: Layout, r: Range, s: State, runs: map<nat, Run>, w: seq<nat>, heads: seq<nat>, lists: seq<seq<nat>>, c: nat, k: nat)
    requires Core(r, s) && 0 < g.base && RunsAt(r, s.st, runs)
    requires RunsIn(g, r, w, runs) && HeadsIn(g, r, w, heads, lists) && Known(runs, lists)
    requires c < |lists| && k < |lists[c]|
    ensures Left(g, r, s, runs, w, heads, lists, c, k, NodeAddr(g, r, lists[c][k]))
  {
    hide Core, RunAt, RunIn, ListDrop, LinksOnly, Untouched, Ours, PartialAt, Far;
    var a := NodeAddr(g, r, lists[c][k]);
    DropStep(g, r, s, runs, w, heads, lists, c, k);
    LinksUntouched(g, r, s, runs, w, ListDrop(w, a));
    LinksOurs(g, r, s.st, runs, w, ListDrop(w, a));
    assert KnownList(runs, lists[c], c) && HeadIn(g, r, w, heads[c], lists[c]);
    ListSpaced(g, r, s, runs, lists[c], c);
    DropPlace(w, Addrs(g, r, lists[c]), k);
    BeforeFar(Addrs(g, r, lists[c]), k);
  }

  lemma BeforeFar(q: seq<nat>, k: nat)
    requires Spaced(q) && k < |q|
    ensures k > 0 ==> q[k - 1] != q[k] && q[k - 1] + 4 != q[k]
  {
    assert k > 0 ==> Far(q[k - 1], q[k]);
  }

  lemma KnownDrop(runs: map<nat, Run>, lists: seq<seq<nat>>, c: nat, k: nat)
    requires Known(runs, lists) && c < |lists| && k < |lists[c]|
    ensures Known(runs, lists[c := lists[c][..k] + lists[c][k + 1..]])
  {
    assert KnownList(runs, lists[c], c);
    var lists' := lists[c := lists[c][..k] + lists[c][k + 1..]];
    forall d | 0 <= d < |lists'|
      ensures KnownList(runs, lists'[d], d)
    {
      assert KnownList(runs, lists[d], d);
    }
  }

  lemma JoinStep(g: Layout, r: Range, s: State, runs: map<nat, Run>, w: seq<nat>, heads: seq<nat>, lists: seq<seq<nat>>, i: nat)
    requires Core(r, s) && 0 < g.base && RunsAt(r, s.st, runs)
    requires RunsIn(g, r, w, runs) && HeadsIn(g, r, w, heads, lists) && Known(runs, lists)
    requires i in runs && runs[i].c < |lists| && i !in lists[runs[i].c]
    ensures var c, a := runs[i].c, NodeAddr(g, r, i);
            && a + HEAD <= |w| && heads[c] < |w|
            && var w' := ListFront(w, heads[c], a);
               && RunsIn(g, r, w', runs) && HeadsIn(g, r, w', heads[c := a], lists[c := [i] + lists[c]])
               && Untouched(g, r, s.st, runs, w, w') && Ours(g, r, s.st, w, w')
  {
    hide Core, RunAt, RunIn, ListFront, LinksOnly, Untouched, Ours, PartialAt, Far;
    var c, a := runs[i].c, NodeAddr(g, r, i);
    FrontStep(g, r, s, runs, w, heads, lists, i);
    LinksUntouched(g, r, s, runs, w, ListFront(w, heads[c], a));
    LinksOurs(g, r, s.st, runs, w, ListFront(w, heads[c], a));
  }

  lemma KnownFront(runs: map<nat, Run>, lists: seq<seq<nat>>, i: nat)
    requires Known(runs, lists) && i in runs && runs[i].c < |lists| && i !in lists[runs[i].c]
    ensures Known(runs, lists[runs[i].c := [i] + lists[runs[i].c]])
  {
    var c := runs[i].c;
    var lists' := lists[c := [i] + lists[c]];
    assert KnownList(runs, lists[c], c);
    HeadOk(lists[c], i);
    forall d | 0 <= d < |lists'|
      ensures KnownList(runs, lists'[d], d)
    {
      assert KnownList(runs, lists[d], d);
    }
  }
}
