/** The slab allocator as it runs over the buddy: run headers and free slots' links written in the runs
    themselves, a list head a class. */
module SlabMallocs {
  import opened Arith
  import opened BuddyTree
  import opened BuddySpec
  import opened BuddyProperties
  import opened BuddyMemory
  import opened BuddyMallocs
  import opened SlabSpec
  import opened SlabMemory
  import opened SlabSteps
  import opened SlabBlocks
  import opened SlabTurns

  class SlabMalloc {
    const buddy: BuddyMalloc
    /** Each class's first run with a slot to hand out, 0 for none. */
    const partial: array<nat>
    var allocs: nat
    var refusals: nat
    var runLive: nat
    var slotLive: nat
    ghost var runs: map<nat, Run>
    ghost var lists: seq<seq<nat>>

    /** With as many heads as the C++ has, or more: the Rust has `MAX_CLASSES`. */
    constructor (r: Range, g: Layout, mem: array<nat>, heads: nat)
      requires r.Good() && MIN_CLASS_LOG2 < r.minLog2 <= 32 && ClassCount(r) <= heads <= MAX_CLASSES && Fits(g, r, mem.Length) && 0 < g.base
      ensures Valid() && runs == map[] && buddy.r == r && buddy.g == g && buddy.mem == mem && partial.Length == heads
    {
      allocs, refusals, runLive, slotLive := 0, 0, 0, 0;
      runs := map[];
      lists := seq(heads, _ => []);
      buddy := new BuddyMalloc(r, g, mem);
      partial := new nat[heads](_ => 0);
      new;
      NothingOut(r, |buddy.s.st|);
      forall c | 0 <= c < heads
        ensures HeadIn(g, r, mem[..], partial[..][c], lists[c])
      {
        assert Addrs(g, r, lists[c]) == [];
      }
    }

    ghost predicate Apart()
      reads this, buddy
    {
      && MIN_CLASS_LOG2 < buddy.r.minLog2 <= 32 && ClassCount(buddy.r) <= partial.Length <= MAX_CLASSES
      && partial != buddy.mem
      && partial as object != buddy.nodeIsSplit as object
    }

    /** The runs and lists are as memory has them; a run may have no slot in use. */
    ghost predicate Laid()
      reads this, buddy, buddy.mem, buddy.nodeIsSplit, partial
    {
      && Apart() && buddy.Valid()
      && RunsAt(buddy.r, buddy.s.st, runs) && PartialOk(runs, lists)
      && RunsIn(buddy.g, buddy.r, buddy.mem[..], runs)
      && HeadsIn(buddy.g, buddy.r, buddy.mem[..], partial[..], lists)
    }

    ghost predicate Valid()
      reads this, buddy, buddy.mem, buddy.nodeIsSplit, partial
    {
      && Laid() && Summed()
      && RunsOk(buddy.r, buddy.s.st, runs)
    }

    /** As `Laid`, whichever runs are listed. */
    ghost predicate Loose()
      reads this, buddy, buddy.mem, buddy.nodeIsSplit, partial
    {
      && Apart() && buddy.Valid()
      && RunsAt(buddy.r, buddy.s.st, runs) && Known(runs, lists)
      && RunsIn(buddy.g, buddy.r, buddy.mem[..], runs)
      && HeadsIn(buddy.g, buddy.r, buddy.mem[..], partial[..], lists)
    }

    ghost predicate Summed()
      reads this, buddy
    {
      && runLive == RunSum(buddy.r, runs, |buddy.s.st|)
      && slotLive == SlotSum(buddy.r, runs, |buddy.s.st|)
    }

    // A class's list

    method PushPartial(c: nat, run: nat)
      requires c < partial.Length && run + HEAD <= buddy.mem.Length && partial[c] < buddy.mem.Length && Apart()
      modifies partial, buddy.mem
      ensures buddy.mem[..] == ListFront(old(buddy.mem[..]), old(partial[c]), run)
      ensures partial[..] == old(partial[..])[c := run]
    {
      var head := partial[c];
      buddy.mem[run] := 0;
      buddy.mem[run + 4] := head;
      if head != 0 {
        buddy.mem[head] := run;
      }
      partial[c] := run;
    }

    method DropPartial(c: nat, run: nat)
      requires c < partial.Length && run + HEAD <= buddy.mem.Length && Apart()
      requires buddy.mem[run] + HEAD <= buddy.mem.Length && buddy.mem[run + 4] + HEAD <= buddy.mem.Length
      requires buddy.mem[run] != 0 ==> buddy.mem[run] != run && buddy.mem[run] + 4 != run
      modifies partial, buddy.mem
      ensures buddy.mem[..] == ListDrop(old(buddy.mem[..]), run)
      ensures partial[..] == if old(buddy.mem[run]) == 0 then old(partial[..])[c := old(buddy.mem[run + 4])] else old(partial[..])
    {
      if buddy.mem[run] == 0 {
        partial[c] := buddy.mem[run + 4];
      } else {
        buddy.mem[buddy.mem[run] + 4] := buddy.mem[run + 4];
      }
      if buddy.mem[run + 4] != 0 {
        buddy.mem[buddy.mem[run + 4]] := buddy.mem[run];
      }
    }

    // Runs

    /** The block's slots linked from the back, so that the first out are the lowest. */
    method Carve(at: nat, c: nat) returns (next: nat)
      requires at + RunBytes(buddy.r, c) <= buddy.mem.Length
      modifies buddy.mem
      ensures Carved(buddy.r, old(buddy.mem[..]), buddy.mem[..], at, c, 1) && next == SlotAddr(at, c, 1)
    {
      hide Carved;
      ghost var w := buddy.mem[..];
      CarveNone(buddy.r, w, at, c);
      next := 0;
      var i := Slots(buddy.r, c);
      while i > 1
        invariant 1 <= i <= Slots(buddy.r, c)
        invariant Carved(buddy.r, w, buddy.mem[..], at, c, i) && next == NextSlot(buddy.r, at, c, i)
      {
        CarveOne(buddy.r, w, buddy.mem[..], at, c, i - 1);
        i := i - 1;
        buddy.mem[SlotAddr(at, c, i)] := next;
        next := SlotAddr(at, c, i);
      }
    }

    /** A block of the buddy's, the runs and lists as they were; 0 where it has none. */
    method TakePages(request: nat) returns (at: nat, ghost j: nat)
      requires Laid()
      modifies buddy, buddy.mem, buddy.nodeIsSplit
      ensures Laid() && partial[..] == old(partial[..])
      ensures |buddy.s.st| == old(|buddy.s.st|) && RunsAt(buddy.r, old(buddy.s.st), runs)
      ensures (at == 0) == NoRoom(buddy.r, old(buddy.s), request)
      ensures at == 0 ==> SameUsed(old(buddy.s.st), buddy.s.st)
      ensures at != 0 ==> && OneMore(old(buddy.s.st), buddy.s.st, j) && at == NodeAddr(buddy.g, buddy.r, j)
                          && request <= Pow2(buddy.r.maxLog2) && Depth(j) == BucketFor(buddy.r, request)
      ensures Intact(buddy.g, buddy.r, old(buddy.s.st), old(buddy.mem[..]), buddy.mem[..])
    {
      hide Inv, Core, RunAt, RunIn, HeadIn, PartialOk, Find, Pow2, ListOf;
      ghost var g, r, s, w := buddy.g, buddy.r, buddy.s, buddy.mem[..];
      BuddyFacts();
      at := buddy.Malloc(request);
      BuddyFacts();
      j := 0;
      if at != 0 {
        j := Find(r, s, BucketFor(r, request), BucketFor(r, request)).1.value;
      }
      IntactRuns(g, r, s.st, runs, w, buddy.mem[..]);
      PartialKnown(runs, lists);
      IntactHeads(g, r, s.st, runs, w, buddy.mem[..], partial[..], lists);
      RunsStay(r, s.st, buddy.s.st, runs);
    }

    lemma BuddyFacts()
      requires Apart() && buddy.Valid()
      ensures buddy.r.Good() && Inv(buddy.r, buddy.s) && Core(buddy.r, buddy.s) && 0 < buddy.g.base
      ensures Fits(buddy.g, buddy.r, buddy.mem.Length)
    {
    }

    method MakeRun(at: nat, c: nat, ghost i: nat)
      requires Laid() && Summed() && i !in runs && c < partial.Length && at == NodeAddr(buddy.g, buddy.r, i)
      requires i < |buddy.s.st| && buddy.s.st[i].Used? && RunLog2(buddy.r, c) + Depth(i) == buddy.r.maxLog2
      modifies this`runLive, this`runs, this`lists, buddy.mem, partial
      ensures Laid() && Summed()
      ensures runs == old(runs)[i := FreshRun(buddy.r, c)] && lists == old(lists)[c := [i] + old(lists)[c]]
      ensures Untouched(buddy.g, buddy.r, buddy.s.st, runs, old(buddy.mem[..]), buddy.mem[..])
    {
      hide Inv, Core, RunAt, RunIn, HeadIn, PartialOk, ListOf, RunsIn, RunOk, Untouched, FreshRun, Ours, ListFront, Carved, PartialIn, RunsAt, RunSum, SlotSum, RunBytes, SlotAddr, LiveByte, RunLog2, Slots;
      ghost var g, r, s, w := buddy.g, buddy.r, buddy.s, buddy.mem[..];
      BuddyFacts();
      BlockFits(i, c);
      ghost var w1 := WriteHeader(at, c);
      OpenStep(g, r, s, runs, i, c, w, w1, partial[..], lists);
      runLive := runLive + RunBytes(buddy.r, c);
      PushPartial(c, at);
      SumsChange(r, runs, runs[i := FreshRun(r, c)], i, |s.st|);
      FreshIdle(r, c);
      runs := runs[i := FreshRun(r, c)];
      lists := lists[c := [i] + lists[c]];
      OursFacts(g, r, s.st, w, buddy.mem[..]);
      buddy.KeptByUsers();
    }

    /** The slots linked, then the header but for its links. */
    method WriteHeader(at: nat, c: nat) returns (ghost w1: seq<nat>)
      requires at + RunBytes(buddy.r, c) <= buddy.mem.Length
      modifies buddy.mem
      ensures Carved(buddy.r, old(buddy.mem[..]), w1, at, c, 1) && at + HEAD <= |w1|
      ensures buddy.mem[..] == w1[at + 8 := SlotAddr(at, c, 1)][at + 12 := 0]
    {
      RunHoldsHead(buddy.r, c);
      var next := Carve(at, c);
      w1 := buddy.mem[..];
      buddy.mem[at + 8] := next;
      buddy.mem[at + 12] := 0;
    }

    lemma BlockFits(i: nat, c: nat)
      requires Apart() && buddy.Valid() && i < |buddy.s.st| && buddy.s.st[i].Used? && RunLog2(buddy.r, c) + Depth(i) == buddy.r.maxLog2
      ensures NodeAddr(buddy.g, buddy.r, i) + RunBytes(buddy.r, c) <= buddy.mem.Length
    {
      hide Inv, Core, RunLog2, NodeAddr;
      BuddyFacts();
      UsedFits(buddy.g, buddy.r, buddy.s, buddy.mem.Length, i);
    }

    /** A block of the buddy's made a run of class `c`, its header written; none where the buddy has none. */
    method OpenRun(c: nat) returns (run: nat, ghost i: nat)
      requires Valid() && c < partial.Length
      modifies this`runLive, this`runs, this`lists, buddy, buddy.mem, buddy.nodeIsSplit, partial
      ensures Laid() && Summed()
      ensures run == 0 ==> runs == old(runs) && lists == old(lists) && SameUsed(old(buddy.s.st), buddy.s.st)
      ensures run != 0 ==> && runs == old(runs)[i := FreshRun(buddy.r, c)] && lists == old(lists)[c := [i] + old(lists)[c]]
                           && i !in old(runs) && run == NodeAddr(buddy.g, buddy.r, i) && OneMore(old(buddy.s.st), buddy.s.st, i)
      ensures forall j :: j in old(runs) ==> InUse(buddy.r, runs[j]) > 0
      ensures (run == 0) == NoRoom(buddy.r, old(buddy.s), RunBytes(buddy.r, c))
      ensures SameLive(buddy.g, buddy.r, old(buddy.s.st), old(runs), buddy.s.st, runs)
      ensures Untouched(buddy.g, buddy.r, old(buddy.s.st), old(runs), old(buddy.mem[..]), buddy.mem[..])
    {
      hide Inv, Core, RunIn, HeadIn, PartialOk, Find, Pow2, ListOf, RunsIn, HeadsIn, RunOk, Intact, SameLive, Untouched, FreshRun, OneMore;
      ghost var g, r, st, w, runs0 := buddy.g, buddy.r, buddy.s.st, buddy.mem[..], runs;
      BuddyFacts();
      run, i := TakePages(RunBytes(buddy.r, c));
      BuddyFacts();
      ghost var w1 := buddy.mem[..];
      BuddyUntouched(g, r, old(buddy.s), runs, w, w1);
      if run == 0 {
        SameBlocks(g, r, st, buddy.s.st, runs);
        return;
      }
      RunOpened(g, r, st, buddy.s.st, runs, i, c);
      RunBucket(r, c);
      UsedNow(st, buddy.s.st, i);
      MakeRun(run, c, i);
      UntouchedFewer(g, r, st, runs0, buddy.s.st, runs, w1, buddy.mem[..]);
      UntouchedThen(g, r, st, runs0, w, w1, buddy.mem[..]);
    }

    // Slots

    lemma LaidLoose()
      requires Laid()
      ensures Loose()
    {
      PartialKnown(runs, lists);
    }

    lemma Tables()
      requires Loose()
      ensures |lists| == partial.Length
    {
    }

    /** The run's first free slot taken off its free list. */
    method PopSlot(c: nat, run: nat, ghost i: nat) returns (slot: nat)
      requires Loose() && Summed() && i in runs && runs[i].c == c && run == NodeAddr(buddy.g, buddy.r, i) && runs[i].free != []
      modifies this`slotLive, this`runs, buddy.mem
      ensures Loose() && Summed()
      ensures runs == old(runs)[i := Run(c, old(runs)[i].free[1..])] && slot == SlotAddr(run, c, old(runs)[i].free[0])
      ensures Untouched(buddy.g, buddy.r, buddy.s.st, old(runs), old(buddy.mem[..]), buddy.mem[..])
      ensures run + HEAD <= buddy.mem.Length && buddy.mem[run + 8] == NextFree(run, runs[i], 0)
    {
      hide Inv, Core, RunAt, RunIn, HeadIn, RunOk, Untouched, Ours, RunsAt, RunSum, SlotSum, SlotAddr, LiveByte, Slots, PopWords;
      ghost var g, r, s, w, run' := buddy.g, buddy.r, buddy.s, buddy.mem[..], Run(c, runs[i].free[1..]);
      BuddyFacts();
      PopStep(g, r, s, runs, i, w, partial[..], lists);
      PopOurs(g, r, s.st, runs, i, w);
      slot := PopRaw(run);
      slotLive := slotLive + ClassBytes(c);
      SumsChange(r, runs, runs[i := run'], i, |s.st|);
      PoppedSums(r, runs[i], run');
      RunAtNode(r, s.st, runs, i);
      runs := runs[i := run'];
      OursFacts(g, r, s.st, w, buddy.mem[..]);
      buddy.KeptByUsers();
    }

    method PopRaw(run: nat) returns (slot: nat)
      requires run + HEAD <= buddy.mem.Length && buddy.mem[run + 8] < buddy.mem.Length
      modifies buddy.mem
      ensures buddy.mem[..] == PopWords(old(buddy.mem[..]), run) && slot == old(buddy.mem[run + 8])
    {
      slot := buddy.mem[run + 8];
      buddy.mem[run + 8] := buddy.mem[slot];
      buddy.mem[run + 12] := buddy.mem[run + 12] + 1;
    }

    /** The run at place `k` of its class's list taken off it. */
    method Leave(c: nat, run: nat, ghost k: nat)
      requires Loose() && c < partial.Length && k < |lists[c]| && run == NodeAddr(buddy.g, buddy.r, lists[c][k])
      modifies this`lists, buddy.mem, partial
      ensures Loose() && lists == old(lists)[c := old(lists)[c][..k] + old(lists)[c][k + 1..]]
      ensures Untouched(buddy.g, buddy.r, buddy.s.st, runs, old(buddy.mem[..]), buddy.mem[..])
    {
      hide Inv, Core, RunAt, RunIn, HeadIn, RunOk, Untouched, Ours, RunsAt, LiveByte, ListDrop, LinksOnly, Known, RunsIn;
      ghost var g, r, s, w := buddy.g, buddy.r, buddy.s, buddy.mem[..];
      BuddyFacts();
      LeaveStep(g, r, s, runs, w, partial[..], lists, c, k);
      KnownDrop(runs, lists, c, k);
      DropPartial(c, run);
      lists := lists[c := lists[c][..k] + lists[c][k + 1..]];
      OursFacts(g, r, s.st, w, buddy.mem[..]);
      buddy.KeptByUsers();
    }

    /** The run put at the front of its class's list. */
    method Join(c: nat, run: nat, ghost i: nat)
      requires Loose() && c < partial.Length && i in runs && runs[i].c == c && i !in lists[c]
      requires run == NodeAddr(buddy.g, buddy.r, i)
      modifies this`lists, buddy.mem, partial
      ensures Loose() && lists == old(lists)[c := [i] + old(lists)[c]]
      ensures Untouched(buddy.g, buddy.r, buddy.s.st, runs, old(buddy.mem[..]), buddy.mem[..])
    {
      hide Inv, Core, RunAt, RunIn, HeadIn, RunOk, Untouched, Ours, RunsAt, LiveByte, ListFront, LinksOnly, Known, RunsIn;
      ghost var g, r, s, w := buddy.g, buddy.r, buddy.s, buddy.mem[..];
      BuddyFacts();
      JoinStep(g, r, s, runs, w, partial[..], lists, i);
      KnownFront(runs, lists, i);
      PushPartial(c, run);
      lists := lists[c := [i] + lists[c]];
      OursFacts(g, r, s.st, w, buddy.mem[..]);
      buddy.KeptByUsers();
    }

    /** A live slot put back at the front of its run's free list; whether that was empty. */
    method PushSlot(at: nat, c: nat, run: nat, ghost i: nat, ghost k: nat) returns (wasFull: bool, inUse: nat)
      requires Loose() && Summed() && LiveIn(buddy.r, buddy.s.st, runs, Slot(i, k)) && runs[i].c == c
      requires run == NodeAddr(buddy.g, buddy.r, i) && at == SlotAddr(run, c, k)
      modifies this`slotLive, this`runs, buddy.mem
      ensures Loose() && Summed()
      ensures runs == old(runs)[i := Run(c, [k] + old(runs)[i].free)]
      ensures wasFull == (old(runs)[i].free == []) && inUse == InUse(buddy.r, runs[i])
      ensures Untouched(buddy.g, buddy.r, buddy.s.st, runs, old(buddy.mem[..]), buddy.mem[..])
    {
      hide Inv, Core, RunAt, RunIn, HeadIn, RunOk, Untouched, Ours, RunsAt, RunSum, SlotSum, SlotAddr, LiveByte, Slots, PushWords;
      ghost var g, r, s, w, run' := buddy.g, buddy.r, buddy.s, buddy.mem[..], Run(c, [k] + runs[i].free);
      BuddyFacts();
      HeaderSays(g, r, runs, i, w);
      PushStep(g, r, s, runs, i, k, w, partial[..], lists);
      PushOurs(g, r, s.st, runs, i, k, w);
      SumsChange(r, runs, runs[i := run'], i, |s.st|);
      PushedSums(r, runs[i], run');
      RunAtNode(r, s.st, runs, i);
      SlotPartHeld(r, s.st, runs, i, k, |s.st|);
      wasFull, inUse := PushRaw(at, run);
      slotLive := slotLive - ClassBytes(c);
      runs := runs[i := run'];
      OursFacts(g, r, s.st, w, buddy.mem[..]);
      buddy.KeptByUsers();
    }

    method PushRaw(at: nat, run: nat) returns (wasFull: bool, inUse: nat)
      requires run + HEAD <= buddy.mem.Length && run + HEAD <= at < buddy.mem.Length && buddy.mem[run + 12] > 0
      modifies buddy.mem
      ensures buddy.mem[..] == PushWords(old(buddy.mem[..]), run, at)
      ensures wasFull == (old(buddy.mem[run + 8]) == 0) && inUse == old(buddy.mem[run + 12]) - 1
    {
      wasFull := buddy.mem[run + 8] == 0;
      buddy.mem[at] := buddy.mem[run + 8];
      buddy.mem[run + 8] := at;
      buddy.mem[run + 12] := buddy.mem[run + 12] - 1;
      inUse := buddy.mem[run + 12];
    }

    /** A run with no slot in use and in no list given back to the buddy. */
    method CloseRun(c: nat, run: nat, ghost i: nat)
      requires Loose() && Summed() && i in runs && runs[i].c == c && run == NodeAddr(buddy.g, buddy.r, i)
      requires c < |lists| && InUse(buddy.r, runs[i]) == 0 && i !in lists[c]
      modifies this`runLive, this`runs, buddy, buddy.mem, buddy.nodeIsSplit
      ensures Loose() && Summed() && runs == old(runs) - {i} && partial[..] == old(partial[..])
      ensures OneMore(buddy.s.st, old(buddy.s.st), i) && buddy.Freed(old(buddy.s), i)
      ensures SameLive(buddy.g, buddy.r, old(buddy.s.st), old(runs), buddy.s.st, runs)
      ensures Untouched(buddy.g, buddy.r, buddy.s.st, runs, old(buddy.mem[..]), buddy.mem[..])
    {
      hide Inv, Core, RunIn, HeadIn, RunOk, Untouched, Ours, LiveByte, RunSum, SlotSum, RunBytes, Pow2, Intact, Release, Below, InUse, SameLive, Slots, RunsIn, RunsAt, Known, RunAt;
      ghost var g, r, s, w, runs0 := buddy.g, buddy.r, buddy.s, buddy.mem[..], runs;
      BuddyFacts();
      RunPages(i);
      RunHeld(r, s.st, runs, i, |s.st|);
      SumsChange(r, runs, runs - {i}, i, |s.st|);
      runLive := runLive - RunBytes(buddy.r, c);
      runs := runs - {i};
      buddy.Free(run, RunBytes(buddy.r, c));
      BuddyFacts();
      assert partial[..] == old(partial[..]);
      CloseStep(g, r, s, buddy.s, runs0, i, w, buddy.mem[..], partial[..], lists);
    }

    /** A run is a block the buddy can take back at its run's size. */
    lemma RunPages(i: nat)
      requires Loose() && i in runs
      ensures var at, z := NodeAddr(buddy.g, buddy.r, i), RunBytes(buddy.r, runs[i].c);
              && buddy.r.Good() && at != 0 && z <= Pow2(buddy.r.maxLog2)
              && buddy.LiveBlock(at, BucketFor(buddy.r, z)) && BucketFor(buddy.r, z) == Depth(i)
              && buddy.NodeForPtr(at, BucketFor(buddy.r, z)) == i
              && i < |buddy.s.st| && buddy.s.st[i].Used? && RunOk(buddy.r, runs[i]) && runs[i].c < MAX_CLASSES
    {
      hide Inv, Core, Pow2, RunIn, HeadIn, Known;
      BuddyFacts();
      assert RunAt(buddy.r, buddy.s.st, i, runs[i]);
      Pow2Monotone(RunLog2(buddy.r, runs[i].c), buddy.r.maxLog2);
      RunBucket(buddy.r, runs[i].c);
      buddy.PtrIsAddr(i);
    }

    // Requests

    /** Block `b` is what a request of `bytes` at `align` is answered with, at `at`. */
    ghost predicate Given(at: nat, bytes: nat, align: nat, b: Block)
      reads this, buddy
      requires buddy.r.Good()
    {
      && LiveIn(buddy.r, buddy.s.st, runs, b) && at == AddrOf(buddy.g, buddy.r, runs, b)
      && match ClassFor(buddy.r, bytes, align)
         case Some(c) => b.Slot? && runs[b.run].c == c
         case None => && b.Whole? && bytes <= Pow2(buddy.r.maxLog2) && Depth(b.node) == BucketFor(buddy.r, bytes)
                      && align <= Pow2(buddy.r.minLog2)
    }

    /** What a request is answered with holds its bytes, and is aligned as asked. */
    lemma GivenAligned(at: nat, bytes: nat, k: nat, b: Block)
      requires Valid() && buddy.r.Good() && Given(at, bytes, Pow2(k), b)
      ensures bytes <= BytesOf(buddy.r, runs, b) && (at - buddy.g.base) % Pow2(k) == 0
    {
      hide Inv, Core, RunIn, HeadIn, ListOf, NodeAddr, LiveIn, ClassFor, RunSum, SlotSum, RunAt, RunOk, Known, PartialOk, RunsIn, HeadsIn, RunsAt, AddrOf, BytesOf, BucketFor, Depth, Pow2;
      BuddyFacts();
      LiveRun(buddy.r, buddy.s.st, runs, b);
      AsAsked(buddy.g, buddy.r, buddy.s, runs, at, bytes, k, b);
    }

    /** Whether a request's class, where it has one, is one of a table of so many. */
    predicate InTable(bytes: nat, align: nat, heads: nat)
      reads this
    {
      Classed(buddy.r, bytes, align, heads)
    }

    /** Whether a request is refused: no slot of its class and no room for the least run of such slots, no block of the
        buddy's of its size, or an alignment no block has. */
    ghost predicate Refused(bytes: nat, align: nat)
      reads this, buddy
      requires Inv(buddy.r, buddy.s) && InTable(bytes, align, |lists|)
    {
      match ClassFor(buddy.r, bytes, align)
      case Some(c) =>
        lists[c] == [] && forall n :: LeastRun(buddy.r, ClassBytes(c), n) ==> NoRoom(buddy.r, buddy.s, n)
      case None => align > Pow2(buddy.r.minLog2) || NoRoom(buddy.r, buddy.s, bytes)
    }

    lemma ValidFacts()
      requires Laid()
      ensures buddy.r.Good() && Inv(buddy.r, buddy.s) && |lists| == partial.Length && MIN_CLASS_LOG2 < buddy.r.minLog2 <= 32
    {
    }

    /** A slot's run: one there was, of which it was the first free, with nothing asked of the buddy; or one more block of
        the buddy's, of which it is the lowest past the header, the rest free in the order of their addresses. */
    ghost predicate FromRun(s0: State, runs0: map<nat, Run>, i: nat, k: nat)
      reads this, buddy
    {
      && i in runs
      && if i in runs0 then buddy.s == s0 && runs0[i].free == [k] + runs[i].free
         else OneMore(s0.st, buddy.s.st, i) && k == 1 && forall j :: 0 <= j < |runs[i].free| ==> runs[i].free[j] == j + 2
    }

    /** A block of at least `bytes`, aligned to `align` from the base where that is a power of two; 0 where
        refused. Every other block stays live and as it was. A slot is of a run that is the least there could be. */
    method Alloc(bytes: nat, align: nat) returns (at: nat, ghost b: Block)
      requires Valid() && InTable(bytes, align, partial.Length)
      modifies this, buddy, buddy.mem, buddy.nodeIsSplit, partial
      ensures Valid()
      ensures old(Valid() && buddy.r.Good()) && ((at == 0) == old(Refused(bytes, align)))
      ensures at == 0 ==> SameLive(buddy.g, buddy.r, old(buddy.s.st), old(runs), buddy.s.st, runs)
      ensures at != 0 ==> && Given(at, bytes, align, b)
                          && Gained(buddy.g, buddy.r, old(buddy.s.st), old(runs), buddy.s.st, runs, b)
      ensures at != 0 && b.Slot? ==> && LeastRun(buddy.r, BytesOf(buddy.r, runs, b), Size(buddy.r.maxLog2, Depth(b.run)))
                                     && FromRun(old(buddy.s), old(runs), b.run, b.k)
      ensures Untouched(buddy.g, buddy.r, old(buddy.s.st), old(runs), old(buddy.mem[..]), buddy.mem[..])
      ensures allocs == old(allocs) + (if at == 0 then 0 else 1)
      ensures refusals == if at == 0 then (old(refusals) + 1) % 0x1_0000_0000 else old(refusals)
    {
      hide Inv, Core, RunAt, RunIn, HeadIn, PartialOk, ListOf, RunsIn, HeadsIn, RunOk, RunsOk, Gained, Untouched, RunSum, SlotSum, Known, FewerLive, SlotAddr, NodeAddr, RunsAt, InUse, SameLive, ClassFor, NoRoom, Pow2, LiveIn, AddrOf;
      ValidFacts();
      var cls := ClassFor(buddy.r, bytes, align);
      if cls.None? {
        at, b := AllocPages(bytes, align);
      } else {
        RunIsLeast(buddy.r, cls.value);
        at, b := AllocSlot(cls.value);
        if at != 0 {
          LeastHere(b);
        }
      }
      if at == 0 {
        refusals := (refusals + 1) % 0x1_0000_0000;
      } else {
        allocs := allocs + 1;
      }
    }

    lemma LeastHere(b: Block)
      requires Valid() && b.Slot? && LiveIn(buddy.r, buddy.s.st, runs, b)
      ensures LeastRun(buddy.r, BytesOf(buddy.r, runs, b), Size(buddy.r.maxLog2, Depth(b.run)))
    {
      hide Inv, Core, RunIn, HeadIn, PartialOk, RunOk, RunSum, SlotSum, RunsIn, HeadsIn, Known, Pow2, RunLog2;
      LiveRun(buddy.r, buddy.s.st, runs, b);
      RunAtNode(buddy.r, buddy.s.st, runs, b.run);
      RunIsLeast(buddy.r, runs[b.run].c);
    }

    /** What users write in their blocks is nothing to the allocator: every word it will read is another. */
    twostate lemma KeptByUsers()
      requires old(Valid()) && unchanged(this) && unchanged(buddy) && unchanged(buddy.nodeIsSplit) && unchanged(partial)
      requires forall x :: 0 <= x < buddy.mem.Length && buddy.mem[x] != old(buddy.mem[x]) ==>
                             !NoBlockAt(buddy.g, buddy.r, buddy.s.st, runs, x)
      ensures Valid()
    {
      hide Inv, Core, RunAt, RunIn, HeadIn, PartialOk, RunOk, RunsOk, NoBlockAt, RunSum, SlotSum, LiveByte, RunsIn, HeadsIn, RunsAt, Known;
      ghost var g, r, s, w, w' := buddy.g, buddy.r, buddy.s, old(buddy.mem[..]), buddy.mem[..];
      assert old(buddy.Valid() && Apart());
      BuddyHolds();
      assert partial[..] == old(partial[..]);
      UsersOurs(g, r, s, runs, w, w');
      buddy.KeptByUsers();
      PartialKnown(runs, lists);
      UsersRuns(g, r, s, runs, w, w');
      UsersHeads(g, r, s, runs, w, w', partial[..], lists);
    }

    twostate lemma BuddyHolds()
      requires old(Apart() && buddy.Valid()) && unchanged(buddy)
      ensures Core(buddy.r, buddy.s)
    {
    }

    /** A page or more, or an alignment of a page: the buddy's. */
    method AllocPages(bytes: nat, align: nat) returns (at: nat, ghost b: Block)
      requires Valid()
      modifies buddy, buddy.mem, buddy.nodeIsSplit
      ensures Valid() && old(buddy.r.Good() && Inv(buddy.r, buddy.s))
      ensures (at == 0) == (align > Pow2(buddy.r.minLog2) || NoRoom(buddy.r, old(buddy.s), bytes))
      ensures at == 0 ==> SameLive(buddy.g, buddy.r, old(buddy.s.st), runs, buddy.s.st, runs)
      ensures at != 0 ==> && LiveIn(buddy.r, buddy.s.st, runs, b) && b.Whole? && at == AddrOf(buddy.g, buddy.r, runs, b)
                          && bytes <= Pow2(buddy.r.maxLog2) && Depth(b.node) == BucketFor(buddy.r, bytes)
                          && Gained(buddy.g, buddy.r, old(buddy.s.st), runs, buddy.s.st, runs, b)
      ensures Untouched(buddy.g, buddy.r, old(buddy.s.st), runs, old(buddy.mem[..]), buddy.mem[..])
    {
      hide Inv, Core, RunAt, RunIn, HeadIn, PartialOk, Find, Pow2, ListOf, RunsIn, HeadsIn, RunOk, Intact, SameLive, Gained, Untouched, OneMore, RunSum, SlotSum, InUse;
      ghost var g, r, s, w, j := buddy.g, buddy.r, buddy.s, buddy.mem[..], 0;
      BuddyFacts();
      if align > Pow2(buddy.r.minLog2) {
        SameRefl(g, r, s.st, runs);
        UntouchedSame(g, r, s.st, runs, w);
        return 0, Whole(0);
      }
      at, j := TakePages(bytes);
      b := Whole(j);
      BuddyUntouched(g, r, s, runs, w, buddy.mem[..]);
      if at == 0 {
        SameBlocks(g, r, s.st, buddy.s.st, runs);
      } else {
        WholeGained(g, r, s.st, buddy.s.st, runs, j);
        GainedFewer(g, r, s.st, runs, buddy.s.st, runs, b);
      }
      StillOk(r, s.st, buddy.s.st, runs);
    }

    /** A slot of class `c`: of its first run with one, or of a run opened for it. */
    method AllocSlot(c: nat) returns (at: nat, ghost b: Block)
      requires Valid() && c < partial.Length
      modifies this`runLive, this`slotLive, this`runs, this`lists, buddy, buddy.mem, buddy.nodeIsSplit, partial
      ensures Valid() && old(buddy.r.Good() && Inv(buddy.r, buddy.s) && |lists| == partial.Length)
      ensures (at == 0) == (old(lists)[c] == [] && NoRoom(buddy.r, old(buddy.s), RunBytes(buddy.r, c)))
      ensures at == 0 ==> SameLive(buddy.g, buddy.r, old(buddy.s.st), old(runs), buddy.s.st, runs)
      ensures at != 0 ==> && LiveIn(buddy.r, buddy.s.st, runs, b) && b.Slot? && runs[b.run].c == c && FromRun(old(buddy.s), old(runs), b.run, b.k)
                          && at == AddrOf(buddy.g, buddy.r, runs, b)
                          && Gained(buddy.g, buddy.r, old(buddy.s.st), old(runs), buddy.s.st, runs, b)
      ensures Untouched(buddy.g, buddy.r, old(buddy.s.st), old(runs), old(buddy.mem[..]), buddy.mem[..])
    {
      hide Inv, Core, RunAt, RunIn, HeadIn, PartialOk, Find, Pow2, ListOf, RunsIn, HeadsIn, RunOk, Intact, SameLive, Gained, Untouched, OneMore, RunSum, SlotSum, InUse, Known, FewerLive, SlotAddr, NodeAddr, RunsAt, FreshRun;
      ghost var g, r, st, w, runs0 := buddy.g, buddy.r, buddy.s.st, buddy.mem[..], runs;
      ghost var i := FirstIn(c);
      var run := partial[c];
      UntouchedSame(g, r, st, runs0, w);
      SameRefl(g, r, st, runs);
      if run == 0 {
        run, i := OpenRun(c);
        if run == 0 {
          AllInUse();
          return 0, Whole(0);
        }
        FreshIdle(r, c);
      }
      SameFewer(g, r, st, runs0, buddy.s.st, runs);
      ghost var st1, w1, runs1 := buddy.s.st, buddy.mem[..], runs;
      at, b := TakeSlot(c, run, i);
      if i !in runs0 {
        FreshOrder(r, c, b.k, runs[i].free);
      }
      GainedAfterSame(g, r, st, runs0, st1, runs1, buddy.s.st, runs, b);
      UntouchedFewer(g, r, st, runs0, st1, runs1, w1, buddy.mem[..]);
      UntouchedThen(g, r, st, runs0, w, w1, buddy.mem[..]);
    }

    lemma AllInUse()
      requires Laid() && Summed() && forall j :: j in runs ==> InUse(buddy.r, runs[j]) > 0
      ensures Valid()
    {
    }

    /** The class's first run with a slot to hand out, at its head. */
    lemma FirstIn(c: nat) returns (i: nat)
      requires Valid() && c < partial.Length
      ensures buddy.r.Good() && Inv(buddy.r, buddy.s) && |lists| == partial.Length
      ensures (partial[c] == 0) == (lists[c] == [])
      ensures lists[c] != [] ==> && i in runs && runs[i].c == c && runs[i].free != []
                                 && partial[c] == NodeAddr(buddy.g, buddy.r, i)
    {
      hide Core, Inv, RunAt, RunIn, RunSum, SlotSum;
      BuddyFacts();
      assert HeadIn(buddy.g, buddy.r, buddy.mem[..], partial[..][c], lists[c]) && ListOf(runs, lists[c], c);
      Members(lists[c]);
      i := if lists[c] == [] then 0 else lists[c][0];
    }

    /** The first free slot of a run out: its run leaves its class's list where it was the last. */
    method TakeSlot(c: nat, run: nat, ghost i: nat) returns (at: nat, ghost b: Block)
      requires Laid() && Summed() && i in runs && runs[i].c == c && run == NodeAddr(buddy.g, buddy.r, i) && runs[i].free != []
      requires c < partial.Length && forall j :: j in runs && j != i ==> InUse(buddy.r, runs[j]) > 0
      modifies this`slotLive, this`runs, this`lists, buddy.mem, partial
      ensures Valid()
      ensures b.Slot? && b.run == i && i in runs && old(runs)[i].free == [b.k] + runs[i].free
      ensures runs[i].c == c && at == AddrOf(buddy.g, buddy.r, runs, b) != 0
      ensures Gained(buddy.g, buddy.r, buddy.s.st, old(runs), buddy.s.st, runs, b)
      ensures Untouched(buddy.g, buddy.r, buddy.s.st, old(runs), old(buddy.mem[..]), buddy.mem[..])
    {
      hide Inv, Core, RunAt, RunIn, HeadIn, PartialOk, ListOf, RunsIn, HeadsIn, RunOk, Gained, Untouched, RunSum, SlotSum, Known, FewerLive, SlotAddr, NodeAddr, RunsAt, InUse;
      ghost var g, r, st, w, runs0 := buddy.g, buddy.r, buddy.s.st, buddy.mem[..], runs;
      BuddyFacts();
      LaidLoose();
      Tables();
      RunAtNode(r, st, runs, i);
      at := PopSlot(c, run, i);
      b := Slot(i, runs0[i].free[0]);
      SlotGained(g, r, st, runs0, i);
      GainedFewer(g, r, st, runs0, st, runs, b);
      RunAtNode(r, st, runs, i);
      SlotLive(r, st, runs, i, runs0[i].free[0]);
      SlotNotZero(g, r, i, runs[i]);
      ghost var w1 := buddy.mem[..];
      if buddy.mem[run + 8] == 0 {
        ghost var k := WhereIn(runs0, lists, i);
        ListedDrop(runs0, lists, runs, i, k);
        Leave(c, run, k);
      } else {
        ListedSame(runs0, lists, i, runs[i]);
      }
      AllInUse();
      UntouchedFewer(g, r, st, runs0, st, runs, w1, buddy.mem[..]);
      UntouchedThen(g, r, st, runs0, w, w1, buddy.mem[..]);
    }

    /** Takes back what a request of `bytes` at `align` was answered with. Every other block stays live and as
        it was; a run goes back to the buddy exactly when its last slot does. */
    method Dealloc(at: nat, bytes: nat, align: nat, ghost b: Block)
      requires Valid() && buddy.r.Good() && InTable(bytes, align, partial.Length)
      requires at == 0 ==> ClassFor(buddy.r, bytes, align).None?
      requires at != 0 ==> Given(at, bytes, align, b)
      modifies this, buddy, buddy.mem, buddy.nodeIsSplit, partial
      ensures Valid()
      ensures at == 0 ==> SameLive(buddy.g, buddy.r, old(buddy.s.st), old(runs), buddy.s.st, runs)
      ensures at != 0 ==> Gained(buddy.g, buddy.r, buddy.s.st, runs, old(buddy.s.st), old(runs), b)
      ensures at != 0 && b.Whole? ==> buddy.Freed(old(buddy.s), b.node)
      ensures at != 0 && b.Slot? ==> WentBack(old(buddy.s), old(runs), b.run)
      ensures Untouched(buddy.g, buddy.r, buddy.s.st, runs, old(buddy.mem[..]), buddy.mem[..])
    {
      hide Inv, Core, RunAt, RunIn, HeadIn, PartialOk, ListOf, RunsIn, HeadsIn, RunOk, RunsOk, Gained, Untouched, RunSum, SlotSum, Known, FewerLive, SlotAddr, NodeAddr, RunsAt, InUse, SameLive, ClassFor, NoRoom, Pow2, ClassBytes;
      ValidFacts();
      var cls := ClassFor(buddy.r, bytes, align);
      if cls.None? {
        DeallocPages(at, bytes, b);
      } else {
        DeallocSlot(at, cls.value, b.run, b.k);
      }
    }

    /** Run `i` of `runs0` is given back exactly where one slot of it was in use. */
    ghost predicate WentBack(s0: State, runs0: map<nat, Run>, i: nat)
      reads this, buddy
    {
      && i in runs0
      && (i in runs <==> InUse(buddy.r, runs0[i]) > 1)
      && (if i in runs then buddy.s == s0 else buddy.Freed(s0, i))
    }

    method DeallocPages(at: nat, bytes: nat, ghost b: Block)
      requires Valid() && buddy.r.Good()
      requires at != 0 ==> && b.Whole? && LiveIn(buddy.r, buddy.s.st, runs, b) && at == AddrOf(buddy.g, buddy.r, runs, b)
                           && bytes <= Pow2(buddy.r.maxLog2) && Depth(b.node) == BucketFor(buddy.r, bytes)
      modifies buddy, buddy.mem, buddy.nodeIsSplit
      ensures Valid()
      ensures at == 0 ==> SameLive(buddy.g, buddy.r, old(buddy.s.st), runs, buddy.s.st, runs)
      ensures at != 0 ==> Gained(buddy.g, buddy.r, buddy.s.st, runs, old(buddy.s.st), runs, b) && buddy.Freed(old(buddy.s), b.node)
      ensures Untouched(buddy.g, buddy.r, buddy.s.st, runs, old(buddy.mem[..]), buddy.mem[..])
    {
      hide Inv, Core, RunAt, RunIn, HeadIn, PartialOk, ListOf, RunsIn, RunOk, Gained, Untouched, Ours, LiveByte, RunSum, SlotSum, Pow2, Intact, Release, Below, InUse, SameLive, RunsAt, Known;
      ghost var g, r, s, w := buddy.g, buddy.r, buddy.s, buddy.mem[..];
      BuddyFacts();
      LaidLoose();
      SameRefl(g, r, s.st, runs);
      if at != 0 {
        buddy.PtrIsAddr(b.node);
      }
      buddy.Free(at, bytes);
      assert partial[..] == old(partial[..]);
      BuddyFacts();
      if at != 0 {
        PagesStep(g, r, s, buddy.s, runs, b.node, w, buddy.mem[..], partial[..], lists);
      } else {
        UntouchedSame(g, r, s.st, runs, w);
      }
    }

    /** A run whose last slot came back leaves its list, if it was in it, and goes to the buddy. */
    method GiveBack(c: nat, run: nat, wasFull: bool, ghost i: nat, ghost runs0: map<nat, Run>)
      requires Loose() && Summed() && c < partial.Length && i in runs && i in runs0 && run == NodeAddr(buddy.g, buddy.r, i)
      requires runs == runs0[i := runs[i]] && runs[i].c == runs0[i].c == c && wasFull == (runs0[i].free == [])
      requires PartialOk(runs0, lists) && InUse(buddy.r, runs[i]) == 0
      requires forall j :: j in runs && j != i ==> InUse(buddy.r, runs[j]) > 0
      modifies this`runLive, this`runs, this`lists, buddy, buddy.mem, buddy.nodeIsSplit, partial
      ensures Valid() && runs == old(runs) - {i} && buddy.Freed(old(buddy.s), i)
      ensures SameLive(buddy.g, buddy.r, old(buddy.s.st), old(runs), buddy.s.st, runs)
      ensures Untouched(buddy.g, buddy.r, buddy.s.st, runs, old(buddy.mem[..]), buddy.mem[..])
    {
      hide Inv, Core, RunAt, RunIn, HeadIn, PartialOk, ListOf, RunsIn, HeadsIn, RunOk, Gained, Untouched, RunSum, SlotSum, Known, FewerLive, SlotAddr, NodeAddr, RunsAt, InUse, SameLive, Slots, RunBytes, Release, OneMore;
      ghost var g, r, st, w, runs1 := buddy.g, buddy.r, buddy.s.st, buddy.mem[..], runs;
      UntouchedSame(g, r, st, runs, w);
      Tables();
      if !wasFull {
        ghost var k := WhereIn(runs0, lists, i);
        ListedDrop(runs0, lists, runs - {i}, i, k);
        Leave(c, run, k);
      } else {
        assert runs - {i} == runs0 - {i};
        ListedLess(runs0, lists, runs - {i}, i);
      }
      Unlisted(runs - {i}, lists, c, i);
      ghost var w1 := buddy.mem[..];
      CloseRun(c, run, i);
      AllInUse();
      SameFewer(g, r, st, runs1, buddy.s.st, runs);
      UntouchedFewer(g, r, buddy.s.st, runs, st, runs1, w, w1);
      UntouchedThen(g, r, buddy.s.st, runs, w, w1, buddy.mem[..]);
    }

    method DeallocSlot(at: nat, c: nat, ghost i: nat, ghost k: nat)
      requires Valid() && buddy.r.Good() && c < partial.Length
      requires LiveIn(buddy.r, buddy.s.st, runs, Slot(i, k)) && runs[i].c == c
      requires at == AddrOf(buddy.g, buddy.r, runs, Slot(i, k))
      modifies this`runLive, this`slotLive, this`runs, this`lists, buddy, buddy.mem, buddy.nodeIsSplit, partial
      ensures Valid()
      ensures Gained(buddy.g, buddy.r, buddy.s.st, runs, old(buddy.s.st), old(runs), Slot(i, k))
      ensures WentBack(old(buddy.s), old(runs), i)
      ensures Untouched(buddy.g, buddy.r, buddy.s.st, runs, old(buddy.mem[..]), buddy.mem[..])
    {
      hide Inv, Core, RunAt, RunIn, HeadIn, PartialOk, ListOf, RunsIn, HeadsIn, RunOk, Gained, Untouched, RunSum, SlotSum, Known, FewerLive, SlotAddr, NodeAddr, RunsAt, InUse, SameLive, Slots, RunBytes;
      ghost var g, r, s, w, runs0 := buddy.g, buddy.r, buddy.s, buddy.mem[..], runs;
      BuddyFacts();
      LaidLoose();
      Tables();
      RunAtNode(r, s.st, runs, i);
      MaskedRun(g, r, s, runs, i, k);
      var off := at - buddy.g.base;
      var run := buddy.g.base + (off - off % RunBytes(buddy.r, c));
      SlotLost(g, r, s.st, runs, i, k);
      var wasFull, inUse := PushSlot(at, c, run, i, k);
      PushedSums(r, runs0[i], runs[i]);
      GainedFewer(g, r, s.st, runs, s.st, runs0, Slot(i, k));
      ghost var w1, runs1 := buddy.mem[..], runs;
      SameRefl(g, r, s.st, runs);
      UntouchedSame(g, r, s.st, runs, w1);
      if inUse == 0 {
        GiveBack(c, run, wasFull, i, runs0);
      } else {
        if wasFull {
          ListedFront(runs0, lists, i, runs[i]);
          Join(c, run, i);
        } else {
          ListedSame(runs0, lists, i, runs[i]);
        }
        AllInUse();
      }
      LostThenSame(g, r, s.st, runs0, s.st, runs1, buddy.s.st, runs, Slot(i, k));
      SameFewer(g, r, s.st, runs1, buddy.s.st, runs);
      UntouchedFewer(g, r, buddy.s.st, runs, s.st, runs1, w, w1);
      UntouchedThen(g, r, buddy.s.st, runs, w, w1, buddy.mem[..]);
    }
  }

  lemma RunAtNode(r: Range, st: seq<Status>, runs: map<nat, Run>, i: nat)
    requires RunsAt(r, st, runs) && i in runs
    ensures i < |st| && RunOk(r, runs[i]) && runs[i].c < MAX_CLASSES
  {
    assert RunAt(r, st, i, runs[i]);
  }

  lemma PushedSums(r: Range, run: Run, run': Run)
    requires |run'.free| == |run.free| + 1 && run'.c == run.c
    ensures InUse(r, run') == InUse(r, run) - 1
    ensures InUse(r, run') * ClassBytes(run.c) == InUse(r, run) * ClassBytes(run.c) - ClassBytes(run.c)
  {
  }

  /** A live slot's bytes are among the slots' in use. */
  lemma SlotPartHeld(r: Range, st: seq<Status>, runs: map<nat, Run>, i: nat, k: nat, n: nat)
    requires RunsAt(r, st, runs) && LiveIn(r, st, runs, Slot(i, k)) && i < n
    ensures SlotSum(r, runs, n) >= ClassBytes(runs[i].c)
  {
    SlotSumAtLeast(r, st, runs, i, n);
    RunAtNode(r, st, runs, i);
    StillInUse(r, runs[i], k);
    MulMonotone(1, InUse(r, runs[i]), ClassBytes(runs[i].c));
  }

  lemma {:induction false} SlotSumAtLeast(r: Range, st: seq<Status>, runs: map<nat, Run>, i: nat, n: nat)
    requires RunsAt(r, st, runs)
    ensures SlotSum(r, runs, n) >= if i < n then SlotPart(r, runs, i) else 0
  {
    if n > 0 {
      SlotSumAtLeast(r, st, runs, i, n - 1);
      SlotPartNat(r, st, runs, n - 1);
      SlotPartNat(r, st, runs, i);
    }
  }

  lemma SlotPartNat(r: Range, st: seq<Status>, runs: map<nat, Run>, i: nat)
    requires RunsAt(r, st, runs)
    ensures SlotPart(r, runs, i) >= 0
  {
    if i in runs {
      RunAtNode(r, st, runs, i);
      FewFree(runs[i].free, Slots(r, runs[i].c));
      MulMonotone(0, InUse(r, runs[i]), ClassBytes(runs[i].c));
    }
  }

  lemma SameFewer(g: Layout, r: Range, st: seq<Status>, runs: map<nat, Run>, st': seq<Status>, runs': map<nat, Run>)
    requires SameLive(g, r, st, runs, st', runs')
    ensures FewerLive(g, r, st, runs, st', runs') && FewerLive(g, r, st', runs', st, runs)
  {
  }

  lemma GainedFewer(g: Layout, r: Range, st: seq<Status>, runs: map<nat, Run>, st': seq<Status>, runs': map<nat, Run>, b: Block)
    requires Gained(g, r, st, runs, st', runs', b)
    ensures FewerLive(g, r, st, runs, st', runs') && LiveIn(r, st', runs', b)
  {
  }

  lemma PagesStep(g: Layout, r: Range, s: State, s': State, runs: map<nat, Run>, j: nat, w: seq<nat>, w': seq<nat>, heads: seq<nat>, lists: seq<seq<nat>>)
    requires Core(r, s) && j < |s.st| && s.st[j].Used? && Below(r.maxLog2, s.st, s.max, j) && s' == Release(r, s, j)
    requires RunsOk(r, s.st, runs) && Known(runs, lists) && j !in runs
    requires RunsIn(g, r, w, runs) && HeadsIn(g, r, w, heads, lists)
    requires Core(r, s') && Intact(g, r, s'.st, w, w')
    ensures RunsAt(r, s'.st, runs) && RunsOk(r, s'.st, runs) && RunsIn(g, r, w', runs) && HeadsIn(g, r, w', heads, lists)
    ensures Gained(g, r, s'.st, runs, s.st, runs, Whole(j))
    ensures |s'.st| == |s.st|
    ensures Untouched(g, r, s'.st, runs, w, w')
  {
    hide Core, Release, Below, RunIn, HeadIn, RunOk, Untouched, Intact, Gained, InUse, KnownList, Known, RunsIn, RunAt;
    CoreGood(r, s);
    RunReleased(r, s, s', j);
    assert runs - {j} == runs;
    RunsLess(r, s.st, s'.st, runs, j);
    StillOk(r, s.st, s'.st, runs);
    WholeGained(g, r, s'.st, s.st, runs, j);
    IntactRuns(g, r, s'.st, runs, w, w');
    IntactHeads(g, r, s'.st, runs, w, w', heads, lists);
    BuddyUntouched(g, r, s', runs, w, w');
  }

  lemma Unlisted(runs: map<nat, Run>, lists: seq<seq<nat>>, c: nat, i: nat)
    requires PartialOk(runs, lists) && c < |lists| && i !in runs
    ensures i !in lists[c]
  {
    assert ListOf(runs, lists[c], c);
  }

  /** A run in no list gone. */
  lemma ListedLess(runs: map<nat, Run>, lists: seq<seq<nat>>, runs': map<nat, Run>, i: nat)
    requires PartialOk(runs, lists) && i in runs && runs[i].free == [] && runs' == runs - {i}
    ensures PartialOk(runs', lists)
  {
    ListedGone(runs, lists, i);
  }

  /** A live block's size is a power of two. */
  lemma BlockLog2(r: Range, s: State, runs: map<nat, Run>, b: Block) returns (j: nat)
    requires Core(r, s) && RunsAt(r, s.st, runs) && LiveIn(r, s.st, runs, b)
    ensures BytesOf(r, runs, b) == Pow2(j)
  {
    match b
    case Slot(i, k) =>
      j := ClassLog2(runs[i].c);
    case Whole(i) =>
      DepthBelow(i, r.Buckets());
      j := r.maxLog2 - Depth(i);
  }

  lemma AsAsked(g: Layout, r: Range, s: State, runs: map<nat, Run>, at: nat, bytes: nat, k: nat, b: Block)
    requires Core(r, s) && RunsAt(r, s.st, runs) && LiveIn(r, s.st, runs, b) && at == AddrOf(g, r, runs, b)
    requires match ClassFor(r, bytes, Pow2(k))
             case Some(c) => b.Slot? && runs[b.run].c == c
             case None => b.Whole? && bytes <= Pow2(r.maxLog2) && Depth(b.node) == BucketFor(r, bytes) && Pow2(k) <= Pow2(r.minLog2)
    ensures at >= g.base && bytes <= BytesOf(r, runs, b) && (at - g.base) % Pow2(k) == 0
  {
    hide Core, RunsAt, ClassFor, RunAt;
    CoreGood(r, s);
    BlockAligned(g, r, s, runs, b);
    var j := BlockLog2(r, s, runs, b);
    BlockFor(r, s, runs, bytes, k, b);
    Pow2Order(k, j);
    AlignedToLess(at - g.base, k, j);
  }

  lemma BlockFor(r: Range, s: State, runs: map<nat, Run>, bytes: nat, k: nat, b: Block)
    requires r.Good() && LiveIn(r, s.st, runs, b)
    requires match ClassFor(r, bytes, Pow2(k))
             case Some(c) => b.Slot? && runs[b.run].c == c
             case None => b.Whole? && bytes <= Pow2(r.maxLog2) && Depth(b.node) == BucketFor(r, bytes) && Pow2(k) <= Pow2(r.minLog2)
    ensures bytes <= BytesOf(r, runs, b) && Pow2(k) <= BytesOf(r, runs, b)
  {
    hide ClassFor, Pow2, Depth;
    if ClassFor(r, bytes, Pow2(k)).Some? {
      ClassTight(r, bytes, Pow2(k));
    } else {
      BucketTight(r, bytes, r.Buckets() - 1);
      Pow2Monotone(r.minLog2, r.maxLog2 - Depth(b.node));
    }
  }

  lemma LiveRun(r: Range, st: seq<Status>, runs: map<nat, Run>, b: Block)
    requires LiveIn(r, st, runs, b)
    ensures match b case Slot(i, k) => i in runs case Whole(i) => i < |st|
  {
  }

  lemma Pow2Order(a: nat, b: nat)
    requires Pow2(a) <= Pow2(b)
    ensures a <= b
  {
    if b < a {
      Pow2Monotone(b + 1, a);
    }
  }

  /** Changes in live blocks only. */
  ghost predicate Users(g: Layout, r: Range, st: seq<Status>, runs: map<nat, Run>, w: seq<nat>, w': seq<nat>) {
    |w'| == |w| && forall x :: 0 <= x < |w| && w'[x] != w[x] ==> !NoBlockAt(g, r, st, runs, x)
  }

  lemma UsersOurs(g: Layout, r: Range, s: State, runs: map<nat, Run>, w: seq<nat>, w': seq<nat>)
    requires Core(r, s) && RunsAt(r, s.st, runs) && Users(g, r, s.st, runs, w, w')
    ensures forall x :: 0 <= x < |w| && w'[x] != w[x] ==> LiveByte(g, r, s.st, x)
  {
    forall x | 0 <= x < |w| && w'[x] != w[x]
      ensures LiveByte(g, r, s.st, x)
    {
      assert !NoBlockAt(g, r, s.st, runs, x);
      var b :| LiveIn(r, s.st, runs, b) && !Misses(g, r, runs, b, x);
      var i := InBlock(g, r, s, runs, b);
      assert Holds(r.maxLog2, i, x - g.base);
    }
  }

  lemma UsersRuns(g: Layout, r: Range, s: State, runs: map<nat, Run>, w: seq<nat>, w': seq<nat>)
    requires Core(r, s) && RunsAt(r, s.st, runs) && Users(g, r, s.st, runs, w, w') && RunsIn(g, r, w, runs)
    ensures RunsIn(g, r, w', runs)
  {
    forall i | i in runs
      ensures RunIn(r, w', NodeAddr(g, r, i), runs[i])
    {
      UsersRun(g, r, s, runs, i, w, w');
    }
  }

  lemma UsersRun(g: Layout, r: Range, s: State, runs: map<nat, Run>, i: nat, w: seq<nat>, w': seq<nat>)
    requires Core(r, s) && RunsAt(r, s.st, runs) && Users(g, r, s.st, runs, w, w') && i in runs
    requires RunIn(r, w, NodeAddr(g, r, i), runs[i])
    ensures RunIn(r, w', NodeAddr(g, r, i), runs[i])
  {
    hide Core, NoBlockAt, RunsAt;
    var a, run := NodeAddr(g, r, i), runs[i];
    HeaderUntouched(g, r, s, runs, i, a + 8);
    HeaderUntouched(g, r, s, runs, i, a + 12);
    RunAtNode(r, s.st, runs, i);
    forall j | 0 <= j < |run.free|
      ensures FreeSlotIn(w', a, run, j)
    {
      assert FreeSlotIn(w, a, run, j) && run.free[j] in run.free;
      FreeUntouched(g, r, s, runs, i, run.free[j]);
    }
  }

  lemma UsersHeads(g: Layout, r: Range, s: State, runs: map<nat, Run>, w: seq<nat>, w': seq<nat>, heads: seq<nat>, lists: seq<seq<nat>>)
    requires Core(r, s) && RunsAt(r, s.st, runs) && Users(g, r, s.st, runs, w, w')
    requires Known(runs, lists) && HeadsIn(g, r, w, heads, lists)
    ensures HeadsIn(g, r, w', heads, lists)
  {
    hide Core, NoBlockAt, RunsAt;
    forall c | 0 <= c < |lists|
      ensures HeadIn(g, r, w', heads[c], lists[c])
    {
      assert HeadIn(g, r, w, heads[c], lists[c]) && KnownList(runs, lists[c], c);
      var q := Addrs(g, r, lists[c]);
      forall k | 0 <= k < |q| && q[k] + HEAD <= |w|
        ensures w'[q[k]] == w[q[k]] && w'[q[k] + 4] == w[q[k] + 4]
      {
        HeaderUntouched(g, r, s, runs, lists[c][k], q[k]);
        HeaderUntouched(g, r, s, runs, lists[c][k], q[k] + 4);
      }
      PartialKept(w, w', heads[c], q);
    }
  }

  /** The mask of a slot's offset gives its run. */
  lemma MaskedRun(g: Layout, r: Range, s: State, runs: map<nat, Run>, i: nat, k: nat)
    requires Core(r, s) && RunsAt(r, s.st, runs) && LiveIn(r, s.st, runs, Slot(i, k))
    ensures var at, c := AddrOf(g, r, runs, Slot(i, k)), runs[i].c;
            && at >= g.base && RunBytes(r, c) > 0
            && g.base + (at - g.base - (at - g.base) % RunBytes(r, c)) == NodeAddr(g, r, i)
  {
    assert RunAt(r, s.st, i, runs[i]);
    DepthBelow(i, r.Buckets());
    Aligned(r.maxLog2, i);
    MaskFindsRun(r, Off(r.maxLog2, i), runs[i].c, k);
  }

  /** A run with a live slot has a slot in use. */
  lemma SlotLive(r: Range, st: seq<Status>, runs: map<nat, Run>, i: nat, k: nat)
    requires LiveIn(r, st, runs, Slot(i, k)) && RunOk(r, runs[i])
    ensures InUse(r, runs[i]) > 0
  {
    StillInUse(r, runs[i], k);
  }

  lemma SlotNotZero(g: Layout, r: Range, i: nat, run: Run)
    requires 0 < g.base
    ensures (NextFree(NodeAddr(g, r, i), run, 0) == 0) == (run.free == [])
    ensures forall k :: SlotAddr(NodeAddr(g, r, i), run.c, k) != 0
  {
  }

  lemma SameRefl(g: Layout, r: Range, st: seq<Status>, runs: map<nat, Run>)
    ensures SameLive(g, r, st, runs, st, runs)
  {
  }

  /** Runs in use stay so while blocks are only handed out. */
  lemma StillOk(r: Range, st: seq<Status>, st': seq<Status>, runs: map<nat, Run>)
    requires RunsOk(r, st, runs) && RunsAt(r, st', runs)
    ensures RunsOk(r, st', runs)
  {
  }

  lemma CloseStep(g: Layout, r: Range, s: State, s': State, runs: map<nat, Run>, i: nat, w: seq<nat>, w': seq<nat>, heads: seq<nat>, lists: seq<seq<nat>>)
    requires Core(r, s) && i < |s.st| && s.st[i].Used? && Below(r.maxLog2, s.st, s.max, i) && s' == Release(r, s, i)
    requires RunsAt(r, s.st, runs) && Known(runs, lists) && i in runs && RunOk(r, runs[i]) && InUse(r, runs[i]) == 0 && runs[i].c < |lists| && i !in lists[runs[i].c]
    requires RunsIn(g, r, w, runs) && HeadsIn(g, r, w, heads, lists)
    requires Core(r, s') && Intact(g, r, s'.st, w, w')
    ensures RunsAt(r, s'.st, runs - {i}) && Known(runs - {i}, lists) && RunsIn(g, r, w', runs - {i}) && HeadsIn(g, r, w', heads, lists)
    ensures OneMore(s'.st, s.st, i)
    ensures SameLive(g, r, s.st, runs, s'.st, runs - {i})
    ensures Untouched(g, r, s'.st, runs - {i}, w, w')
  {
    hide Core, Release, Below, RunIn, HeadIn, RunOk, RunsAt, Untouched, Intact, SameLive, OneMore, InUse, Slots, KnownList, Known, RunsIn;
    CoreGood(r, s);
    RunReleased(r, s, s', i);
    RunsLess(r, s.st, s'.st, runs, i);
    RunClosed(g, r, s.st, runs, s'.st, i);
    KnownLess(runs, lists, i);
    RunsInLess(g, r, runs, i, w);
    IntactRuns(g, r, s'.st, runs - {i}, w, w');
    IntactHeads(g, r, s'.st, runs - {i}, w, w', heads, lists);
    BuddyUntouched(g, r, s', runs - {i}, w, w');
  }

  lemma CoreGood(r: Range, s: State)
    requires Core(r, s)
    ensures r.Good()
  {
  }

  lemma RunReleased(r: Range, s: State, s': State, i: nat)
    requires Core(r, s) && i < |s.st| && s.st[i].Used? && Below(r.maxLog2, s.st, s.max, i) && s' == Release(r, s, i)
    ensures OneMore(s'.st, s.st, i)
  {
  }

  lemma RunsLess(r: Range, st: seq<Status>, st': seq<Status>, runs: map<nat, Run>, i: nat)
    requires RunsAt(r, st, runs) && OneMore(st', st, i)
    ensures RunsAt(r, st', runs - {i})
  {
    var runs' := runs - {i};
    forall j | j in runs'
      ensures RunAt(r, st', j, runs'[j])
    {
      assert RunAt(r, st, j, runs[j]);
    }
  }

  lemma RunsInLess(g: Layout, r: Range, runs: map<nat, Run>, i: nat, w: seq<nat>)
    requires RunsIn(g, r, w, runs)
    ensures RunsIn(g, r, w, runs - {i})
  {
  }

  lemma KnownLess(runs: map<nat, Run>, lists: seq<seq<nat>>, i: nat)
    requires Known(runs, lists) && i in runs && runs[i].c < |lists| && i !in lists[runs[i].c]
    ensures Known(runs - {i}, lists)
  {
    var runs' := runs - {i};
    forall c | 0 <= c < |lists|
      ensures KnownList(runs', lists[c], c)
    {
      assert KnownList(runs, lists[c], c);
      assert forall k :: 0 <= k < |lists[c]| ==> lists[c][k] in lists[c];
    }
  }

  /** A run's bytes are among the runs'. */
  lemma {:induction false} RunHeld(r: Range, st: seq<Status>, runs: map<nat, Run>, i: nat, n: nat)
    requires i in runs && i < n
    ensures RunSum(r, runs, n) >= RunBytes(r, runs[i].c)
    decreases n
  {
    if i != n - 1 {
      RunHeld(r, st, runs, i, n - 1);
    }
  }

  lemma PoppedSums(r: Range, run: Run, run': Run)
    requires run.free != [] && run' == Run(run.c, run.free[1..])
    ensures InUse(r, run') == InUse(r, run) + 1
    ensures InUse(r, run') * ClassBytes(run.c) == InUse(r, run) * ClassBytes(run.c) + ClassBytes(run.c)
  {
  }

  /** The buddy has no block for a request. */
  ghost predicate NoRoom(r: Range, s: State, request: nat)
    requires Inv(r, s)
  {
    request > Pow2(r.maxLog2) || Find(r, s, BucketFor(r, request), BucketFor(r, request)).1.None?
  }

  lemma UsedFits(g: Layout, r: Range, s: State, n: nat, i: nat)
    requires Inv(r, s) && Fits(g, r, n) && i < |s.st| && s.st[i].Used?
    ensures NodeAddr(g, r, i) + Size(r.maxLog2, Depth(i)) <= n
  {
    assert BelowAt(r.maxLog2, s.st[i], s.max, i, -1);
  }

  lemma UsedNow(st: seq<Status>, st': seq<Status>, i: nat)
    requires OneMore(st, st', i)
    ensures i < |st'| && st'[i].Used?
  {
  }

  lemma OursFacts(g: Layout, r: Range, st: seq<Status>, w: seq<nat>, w': seq<nat>)
    requires Ours(g, r, st, w, w')
    ensures |w'| == |w| && forall x :: 0 <= x < |w| && w'[x] != w[x] ==> LiveByte(g, r, st, x)
  {
  }

  /** The bytes of the runs among the first `n` nodes. */
  ghost function RunSum(r: Range, runs: map<nat, Run>, n: nat): nat {
    if n == 0 then 0 else RunSum(r, runs, n - 1) + RunPart(r, runs, n - 1)
  }

  ghost function RunPart(r: Range, runs: map<nat, Run>, i: nat): nat {
    if i in runs then RunBytes(r, runs[i].c) else 0
  }

  /** The bytes of the slots in use in the runs among the first `n` nodes. */
  ghost function SlotSum(r: Range, runs: map<nat, Run>, n: nat): int {
    if n == 0 then 0 else SlotSum(r, runs, n - 1) + SlotPart(r, runs, n - 1)
  }

  ghost function SlotPart(r: Range, runs: map<nat, Run>, i: nat): int {
    if i in runs then InUse(r, runs[i]) * ClassBytes(runs[i].c) else 0
  }

  lemma {:induction false} NothingOut(r: Range, n: nat)
    ensures RunSum(r, map[], n) == 0 == SlotSum(r, map[], n)
  {
    if n > 0 {
      NothingOut(r, n - 1);
    }
  }

  /** One run's change moves the sums by its own. */
  lemma {:induction false} SumsChange(r: Range, runs: map<nat, Run>, runs': map<nat, Run>, i: nat, n: nat)
    requires forall j :: j != i ==> ((j in runs') == (j in runs) && (j in runs ==> runs'[j] == runs[j]))
    ensures RunSum(r, runs', n) - RunSum(r, runs, n) ==
            if i >= n then 0 else RunPart(r, runs', i) - RunPart(r, runs, i)
    ensures SlotSum(r, runs', n) - SlotSum(r, runs, n) == if i >= n then 0 else SlotPart(r, runs', i) - SlotPart(r, runs, i)
  {
    if n > 0 {
      SumsChange(r, runs, runs', i, n - 1);
    }
  }
}
