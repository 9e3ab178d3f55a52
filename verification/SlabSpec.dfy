/** Size classes over the buddy tree, as values: which of its used blocks are runs, and each run's free slots
    in the order they will be handed out. A slot is an index from its run's start; slot 0 holds the header. */
module SlabSpec {
  import opened Arith
  import opened BuddyTree
  import opened BuddySpec
  import opened Prelude

  const MIN_CLASS_LOG2: nat := 4
  const MIN_SLOTS_LOG2: nat := 4
  /** A run's header, in bytes: its neighbours in the class's list, its first free slot, its slots in use. */
  const HEAD: nat := 16
  /** Heads enough for any range's classes: as many as the Rust allocator has. */
  const MAX_CLASSES: nat := 32

  /** As many heads as the C++ allocator has. */
  function ClassCount(r: Range): nat
    requires MIN_CLASS_LOG2 <= r.minLog2
  {
    r.minLog2 - MIN_CLASS_LOG2
  }

  function ClassLog2(c: nat): nat {
    MIN_CLASS_LOG2 + c
  }

  function RunLog2(r: Range, c: nat): nat {
    if ClassLog2(c) + MIN_SLOTS_LOG2 > r.minLog2 then ClassLog2(c) + MIN_SLOTS_LOG2 else r.minLog2
  }

  function ClassBytes(c: nat): nat {
    Pow2(ClassLog2(c))
  }

  function RunBytes(r: Range, c: nat): nat {
    Pow2(RunLog2(r, c))
  }

  function Slots(r: Range, c: nat): (n: nat)
    ensures n >= 16
  {
    Pow2Monotone(4, RunLog2(r, c) - ClassLog2(c));
    assert Pow2(4) == 16;
    Pow2(RunLog2(r, c) - ClassLog2(c))
  }

  lemma SlotsFill(r: Range, c: nat)
    ensures Slots(r, c) * ClassBytes(c) == RunBytes(r, c)
    ensures ClassBytes(c) >= HEAD
  {
    Pow2Add(RunLog2(r, c) - ClassLog2(c), ClassLog2(c));
    Pow2Monotone(4, ClassLog2(c));
    assert Pow2(4) == 16;
  }

  /** `n` bytes could be a run of slots of `slot` bytes: a power of two that a smallest block is no larger than, and that
      sixteen slots fit in. */
  ghost predicate Enough(r: Range, slot: nat, n: nat) {
    (exists k: nat :: n == Pow2(k)) && n >= Pow2(r.minLog2) && n >= 16 * slot
  }

  ghost predicate LeastRun(r: Range, slot: nat, n: nat) {
    Enough(r, slot, n) && forall m :: Enough(r, slot, m) ==> n <= m
  }

  /** A class's run is the least there could be of its slots: half of one would not do. */
  lemma RunIsLeast(r: Range, c: nat)
    ensures forall n :: LeastRun(r, ClassBytes(c), n) <==> n == RunBytes(r, c)
    ensures forall h :: 2 * h == RunBytes(r, c) ==> !Enough(r, ClassBytes(c), h)
  {
    RunEnough(r, c);
    forall m | Enough(r, ClassBytes(c), m)
      ensures RunBytes(r, c) <= m
    {
      EnoughHolds(r, c, m);
    }
    Pow2Monotone(0, RunLog2(r, c));
  }

  lemma RunEnough(r: Range, c: nat)
    ensures Enough(r, ClassBytes(c), RunBytes(r, c))
  {
    Sixteen(c);
    Pow2Monotone(4 + ClassLog2(c), RunLog2(r, c));
    Pow2Monotone(r.minLog2, RunLog2(r, c));
  }

  lemma Sixteen(c: nat)
    ensures Pow2(4 + ClassLog2(c)) == 16 * ClassBytes(c)
  {
    assert Pow2(4) == 16;
    Pow2Add(4, ClassLog2(c));
  }

  lemma EnoughHolds(r: Range, c: nat, m: nat)
    requires Enough(r, ClassBytes(c), m)
    ensures RunBytes(r, c) <= m
  {
    hide ClassLog2;
    Sixteen(c);
    var k: nat :| m == Pow2(k);
    if k < r.minLog2 {
      Pow2Less(k, r.minLog2);
    } else if k < 4 + ClassLog2(c) {
      Pow2Less(k, 4 + ClassLog2(c));
    }
    Pow2Monotone(RunLog2(r, c), k);
  }

  lemma Pow2Less(a: nat, b: nat)
    requires a < b
    ensures Pow2(a) < Pow2(b)
  {
    Pow2Monotone(a, b - 1);
  }

  /** The exponent of the least power of two that is at least `n`. */
  function CeilLog2(n: nat): nat
    requires n > 0
    decreases n
  {
    if n == 1 then 0 else 1 + CeilLog2((n + 1) / 2)
  }

  lemma {:induction false} CeilLog2Tight(n: nat)
    requires n > 0
    ensures n <= Pow2(CeilLog2(n))
    ensures n > 1 ==> CeilLog2(n) > 0 && Pow2(CeilLog2(n) - 1) < n
    decreases n
  {
    if n > 1 {
      CeilLog2Tight((n + 1) / 2);
      if n == 2 {
        assert CeilLog2(1) == 0;
      }
    }
  }

  /** What a request needs, its alignment folded into its size. */
  function Need(bytes: nat, align: nat): (n: nat)
    ensures n > 0
  {
    Max(Max(bytes, align), 1)
  }

  /** The class a request falls in; none where it is the buddy's. */
  function ClassFor(r: Range, bytes: nat, align: nat): Option<nat> {
    var need := Need(bytes, align);
    if need >= Pow2(r.minLog2) then None
    else Some(Max(CeilLog2(need), MIN_CLASS_LOG2) - MIN_CLASS_LOG2)
  }

  /** A class's slot holds what was asked for, aligned as asked, and the next smaller class's would not. */
  lemma ClassTight(r: Range, bytes: nat, align: nat)
    requires ClassFor(r, bytes, align).Some?
    ensures var c := ClassFor(r, bytes, align).value;
            && bytes <= ClassBytes(c) && align <= ClassBytes(c)
            && (c > 0 ==> ClassBytes(c - 1) < Need(bytes, align))
            && ClassLog2(c) <= Max(r.minLog2, MIN_CLASS_LOG2)
  {
    var need := Need(bytes, align);
    CeilLog2Tight(need);
    var k := CeilLog2(need);
    var c := ClassFor(r, bytes, align).value;
    Pow2Monotone(k, ClassLog2(c));
    if k > r.minLog2 {
      Pow2Monotone(r.minLog2, k - 1);
      assert false;
    }
  }

  /** Whether a request is the buddy's, or of a class that a table of `heads` has. */
  predicate Classed(r: Range, bytes: nat, align: nat, heads: nat) {
    ClassFor(r, bytes, align).None? || ClassFor(r, bytes, align).value < heads
  }

  /** The table of the C++ allocator has a request's class exactly where half a smallest block holds what it needs, or a
      whole one does not: in between, the class is the first past the table. */
  lemma CountedIff(r: Range, bytes: nat, align: nat)
    requires r.minLog2 > MIN_CLASS_LOG2
    ensures Classed(r, bytes, align, ClassCount(r)) <==>
              Need(bytes, align) <= Pow2(r.minLog2 - 1) || Need(bytes, align) >= Pow2(r.minLog2)
    ensures !Classed(r, bytes, align, ClassCount(r)) ==> ClassFor(r, bytes, align) == Some(ClassCount(r))
  {
    var need := Need(bytes, align);
    if need < Pow2(r.minLog2) {
      CeilLog2Tight(need);
      var k := CeilLog2(need);
      if need <= Pow2(r.minLog2 - 1) {
        if k > r.minLog2 - 1 {
          Pow2Monotone(r.minLog2 - 1, k - 1);
          assert false;
        }
      } else {
        if k <= r.minLog2 - 1 {
          Pow2Monotone(k, r.minLog2 - 1);
          assert false;
        }
        if k > r.minLog2 {
          Pow2Monotone(r.minLog2, k - 1);
          assert false;
        }
      }
    } else {
      Pow2Monotone(r.minLog2 - 1, r.minLog2);
    }
  }

  /** The table of the Rust allocator has every request's. */
  lemma AlwaysClassed(r: Range, bytes: nat, align: nat)
    requires MIN_CLASS_LOG2 < r.minLog2 <= 32
    ensures Classed(r, bytes, align, MAX_CLASSES)
  {
    if ClassFor(r, bytes, align).Some? {
      ClassTight(r, bytes, align);
    }
  }

  /** With smallest blocks of 64 KiB, 40000 bytes are of class 12, and the C++ allocator's heads are 12. */
  lemma PastTheTable()
    ensures var r := Range(16, 31, 0x8000_0000); ClassFor(r, 40000, 8) == Some(12) && ClassCount(r) == 12
  {
    var r := Range(16, 31, 0x8000_0000);
    assert Pow2(15) == 32768 && Pow2(16) == 65536 by {
      assert Pow2(4) == 16;
      Pow2Add(4, 4);
      Pow2Add(8, 8);
    }
    CountedIff(r, 40000, 8);
  }

  /** A run: its class and its free slots. */
  datatype Run = Run(c: nat, free: seq<nat>)

  ghost predicate RunOk(r: Range, run: Run) {
    && run.c < MAX_CLASSES
    && NoDup(run.free)
    && (forall k :: k in run.free ==> 1 <= k < Slots(r, run.c))
  }

  function InUse(r: Range, run: Run): int {
    Slots(r, run.c) - 1 - |run.free|
  }

  /** Every run is a used block of its class's run size, and has a slot in use. */
  ghost predicate RunsOk(r: Range, st: seq<Status>, runs: map<nat, Run>) {
    forall i :: i in runs ==> RunAt(r, st, i, runs[i]) && InUse(r, runs[i]) > 0
  }

  ghost predicate RunAt(r: Range, st: seq<Status>, i: nat, run: Run) {
    && i < |st| && st[i].Used?
    && RunLog2(r, run.c) + Depth(i) == r.maxLog2
    && RunOk(r, run)
  }

  /** Each class's list holds exactly its runs with a slot to hand out, each once. */
  ghost predicate PartialOk(runs: map<nat, Run>, lists: seq<seq<nat>>) {
    && (forall i :: i in runs ==> runs[i].c < |lists|)
    && forall c :: 0 <= c < |lists| ==> ListOf(runs, lists[c], c)
  }

  ghost predicate ListOf(runs: map<nat, Run>, q: seq<nat>, c: nat) {
    && NoDup(q)
    && forall i :: i in q <==> i in runs && runs[i].c == c && runs[i].free != []
  }

  // What memory holds

  function SlotAddr(a: nat, c: nat, k: nat): nat {
    a + k * ClassBytes(c)
  }

  /** The address the free list goes on to from its `j`th slot: 0 past the last. */
  function NextFree(a: nat, run: Run, j: nat): nat {
    if j < |run.free| then SlotAddr(a, run.c, run.free[j]) else 0
  }

  /** A run's header and its free slots' links, at address `a`. */
  ghost predicate RunIn(r: Range, w: seq<nat>, a: nat, run: Run) {
    && a + RunBytes(r, run.c) <= |w|
    && HEAD <= RunBytes(r, run.c)
    && w[a + 8] == NextFree(a, run, 0)
    && w[a + 12] == InUse(r, run)
    && forall j :: 0 <= j < |run.free| ==> FreeSlotIn(w, a, run, j)
  }

  ghost predicate FreeSlotIn(w: seq<nat>, a: nat, run: Run, j: nat)
    requires j < |run.free|
  {
    && SlotAddr(a, run.c, run.free[j]) < |w|
    && w[SlotAddr(a, run.c, run.free[j])] == NextFree(a, run, j + 1)
  }

  /** A class's list of runs: null-ended both ways. */
  ghost predicate PartialIn(w: seq<nat>, head: nat, a: seq<nat>) {
    && head == (if a == [] then 0 else a[0])
    && forall k :: 0 <= k < |a| ==> PartialAt(w, a, k)
  }

  ghost predicate PartialAt(w: seq<nat>, a: seq<nat>, k: nat)
    requires k < |a|
  {
    && a[k] + HEAD <= |w|
    && w[a[k]] == (if k == 0 then 0 else a[k - 1])
    && w[a[k] + 4] == (if k + 1 < |a| then a[k + 1] else 0)
  }
}
