/** What each change to a run's header, its slots' links or a class's list does to what memory holds. */
module SlabMemory {
  import opened Arith
  import opened BuddySpec
  import opened BuddyProperties
  import opened SlabSpec
  import opened Prelude

  // Slots in a run

  lemma SlotFits(r: Range, a: nat, c: nat, k: nat)
    requires k < Slots(r, c)
    ensures a + k * HEAD <= SlotAddr(a, c, k)
    ensures SlotAddr(a, c, k) + ClassBytes(c) <= a + RunBytes(r, c)
  {
    SlotsFill(r, c);
    MulMonotone(k + 1, Slots(r, c), ClassBytes(c));
    MulAdd(k, 1, ClassBytes(c));
    MulGrows(k, HEAD, ClassBytes(c));
  }

  lemma MulGrows(k: nat, a: nat, b: nat)
    requires a <= b
    ensures k * a <= k * b
  {
  }

  lemma SlotsApart(a: nat, c: nat, k: nat, l: nat)
    requires k < l
    ensures SlotAddr(a, c, k) + ClassBytes(c) <= SlotAddr(a, c, l)
  {
    MulMonotone(k + 1, l, ClassBytes(c));
    MulAdd(k, 1, ClassBytes(c));
  }

  /** A slot's offset, masked by its run's size, is its run's. */
  lemma MaskFindsRun(r: Range, off: nat, c: nat, k: nat)
    requires k < Slots(r, c) && off % RunBytes(r, c) == 0
    ensures var x := off + k * ClassBytes(c);
            x - x % RunBytes(r, c) == off
  {
    SlotFits(r, 0, c, k);
    var z, q := RunBytes(r, c), off / RunBytes(r, c);
    assert off == q * z + off % z;
    DivUnique(off + k * ClassBytes(c), q, k * ClassBytes(c), z);
  }

  /** A slot address names one slot. */
  lemma SlotOf(a: nat, c: nat, k: nat, l: nat)
    requires SlotAddr(a, c, k) == SlotAddr(a, c, l)
    ensures k == l
  {
    if k < l {
      SlotsApart(a, c, k, l);
    } else if l < k {
      SlotsApart(a, c, l, k);
    }
  }

  /** A free slot's link lies in its run past the header. */
  lemma LinkPlace(r: Range, run: Run, a: nat, j: nat)
    requires RunOk(r, run) && j < |run.free|
    ensures a + HEAD <= SlotAddr(a, run.c, run.free[j]) < SlotAddr(a, run.c, run.free[j]) + HEAD <= a + RunBytes(r, run.c)
  {
    assert run.free[j] in run.free;
    SlotFits(r, a, run.c, run.free[j]);
    SlotsFill(r, run.c);
  }

  // A run's words

  function PopWords(w: seq<nat>, a: nat): seq<nat>
    requires a + HEAD <= |w| && w[a + 8] < |w|
  {
    w[a + 8 := w[w[a + 8]]][a + 12 := w[a + 12] + 1]
  }

  lemma PopRun(r: Range, w: seq<nat>, a: nat, run: Run)
    requires RunIn(r, w, a, run) && RunOk(r, run) && run.free != []
    ensures w[a + 8] == SlotAddr(a, run.c, run.free[0]) < |w|
    ensures RunIn(r, PopWords(w, a), a, Run(run.c, run.free[1..]))
    ensures RunOk(r, Run(run.c, run.free[1..]))
  {
    assert FreeSlotIn(w, a, run, 0);
    var w', run' := PopWords(w, a), Run(run.c, run.free[1..]);
    forall j | 0 <= j < |run'.free|
      ensures FreeSlotIn(w', a, run', j)
    {
      assert FreeSlotIn(w, a, run, j + 1);
      LinkPlace(r, run, a, j + 1);
    }
    FirstGone(run.free);
  }

  function PushWords(w: seq<nat>, a: nat, slot: nat): seq<nat>
    requires a + HEAD <= |w| && slot < |w| && w[a + 12] > 0
  {
    w[slot := w[a + 8]][a + 8 := slot][a + 12 := w[a + 12] - 1]
  }

  lemma PushRun(r: Range, w: seq<nat>, a: nat, run: Run, k: nat)
    requires RunIn(r, w, a, run) && RunOk(r, run) && 1 <= k < Slots(r, run.c) && k !in run.free
    requires InUse(r, run) > 0
    ensures SlotAddr(a, run.c, k) < |w| && a + HEAD <= |w|
    ensures RunIn(r, PushWords(w, a, SlotAddr(a, run.c, k)), a, Run(run.c, [k] + run.free))
    ensures RunOk(r, Run(run.c, [k] + run.free))
  {
    SlotFits(r, a, run.c, k);
    SlotsFill(r, run.c);
    var slot := SlotAddr(a, run.c, k);
    var w', run' := PushWords(w, a, slot), Run(run.c, [k] + run.free);
    forall j | 0 <= j < |run'.free|
      ensures FreeSlotIn(w', a, run', j)
    {
      if j > 0 {
        assert FreeSlotIn(w, a, run, j - 1);
        LinkPlace(r, run, a, j - 1);
        if SlotAddr(a, run.c, run.free[j - 1]) == slot {
          SlotOf(a, run.c, run.free[j - 1], k);
          assert false;
        }
      }
    }
    HeadOk(run.free, k);
  }

  lemma HeadOk(q: seq<nat>, k: nat)
    requires NoDup(q) && k !in q
    ensures NoDup([k] + q)
    ensures forall x :: x in [k] + q <==> x == k || x in q
  {
    var t := [k] + q;
    forall x, y | 0 <= x < y < |t|
      ensures t[x] != t[y]
    {
      assert t[y] == q[y - 1];
    }
  }

  /** Distinct slots past the header are fewer than there are slots. */
  lemma {:induction false} FewFree(q: seq<nat>, n: nat)
    requires NoDup(q) && forall k :: k in q ==> 1 <= k < n
    ensures |q| <= n - 1 || n == 0
    decreases n
  {
    if n > 1 {
      var t := Without(q, n - 1);
      WithoutMembers(q, n - 1);
      FewFree(t, n - 1);
      WithoutShorter(q, n - 1);
    } else {
      Members(q);
    }
  }

  lemma {:induction false} WithoutShorter(q: seq<nat>, i: nat)
    ensures |Without(q, i)| + 1 >= |q|
  {
    if q != [] && q[0] != i {
      WithoutShorter(q[1..], i);
    }
  }

  /** A slot in use besides the free ones: one more may be free. */
  lemma StillInUse(r: Range, run: Run, k: nat)
    requires RunOk(r, run) && 1 <= k < Slots(r, run.c) && k !in run.free
    ensures InUse(r, run) > 0
  {
    HeadOk(run.free, k);
    FewFree([k] + run.free, Slots(r, run.c));
  }

  // A class's list

  /** A run put at the front: the words, the head becoming `a`. */
  function ListFront(w: seq<nat>, head: nat, a: nat): (w': seq<nat>)
    requires a + HEAD <= |w| && head < |w|
    ensures |w'| == |w|
  {
    var w1 := w[a := 0][a + 4 := head];
    if head != 0 then w1[head := a] else w1
  }

  lemma FrontIn(w: seq<nat>, head: nat, q: seq<nat>, a: nat)
    requires PartialIn(w, head, q) && a + HEAD <= |w| && a != 0
    requires Spaced(q) && forall k :: 0 <= k < |q| ==> q[k] != 0 && Far(q[k], a)
    ensures head < |w|
    ensures PartialIn(ListFront(w, head, a), a, [a] + q)
  {
    assert q != [] ==> PartialAt(w, q, 0);
    var w', q' := ListFront(w, head, a), [a] + q;
    forall k | 0 <= k < |q'|
      ensures PartialAt(w', q', k)
    {
      if k > 0 {
        assert PartialAt(w, q, k - 1);
        assert Far(q[k - 1], a);
        assert k > 1 ==> Far(q[0], q[k - 1]);
      }
    }
  }

  predicate Far(a: nat, b: nat) {
    a + HEAD <= b || b + HEAD <= a
  }

  ghost predicate Spaced(q: seq<nat>) {
    forall x, y :: 0 <= x < y < |q| ==> Far(q[x], q[y])
  }

  /** A run taken out: the words, and the head where it was the first. */
  function ListDrop(w: seq<nat>, a: nat): (w': seq<nat>)
    requires a + HEAD <= |w| && w[a] + HEAD <= |w| && w[a + 4] + HEAD <= |w|
    ensures |w'| == |w|
  {
    var prev, next := w[a], w[a + 4];
    var w1 := if prev == 0 then w else w[prev + 4 := next];
    if next != 0 then w1[next := prev] else w1
  }

  lemma DropIn(w: seq<nat>, head: nat, q: seq<nat>, k: nat)
    requires PartialIn(w, head, q) && k < |q| && Spaced(q)
    requires forall j :: 0 <= j < |q| ==> q[j] != 0
    ensures var a := q[k];
            && a + HEAD <= |w| && w[a] + HEAD <= |w| && w[a + 4] + HEAD <= |w|
            && (w[a] == 0 <==> k == 0)
            && PartialIn(ListDrop(w, a), if k == 0 then w[a + 4] else head, q[..k] + q[k + 1..])
  {
    hide ListDrop, Spaced, PartialAt;
    DropPlace(w, q, k);
    var q' := q[..k] + q[k + 1..];
    forall j | 0 <= j < |q'|
      ensures PartialAt(ListDrop(w, q[k]), q', j)
    {
      DropKeeps(w, q, k, if j < k then j else j + 1);
    }
  }

  lemma DropPlace(w: seq<nat>, q: seq<nat>, k: nat)
    requires k < |q| && forall j :: 0 <= j < |q| ==> q[j] != 0 && PartialAt(w, q, j)
    ensures var a := q[k];
            && a + HEAD <= |w| && w[a] + HEAD <= |w| && w[a + 4] + HEAD <= |w|
            && w[a] == (if k == 0 then 0 else q[k - 1])
            && w[a + 4] == (if k + 1 < |q| then q[k + 1] else 0)
    ensures forall j :: 0 <= j < |q| ==> q[j] + HEAD <= |w|
  {
    assert PartialAt(w, q, k);
    assert k > 0 ==> PartialAt(w, q, k - 1);
    assert k + 1 < |q| ==> PartialAt(w, q, k + 1);
    forall j | 0 <= j < |q|
      ensures q[j] + HEAD <= |w|
    {
      assert PartialAt(w, q, j);
    }
  }

  /** The words a drop leaves. */
  lemma DropCells(w: seq<nat>, a: nat, b: nat)
    requires a + HEAD <= |w| && w[a] + HEAD <= |w| && w[a + 4] + HEAD <= |w| && b + HEAD <= |w|
    requires Far(w[a], w[a + 4]) || w[a] == 0 || w[a + 4] == 0
    requires (b == w[a] || Far(b, w[a]) || w[a] == 0) && (b == w[a + 4] || Far(b, w[a + 4]) || w[a + 4] == 0)
    ensures var w' := ListDrop(w, a);
            && w'[b] == (if b == w[a + 4] && b != 0 then w[a] else w[b])
            && w'[b + 4] == (if b == w[a] && b != 0 then w[a + 4] else w[b + 4])
  {
  }

  /** What the drop leaves of another member's words. */
  lemma DropKeeps(w: seq<nat>, q: seq<nat>, k: nat, j: nat)
    requires k < |q| && j < |q| && j != k && Spaced(q) && PartialAt(w, q, k) && q[k] + HEAD <= |w|
    requires forall x :: 0 <= x < |q| ==> q[x] != 0 && PartialAt(w, q, x)
    requires w[q[k]] + HEAD <= |w| && w[q[k] + 4] + HEAD <= |w|
    ensures PartialAt(ListDrop(w, q[k]), q[..k] + q[k + 1..], if j < k then j else j - 1)
  {
    hide ListDrop, PartialAt, Far, Spaced;
    DropPlace(w, q, k);
    PartialWords(w, q, j);
    NeighboursFar(q, k, j);
    DropCells(w, q[k], q[j]);
    WithoutIndex(q, k, j);
    PartialMade(ListDrop(w, q[k]), q[..k] + q[k + 1..], if j < k then j else j - 1);
  }

  lemma PartialWords(w: seq<nat>, q: seq<nat>, k: nat)
    requires k < |q| && PartialAt(w, q, k)
    ensures q[k] + HEAD <= |w|
    ensures w[q[k]] == (if k == 0 then 0 else q[k - 1]) && w[q[k] + 4] == (if k + 1 < |q| then q[k + 1] else 0)
  {
  }

  lemma PartialMade(w: seq<nat>, q: seq<nat>, k: nat)
    requires k < |q| && q[k] + HEAD <= |w|
    requires w[q[k]] == (if k == 0 then 0 else q[k - 1]) && w[q[k] + 4] == (if k + 1 < |q| then q[k + 1] else 0)
    ensures PartialAt(w, q, k)
  {
  }

  lemma NeighboursFar(q: seq<nat>, k: nat, j: nat)
    requires k < |q| && j < |q| && j != k && Spaced(q)
    ensures k > 0 && j != k - 1 ==> Far(q[j], q[k - 1]) && q[j] != q[k - 1]
    ensures k + 1 < |q| && j != k + 1 ==> Far(q[j], q[k + 1]) && q[j] != q[k + 1]
    ensures k > 0 && k + 1 < |q| ==> Far(q[k - 1], q[k + 1])
  {
    assert k > 0 && j < k - 1 ==> Far(q[j], q[k - 1]);
    assert k > 0 && j > k - 1 ==> Far(q[k - 1], q[j]);
    assert k + 1 < |q| && j < k + 1 ==> Far(q[j], q[k + 1]);
    assert k + 1 < |q| && j > k + 1 ==> Far(q[k + 1], q[j]);
  }

  lemma WithoutIndex(q: seq<nat>, k: nat, j: nat)
    requires k < |q| && j < |q| && j != k
    ensures var q', i := q[..k] + q[k + 1..], if j < k then j else j - 1;
            && |q'| == |q| - 1 && q'[i] == q[j]
            && (i > 0 ==> q'[i - 1] == if j == k + 1 then q[k - 1] else q[j - 1])
            && (i + 1 < |q'| ==> q'[i + 1] == if j + 1 == k then q[k + 1] else q[j + 1])
  {
  }
}
