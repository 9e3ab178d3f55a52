/** Size classes over the buddy tree, in memory: each change to one run or one list, and what it leaves of all
    the others. */
module SlabSteps {
  import opened BuddySpec
  import opened BuddyProperties
  import opened BuddyMemory
  import opened SlabSpec
  import opened SlabMemory
  import opened Prelude

  ghost predicate RunsIn(g: Layout, r: Range, w: seq<nat>, runs: map<nat, Run>) {
    forall i :: i in runs ==> RunIn(r, w, NodeAddr(g, r, i), runs[i])
  }

  ghost predicate HeadsIn(g: Layout, r: Range, w: seq<nat>, heads: seq<nat>, lists: seq<seq<nat>>) {
    && |heads| == |lists|
    && forall c :: 0 <= c < |lists| ==> HeadIn(g, r, w, heads[c], lists[c])
  }

  ghost predicate HeadIn(g: Layout, r: Range, w: seq<nat>, head: nat, q: seq<nat>) {
    PartialIn(w, head, Addrs(g, r, q))
  }

  /** The block of a run: its bytes, and that no other run's touch them. */
  lemma RunsApart(g: Layout, r: Range, s: State, runs: map<nat, Run>, i: nat, j: nat)
    requires Core(r, s) && i in runs && j in runs && i != j
    requires RunAt(r, s.st, i, runs[i]) && RunAt(r, s.st, j, runs[j])
    ensures var a, b := NodeAddr(g, r, i), NodeAddr(g, r, j);
            a + RunBytes(r, runs[i].c) <= b || b + RunBytes(r, runs[j].c) <= a
    ensures RunBytes(r, runs[i].c) >= HEAD && RunBytes(r, runs[j].c) >= HEAD
  {
    LeavesDisjoint(r, s, i, j);
    RunHoldsHead(r, runs[i].c);
    RunHoldsHead(r, runs[j].c);
  }

  lemma RunHoldsHead(r: Range, c: nat)
    ensures RunBytes(r, c) >= HEAD
  {
    SlotsFill(r, c);
    SlotFits(r, 0, c, 0);
  }

  /** Memory that differs only within one run's block, past its links. */
  ghost predicate BodyOnly(r: Range, w: seq<nat>, w': seq<nat>, a: nat, c: nat) {
    && |w'| == |w|
    && forall x :: 0 <= x < |w| && w'[x] != w[x] ==> a + 8 <= x < a + RunBytes(r, c)
  }

  /** Memory that differs only in runs' links. */
  ghost predicate LinksOnly(g: Layout, r: Range, w: seq<nat>, w': seq<nat>, runs: set<nat>) {
    && |w'| == |w|
    && forall x :: 0 <= x < |w| && w'[x] != w[x] ==> LinkWord(g, r, runs, x)
  }

  ghost predicate LinkWord(g: Layout, r: Range, runs: set<nat>, x: nat) {
    exists i :: i in runs && NodeAddr(g, r, i) <= x < NodeAddr(g, r, i) + 8
  }

  lemma RunInKept(r: Range, w: seq<nat>, w': seq<nat>, a: nat, run: Run)
    requires RunIn(r, w, a, run) && RunOk(r, run) && |w'| == |w|
    requires forall x :: a + 8 <= x < a + RunBytes(r, run.c) ==> w'[x] == w[x]
    ensures RunIn(r, w', a, run)
  {
    forall j | 0 <= j < |run.free|
      ensures FreeSlotIn(w', a, run, j)
    {
      assert FreeSlotIn(w, a, run, j);
      LinkPlace(r, run, a, j);
    }
  }

  lemma PartialKept(w: seq<nat>, w': seq<nat>, head: nat, q: seq<nat>)
    requires PartialIn(w, head, q) && |w'| == |w|
    requires forall k :: 0 <= k < |q| && q[k] + HEAD <= |w| ==> w'[q[k]] == w[q[k]] && w'[q[k] + 4] == w[q[k] + 4]
    ensures PartialIn(w', head, q)
  {
    forall k | 0 <= k < |q|
      ensures PartialAt(w', q, k)
    {
      assert PartialAt(w, q, k);
    }
  }

  /** Each listed run is a run of its list's class, listed once. */
  ghost predicate Known(runs: map<nat, Run>, lists: seq<seq<nat>>) {
    forall c :: 0 <= c < |lists| ==> KnownList(runs, lists[c], c)
  }

  ghost predicate KnownList(runs: map<nat, Run>, q: seq<nat>, c: nat) {
    && NoDup(q)
    && forall k :: 0 <= k < |q| ==> q[k] in runs && runs[q[k]].c == c
  }

  /** A change in one run's body leaves every other run and every list as it was. */
  lemma BodyChange(g: Layout, r: Range, s: State, runs: map<nat, Run>, i: nat, w: seq<nat>, w': seq<nat>)
    requires Core(r, s) && i in runs && forall j :: j in runs ==> RunAt(r, s.st, j, runs[j])
    requires BodyOnly(r, w, w', NodeAddr(g, r, i), runs[i].c)
    ensures forall j :: j in runs && j != i && RunIn(r, w, NodeAddr(g, r, j), runs[j]) ==> RunIn(r, w', NodeAddr(g, r, j), runs[j])
  {
    forall j | j in runs && j != i && RunIn(r, w, NodeAddr(g, r, j), runs[j])
      ensures RunIn(r, w', NodeAddr(g, r, j), runs[j])
    {
      RunsApart(g, r, s, runs, i, j);
      RunInKept(r, w, w', NodeAddr(g, r, j), runs[j]);
    }
  }

  lemma BodyChangeLists(g: Layout, r: Range, s: State, runs: map<nat, Run>, i: nat, w: seq<nat>, w': seq<nat>, heads: seq<nat>, lists: seq<seq<nat>>)
    requires Core(r, s) && i in runs && forall j :: j in runs ==> RunAt(r, s.st, j, runs[j])
    requires BodyOnly(r, w, w', NodeAddr(g, r, i), runs[i].c)
    requires HeadsIn(g, r, w, heads, lists) && Known(runs, lists)
    ensures HeadsIn(g, r, w', heads, lists)
  {
    forall c | 0 <= c < |lists|
      ensures HeadIn(g, r, w', heads[c], lists[c])
    {
      assert HeadIn(g, r, w, heads[c], lists[c]);
      assert KnownList(runs, lists[c], c);
      var q := Addrs(g, r, lists[c]);
      forall k | 0 <= k < |q| && q[k] + HEAD <= |w|
        ensures w'[q[k]] == w[q[k]] && w'[q[k] + 4] == w[q[k] + 4]
      {
        var j := lists[c][k];
        if j != i {
          RunsApart(g, r, s, runs, i, j);
        }
      }
      PartialKept(w, w', heads[c], q);
    }
  }

  /** A change in runs' links leaves every run's slots and counts as they were. */
  lemma LinksChange(g: Layout, r: Range, s: State, runs: map<nat, Run>, w: seq<nat>, w': seq<nat>)
    requires Core(r, s) && forall j :: j in runs ==> RunAt(r, s.st, j, runs[j])
    requires LinksOnly(g, r, w, w', runs.Keys)
    ensures RunsIn(g, r, w, runs) ==> RunsIn(g, r, w', runs)
  {
    if RunsIn(g, r, w, runs) {
      forall i | i in runs
        ensures RunIn(r, w', NodeAddr(g, r, i), runs[i])
      {
        LinksMissBody(g, r, s, runs, i, w, w');
        RunInKept(r, w, w', NodeAddr(g, r, i), runs[i]);
      }
    }
  }

  lemma LinksMissBody(g: Layout, r: Range, s: State, runs: map<nat, Run>, i: nat, w: seq<nat>, w': seq<nat>)
    requires Core(r, s) && i in runs && forall j :: j in runs ==> RunAt(r, s.st, j, runs[j])
    requires LinksOnly(g, r, w, w', runs.Keys) && NodeAddr(g, r, i) + RunBytes(r, runs[i].c) <= |w|
    ensures forall x :: NodeAddr(g, r, i) + 8 <= x < NodeAddr(g, r, i) + RunBytes(r, runs[i].c) ==> w'[x] == w[x]
  {
    forall x | NodeAddr(g, r, i) + 8 <= x < NodeAddr(g, r, i) + RunBytes(r, runs[i].c)
      ensures w'[x] == w[x]
    {
      if w'[x] != w[x] {
        assert LinkWord(g, r, runs.Keys, x);
        var j :| j in runs.Keys && NodeAddr(g, r, j) <= x < NodeAddr(g, r, j) + 8;
        RunsApart(g, r, s, runs, i, j);
        assert false;
      }
    }
  }

  // A class's list in memory

  /** The blocks of a list's runs are apart, and none is at 0. */
  lemma ListSpaced(g: Layout, r: Range, s: State, runs: map<nat, Run>, q: seq<nat>, c: nat)
    requires Core(r, s) && 0 < g.base && KnownList(runs, q, c)
    requires forall j :: j in runs ==> RunAt(r, s.st, j, runs[j])
    ensures Spaced(Addrs(g, r, q)) && forall k :: 0 <= k < |q| ==> Addrs(g, r, q)[k] != 0
  {
    var a := Addrs(g, r, q);
    forall x, y | 0 <= x < y < |a|
      ensures Far(a[x], a[y])
    {
      RunsApart(g, r, s, runs, q[x], q[y]);
    }
  }

  /** Two classes' lists have no run in common, so a change in one's links is none in the other's. */
  lemma OtherList(g: Layout, r: Range, s: State, runs: map<nat, Run>, q: seq<nat>, c: nat, some: set<nat>, w: seq<nat>, w': seq<nat>, head: nat)
    requires Core(r, s) && KnownList(runs, q, c) && HeadIn(g, r, w, head, q)
    requires forall j :: j in runs ==> RunAt(r, s.st, j, runs[j])
    requires forall i :: i in some ==> i in runs && runs[i].c != c
    requires LinksOnly(g, r, w, w', some)
    ensures HeadIn(g, r, w', head, q)
  {
    var a := Addrs(g, r, q);
    forall k | 0 <= k < |a| && a[k] + HEAD <= |w|
      ensures w'[a[k]] == w[a[k]] && w'[a[k] + 4] == w[a[k] + 4]
    {
      NotLinkWord(g, r, s, runs, some, q[k], a[k]);
      NotLinkWord(g, r, s, runs, some, q[k], a[k] + 4);
    }
    PartialKept(w, w', head, a);
  }

  lemma NotLinkWord(g: Layout, r: Range, s: State, runs: map<nat, Run>, some: set<nat>, j: nat, x: nat)
    requires Core(r, s) && j in runs && j !in some
    requires forall i :: i in runs ==> RunAt(r, s.st, i, runs[i])
    requires forall i :: i in some ==> i in runs
    requires NodeAddr(g, r, j) <= x < NodeAddr(g, r, j) + HEAD
    ensures !LinkWord(g, r, some, x)
  {
    forall i | i in some
      ensures !(NodeAddr(g, r, i) <= x < NodeAddr(g, r, i) + 8)
    {
      RunsApart(g, r, s, runs, i, j);
    }
  }

  /** A run put at the front of its class's list. */
  lemma FrontStep(g: Layout, r: Range, s: State, runs: map<nat, Run>, w: seq<nat>, heads: seq<nat>, lists: seq<seq<nat>>, i: nat)
    requires Core(r, s) && 0 < g.base && forall j :: j in runs ==> RunAt(r, s.st, j, runs[j])
    requires RunsIn(g, r, w, runs) && HeadsIn(g, r, w, heads, lists) && Known(runs, lists)
    requires i in runs && runs[i].c < |lists| && i !in lists[runs[i].c]
    ensures var c, a := runs[i].c, NodeAddr(g, r, i);
            && a + HEAD <= |w| && heads[c] < |w|
            && var w' := ListFront(w, heads[c], a);
               && RunsIn(g, r, w', runs)
               && HeadsIn(g, r, w', heads[c := a], lists[c := [i] + lists[c]])
               && LinksOnly(g, r, w, w', runs.Keys)
  {
    hide RunAt, RunIn, ListFront, LinksOnly, LinkWord, NodeAddr, Core, Far, Spaced, PartialAt;
    var c, a := runs[i].c, NodeAddr(g, r, i);
    var q := lists[c];
    assert KnownList(runs, q, c) && HeadIn(g, r, w, heads[c], q);
    RunFits(r, w, a, runs[i]);
    ListSpaced(g, r, s, runs, q, c);
    FarFrom(g, r, s, runs, q, c, i);
    FrontIn(w, heads[c], Addrs(g, r, q), a);
    assert Addrs(g, r, [i] + q) == [a] + Addrs(g, r, q);
    var w' := ListFront(w, heads[c], a);
    var some := if q == [] then {i} else {i, q[0]};
    FrontLinks(g, r, w, heads[c], i, q, some);
    LinksMore(g, r, w, w', some, runs.Keys);
    LinksChange(g, r, s, runs, w, w');
    OtherLists(g, r, s, runs, c, some, w, w', heads, lists);
  }

  lemma RunFits(r: Range, w: seq<nat>, a: nat, run: Run)
    requires RunIn(r, w, a, run)
    ensures a + HEAD <= a + RunBytes(r, run.c) <= |w|
  {
  }

  lemma FarFrom(g: Layout, r: Range, s: State, runs: map<nat, Run>, q: seq<nat>, c: nat, i: nat)
    requires Core(r, s) && KnownList(runs, q, c) && i in runs && i !in q
    requires forall j :: j in runs ==> RunAt(r, s.st, j, runs[j])
    ensures forall k :: 0 <= k < |q| ==> Far(Addrs(g, r, q)[k], NodeAddr(g, r, i))
  {
    forall k | 0 <= k < |q|
      ensures Far(Addrs(g, r, q)[k], NodeAddr(g, r, i))
    {
      RunsApart(g, r, s, runs, q[k], i);
    }
  }

  lemma FrontLinks(g: Layout, r: Range, w: seq<nat>, head: nat, i: nat, q: seq<nat>, some: set<nat>)
    requires NodeAddr(g, r, i) + HEAD <= |w| && head < |w| && i in some
    requires head == if q == [] then 0 else NodeAddr(g, r, q[0])
    requires q != [] ==> q[0] in some
    ensures LinksOnly(g, r, w, ListFront(w, head, NodeAddr(g, r, i)), some)
  {
    var w' := ListFront(w, head, NodeAddr(g, r, i));
    forall x | 0 <= x < |w| && w'[x] != w[x]
      ensures LinkWord(g, r, some, x)
    {
      if x == NodeAddr(g, r, i) || x == NodeAddr(g, r, i) + 4 {
        assert i in some;
      } else {
        assert q[0] in some;
      }
    }
  }

  lemma LinksMore(g: Layout, r: Range, w: seq<nat>, w': seq<nat>, some: set<nat>, more: set<nat>)
    requires LinksOnly(g, r, w, w', some) && some <= more
    ensures LinksOnly(g, r, w, w', more)
  {
    forall x | 0 <= x < |w| && w'[x] != w[x]
      ensures LinkWord(g, r, more, x)
    {
      assert LinkWord(g, r, some, x);
    }
  }

  lemma OtherLists(g: Layout, r: Range, s: State, runs: map<nat, Run>, b: nat, some: set<nat>, w: seq<nat>, w': seq<nat>, heads: seq<nat>, lists: seq<seq<nat>>)
    requires Core(r, s) && Known(runs, lists) && HeadsIn(g, r, w, heads, lists)
    requires forall j :: j in runs ==> RunAt(r, s.st, j, runs[j])
    requires forall i :: i in some ==> i in runs && runs[i].c == b
    requires LinksOnly(g, r, w, w', some)
    ensures forall c :: 0 <= c < |lists| && c != b ==> HeadIn(g, r, w', heads[c], lists[c])
  {
    forall c | 0 <= c < |lists| && c != b
      ensures HeadIn(g, r, w', heads[c], lists[c])
    {
      assert KnownList(runs, lists[c], c) && HeadIn(g, r, w, heads[c], lists[c]);
      OtherList(g, r, s, runs, lists[c], c, some, w, w', heads[c]);
    }
  }

  /** What dropping the header at `a`, the `k`-th of list `c`, leaves of runs and lists. */
  ghost predicate Dropped(g: Layout, r: Range, runs: map<nat, Run>, w: seq<nat>, heads: seq<nat>, lists: seq<seq<nat>>,
                          c: nat, k: nat, a: nat)
    requires r.Good() && c < |lists| && c < |heads| && k < |lists[c]|
  {
    && a + HEAD <= |w| && w[a] + HEAD <= |w| && w[a + 4] + HEAD <= |w|
    && var w' := ListDrop(w, a);
       && RunsIn(g, r, w', runs)
       && HeadsIn(g, r, w', if w[a] == 0 then heads[c := w[a + 4]] else heads, lists[c := lists[c][..k] + lists[c][k + 1..]])
       && LinksOnly(g, r, w, w', runs.Keys)
  }

  /** A run taken out of its class's list. */
  lemma DropStep(g: Layout, r: Range, s: State, runs: map<nat, Run>, w: seq<nat>, heads: seq<nat>, lists: seq<seq<nat>>, c: nat, k: nat)
    requires Core(r, s) && 0 < g.base && forall j :: j in runs ==> RunAt(r, s.st, j, runs[j])
    requires RunsIn(g, r, w, runs) && HeadsIn(g, r, w, heads, lists) && Known(runs, lists)
    requires c < |lists| && k < |lists[c]|
    ensures Dropped(g, r, runs, w, heads, lists, c, k, NodeAddr(g, r, lists[c][k]))
  {
    hide Core, RunAt, RunIn, ListDrop, PartialIn, LinksOnly, NodeAddr, Spaced;
    var q := lists[c];
    var a := NodeAddr(g, r, q[k]);
    assert KnownList(runs, q, c) && HeadIn(g, r, w, heads[c], q);
    ListSpaced(g, r, s, runs, q, c);
    DropIn(w, heads[c], Addrs(g, r, q), k);
    AddrsWithout(g, r, q, k);
    var w' := ListDrop(w, a);
    var some := set x | x in q;
    DropLinks(g, r, w, heads[c], q, k, some);
    LinksMore(g, r, w, w', some, runs.Keys);
    LinksChange(g, r, s, runs, w, w');
    OtherLists(g, r, s, runs, c, some, w, w', heads, lists);
  }

  lemma DropLinks(g: Layout, r: Range, w: seq<nat>, head: nat, q: seq<nat>, k: nat, some: set<nat>)
    requires PartialIn(w, head, Addrs(g, r, q)) && k < |q| && 0 < g.base
    requires forall j :: 0 <= j < |q| ==> q[j] in some
    ensures var a := NodeAddr(g, r, q[k]);
            && a + HEAD <= |w| && w[a] + HEAD <= |w| && w[a + 4] + HEAD <= |w|
            && LinksOnly(g, r, w, ListDrop(w, a), some)
  {
    hide ListDrop, PartialAt, LinkWord;
    var a := Addrs(g, r, q);
    DropPlace(w, a, k);
    forall x | 0 <= x < |w| && ListDrop(w, a[k])[x] != w[x]
      ensures LinkWord(g, r, some, x)
    {
      DropChanges(w, a[k], x);
      if k > 0 {
        LinkOf(g, r, some, q[k - 1], x);
      }
      if k + 1 < |q| {
        LinkOf(g, r, some, q[k + 1], x);
      }
    }
  }

  lemma DropChanges(w: seq<nat>, a: nat, x: nat)
    requires a + HEAD <= |w| && w[a] + HEAD <= |w| && w[a + 4] + HEAD <= |w| && x < |w|
    requires ListDrop(w, a)[x] != w[x]
    ensures (w[a] != 0 && x == w[a] + 4) || (w[a + 4] != 0 && x == w[a + 4])
  {
  }

  lemma LinkOf(g: Layout, r: Range, some: set<nat>, i: nat, x: nat)
    requires i in some
    ensures NodeAddr(g, r, i) <= x < NodeAddr(g, r, i) + 8 ==> LinkWord(g, r, some, x)
  {
  }

  // Which runs are listed

  lemma PartialKnown(runs: map<nat, Run>, lists: seq<seq<nat>>)
    requires PartialOk(runs, lists)
    ensures Known(runs, lists)
  {
    forall c | 0 <= c < |lists|
      ensures KnownList(runs, lists[c], c)
    {
      assert ListOf(runs, lists[c], c);
      assert forall k :: 0 <= k < |lists[c]| ==> lists[c][k] in lists[c];
    }
  }

  /** A run changed that still has, or still has not, a slot to hand out. */
  lemma ListedSame(runs: map<nat, Run>, lists: seq<seq<nat>>, i: nat, run: Run)
    requires PartialOk(runs, lists) && i in runs && run.c == runs[i].c
    requires (run.free != []) == (runs[i].free != [])
    ensures PartialOk(runs[i := run], lists)
  {
    var runs' := runs[i := run];
    forall c | 0 <= c < |lists|
      ensures ListOf(runs', lists[c], c)
    {
      assert ListOf(runs, lists[c], c);
    }
  }

  /** A run with no slot left to hand out leaves its list. */
  lemma ListedDrop(runs: map<nat, Run>, lists: seq<seq<nat>>, runs': map<nat, Run>, i: nat, k: nat)
    requires PartialOk(runs, lists) && i in runs && runs[i].c < |lists|
    requires k < |lists[runs[i].c]| && lists[runs[i].c][k] == i
    requires forall j :: j != i ==> ((j in runs') == (j in runs) && (j in runs ==> runs'[j] == runs[j]))
    requires i in runs' ==> runs'[i].c == runs[i].c && runs'[i].free == []
    ensures PartialOk(runs', lists[runs[i].c := lists[runs[i].c][..k] + lists[runs[i].c][k + 1..]])
  {
    var b := runs[i].c;
    var lists' := lists[b := lists[b][..k] + lists[b][k + 1..]];
    assert ListOf(runs, lists[b], b);
    WithoutAt(lists[b], k);
    WithoutMembers(lists[b], i);
    forall c | 0 <= c < |lists|
      ensures ListOf(runs', lists'[c], c)
    {
      assert ListOf(runs, lists[c], c);
    }
  }

  /** A run that had no slot to hand out, or is new, heads its list. */
  lemma ListedFront(runs: map<nat, Run>, lists: seq<seq<nat>>, i: nat, run: Run)
    requires PartialOk(runs, lists) && run.c < |lists| && run.free != []
    requires i in runs ==> runs[i].free == [] && runs[i].c == run.c
    ensures i !in lists[run.c]
    ensures PartialOk(runs[i := run], lists[run.c := [i] + lists[run.c]])
  {
    var runs', lists' := runs[i := run], lists[run.c := [i] + lists[run.c]];
    assert ListOf(runs, lists[run.c], run.c);
    HeadOk(lists[run.c], i);
    forall c | 0 <= c < |lists|
      ensures ListOf(runs', lists'[c], c)
    {
      assert ListOf(runs, lists[c], c);
    }
  }

  /** A run in no list let go. */
  lemma ListedGone(runs: map<nat, Run>, lists: seq<seq<nat>>, i: nat)
    requires PartialOk(runs, lists) && i in runs && runs[i].free == []
    ensures PartialOk(runs - {i}, lists)
  {
    var runs' := runs - {i};
    forall c | 0 <= c < |lists|
      ensures ListOf(runs', lists[c], c)
    {
      assert ListOf(runs, lists[c], c);
    }
  }

  /** Where a run with a slot to hand out is listed. */
  lemma WhereIn(runs: map<nat, Run>, lists: seq<seq<nat>>, i: nat) returns (k: nat)
    requires PartialOk(runs, lists) && i in runs && runs[i].c < |lists| && runs[i].free != []
    ensures k < |lists[runs[i].c]| && lists[runs[i].c][k] == i
  {
    assert ListOf(runs, lists[runs[i].c], runs[i].c);
    assert i in lists[runs[i].c];
    k :| 0 <= k < |lists[runs[i].c]| && lists[runs[i].c][k] == i;
  }
}
