/** A turn's calls from guest to host as records in one range of memory, and what the host finds in it. Memory is
    its words. */
module Streams {
  import opened Bytes

  /** A record: its op, and its words. */
  datatype Record = Record(op: nat, words: seq<nat>)

  /** What a record's writer puts in it, in order: a word, or bytes as their count and then words. */
  datatype Item = Word(v: nat) | Text(b: seq<Byte>)

  /** Bytes `4k` and after as a word, its low byte first; bytes past the last are zero. */
  function WordOf(b: seq<Byte>, k: nat): (w: nat)
    ensures w < U32
  {
    var (p: int, q: int, r: int, s: int) := (ByteAt(b, 4 * k), ByteAt(b, 4 * k + 1), ByteAt(b, 4 * k + 2), ByteAt(b, 4 * k + 3));
    p + 256 * (q + 256 * (r + 256 * s))
  }

  function ByteAt(b: seq<Byte>, i: nat): Byte {
    if i < |b| then b[i] else 0
  }

  function WordsIn(bytes: nat): nat {
    (bytes + 3) / 4
  }

  /** The first `n` words of some bytes. */
  function Chunks(b: seq<Byte>, n: nat): (w: seq<nat>)
    ensures |w| == n
    ensures forall k :: 0 <= k < n ==> w[k] == WordOf(b, k)
  {
    seq(n, k requires 0 <= k => WordOf(b, k))
  }

  function ItemWords(i: Item): (w: seq<nat>) {
    match i
    case Word(v) => [v]
    case Text(b) => [|b|] + Chunks(b, WordsIn(|b|))
  }

  /** The words that items put. */
  function Flat(items: seq<Item>): (w: seq<nat>) {
    if items == [] then [] else Flat(items[..|items| - 1]) + ItemWords(items[|items| - 1])
  }

  function Encoded(recs: seq<Record>): (w: seq<nat>) {
    if recs == [] then []
    else
      var r := recs[|recs| - 1];
      Encoded(recs[..|recs| - 1]) + [r.op, |r.words|] + r.words
  }

  lemma EncodedMore(recs: seq<Record>, r: Record)
    ensures Encoded(recs + [r]) == Encoded(recs) + [r.op, |r.words|] + r.words
  {
    assert (recs + [r])[..|recs|] == recs;
  }

  /** The first record, and the rest. */
  lemma {:induction false} EncodedFirst(recs: seq<Record>)
    requires recs != []
    ensures Encoded(recs) == [recs[0].op, |recs[0].words|] + recs[0].words + Encoded(recs[1..])
  {
    var n := |recs| - 1;
    if n > 0 {
      EncodedFirst(recs[..n]);
      assert recs[..n][1..] == recs[1..][..n - 1];
      assert recs[1..][n - 1] == recs[n];
    } else {
      assert recs[..0] == [] && recs[1..] == [];
    }
  }

  lemma {:induction false} EncodedPrefix(some: seq<Record>, all: seq<Record>)
    requires some <= all
    ensures |Encoded(some)| <= |Encoded(all)| && Encoded(all)[..|Encoded(some)|] == Encoded(some)
  {
    if |some| < |all| {
      var less := all[..|all| - 1];
      EncodedPrefix(some, less);
      assert Encoded(all)[..|Encoded(some)|] == Encoded(less)[..|Encoded(some)|];
    } else {
      assert some == all;
    }
  }

  datatype Mark = Off | Open(at: nat) | Spilled(at: nat)

  class Stream {
    const mem: array<nat>
    const at: nat
    const words: nat
    const head: nat
    var len: nat
    var mark: Mark
    /** The records of the turn. */
    ghost var recs: seq<Record>
    /** Those an open transaction began after. */
    ghost var before: seq<Record>

    ghost predicate Valid()
      reads this, mem
    {
      && 0 < head < words && at + words <= mem.Length && head + len <= words
      && mem[at + head..at + head + len] == Encoded(recs)
      && (!mark.Off? ==> before <= recs && mark.at == |Encoded(before)|)
    }

    constructor (mem: array<nat>, at: nat, words: nat, head: nat)
      requires 0 < head < words && at + words <= mem.Length
      modifies mem
      ensures Valid() && this.mem == mem && this.at == at && this.head == head && this.words == words && recs == [] && mark == Off
      ensures mem[at] == 0
    {
      this.mem, this.at, this.words, this.head := mem, at, words, head;
      len, mark, recs, before := 0, Off, [], [];
      new;
      mem[at] := 0;
    }

    /** Words of room left. */
    function Left(): int
      reads this
    {
      words - head - len
    }

    /** Where a record of `n` words begins. */
    method OpenRecord(op: nat, n: nat) returns (w: nat)
      requires Valid() && 2 + n <= Left()
      modifies this`len, mem
      ensures w == at + head + old(len) + 2 && len == old(len) + 2 + n
      ensures mem[w - 2] == op && mem[w - 1] == n
      ensures forall k :: 0 <= k < mem.Length && k != w - 2 && k != w - 1 ==> mem[k] == old(mem[k])
    {
      var from := at + head + len;
      len := len + 2 + n;
      mem[from] := op;
      mem[from + 1] := n;
      return from + 2;
    }

    /** A record of `n` words for its writer to fill; none where an open transaction no longer fits it, which
        drops the transaction. Outside one, a record that does not fit is a bug. */
    method Reserve(op: nat, n: nat) returns (w: nat, some: bool)
      requires Valid() && (mark.Off? ==> 2 + n <= Left())
      modifies this`len, this`mark, mem
      ensures some <==> !old(mark).Spilled? && 2 + n <= old(Left())
      ensures !some ==> len == old(len) && mem[..] == old(mem[..]) && mark == (if old(mark).Open? then Spilled(old(mark).at) else old(mark))
      ensures some ==> && mark == old(mark) && w == at + head + old(len) + 2 && len == old(len) + 2 + n
                       && mem[w - 2] == op && mem[w - 1] == n
                       && forall k :: 0 <= k < mem.Length && k != w - 2 && k != w - 1 ==> mem[k] == old(mem[k])
    {
      if mark.Spilled? {
        return 0, false;
      }
      if mark.Open? && Left() < 2 + n {
        mark := Spilled(mark.at);
        return 0, false;
      }
      w := OpenRecord(op, n);
      return w, true;
    }

    /** The records from here to `Commit` are one. */
    method Begin()
      requires Valid() && mark.Off?
      modifies this`mark, this`before
      ensures Valid() && mark == Open(len) && before == recs
    {
      mark := Open(len);
      before := recs;
    }

    /** False where the transaction did not fit: the stream is as at `Begin`. */
    method Commit() returns (fit: bool)
      requires Valid() && !mark.Off?
      modifies this`mark, this`len, this`recs
      ensures Valid() && mark == Off && fit == old(mark).Open?
      ensures recs == if fit then old(recs) else before
    {
      fit := !mark.Spilled?;
      EncodedPrefix(before, recs);
      if !fit {
        len := mark.at;
        recs := before;
        Prefix(mem[..], at + head, |Encoded(old(recs))|, len);
      }
      mark := Off;
    }

    // A record's words: counted, then written

    method PutItem(w: nat, item: Item)
      requires w + |ItemWords(item)| <= mem.Length
      modifies mem
      ensures mem[w..w + |ItemWords(item)|] == ItemWords(item)
      ensures Elsewhere(old(mem[..]), mem[..], w, |ItemWords(item)|)
    {
      match item
      case Word(v) =>
        mem[w] := v;
      case Text(b) =>
        PutText(w, b);
    }

    method PutText(w: nat, b: seq<Byte>)
      requires w + 1 + WordsIn(|b|) <= mem.Length
      modifies mem
      ensures mem[w..w + 1 + WordsIn(|b|)] == ItemWords(Text(b))
      ensures Elsewhere(old(mem[..]), mem[..], w, 1 + WordsIn(|b|))
    {
      hide WordOf, WordsIn, Chunks, ItemWords, Elsewhere;
      var n := WordsIn(|b|);
      mem[w] := |b|;
      var k := 0;
      TextBegun(old(mem[..]), mem[..], w, b);
      while k < n
        invariant k <= n && TextPut(old(mem[..]), mem[..], w, b, k)
      {
        ghost var m := mem[..];
        mem[w + 1 + k] := WordOf(b, k);
        TextPutOn(old(mem[..]), m, w, b, k);
        k := k + 1;
      }
      TextIsPut(old(mem[..]), mem[..], w, b);
    }

    method Fill(w: nat, items: seq<Item>) returns (n: nat)
      requires w + |Flat(items)| <= mem.Length
      modifies mem
      ensures n == |Flat(items)| && mem[w..w + n] == Flat(items) && Elsewhere(old(mem[..]), mem[..], w, n)
    {
      hide ItemWords;
      n := 0;
      var i := 0;
      while i < |items|
        invariant i <= |items| && n == |Flat(items[..i])| && w + n <= mem.Length
        invariant mem[w..w + n] == Flat(items[..i]) && Elsewhere(old(mem[..]), mem[..], w, n)
      {
        FlatNext(items, i);
        ghost var m := mem[..];
        PutItem(w + n, items[i]);
        FilledOn(old(mem[..]), m, mem[..], w, n, |ItemWords(items[i])|);
        n := n + |ItemWords(items[i])|;
        i := i + 1;
      }
      assert items[..i] == items;
    }

    /** A record of `op` whose words `items` give: false, and not written, where an open transaction no longer
        fits it. */
    method Emit(op: nat, items: seq<Item>) returns (sent: bool)
      requires Valid() && (mark.Off? ==> 2 + |Flat(items)| <= Left())
      modifies this`len, this`mark, this`recs, mem
      ensures Valid()
      ensures sent <==> !old(mark).Spilled? && 2 + |Flat(items)| <= old(Left())
      ensures recs == if sent then old(recs) + [Record(op, Flat(items))] else old(recs)
      ensures mark == if !sent && old(mark).Open? then Spilled(old(mark).at) else old(mark)
    {
      hide Flat, Encoded;
      var count := Count(items);
      var w, some := Reserve(op, count);
      if !some {
        return false;
      }
      ghost var m := mem[..];
      var filled := Fill(w, items);
      assert filled == count;
      EncodedMore(recs, Record(op, Flat(items)));
      RecordLaid(old(mem[..]), m, mem[..], at + head, Encoded(recs), op, Flat(items));
      EncodedStill(before, recs, Record(op, Flat(items)));
      recs := recs + [Record(op, Flat(items))];
      return true;
    }

    /** A record laid past the last the turn has recorded and never published, for a hostcall: where, or none
        where it does not fit. */
    method Past(op: nat, items: seq<Item>) returns (w: nat, some: bool)
      requires Valid()
      modifies mem
      ensures Valid() && some == (2 + |Flat(items)| <= Left())
      ensures some ==> && w == at + head + len && w + 2 + |Flat(items)| <= at + words
                       && mem[w..w + 2 + |Flat(items)|] == [op, |Flat(items)|] + Flat(items)
    {
      hide Flat, Encoded;
      var count := Count(items);
      if 2 + count > Left() {
        return 0, false;
      }
      w := at + head + len;
      mem[w] := op;
      mem[w + 1] := count;
      ghost var m := mem[..];
      var filled := Fill(w + 2, items);
      RecordLaid(old(mem[..]), m, mem[..], at + head, Encoded(recs), op, Flat(items));
      some := true;
    }

    /** The turn's records for the host to find, in place of the last turn's. */
    method Publish()
      requires Valid() && mark.Off?
      modifies this`len, this`recs, mem
      ensures Valid() && recs == [] && mark == Off
      ensures Published(mem[..], at, head, old(recs))
    {
      mem[at] := len;
      len := 0;
      recs := [];
    }
  }

  lemma FlatNone(items: seq<Item>)
    ensures Flat(items[..0]) == []
  {
  }

  lemma ItemSize(i: Item)
    ensures |ItemWords(i)| == if i.Word? then 1 else 1 + WordsIn(|i.b|)
  {
  }

  /** A record's words, counted. */
  method Count(items: seq<Item>) returns (n: nat)
    ensures n == |Flat(items)|
  {
    hide Flat, WordsIn, ItemWords;
    n := 0;
    var i := 0;
    FlatNone(items);
    while i < |items|
      invariant i <= |items| && n == |Flat(items[..i])|
    {
      FlatNext(items, i);
      ItemSize(items[i]);
      n := n + if items[i].Word? then 1 else 1 + WordsIn(|items[i].b|);
      i := i + 1;
    }
    assert items[..i] == items;
  }

  /** A text's length and its first `k` words, put at `w`. */
  ghost predicate TextPut(m0: seq<nat>, m: seq<nat>, w: nat, b: seq<Byte>, k: nat) {
    && Elsewhere(m0, m, w, 1 + WordsIn(|b|)) && k <= WordsIn(|b|) && w + 1 + WordsIn(|b|) <= |m| && m[w] == |b|
    && forall j :: w < j < w + 1 + k ==> m[j] == WordOf(b, j - w - 1)
  }

  lemma TextBegun(m0: seq<nat>, m: seq<nat>, w: nat, b: seq<Byte>)
    requires w + 1 + WordsIn(|b|) <= |m0| && m == m0[w := |b|]
    ensures TextPut(m0, m, w, b, 0)
  {
    hide WordOf, WordsIn;
  }

  lemma TextPutOn(m0: seq<nat>, m: seq<nat>, w: nat, b: seq<Byte>, k: nat)
    requires TextPut(m0, m, w, b, k) && k < WordsIn(|b|)
    ensures TextPut(m0, m[w + 1 + k := WordOf(b, k)], w, b, k + 1)
  {
    hide WordOf, WordsIn;
  }

  lemma TextIsPut(m0: seq<nat>, m: seq<nat>, w: nat, b: seq<Byte>)
    requires TextPut(m0, m, w, b, WordsIn(|b|))
    ensures m[w..w + 1 + WordsIn(|b|)] == ItemWords(Text(b)) && Elsewhere(m0, m, w, 1 + WordsIn(|b|))
  {
    hide WordOf, WordsIn;
    var words := Chunks(b, WordsIn(|b|));
    assert m[w..w + 1 + WordsIn(|b|)] == [|b|] + words;
  }

  /** Only the `n` words from `w` differ. */
  ghost predicate Elsewhere(m: seq<nat>, m': seq<nat>, w: nat, n: nat) {
    |m'| == |m| && forall k :: 0 <= k < |m| && !(w <= k < w + n) ==> m'[k] == m[k]
  }

  lemma FilledOn(m0: seq<nat>, m: seq<nat>, m': seq<nat>, w: nat, n: nat, more: nat)
    requires Elsewhere(m0, m, w, n) && Elsewhere(m, m', w + n, more) && w + n + more <= |m|
    ensures Elsewhere(m0, m', w, n + more) && m'[w..w + n] == m[w..w + n]
    ensures m'[w..w + n + more] == m[w..w + n] + m'[w + n..w + n + more]
  {
  }

  lemma FlatNext(items: seq<Item>, i: nat)
    requires i < |items|
    ensures Flat(items[..i + 1]) == Flat(items[..i]) + ItemWords(items[i])
    ensures |Flat(items[..i + 1])| <= |Flat(items)|
  {
    hide ItemWords;
    assert items[..i + 1][..i] == items[..i];
    FlatGrows(items, i + 1);
  }

  lemma {:induction false} FlatGrows(items: seq<Item>, i: nat)
    requires i <= |items|
    ensures |Flat(items[..i])| <= |Flat(items)|
  {
    if i < |items| {
      FlatGrows(items[..|items| - 1], i);
      assert items[..|items| - 1][..i] == items[..i];
    } else {
      assert items[..i] == items;
    }
  }

  /** A record laid after those there are. */
  lemma RecordLaid(m0: seq<nat>, m: seq<nat>, m': seq<nat>, from: nat, were: seq<nat>, op: nat, words: seq<nat>)
    requires var w := from + |were| + 2;
             && w + |words| <= |m0| && m0[from..from + |were|] == were
             && Elsewhere(m0, m, w - 2, 2) && m[w - 2] == op && m[w - 1] == |words|
             && Elsewhere(m, m', w, |words|) && m'[w..w + |words|] == words
    ensures m'[from..from + |were| + 2 + |words|] == were + [op, |words|] + words
    ensures m'[from..from + |were|] == were
    ensures m'[from + |were|..from + |were| + 2 + |words|] == [op, |words|] + words
  {
    forall k | 0 <= k < |were|
      ensures m'[from + k] == were[k]
    {
      assert m0[from..from + |were|][k] == were[k];
    }
    var w := from + |were| + 2;
    forall k | 0 <= k < |words|
      ensures m'[w + k] == words[k]
    {
      assert m'[w..w + |words|][k] == words[k];
    }
  }

  lemma EncodedStill(before: seq<Record>, recs: seq<Record>, r: Record)
    ensures before <= recs ==> before <= recs + [r]
  {
  }

  /** The memory holds just these records for the host. */
  ghost predicate Published(mem: seq<nat>, at: nat, head: nat, recs: seq<Record>) {
    && 0 < head && at + head + |Encoded(recs)| <= |mem|
    && mem[at] == |Encoded(recs)|
    && mem[at + head..at + head + |Encoded(recs)|] == Encoded(recs)
  }

  lemma Prefix(m: seq<nat>, from: nat, n: nat, k: nat)
    requires k <= n && from + n <= |m|
    ensures m[from..from + k] == m[from..from + n][..k]
  {
  }
}
