/** Whitespace, strings and numbers: each is found exactly where the grammar has one. */
module JsonGrammar {
  import opened Bytes
  import opened JsonText
  import opened Prelude

  /** Text `t` lies at `at`. */
  predicate Here(s: seq<Byte>, at: nat, t: seq<Byte>) {
    at + |t| <= |s| && s[at..at + |t|] == t
  }

  lemma HerePart(s: seq<Byte>, at: nat, a: seq<Byte>, b: seq<Byte>)
    ensures Here(s, at, a + b) <==> Here(s, at, a) && Here(s, at + |a|, b)
  {
    if Here(s, at, a + b) {
      assert s[at..at + |a|] == s[at..at + |a + b|][..|a|];
      assert s[at + |a|..at + |a| + |b|] == s[at..at + |a + b|][|a|..];
    }
    if Here(s, at, a) && Here(s, at + |a|, b) {
      assert s[at..at + |a + b|] == s[at..at + |a|] + s[at + |a|..at + |a| + |b|];
    }
  }

  lemma HereByte(s: seq<Byte>, at: nat, b: Byte)
    ensures Here(s, at, [b]) <==> ByteIs(s, at, b)
  {
    if at < |s| {
      assert s[at..at + 1] == [s[at]];
    }
  }

  // Whitespace, digits, strings

  lemma {:induction false} WsSkipped(s: seq<Byte>, at: nat)
    requires at <= |s|
    ensures AllWs(s[at..SkipWs(s, at)]) && (SkipWs(s, at) == |s| || !Ws(s[SkipWs(s, at)]))
    decreases |s| - at
  {
    if at < |s| && Ws(s[at]) {
      WsSkipped(s, at + 1);
      assert s[at..SkipWs(s, at)] == [s[at]] + s[at + 1..SkipWs(s, at)];
    }
  }

  lemma {:induction false} WsSkips(s: seq<Byte>, at: nat, w: seq<Byte>)
    requires Here(s, at, w) && AllWs(w) && (at + |w| == |s| || !Ws(s[at + |w|]))
    ensures SkipWs(s, at) == at + |w|
    decreases |w|
  {
    if w != [] {
      assert s[at] == s[at..at + |w|][0] == w[0];
      HerePart(s, at, w[..1], w[1..]);
      assert w == w[..1] + w[1..];
      WsSkips(s, at + 1, w[1..]);
    }
  }

  lemma {:induction false} DigitsFound(s: seq<Byte>, at: nat)
    requires at <= |s|
    ensures AllDigits(s[at..at + Digits(s, at)]) && (at + Digits(s, at) == |s| || !Digit(s[at + Digits(s, at)]))
    decreases |s| - at
  {
    if at < |s| && Digit(s[at]) {
      DigitsFound(s, at + 1);
      assert s[at..at + Digits(s, at)] == [s[at]] + s[at + 1..at + Digits(s, at)];
    }
  }

  lemma {:induction false} DigitsFind(s: seq<Byte>, at: nat, d: seq<Byte>)
    requires Here(s, at, d) && AllDigits(d) && (at + |d| == |s| || !Digit(s[at + |d|]))
    ensures Digits(s, at) == |d|
    decreases |d|
  {
    if d != [] {
      assert s[at] == s[at..at + |d|][0] == d[0];
      HerePart(s, at, d[..1], d[1..]);
      assert d == d[..1] + d[1..];
      DigitsFind(s, at + 1, d[1..]);
    }
  }

  lemma {:induction false} StringFound(s: seq<Byte>, at: nat)
    requires SkipString(s, at).Some?
    ensures var end := SkipString(s, at).value;
            s[end - 1] == 0x22 && StringOk(s[at..end - 1])
    decreases |s| - at
  {
    var end := SkipString(s, at).value;
    if s[at] == 0x22 {
      assert s[at..at] == [];
    } else {
      var raw := s[at..end - 1];
      var n := if s[at] == 0x5c then (if Short(s[at + 1]) then 2 else 6) else 1;
      StringFound(s, at + n);
      assert raw[n..] == s[at + n..end - 1];
    }
  }

  lemma {:induction false} StringFinds(s: seq<Byte>, at: nat, raw: seq<Byte>)
    requires Here(s, at, raw) && StringOk(raw) && ByteIs(s, at + |raw|, 0x22)
    ensures SkipString(s, at) == Some(at + |raw| + 1)
    decreases |raw|
  {
    if raw != [] {
      var n := if raw[0] == 0x5c then (if Short(raw[1]) then 2 else 6) else 1;
      forall k | 0 <= k < n
        ensures s[at + k] == raw[k]
      {
        assert s[at..at + |raw|][k] == raw[k];
      }
      HerePart(s, at, raw[..n], raw[n..]);
      assert raw == raw[..n] + raw[n..];
      StringFinds(s, at + n, raw[n..]);
    }
  }

  // Numbers

  /** Nothing that would go on with a number. */
  predicate NumEnds(s: seq<Byte>, at: nat) {
    at >= |s| || (!Digit(s[at]) && s[at] != 0x2e && s[at] != 0x65 && s[at] != 0x45)
  }

  lemma FracFound(s: seq<Byte>, at: nat)
    requires at <= |s| && FracAt(s, at).Some?
    ensures var (f, end) := FracAt(s, at).value;
            && FracOk(f) && FracText(f) == s[at..end]
  {
    if ByteIs(s, at, 0x2e) {
      DigitsFound(s, at + 1);
      assert s[at..at + 1 + Digits(s, at + 1)] == [s[at]] + s[at + 1..at + 1 + Digits(s, at + 1)];
    }
  }

  lemma ExpFound(s: seq<Byte>, at: nat)
    requires at <= |s| && ExpAt(s, at).Some?
    ensures var (e, end) := ExpAt(s, at).value;
            && ExpOk(e) && ExpText(e) == s[at..end]
  {
    if ByteIs(s, at, 0x65) || ByteIs(s, at, 0x45) {
      var (e, end) := ExpAt(s, at).value;
      var from := if e.value.sign.Some? then at + 2 else at + 1;
      DigitsFound(s, from);
      assert s[at..end] == s[at..from] + s[from..end];
      assert s[at..from] == [s[at]] + if e.value.sign.Some? then [s[at + 1]] else [];
    }
  }

  /** A number found is a sign, digits, a fraction and an exponent, each found where the one before it ends. */
  predicate Pieces(s: seq<Byte>, at: nat, n: Num, from: nat, mid: nat, next: nat, end: nat) {
    && from == (if n.neg then at + 1 else at) && (n.neg <==> ByteIs(s, at, 0x2d))
    && mid == from + Digits(s, from) <= |s| && n.whole == Slice(s, from, mid)
    && n.whole != [] && (|n.whole| > 1 ==> n.whole[0] != 0x30)
    && FracAt(s, mid) == Some((n.frac, next)) && ExpAt(s, next) == Some((n.exp, end))
  }

  lemma NumberPieces(s: seq<Byte>, at: nat, n: Num, from: nat, mid: nat, next: nat, end: nat)
    requires Pieces(s, at, n, from, mid, next, end)
    ensures NumberAt(s, at) == Some((n, end))
  {
    hide FracAt, ExpAt, Digits;
  }

  lemma PiecesOf(s: seq<Byte>, at: nat) returns (from: nat, mid: nat, next: nat)
    requires at <= |s| && NumberAt(s, at).Some?
    ensures var (n, end) := NumberAt(s, at).value; at <= from <= mid <= next <= end <= |s| && Pieces(s, at, n, from, mid, next, end)
  {
    hide FracAt, ExpAt, Digits;
    from := if ByteIs(s, at, 0x2d) then at + 1 else at;
    mid := from + Digits(s, from);
    next := FracAt(s, mid).value.1;
  }

  lemma Joined(s: seq<Byte>, i: nat, j: nat, k: nat)
    requires i <= j <= k <= |s|
    ensures s[i..k] == s[i..j] + s[j..k]
  {
  }

  lemma SignFound(s: seq<Byte>, at: nat, neg: bool)
    requires neg <==> ByteIs(s, at, 0x2d)
    requires at <= |s|
    ensures s[at..if neg then at + 1 else at] == if neg then [0x2d] else []
  {
  }

  lemma NumberFound(s: seq<Byte>, at: nat)
    requires at <= |s| && NumberAt(s, at).Some?
    ensures var (n, end) := NumberAt(s, at).value; NumOk(n) && NumText(n) == s[at..end]
  {
    hide FracText, ExpText, FracAt, ExpAt, Digits, AllDigits, ByteIs, NumberAt;
    var (n, end) := NumberAt(s, at).value;
    var from, mid, next := PiecesOf(s, at);
    DigitsFound(s, from);
    FracFound(s, mid);
    ExpFound(s, next);
    SignFound(s, at, n.neg);
    Joined(s, at, from, mid);
    Joined(s, at, mid, next);
    Joined(s, at, next, end);
  }

  lemma FracFinds(s: seq<Byte>, at: nat, f: Option<seq<Byte>>)
    requires Here(s, at, FracText(f)) && FracOk(f)
    requires var end := at + |FracText(f)|; end >= |s| || (!Digit(s[end]) && s[end] != 0x2e)
    ensures FracAt(s, at) == Some((f, at + |FracText(f)|))
  {
    if f.Some? {
      HerePart(s, at, [0x2e], f.value);
      HereByte(s, at, 0x2e);
      DigitsFind(s, at + 1, f.value);
    }
  }

  lemma ExpFinds(s: seq<Byte>, at: nat, e: Option<Exp>)
    requires Here(s, at, ExpText(e)) && ExpOk(e) && NumEnds(s, at + |ExpText(e)|)
    ensures ExpAt(s, at) == Some((e, at + |ExpText(e)|))
  {
    if e.Some? {
      var sign := if e.value.sign.Some? then [e.value.sign.value] else [];
      HerePart(s, at, [e.value.letter] + sign, e.value.digits);
      HerePart(s, at, [e.value.letter], sign);
      HereByte(s, at, e.value.letter);
      if e.value.sign.Some? {
        HereByte(s, at + 1, e.value.sign.value);
      } else {
        assert s[at + 1] == s[at + 1..at + 1 + |e.value.digits|][0];
      }
      DigitsFind(s, at + 1 + |sign|, e.value.digits);
    }
  }

  /** The first byte of a text that is there. */
  lemma FirstHere(s: seq<Byte>, at: nat, t: seq<Byte>)
    requires Here(s, at, t) && t != []
    ensures at < |s| && s[at] == t[0]
  {
    assert s[at..at + |t|][0] == t[0];
  }

  /** The four parts of a number's text, each there. */
  lemma NumHere(s: seq<Byte>, at: nat, n: Num, neg: seq<Byte>)
    requires Here(s, at, NumText(n)) && neg == if n.neg then [0x2d] else []
    ensures var mid := at + |neg| + |n.whole|;
            && Here(s, at, neg) && Here(s, at + |neg|, n.whole) && Here(s, mid, FracText(n.frac))
            && Here(s, mid + |FracText(n.frac)|, ExpText(n.exp))
            && |NumText(n)| == |neg| + |n.whole| + |FracText(n.frac)| + |ExpText(n.exp)|
  {
    hide FracText, ExpText, Here;
    HerePart(s, at, neg + n.whole + FracText(n.frac), ExpText(n.exp));
    HerePart(s, at, neg + n.whole, FracText(n.frac));
    HerePart(s, at, neg, n.whole);
  }

  /** An exponent's text, then an end, does not go on with a fraction; nor does a fraction's go on with digits. */
  lemma ExpIsNoFrac(s: seq<Byte>, at: nat, e: Option<Exp>)
    requires Here(s, at, ExpText(e)) && ExpOk(e) && NumEnds(s, at + |ExpText(e)|)
    ensures at >= |s| || (!Digit(s[at]) && s[at] != 0x2e)
  {
    if e.Some? {
      FirstHere(s, at, ExpText(e));
    }
  }

  lemma FracIsNoDigit(s: seq<Byte>, at: nat, f: Option<seq<Byte>>)
    requires Here(s, at, FracText(f))
    requires f.Some? || at >= |s| || !Digit(s[at])
    ensures at >= |s| || !Digit(s[at])
  {
    if f.Some? {
      FirstHere(s, at, FracText(f));
    }
  }

  lemma NumberFinds(s: seq<Byte>, at: nat, n: Num)
    requires Here(s, at, NumText(n)) && NumOk(n) && NumEnds(s, at + |NumText(n)|)
    ensures NumberAt(s, at) == Some((n, at + |NumText(n)|))
  {
    hide Here, FracText, ExpText, FracAt, ExpAt, Digits, AllDigits, NumberAt, NumText, Digit, Slice;
    var neg := if n.neg then [0x2d] else [];
    var from := at + |neg|;
    var mid := from + |n.whole|;
    var next := mid + |FracText(n.frac)|;
    NumHere(s, at, n, neg);
    WholeFinds(s, at, n, neg);
    ExpFinds(s, next, n.exp);
    ExpIsNoFrac(s, next, n.exp);
    FracFinds(s, mid, n.frac);
    NumberPieces(s, at, n, from, mid, next, at + |NumText(n)|);
  }

  lemma WholeFinds(s: seq<Byte>, at: nat, n: Num, neg: seq<Byte>)
    requires Here(s, at, NumText(n)) && NumOk(n) && NumEnds(s, at + |NumText(n)|) && neg == if n.neg then [0x2d] else []
    ensures Digits(s, at + |neg|) == |n.whole| && Slice(s, at + |neg|, at + |neg| + |n.whole|) == n.whole
    ensures n.neg <==> ByteIs(s, at, 0x2d)
    ensures at + |neg| + |n.whole| <= |s|
  {
    hide FracText, ExpText, NumText, Digits, Here, AllDigits, NumEnds;
    var from := at + |neg|;
    var mid := from + |n.whole|;
    NumHere(s, at, n, neg);
    SignHere(s, at, n.neg, n.whole);
    ExpIsNoFrac(s, mid + |FracText(n.frac)|, n.exp);
    NoFracText(n.frac);
    FracIsNoDigit(s, mid, n.frac);
    SliceHere(s, from, n.whole);
    DigitsFind(s, from, n.whole);
  }

  lemma SignHere(s: seq<Byte>, at: nat, neg: bool, whole: seq<Byte>)
    requires var sign := if neg then [0x2d] else []; Here(s, at, sign) && Here(s, at + |sign|, whole)
    requires whole != [] && AllDigits(whole)
    ensures neg <==> ByteIs(s, at, 0x2d)
  {
    if neg {
      HereByte(s, at, 0x2d);
    } else {
      FirstHere(s, at, whole);
    }
  }

  lemma SliceHere(s: seq<Byte>, at: nat, t: seq<Byte>)
    requires Here(s, at, t)
    ensures at + |t| <= |s| && Slice(s, at, at + |t|) == t
  {
  }

  lemma NoFracText(f: Option<seq<Byte>>)
    ensures f.None? ==> FracText(f) == []
  {
  }
}
