/** UTF-8: the grammar of section 4 of RFC 3629, the step that reads a character or the extent of what is no
    character, and the reading that replaces what is none. */
module Utf8 {
  import opened Bytes

  // The grammar

  predicate Tail(b: Byte) {
    0x80 <= b <= 0xbf
  }

  /** The range the second byte of a character has, by its first. */
  predicate Second(b: Byte, c: Byte) {
    if b == 0xe0 then 0xa0 <= c <= 0xbf
    else if b == 0xed then 0x80 <= c <= 0x9f
    else if b == 0xf0 then 0x90 <= c <= 0xbf
    else if b == 0xf4 then 0x80 <= c <= 0x8f
    else Tail(c)
  }

  /** UTF8-char, production by production: UTF8-1 to UTF8-4. */
  predicate Char(s: seq<Byte>) {
    || (|s| == 1 && s[0] <= 0x7f)
    || (|s| == 2 && 0xc2 <= s[0] <= 0xdf && Tail(s[1]))
    || (|s| == 3 && s[0] == 0xe0 && 0xa0 <= s[1] <= 0xbf && Tail(s[2]))
    || (|s| == 3 && 0xe1 <= s[0] <= 0xec && Tail(s[1]) && Tail(s[2]))
    || (|s| == 3 && s[0] == 0xed && 0x80 <= s[1] <= 0x9f && Tail(s[2]))
    || (|s| == 3 && 0xee <= s[0] <= 0xef && Tail(s[1]) && Tail(s[2]))
    || (|s| == 4 && s[0] == 0xf0 && 0x90 <= s[1] <= 0xbf && Tail(s[2]) && Tail(s[3]))
    || (|s| == 4 && 0xf1 <= s[0] <= 0xf3 && Tail(s[1]) && Tail(s[2]) && Tail(s[3]))
    || (|s| == 4 && s[0] == 0xf4 && 0x80 <= s[1] <= 0x8f && Tail(s[2]) && Tail(s[3]))
  }

  /** UTF8-octets: characters one after another. */
  ghost predicate Text(s: seq<Byte>)
    decreases |s|
  {
    s == [] || exists n :: 1 <= n <= |s| && Char(s[..n]) && Text(s[n..])
  }

  /** A scalar value of Unicode. */
  predicate Scalar(c: int) {
    0 <= c < 0xd800 || 0xe000 <= c < 0x11_0000
  }

  /** A scalar value in the bytes of the table in section 3 of RFC 3629. */
  function Encode(c: int): (s: seq<Byte>)
    requires Scalar(c)
    ensures Char(s)
  {
    if c < 0x80 then [c]
    else if c < 0x800 then [0xc0 + c / 0x40, 0x80 + c % 0x40]
    else if c < 0x1_0000 then [0xe0 + c / 0x40 / 0x40, 0x80 + c / 0x40 % 0x40, 0x80 + c % 0x40]
    else [0xf0 + c / 0x40 / 0x40 / 0x40, 0x80 + c / 0x40 / 0x40 % 0x40, 0x80 + c / 0x40 % 0x40, 0x80 + c % 0x40]
  }

  /** A byte's bits past its mark. */
  function Low(s: seq<Byte>, k: nat, mark: int): int
    requires k < |s|
  {
    s[k] - mark
  }

  function Decode(s: seq<Byte>): (c: int)
    requires Char(s)
    ensures Scalar(c)
  {
    var n := |s|;
    if n == 1 then Low(s, 0, 0)
    else if n == 2 then 0x40 * Low(s, 0, 0xc0) + Low(s, 1, 0x80)
    else if n == 3 then 0x40 * (0x40 * Low(s, 0, 0xe0) + Low(s, 1, 0x80)) + Low(s, 2, 0x80)
    else 0x40 * (0x40 * (0x40 * Low(s, 0, 0xf0) + Low(s, 1, 0x80)) + Low(s, 2, 0x80)) + Low(s, 3, 0x80)
  }

  /** Two characters' bytes, read as a number, the first the most, and a shorter one's before a longer's, are in the order
      of their scalar values: with the above, which character is which. */
  lemma InOrder(a: seq<Byte>, b: seq<Byte>)
    requires Char(a) && Char(b)
    ensures Before(a, b) ==> Decode(a) < Decode(b)
  {
  }

  /** `a` is the shorter, or its first byte that differs is less. */
  predicate Before(a: seq<Byte>, b: seq<Byte>) {
    |a| < |b| || (|a| == |b| && exists k :: 0 <= k < |a| && a[k] < b[k] && a[..k] == b[..k])
  }

  /** The grammar's characters are exactly the scalar values, each in one way. */
  lemma CharsAreScalars(s: seq<Byte>)
    requires Char(s)
    ensures Encode(Decode(s)) == s
  {
    if |s| == 2 {
      SixBits(Low(s, 0, 0xc0), Low(s, 1, 0x80));
    } else if |s| == 3 {
      ThreeBytes(s);
    } else if |s| == 4 {
      FourBytes(s);
    }
  }

  lemma ThreeBytes(s: seq<Byte>)
    requires Char(s) && |s| == 3
    ensures Encode(Decode(s)) == s
  {
    SixBits(Low(s, 0, 0xe0), Low(s, 1, 0x80));
    SixBits(0x40 * Low(s, 0, 0xe0) + Low(s, 1, 0x80), Low(s, 2, 0x80));
  }

  lemma FourBytes(s: seq<Byte>)
    requires Char(s) && |s| == 4
    ensures Encode(Decode(s)) == s
  {
    var c1 := 0x40 * Low(s, 0, 0xf0) + Low(s, 1, 0x80);
    var c2 := 0x40 * c1 + Low(s, 2, 0x80);
    SixBits(Low(s, 0, 0xf0), Low(s, 1, 0x80));
    SixBits(c1, Low(s, 2, 0x80));
    SixBits(c2, Low(s, 3, 0x80));
    assert Decode(s) == 0x40 * c2 + Low(s, 3, 0x80);
  }

  lemma SixBits(hi: nat, lo: nat)
    requires lo < 0x40
    ensures (0x40 * hi + lo) / 0x40 == hi && (0x40 * hi + lo) % 0x40 == lo
  {
  }

  lemma ScalarsAreChars(c: int)
    requires Scalar(c)
    ensures Decode(Encode(c)) == c
  {
  }

  /** No character begins another. */
  lemma Prefixless(s: seq<Byte>, m: nat, n: nat)
    requires m <= |s| && n <= |s| && Char(s[..m]) && Char(s[..n])
    ensures m == n
  {
    assert s[..m][0] == s[0] == s[..n][0];
  }

  // What is no character

  /** Bytes that begin a character and are not yet all of it. */
  ghost predicate Begins(p: seq<Byte>) {
    p != [] && exists t: seq<Byte> :: t != [] && Char(p + t)
  }

  function Need(b: Byte): (n: nat)
    ensures n <= 4
  {
    if b < 0x80 then 1
    else if 0xc2 <= b < 0xe0 then 2
    else if 0xe0 <= b < 0xf0 then 3
    else if 0xf0 <= b < 0xf5 then 4
    else 0
  }

  /** Bytes each in the range its place has. */
  predicate InRange(p: seq<Byte>) {
    && p != [] && |p| <= Need(p[0])
    && (|p| > 1 ==> Second(p[0], p[1]))
    && (|p| > 2 ==> Tail(p[2]))
    && (|p| > 3 ==> Tail(p[3]))
  }

  lemma CharInRange(p: seq<Byte>)
    ensures Char(p) <==> InRange(p) && |p| == Need(p[0])
  {
  }

  lemma BeginsInRange(p: seq<Byte>)
    ensures Begins(p) <==> InRange(p) && |p| < Need(p[0])
  {
    if Begins(p) {
      var t: seq<Byte> :| t != [] && Char(p + t);
      CharInRange(p + t);
      assert (p + t)[0] == p[0];
      assert |p| > 1 ==> (p + t)[1] == p[1];
      assert |p| > 2 ==> (p + t)[2] == p[2];
    }
    if InRange(p) && |p| < Need(p[0]) {
      var t := Rest(p);
      CharInRange(p + t);
    }
  }

  /** Bytes that complete a character begun. */
  function Rest(p: seq<Byte>): (t: seq<Byte>)
    requires InRange(p) && |p| < Need(p[0])
    ensures |p + t| == Need(p[0]) && t != [] && InRange(p + t)
  {
    var n := Need(p[0]) - |p|;
    if |p| > 1 then seq(n, _ => 0x80)
    else [if p[0] == 0xe0 then 0xa0 else if p[0] == 0xf0 then 0x90 else 0x80] + seq(n - 1, _ => 0x80)
  }

  /** Where `s` starts with no character, its maximal ill-formed prefix: as many bytes as begin one, at least
      one (section 3.9 of the Unicode Standard). */
  ghost predicate MaximalBad(s: seq<Byte>, n: nat) {
    && 1 <= n <= |s|
    && (n == 1 || Begins(s[..n]))
    && forall m :: n < m <= |s| ==> !Begins(s[..m])
  }

  /** The character that `s` starts with, or that it starts with none. */
  ghost predicate StepOf(s: seq<Byte>, len: nat, bad: nat) {
    if len > 0 then len <= |s| && Char(s[..len]) && bad == 0
    else (forall n :: 0 <= n <= |s| ==> !Char(s[..n])) && MaximalBad(s, bad)
  }

  lemma StepsClash(s: seq<Byte>, len: nat, bad: nat)
    requires 0 < len <= |s| && Char(s[..len])
    ensures !StepOf(s, 0, bad)
  {
  }

  lemma StepUnique(s: seq<Byte>, len: nat, bad: nat, len': nat, bad': nat)
    requires StepOf(s, len, bad) && StepOf(s, len', bad')
    ensures len == len' && bad == bad'
  {
    if len > 0 && len' > 0 {
      Prefixless(s, len, len');
    } else if len > 0 {
      StepsClash(s, len, bad');
    } else if len' > 0 {
      StepsClash(s, len', bad);
    }
  }

  method Step(s: seq<Byte>, i: nat) returns (len: nat, bad: nat)
    requires i < |s|
    ensures StepOf(s[i..], len, bad)
  {
    var b := s[i];
    len := if b < 0x80 then 1 else if b >= 0xc2 && b < 0xe0 then 2 else if b >= 0xe0 && b < 0xf0 then 3 else if b >= 0xf0 && b < 0xf5 then 4 else 0;
    var good := if len == 0 then 0 else 1;
    var k := 1;
    ghost var t := s[i..];
    assert t[0] == b;
    while k < len && i + k < |s|
      invariant 1 <= k && len == Need(b) && (len == 0 ==> good == 0)
      invariant len > 0 ==> good == k <= len && i + k <= |s|
      invariant len > 0 ==> InRange(t[..k])
    {
      var c := s[i + k];
      var lo, hi := 0x80, 0xbf;
      if k == 1 && b == 0xe0 { lo := 0xa0; }
      if k == 1 && b == 0xed { hi := 0x9f; }
      if k == 1 && b == 0xf0 { lo := 0x90; }
      if k == 1 && b == 0xf4 { hi := 0x8f; }
      if c < lo || c > hi {
        assert t[..k + 1][k] == c && !InRange(t[..k + 1]);
        break;
      }
      good := good + 1;
      k := k + 1;
    }
    if len != 0 && good == len {
      CharInRange(t[..len]);
      return len, 0;
    }
    StoppedAt(t, if good == 0 then 1 else good);
    return 0, if good == 0 then 1 else good;
  }

  /** Bytes good up to `n`, short of a character, and no further. */
  lemma StoppedAt(s: seq<Byte>, n: nat)
    requires 1 <= n <= |s| && (n == 1 || InRange(s[..n])) && (n < Need(s[0]) || Need(s[0]) == 0)
    requires n < |s| ==> !InRange(s[..n + 1])
    ensures StepOf(s, 0, n)
  {
    forall m | 0 <= m <= |s|
      ensures !Char(s[..m]) && (m > n ==> !Begins(s[..m]))
    {
      CharInRange(s[..m]);
      BeginsInRange(s[..m]);
      if m > n {
        Shorter(s, n + 1, m);
      }
    }
    BeginsInRange(s[..n]);
  }

  lemma Shorter(s: seq<Byte>, m: nat, n: nat)
    requires 1 <= m <= n <= |s|
    ensures InRange(s[..n]) ==> InRange(s[..m])
  {
  }

  // Whole texts

  /** The character at the front, as bytes taken: 0 where there is none. */
  ghost function CharLen(s: seq<Byte>): (n: nat)
    ensures n > 0 ==> n <= |s| && Char(s[..n])
    ensures n == 0 ==> forall m :: 0 <= m <= |s| ==> !Char(s[..m])
  {
    if exists n :: 0 <= n <= |s| && Char(s[..n]) then
      var n :| 0 <= n <= |s| && Char(s[..n]); n
    else 0
  }

  lemma StepLen(s: seq<Byte>, len: nat, bad: nat)
    requires StepOf(s, len, bad)
    ensures CharLen(s) == len
  {
    if len > 0 {
      Prefixless(s, CharLen(s), len);
    }
  }

  /** A text begins with a character, and goes on with a text. */
  lemma TextStep(s: seq<Byte>)
    requires s != []
    ensures Text(s) <==> CharLen(s) > 0 && Text(s[CharLen(s)..])
  {
    if Text(s) {
      var n :| 1 <= n <= |s| && Char(s[..n]) && Text(s[n..]);
      Prefixless(s, CharLen(s), n);
    }
  }

  lemma {:induction false} TextJoin(s: seq<Byte>, t: seq<Byte>)
    requires Text(s) && Text(t)
    ensures Text(s + t)
    decreases |s|
  {
    hide Char;
    if s == [] {
      assert s + t == t;
    } else {
      var n :| 1 <= n <= |s| && Char(s[..n]) && Text(s[n..]);
      TextJoin(s[n..], t);
      TextFront(s[..n], s[n..] + t);
      assert s + t == s[..n] + (s[n..] + t);
    }
  }

  lemma TextNone()
    ensures Text([])
  {
  }

  /** Whether `s` is UTF-8. */
  method IsUtf8(s: seq<Byte>) returns (yes: bool)
    ensures yes <==> Text(s)
  {
    hide Char, Text, StepOf;
    TextNone();
    assert s[0..] == s;
    var i := 0;
    while i < |s|
      invariant i <= |s| && (Text(s) <==> Text(s[i..]))
    {
      var len, bad := Step(s, i);
      StepLen(s[i..], len, bad);
      TextStep(s[i..]);
      if len == 0 {
        return false;
      }
      assert s[i..][len..] == s[i + len..];
      i := i + len;
    }
    assert s[i..] == [];
    return true;
  }

  /** U+FFFD, the replacement character. */
  const FFFD: seq<Byte> := [0xef, 0xbf, 0xbd]

  /** The replacement is the character U+FFFD. */
  lemma Replacement()
    ensures Char(FFFD) && Decode(FFFD) == 0xfffd && FFFD == Encode(0xfffd)
  {
  }

  /** The extent of the maximal ill-formed part at the front of what begins with no character. */
  ghost function BadLen(s: seq<Byte>): (n: nat)
    requires s != []
    ensures MaximalBad(s, n)
  {
    forall m | 1 <= m <= |s|
      ensures Begins(s[..m]) ==> m <= 3 && forall k :: 1 <= k <= m ==> Begins(s[..k])
    {
      BeginsShorter(s, m);
    }
    if |s| >= 3 && Begins(s[..3]) then 3 else if |s| >= 2 && Begins(s[..2]) then 2 else 1
  }

  lemma BeginsShorter(s: seq<Byte>, m: nat)
    requires 1 <= m <= |s|
    ensures Begins(s[..m]) ==> m <= 3 && forall k :: 1 <= k <= m ==> Begins(s[..k])
  {
    BeginsInRange(s[..m]);
    forall k | 1 <= k <= m
      ensures Begins(s[..m]) ==> Begins(s[..k])
    {
      BeginsInRange(s[..k]);
      Shorter(s, k, m);
    }
  }

  /** `s` with its characters kept and each maximal ill-formed part between them one U+FFFD. */
  ghost function Reading(s: seq<Byte>): (out: seq<Byte>)
    decreases |s|
  {
    if s == [] then []
    else if CharLen(s) > 0 then s[..CharLen(s)] + Reading(s[CharLen(s)..])
    else FFFD + Reading(s[BadLen(s)..])
  }

  /** What is read is always UTF-8. */
  lemma {:induction false} ReadingIsText(s: seq<Byte>)
    ensures Text(Reading(s))
    decreases |s|
  {
    if s == [] {
    } else if CharLen(s) > 0 {
      ReadingIsText(s[CharLen(s)..]);
      TextFront(s[..CharLen(s)], Reading(s[CharLen(s)..]));
    } else {
      ReadingIsText(s[BadLen(s)..]);
      TextFront(FFFD, Reading(s[BadLen(s)..]));
    }
  }

  lemma TextFront(c: seq<Byte>, s: seq<Byte>)
    requires Char(c) && Text(s)
    ensures Text(c + s)
  {
    assert (c + s)[..|c|] == c && (c + s)[|c|..] == s;
  }

  /** UTF-8 is read as it is, and nothing else is. */
  lemma {:induction false} ReadingKeepsText(s: seq<Byte>)
    ensures Reading(s) == s <==> Text(s)
    decreases |s|
  {
    ReadingIsText(s);
    if Text(s) && s != [] {
      TextStep(s);
      ReadingKeepsText(s[CharLen(s)..]);
    }
  }

  /** As it runs: what is plain is put in one piece, up to what is not. */
  method Lossy(s: seq<Byte>) returns (out: seq<Byte>)
    ensures out == Reading(s)
  {
    hide Char, StepOf, Reading, Text;
    ReadingNone(s);
    var plain, i := 0, 0;
    out := [];
    while i < |s|
      invariant 0 <= plain <= i <= |s|
      invariant out + (s[plain..i] + Reading(s[i..])) == Reading(s)
    {
      var len, bad := Step(s, i);
      StepReading(s, i, len, bad);
      if len != 0 {
        assert s[plain..i] + (s[i..i + len] + Reading(s[i + len..])) == s[plain..i + len] + Reading(s[i + len..]);
        i := i + len;
        continue;
      }
      assert out + (s[plain..i] + (FFFD + Reading(s[i + bad..]))) == (out + s[plain..i] + FFFD) + Reading(s[i + bad..]);
      out := out + s[plain..i] + FFFD;
      i := i + bad;
      plain := i;
      assert s[plain..i] + Reading(s[i..]) == Reading(s[i..]);
    }
    assert s[plain..i] + Reading(s[i..]) == s[plain..];
    out := out + s[plain..];
  }

  lemma ReadingNone(s: seq<Byte>)
    ensures s[|s|..] == [] && Reading([]) == []
  {
  }

  lemma StepReading(s: seq<Byte>, i: nat, len: nat, bad: nat)
    requires i < |s| && StepOf(s[i..], len, bad)
    ensures i + len + bad <= |s| && len + bad > 0
    ensures len > 0 ==> Reading(s[i..]) == s[i..i + len] + Reading(s[i + len..])
    ensures len == 0 ==> Reading(s[i..]) == FFFD + Reading(s[i + bad..])
  {
    StepLen(s[i..], len, bad);
    if len > 0 {
      assert s[i..][len..] == s[i + len..] && s[i..][..len] == s[i..i + len];
    } else {
      StepUnique(s[i..], 0, bad, 0, BadLen(s[i..]));
      assert s[i..][bad..] == s[i + bad..];
    }
  }
}
