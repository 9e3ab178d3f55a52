/** What a string's spellings mean, as section 7 of RFC 8259 has them, told from the character and not from how they are
    read: itself, its letter, its number, and two numbers past U+FFFF. */
module JsonSpellings {
  import opened Bytes
  import opened JsonText
  import opened JsonSteps
  import opened JsonStrings
  import opened Prelude
  import U = Utf8

  /** The letters that stand for a character after a backslash, and the characters: quotation mark, reverse solidus,
      solidus, backspace, form feed, line feed, carriage return, tab. */
  const LETTERS: string := "\"\\/bfnrt"
  const MEANT: seq<nat> := [0x22, 0x5c, 0x2f, 0x08, 0x0c, 0x0a, 0x0d, 0x09]

  const LOWER: string := "0123456789abcdef"
  const UPPER: string := "0123456789ABCDEF"

  /** The hexadecimal digit of `v`, in either case. */
  predicate DigitOf(d: Byte, v: nat) {
    v < 16 && (d as char == LOWER[v] || d as char == UPPER[v])
  }

  /** The escape of four digits of the number `u`. */
  predicate NumberOf(w: seq<Byte>, u: int) {
    && |w| == 6 && 0 <= u < 0x1_0000 && w[0] as char == '\\' && w[1] as char == 'u'
    && DigitOf(w[2], u / 0x1000) && DigitOf(w[3], u / 0x100 % 0x10) && DigitOf(w[4], u / 0x10 % 0x10) && DigitOf(w[5], u % 0x10)
  }

  predicate ByItself(w: seq<Byte>, c: Rune) {
    w == U.Encode(c) && c >= 0x20 && c != '\"' as int && c != '\\' as int
  }

  predicate ByLetter(w: seq<Byte>, c: Rune) {
    |w| == 2 && w[0] as char == '\\' && exists k :: 0 <= k < 8 && w[1] as char == LETTERS[k] && c == MEANT[k]
  }

  predicate ByNumber(w: seq<Byte>, c: Rune) {
    NumberOf(w, c)
  }

  predicate ByPair(w: seq<Byte>, c: Rune) {
    && |w| == 12 && c > 0xffff
    && NumberOf(w[..6], 0xd800 + (c - 0x1_0000) / 0x400) && NumberOf(w[6..], 0xdc00 + (c - 0x1_0000) % 0x400)
  }

  predicate Spells(w: seq<Byte>, c: Rune) {
    ByItself(w, c) || ByLetter(w, c) || ByNumber(w, c) || ByPair(w, c)
  }

  /** A surrogate's number that no other completes, as what follows it is. */
  predicate LoneSurrogate(w: seq<Byte>, more: seq<Byte>) {
    exists u :: 0xd800 <= u < 0xe000 && NumberOf(w, u)
                && !(u < 0xdc00 && |more| >= 6 && exists v :: 0xdc00 <= v < 0xe000 && NumberOf(more[..6], v))
  }

  // Digits

  lemma DigitIs(d: Byte, v: nat)
    requires v < 16
    ensures DigitOf(d, v) <==> Hex(d) && HexVal(d) == v
  {
  }

  /** Four digits are a number's exactly where that is what they are read as. */
  lemma NumberIs(raw: seq<Byte>, at: nat, u: nat)
    requires at + 6 <= |raw| && u < 0x1_0000
    ensures NumberOf(raw[at..at + 6], u) <==>
              raw[at] == 0x5c && raw[at + 1] == 0x75 && Hex4(raw, at + 2) && Hex4Val(raw, at + 2) == u
  {
    hide HexVal, DigitOf;
    var w := raw[at..at + 6];
    assert w[0] == raw[at] && w[1] == raw[at + 1];
    DigitIs(w[2], u / 0x1000);
    DigitIs(w[3], u / 0x100 % 0x10);
    DigitIs(w[4], u / 0x10 % 0x10);
    DigitIs(w[5], u % 0x10);
    if Hex4(raw, at + 2) {
      FourDigits(HexVal(w[2]), HexVal(w[3]), HexVal(w[4]), HexVal(w[5]), u);
    }
  }

  lemma FourDigits(a: nat, b: nat, c: nat, d: nat, u: nat)
    requires a < 16 && b < 16 && c < 16 && d < 16 && u < 0x1_0000
    ensures ((a * 16 + b) * 16 + c) * 16 + d == u <==> a == u / 0x1000 && b == u / 0x100 % 0x10 && c == u / 0x10 % 0x10 && d == u % 0x10
  {
  }

  // Each spelling read

  lemma FrontAscii(s: seq<Byte>)
    requires s != [] && s[0] < 0x80
    ensures FrontRaw(s) == (s[0] as nat, 1)
  {
  }

  lemma ItselfRead(w: seq<Byte>, c: Rune, more: seq<Byte>)
    requires ByItself(w, c)
    ensures NextRaw(w + more) == Some((c as nat, |w|))
  {
    hide Bits, U.Char, U.Encode, U.Decode;
    var s := w + more;
    U.ScalarsAreChars(c);
    assert s[..|w|] == w;
    LenIs(s, |w|);
    BitsAll(s, |w|);
  }

  lemma LetterRead(w: seq<Byte>, c: Rune, more: seq<Byte>)
    requires ByLetter(w, c)
    ensures NextRaw(w + more) == Some((c as nat, |w|))
  {
    hide FrontRaw;
    var s := w + more;
    assert s[0] == w[0] && s[1..][0] == w[1];
    FrontAscii(s);
    FrontAscii(s[1..]);
  }

  lemma EscapeFront(s: seq<Byte>)
    requires |s| >= 2 && s[0] == 0x5c && s[1] == 0x75
    ensures NextRaw(s) == UnicodeRaw(s, 2)
  {
    hide FrontRaw, UnicodeRaw;
    FrontAscii(s);
    FrontAscii(s[1..]);
  }

  lemma NumberRead(w: seq<Byte>, u: nat, more: seq<Byte>)
    requires NumberOf(w, u)
    ensures var s := w + more;
            && s[0] == 0x5c && s[1] == 0x75 && Hex4(s, 2) && Hex4Val(s, 2) == u && NextRaw(s) == UnicodeRaw(s, 2)
  {
    hide NumberOf, Hex4, Hex4Val, UnicodeRaw, NextRaw;
    var s := w + more;
    SixLong(w, u);
    assert s[0..0 + 6] == w;
    NumberIs(s, 0, u);
    EscapeFront(s);
  }

  lemma ByNumberRead(w: seq<Byte>, c: Rune, more: seq<Byte>)
    requires ByNumber(w, c)
    ensures NextRaw(w + more) == Some((c as nat, |w|))
  {
    hide NumberOf, Hex4, Hex4Val, NextRaw;
    SixLong(w, c);
    NumberRead(w, c, more);
    assert U.Scalar(c) && !Paired(w + more, 2);
    assert UnicodeRaw(w + more, 2) == Some((c as nat, 6));
  }

  lemma ByPairRead(w: seq<Byte>, c: Rune, more: seq<Byte>)
    requires ByPair(w, c)
    ensures NextRaw(w + more) == Some((c as nat, |w|))
  {
    hide NumberOf, Hex4, Hex4Val, NextRaw;
    var hi: nat, lo: nat := 0xd800 + (c - 0x1_0000) / 0x400, 0xdc00 + (c - 0x1_0000) % 0x400;
    var s := w + more;
    NumberRead(w[..6], hi, w[6..] + more);
    assert w[..6] + (w[6..] + more) == s;
    assert s[6..6 + 6] == w[6..];
    NumberIs(s, 6, lo);
    assert U.Scalar(c) && High(hi) && Low(lo);
    assert Paired(s, 2);
    assert UnicodeRaw(s, 2) == Some((PairVal(hi, lo), 12));
  }

  /** Every spelling of a character, whatever bytes follow, is read as that character and takes its own bytes. */
  lemma SpellingRead(w: seq<Byte>, c: Rune, more: seq<Byte>)
    requires Spells(w, c)
    ensures w != [] && NextRaw(w + more) == Some((c as nat, |w|))
  {
    hide NextRaw, ByItself, ByLetter, ByNumber, ByPair;
    if ByItself(w, c) {
      ItselfRead(w, c, more);
    } else if ByLetter(w, c) {
      LetterRead(w, c, more);
    } else if ByNumber(w, c) {
      ByNumberRead(w, c, more);
    } else {
      ByPairRead(w, c, more);
    }
    SpellingLong(w, c);
  }

  lemma SpellingLong(w: seq<Byte>, c: Rune)
    requires Spells(w, c)
    ensures w != []
  {
    if ByItself(w, c) {
      U.ScalarsAreChars(c);
    }
  }

  /** A surrogate's number alone is read as U+FFFD. */
  lemma LoneRead(w: seq<Byte>, more: seq<Byte>)
    requires LoneSurrogate(w, more)
    ensures |w| == 6 && NextRaw(w + more) == Some((0xfffd, 6))
  {
    hide NumberOf, Hex4, Hex4Val, NextRaw;
    var u :| 0xd800 <= u < 0xe000 && NumberOf(w, u)
             && !(u < 0xdc00 && |more| >= 6 && exists v :: 0xdc00 <= v < 0xe000 && NumberOf(more[..6], v));
    SixLong(w, u);
    var s := w + more;
    NumberRead(w, u, more);
    if Paired(s, 2) {
      PairedAfter(w, more);
    }
  }

  lemma PairedAfter(w: seq<Byte>, more: seq<Byte>)
    requires |w| == 6 && Hex4(w + more, 2) && Paired(w + more, 2)
    ensures |more| >= 6 && 0xdc00 <= Hex4Val(w + more, 8) < 0xe000 && NumberOf(more[..6], Hex4Val(w + more, 8))
    ensures Hex4Val(w + more, 2) < 0xdc00
  {
    hide NumberOf, Hex4Val;
    var s := w + more;
    assert s[6..6 + 6] == more[..6];
    NumberIs(s, 6, Hex4Val(s, 8));
  }

  lemma SixLong(w: seq<Byte>, u: int)
    requires NumberOf(w, u)
    ensures |w| == 6 && w[0] == 0x5c && w[1] == 0x75 && 0 <= u < 0x1_0000
  {
  }

  // Every string of the grammar is spellings

  /** `w` stands for `c` where `more` follows. */
  predicate StandsFor(w: seq<Byte>, more: seq<Byte>, c: Rune) {
    Spells(w, c) || (LoneSurrogate(w, more) && c == 0xfffd)
  }

  /** A character that is no escape taken off. */
  lemma PlainGone(raw: seq<Byte>, n: nat)
    requires StringOk(raw) && 1 <= n <= |raw| && U.Char(raw[..n]) && raw[0] != 0x5c
    ensures StringOk(raw[n..])
  {
    assert forall k :: 0 < k < n ==> raw[k] == raw[..n][k] >= 0x80;
    Gone(raw, n);
  }

  lemma {:induction false} Gone(raw: seq<Byte>, n: nat)
    requires StringOk(raw) && n <= |raw| && forall k :: 0 <= k < n ==> raw[k] != 0x5c
    ensures StringOk(raw[n..])
  {
    if n > 0 {
      Gone(raw[1..], n - 1);
      assert raw[1..][n - 1..] == raw[n..];
    } else {
      assert raw[0..] == raw;
    }
  }

  lemma PlainSpelled(raw: seq<Byte>)
    requires U.Text(raw) && StringOk(raw) && raw != [] && raw[0] != 0x5c
    ensures NextChar(raw).Some? && ByItself(raw[..NextChar(raw).value.1], NextChar(raw).value.0)
    ensures StringOk(raw[NextChar(raw).value.1..])
  {
    hide U.Text, U.Char, U.Encode, U.Decode, StringOk;
    var (c, n) := FrontChar(raw);
    NotQuote(raw);
    PlainGone(raw, n);
    U.CharsAreScalars(raw[..n]);
    if c < 0x80 {
      FirstIs(raw, c);
    }
  }

  lemma NotQuote(raw: seq<Byte>)
    requires StringOk(raw) && raw != [] && raw[0] != 0x5c
    ensures raw[0] >= 0x20 && raw[0] != 0x22
  {
  }

  lemma LetterSpelled(raw: seq<Byte>)
    requires U.Text(raw) && |raw| >= 2 && raw[0] == 0x5c && Short(raw[1])
    ensures NextChar(raw).Some? && NextChar(raw).value.1 == 2 && ByLetter(raw[..2], NextChar(raw).value.0)
  {
    hide U.Text, U.Char, U.Decode;
    CutAt(raw, 0);
    FirstIs(raw[1..], raw[1]);
    LetterOf(raw[1]);
  }

  lemma LetterOf(b: Byte)
    requires Short(b)
    ensures exists k :: 0 <= k < 8 && b as char == LETTERS[k] && Unescaped(b) == MEANT[k]
  {
    assert LETTERS[0] == 0x22 as char && LETTERS[1] == 0x5c as char && LETTERS[2] == 0x2f as char && LETTERS[3] == 0x62 as char;
    assert LETTERS[4] == 0x66 as char && LETTERS[5] == 0x6e as char && LETTERS[6] == 0x72 as char && LETTERS[7] == 0x74 as char;
  }

  lemma NumberSpelled(raw: seq<Byte>)
    requires U.Text(raw) && |raw| >= 6 && raw[0] == 0x5c && raw[1] == 0x75 && Hex4(raw, 2)
    ensures NextChar(raw).Some?
    ensures var (c, n) := NextChar(raw).value; StandsFor(raw[..n], raw[n..], c)
  {
    hide NumberOf, Hex4Val, U.Text, FrontChar, ByItself, ByLetter, StringOk;
    var u := Hex4Val(raw, 2);
    assert raw[0..0 + 6] == raw[..6];
    NumberIs(raw, 0, u);
    if Paired(raw, 2) {
      var lo := Hex4Val(raw, 8);
      assert raw[6..6 + 6] == raw[..12][6..] && raw[..12][..6] == raw[..6];
      NumberIs(raw, 6, lo);
      assert PairVal(u, lo) - 0x1_0000 == (u - 0xd800) * 0x400 + (lo - 0xdc00);
    } else if High(u) || Low(u) {
      LoneNumber(raw, u);
    }
  }

  lemma LoneNumber(raw: seq<Byte>, u: nat)
    requires |raw| >= 6 && Hex4(raw, 2) && u == Hex4Val(raw, 2) && NumberOf(raw[..6], u) && 0xd800 <= u < 0xe000 && !Paired(raw, 2)
    ensures LoneSurrogate(raw[..6], raw[6..])
  {
    hide NumberOf, Hex4, Hex4Val;
    if v :| u < 0xdc00 && |raw| >= 12 && 0xdc00 <= v < 0xe000 && NumberOf(raw[6..][..6], v) {
      assert raw[6..6 + 6] == raw[6..][..6];
      NumberIs(raw, 6, v);
    }
  }

  lemma NumberGone(raw: seq<Byte>)
    requires U.Text(raw) && StringOk(raw) && raw != [] && raw[0] == 0x5c && !Short(raw[1])
    ensures StringOk(raw[NextChar(raw).value.1..])
  {
    hide U.Text, Hex4Val, FrontChar;
    if Paired(raw, 2) {
      assert raw[6..][6..] == raw[12..];
      assert StringOk(raw[6..][6..]);
    }
  }

  /** The first character of a string of the grammar is spelled by the bytes it is read from. */
  lemma FirstSpelled(raw: seq<Byte>)
    requires U.Text(raw) && StringOk(raw) && raw != []
    ensures NextChar(raw).Some?
    ensures var (c, n) := NextChar(raw).value; StandsFor(raw[..n], raw[n..], c) && StringOk(raw[n..])
  {
    hide U.Text, U.Char, U.Decode, ByItself, ByLetter, NumberOf, NextChar, LoneSurrogate;
    if raw[0] != 0x5c {
      PlainSpelled(raw);
    } else if Short(raw[1]) {
      LetterSpelled(raw);
    } else {
      NumberSpelled(raw);
      NumberGone(raw);
    }
  }

  /** A string spells these characters, one after another. */
  ghost predicate Spelled(raw: seq<Byte>, cs: seq<Rune>)
    decreases |cs|
  {
    if cs == [] then raw == [] else exists n :: 1 <= n <= |raw| && LedBy(raw, n, cs[0]) && Spelled(raw[n..], cs[1..])
  }

  predicate LedBy(raw: seq<Byte>, n: nat, c: Rune)
    requires n <= |raw|
  {
    StandsFor(raw[..n], raw[n..], c)
  }

  lemma StandsRead(raw: seq<Byte>, n: nat, c: Rune)
    requires n <= |raw| && LedBy(raw, n, c)
    ensures raw != [] && NextRaw(raw) == Some((c as nat, n))
  {
    hide Spells, LoneSurrogate, NextRaw;
    assert raw == raw[..n] + raw[n..];
    if Spells(raw[..n], c) {
      SpellingRead(raw[..n], c, raw[n..]);
    } else {
      LoneRead(raw[..n], raw[n..]);
    }
  }

  /** A string of the grammar in UTF-8 spells the characters it is read as, and no others. */
  lemma {:induction false} SpelledIff(raw: seq<Byte>, cs: seq<Rune>)
    requires U.Text(raw) && StringOk(raw)
    ensures Spelled(raw, cs) <==> cs == Chars(raw)
    decreases |raw|
  {
    hide U.Text, StringOk, NextChar, NextRaw, LedBy;
    if raw == [] {
      return;
    }
    FirstSpelled(raw);
    NextIs(raw);
    var (c, n) := NextChar(raw).value;
    assert LedBy(raw, n, c) by {
      LedOf(raw, n, c);
    }
    forall m, d: Rune | 1 <= m <= |raw| && LedBy(raw, m, d)
      ensures m == n && d == c
    {
      StandsRead(raw, m, d);
    }
    if cs != [] {
      SpelledIff(raw[n..], cs[1..]);
    }
  }

  lemma LedOf(raw: seq<Byte>, n: nat, c: Rune)
    requires n <= |raw| && StandsFor(raw[..n], raw[n..], c)
    ensures LedBy(raw, n, c)
  {
  }

  /** So what it is decoded to is those characters in UTF-8. */
  lemma SpelledSteps(raw: seq<Byte>, cs: seq<Rune>)
    requires U.Text(raw) && StringOk(raw) && Spelled(raw, cs)
    ensures Inside(raw) && Steps(raw) == Encoded(cs)
  {
    hide U.Text, StringOk, Spelled;
    SpelledIff(raw, cs);
    TextInside(raw);
  }

  // The grammar's letters, and what is written

  /** The letters of escapes and digits as section 7 of RFC 8259 prints them. */
  lemma Letters(b: Byte)
    ensures Hex(b) <==> b as char in LOWER || b as char in UPPER
    ensures Short(b) <==> b as char in LETTERS
  {
    assert LETTERS[0] == '\"' && LETTERS[1] == '\\' && LETTERS[2] == '/' && LETTERS[3] == 'b';
    assert LETTERS[4] == 'f' && LETTERS[5] == 'n' && LETTERS[6] == 'r' && LETTERS[7] == 't';
  }

  /** What a byte of ASCII is written as spells it: in two bytes where it has a letter of its own, quotation mark, reverse
      solidus, line feed, carriage return and tab; in six, of lower case, where it is another below space; else itself. */
  lemma EscapeSpells(b: Byte)
    requires b < 0x80
    ensures Spells(Escape(b), b as int)
    ensures |Escape(b)| == if b as char in "\"\\\n\r\t" then 2 else if b < 0x20 then 6 else 1
    ensures |Escape(b)| == 6 ==> Escape(b)[4] as char in LOWER && Escape(b)[5] as char in LOWER
  {
    if b == 0x22 || b == 0x5c || b == 0x0a || b == 0x0d || b == 0x09 {
      EscapeLetter(b);
    } else if b < 0x20 {
      EscapeNumber(b);
    }
  }

  lemma EscapeLetter(b: Byte)
    requires b == 0x22 || b == 0x5c || b == 0x0a || b == 0x0d || b == 0x09
    ensures ByLetter(Escape(b), b as int)
  {
    assert LETTERS[0] == '\"' && LETTERS[1] == '\\' && LETTERS[5] == 'n' && LETTERS[6] == 'r' && LETTERS[7] == 't';
    assert MEANT[0] == 0x22 && MEANT[1] == 0x5c && MEANT[5] == 0x0a && MEANT[6] == 0x0d && MEANT[7] == 0x09;
  }

  lemma EscapeNumber(b: Byte)
    requires b < 0x20 && b != 0x0a && b != 0x0d && b != 0x09
    ensures NumberOf(Escape(b), b) && Escape(b)[4] as char in LOWER && Escape(b)[5] as char in LOWER
  {
    LowerDigit(b / 16);
    LowerDigit(b % 16);
  }

  lemma LowerDigit(v: nat)
    requires v < 16
    ensures HexDigit(v) as char == LOWER[v] && DigitOf(HexDigit(v), v)
  {
  }
}
