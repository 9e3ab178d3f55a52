/** A string's escapes: as they are read, character by character, and as they are written. What is written reads back
    as what it was. */
module JsonStrings {
  import opened Bytes
  import opened JsonText
  import opened JsonSteps
  import opened Prelude
  import U = Utf8

  /** A character: a scalar value of Unicode. */
  type Rune = c: int | U.Scalar(c)

  function Encoded(cs: seq<Rune>): seq<Byte> {
    if cs == [] then [] else U.Encode(cs[0]) + Encoded(cs[1..])
  }

  // Where UTF-8 may be cut

  /** A byte of ASCII is a character, so a text may be cut before it and after it. */
  lemma {:induction false} CutAt(s: seq<Byte>, k: nat)
    requires U.Text(s) && k < |s| && s[k] < 0x80
    ensures U.Text(s[..k]) && U.Text(s[k..]) && U.Text(s[k + 1..])
    decreases |s|
  {
    hide *;
    var n := Front(s);
    Ascii(s, n, k);
    if k == 0 {
      assert s[0..] == s;
    } else {
      assert s[n..][k - n] == s[k];
      CutAt(s[n..], k - n);
      U.TextFront(s[..n], s[n..][..k - n]);
      assert s[..n] + s[n..][..k - n] == s[..k];
      assert s[n..][k - n..] == s[k..];
      assert s[n..][k - n + 1..] == s[k + 1..];
    }
    NoText(s[..0]);
  }

  lemma NoText(s: seq<Byte>)
    requires s == []
    ensures U.Text(s)
  {
  }

  /** A text's first character, and the text after it. */
  lemma Front(s: seq<Byte>) returns (n: nat)
    requires U.Text(s) && s != []
    ensures n == U.CharLen(s) && 1 <= n <= |s| && U.Char(s[..n]) && U.Text(s[n..])
  {
    hide U.Char, U.Text;
    U.TextStep(s);
    n := U.CharLen(s);
  }

  lemma Ascii(s: seq<Byte>, n: nat, k: nat)
    requires 1 <= n <= |s| && U.Char(s[..n]) && k < |s| && s[k] < 0x80
    ensures if k == 0 then n == 1 else n <= k
  {
    if k < n {
      assert s[..n][k] == s[k] && s[..n][0] == s[0];
    }
  }

  lemma Cut(a: seq<Byte>, b: seq<Byte>)
    requires U.Text(a + b) && b != [] && b[0] < 0x80
    ensures U.Text(a) && U.Text(b) && U.Text(b[1..])
  {
    CutAt(a + b, |a|);
    assert (a + b)[..|a|] == a && (a + b)[|a|..] == b && (a + b)[|a| + 1..] == b[1..];
  }

  // Escapes read

  /** The character at the front and the bytes it takes; a surrogate alone is U+FFFD. None where an escape is cut
      short, which no string the check accepts holds. */
  ghost function NextChar(raw: seq<Byte>): (r: Option<(Rune, nat)>)
    requires raw != [] && U.Text(raw)
    ensures r.Some? ==> 1 <= r.value.1 <= |raw| && U.Text(raw[r.value.1..])
  {
    if raw[0] != 0x5c then Some(FrontChar(raw))
    else if |raw| == 1 then None
    else
      CutAt(raw, 0);
      if raw[1] == 0x75 then UnicodeChar(raw)
      else
        var (c, m) := FrontChar(raw[1..]);
        assert raw[1..][m..] == raw[1 + m..];
        UnescapedScalar(c);
        Some((Unescaped(c), 1 + m))
  }

  ghost function FrontChar(s: seq<Byte>): (r: (Rune, nat))
    requires s != [] && U.Text(s)
    ensures r.1 == U.CharLen(s) && 1 <= r.1 <= |s| && U.Text(s[r.1..]) && U.Char(s[..r.1]) && r.0 == U.Decode(s[..r.1])
  {
    U.TextStep(s);
    (U.Decode(s[..U.CharLen(s)]), U.CharLen(s))
  }

  ghost function UnicodeChar(raw: seq<Byte>): (r: Option<(Rune, nat)>)
    requires U.Text(raw)
    ensures r.Some? ==> 1 <= r.value.1 <= |raw| && U.Text(raw[r.value.1..])
  {
    if !Hex4(raw, 2) then None
    else if Paired(raw, 2) then
      CutAt(raw, 11);
      Some((PairVal(Hex4Val(raw, 2), Hex4Val(raw, 8)), 12))
    else
      CutAt(raw, 5);
      Some((Alone(Hex4Val(raw, 2)), 6))
  }

  lemma UnescapedScalar(c: nat)
    requires U.Scalar(c)
    ensures U.Scalar(Unescaped(c))
  {
  }

  /** All a string's characters. */
  ghost function Chars(raw: seq<Byte>): (cs: seq<Rune>)
    requires U.Text(raw)
    decreases |raw|
  {
    if raw == [] then []
    else
      match NextChar(raw)
      case None => []
      case Some((c, n)) => [c] + Chars(raw[n..])
  }

  // The steps over UTF-8

  lemma LenIs(s: seq<Byte>, n: nat)
    requires n <= |s| && U.Char(s[..n])
    ensures s != [] && n == LeadLen(s[0])
  {
    assert s[..n][0] == s[0];
  }

  lemma BitsOne(s: seq<Byte>, len: nat, k: nat)
    requires 1 <= k < |s| && 1 <= len <= 4
    ensures Bits(s, len, k + 1) == Bits(s, len, k) * 0x40 + s[k] % 0x40
  {
  }

  /** The bits put together are the character's. */
  lemma BitsAll(s: seq<Byte>, len: nat)
    requires 1 <= len <= 4 && len <= |s| && U.Char(s[..len])
    ensures Bits(s, len, len) == U.Decode(s[..len])
  {
    var c := s[..len];
    FirstBits(s, len);
    if len > 1 {
      TailBits(c[1]);
      BitsOne(s, len, 1);
    }
    if len > 2 {
      TailBits(c[2]);
      BitsOne(s, len, 2);
    }
    if len > 3 {
      TailBits(c[3]);
      BitsOne(s, len, 3);
    }
  }

  lemma FirstBits(s: seq<Byte>, len: nat)
    requires 1 <= len <= 4 && len <= |s| && U.Char(s[..len])
    ensures Bits(s, len, 1) == s[0] - if len == 1 then 0 else if len == 2 then 0xc0 else if len == 3 then 0xe0 else 0xf0
  {
    assert s[..len][0] == s[0];
  }

  lemma TailBits(b: Byte)
    ensures U.Tail(b) ==> b % 0x40 == b - 0x80
  {
  }

  /** Of UTF-8 what is taken off the front is its first character. */
  lemma FrontIs(s: seq<Byte>)
    requires s != [] && U.Text(s)
    ensures FrontRaw(s).0 == FrontChar(s).0 && FrontRaw(s).1 == FrontChar(s).1
  {
    hide U.Char, U.Text, U.Decode, Bits, LeadLen;
    var n := Front(s);
    LenIs(s, n);
    BitsAll(s, n);
  }

  lemma NextIs(raw: seq<Byte>)
    requires raw != [] && U.Text(raw)
    ensures NextRaw(raw).None? == NextChar(raw).None? && !Past(raw)
    ensures NextRaw(raw).Some? ==> NextRaw(raw).value.0 == NextChar(raw).value.0 && NextRaw(raw).value.1 == NextChar(raw).value.1
  {
    hide U.Char, U.Text, U.Decode, FrontRaw, FrontChar, Hex4, Hex4Val, Unescaped, Paired;
    FrontIs(raw);
    FirstIs(raw, 0x5c);
    if raw[0] == 0x5c && |raw| > 1 {
      CutAt(raw, 0);
      FrontIs(raw[1..]);
      FirstIs(raw[1..], 0x75);
    }
  }

  /** A backslash, or a `u`, is its own byte and no other character's first. */
  lemma FirstIs(s: seq<Byte>, b: Byte)
    requires s != [] && U.Text(s) && b < 0x80
    ensures FrontChar(s).0 == b <==> s[0] == b
    ensures s[0] == b ==> FrontChar(s).1 == 1
  {
    var n := Front(s);
    U.CharsAreScalars(s[..n]);
    assert s[..n][0] == s[0];
  }

  lemma EncodedMore(c: Rune, cs: seq<Rune>)
    ensures Encoded([c] + cs) == U.Encode(c) + Encoded(cs)
  {
    assert ([c] + cs)[1..] == cs;
  }

  /** A string's characters in UTF-8: what it says. */
  ghost function Said(raw: seq<Byte>): seq<Byte>
    requires U.Text(raw)
  {
    Encoded(Chars(raw))
  }

  lemma SaidNext(raw: seq<Byte>)
    requires U.Text(raw)
    ensures raw == [] ==> Said(raw) == []
    ensures raw != [] && NextChar(raw).None? ==> Said(raw) == []
    ensures raw != [] && NextChar(raw).Some? ==>
              Said(raw) == U.Encode(NextChar(raw).value.0) + Said(raw[NextChar(raw).value.1..])
  {
    hide NextChar, U.Text, U.Encode;
    if raw != [] && NextChar(raw).Some? {
      var next := NextChar(raw).value;
      EncodedMore(next.0, Chars(raw[next.1..]));
    }
  }

  /** UTF-8 is decoded to what it says, and no step goes past its end. */
  lemma {:induction false} TextInside(raw: seq<Byte>)
    requires U.Text(raw)
    ensures Inside(raw) && Steps(raw) == Said(raw)
    decreases |raw|
  {
    hide U.Text, U.Encode, NextChar, NextRaw, Said, Pushed;
    SaidNext(raw);
    if raw != [] {
      NextIs(raw);
      if NextChar(raw).Some? {
        TextInside(raw[NextChar(raw).value.1..]);
      }
    }
  }

  // Comparing

  /** The text itself, where it holds no escape. */
  function AsPlain(raw: seq<Byte>): Option<seq<Byte>> {
    if 0x5c in raw then None else Some(raw)
  }

  lemma {:induction false} PlainSays(raw: seq<Byte>)
    requires U.Text(raw) && AsPlain(raw).Some?
    ensures Said(raw) == raw
    decreases |raw|
  {
    hide U.Text, U.Char, U.Encode, U.Decode, Said;
    SaidNext(raw);
    if raw != [] {
      assert raw[0] != 0x5c;
      var n := FrontChar(raw).1;
      U.CharsAreScalars(raw[..n]);
      PlainSays(raw[n..]);
      assert raw == raw[..n] + raw[n..];
    }
  }

  /** A text goes on with a character exactly where that is its first, and with what follows it after. */
  lemma GoesOn(t: seq<Byte>, c: Rune, more: seq<Byte>)
    requires U.Text(t) && t != []
    ensures t == U.Encode(c) + more <==> FrontChar(t).0 == c && more == t[FrontChar(t).1..]
  {
    hide U.Char, U.Text, U.Encode, U.Decode;
    var n := Front(t);
    U.CharsAreScalars(t[..n]);
    U.ScalarsAreChars(c);
    if t == U.Encode(c) + more {
      assert t[..|U.Encode(c)|] == U.Encode(c);
      U.Prefixless(t, n, |U.Encode(c)|);
    }
  }

  /** Whether a string says `s`, whatever bytes both are. */
  method EqStr(raw: seq<Byte>, s: seq<Byte>) returns (yes: bool)
    requires Comparable(raw)
    ensures yes <==> Says(raw, s)
  {
    hide NextRaw, FrontRaw;
    var plain := AsPlain(raw);
    if plain.Some? {
      return plain.value == s;
    }
    var chars := new JsonChars(raw);
    var at := 0;
    while true
      invariant Inside(chars.rest) && (Agrees(Codes(chars.rest), s, at) <==> Says(raw, s))
      decreases |chars.rest|
    {
      ghost var was := chars.rest;
      var a := chars.Next();
      if a.None? {
        return at == |s|;
      }
      CodesNext(was);
      if at >= |s| {
        return false;
      }
      var c, end := Utf8Next(s, at);
      if c != a.value {
        return false;
      }
      at := end;
    }
  }

  lemma CodesNext(raw: seq<Byte>)
    requires Inside(raw) && raw != [] && NextRaw(raw).Some?
    ensures NextRaw(raw).value.1 <= |raw| && Codes(raw)[0] == NextRaw(raw).value.0
    ensures Codes(raw)[1..] == Codes(raw[NextRaw(raw).value.1..])
  {
    hide NextRaw;
  }

  /** Of UTF-8 a string says what its characters are in UTF-8, and nothing else. */
  lemma SaysIffSaid(raw: seq<Byte>, s: seq<Byte>)
    requires U.Text(raw) && U.Text(s)
    ensures Comparable(raw) && (Says(raw, s) <==> Said(raw) == s)
  {
    hide Said, U.Text, Codes, Agrees, Inside;
    TextInside(raw);
    if 0x5c in raw {
      assert s[0..] == s;
      CodesSay(raw, s, 0);
    } else {
      PlainSays(raw);
    }
  }

  lemma {:induction false} CodesSay(raw: seq<Byte>, s: seq<Byte>, at: nat)
    requires U.Text(raw) && Inside(raw) && at <= |s| && U.Text(s[at..])
    ensures Agrees(Codes(raw), s, at) <==> Said(raw) == s[at..]
    decreases |raw|
  {
    hide Said, U.Text, U.Encode, NextChar, NextRaw, FrontChar, FrontRaw;
    SaidNext(raw);
    if raw != [] {
      NextIs(raw);
    }
    if raw != [] && NextChar(raw).Some? {
      var (c, n) := NextChar(raw).value;
      var more := Said(raw[n..]);
      CodesNext(raw);
      SomeBytes(c, more);
      if at < |s| {
        GoesOn(s[at..], c, more);
        FrontIs(s[at..]);
        var len := FrontChar(s[at..]).1;
        assert s[at..][len..] == s[at + len..];
        CodesSay(raw[n..], s, at + len);
      }
    }
  }

  lemma SomeBytes(c: Rune, more: seq<Byte>)
    ensures U.Encode(c) + more != []
  {
  }

  // Escapes written

  function HexDigit(n: nat): (b: Byte)
    requires n < 16
    ensures Hex(b) && HexVal(b) == n
  {
    if n < 10 then 0x30 + n else 0x61 + n - 10
  }

  /** A byte as it is written: a character of its own only where it must be. */
  function Escape(b: Byte): (e: seq<Byte>) {
    if b == 0x22 then [0x5c, 0x22]
    else if b == 0x5c then [0x5c, 0x5c]
    else if b == 0x0a then [0x5c, 0x6e]
    else if b == 0x0d then [0x5c, 0x72]
    else if b == 0x09 then [0x5c, 0x74]
    else if b < 0x20 then [0x5c, 0x75, 0x30, 0x30, HexDigit(b / 16), HexDigit(b % 16)]
    else [b]
  }

  function Escaped(s: seq<Byte>): seq<Byte> {
    if s == [] then [] else Escape(s[0]) + Escaped(s[1..])
  }

  /** As it runs: what is plain is put in one piece, up to what is not. */
  method Quote(s: seq<Byte>) returns (out: seq<Byte>)
    ensures out == Quoted(Escaped(s))
  {
    hide Escaped, Escape;
    out := [0x22];
    var plain, i := 0, 0;
    assert s[0..] == s;
    while i < |s|
      invariant 0 <= plain <= i <= |s| && Put(s, out, plain, i)
    {
      PutOn(s, out, plain, i);
      if s[i] >= 0x20 && s[i] != 0x22 && s[i] != 0x5c {
        i := i + 1;
        continue;
      }
      out := out + s[plain..i] + Escape(s[i]);
      i := i + 1;
      plain := i;
    }
    PutAll(s, out, plain);
    out := out + s[plain..] + [0x22];
  }

  /** What is put, what is plain up to `i`, and what is left are the whole. */
  ghost predicate Put(s: seq<Byte>, out: seq<Byte>, plain: nat, i: nat) {
    plain <= i <= |s| && out + s[plain..i] + Escaped(s[i..]) == [0x22] + Escaped(s)
  }

  lemma PutOn(s: seq<Byte>, out: seq<Byte>, plain: nat, i: nat)
    requires Put(s, out, plain, i) && i < |s|
    ensures Put(s, out + s[plain..i] + Escape(s[i]), i + 1, i + 1)
    ensures s[i] >= 0x20 && s[i] != 0x22 && s[i] != 0x5c ==> Put(s, out, plain, i + 1)
  {
    hide Escape;
    var esc := Escape(s[i]);
    var more := Escaped(s[i + 1..]);
    assert s[i..][1..] == s[i + 1..] && s[i + 1..i + 1] == [];
    assert out + s[plain..i] + (esc + more) == (out + s[plain..i] + esc) + more;
    EscapePlain(s[i]);
    assert s[plain..i + 1] == s[plain..i] + [s[i]];
    assert out + (s[plain..i] + [s[i]]) == out + s[plain..i] + [s[i]];
  }

  lemma EscapePlain(b: Byte)
    ensures b >= 0x20 && b != 0x22 && b != 0x5c ==> Escape(b) == [b]
  {
  }

  lemma PutAll(s: seq<Byte>, out: seq<Byte>, plain: nat)
    requires Put(s, out, plain, |s|)
    ensures out + s[plain..] == [0x22] + Escaped(s)
  {
    assert s[|s|..] == [] && s[plain..|s|] == s[plain..];
  }

  /** What is written is a string of the grammar. */
  lemma {:induction false} EscapedOk(s: seq<Byte>)
    ensures StringOk(Escaped(s))
  {
    if s != [] {
      EscapedOk(s[1..]);
      EscapeOk(s[0], Escaped(s[1..]));
    }
  }

  lemma EscapeOk(b: Byte, more: seq<Byte>)
    requires StringOk(more)
    ensures StringOk(Escape(b) + more)
  {
    var t := Escape(b) + more;
    assert t[|Escape(b)|..] == more;
    assert t[0] == Escape(b)[0];
    if |Escape(b)| > 1 {
      assert t[1] == Escape(b)[1];
    }
    if |Escape(b)| > 2 {
      assert t[2] == 0x30 && t[3] == 0x30 && t[4] == Escape(b)[4] && t[5] == Escape(b)[5];
    }
  }

  /** Bytes past ASCII are written as they are. */
  lemma {:induction false} EscapedAbove(c: seq<Byte>, s: seq<Byte>)
    requires forall k :: 0 <= k < |c| ==> c[k] >= 0x80
    ensures Escaped(c + s) == c + Escaped(s)
  {
    if c == [] {
      assert c + s == s;
    } else {
      assert (c + s)[1..] == c[1..] + s;
      EscapedAbove(c[1..], s);
      assert c + Escaped(s) == [c[0]] + (c[1..] + Escaped(s));
    }
  }

  /** An escape at the front is read as the byte it stands for. */
  lemma EscapeReads(b: Byte, more: seq<Byte>)
    requires b < 0x80 && U.Text(more)
    ensures U.Text(Escape(b) + more) && NextChar(Escape(b) + more) == Some((b, |Escape(b)|))
  {
    hide U.Text;
    var e := Escape(b);
    AsciiText(e, more);
    var t := e + more;
    assert t[0] == e[0];
    if |e| == 1 {
      FirstIs(t, b);
    } else if |e| == 2 {
      CutAt(t, 0);
      assert t[1..][0] == t[1] == e[1];
      FirstIs(t[1..], e[1]);
    } else {
      assert t[1] == 0x75 && t[2] == 0x30 && t[3] == 0x30 && t[4] == e[4] && t[5] == e[5];
    }
  }

  lemma {:induction false} AsciiText(a: seq<Byte>, s: seq<Byte>)
    requires U.Text(s) && forall k :: 0 <= k < |a| ==> a[k] < 0x80
    ensures U.Text(a + s)
  {
    hide U.Text;
    if a == [] {
      assert a + s == s;
    } else {
      AsciiText(a[1..], s);
      assert U.Char([a[0]]);
      U.TextFront([a[0]], a[1..] + s);
      assert a + s == [a[0]] + (a[1..] + s);
    }
  }

  /** What is written says what it was written from. */
  lemma {:induction false} EscapedSays(s: seq<Byte>)
    requires U.Text(s)
    ensures U.Text(Escaped(s)) && Said(Escaped(s)) == s
    decreases |s|
  {
    hide U.Text, U.Decode, U.Encode, U.Char, NextChar, Said;
    if s == [] {
      SaidNext([]);
    } else {
      var n := Front(s);
      var t := s[n..];
      EscapedSays(t);
      EscapedFront(s, n);
      var e := Escaped(s);
      var m := |e| - |Escaped(t)|;
      SaidNext(e);
      U.CharsAreScalars(s[..n]);
      assert e[m..] == Escaped(t);
    }
  }

  /** A character, however it is written, is read as itself. */
  lemma EscapedFront(s: seq<Byte>, n: nat)
    requires 1 <= n <= |s| && U.Char(s[..n]) && U.Text(s[n..]) && U.Text(Escaped(s[n..]))
    ensures var e := Escaped(s); var more := Escaped(s[n..]);
            && U.Text(e) && |e| > |more| && e[|e| - |more|..] == more && NextChar(e) == Some((U.Decode(s[..n]), |e| - |more|))
  {
    hide U.Text;
    var more := Escaped(s[n..]);
    if s[0] < 0x80 {
      assert n == 1 && U.Decode(s[..1]) == s[0];
      EscapeReads(s[0], more);
    } else {
      var c := s[..n];
      assert c[0] == s[0];
      AboveAscii(c);
      assert s == c + s[n..];
      EscapedAbove(c, s[n..]);
      U.TextFront(c, more);
      var k := Front(c + more);
      assert (c + more)[..n] == c;
      U.Prefixless(c + more, n, k);
    }
  }

  lemma AboveAscii(c: seq<Byte>)
    requires U.Char(c) && c[0] >= 0x80
    ensures forall k :: 0 <= k < |c| ==> c[k] >= 0x80
  {
  }
}
