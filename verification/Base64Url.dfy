/** Unpadded base64url (sections 3.2, 3.5 and 5 of RFC 4648): byte strings and the texts that are accepted for
    them correspond one to one. */
module Base64Url {
  import opened Bytes

  /** The alphabet, "A-Za-z0-9-_", as bytes. */
  function Symbol(v: nat): (c: Byte)
    requires v < 64
  {
    if v < 26 then v + 65 else if v < 52 then v - 26 + 97 else if v < 62 then v - 52 + 48 else if v == 62 then 45 else 95
  }

  /** A character's place in the alphabet, -1 for one not in it. */
  function Value(c: Byte): (v: int)
    ensures -1 <= v < 64
    ensures v >= 0 ==> Symbol(v) == c
  {
    if 65 <= c <= 90 then c - 65
    else if 97 <= c <= 122 then c - 97 + 26
    else if 48 <= c <= 57 then c - 48 + 52
    else if c == 45 then 62
    else if c == 95 then 63
    else -1
  }

  /** The alphabet of section 5 of RFC 4648. */
  const ALPHABET: string := "ABCDEFGHIJKLMNOPQRSTUVWXYZ" + "abcdefghijklmnopqrstuvwxyz" + "0123456789-_"

  lemma Alphabet(v: nat)
    requires v < 64
    ensures Symbol(v) == ALPHABET[v] as int
    ensures forall c: Byte :: Value(c) == v <==> c == ALPHABET[v] as int
  {
    SymbolValue(v);
  }

  lemma SymbolValue(v: nat)
    requires v < 64
    ensures Value(Symbol(v)) == v
  {
  }

  /** How many characters stand for so many bytes. */
  function EncodedLen(bytes: nat): nat {
    bytes / 3 * 4 + if bytes % 3 == 0 then 0 else bytes % 3 + 1
  }

  /** A group of up to three bytes, in 24 bits from the top. */
  function Word(b: seq<Byte>): (w: nat)
    requires 1 <= |b| <= 3
    ensures w < 0x100_0000
  {
    var (x: int, y: int, z: int) := (b[0], if |b| > 1 then b[1] else 0, if |b| > 2 then b[2] else 0);
    256 * (256 * x + y) + z
  }

  /** The characters of a group: one more than its bytes, six bits each. */
  function Group(b: seq<Byte>): (t: seq<Byte>)
    requires 1 <= |b| <= 3
    ensures |t| == |b| + 1
  {
    var w := Word(b);
    [Symbol(w / 64 / 64 / 64), Symbol(w / 64 / 64 % 64)]
    + (if |b| > 1 then [Symbol(w / 64 % 64)] else [])
    + (if |b| > 2 then [Symbol(w % 64)] else [])
  }

  function Encoded(b: seq<Byte>): (t: seq<Byte>)
    ensures |t| == EncodedLen(|b|)
  {
    if b == [] then []
    else if |b| <= 3 then Group(b)
    else Group(b[..3]) + Encoded(b[3..])
  }

  /** A group's value, its absent characters' bits zero; none where a character is not in the alphabet. */
  function GroupWord(t: seq<Byte>): (w: int)
    requires 2 <= |t| <= 4
    ensures -1 <= w < 0x100_0000
  {
    var a, b := Value(t[0]), Value(t[1]);
    var c := if |t| > 2 then Value(t[2]) else 0;
    var d := if |t| > 3 then Value(t[3]) else 0;
    if a < 0 || b < 0 || c < 0 || d < 0 then -1 else 64 * (64 * (64 * a + b) + c) + d
  }

  /** The bytes of a group: refused for a character not in the alphabet or a bit set past the last byte. */
  function Ungroup(t: seq<Byte>): (r: Result<seq<Byte>>)
    requires 2 <= |t| <= 4
    ensures r.Ok? ==> |r.value| == |t| - 1
  {
    var w := GroupWord(t);
    if w < 0 || (|t| == 2 && w % 0x1_0000 != 0) || (|t| == 3 && w % 256 != 0) then Err(EBADMSG)
    else Ok([w / 256 / 256] + (if |t| > 2 then [w / 256 % 256] else []) + (if |t| > 3 then [w % 256] else []))
  }

  function Decoded(t: seq<Byte>): (r: Result<seq<Byte>>) {
    if t == [] then Ok([])
    else if |t| == 1 then Err(EBADMSG)
    else if |t| <= 4 then Ungroup(t)
    else
      match Ungroup(t[..4])
      case Err(e) => Err(e)
      case Ok(b) =>
        match Decoded(t[4..])
        case Err(e) => Err(e)
        case Ok(rest) => Ok(b + rest)
  }

  // A group there and back

  lemma Split(hi: int, lo: int, n: int)
    requires 0 <= lo < n && 0 <= hi
    ensures (n * hi + lo) / n == hi && (n * hi + lo) % n == lo
  {
    Arith.DivUnique(n * hi + lo, hi, lo, n);
  }

  /** 24 bits as three bytes and as four sixes. */
  lemma Regroup(w: nat)
    requires w < 0x100_0000
    ensures w == 64 * (64 * (64 * (w / 64 / 64 / 64) + w / 64 / 64 % 64) + w / 64 % 64) + w % 64
    ensures w == 256 * (256 * (w / 256 / 256) + w / 256 % 256) + w % 256
    ensures w / 64 / 64 / 64 < 64 && w / 256 / 256 < 256
  {
  }

  lemma WordBytes(b: seq<Byte>)
    requires 1 <= |b| <= 3
    ensures Word(b) / 256 / 256 == b[0]
    ensures Word(b) / 256 % 256 == if |b| > 1 then b[1] else 0
    ensures Word(b) % 256 == if |b| > 2 then b[2] else 0
  {
    var (x: int, y: int, z: int) := (b[0], if |b| > 1 then b[1] else 0, if |b| > 2 then b[2] else 0);
    Split(256 * x + y, z, 256);
    Split(x, y, 256);
  }

  /** The bits of a short group's absent characters are zero. */
  lemma ShortWord(b: seq<Byte>)
    requires 1 <= |b| <= 3
    ensures |b| < 3 ==> Word(b) % 64 == 0
    ensures |b| < 2 ==> Word(b) / 64 % 64 == 0 && Word(b) % 0x1_0000 == 0
  {
  }

  lemma SymbolsBack(w: nat)
    requires w < 0x100_0000
    ensures w / 64 / 64 / 64 < 64 && Value(Symbol(w / 64 / 64 / 64)) == w / 64 / 64 / 64
    ensures Value(Symbol(w / 64 / 64 % 64)) == w / 64 / 64 % 64
    ensures Value(Symbol(w / 64 % 64)) == w / 64 % 64
    ensures Value(Symbol(w % 64)) == w % 64
  {
    Regroup(w);
    SymbolValue(w / 64 / 64 / 64);
    SymbolValue(w / 64 / 64 % 64);
    SymbolValue(w / 64 % 64);
    SymbolValue(w % 64);
  }

  lemma GroupBack(b: seq<Byte>)
    requires 1 <= |b| <= 3
    ensures Ungroup(Group(b)) == Ok(b)
  {
    hide Symbol, Value, Word;
    var w := Word(b);
    SymbolsBack(w);
    Regroup(w);
    ShortWord(b);
    assert GroupWord(Group(b)) == w;
    WordBytes(b);
    assert b == [b[0]] + (if |b| > 1 then [b[1]] else []) + (if |b| > 2 then [b[2]] else []);
  }

  lemma BackGroup(t: seq<Byte>)
    requires 2 <= |t| <= 4 && Ungroup(t).Ok?
    ensures Group(Ungroup(t).value) == t
  {
    hide Symbol, Value;
    var b, w := Ungroup(t).value, GroupWord(t);
    Regroup(w);
    UngroupedWord(t);
    var v0, v1 := Value(t[0]), Value(t[1]);
    var v2 := if |t| > 2 then Value(t[2]) else 0;
    var v3 := if |t| > 3 then Value(t[3]) else 0;
    Split(64 * (64 * v0 + v1) + v2, v3, 64);
    Split(64 * v0 + v1, v2, 64);
    Split(v0, v1, 64);
  }

  lemma UngroupedWord(t: seq<Byte>)
    requires 2 <= |t| <= 4 && Ungroup(t).Ok?
    ensures Word(Ungroup(t).value) == GroupWord(t)
  {
    hide Value, GroupWord;
    var w := GroupWord(t);
    Regroup(w);
    LowZero(w);
  }

  lemma LowZero(w: nat)
    ensures w % 0x1_0000 == 0 ==> w / 256 % 256 == 0 && w % 256 == 0
  {
  }

  // Whole strings

  /** What is encoded is decoded. */
  lemma {:induction false} DecodeEncoded(b: seq<Byte>)
    ensures Decoded(Encoded(b)) == Ok(b)
  {
    if b == [] {
    } else if |b| <= 3 {
      GroupBack(b);
    } else {
      var t := Encoded(b);
      GroupBack(b[..3]);
      DecodeEncoded(b[3..]);
      assert t[..4] == Group(b[..3]) && t[4..] == Encoded(b[3..]);
      assert b == b[..3] + b[3..];
    }
  }

  /** What is decoded is encoded as the same text: each byte string has one text. */
  lemma {:induction false} EncodeDecoded(t: seq<Byte>)
    requires Decoded(t).Ok?
    ensures Encoded(Decoded(t).value) == t
  {
    if t == [] {
    } else if |t| <= 4 {
      BackGroup(t);
    } else {
      var b, rest := Ungroup(t[..4]).value, Decoded(t[4..]).value;
      BackGroup(t[..4]);
      EncodeDecoded(t[4..]);
      assert rest == [] ==> Encoded(rest) == [];
      assert (b + rest)[..3] == b && (b + rest)[3..] == rest;
      assert t == t[..4] + t[4..];
    }
  }

  /** A text is accepted exactly where it is some byte string's. */
  lemma AcceptedIffEncoded(t: seq<Byte>)
    ensures Decoded(t).Ok? <==> exists b :: Encoded(b) == t
  {
    if Decoded(t).Ok? {
      EncodeDecoded(t);
    }
    if b :| Encoded(b) == t {
      DecodeEncoded(b);
    }
  }

  /** No encoding ends in a group of one character. */
  lemma {:induction false} LoneRefused(t: seq<Byte>)
    requires |t| % 4 == 1
    ensures Decoded(t).Err?
  {
    hide Ungroup;
    if |t| > 4 {
      LoneRefused(t[4..]);
    }
  }

  // As it runs

  /** The characters of one group written at `at`. */
  method PutGroup(w: nat, n: nat, out: array<Byte>, at: nat, ghost b: seq<Byte>) returns (next: nat)
    requires 1 <= n == |b| <= 3 && w == Word(b) && at + n + 1 <= out.Length
    modifies out
    ensures next == at + n + 1 && out[..at] == old(out[..at]) && out[next..] == old(out[next..])
    ensures out[at..next] == Group(b)
  {
    hide Symbol, Word, Group;
    out[at] := Symbol(w / 64 / 64 / 64);
    out[at + 1] := Symbol(w / 64 / 64 % 64);
    if n > 1 {
      out[at + 2] := Symbol(w / 64 % 64);
    }
    if n > 2 {
      out[at + 3] := Symbol(w % 64);
    }
    next := at + n + 1;
    GroupPut(b, out[at..next]);
  }

  lemma GroupPut(b: seq<Byte>, t: seq<Byte>)
    requires 1 <= |b| <= 3 && |t| == |b| + 1
    requires t[0] == Symbol(Word(b) / 64 / 64 / 64) && t[1] == Symbol(Word(b) / 64 / 64 % 64)
    requires (|b| > 1 ==> t[2] == Symbol(Word(b) / 64 % 64)) && (|b| > 2 ==> t[3] == Symbol(Word(b) % 64))
    ensures t == Group(b)
  {
  }

  method Encode(input: seq<Byte>, out: array<Byte>) returns (at: nat)
    requires out.Length >= EncodedLen(|input|)
    modifies out
    ensures at == EncodedLen(|input|) && out[..at] == Encoded(input) && out[at..] == old(out[at..])
  {
    hide Encoded, Group, Symbol, Word, EncodedLen, Value, GroupWord, Ungroup, Decoded;
    at := 0;
    var i := 0;
    assert input[0..] == input && out[..0] == [];
    EncodedNone();
    while i + 3 <= |input|
      invariant i <= |input| && i % 3 == 0 && at == i / 3 * 4 <= EncodedLen(|input|)
      invariant out[..at] + Encoded(input[i..]) == Encoded(input)
      invariant out[at..] == old(out[at..])
    {
      var w: nat := 256 * (256 * (input[i] as int) + input[i + 1]) + input[i + 2];
      GroupAt(input, i, 3);
      LenAt(|input|, i, 3);
      ghost var was, b, rest := out[..at], input[i..i + 3], Encoded(input[i + 3..]);
      WordOf(b);
      ghost var from := at;
      at := PutGroup(w, 3, out, at, b);
      Spliced(was, out[from..at], out[..at], rest);
      i := i + 3;
    }
    var rest := |input| - i;
    if rest > 0 {
      var w: nat := 256 * (256 * (input[i] as int) + if rest == 2 then input[i + 1] else 0);
      GroupAt(input, i, rest);
      LenAt(|input|, i, rest);
      ghost var was, b := out[..at], input[i..i + rest];
      WordOf(b);
      ghost var from := at;
      at := PutGroup(w, rest, out, at, b);
      Spliced(was, out[from..at], out[..at], []);
      assert out[..at] + [] == out[..at];
    } else {
      assert input[i..] == [] && out[..at] + [] == out[..at];
    }
  }

  lemma EncodedNone()
    ensures Encoded([]) == []
  {
  }

  lemma WordOf(b: seq<Byte>)
    requires 1 <= |b| <= 3
    ensures Word(b) == 256 * (256 * (b[0] as int) + if |b| > 1 then b[1] else 0) + if |b| > 2 then b[2] else 0
  {
  }

  lemma LenAt(len: nat, i: nat, n: nat)
    requires i % 3 == 0 && i + n <= len && 1 <= n <= 3 && (n == 3 || i + n == len)
    ensures i / 3 * 4 + n + 1 <= EncodedLen(len)
    ensures n == 3 ==> i / 3 * 4 + 4 == (i + 3) / 3 * 4
    ensures i + n == len ==> i / 3 * 4 + n + 1 == EncodedLen(len)
  {
  }

  lemma Spliced(was: seq<Byte>, t: seq<Byte>, now: seq<Byte>, rest: seq<Byte>)
    requires |now| == |was| + |t| && now[..|was|] == was && now[|was|..] == t
    ensures was + (t + rest) == now + rest
  {
  }

  lemma GroupAt(b: seq<Byte>, i: nat, n: nat)
    requires i + n <= |b| && 1 <= n <= 3 && (n == 3 || i + n == |b|)
    ensures Encoded(b[i..]) == Group(b[i..i + n]) + Encoded(b[i + n..])
    ensures b[i..i + n][0] == b[i] && (n > 1 ==> b[i..i + n][1] == b[i + 1]) && (n > 2 ==> b[i..i + n][2] == b[i + 2])
  {
    if |b| - i > 3 {
      assert b[i..][..3] == b[i..i + 3] && b[i..][3..] == b[i + 3..];
    } else {
      assert b[i + n..] == [] && b[i..] == b[i..i + n];
    }
  }

  function DecodedLen(chars: nat): nat {
    chars / 4 * 3 + if chars % 4 == 0 then 0 else chars % 4 - 1
  }

  function From(t: seq<Byte>, i: nat): seq<Byte> {
    if i < |t| then t[i..] else []
  }

  function Prefixed(b: seq<Byte>, r: Result<seq<Byte>>): Result<seq<Byte>> {
    match r
    case Err(e) => Err(e)
    case Ok(rest) => Ok(b + rest)
  }

  /** The first `k` of a group's four sixes, absent ones zero; none where one is not in the alphabet. */
  function Sixes(t: seq<Byte>, k: nat): (w: int)
    requires k <= 4
    ensures -1 <= w
  {
    if k == 0 then 0
    else
      var v := if k - 1 < |t| then Value(t[k - 1]) else 0;
      if Sixes(t, k - 1) < 0 || v < 0 then -1 else 64 * Sixes(t, k - 1) + v
  }

  lemma SixesGroup(t: seq<Byte>)
    requires 2 <= |t| <= 4
    ensures Sixes(t, 4) == GroupWord(t)
    ensures forall k :: 0 <= k <= 4 && Sixes(t, k) < 0 ==> GroupWord(t) == -1
  {
    assert Sixes(t, 0) == 0;
    assert Sixes(t, 1) == Value(t[0]);
    assert Sixes(t, 2) < 0 <==> Value(t[0]) < 0 || Value(t[1]) < 0;
    assert Sixes(t, 3) < 0 ==> Sixes(t, 4) < 0;
  }

  lemma DecodedError(t: seq<Byte>)
    ensures Decoded(t).Err? ==> Decoded(t).errno == EBADMSG
  {
  }

  /** The next group, and what comes of it. */
  lemma UngroupAt(t: seq<Byte>, i: nat, n: nat)
    requires i < |t| && i % 4 == 0 && |t| % 4 != 1 && n == (if |t| - i < 4 then |t| - i else 4)
    ensures 2 <= n <= 4 && i + n <= |t|
    ensures var g := Ungroup(t[i..i + n]);
            Decoded(From(t, i)) == if g.Err? then Err(EBADMSG) else Prefixed(g.value, Decoded(From(t, i + 4)))
  {
    var g := Ungroup(t[i..i + n]);
    DecodedError(t[i..]);
    if |t| - i > 4 {
      assert t[i..][..4] == t[i..i + 4] && t[i..][4..] == t[i + 4..];
    } else {
      assert t[i..i + n] == t[i..];
      assert g.Ok? ==> g.value + [] == g.value;
    }
  }

  method ReadGroup(t: seq<Byte>) returns (w: int)
    requires 2 <= |t| <= 4
    ensures w == GroupWord(t)
  {
    hide Value, GroupWord;
    SixesGroup(t);
    var k := 0;
    w := 0;
    while k < 4
      invariant k <= 4 && w == Sixes(t, k) && 0 <= w
    {
      var v := if k < |t| then Value(t[k]) else 0;
      SixesNext(t, k);
      if v < 0 {
        return -1;
      }
      w := 64 * w + v;
      k := k + 1;
    }
  }

  method PutBytes(w: nat, n: nat, out: array<Byte>, at: nat) returns (next: nat)
    requires w < 0x100_0000 && 2 <= n <= 4 && at + n - 1 <= out.Length
    modifies out
    ensures next == at + n - 1 && out[..at] == old(out[..at])
    ensures forall k :: next <= k < out.Length ==> out[k] == old(out[k])
    ensures out[at..next] == [w / 256 / 256] + (if n > 2 then [w / 256 % 256] else []) + (if n > 3 then [w % 256] else [])
  {
    Regroup(w);
    out[at] := w / 256 / 256;
    if n > 2 {
      out[at + 1] := w / 256 % 256;
    }
    if n > 3 {
      out[at + 2] := w % 256;
    }
    next := at + n - 1;
  }

  lemma SplicedIf(was: seq<Byte>, t: seq<Byte>, now: seq<Byte>, rest: Result<seq<Byte>>)
    requires |now| == |was| + |t| && now[..|was|] == was && now[|was|..] == t
    ensures Prefixed(was, Prefixed(t, rest)) == Prefixed(now, rest)
  {
    assert rest.Ok? ==> was + (t + rest.value) == now + rest.value;
  }

  lemma GroupWordBound(t: seq<Byte>)
    requires 2 <= |t| <= 4
    ensures GroupWord(t) < 0x100_0000
  {
  }

  /** Decodes into `out`; refused in full, whatever of it has been written, where any part of it is. */
  method Decode(input: seq<Byte>, out: array<Byte>) returns (r: Result<nat>)
    requires |input| % 4 != 1 ==> out.Length >= DecodedLen(|input|)
    modifies out
    ensures r.Ok? <==> Decoded(input).Ok?
    ensures r.Ok? ==> r.value <= out.Length && Decoded(input) == Ok(out[..r.value]) && out[r.value..] == old(out[r.value..])
    ensures r.Err? ==> r.errno == EBADMSG
  {
    hide Decoded, Ungroup, GroupWord;
    if |input| % 4 == 1 {
      LoneRefused(input);
      return Err(EBADMSG);
    }
    var at, i := 0, 0;
    assert From(input, 0) == input && out[..0] == [];
    DecodedNone();
    assert Decoded(input).Ok? ==> [] + Decoded(input).value == Decoded(input).value;
    while i < |input|
      invariant i % 4 == 0 && i < |input| + 4 && at <= out.Length
      invariant at == if i <= |input| then i / 4 * 3 else DecodedLen(|input|)
      invariant Decoded(input) == Prefixed(out[..at], Decoded(From(input, i)))
      invariant forall k :: at <= k < out.Length ==> out[k] == old(out[k])
    {
      var n := if |input| - i < 4 then |input| - i else 4;
      ghost var t := input[i..i + n];
      UngroupAt(input, i, n);
      UngroupFacts(t);
      var w := ReadGroup(input[i..i + n]);
      if w < 0 || (n == 2 && w % 0x1_0000 != 0) || (n == 3 && w % 256 != 0) {
        return Err(EBADMSG);
      }
      ghost var was, from := out[..at], at;
      RoomFor(|input|, i, n);
      GroupWordBound(t);
      at := PutBytes(w, n, out, at);
      assert out[from..at] == Ungroup(t).value;
      SplicedIf(was, out[from..at], out[..at], Decoded(From(input, i + 4)));
      i := i + 4;
    }
    assert out[..at] + [] == out[..at];
    return Ok(at);
  }

  lemma DecodedNone()
    ensures Decoded([]) == Ok([])
  {
  }

  lemma SixesNext(t: seq<Byte>, k: nat)
    requires k < 4 && Sixes(t, k) >= 0
    ensures var v := if k < |t| then Value(t[k]) else 0;
            Sixes(t, k + 1) == if v < 0 then -1 else 64 * Sixes(t, k) + v
  {
  }

  lemma UngroupFacts(t: seq<Byte>)
    requires 2 <= |t| <= 4
    ensures var w := GroupWord(t);
            if w < 0 || (|t| == 2 && w % 0x1_0000 != 0) || (|t| == 3 && w % 256 != 0) then Ungroup(t) == Err(EBADMSG)
            else Ungroup(t) == Ok([w / 256 / 256] + (if |t| > 2 then [w / 256 % 256] else []) + (if |t| > 3 then [w % 256] else []))
  {
  }

  lemma RoomFor(len: nat, i: nat, n: nat)
    requires i < len && i % 4 == 0 && n == (if len - i < 4 then len - i else 4) && n >= 2
    ensures i / 4 * 3 + n - 1 <= DecodedLen(len)
    ensures i / 4 * 3 + n - 1 == if i + 4 <= len then (i + 4) / 4 * 3 else DecodedLen(len)
  {
  }

  /** "f", "fo", "foo" and "foobar" as section 10 of RFC 4648 has them, without the padding: "Zg", "Zm8", "Zm9v",
      "Zm9vYmFy". */
  lemma Vectors()
    ensures Encoded([0x66]) == [0x5a, 0x67] && Encoded([0x66, 0x6f]) == [0x5a, 0x6d, 0x38]
    ensures Encoded([0x66, 0x6f, 0x6f]) == [0x5a, 0x6d, 0x39, 0x76]
    ensures Encoded([0x66, 0x6f, 0x6f, 0x62, 0x61, 0x72]) == [0x5a, 0x6d, 0x39, 0x76, 0x59, 0x6d, 0x46, 0x79]
  {
    hide Group;
    var b: seq<Byte> := [0x66, 0x6f, 0x6f, 0x62, 0x61, 0x72];
    assert b[..3] == [0x66, 0x6f, 0x6f] && b[3..] == [0x62, 0x61, 0x72];
    Groups();
  }

  lemma Groups()
    ensures Group([0x66]) == [0x5a, 0x67] && Group([0x66, 0x6f]) == [0x5a, 0x6d, 0x38]
    ensures Group([0x66, 0x6f, 0x6f]) == [0x5a, 0x6d, 0x39, 0x76] && Group([0x62, 0x61, 0x72]) == [0x59, 0x6d, 0x46, 0x79]
  {
    hide Word;
    GroupWords();
  }

  lemma GroupWords()
    ensures Word([0x66]) == 0x66_0000 && Word([0x66, 0x6f]) == 0x66_6f00
    ensures Word([0x66, 0x6f, 0x6f]) == 0x66_6f6f && Word([0x62, 0x61, 0x72]) == 0x62_6172
  {
  }
}
