/** A string's characters taken off its bytes one at a time, whatever those bytes are: how far each step goes, and when
    it goes past the end. */
module JsonSteps {
  import opened Bytes
  import opened JsonText
  import opened Prelude
  import U = Utf8

  function HexVal(b: Byte): (v: nat)
    requires Hex(b)
    ensures v < 16
  {
    if b <= 0x39 then b - 0x30 else if b >= 0x61 then b - 0x61 + 10 else b - 0x41 + 10
  }

  function Hex4Val(s: seq<Byte>, at: nat): (v: nat)
    requires Hex4(s, at)
    ensures v < 0x1_0000
  {
    ((HexVal(s[at]) * 16 + HexVal(s[at + 1])) * 16 + HexVal(s[at + 2])) * 16 + HexVal(s[at + 3])
  }

  function Unescaped(c: nat): nat {
    if c == 0x62 then 8
    else if c == 0x66 then 12
    else if c == 0x6e then 10
    else if c == 0x72 then 13
    else if c == 0x74 then 9
    else c
  }

  predicate High(u: nat) {
    0xd800 <= u < 0xdc00
  }

  predicate Low(u: nat) {
    0xdc00 <= u < 0xe000
  }

  function PairVal(hi: nat, lo: nat): (c: nat)
    requires High(hi) && Low(lo)
    ensures 0x1_0000 <= c && U.Scalar(c)
  {
    0x1_0000 + (hi - 0xd800) * 0x400 + (lo - 0xdc00)
  }

  /** A surrogate alone is U+FFFD. */
  function Alone(u: nat): (c: nat)
    requires u < 0x1_0000
    ensures U.Scalar(c)
  {
    if High(u) || Low(u) then 0xfffd else u
  }

  /** How many bytes a character's first says it has. */
  function LeadLen(b: Byte): (n: nat)
    ensures 1 <= n <= 4
  {
    if b < 0x80 then 1 else if b < 0xe0 then 2 else if b < 0xf0 then 3 else 4
  }

  /** The bits of the first `k` bytes of a character of `len`. */
  function Bits(s: seq<Byte>, len: nat, k: nat): (v: nat)
    requires 1 <= k <= |s| && 1 <= len <= 4
    ensures k == 1 ==> v < if len == 1 then 0x100 else if len == 2 then 0x20 else if len == 3 then 0x10 else 8
  {
    if k > 1 then Bits(s, len, k - 1) * 0x40 + s[k - 1] % 0x40
    else if len == 1 then s[0]
    else if len == 2 then s[0] % 0x20
    else if len == 3 then s[0] % 0x10
    else s[0] % 8
  }

  lemma BitsSmall(s: seq<Byte>, len: nat, k: nat)
    requires 1 <= k <= |s| && k <= len <= 4
    ensures Bits(s, len, k) < 0x20_0000
  {
    if k == 4 {
      assert Bits(s, len, 2) < 0x200;
      assert Bits(s, len, 3) < 0x8000;
    } else if k == 3 {
      assert Bits(s, len, 2) < 0x400;
    }
  }

  /** The character at the front and the bytes its first byte says it has: it may say more than there are. */
  function FrontRaw(s: seq<Byte>): (r: (nat, nat))
    requires s != []
    ensures r.0 < 0x20_0000 && r.1 == LeadLen(s[0])
  {
    var len := LeadLen(s[0]);
    BitsSmall(s, len, Min(len, |s|));
    (Bits(s, len, Min(len, |s|)), len)
  }

  /** What the escape \u gives whose digits are at `at`, and where it ends; none where they are not four. */
  function UnicodeRaw(raw: seq<Byte>, at: nat): (r: Option<(nat, nat)>)
    ensures r.Some? ==> r.value.0 < 0x20_0000 && at < r.value.1 <= |raw|
  {
    if !Hex4(raw, at) then None
    else if Paired(raw, at) then Some((PairVal(Hex4Val(raw, at), Hex4Val(raw, at + 6)), at + 10))
    else Some((Alone(Hex4Val(raw, at)), at + 4))
  }

  /** Two escapes that are one character between them. */
  predicate Paired(raw: seq<Byte>, at: nat)
    requires Hex4(raw, at)
  {
    && High(Hex4Val(raw, at)) && at + 6 <= |raw| && raw[at + 4] == 0x5c && raw[at + 5] == 0x75
    && Hex4(raw, at + 6) && Low(Hex4Val(raw, at + 6))
  }

  /** The character that a step takes and where it leaves off; none where an escape is cut short. */
  function NextRaw(raw: seq<Byte>): (r: Option<(nat, nat)>)
    requires raw != []
    ensures r.Some? ==> r.value.0 < 0x20_0000 && r.value.1 >= 1
  {
    var (c, len) := FrontRaw(raw);
    if c != 0x5c then Some((c, len))
    else if len >= |raw| then None
    else
      var (e, m) := FrontRaw(raw[len..]);
      if e == 0x75 then UnicodeRaw(raw, len + m) else Some((Unescaped(e), len + m))
  }

  /** The step leaves off past the end. */
  predicate Past(raw: seq<Byte>)
    requires raw != []
  {
    NextRaw(raw).Some? && NextRaw(raw).value.1 > |raw|
  }

  /** A step goes past the end exactly where a first byte, the one at the front or the one after what reads as a
      backslash there, says its character has more bytes than are left. */
  lemma PastIff(raw: seq<Byte>)
    requires raw != []
    ensures var (c, len) := FrontRaw(raw);
            Past(raw) <==> if c != 0x5c then LeadLen(raw[0]) > |raw|
                           else len < |raw| && FrontRaw(raw[len..]).0 != 0x75 && LeadLen(raw[len]) > |raw| - len
  {
    hide Bits, UnicodeRaw;
  }

  /** No step goes past the end. */
  predicate Inside(raw: seq<Byte>)
    decreases |raw|
  {
    raw == [] || (!Past(raw) && (NextRaw(raw).None? || Inside(raw[NextRaw(raw).value.1..])))
  }

  /** The first byte that says where a step leaves off: the one at the front, or the one after what reads as a backslash
      there; none where four digits say it, or where the escape is cut short. */
  function Lead(raw: seq<Byte>): (k: Option<nat>)
    requires raw != []
    ensures k.Some? ==> k.value < |raw|
  {
    var (c, len) := FrontRaw(raw);
    if c != 0x5c then Some(0)
    else if len < |raw| && FrontRaw(raw[len..]).0 != 0x75 then Some(len)
    else None
  }

  /** Those the decoder meets from `at`, step after step. */
  function Leads(raw: seq<Byte>, at: nat): (ks: seq<nat>)
    requires at <= |raw|
    ensures forall k :: k in ks ==> k < |raw|
    decreases |raw| - at
  {
    if at == |raw| then []
    else
      var rest := raw[at..];
      LeadAt(raw, at) + if NextRaw(rest).None? || Past(rest) then [] else Leads(raw, at + NextRaw(rest).value.1)
  }

  function LeadAt(raw: seq<Byte>, at: nat): (ks: seq<nat>)
    requires at < |raw|
    ensures forall k :: k in ks ==> k < |raw|
  {
    if Lead(raw[at..]).Some? then [at + Lead(raw[at..]).value] else []
  }

  /** Each of the first bytes at `ks` has as many bytes from it on as it says. */
  predicate Fit(raw: seq<Byte>, ks: seq<nat>) {
    forall k :: k in ks ==> k < |raw| && k + LeadLen(raw[k]) <= |raw|
  }

  /** No step of a whole string goes past its end exactly where none of the first bytes the decoder meets says that its
      character has more bytes than are left. */
  lemma {:induction false} InsideIff(raw: seq<Byte>, at: nat)
    requires at <= |raw|
    ensures Inside(raw[at..]) <==> Fit(raw, Leads(raw, at))
    decreases |raw| - at
  {
    hide NextRaw, Past, Lead, LeadAt, Fit;
    var rest := raw[at..];
    FitJoined(raw, [], []);
    if at < |raw| {
      LeadFits(raw, at);
      if NextRaw(rest).Some? && !Past(rest) {
        var n := NextRaw(rest).value.1;
        NotPast(rest);
        InsideIff(raw, at + n);
        FitJoined(raw, LeadAt(raw, at), Leads(raw, at + n));
        assert rest[n..] == raw[at + n..];
      } else {
        assert LeadAt(raw, at) + [] == LeadAt(raw, at);
      }
    }
  }

  lemma FitJoined(raw: seq<Byte>, a: seq<nat>, b: seq<nat>)
    ensures Fit(raw, a + b) <==> Fit(raw, a) && Fit(raw, b)
    ensures Fit(raw, [])
  {
    assert forall k :: k in a + b <==> k in a || k in b;
  }

  lemma LeadFits(raw: seq<Byte>, at: nat)
    requires at < |raw|
    ensures Fit(raw, LeadAt(raw, at)) <==> !Past(raw[at..])
  {
    hide Lead, Past, LeadLen;
    var rest := raw[at..];
    LeadIff(rest);
    if Lead(rest).Some? {
      var k := at + Lead(rest).value;
      assert rest[Lead(rest).value] == raw[k];
      assert forall j :: j in [k] <==> j == k;
    }
  }

  lemma NotPast(raw: seq<Byte>)
    requires raw != [] && !Past(raw) && NextRaw(raw).Some?
    ensures NextRaw(raw).value.1 <= |raw|
  {
  }

  lemma LeadIff(raw: seq<Byte>)
    requires raw != []
    ensures Past(raw) <==> Lead(raw).Some? && Lead(raw).value + LeadLen(raw[Lead(raw).value]) > |raw|
  {
    hide Bits, UnicodeRaw, NextRaw, Past;
    PastIff(raw);
  }

  /** A string of the byte F0 alone is accepted, and its first step goes past its end. */
  lemma AcceptedAndPast()
    ensures StringOk([0xf0]) && NodeOk(Str([0xf0])) && Past([0xf0])
  {
    assert FrontRaw([0xf0]) == (0, 4);
  }

  // As it runs

  method Utf8Next(s: seq<Byte>, at: nat) returns (c: nat, end: nat)
    requires at < |s|
    ensures (c, end - at) == FrontRaw(s[at..]) && end > at
  {
    ghost var t := s[at..];
    var b := s[at];
    var len := LeadLen(b);
    c := if len == 1 then b else if len == 2 then b % 0x20 else if len == 3 then b % 0x10 else b % 8;
    var i := 1;
    while i < len && at + i < |s|
      invariant 1 <= i <= len && at + i <= |s| && c == Bits(t, len, i)
    {
      assert s[at + i] == t[i];
      c := c * 0x40 + s[at + i] % 0x40;
      i := i + 1;
    }
    end := at + len;
  }

  method Hex4At(s: seq<Byte>, at: nat) returns (r: Option<nat>)
    ensures r == if Hex4(s, at) then Some(Hex4Val(s, at)) else None
    ensures r.Some? ==> at + 4 <= |s|
  {
    if at + 4 > |s| {
      return None;
    }
    var v: nat := 0;
    var i := at;
    while i < at + 4
      invariant at <= i <= at + 4 && forall k :: at <= k < i ==> Hex(s[k])
      invariant i == at ==> v == 0
      invariant i == at + 1 ==> v == HexVal(s[at])
      invariant i == at + 2 ==> v == HexVal(s[at]) * 16 + HexVal(s[at + 1])
      invariant i == at + 3 ==> v == (HexVal(s[at]) * 16 + HexVal(s[at + 1])) * 16 + HexVal(s[at + 2])
      invariant i == at + 4 ==> Hex4(s, at) && v == Hex4Val(s, at)
    {
      if !Hex(s[i]) {
        return None;
      }
      v := v * 16 + HexVal(s[i]);
      i := i + 1;
    }
    return Some(v);
  }

  /** A string's characters, one at a time. */
  class JsonChars {
    var rest: seq<Byte>

    constructor (raw: seq<Byte>)
      ensures rest == raw
    {
      rest := raw;
    }

    method Next() returns (r: Option<nat>)
      requires rest != [] ==> !Past(rest)
      modifies this
      ensures old(rest) == [] ==> r.None? && rest == []
      ensures old(rest) != [] && NextRaw(old(rest)).None? ==> r.None? && rest == old(rest)
      ensures old(rest) != [] && NextRaw(old(rest)).Some? ==>
                r == Some(NextRaw(old(rest)).value.0) && rest == old(rest)[NextRaw(old(rest)).value.1..]
    {
      hide Hex4Val, Hex4, FrontRaw, Unescaped;
      if rest == [] {
        return None;
      }
      assert rest[0..] == rest;
      var c, at := Utf8Next(rest, 0);
      if c != 0x5c {
        rest := rest[at..];
        return Some(c);
      }
      if at >= |rest| {
        return None;
      }
      var e, i := Utf8Next(rest, at);
      at := i;
      if e == 0x75 {
        var hi := Hex4At(rest, at);
        if hi.None? {
          return None;
        }
        at := at + 4;
        var unit := hi.value;
        if 0xd800 <= hi.value < 0xdc00 && at + 2 <= |rest| && rest[at] == 0x5c && rest[at + 1] == 0x75 {
          var lo := Hex4At(rest, at + 2);
          if lo.Some? && 0xdc00 <= lo.value < 0xe000 {
            unit := 0x1_0000 + (hi.value - 0xd800) * 0x400 + (lo.value - 0xdc00);
            at := at + 6;
          }
        }
        c := if 0xd800 <= unit < 0xe000 then 0xfffd else unit;
      } else {
        c := Unescaped(e);
      }
      rest := rest[at..];
      return Some(c);
    }
  }

  /** A number's bits in the bytes of a character, were it one or not. */
  function Pushed(c: nat): (s: seq<Byte>)
    requires c < 0x20_0000
    ensures U.Scalar(c) ==> s == U.Encode(c)
  {
    if c < 0x80 then [c]
    else if c < 0x800 then [0xc0 + c / 0x40, 0x80 + c % 0x40]
    else if c < 0x1_0000 then [0xe0 + c / 0x40 / 0x40, 0x80 + c / 0x40 % 0x40, 0x80 + c % 0x40]
    else [0xf0 + c / 0x40 / 0x40 / 0x40, 0x80 + c / 0x40 / 0x40 % 0x40, 0x80 + c / 0x40 % 0x40, 0x80 + c % 0x40]
  }

  /** What a string is decoded to, every step staying inside. */
  function Steps(raw: seq<Byte>): seq<Byte>
    requires Inside(raw)
    decreases |raw|
  {
    if raw == [] || NextRaw(raw).None? then []
    else Pushed(NextRaw(raw).value.0) + Steps(raw[NextRaw(raw).value.1..])
  }

  /** The characters' numbers, step after step. */
  function Codes(raw: seq<Byte>): seq<nat>
    requires Inside(raw)
    decreases |raw|
  {
    if raw == [] || NextRaw(raw).None? then []
    else [NextRaw(raw).value.0] + Codes(raw[NextRaw(raw).value.1..])
  }

  /** The characters of `s` from `at`, each taken as it stands, are these, and end where it does. */
  predicate Agrees(cs: seq<nat>, s: seq<Byte>, at: nat) {
    if cs == [] then at == |s|
    else at < |s| && FrontRaw(s[at..]).0 == cs[0] && Agrees(cs[1..], s, at + FrontRaw(s[at..]).1)
  }

  /** A string with no escape is compared by its bytes and none is decoded; any other must stay inside. */
  predicate Comparable(raw: seq<Byte>) {
    0x5c in raw ==> Inside(raw)
  }

  /** Whether a string says `s`: byte for byte where it holds no escape, else character by character. */
  predicate Says(raw: seq<Byte>, s: seq<Byte>)
    requires Comparable(raw)
  {
    if 0x5c in raw then Agrees(Codes(raw), s, 0) else raw == s
  }

  method DecodeInto(raw: seq<Byte>) returns (out: seq<Byte>)
    requires Inside(raw)
    ensures out == Steps(raw)
  {
    hide NextRaw, Pushed;
    out := [];
    var chars := new JsonChars(raw);
    while true
      invariant Inside(chars.rest) && out + Steps(chars.rest) == Steps(raw)
      decreases |chars.rest|
    {
      ghost var was, rest := out, chars.rest;
      var ch := chars.Next();
      if ch.None? {
        return;
      }
      out := out + Pushed(ch.value);
      assert out + Steps(chars.rest) == was + (Pushed(ch.value) + Steps(chars.rest));
    }
  }
}
