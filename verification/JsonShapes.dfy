/** The grammar of section 6 of RFC 8259, and the punctuation of sections 4 and 5, in the characters they print: the trees'
    texts are in it. */
module JsonShapes {
  import opened Bytes
  import opened JsonText
  import opened Prelude

  function Ascii(s: string): (b: seq<Byte>)
    requires forall k :: 0 <= k < |s| ==> s[k] < 128 as char
    ensures |b| == |s| && forall k :: 0 <= k < |s| ==> b[k] == s[k] as int
  {
    seq(|s|, k requires 0 <= k < |s| => s[k] as int)
  }

  const DIGITS: string := "0123456789"

  predicate DigitsFrom(s: seq<Byte>, from: nat) {
    from < |s| && forall k :: from <= k < |s| ==> s[k] as char in DIGITS
  }

  predicate Minus(s: seq<Byte>) {
    s == [] || (|s| == 1 && s[0] as char == '-')
  }

  predicate Int(s: seq<Byte>) {
    DigitsFrom(s, 0) && (s[0] as char == '0' ==> |s| == 1)
  }

  predicate Frac(s: seq<Byte>) {
    s == [] || (s[0] as char == '.' && DigitsFrom(s, 1))
  }

  predicate Exp10(s: seq<Byte>) {
    s == [] || (s[0] as char in "eE" && (DigitsFrom(s, 1) || (|s| > 1 && s[1] as char in "+-" && DigitsFrom(s, 2))))
  }

  /** number = [ minus ] int [ frac ] [ exp ] */
  ghost predicate Number10(t: seq<Byte>) {
    exists m, i, f, e :: Minus(m) && Int(i) && Frac(f) && Exp10(e) && t == Joined(m, i, f, e)
  }

  function Joined(m: seq<Byte>, i: seq<Byte>, f: seq<Byte>, e: seq<Byte>): seq<Byte> {
    m + i + f + e
  }

  lemma DigitIs(b: Byte)
    ensures Digit(b) <==> b as char in DIGITS
  {
  }

  lemma DigitsAre(s: seq<Byte>, from: nat)
    requires from <= |s|
    ensures DigitsFrom(s, from) <==> s[from..] != [] && AllDigits(s[from..])
  {
    forall k | from <= k < |s|
      ensures Digit(s[k]) <==> s[k] as char in DIGITS
    {
      DigitIs(s[k]);
    }
    if AllDigits(s[from..]) {
      assert forall k :: from <= k < |s| ==> s[k] == s[from..][k - from];
    }
  }

  function FracOf(s: seq<Byte>): Option<seq<Byte>> {
    if s == [] then None else Some(s[1..])
  }

  lemma FracIs(s: seq<Byte>)
    ensures Frac(s) <==> FracOk(FracOf(s)) && FracText(FracOf(s)) == s
  {
    if s != [] {
      DigitsAre(s, 1);
      assert s == [s[0]] + s[1..];
    }
  }

  function ExpOf(s: seq<Byte>): Option<Exp> {
    if s == [] then None
    else if |s| > 1 && (s[1] == 0x2b || s[1] == 0x2d) then Some(Exp(s[0], Some(s[1]), s[2..]))
    else Some(Exp(s[0], None, s[1..]))
  }

  lemma ExpIs(s: seq<Byte>)
    ensures Exp10(s) <==> ExpOk(ExpOf(s)) && ExpText(ExpOf(s)) == s
  {
    hide DigitsFrom, AllDigits;
    if s != [] {
      DigitsAre(s, 1);
      assert s == [s[0]] + s[1..];
      if |s| > 1 {
        DigitsAre(s, 2);
        DigitIs(s[1]);
        assert s[1..] == [s[1]] + s[2..];
        if s[1] == 0x2b || s[1] == 0x2d {
          SignNoDigit(s);
        }
      }
    }
  }

  lemma SignNoDigit(s: seq<Byte>)
    requires |s| > 1 && s[1] as char in "+-"
    ensures !DigitsFrom(s, 1)
  {
  }

  /** Each part of a number's text gives the part back. */
  lemma PartsBack(n: Num)
    requires NumOk(n)
    ensures FracOf(FracText(n.frac)) == n.frac && ExpOf(ExpText(n.exp)) == n.exp
  {
    if n.exp.Some? {
      var t, e := ExpText(n.exp), n.exp.value;
      if e.sign.Some? {
        assert t[2..] == e.digits;
      } else {
        assert t[1..] == e.digits && t[1] == e.digits[0];
      }
    }
  }

  lemma WholeIs(s: seq<Byte>)
    ensures Int(s) <==> s != [] && AllDigits(s) && (|s| > 1 ==> s[0] != 0x30)
  {
    DigitsAre(s, 0);
    assert s[0..] == s;
  }

  /** The numbers of the grammar are the texts of the trees' numbers. */
  lemma NumberIff(t: seq<Byte>)
    ensures Number10(t) <==> exists n :: NumOk(n) && NumText(n) == t
  {
    hide Int, Frac, Exp10, AllDigits, FracOk, ExpOk, FracText, ExpText, FracOf, ExpOf;
    if m, i, f, e :| Minus(m) && Int(i) && Frac(f) && Exp10(e) && t == Joined(m, i, f, e) {
      WholeIs(i);
      FracIs(f);
      ExpIs(e);
      var n := Num(m != [], i, FracOf(f), ExpOf(e));
      assert NumOk(n) && NumText(n) == t;
    }
    if n :| NumOk(n) && NumText(n) == t {
      var m: seq<Byte> := if n.neg then [0x2d] else [];
      PartsBack(n);
      WholeIs(n.whole);
      FracIs(FracText(n.frac));
      ExpIs(ExpText(n.exp));
      assert Minus(m) && t == Joined(m, n.whole, FracText(n.frac), ExpText(n.exp));
    }
  }

  /** Parts with a comma between each two. */
  function Commas(parts: seq<seq<Byte>>): seq<Byte> {
    if parts == [] then [] else if |parts| == 1 then parts[0] else parts[0] + Ascii(",") + Commas(parts[1..])
  }

  function ItemTexts(items: seq<Item>): (ts: seq<seq<Byte>>)
    ensures |ts| == |items|
  {
    seq(|items|, k requires 0 <= k < |items| => ItemText(items[k]))
  }

  /** A name in quotation marks, a colon, a value, whitespace about each. */
  function NameAndValue(f: Field): seq<Byte> {
    f.before + Ascii("\"") + f.key + Ascii("\"") + f.afterKey + Ascii(":") + f.item.before + Text(f.item.val) + f.item.after
  }

  function FieldTexts(fields: seq<Field>): (ts: seq<seq<Byte>>)
    ensures |ts| == |fields|
  {
    seq(|fields|, k requires 0 <= k < |fields| => NameAndValue(fields[k]))
  }

  lemma {:induction false} ItemsJoined(items: seq<Item>)
    requires items != []
    ensures ItemsText(items) == Commas(ItemTexts(items)) + Ascii("]")
  {
    hide ItemText;
    if |items| > 1 {
      ItemsJoined(items[1..]);
      assert ItemTexts(items)[1..] == ItemTexts(items[1..]);
    }
  }

  lemma FieldIs(f: Field)
    ensures FieldText(f) == NameAndValue(f)
  {
    hide Text;
  }

  lemma {:induction false} FieldsJoined(fields: seq<Field>)
    requires fields != []
    ensures FieldsText(fields) == Commas(FieldTexts(fields)) + Ascii("}")
  {
    hide FieldText, NameAndValue;
    FieldIs(fields[0]);
    if |fields| > 1 {
      FieldsJoined(fields[1..]);
      assert FieldTexts(fields)[1..] == FieldTexts(fields[1..]);
    }
  }

  /** An array's text and an object's: their parts in brackets, commas between them. */
  lemma Bracketed(t: Node)
    requires NodeOk(t)
    ensures t.Arr? ==> Text(t) == Ascii("[") + (if t.items == [] then t.ws else Commas(ItemTexts(t.items))) + Ascii("]")
    ensures t.Obj? ==> Text(t) == Ascii("{") + (if t.fields == [] then t.ws else Commas(FieldTexts(t.fields))) + Ascii("}")
  {
    hide ItemsText, FieldsText, Commas, ItemTexts, FieldTexts;
    match t
    case Arr(_, items) =>
      if items != [] {
        ItemsJoined(items);
      }
    case Obj(_, fields) =>
      if fields != [] {
        FieldsJoined(fields);
      }
    case _ =>
  }

  /** The words, the whitespace, and how deep. */
  lemma Words()
    ensures NULL == Ascii("null") && TRUE == Ascii("true") && FALSE == Ascii("false")
    ensures forall b: Byte :: Ws(b) <==> b as char in " \t\n\r"
    ensures MAX_DEPTH == 128
  {
  }
}
