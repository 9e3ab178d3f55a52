/** JSON read where it lies: the check as it runs, a value as the text it has, and the walk over items and fields,
    which skips again what was checked once. */
module JsonReads {
  import opened Bytes
  import opened JsonText
  import opened JsonGrammar
  import opened JsonAccepts
  import opened JsonCovers
  import opened Prelude

  // The check, as it runs

  method SkipSpace(s: seq<Byte>, from: nat) returns (at: nat)
    ensures at == SkipWs(s, from)
  {
    at := from;
    while at < |s| && Ws(s[at])
      invariant SkipWs(s, at) == SkipWs(s, from)
    {
      at := at + 1;
    }
  }

  /** From a string's opening quote. */
  method SkipQuoted(s: seq<Byte>, from: nat) returns (r: Option<nat>)
    ensures r == SkipString(s, from + 1)
  {
    var at := from + 1;
    while true
      invariant SkipString(s, at) == SkipString(s, from + 1)
      decreases |s| - at
    {
      if at >= |s| {
        return None;
      }
      var b := s[at];
      if b == 0x22 {
        return Some(at + 1);
      }
      if b == 0x5c {
        if at + 1 >= |s| {
          return None;
        }
        if Short(s[at + 1]) {
          at := at + 2;
        } else if s[at + 1] == 0x75 {
          if !Hex4(s, at + 2) {
            return None;
          }
          at := at + 6;
        } else {
          return None;
        }
        continue;
      }
      if b < 0x20 {
        return None;
      }
      at := at + 1;
    }
  }

  method CountDigits(s: seq<Byte>, from: nat) returns (n: nat)
    ensures n == Digits(s, from)
  {
    var i := from;
    while i < |s| && Digit(s[i])
      invariant i >= from && i - from + Digits(s, i) == Digits(s, from)
    {
      i := i + 1;
    }
    n := i - from;
  }

  /** Where something found ends. */
  function End<T>(r: Option<(T, nat)>): Option<nat> {
    if r.Some? then Some(r.value.1) else None
  }

  method SkipNumber(s: seq<Byte>, from: nat) returns (r: Option<nat>)
    requires from < |s|
    ensures r == End(NumberAt(s, from))
  {
    hide Digits, FracAt, ExpAt;
    var at := from;
    if s[at] == 0x2d {
      at := at + 1;
    }
    var n := CountDigits(s, at);
    if n == 0 || (n > 1 && s[at] == 0x30) {
      return None;
    }
    r := SkipFrac(s, at + n);
    if r.Some? {
      r := SkipExp(s, r.value);
    }
  }

  method SkipFrac(s: seq<Byte>, from: nat) returns (r: Option<nat>)
    ensures r == End(FracAt(s, from))
  {
    hide Digits;
    if from < |s| && s[from] == 0x2e {
      var n := CountDigits(s, from + 1);
      if n == 0 {
        return None;
      }
      return Some(from + 1 + n);
    }
    return Some(from);
  }

  method SkipExp(s: seq<Byte>, from: nat) returns (r: Option<nat>)
    ensures r == End(ExpAt(s, from))
  {
    hide Digits;
    var at := from;
    if at < |s| && (s[at] == 0x65 || s[at] == 0x45) {
      at := at + 1;
      if at < |s| && (s[at] == 0x2b || s[at] == 0x2d) {
        at := at + 1;
      }
      var n := CountDigits(s, at);
      if n == 0 {
        return None;
      }
      at := at + n;
    }
    return Some(at);
  }

  /** One item more: what the loop over items does in a turn. */
  lemma ItemsTurn(s: seq<Byte>, from: nat, depth: nat)
    requires from <= |s|
    ensures End(ItemsAt(s, from, depth)) == match ValueAt(s, SkipWs(s, from), depth + 1)
              case None => None
              case Some((_, end)) =>
                var i := SkipWs(s, end);
                if ByteIs(s, i, 0x5d) then Some(i + 1) else if ByteIs(s, i, 0x2c) then End(ItemsAt(s, i + 1, depth)) else None
  {
    hide ValueAt, SkipWs;
  }

  lemma FieldTurn(s: seq<Byte>, from: nat, depth: nat)
    requires from <= |s|
    ensures End(FieldAt(s, from, depth)) == match KeyAt(s, from)
              case None => None
              case Some(colon) => End(ItemAt(s, colon + 1, depth))
  {
    hide ValueAt, SkipWs, SkipString, ItemAt;
  }

  lemma ItemTurn(s: seq<Byte>, from: nat, depth: nat)
    requires from <= |s|
    ensures End(ItemAt(s, from, depth)) == match ValueAt(s, SkipWs(s, from), depth + 1)
              case None => None
              case Some((_, end)) => Some(SkipWs(s, end))
  {
    hide ValueAt, SkipWs;
  }

  lemma FieldsTurn(s: seq<Byte>, from: nat, depth: nat)
    requires from <= |s|
    ensures End(FieldsAt(s, from, depth)) == match KeyAt(s, from)
              case None => None
              case Some(colon) =>
                match ValueAt(s, SkipWs(s, colon + 1), depth + 1)
                case None => None
                case Some((_, end)) =>
                  var i := SkipWs(s, end);
                  if ByteIs(s, i, 0x7d) then Some(i + 1) else if ByteIs(s, i, 0x2c) then End(FieldsAt(s, i + 1, depth)) else None
  {
    hide ValueAt, SkipWs, SkipString, FieldAt, ItemAt, KeyAt;
    FieldTurn(s, from, depth);
    if KeyAt(s, from).Some? {
      ItemTurn(s, KeyAt(s, from).value + 1, depth);
    }
  }

  /** The colon after a field's key. */
  function KeyAt(s: seq<Byte>, from: nat): (r: Option<nat>)
    ensures r.Some? ==> from < r.value < |s|
  {
    var i := SkipWs(s, from);
    if !ByteIs(s, i, 0x22) then None
    else
      match SkipString(s, i + 1)
      case None => None
      case Some(key) => if ByteIs(s, SkipWs(s, key), 0x3a) then Some(SkipWs(s, key)) else None
  }

  method SkipVal(s: seq<Byte>, at: nat, depth: nat) returns (r: Option<nat>)
    ensures r == End(ValueAt(s, at, depth))
    decreases |s| - at, 1
  {
    hide SkipWs, SkipString, NumberAt, ItemsAt, FieldsAt;
    if depth > MAX_DEPTH || at >= |s| {
      return None;
    }
    if s[at] == 0x6e {
      return End(WordAt(s, at, NULL));
    }
    if s[at] == 0x74 {
      return End(WordAt(s, at, TRUE));
    }
    if s[at] == 0x66 {
      return End(WordAt(s, at, FALSE));
    }
    if s[at] == 0x22 {
      r := SkipQuoted(s, at);
      return;
    }
    if s[at] == 0x5b {
      var i := SkipSpace(s, at + 1);
      if i < |s| && s[i] == 0x5d {
        return Some(i + 1);
      }
      r := SkipItems(s, at + 1, i, depth);
      return;
    }
    if s[at] == 0x7b {
      var i := SkipSpace(s, at + 1);
      if i < |s| && s[i] == 0x7d {
        return Some(i + 1);
      }
      r := SkipFields(s, at + 1, i, depth);
      return;
    }
    r := SkipNumber(s, at);
  }

  /** The turns over an array's items, from the first one's value at `first`. */
  method SkipItems(s: seq<Byte>, at: nat, first: nat, depth: nat) returns (r: Option<nat>)
    requires at <= |s| && first == SkipWs(s, at)
    ensures r == End(ItemsAt(s, at, depth))
    decreases |s| - at, 2
  {
    hide SkipWs, ItemsAt, ValueAt;
    var i := first;
    ghost var from := at;
    while true
      invariant at <= from <= |s| && i == SkipWs(s, from)
      invariant End(ItemsAt(s, from, depth)) == End(ItemsAt(s, at, depth))
      decreases |s| - from
    {
      ItemsTurn(s, from, depth);
      var end := SkipVal(s, i, depth + 1);
      if end.None? {
        return None;
      }
      i := SkipSpace(s, end.value);
      if i >= |s| {
        return None;
      }
      if s[i] == 0x2c {
        from := i + 1;
        i := SkipSpace(s, i + 1);
      } else if s[i] == 0x5d {
        return Some(i + 1);
      } else {
        return None;
      }
    }
  }

  method SkipFields(s: seq<Byte>, at: nat, first: nat, depth: nat) returns (r: Option<nat>)
    requires at <= |s| && first == SkipWs(s, at)
    ensures r == End(FieldsAt(s, at, depth))
    decreases |s| - at, 2
  {
    hide SkipWs, FieldsAt, ValueAt, SkipString;
    var i := first;
    ghost var from := at;
    while true
      invariant at <= from <= |s| && i == SkipWs(s, from)
      invariant End(FieldsAt(s, from, depth)) == End(FieldsAt(s, at, depth))
      decreases |s| - from
    {
      FieldsTurn(s, from, depth);
      if i >= |s| || s[i] != 0x22 {
        return None;
      }
      var key := SkipQuoted(s, i);
      if key.None? {
        return None;
      }
      i := SkipSpace(s, key.value);
      if i >= |s| || s[i] != 0x3a {
        return None;
      }
      var val := SkipSpace(s, i + 1);
      var end := SkipVal(s, val, depth + 1);
      if end.None? {
        return None;
      }
      i := SkipSpace(s, end.value);
      if i >= |s| {
        return None;
      }
      if s[i] == 0x2c {
        from := i + 1;
        i := SkipSpace(s, i + 1);
      } else if s[i] == 0x7d {
        return Some(i + 1);
      } else {
        return None;
      }
    }
  }

  // Values

  /** A value: the text it has, and nothing around it. */
  datatype JsonValue = JsonValue(text: seq<Byte>)

  /** `v` is tree `t`, whole. */
  ghost predicate Is(v: JsonValue, t: Node) {
    NodeOk(t) && Height(t) <= MAX_DEPTH && v.text == Text(t)
  }

  /** A value is one tree. */
  lemma IsFound(v: JsonValue, t: Node)
    requires Is(v, t)
    ensures ValueAt(v.text, 0, 0) == Some((t, |v.text|))
  {
    hide NodeOk, Text, Height, ValueAt;
    assert v.text[0..|v.text|] == v.text;
    ValueFound(v.text, 0, t, 0);
  }

  ghost predicate Good(v: JsonValue) {
    exists t :: Is(v, t)
  }

  ghost function Tree(v: JsonValue): (t: Node)
    requires Good(v)
    ensures Is(v, t)
  {
    var t :| Is(v, t); t
  }

  lemma TreeIs(v: JsonValue, t: Node)
    requires Is(v, t)
    ensures Good(v) && Tree(v) == t
  {
    IsFound(v, t);
    IsFound(v, Tree(v));
  }

  /** `text` is one tree with whitespace around it. */
  ghost predicate Holds(text: seq<Byte>, before: seq<Byte>, t: Node, after: seq<Byte>) {
    AllWs(before) && AllWs(after) && NodeOk(t) && Height(t) <= MAX_DEPTH && text == before + Text(t) + after
  }

  /** The check finds `t` from `i` up to `end`, and nothing else. */
  ghost predicate Checks(text: seq<Byte>, i: nat, end: nat, t: Node) {
    && i <= end <= |text| && SkipWs(text, 0) == i && ValueAt(text, i, 0) == Some((t, end)) && SkipWs(text, end) == |text|
  }

  lemma HeldFound(text: seq<Byte>, before: seq<Byte>, t: Node, after: seq<Byte>)
    requires Holds(text, before, t, after)
    ensures Checks(text, |before|, |before| + |Text(t)|, t) && text[|before|..|before| + |Text(t)|] == Text(t)
  {
    hide NodeOk, Text, Height, ValueAt, SkipWs, AllWs, Here;
    HoldsHere(text, before, t, after);
    var end := |before| + |Text(t)|;
    WsThen(text, 0, before, Text(t) + after) by {
      TextBegins(t);
      assert (Text(t) + after)[0] == Text(t)[0];
    }
    WsSkips(text, end, after);
    AfterWs(text, end, after);
    ValueFound(text, |before|, t, 0);
    SliceHere(text, |before|, Text(t));
  }

  lemma HoldsHere(text: seq<Byte>, before: seq<Byte>, t: Node, after: seq<Byte>)
    requires text == before + Text(t) + after
    ensures Here(text, 0, before + (Text(t) + after)) && Here(text, |before|, Text(t)) && Here(text, |before| + |Text(t)|, after)
  {
    hide Text;
    assert text[0..|text|] == before + (Text(t) + after);
    HerePart(text, 0, before, Text(t) + after);
    HerePart(text, |before|, Text(t), after);
  }

  lemma AfterWs(s: seq<Byte>, at: nat, ws: seq<Byte>)
    requires Here(s, at, ws) && AllWs(ws) && at + |ws| == |s|
    ensures NumEnds(s, at)
  {
    if ws != [] {
      FirstHere(s, at, ws);
    }
  }

  lemma FoundHolds(text: seq<Byte>, i: nat, end: nat, t: Node)
    requires Checks(text, i, end, t)
    ensures Holds(text, text[..i], t, text[end..]) && text[i..end] == Text(t)
  {
    hide NodeOk, Text, Height, ValueAt, SkipWs, AllWs;
    ValueStands(text, i, 0);
    WsSkipped(text, 0);
    WsSkipped(text, end);
    assert text[0..i] == text[..i] && text[end..|text|] == text[end..];
    assert text == text[..i] + text[i..end] + text[end..];
  }

  /** The check takes exactly one value to its depth with whitespace around it, and gives that value's text. */
  method ReadJson(text: seq<Byte>) returns (r: Option<JsonValue>)
    ensures r.Some? <==> exists before, t, after :: Holds(text, before, t, after)
    ensures r.Some? ==> Good(r.value) && forall before, t, after :: Holds(text, before, t, after) ==> Tree(r.value) == t
  {
    hide SkipWs, ValueAt, NodeOk, Text, Height, Tree, Is, Good, Holds;
    forall before, t, after | Holds(text, before, t, after)
      ensures Checks(text, |before|, |before| + |Text(t)|, t)
    {
      HeldFound(text, before, t, after);
    }
    var start := SkipSpace(text, 0);
    var end := SkipVal(text, start, 0);
    if end.None? {
      return None;
    }
    var rest := SkipSpace(text, end.value);
    if rest != |text| {
      return None;
    }
    ghost var t := ValueAt(text, start, 0).value.0;
    FoundHolds(text, start, end.value, t);
    HeldIs(text, start, end.value, t);
    return Some(JsonValue(text[start..end.value]));
  }

  lemma HeldIs(text: seq<Byte>, i: nat, end: nat, t: Node)
    requires Checks(text, i, end, t)
    ensures Good(JsonValue(text[i..end])) && Tree(JsonValue(text[i..end])) == t
  {
    hide SkipWs, ValueAt, NodeOk, Text, Height, Tree, AllWs;
    FoundHolds(text, i, end, t);
    TreeIs(JsonValue(text[i..end]), t);
  }
}
