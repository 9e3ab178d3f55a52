/** Walking a checked value: its items, its fields and its strings, and the whole of what it says. */
module JsonWalks {
  import opened Bytes
  import opened JsonText
  import opened JsonGrammar
  import opened JsonAccepts
  import opened JsonCovers
  import opened JsonReads
  import opened JsonSteps
  import opened JsonStrings
  import opened Prelude
  import U = Utf8

  // Items and fields

  function ItemsOf(t: Node): seq<Item> {
    if t.Arr? then t.items else []
  }

  function FieldsOf(t: Node): seq<Field> {
    if t.Obj? then t.fields else []
  }

  /** What an iterator over items has yet to give: from `at`, these and the bracket that closes them, to the end. */
  ghost predicate ItemsLeft(s: seq<Byte>, at: nat, rest: seq<Item>) {
    if rest == [] then at <= |s| && (SkipWs(s, at) < |s| ==> s[SkipWs(s, at)] == 0x5d)
    else Here(s, at, ItemsText(rest)) && at + |ItemsText(rest)| == |s| && ItemsOk(rest) && ItemsHeight(rest) < MAX_DEPTH
  }

  ghost predicate FieldsLeft(s: seq<Byte>, at: nat, rest: seq<Field>) {
    if rest == [] then at <= |s| && !ByteIs(s, SkipWs(s, at), 0x22)
    else Here(s, at, FieldsText(rest)) && at + |FieldsText(rest)| == |s| && FieldsOk(rest) && FieldsHeight(rest) < MAX_DEPTH
  }

  /** An item where it stands: its value, found again without fail, and what follows it. */
  lemma ItemAgain(s: seq<Byte>, at: nat, i: Item)
    requires ItemOk(i) && Here(s, at, ItemText(i)) && Height(i.val) < MAX_DEPTH && Ends(s, at + |ItemText(i)|)
    ensures var from := at + |i.before|; var end := from + |Text(i.val)|;
            && SkipWs(s, at) == from < end <= |s| && ValueAt(s, from, 0) == Some((i.val, end)) && s[from..end] == Text(i.val)
            && SkipWs(s, end) == at + |ItemText(i)| && s[from] != 0x5d
  {
    hide SkipWs, Here, NumEnds, ValueAt, AllWs, NodeOk, Height, Ends;
    var from := at + |i.before|;
    var end := from + |Text(i.val)|;
    HerePart(s, at, i.before + Text(i.val), i.after);
    HerePart(s, at, i.before, Text(i.val));
    TextBegins(i.val);
    WsThen(s, at, i.before, Text(i.val));
    WsToEnd(s, end, i.after);
    ValueFound(s, from, i.val, 0);
    SliceHere(s, from, Text(i.val));
  }

  /** The first of the items left, and that the others are left after it. */
  lemma ItemsGoOn(s: seq<Byte>, at: nat, rest: seq<Item>)
    requires ItemsLeft(s, at, rest) && rest != []
    ensures var next := at + |ItemText(rest[0])|;
            && ItemOk(rest[0]) && Here(s, at, ItemText(rest[0])) && Height(rest[0].val) < MAX_DEPTH && Ends(s, next)
            && ItemsLeft(s, next + 1, rest[1..])
  {
    hide Here, ItemText, ItemOk, SkipWs;
    var i := rest[0];
    var next := at + |ItemText(i)|;
    if |rest| == 1 {
      HerePart(s, at, ItemText(i), [0x5d]);
      HereByte(s, next, 0x5d);
      NoWs(s);
    } else {
      HerePart(s, at, ItemText(i), [0x2c] + ItemsText(rest[1..]));
      LedHere(s, next, 0x2c, ItemsText(rest[1..]));
    }
  }

  lemma NoWs(s: seq<Byte>)
    ensures SkipWs(s, |s|) == |s|
  {
  }

  lemma FieldsGoOn(s: seq<Byte>, at: nat, rest: seq<Field>)
    requires FieldsLeft(s, at, rest) && rest != []
    ensures var next := at + |FieldText(rest[0])|;
            && FieldOk(rest[0]) && Here(s, at, FieldText(rest[0])) && Height(rest[0].item.val) < MAX_DEPTH && Ends(s, next)
            && FieldsLeft(s, next + 1, rest[1..])
  {
    hide Here, FieldText, FieldOk, SkipWs;
    var f := rest[0];
    var next := at + |FieldText(f)|;
    if |rest| == 1 {
      HerePart(s, at, FieldText(f), [0x7d]);
      HereByte(s, next, 0x7d);
      NoWs(s);
    } else {
      HerePart(s, at, FieldText(f), [0x2c] + FieldsText(rest[1..]));
      LedHere(s, next, 0x2c, FieldsText(rest[1..]));
    }
  }

  /** An item's value is a value of its own. */
  lemma ItemIs(i: Item)
    requires ItemOk(i) && Height(i.val) < MAX_DEPTH
    ensures Good(JsonValue(Text(i.val))) && Tree(JsonValue(Text(i.val))) == i.val
  {
    hide Text, Height, NodeOk, Tree, Good;
    TreeIs(JsonValue(Text(i.val)), i.val);
  }

  class JsonItems {
    const s: seq<Byte>
    var at: nat
    /** What is still to come. */
    ghost var rest: seq<Item>

    ghost predicate Valid()
      reads this
    {
      ItemsLeft(s, at, rest)
    }

    constructor (s: seq<Byte>, at: nat, ghost items: seq<Item>)
      requires ItemsLeft(s, at, items)
      ensures Valid() && rest == items
    {
      this.s := s;
      this.at := at;
      rest := items;
    }

    /** The next item, whole; the check over its text again does not fail. */
    method Next() returns (r: Option<JsonValue>)
      requires Valid()
      modifies this
      ensures Valid()
      ensures old(rest) == [] ==> r.None? && rest == []
      ensures old(rest) != [] ==> && rest == old(rest)[1..] && r == Some(JsonValue(Text(old(rest)[0].val)))
                                  && Good(r.value) && Tree(r.value) == old(rest)[0].val
    {
      hide SkipWs, ValueAt, Here, ItemOk, ItemText, ItemsText, ItemsOk, Text, Good, Tree, Height, ItemsHeight, Ends;
      var start := SkipSpace(s, at);
      ghost var was := rest;
      if was == [] {
        NoWs(s);
      } else {
        ItemsGoOn(s, at, was);
        ItemAgain(s, at, was[0]);
        ItemIs(was[0]);
        rest := was[1..];
      }
      if start >= |s| || s[start] == 0x5d {
        at := |s|;
        return None;
      }
      var end := SkipVal(s, start, 0);
      var next := SkipSpace(s, end.value);
      at := next + 1;
      return Some(JsonValue(s[start..end.value]));
    }
  }

  /** A field where it stands. */
  lemma FieldAgain(s: seq<Byte>, at: nat, f: Field)
    requires FieldOk(f) && Here(s, at, FieldText(f)) && Height(f.item.val) < MAX_DEPTH && Ends(s, at + |FieldText(f)|)
    ensures var i := at + |f.before|; var key := i + |f.key| + 2; var colon := key + |f.afterKey|;
            var from := colon + 1 + |f.item.before|; var end := from + |Text(f.item.val)|;
            && SkipWs(s, at) == i && ByteIs(s, i, 0x22) && SkipString(s, i + 1) == Some(key) && i + 2 <= key <= |s|
            && s[i + 1..key - 1] == f.key && SkipWs(s, key) == colon && SkipWs(s, colon + 1) == from < end <= |s|
            && ValueAt(s, from, 0) == Some((f.item.val, end)) && s[from..end] == Text(f.item.val)
            && SkipWs(s, end) == at + |FieldText(f)|
  {
    hide SkipWs, SkipString, Here, ItemText, ItemOk, AllWs, StringOk, Height, Ends, ValueAt, Text;
    KeyFound(s, at, f);
    ItemAgain(s, at + |f.before| + |f.key| + 2 + |f.afterKey| + 1, f.item);
  }

  class JsonFields {
    const s: seq<Byte>
    var at: nat
    ghost var rest: seq<Field>

    ghost predicate Valid()
      reads this
    {
      FieldsLeft(s, at, rest)
    }

    constructor (s: seq<Byte>, at: nat, ghost fields: seq<Field>)
      requires FieldsLeft(s, at, fields)
      ensures Valid() && rest == fields
    {
      this.s := s;
      this.at := at;
      rest := fields;
    }

    /** The next field: its key, escapes as written, and its value. */
    method Next() returns (r: Option<(seq<Byte>, JsonValue)>)
      requires Valid()
      modifies this
      ensures Valid()
      ensures old(rest) == [] ==> r.None? && rest == []
      ensures old(rest) != [] ==> && rest == old(rest)[1..]
                                  && r == Some((old(rest)[0].key, JsonValue(Text(old(rest)[0].item.val))))
                                  && Good(r.value.1) && Tree(r.value.1) == old(rest)[0].item.val
    {
      hide SkipWs, SkipString, ValueAt, Here, ItemOk, StringOk, AllWs, FieldText, FieldsText, FieldsOk, Text, Good, Tree, Height, FieldsHeight, Ends;
      var keyAt := SkipSpace(s, at);
      ghost var was := rest;
      if was == [] {
        NoWs(s);
      } else {
        FieldsGoOn(s, at, was);
        FieldAgain(s, at, was[0]);
        ItemIs(was[0].item);
        rest := was[1..];
      }
      if keyAt >= |s| || s[keyAt] != 0x22 {
        at := |s|;
        return None;
      }
      var keyEnd := SkipQuoted(s, keyAt);
      var colon := SkipSpace(s, keyEnd.value);
      var valAt := SkipSpace(s, colon + 1);
      var valEnd := SkipVal(s, valAt, 0);
      var next := SkipSpace(s, valEnd.value);
      at := next + 1;
      return Some((s[keyAt + 1..keyEnd.value - 1], JsonValue(s[valAt..valEnd.value])));
    }
  }

  // A value's kind and parts

  datatype JsonType = NullType | BooleanType | NumberType | StringType | ArrayType | ObjectType

  function KindOf(t: Node): JsonType {
    match t
    case Word(w) => if w == NULL then NullType else BooleanType
    case Number(_) => NumberType
    case Str(_) => StringType
    case Arr(_, _) => ArrayType
    case Obj(_, _) => ObjectType
  }

  /** A value's kind, by its first byte alone. */
  function TypeOf(v: JsonValue): (k: JsonType)
    requires v.text != []
  {
    var b := v.text[0];
    if b == 0x6e then NullType
    else if b == 0x74 || b == 0x66 then BooleanType
    else if b == 0x22 then StringType
    else if b == 0x5b then ArrayType
    else if b == 0x7b then ObjectType
    else NumberType
  }

  lemma TypeIsKind(v: JsonValue)
    requires Good(v)
    ensures v.text != [] && TypeOf(v) == KindOf(Tree(v))
  {
    hide Height, NumText, NumOk, ItemsText, FieldsText;
    var t := Tree(v);
    TextBegins(t);
    if t.Number? {
      NumBegins(t.n);
    }
  }

  function AsBool(v: JsonValue): Option<bool> {
    if v.text == TRUE then Some(true) else if v.text == FALSE then Some(false) else None
  }

  lemma BoolIsWord(v: JsonValue)
    requires Good(v)
    ensures AsBool(v) == if KindOf(Tree(v)) == BooleanType then Some(Tree(v).w == TRUE) else None
  {
    hide NumText, NumOk, Height, ItemsText, FieldsText;
    TypeIsKind(v);
  }

  /** A string's bytes between its quotes. */
  function AsStr(v: JsonValue): Option<seq<Byte>>
    requires v.text != []
  {
    if TypeOf(v) == StringType && |v.text| >= 2 then Some(v.text[1..|v.text| - 1]) else None
  }

  lemma StrIsRaw(v: JsonValue)
    requires Good(v)
    ensures v.text != [] && AsStr(v) == if Tree(v).Str? then Some(Tree(v).raw) else None
  {
    hide Height, NodeOk;
    TypeIsKind(v);
    if Tree(v).Str? {
      assert v.text == Quoted(Tree(v).raw);
    }
  }

  /** Nothing left at a text's end. */
  lemma NoneLeft(s: seq<Byte>)
    ensures ItemsLeft(s, |s|, []) && FieldsLeft(s, |s|, [])
  {
  }

  /** All of an array's items are left past its bracket, and all of an object's fields past its brace. */
  lemma AllLeft(v: JsonValue)
    requires Good(v)
    ensures Tree(v).Arr? ==> ItemsLeft(v.text, 1, ItemsOf(Tree(v)))
    ensures Tree(v).Obj? ==> FieldsLeft(v.text, 1, FieldsOf(Tree(v)))
  {
    hide SkipWs, ItemsText, FieldsText, ItemOk, FieldOk, ItemsHeight, FieldsHeight, AllWs, Here;
    var t := Tree(v);
    WholeHere(v.text);
    if t.Arr? {
      if t.items == [] {
        EmptyHere(v.text, 0, t.ws, 0x5b, 0x5d);
      } else {
        LedHere(v.text, 0, 0x5b, ItemsText(t.items));
      }
    }
    if t.Obj? {
      if t.fields == [] {
        EmptyHere(v.text, 0, t.ws, 0x7b, 0x7d);
      } else {
        LedHere(v.text, 0, 0x7b, FieldsText(t.fields));
      }
    }
  }

  lemma WholeHere(s: seq<Byte>)
    ensures Here(s, 0, s)
  {
  }

  method Items(v: JsonValue) returns (it: JsonItems)
    requires Good(v)
    ensures fresh(it) && it.Valid() && it.rest == ItemsOf(Tree(v))
  {
    hide Good, Tree, ItemsLeft;
    TypeIsKind(v);
    AllLeft(v);
    NoneLeft(v.text);
    it := new JsonItems(v.text, if TypeOf(v) == ArrayType then 1 else |v.text|, ItemsOf(Tree(v)));
  }

  method Fields(v: JsonValue) returns (it: JsonFields)
    requires Good(v)
    ensures fresh(it) && it.Valid() && it.rest == FieldsOf(Tree(v))
  {
    hide Good, Tree, FieldsLeft;
    TypeIsKind(v);
    AllLeft(v);
    NoneLeft(v.text);
    it := new JsonFields(v.text, if TypeOf(v) == ObjectType then 1 else |v.text|, FieldsOf(Tree(v)));
  }

  method At(v: JsonValue, idx: nat) returns (r: Option<JsonValue>)
    requires Good(v)
    ensures r == if idx < |ItemsOf(Tree(v))| then Some(JsonValue(Text(ItemsOf(Tree(v))[idx].val))) else None
  {
    hide Good, Tree, ItemsLeft, Text;
    var it := Items(v);
    ghost var all := it.rest;
    var i := 0;
    while true
      invariant i <= |all| && i <= idx && it.Valid() && it.rest == all[i..]
      decreases |it.rest|
    {
      var next := it.Next();
      if next.None? || i == idx {
        return next;
      }
      i := i + 1;
    }
  }

  // Strings that are UTF-8

  /** Every string and key of a tree is UTF-8. */
  ghost predicate Utf8Strings(t: Node)
    decreases t
  {
    match t
    case Word(_) => true
    case Number(_) => true
    case Str(raw) => U.Text(raw)
    case Arr(_, items) => forall k :: 0 <= k < |items| ==> Utf8Strings(items[k].val)
    case Obj(_, fields) => forall k :: 0 <= k < |fields| ==> U.Text(fields[k].key) && Utf8Strings(fields[k].item.val)
  }

  /** Every key can be compared with a name. */
  ghost predicate Keyed(fields: seq<Field>) {
    forall k :: 0 <= k < |fields| ==> Comparable(fields[k].key)
  }

  /** The last field whose key says `key`. */
  ghost predicate LastField(fields: seq<Field>, key: seq<Byte>, r: Option<JsonValue>)
    requires Keyed(fields)
  {
    match r
    case None => forall k :: 0 <= k < |fields| ==> !Says(fields[k].key, key)
    case Some(v) => exists k :: && 0 <= k < |fields| && Says(fields[k].key, key) && v.text == Text(fields[k].item.val)
                                && forall j :: k < j < |fields| ==> !Says(fields[j].key, key)
  }

  lemma LastOn(fields: seq<Field>, f: Field, key: seq<Byte>, r: Option<JsonValue>)
    requires Keyed(fields) && Comparable(f.key) && LastField(fields, key, r)
    ensures Keyed(fields + [f])
    ensures LastField(fields + [f], key, if Says(f.key, key) then Some(JsonValue(Text(f.item.val))) else r)
  {
    hide Says, Text, Comparable;
    var more := fields + [f];
    var v := JsonValue(Text(f.item.val));
    assert more[|fields|] == f;
    if !Says(f.key, key) && r.Some? {
      var k :| 0 <= k < |fields| && Says(fields[k].key, key) && r.value.text == Text(fields[k].item.val)
               && forall j :: k < j < |fields| ==> !Says(fields[j].key, key);
      assert more[k] == fields[k];
    }
  }

  method Get(v: JsonValue, key: seq<Byte>) returns (last: Option<JsonValue>)
    requires Good(v) && Keyed(FieldsOf(Tree(v)))
    ensures LastField(FieldsOf(Tree(v)), key, last)
  {
    hide Good, Tree, FieldsLeft, LastField, Text, Says, Comparable;
    last := None;
    var f := Fields(v);
    ghost var all := f.rest;
    ghost var n := 0;
    NoFieldYet(all, key);
    while true
      invariant n <= |all| && f.Valid() && f.rest == all[n..] && Keyed(all[..n]) && LastField(all[..n], key, last)
      decreases |f.rest|
    {
      var field := f.Next();
      if field.None? {
        assert all[..n] == all;
        return;
      }
      LastOn(all[..n], all[n], key, last);
      assert all[..n + 1] == all[..n] + [all[n]];
      n := n + 1;
      var same := EqStr(field.value.0, key);
      if same {
        last := Some(field.value.1);
      }
    }
  }

  lemma NoFieldYet(all: seq<Field>, key: seq<Byte>)
    ensures Keyed(all[..0]) && LastField(all[..0], key, None)
  {
  }

  /** Where an object's strings and a name are UTF-8, its keys can be compared, and each says the name exactly where
      what it is decoded to is the name. */
  lemma KeysSay(t: Node, key: seq<Byte>)
    requires Utf8Strings(t) && U.Text(key)
    ensures Keyed(FieldsOf(t))
    ensures forall k :: 0 <= k < |FieldsOf(t)| ==>
              U.Text(FieldsOf(t)[k].key) && (Says(FieldsOf(t)[k].key, key) <==> Said(FieldsOf(t)[k].key) == key)
  {
    hide Says, Said, Comparable, U.Text;
    var fields := FieldsOf(t);
    forall k | 0 <= k < |fields|
      ensures U.Text(fields[k].key) && Comparable(fields[k].key) && (Says(fields[k].key, key) <==> Said(fields[k].key) == key)
    {
      SaysIffSaid(fields[k].key, key);
    }
  }

  lemma {:induction false} WsCut(ws: seq<Byte>, s: seq<Byte>)
    requires U.Text(ws + s) && AllWs(ws)
    ensures U.Text(s)
  {
    hide U.Text;
    if ws == [] {
      assert ws + s == s;
    } else {
      CutAt(ws + s, 0);
      assert (ws + s)[1..] == ws[1..] + s;
      WsCut(ws[1..], s);
    }
  }

  /** What is around a value is ASCII, so a value in UTF-8 is UTF-8. */
  lemma ValueCut(before: seq<Byte>, s: seq<Byte>, after: seq<Byte>)
    requires U.Text(before + s + after) && AllWs(before) && AllWs(after)
    ensures U.Text(s)
  {
    hide U.Text, AllWs;
    if after == [] {
      assert before + s + after == before + s;
    } else {
      WsIsAscii(after);
      Cut(before + s, after);
    }
    WsCut(before, s);
  }

  lemma WsIsAscii(ws: seq<Byte>)
    requires AllWs(ws)
    ensures forall k :: 0 <= k < |ws| ==> ws[k] < 0x80
  {
  }

  lemma {:induction false} TextStrings(t: Node)
    requires NodeOk(t) && U.Text(Text(t))
    ensures Utf8Strings(t)
    decreases t, 0
  {
    hide U.Text, ItemsText, FieldsText;
    match t
    case Word(_) =>
    case Number(_) =>
    case Str(raw) =>
      assert [] + Quoted(raw) + [] == Quoted(raw);
      QuotedText([], raw, []);
    case Arr(_, items) =>
      if items != [] {
        assert ([0x5b] + ItemsText(items))[1..] == ItemsText(items);
        CutAt(Text(t), 0);
        ItemsStrings(items);
      }
    case Obj(_, fields) =>
      if fields != [] {
        assert ([0x7b] + FieldsText(fields))[1..] == FieldsText(fields);
        CutAt(Text(t), 0);
        FieldsStrings(fields);
      }
  }

  /** A string between its quotes, after ASCII. */
  lemma QuotedText(before: seq<Byte>, raw: seq<Byte>, after: seq<Byte>)
    requires U.Text(before + Quoted(raw) + after)
    ensures U.Text(raw) && U.Text(after)
  {
    hide U.Text;
    assert before + Quoted(raw) + after == before + ([0x22] + (raw + ([0x22] + after)));
    Cut(before, [0x22] + (raw + ([0x22] + after)));
    assert ([0x22] + (raw + ([0x22] + after)))[1..] == raw + ([0x22] + after);
    Cut(raw, [0x22] + after);
    assert ([0x22] + after)[1..] == after;
  }

  lemma {:induction false} ItemStrings(i: Item)
    requires ItemOk(i) && U.Text(ItemText(i))
    ensures Utf8Strings(i.val)
    decreases i, 1
  {
    ValueCut(i.before, Text(i.val), i.after);
    TextStrings(i.val);
  }

  lemma {:induction false} ItemsStrings(items: seq<Item>)
    requires items != [] && ItemsOk(items) && U.Text(ItemsText(items))
    ensures forall k :: 0 <= k < |items| ==> Utf8Strings(items[k].val)
    decreases items, 2
  {
    hide U.Text, ItemText, ItemOk, Utf8Strings;
    var more := if |items| == 1 then [0x5d] else [0x2c] + ItemsText(items[1..]);
    Cut(ItemText(items[0]), more);
    ItemStrings(items[0]);
    if |items| > 1 {
      assert more[1..] == ItemsText(items[1..]);
      ItemsStrings(items[1..]);
      assert forall k :: 1 <= k < |items| ==> items[k] == items[1..][k - 1];
    }
  }

  lemma {:induction false} FieldStrings(f: Field)
    requires FieldOk(f) && U.Text(FieldText(f))
    ensures U.Text(f.key) && Utf8Strings(f.item.val)
    decreases f, 1
  {
    hide U.Text, ItemText, ItemOk, Utf8Strings, Quoted;
    var more := f.afterKey + ([0x3a] + ItemText(f.item));
    assert FieldText(f) == f.before + Quoted(f.key) + more;
    QuotedText(f.before, f.key, more);
    Cut(f.afterKey, [0x3a] + ItemText(f.item));
    assert ([0x3a] + ItemText(f.item))[1..] == ItemText(f.item);
    ItemStrings(f.item);
  }

  lemma {:induction false} FieldsStrings(fields: seq<Field>)
    requires fields != [] && FieldsOk(fields) && U.Text(FieldsText(fields))
    ensures forall k :: 0 <= k < |fields| ==> U.Text(fields[k].key) && Utf8Strings(fields[k].item.val)
    decreases fields, 2
  {
    hide U.Text, FieldText, FieldOk, Utf8Strings;
    var more := if |fields| == 1 then [0x7d] else [0x2c] + FieldsText(fields[1..]);
    Cut(FieldText(fields[0]), more);
    FieldStrings(fields[0]);
    if |fields| > 1 {
      assert more[1..] == FieldsText(fields[1..]);
      FieldsStrings(fields[1..]);
      assert forall k :: 1 <= k < |fields| ==> fields[k] == fields[1..][k - 1];
    }
  }
}
