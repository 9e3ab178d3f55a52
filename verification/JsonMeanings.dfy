/** What a text says as a value, and that a value printed, with any whitespace, is read back as itself. */
module JsonMeanings {
  import opened Bytes
  import opened JsonText
  import opened JsonReads
  import opened JsonSteps
  import opened JsonStrings
  import opened JsonWalks
  import opened Prelude
  import U = Utf8

  /** A value: its numbers as written, its strings decoded, its fields in order and each as often as it is given. */
  datatype Json =
    | JNull
    | JBool(b: bool)
    | JNumber(text: seq<Byte>)
    | JString(s: seq<Byte>)
    | JArray(items: seq<Json>)
    | JObject(fields: seq<Pair>)

  datatype Pair = Pair(key: seq<Byte>, val: Json)

  /** Every string and key of a tree is decoded without a step past its end. */
  ghost predicate Decodable(t: Node)
    decreases t
  {
    match t
    case Word(_) => true
    case Number(_) => true
    case Str(raw) => Inside(raw)
    case Arr(_, items) => forall k :: 0 <= k < |items| ==> Decodable(items[k].val)
    case Obj(_, fields) => forall k :: 0 <= k < |fields| ==> Inside(fields[k].key) && Decodable(fields[k].item.val)
  }

  lemma {:induction false} Utf8Decodable(t: Node)
    requires Utf8Strings(t)
    ensures Decodable(t)
    decreases t
  {
    hide U.Text, Inside;
    match t
    case Str(raw) => TextInside(raw);
    case Arr(_, items) =>
      forall k | 0 <= k < |items|
        ensures Decodable(items[k].val)
      {
        Utf8Decodable(items[k].val);
      }
    case Obj(_, fields) =>
      forall k | 0 <= k < |fields|
        ensures Inside(fields[k].key) && Decodable(fields[k].item.val)
      {
        TextInside(fields[k].key);
        Utf8Decodable(fields[k].item.val);
      }
    case _ =>
  }

  ghost function Meaning(t: Node): Json
    requires Decodable(t)
    decreases t, 0
  {
    match t
    case Word(w) => if w == NULL then JNull else JBool(w == TRUE)
    case Number(n) => JNumber(NumText(n))
    case Str(raw) => JString(Steps(raw))
    case Arr(_, items) => JArray(ItemsMean(items))
    case Obj(_, fields) => JObject(FieldsMean(fields))
  }

  ghost function ItemsMean(items: seq<Item>): (js: seq<Json>)
    requires forall k :: 0 <= k < |items| ==> Decodable(items[k].val)
    ensures |js| == |items| && forall k :: 0 <= k < |items| ==> js[k] == Meaning(items[k].val)
    decreases items, 0
  {
    if items == [] then [] else [Meaning(items[0].val)] + ItemsMean(items[1..])
  }

  ghost function FieldsMean(fields: seq<Field>): (js: seq<Pair>)
    requires forall k :: 0 <= k < |fields| ==> FieldDecodable(fields[k])
    ensures |js| == |fields| && forall k :: 0 <= k < |fields| ==> js[k] == FieldMeans(fields[k])
    decreases fields, 1
  {
    if fields == [] then [] else [FieldMeans(fields[0])] + FieldsMean(fields[1..])
  }

  ghost predicate FieldDecodable(f: Field) {
    Inside(f.key) && Decodable(f.item.val)
  }

  ghost function FieldMeans(f: Field): Pair
    requires FieldDecodable(f)
    decreases f, 0
  {
    Pair(Steps(f.key), Meaning(f.item.val))
  }

  // Reading it all

  /** A reader's walk over a whole value. */
  method Walk(v: JsonValue) returns (j: Json)
    requires Good(v) && Decodable(Tree(v))
    ensures j == Meaning(Tree(v))
    decreases Tree(v), 1
  {
    hide Good, Tree, NumText, Steps, Inside, ItemsMean, FieldsMean;
    TypeIsKind(v);
    match TypeOf(v)
    case NullType =>
      j := JNull;
    case BooleanType =>
      BoolIsWord(v);
      j := JBool(AsBool(v).value);
    case NumberType =>
      NumberIsText(v);
      j := JNumber(v.text);
    case StringType =>
      StrIsRaw(v);
      var s := DecodeInto(AsStr(v).value);
      j := JString(s);
    case ArrayType =>
      var items := WalkItems(v);
      j := JArray(items);
    case ObjectType =>
      var fields := WalkFields(v);
      j := JObject(fields);
  }

  lemma NumberIsText(v: JsonValue)
    requires Good(v) && Tree(v).Number?
    ensures v.text == NumText(Tree(v).n)
  {
  }

  method WalkItems(v: JsonValue) returns (js: seq<Json>)
    requires Good(v) && Tree(v).Arr? && Decodable(Tree(v))
    ensures js == ItemsMean(Tree(v).items)
    decreases Tree(v), 0
  {
    hide Good, Tree, Meaning, ItemsLeft;
    var it := Items(v);
    ghost var all := it.rest;
    js := [];
    while true
      invariant it.Valid() && |js| <= |all| && it.rest == all[|js|..]
      invariant forall k :: 0 <= k < |js| ==> js[k] == Meaning(all[k].val)
      decreases |it.rest|
    {
      var next := it.Next();
      if next.None? {
        assert js == ItemsMean(all);
        return;
      }
      ghost var i := |js|;
      Smaller(Tree(v), i);
      var j := Walk(next.value);
      js := js + [j];
    }
  }

  /** An item's value, and a field's, is a smaller tree. */
  lemma Smaller(t: Node, k: nat)
    ensures t.Arr? && k < |t.items| ==> (t decreases to t.items[k].val)
    ensures t.Obj? && k < |t.fields| ==> (t decreases to t.fields[k].item.val)
  {
  }

  method WalkFields(v: JsonValue) returns (js: seq<Pair>)
    requires Good(v) && Tree(v).Obj? && Decodable(Tree(v))
    ensures js == FieldsMean(Tree(v).fields)
    decreases Tree(v), 0
  {
    hide Good, Tree, Meaning, FieldsLeft, Steps, Inside;
    var it := Fields(v);
    ghost var all := it.rest;
    js := [];
    while true
      invariant it.Valid() && |js| <= |all| && it.rest == all[|js|..]
      invariant forall k :: 0 <= k < |js| ==> js[k] == FieldMeans(all[k])
      decreases |it.rest|
    {
      var next := it.Next();
      if next.None? {
        assert js == FieldsMean(all);
        return;
      }
      ghost var i := |js|;
      Smaller(Tree(v), i);
      var key := DecodeInto(next.value.0);
      var j := Walk(next.value.1);
      js := js + [Pair(key, j)];
    }
  }

  /** Whatever value a text holds, its strings are decoded without a step past their ends. */
  ghost predicate Readable(text: seq<Byte>) {
    forall before, t, after :: Holds(text, before, t, after) ==> Decodable(t)
  }

  lemma TextReadable(text: seq<Byte>)
    requires U.Text(text)
    ensures Readable(text)
  {
    hide Holds, U.Text, Utf8Strings, Decodable;
    forall before, t, after | Holds(text, before, t, after)
      ensures Decodable(t)
    {
      HeldStrings(text, before, t, after);
      Utf8Decodable(t);
    }
  }

  /** A text checked and read whole. */
  method Parse(text: seq<Byte>) returns (r: Option<Json>)
    requires Readable(text)
    ensures r.Some? <==> exists before, t, after :: Holds(text, before, t, after)
    ensures forall before, t, after :: Holds(text, before, t, after) ==> r == Some(Meaning(t))
  {
    hide Holds, Good, Tree, Meaning, Decodable;
    var v := ReadJson(text);
    if v.None? {
      return None;
    }
    var j := Walk(v.value);
    return Some(j);
  }

  lemma HeldStrings(text: seq<Byte>, before: seq<Byte>, t: Node, after: seq<Byte>)
    requires U.Text(text) && Holds(text, before, t, after)
    ensures Utf8Strings(t)
  {
    hide U.Text, Text, NodeOk, AllWs;
    ValueCut(before, Text(t), after);
    TextStrings(t);
  }

  // Printing

  /** `t` prints `j`: its strings as they are quoted, with whitespace anywhere the grammar has it. */
  ghost predicate Prints(j: Json, t: Node)
    decreases j, 0
  {
    match j
    case JNull => t == Word(NULL)
    case JBool(b) => t == Word(if b then TRUE else FALSE)
    case JNumber(text) => t.Number? && NumOk(t.n) && NumText(t.n) == text
    case JString(s) => t == Str(Escaped(s))
    case JArray(items) =>
      && t.Arr? && AllWs(t.ws) && (items != [] ==> t.ws == []) && |t.items| == |items|
      && forall k :: 0 <= k < |items| ==> ItemPrints(items[k], t.items[k])
    case JObject(fields) =>
      && t.Obj? && AllWs(t.ws) && (fields != [] ==> t.ws == []) && |t.fields| == |fields|
      && forall k :: 0 <= k < |fields| ==> FieldPrints(fields[k], t.fields[k])
  }

  ghost predicate ItemPrints(j: Json, i: Item)
    decreases j, 1
  {
    AllWs(i.before) && AllWs(i.after) && Prints(j, i.val)
  }

  ghost predicate FieldPrints(p: Pair, f: Field)
    decreases p, 1
  {
    AllWs(f.before) && f.key == Escaped(p.key) && AllWs(f.afterKey) && ItemPrints(p.val, f.item)
  }

  /** All a value's strings are UTF-8. */
  ghost predicate Sayable(j: Json)
    decreases j
  {
    match j
    case JString(s) => U.Text(s)
    case JArray(items) => forall k :: 0 <= k < |items| ==> Sayable(items[k])
    case JObject(fields) => forall k :: 0 <= k < |fields| ==> KeySayable(fields[k]) && Sayable(fields[k].val)
    case _ => true
  }

  ghost predicate KeySayable(p: Pair) {
    U.Text(p.key)
  }

  lemma KeyMeans(p: Pair, f: Field)
    requires KeySayable(p) && FieldPrints(p, f)
    ensures StringOk(f.key) && U.Text(f.key) && Inside(f.key) && Steps(f.key) == p.key
  {
    hide Inside, Steps;
    EscapedOk(p.key);
    EscapedSays(p.key);
    TextInside(f.key);
  }

  /** What prints a value is a text of the grammar and means that value. */
  lemma {:induction false} PrintedMeans(j: Json, t: Node)
    requires Sayable(j) && Prints(j, t)
    ensures NodeOk(t) && Utf8Strings(t) && Decodable(t) && Meaning(t) == j
    decreases j
  {
    hide AllWs, NumOk, NumText, StringOk, Said, Steps, Inside, Escaped, U.Text;
    match j
    case JString(s) =>
      EscapedOk(s);
      EscapedSays(s);
      TextInside(Escaped(s));
    case JArray(items) =>
      forall k | 0 <= k < |items|
        ensures ItemOk(t.items[k]) && Utf8Strings(t.items[k].val) && Decodable(t.items[k].val) && Meaning(t.items[k].val) == items[k]
      {
        assert ItemPrints(items[k], t.items[k]);
        PrintedMeans(items[k], t.items[k].val);
      }
      assert ItemsMean(t.items) == items;
    case JObject(fields) =>
      forall k | 0 <= k < |fields|
        ensures FieldOk(t.fields[k]) && Sound(t.fields[k]) && FieldDecodable(t.fields[k]) && FieldMeans(t.fields[k]) == fields[k]
      {
        assert FieldPrints(fields[k], t.fields[k]);
        assert ItemPrints(fields[k].val, t.fields[k].item);
        KeyMeans(fields[k], t.fields[k]);
        PrintedMeans(fields[k].val, t.fields[k].item.val);
      }
      assert FieldsMean(t.fields) == fields;
    case _ =>
  }

  // What prints a value is UTF-8

  predicate AllAscii(s: seq<Byte>) {
    forall k :: 0 <= k < |s| ==> s[k] < 0x80
  }

  lemma AsciiIsText(s: seq<Byte>)
    requires AllAscii(s)
    ensures U.Text(s)
  {
    U.TextNone();
    AsciiText(s, []);
    assert s + [] == s;
  }

  lemma WsIsText(ws: seq<Byte>)
    requires AllWs(ws)
    ensures U.Text(ws)
  {
    WsIsAscii(ws);
    AsciiIsText(ws);
  }

  lemma NumIsAscii(n: Num)
    requires NumOk(n)
    ensures AllAscii(NumText(n))
  {
    hide NumText;
    FracIsAscii(n.frac);
    ExpIsAscii(n.exp);
    NumJoined(n);
  }

  lemma FracIsAscii(f: Option<seq<Byte>>)
    requires FracOk(f)
    ensures AllAscii(FracText(f))
  {
  }

  lemma ExpIsAscii(e: Option<Exp>)
    requires ExpOk(e)
    ensures AllAscii(ExpText(e))
  {
  }

  lemma NumJoined(n: Num)
    requires AllDigits(n.whole) && AllAscii(FracText(n.frac)) && AllAscii(ExpText(n.exp))
    ensures AllAscii(NumText(n))
  {
    hide FracText, ExpText;
  }

  lemma JoinedIsText(a: seq<Byte>, b: seq<Byte>, c: seq<Byte>)
    requires U.Text(a) && U.Text(b) && U.Text(c)
    ensures U.Text(a + b + c)
  {
    hide U.Text;
    U.TextJoin(a, b);
    U.TextJoin(a + b, c);
  }

  lemma QuotedIsText(raw: seq<Byte>)
    requires U.Text(raw)
    ensures U.Text(Quoted(raw))
  {
    hide U.Text;
    AsciiIsText([0x22]);
    JoinedIsText([0x22], raw, [0x22]);
  }

  ghost predicate Sound(f: Field) {
    U.Text(f.key) && Utf8Strings(f.item.val)
  }

  /** A tree all of whose strings are UTF-8 has its text in UTF-8. */
  lemma {:induction false} StringsText(t: Node)
    requires NodeOk(t) && Utf8Strings(t)
    ensures U.Text(Text(t))
    decreases t, 0
  {
    hide U.Text, ItemsText, FieldsText, NumText, NumOk;
    match t
    case Word(w) => AsciiIsText(w);
    case Number(n) =>
      NumIsAscii(n);
      AsciiIsText(NumText(n));
    case Str(raw) => QuotedIsText(raw);
    case Arr(ws, items) =>
      AsciiIsText([0x5b]);
      AsciiIsText([0x5d]);
      WsIsText(ws);
      if items == [] {
        JoinedIsText([0x5b], ws, [0x5d]);
      } else {
        ItemsAreText(items);
        U.TextJoin([0x5b], ItemsText(items));
      }
    case Obj(ws, fields) =>
      AsciiIsText([0x7b]);
      AsciiIsText([0x7d]);
      WsIsText(ws);
      if fields == [] {
        JoinedIsText([0x7b], ws, [0x7d]);
      } else {
        FieldsAreText(fields);
        U.TextJoin([0x7b], FieldsText(fields));
      }
  }

  lemma {:induction false} ItemIsText(i: Item)
    requires ItemOk(i) && Utf8Strings(i.val)
    ensures U.Text(ItemText(i))
    decreases i, 1
  {
    hide U.Text, Text;
    WsIsText(i.before);
    WsIsText(i.after);
    StringsText(i.val);
    JoinedIsText(i.before, Text(i.val), i.after);
  }

  lemma {:induction false} ItemsAreText(items: seq<Item>)
    requires items != [] && (forall k :: 0 <= k < |items| ==> ItemOk(items[k]) && Utf8Strings(items[k].val))
    ensures U.Text(ItemsText(items))
    decreases items, 2
  {
    hide U.Text, ItemText, Utf8Strings, ItemOk;
    ItemIsText(items[0]);
    AsciiIsText([0x5d]);
    AsciiIsText([0x2c]);
    if |items| == 1 {
      U.TextJoin(ItemText(items[0]), [0x5d]);
    } else {
      ItemsAreText(items[1..]);
      U.TextJoin([0x2c], ItemsText(items[1..]));
      U.TextJoin(ItemText(items[0]), [0x2c] + ItemsText(items[1..]));
    }
  }

  lemma {:induction false} FieldIsText(f: Field)
    requires FieldOk(f) && Sound(f)
    ensures U.Text(FieldText(f))
    decreases f, 1
  {
    hide U.Text, ItemText, Quoted;
    WsIsText(f.before);
    WsIsText(f.afterKey);
    QuotedIsText(f.key);
    AsciiIsText([0x3a]);
    ItemIsText(f.item);
    JoinedIsText(f.before, Quoted(f.key), f.afterKey);
    JoinedIsText(f.before + Quoted(f.key) + f.afterKey, [0x3a], ItemText(f.item));
  }

  lemma {:induction false} FieldsAreText(fields: seq<Field>)
    requires fields != [] && (forall k :: 0 <= k < |fields| ==> FieldOk(fields[k]) && Sound(fields[k]))
    ensures U.Text(FieldsText(fields))
    decreases fields, 2
  {
    hide U.Text, FieldText, Sound, FieldOk;
    FieldIsText(fields[0]);
    AsciiIsText([0x7d]);
    AsciiIsText([0x2c]);
    if |fields| == 1 {
      U.TextJoin(FieldText(fields[0]), [0x7d]);
    } else {
      FieldsAreText(fields[1..]);
      U.TextJoin([0x2c], FieldsText(fields[1..]));
      U.TextJoin(FieldText(fields[0]), [0x2c] + FieldsText(fields[1..]));
    }
  }

  /** A value printed, whitespace around it, is held by its text, which is UTF-8. */
  lemma PrintedIsHeld(j: Json, t: Node, before: seq<Byte>, after: seq<Byte>)
    requires Sayable(j) && Prints(j, t) && Height(t) <= MAX_DEPTH && AllWs(before) && AllWs(after)
    ensures Holds(before + Text(t) + after, before, t, after) && Decodable(t) && Meaning(t) == j
    ensures U.Text(before + Text(t) + after)
  {
    hide U.Text, Text, Height, Meaning, AllWs, Prints, Utf8Strings, Decodable, NodeOk;
    PrintedMeans(j, t);
    StringsText(t);
    WsIsText(before);
    WsIsText(after);
    JoinedIsText(before, Text(t), after);
  }

  /** The round trip: any value, printed with any whitespace no deeper than the check goes, is what its text parses to. */
  method ParsePrinted(text: seq<Byte>, ghost j: Json, ghost t: Node, ghost before: seq<Byte>, ghost after: seq<Byte>)
    returns (r: Option<Json>)
    requires Sayable(j) && Prints(j, t) && Height(t) <= MAX_DEPTH && AllWs(before) && AllWs(after)
    requires text == before + Text(t) + after
    ensures r == Some(j)
  {
    hide U.Text, Text, Height, Meaning, AllWs, Prints, Decodable, NodeOk, Holds, Sayable;
    PrintedIsHeld(j, t, before, after);
    TextReadable(text);
    r := Parse(text);
  }
}
