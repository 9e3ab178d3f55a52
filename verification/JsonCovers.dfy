/** Everything in the grammar is accepted, to the depth the check goes to, and gives its tree back. */
module JsonCovers {
  import opened Bytes
  import opened JsonText
  import opened JsonGrammar
  import opened JsonAccepts
  import opened Prelude

  /** The byte at `at` is one that ends an item: no whitespace, nothing a number goes on with. */
  predicate Ends(s: seq<Byte>, at: nat) {
    at < |s| && (s[at] == 0x2c || s[at] == 0x5d || s[at] == 0x7d)
  }

  lemma WordHere(s: seq<Byte>, at: nat, w: seq<Byte>)
    requires Here(s, at, w) && w != []
    ensures WordAt(s, at, w) == Some((Word(w), at + |w|)) && at < |s| && s[at] == w[0]
  {
    FirstHere(s, at, w);
  }

  lemma QuotedHere(s: seq<Byte>, at: nat, raw: seq<Byte>)
    requires Here(s, at, Quoted(raw)) && StringOk(raw)
    ensures ByteIs(s, at, 0x22) && SkipString(s, at + 1) == Some(at + |raw| + 2) && Slice(s, at + 1, at + 1 + |raw|) == raw
  {
    hide SkipString, StringOk, Here, Slice;
    HerePart(s, at, [0x22] + raw, [0x22]);
    HerePart(s, at, [0x22], raw);
    HereByte(s, at, 0x22);
    HereByte(s, at + 1 + |raw|, 0x22);
    StringFinds(s, at + 1, raw);
    SliceHere(s, at + 1, raw);
  }

  /** A value's text begins with no whitespace and closes nothing. */
  lemma TextBegins(t: Node)
    requires NodeOk(t)
    ensures Text(t) != [] && !Ws(Text(t)[0]) && Text(t)[0] != 0x5d
  {
    if t.Number? {
      NumBegins(t.n);
    }
  }

  lemma NumBegins(n: Num)
    requires NumOk(n)
    ensures NumText(n) != [] && (Digit(NumText(n)[0]) || NumText(n)[0] == 0x2d)
  {
    hide FracText, ExpText, ExpOk, FracOk;
    assert Digit(n.whole[0]);
  }

  /** Brackets around whitespace. */
  lemma EmptyHere(s: seq<Byte>, at: nat, ws: seq<Byte>, open: Byte, close: Byte)
    requires Here(s, at, [open] + ws + [close]) && AllWs(ws) && !Ws(close)
    ensures ByteIs(s, at, open) && SkipWs(s, at + 1) == at + 1 + |ws| && ByteIs(s, at + 1 + |ws|, close)
    ensures s[at + 1..at + 1 + |ws|] == ws
  {
    hide SkipWs, AllWs;
    HerePart(s, at, [open] + ws, [close]);
    HerePart(s, at, [open], ws);
    HereByte(s, at, open);
    HereByte(s, at + 1 + |ws|, close);
    WsSkips(s, at + 1, ws);
  }

  /** Whitespace, then something else. */
  lemma WsThen(s: seq<Byte>, at: nat, ws: seq<Byte>, next: seq<Byte>)
    requires Here(s, at, ws + next) && AllWs(ws) && next != [] && !Ws(next[0])
    ensures SkipWs(s, at) == at + |ws| <= |s| && s[at..at + |ws|] == ws && ByteIs(s, at + |ws|, next[0]) && Here(s, at + |ws|, next)
  {
    hide SkipWs, AllWs;
    HerePart(s, at, ws, next);
    FirstHere(s, at + |ws|, next);
    WsSkips(s, at, ws);
  }

  /** Whitespace after a value, up to what ends an item. */
  lemma WsToEnd(s: seq<Byte>, at: nat, ws: seq<Byte>)
    requires Here(s, at, ws) && AllWs(ws) && Ends(s, at + |ws|)
    ensures SkipWs(s, at) == at + |ws| <= |s| && s[at..at + |ws|] == ws && NumEnds(s, at)
  {
    WsSkips(s, at, ws);
    if ws != [] {
      FirstHere(s, at, ws);
    }
  }

  /** A value found where its text is, and where the number it may be ends. */
  ghost predicate Found(s: seq<Byte>, at: nat, t: Node, depth: nat) {
    ValueAt(s, at, depth) == Some((t, at + |Text(t)|))
  }

  lemma WordFound(s: seq<Byte>, at: nat, t: Node, depth: nat)
    requires t.Word? && NodeOk(t) && Here(s, at, Text(t)) && depth <= MAX_DEPTH
    ensures Found(s, at, t, depth)
  {
    WordHere(s, at, t.w);
  }

  lemma NumFound(s: seq<Byte>, at: nat, t: Node, depth: nat)
    requires t.Number? && NodeOk(t) && Here(s, at, Text(t)) && depth <= MAX_DEPTH && NumEnds(s, at + |Text(t)|)
    ensures Found(s, at, t, depth)
  {
    hide NumberAt, NumText, NumOk, SkipWs, SkipString, NumEnds, Here;
    NumBegins(t.n);
    FirstHere(s, at, Text(t));
    NumberFinds(s, at, t.n);
  }

  lemma StrFound(s: seq<Byte>, at: nat, t: Node, depth: nat)
    requires t.Str? && NodeOk(t) && Here(s, at, Text(t)) && depth <= MAX_DEPTH
    ensures Found(s, at, t, depth)
  {
    hide SkipString, StringOk, SkipWs, Here;
    QuotedHere(s, at, t.raw);
  }

  lemma EmptyFound(s: seq<Byte>, at: nat, t: Node, depth: nat)
    requires (t.Arr? && t.items == []) || (t.Obj? && t.fields == [])
    requires NodeOk(t) && Here(s, at, Text(t)) && depth <= MAX_DEPTH
    ensures Found(s, at, t, depth)
  {
    hide SkipString, SkipWs, Here, AllWs;
    EmptyHere(s, at, t.ws, if t.Arr? then 0x5b else 0x7b, if t.Arr? then 0x5d else 0x7d);
  }

  lemma LedHere(s: seq<Byte>, at: nat, open: Byte, t: seq<Byte>)
    requires Here(s, at, [open] + t)
    ensures ByteIs(s, at, open) && Here(s, at + 1, t)
  {
    HerePart(s, at, [open], t);
    HereByte(s, at, open);
  }

  /** The first item's value is no closing bracket, so the array is not read as an empty one. */
  lemma ItemsBegin(s: seq<Byte>, at: nat, items: seq<Item>)
    requires items != [] && ItemOk(items[0]) && Here(s, at, ItemsText(items))
    ensures SkipWs(s, at) < |s| && !ByteIs(s, SkipWs(s, at), 0x5d)
  {
    hide SkipWs, Here, AllWs, Text, NodeOk;
    var i := items[0];
    var rest := ItemsText(items)[|ItemText(i)|..];
    TextBegins(i.val);
    assert ItemsText(items) == i.before + (Text(i.val) + i.after + rest);
    WsThen(s, at, i.before, Text(i.val) + i.after + rest);
  }

  lemma FieldsBegin(s: seq<Byte>, at: nat, fields: seq<Field>)
    requires fields != [] && FieldOk(fields[0]) && Here(s, at, FieldsText(fields))
    ensures ByteIs(s, SkipWs(s, at), 0x22)
  {
    hide SkipWs, Here, AllWs, ItemText, ItemOk;
    var f := fields[0];
    var rest := FieldsText(fields)[|FieldText(f)|..];
    var after := f.afterKey + [0x3a] + ItemText(f.item) + rest;
    assert FieldsText(fields) == f.before + (Quoted(f.key) + after);
    WsThen(s, at, f.before, Quoted(f.key) + after);
  }

  lemma ArrFound(s: seq<Byte>, at: nat, t: Node, depth: nat)
    requires t.Arr? && NodeOk(t) && t.items != [] && ByteIs(s, at, 0x5b) && depth <= MAX_DEPTH
    requires !ByteIs(s, SkipWs(s, at + 1), 0x5d) && ItemsAt(s, at + 1, depth) == Some((t.items, at + 1 + |ItemsText(t.items)|))
    ensures Found(s, at, t, depth)
  {
    hide SkipWs, SkipString, ItemsAt, FieldsAt, NumberAt, ItemOk, ItemsText;
  }

  lemma ObjFound(s: seq<Byte>, at: nat, t: Node, depth: nat)
    requires t.Obj? && NodeOk(t) && t.fields != [] && ByteIs(s, at, 0x7b) && depth <= MAX_DEPTH
    requires ByteIs(s, SkipWs(s, at + 1), 0x22) && FieldsAt(s, at + 1, depth) == Some((t.fields, at + 1 + |FieldsText(t.fields)|))
    ensures Found(s, at, t, depth)
  {
    hide SkipWs, SkipString, ItemsAt, FieldsAt, NumberAt, FieldOk, FieldsText;
  }

  lemma {:induction false} ValueFound(s: seq<Byte>, at: nat, t: Node, depth: nat)
    requires NodeOk(t) && Here(s, at, Text(t)) && Height(t) + depth <= MAX_DEPTH
    requires t.Number? ==> NumEnds(s, at + |Text(t)|)
    ensures Found(s, at, t, depth)
    decreases t, 0
  {
    hide SkipWs, SkipString, Here, NumEnds, NumberAt, WordAt, ValueAt, ItemsAt, FieldsAt;
    match t
    case Word(w) => WordFound(s, at, t, depth);
    case Number(n) => NumFound(s, at, t, depth);
    case Str(raw) => StrFound(s, at, t, depth);
    case Arr(ws, items) =>
      if items == [] {
        EmptyFound(s, at, t, depth);
      } else {
        LedHere(s, at, 0x5b, ItemsText(items));
        ItemsBegin(s, at + 1, items);
        ItemsFound(s, at + 1, items, depth);
        ArrFound(s, at, t, depth);
      }
    case Obj(ws, fields) =>
      if fields == [] {
        EmptyFound(s, at, t, depth);
      } else {
        LedHere(s, at, 0x7b, FieldsText(fields));
        FieldsBegin(s, at + 1, fields);
        FieldsFound(s, at + 1, fields, depth);
        ObjFound(s, at, t, depth);
      }
  }

  lemma {:induction false} ItemFound(s: seq<Byte>, at: nat, i: Item, depth: nat)
    requires ItemOk(i) && Here(s, at, ItemText(i)) && Height(i.val) + depth < MAX_DEPTH && Ends(s, at + |ItemText(i)|)
    ensures at <= |s| && ItemAt(s, at, depth) == Some((i, at + |ItemText(i)|))
    decreases i, 1
  {
    hide SkipWs, Here, NumEnds, ValueAt, AllWs, NodeOk, Height, Ends;
    var from := at + |i.before|;
    var end := from + |Text(i.val)|;
    HerePart(s, at, i.before + Text(i.val), i.after);
    HerePart(s, at, i.before, Text(i.val));
    TextBegins(i.val);
    WsThen(s, at, i.before, Text(i.val));
    WsToEnd(s, end, i.after);
    ValueFound(s, from, i.val, depth + 1);
  }

  lemma {:induction false} ItemsFound(s: seq<Byte>, at: nat, items: seq<Item>, depth: nat)
    requires items != [] && ItemsOk(items) && Here(s, at, ItemsText(items)) && ItemsHeight(items) + depth < MAX_DEPTH
    ensures at <= |s| && ItemsAt(s, at, depth) == Some((items, at + |ItemsText(items)|))
    decreases items, 2
  {
    hide Here, ItemText, ItemOk, ItemAt;
    var i := items[0];
    var next := at + |ItemText(i)|;
    if |items| == 1 {
      HerePart(s, at, ItemText(i), [0x5d]);
      HereByte(s, next, 0x5d);
      ItemFound(s, at, i, depth);
      assert items == [i];
    } else {
      HerePart(s, at, ItemText(i), [0x2c] + ItemsText(items[1..]));
      LedHere(s, next, 0x2c, ItemsText(items[1..]));
      ItemFound(s, at, i, depth);
      ItemsFound(s, next + 1, items[1..], depth);
      assert items == [i] + items[1..];
    }
  }

  /** A field up to its value: its key, and the colon after. */
  lemma KeyFound(s: seq<Byte>, at: nat, f: Field)
    requires FieldOk(f) && Here(s, at, FieldText(f))
    ensures var i := at + |f.before|; var key := i + |f.key| + 2; var j := key + |f.afterKey|;
            && at <= i <= key <= j < |s| && SkipWs(s, at) == i && ByteIs(s, i, 0x22) && SkipString(s, i + 1) == Some(key)
            && SkipWs(s, key) == j && ByteIs(s, j, 0x3a) && Here(s, j + 1, ItemText(f.item))
            && s[at..i] == f.before && Slice(s, i + 1, key - 1) == f.key && s[key..j] == f.afterKey
  {
    hide SkipWs, SkipString, Here, ItemText, ItemOk, AllWs, StringOk;
    var i := at + |f.before|;
    var key := i + |f.key| + 2;
    var tail := [0x3a] + ItemText(f.item);
    assert FieldText(f) == f.before + (Quoted(f.key) + (f.afterKey + tail));
    WsThen(s, at, f.before, Quoted(f.key) + (f.afterKey + tail));
    HerePart(s, i, Quoted(f.key), f.afterKey + tail);
    QuotedHere(s, i, f.key);
    WsThen(s, key, f.afterKey, tail);
    LedHere(s, key + |f.afterKey|, 0x3a, ItemText(f.item));
  }

  lemma {:induction false} FieldFound(s: seq<Byte>, at: nat, f: Field, depth: nat)
    requires FieldOk(f) && Here(s, at, FieldText(f)) && Height(f.item.val) + depth < MAX_DEPTH && Ends(s, at + |FieldText(f)|)
    ensures at <= |s| && FieldAt(s, at, depth) == Some((f, at + |FieldText(f)|))
    decreases f, 1
  {
    hide SkipWs, SkipString, Here, ItemAt, ItemText, ItemOk, AllWs, StringOk, Height, Slice, Ends;
    KeyFound(s, at, f);
    var j := at + |f.before| + |f.key| + 2 + |f.afterKey|;
    ItemFound(s, j + 1, f.item, depth);
  }

  lemma {:induction false} FieldsFound(s: seq<Byte>, at: nat, fields: seq<Field>, depth: nat)
    requires fields != [] && FieldsOk(fields) && Here(s, at, FieldsText(fields)) && FieldsHeight(fields) + depth < MAX_DEPTH
    ensures at <= |s| && FieldsAt(s, at, depth) == Some((fields, at + |FieldsText(fields)|))
    decreases fields, 2
  {
    hide Here, FieldText, FieldOk, FieldAt;
    var f := fields[0];
    var next := at + |FieldText(f)|;
    if |fields| == 1 {
      HerePart(s, at, FieldText(f), [0x7d]);
      HereByte(s, next, 0x7d);
      FieldFound(s, at, f, depth);
      assert fields == [f];
    } else {
      HerePart(s, at, FieldText(f), [0x2c] + FieldsText(fields[1..]));
      LedHere(s, next, 0x2c, FieldsText(fields[1..]));
      FieldFound(s, at, f, depth);
      FieldsFound(s, next + 1, fields[1..], depth);
      assert fields == [f] + fields[1..];
    }
  }
}
