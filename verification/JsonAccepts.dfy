/** What the check accepts is in the grammar: the tree it finds is one whose text stands there, whitespace and all. */
module JsonAccepts {
  import opened Bytes
  import opened JsonText
  import opened JsonGrammar
  import opened Prelude

  ghost predicate ItemsOk(items: seq<Item>) {
    forall k :: 0 <= k < |items| ==> ItemOk(items[k])
  }

  ghost predicate FieldsOk(fields: seq<Field>) {
    forall k :: 0 <= k < |fields| ==> FieldOk(fields[k])
  }

  /** A tree, deep enough at most, whose text lies from `at` up to `end`. */
  ghost predicate Stands(s: seq<Byte>, at: nat, end: nat, t: Node, depth: nat) {
    at < end <= |s| && NodeOk(t) && Text(t) == s[at..end] && Height(t) + depth <= MAX_DEPTH
  }

  ghost predicate ItemStands(s: seq<Byte>, at: nat, end: nat, i: Item, depth: nat) {
    at < end <= |s| && ItemOk(i) && ItemText(i) == s[at..end] && Height(i.val) + depth < MAX_DEPTH
  }

  ghost predicate ItemsStand(s: seq<Byte>, at: nat, end: nat, items: seq<Item>, depth: nat) {
    at < end <= |s| && items != [] && ItemsOk(items) && ItemsText(items) == s[at..end] && ItemsHeight(items) + depth < MAX_DEPTH
  }

  ghost predicate FieldStands(s: seq<Byte>, at: nat, end: nat, f: Field, depth: nat) {
    at < end <= |s| && FieldOk(f) && FieldText(f) == s[at..end] && Height(f.item.val) + depth < MAX_DEPTH
  }

  ghost predicate FieldsStand(s: seq<Byte>, at: nat, end: nat, fields: seq<Field>, depth: nat) {
    at < end <= |s| && fields != [] && FieldsOk(fields) && FieldsText(fields) == s[at..end]
    && FieldsHeight(fields) + depth < MAX_DEPTH
  }

  lemma ItemsLonger(s: seq<Byte>, at: nat, i: nat, end: nat, item: Item, rest: seq<Item>, depth: nat)
    requires ItemStands(s, at, i, item, depth) && ByteIs(s, i, 0x2c) && ItemsStand(s, i + 1, end, rest, depth)
    ensures ItemsStand(s, at, end, [item] + rest, depth)
  {
    var items := [item] + rest;
    assert items[0] == item && items[1..] == rest;
    assert s[at..end] == s[at..i] + ([0x2c] + s[i + 1..end]);
  }

  lemma ItemsLast(s: seq<Byte>, at: nat, i: nat, item: Item, depth: nat)
    requires ItemStands(s, at, i, item, depth) && ByteIs(s, i, 0x5d)
    ensures ItemsStand(s, at, i + 1, [item], depth)
  {
    assert [item][0] == item && [item][1..] == [];
    assert s[at..i + 1] == s[at..i] + [0x5d];
  }

  lemma FieldsLonger(s: seq<Byte>, at: nat, i: nat, end: nat, f: Field, rest: seq<Field>, depth: nat)
    requires FieldStands(s, at, i, f, depth) && ByteIs(s, i, 0x2c) && FieldsStand(s, i + 1, end, rest, depth)
    ensures FieldsStand(s, at, end, [f] + rest, depth)
  {
    var fields := [f] + rest;
    assert fields[0] == f && fields[1..] == rest;
    assert s[at..end] == s[at..i] + ([0x2c] + s[i + 1..end]);
  }

  lemma FieldsLast(s: seq<Byte>, at: nat, i: nat, f: Field, depth: nat)
    requires FieldStands(s, at, i, f, depth) && ByteIs(s, i, 0x7d)
    ensures FieldsStand(s, at, i + 1, [f], depth)
  {
    assert [f][0] == f && [f][1..] == [];
    assert s[at..i + 1] == s[at..i] + [0x7d];
  }

  lemma ItemBuilt(s: seq<Byte>, at: nat, i: nat, end: nat, val: Node, depth: nat)
    requires at <= |s| && i == SkipWs(s, at) && Stands(s, i, end, val, depth + 1)
    ensures var j := SkipWs(s, end); ItemStands(s, at, j, Item(s[at..i], val, s[end..j]), depth)
  {
    hide SkipWs, AllWs, NodeOk, Text, Height;
    var j := SkipWs(s, end);
    WsFound(s, at, i);
    WsFound(s, end, j);
    Joined(s, at, i, end);
    Joined(s, at, end, j);
  }

  lemma FieldBuilt(s: seq<Byte>, at: nat, i: nat, key: nat, j: nat, end: nat, item: Item, depth: nat)
    requires at <= |s| && i == SkipWs(s, at) && ByteIs(s, i, 0x22) && SkipString(s, i + 1) == Some(key)
    requires j == SkipWs(s, key) && ByteIs(s, j, 0x3a) && ItemStands(s, j + 1, end, item, depth)
    ensures FieldStands(s, at, end, Field(s[at..i], Slice(s, i + 1, key - 1), s[key..j], item), depth)
  {
    hide *;
    WsFound(s, at, i);
    WsFound(s, key, j);
    QuotedFound(s, i, key);
    FieldJoined(s, at, i, key, j, end, item, depth);
  }

  lemma WsFound(s: seq<Byte>, at: nat, i: nat)
    requires at <= |s| && i == SkipWs(s, at)
    ensures at <= i <= |s| && AllWs(s[at..i])
  {
    WsSkipped(s, at);
  }

  lemma FieldJoined(s: seq<Byte>, at: nat, i: nat, key: nat, j: nat, end: nat, item: Item, depth: nat)
    requires at <= i <= |s| && AllWs(s[at..i])
    requires i + 1 < key <= |s| && StringOk(Slice(s, i + 1, key - 1)) && Quoted(Slice(s, i + 1, key - 1)) == s[i..key]
    requires key <= j <= |s| && AllWs(s[key..j]) && ByteIs(s, j, 0x3a) && ItemStands(s, j + 1, end, item, depth)
    ensures FieldStands(s, at, end, Field(s[at..i], Slice(s, i + 1, key - 1), s[key..j], item), depth)
  {
    hide Quoted, StringOk, AllWs, ItemOk, ItemText, Slice, Height;
    Joined(s, at, i, key);
    Joined(s, at, key, j);
    Joined(s, at, j, j + 1);
    Joined(s, at, j + 1, end);
    HereByte(s, j, 0x3a);
  }

  lemma QuotedFound(s: seq<Byte>, at: nat, end: nat)
    requires ByteIs(s, at, 0x22) && SkipString(s, at + 1) == Some(end)
    ensures at + 1 < end <= |s| && StringOk(Slice(s, at + 1, end - 1)) && Quoted(Slice(s, at + 1, end - 1)) == s[at..end]
  {
    StringFound(s, at + 1);
    assert s[at..end] == [s[at]] + s[at + 1..end - 1] + [s[end - 1]];
  }

  lemma BracketsFound(s: seq<Byte>, at: nat, i: nat, open: Byte, close: Byte)
    requires ByteIs(s, at, open) && i == SkipWs(s, at + 1) && ByteIs(s, i, close)
    ensures at + 1 <= i < |s| && AllWs(s[at + 1..i]) && s[at..i + 1] == [open] + s[at + 1..i] + [close]
  {
    WsSkipped(s, at + 1);
  }

  lemma Led(s: seq<Byte>, at: nat, end: nat, open: Byte)
    requires ByteIs(s, at, open) && at < end <= |s|
    ensures s[at..end] == [open] + s[at + 1..end]
  {
  }

  lemma QuotedStands(s: seq<Byte>, at: nat, depth: nat)
    requires ByteIs(s, at, 0x22) && ValueAt(s, at, depth).Some?
    ensures var (t, end) := ValueAt(s, at, depth).value; Stands(s, at, end, t, depth)
  {
    hide SkipString, StringOk, Slice, Quoted;
    QuotedFound(s, at, ValueAt(s, at, depth).value.1);
  }

  lemma {:induction false} ValueStands(s: seq<Byte>, at: nat, depth: nat)
    requires ValueAt(s, at, depth).Some?
    ensures var (t, end) := ValueAt(s, at, depth).value; Stands(s, at, end, t, depth)
    decreases |s| - at, 1
  {
    hide SkipWs, SkipString, NumberAt, ItemsStand, FieldsStand;
    if s[at] == 0x22 {
      QuotedStands(s, at, depth);
    } else if s[at] == 0x5b {
      if !ByteIs(s, SkipWs(s, at + 1), 0x5d) {
        ItemsStandAt(s, at + 1, depth);
      }
      ListStands(s, at, depth);
    } else if s[at] == 0x7b {
      if !ByteIs(s, SkipWs(s, at + 1), 0x7d) {
        FieldsStandAt(s, at + 1, depth);
      }
      ObjectStands(s, at, depth);
    } else {
      PlainStands(s, at, depth);
    }
  }

  /** A word or a number. */
  lemma PlainStands(s: seq<Byte>, at: nat, depth: nat)
    requires at < |s| && s[at] != 0x22 && s[at] != 0x5b && s[at] != 0x7b && ValueAt(s, at, depth).Some?
    ensures var (t, end) := ValueAt(s, at, depth).value; Stands(s, at, end, t, depth)
  {
    hide NumberAt, NumOk, NumText;
    if NumberAt(s, at).Some? {
      NumberFound(s, at);
    }
  }

  lemma ListStands(s: seq<Byte>, at: nat, depth: nat)
    requires ByteIs(s, at, 0x5b) && ValueAt(s, at, depth).Some?
    requires ByteIs(s, SkipWs(s, at + 1), 0x5d)
             || (ItemsAt(s, at + 1, depth).Some?
                 && ItemsStand(s, at + 1, ItemsAt(s, at + 1, depth).value.1, ItemsAt(s, at + 1, depth).value.0, depth))
    ensures var (t, end) := ValueAt(s, at, depth).value; Stands(s, at, end, t, depth)
  {
    hide SkipWs, ItemsAt, ItemOk, ItemsText, ItemsHeight;
    var i := SkipWs(s, at + 1);
    if ByteIs(s, i, 0x5d) {
      BracketsFound(s, at, i, 0x5b, 0x5d);
    } else {
      Led(s, at, ValueAt(s, at, depth).value.1, 0x5b);
    }
  }

  lemma ObjectStands(s: seq<Byte>, at: nat, depth: nat)
    requires ByteIs(s, at, 0x7b) && ValueAt(s, at, depth).Some?
    requires ByteIs(s, SkipWs(s, at + 1), 0x7d)
             || (FieldsAt(s, at + 1, depth).Some?
                 && FieldsStand(s, at + 1, FieldsAt(s, at + 1, depth).value.1, FieldsAt(s, at + 1, depth).value.0, depth))
    ensures var (t, end) := ValueAt(s, at, depth).value; Stands(s, at, end, t, depth)
  {
    hide SkipWs, FieldsAt, FieldOk, FieldsText, FieldsHeight;
    var i := SkipWs(s, at + 1);
    if ByteIs(s, i, 0x7d) {
      BracketsFound(s, at, i, 0x7b, 0x7d);
    } else {
      Led(s, at, ValueAt(s, at, depth).value.1, 0x7b);
    }
  }

  lemma {:induction false} ItemStandsAt(s: seq<Byte>, at: nat, depth: nat)
    requires at <= |s| && ItemAt(s, at, depth).Some?
    ensures var (item, end) := ItemAt(s, at, depth).value; ItemStands(s, at, end, item, depth)
    decreases |s| - at, 2
  {
    hide SkipWs, ValueAt, ItemStands, Stands;
    var i := SkipWs(s, at);
    ValueStands(s, i, depth + 1);
    var (val, end) := ValueAt(s, i, depth + 1).value;
    ItemBuilt(s, at, i, end, val, depth);
  }

  lemma {:induction false} ItemsStandAt(s: seq<Byte>, at: nat, depth: nat)
    requires at <= |s| && ItemsAt(s, at, depth).Some?
    ensures var (items, end) := ItemsAt(s, at, depth).value; ItemsStand(s, at, end, items, depth)
    decreases |s| - at, 3
  {
    hide ItemAt, ItemStands, ItemsStand;
    ItemStandsAt(s, at, depth);
    var (item, i) := ItemAt(s, at, depth).value;
    if ByteIs(s, i, 0x5d) {
      ItemsLast(s, at, i, item, depth);
    } else {
      ItemsStandAt(s, i + 1, depth);
      var (rest, end) := ItemsAt(s, i + 1, depth).value;
      ItemsLonger(s, at, i, end, item, rest, depth);
    }
  }

  lemma {:induction false} FieldStandsAt(s: seq<Byte>, at: nat, depth: nat)
    requires at <= |s| && FieldAt(s, at, depth).Some?
    ensures var (f, end) := FieldAt(s, at, depth).value; FieldStands(s, at, end, f, depth)
    decreases |s| - at, 3
  {
    hide SkipWs, SkipString, ItemAt, ItemStands, FieldStands;
    var i := SkipWs(s, at);
    var key := SkipString(s, i + 1).value;
    var j := SkipWs(s, key);
    ItemStandsAt(s, j + 1, depth);
    var (item, end) := ItemAt(s, j + 1, depth).value;
    FieldBuilt(s, at, i, key, j, end, item, depth);
  }

  lemma {:induction false} FieldsStandAt(s: seq<Byte>, at: nat, depth: nat)
    requires at <= |s| && FieldsAt(s, at, depth).Some?
    ensures var (fields, end) := FieldsAt(s, at, depth).value; FieldsStand(s, at, end, fields, depth)
    decreases |s| - at, 4
  {
    hide FieldAt, FieldStands, FieldsStand;
    FieldStandsAt(s, at, depth);
    var (f, i) := FieldAt(s, at, depth).value;
    if ByteIs(s, i, 0x7d) {
      FieldsLast(s, at, i, f, depth);
    } else {
      FieldsStandAt(s, i + 1, depth);
      var (rest, end) := FieldsAt(s, i + 1, depth).value;
      FieldsLonger(s, at, i, end, f, rest, depth);
    }
  }
}
