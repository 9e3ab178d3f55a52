/** JSON's grammar (sections 2 to 7 of RFC 8259) as trees that hold every byte of a text, their whitespace too, and
    the check that reads one. A string's bytes past ASCII are any; where the text is UTF-8 they are characters. */
module JsonText {
  import opened Bytes
  import opened Prelude

  /** Arrays and objects may be nested so deep: a value inside that many is the deepest. */
  const MAX_DEPTH: nat := 128

  predicate Ws(b: Byte) {
    b == 0x20 || b == 0x09 || b == 0x0a || b == 0x0d
  }

  predicate Digit(b: Byte) {
    0x30 <= b <= 0x39
  }

  predicate Hex(b: Byte) {
    Digit(b) || 0x61 <= b <= 0x66 || 0x41 <= b <= 0x46
  }

  /** The letters that follow a backslash and stand alone: " \ / b f n r t. */
  predicate Short(b: Byte) {
    b == 0x22 || b == 0x5c || b == 0x2f || b == 0x62 || b == 0x66 || b == 0x6e || b == 0x72 || b == 0x74
  }

  predicate AllWs(t: seq<Byte>) {
    forall k :: 0 <= k < |t| ==> Ws(t[k])
  }

  predicate AllDigits(t: seq<Byte>) {
    forall k :: 0 <= k < |t| ==> Digit(t[k])
  }

  // The grammar

  /** The bytes between a string's quotes: no quote, backslash or control character but in an escape. */
  predicate StringOk(raw: seq<Byte>) {
    if raw == [] then true
    else if raw[0] == 0x5c then
      if |raw| >= 2 && Short(raw[1]) then StringOk(raw[2..])
      else |raw| >= 6 && raw[1] == 0x75 && Hex(raw[2]) && Hex(raw[3]) && Hex(raw[4]) && Hex(raw[5]) && StringOk(raw[6..])
    else raw[0] >= 0x20 && raw[0] != 0x22 && StringOk(raw[1..])
  }

  /** A number: its sign, its whole part, what follows a point, and its exponent from the letter on. */
  datatype Num = Num(neg: bool, whole: seq<Byte>, frac: Option<seq<Byte>>, exp: Option<Exp>)

  datatype Exp = Exp(letter: Byte, sign: Option<Byte>, digits: seq<Byte>)

  predicate NumOk(n: Num) {
    && n.whole != [] && AllDigits(n.whole) && (|n.whole| > 1 ==> n.whole[0] != 0x30)
    && FracOk(n.frac) && ExpOk(n.exp)
  }

  predicate FracOk(f: Option<seq<Byte>>) {
    f.Some? ==> f.value != [] && AllDigits(f.value)
  }

  predicate ExpOk(e: Option<Exp>) {
    e.Some? ==> && (e.value.letter == 0x65 || e.value.letter == 0x45)
                && (e.value.sign.Some? ==> e.value.sign.value == 0x2b || e.value.sign.value == 0x2d)
                && e.value.digits != [] && AllDigits(e.value.digits)
  }

  function FracText(f: Option<seq<Byte>>): seq<Byte> {
    if f.Some? then [0x2e] + f.value else []
  }

  function ExpText(e: Option<Exp>): seq<Byte> {
    if e.None? then [] else [e.value.letter] + (if e.value.sign.Some? then [e.value.sign.value] else []) + e.value.digits
  }

  function NumText(n: Num): seq<Byte> {
    (if n.neg then [0x2d] else []) + n.whole + FracText(n.frac) + ExpText(n.exp)
  }

  const NULL: seq<Byte> := [0x6e, 0x75, 0x6c, 0x6c]
  const TRUE: seq<Byte> := [0x74, 0x72, 0x75, 0x65]
  const FALSE: seq<Byte> := [0x66, 0x61, 0x6c, 0x73, 0x65]

  /** A value's text, whole: an empty array or object may hold whitespace, and each item and field has its own. */
  datatype Node =
    | Word(w: seq<Byte>)
    | Number(n: Num)
    | Str(raw: seq<Byte>)
    | Arr(ws: seq<Byte>, items: seq<Item>)
    | Obj(ws: seq<Byte>, fields: seq<Field>)

  datatype Item = Item(before: seq<Byte>, val: Node, after: seq<Byte>)

  datatype Field = Field(before: seq<Byte>, key: seq<Byte>, afterKey: seq<Byte>, item: Item)

  ghost predicate NodeOk(t: Node)
    decreases t, 0
  {
    match t
    case Word(w) => w == NULL || w == TRUE || w == FALSE
    case Number(n) => NumOk(n)
    case Str(raw) => StringOk(raw)
    case Arr(ws, items) => AllWs(ws) && (items != [] ==> ws == []) && forall k :: 0 <= k < |items| ==> ItemOk(items[k])
    case Obj(ws, fields) => AllWs(ws) && (fields != [] ==> ws == []) && forall k :: 0 <= k < |fields| ==> FieldOk(fields[k])
  }

  ghost predicate ItemOk(i: Item)
    decreases i, 1
  {
    AllWs(i.before) && AllWs(i.after) && NodeOk(i.val)
  }

  ghost predicate FieldOk(f: Field)
    decreases f, 1
  {
    AllWs(f.before) && StringOk(f.key) && AllWs(f.afterKey) && ItemOk(f.item)
  }

  function Quoted(raw: seq<Byte>): seq<Byte> {
    [0x22] + raw + [0x22]
  }

  function Text(t: Node): (s: seq<Byte>)
    decreases t, 0
  {
    match t
    case Word(w) => w
    case Number(n) => NumText(n)
    case Str(raw) => Quoted(raw)
    case Arr(ws, items) => if items == [] then [0x5b] + ws + [0x5d] else [0x5b] + ItemsText(items)
    case Obj(ws, fields) => if fields == [] then [0x7b] + ws + [0x7d] else [0x7b] + FieldsText(fields)
  }

  function ItemText(i: Item): seq<Byte>
    decreases i, 1
  {
    i.before + Text(i.val) + i.after
  }

  /** Items with a comma after each but the last, and a bracket after that. */
  function ItemsText(items: seq<Item>): (s: seq<Byte>)
    requires items != []
    decreases items, 0
  {
    ItemText(items[0]) + if |items| == 1 then [0x5d] else [0x2c] + ItemsText(items[1..])
  }

  function FieldText(f: Field): seq<Byte>
    decreases f, 1
  {
    f.before + Quoted(f.key) + f.afterKey + [0x3a] + ItemText(f.item)
  }

  function FieldsText(fields: seq<Field>): (s: seq<Byte>)
    requires fields != []
    decreases fields, 0
  {
    FieldText(fields[0]) + if |fields| == 1 then [0x7d] else [0x2c] + FieldsText(fields[1..])
  }

  /** How deep a value nests: an empty array does not. */
  function Height(t: Node): nat
    decreases t, 0
  {
    match t
    case Arr(_, items) => if items == [] then 0 else 1 + ItemsHeight(items)
    case Obj(_, fields) => if fields == [] then 0 else 1 + FieldsHeight(fields)
    case _ => 0
  }

  function ItemsHeight(items: seq<Item>): nat
    decreases items, 0
  {
    if items == [] then 0 else Max(Height(items[0].val), ItemsHeight(items[1..]))
  }

  function FieldsHeight(fields: seq<Field>): nat
    decreases fields, 0
  {
    if fields == [] then 0 else Max(Height(fields[0].item.val), FieldsHeight(fields[1..]))
  }

  // The check, and the tree it finds

  function SkipWs(s: seq<Byte>, at: nat): (end: nat)
    ensures at <= |s| ==> at <= end <= |s|
    ensures at > |s| ==> end == at
    decreases |s| - at
  {
    if at < |s| && Ws(s[at]) then SkipWs(s, at + 1) else at
  }

  function Digits(s: seq<Byte>, at: nat): (n: nat)
    ensures at <= |s| ==> at + n <= |s|
    ensures at > |s| ==> n == 0
    decreases |s| - at
  {
    if at < |s| && Digit(s[at]) then 1 + Digits(s, at + 1) else 0
  }

  predicate Hex4(s: seq<Byte>, at: nat) {
    at + 4 <= |s| && Hex(s[at]) && Hex(s[at + 1]) && Hex(s[at + 2]) && Hex(s[at + 3])
  }

  /** Past the quote that ends the string whose bytes go on at `at`. */
  function SkipString(s: seq<Byte>, at: nat): (r: Option<nat>)
    ensures r.Some? ==> at < r.value <= |s|
    decreases |s| - at
  {
    if at >= |s| then None
    else if s[at] == 0x22 then Some(at + 1)
    else if s[at] == 0x5c then
      if at + 1 >= |s| then None
      else if Short(s[at + 1]) then SkipString(s, at + 2)
      else if s[at + 1] == 0x75 && Hex4(s, at + 2) then SkipString(s, at + 6)
      else None
    else if s[at] < 0x20 then None
    else SkipString(s, at + 1)
  }

  function Slice(s: seq<Byte>, i: nat, j: nat): (r: seq<Byte>)
    ensures i <= j <= |s| ==> r == s[i..j]
  {
    if i <= j <= |s| then s[i..j] else []
  }

  function ByteIs(s: seq<Byte>, at: nat, b: Byte): bool {
    at < |s| && s[at] == b
  }

  function FracAt(s: seq<Byte>, at: nat): (r: Option<(Option<seq<Byte>>, nat)>)
    ensures r.Some? ==> at <= r.value.1 && (at <= |s| ==> r.value.1 <= |s|)
  {
    if !ByteIs(s, at, 0x2e) then Some((None, at))
    else
      var n := Digits(s, at + 1);
      if n == 0 then None else Some((Some(s[at + 1..at + 1 + n]), at + 1 + n))
  }

  function ExpAt(s: seq<Byte>, at: nat): (r: Option<(Option<Exp>, nat)>)
    ensures r.Some? ==> at <= r.value.1 && (at <= |s| ==> r.value.1 <= |s|)
  {
    if !ByteIs(s, at, 0x65) && !ByteIs(s, at, 0x45) then Some((None, at))
    else
      var sign := if ByteIs(s, at + 1, 0x2b) || ByteIs(s, at + 1, 0x2d) then Some(s[at + 1]) else None;
      var from := if sign.Some? then at + 2 else at + 1;
      var n := Digits(s, from);
      if n == 0 then None else Some((Some(Exp(s[at], sign, s[from..from + n])), from + n))
  }

  function NumberAt(s: seq<Byte>, at: nat): (r: Option<(Num, nat)>)
    ensures r.Some? ==> at < r.value.1 <= |s|
  {
    var neg := ByteIs(s, at, 0x2d);
    var from := if neg then at + 1 else at;
    var n := Digits(s, from);
    if n == 0 || (n > 1 && s[from] == 0x30) then None
    else
      match FracAt(s, from + n)
      case None => None
      case Some((frac, i)) =>
        match ExpAt(s, i)
        case None => None
        case Some((exp, j)) => Some((Num(neg, s[from..from + n], frac, exp), j))
  }

  function WordAt(s: seq<Byte>, at: nat, w: seq<Byte>): (r: Option<(Node, nat)>)
    ensures r.Some? ==> r.value.1 == at + |w| <= |s|
  {
    if at + |w| <= |s| && s[at..at + |w|] == w then Some((Word(w), at + |w|)) else None
  }

  /** The value at `at`, inside `depth` others, and where it ends. */
  function ValueAt(s: seq<Byte>, at: nat, depth: nat): (r: Option<(Node, nat)>)
    ensures r.Some? ==> at < r.value.1 <= |s|
    decreases |s| - at, 1
  {
    if depth > MAX_DEPTH || at >= |s| then None
    else if s[at] == 0x6e then WordAt(s, at, NULL)
    else if s[at] == 0x74 then WordAt(s, at, TRUE)
    else if s[at] == 0x66 then WordAt(s, at, FALSE)
    else if s[at] == 0x22 then
      match SkipString(s, at + 1)
      case None => None
      case Some(end) => Some((Str(Slice(s, at + 1, end - 1)), end))
    else if s[at] == 0x5b then
      var i := SkipWs(s, at + 1);
      if ByteIs(s, i, 0x5d) then Some((Arr(s[at + 1..i], []), i + 1))
      else
        match ItemsAt(s, at + 1, depth)
        case None => None
        case Some((items, end)) => Some((Arr([], items), end))
    else if s[at] == 0x7b then
      var i := SkipWs(s, at + 1);
      if ByteIs(s, i, 0x7d) then Some((Obj(s[at + 1..i], []), i + 1))
      else
        match FieldsAt(s, at + 1, depth)
        case None => None
        case Some((fields, end)) => Some((Obj([], fields), end))
    else
      match NumberAt(s, at)
      case None => None
      case Some((n, end)) => Some((Number(n), end))
  }

  /** An item from the whitespace before it, and past the whitespace after it. */
  function ItemAt(s: seq<Byte>, at: nat, depth: nat): (r: Option<(Item, nat)>)
    requires at <= |s|
    ensures r.Some? ==> at < r.value.1 <= |s|
    decreases |s| - at, 2
  {
    var i := SkipWs(s, at);
    match ValueAt(s, i, depth + 1)
    case None => None
    case Some((val, end)) =>
      var j := SkipWs(s, end);
      Some((Item(s[at..i], val, s[end..j]), j))
  }

  function ItemsAt(s: seq<Byte>, at: nat, depth: nat): (r: Option<(seq<Item>, nat)>)
    requires at <= |s|
    ensures r.Some? ==> at < r.value.1 <= |s| && r.value.0 != []
    decreases |s| - at, 3
  {
    match ItemAt(s, at, depth)
    case None => None
    case Some((item, i)) =>
      if ByteIs(s, i, 0x5d) then Some(([item], i + 1))
      else if ByteIs(s, i, 0x2c) then
        match ItemsAt(s, i + 1, depth)
        case None => None
        case Some((rest, end)) => Some(([item] + rest, end))
      else None
  }

  function FieldAt(s: seq<Byte>, at: nat, depth: nat): (r: Option<(Field, nat)>)
    requires at <= |s|
    ensures r.Some? ==> at < r.value.1 <= |s|
    decreases |s| - at, 3
  {
    var i := SkipWs(s, at);
    if !ByteIs(s, i, 0x22) then None
    else
      match SkipString(s, i + 1)
      case None => None
      case Some(key) =>
        var j := SkipWs(s, key);
        if !ByteIs(s, j, 0x3a) then None
        else
          match ItemAt(s, j + 1, depth)
          case None => None
          case Some((item, end)) => Some((Field(s[at..i], Slice(s, i + 1, key - 1), s[key..j], item), end))
  }

  function FieldsAt(s: seq<Byte>, at: nat, depth: nat): (r: Option<(seq<Field>, nat)>)
    requires at <= |s|
    ensures r.Some? ==> at < r.value.1 <= |s| && r.value.0 != []
    decreases |s| - at, 4
  {
    match FieldAt(s, at, depth)
    case None => None
    case Some((field, i)) =>
      if ByteIs(s, i, 0x7d) then Some(([field], i + 1))
      else if ByteIs(s, i, 0x2c) then
        match FieldsAt(s, i + 1, depth)
        case None => None
        case Some((rest, end)) => Some(([field] + rest, end))
      else None
  }
}
