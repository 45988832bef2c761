/** Canonical JSON text (sorted keys, no whitespace, ASCII only), and the proof that it can be
    read back in one way only, even with other bytes after it. */
module CanonicalJson {

  type Byte = n: int | 0 <= n < 256
  type Bytes = seq<Byte>

  /** A UTF-16 code unit. */
  type Unit = n: int | 0 <= n < 65536

  /** A JSON value. An object is its members in key order; a number is its text. */
  datatype Json =
    | Null
    | Bool(b: bool)
    | Number(token: Bytes)
    | Text(units: seq<Unit>)
    | Array(items: Items)
    | Object(members: Members)

  datatype Items = NoItems | Items(head: Json, tail: Items)

  datatype Members = NoMembers | Members(key: seq<Unit>, value: Json, rest: Members)

  const QUOTE: Byte := 0x22
  const COMMA: Byte := 0x2C
  const COLON: Byte := 0x3A
  const BACKSLASH: Byte := 0x5C
  const LBRACKET: Byte := 0x5B
  const RBRACKET: Byte := 0x5D
  const LBRACE: Byte := 0x7B
  const RBRACE: Byte := 0x7D

  /** Digits, sign, point and exponent mark. */
  predicate NumberByte(b: Byte) {
    0x30 <= b <= 0x39 || b == 0x2D || b == 0x2B || b == 0x2E || b == 0x65 || b == 0x45
  }

  predicate Valid(v: Json) {
    match v
    case Number(token) => token != [] && forall i :: 0 <= i < |token| ==> NumberByte(token[i])
    case Array(items) => ValidItems(items)
    case Object(members) => ValidMembers(members)
    case _ => true
  }

  predicate ValidItems(items: Items) {
    items.Items? ==> Valid(items.head) && ValidItems(items.tail)
  }

  predicate ValidMembers(members: Members) {
    members.Members? ==> Valid(members.value) && ValidMembers(members.rest)
  }

  // ---------- writing ----------

  function HexDigit(d: int): Byte
    requires 0 <= d < 16
  {
    if d < 10 then 0x30 + d else 0x61 + d - 10
  }

  /** The letter of a two-byte escape, or 0. */
  function ShortEscape(u: Unit): Byte {
    if u == 0x22 then 0x22
    else if u == 0x5C then 0x5C
    else if u == 8 then 0x62
    else if u == 12 then 0x66
    else if u == 10 then 0x6E
    else if u == 13 then 0x72
    else if u == 9 then 0x74
    else 0
  }

  function Escape(u: Unit): Bytes {
    if ShortEscape(u) != 0 then [BACKSLASH, ShortEscape(u)]
    else if 0x20 <= u <= 0x7E then [u]
    else [BACKSLASH, 0x75, HexDigit(u / 16 / 16 / 16), HexDigit(u / 16 / 16 % 16),
          HexDigit(u / 16 % 16), HexDigit(u % 16)]
  }

  function WriteUnits(units: seq<Unit>): Bytes {
    if units == [] then [] else Escape(units[0]) + WriteUnits(units[1..])
  }

  function WriteText(units: seq<Unit>): Bytes {
    [QUOTE] + WriteUnits(units) + [QUOTE]
  }

  const NULL_TEXT: Bytes := [0x6E, 0x75, 0x6C, 0x6C]
  const TRUE_TEXT: Bytes := [0x74, 0x72, 0x75, 0x65]
  const FALSE_TEXT: Bytes := [0x66, 0x61, 0x6C, 0x73, 0x65]

  function Write(v: Json): Bytes {
    match v
    case Null => NULL_TEXT
    case Bool(b) => if b then TRUE_TEXT else FALSE_TEXT
    case Number(token) => token
    case Text(units) => WriteText(units)
    case Array(items) => [LBRACKET] + WriteItems(items) + [RBRACKET]
    case Object(members) => [LBRACE] + WriteMembers(members) + [RBRACE]
  }

  function WriteItems(items: Items): Bytes {
    match items
    case NoItems => []
    case Items(head, tail) => Write(head) + (if tail.NoItems? then [] else [COMMA] + WriteItems(tail))
  }

  function WriteMembers(members: Members): Bytes {
    match members
    case NoMembers => []
    case Members(key, value, rest) =>
      WriteText(key) + [COLON] + Write(value) + (if rest.NoMembers? then [] else [COMMA] + WriteMembers(rest))
  }

  // ---------- strings ----------

  lemma CutEqual(a: Bytes, x: Bytes, b: Bytes, y: Bytes)
    requires a + x == b + y && |a| == |b|
    ensures a == b && x == y
  {
    assert a == (a + x)[..|a|] && b == (b + y)[..|b|];
    assert x == (a + x)[|a|..] && y == (b + y)[|b|..];
  }

  lemma HexDigitInjective(c: int, d: int)
    requires 0 <= c < 16 && 0 <= d < 16 && HexDigit(c) == HexDigit(d)
    ensures c == d
  {
  }

  /** The escapes are a prefix code. */
  lemma EscapeUnique(u: Unit, x: Bytes, w: Unit, y: Bytes)
    requires Escape(u) + x == Escape(w) + y
    ensures u == w && x == y
  {
    var s := Escape(u) + x;
    assert s[0] == Escape(u)[0] == Escape(w)[0];
    if s[0] == BACKSLASH {
      assert s[1] == Escape(u)[1] == Escape(w)[1];
      if s[1] == 0x75 {
        assert |Escape(u)| == 6 && |Escape(w)| == 6;
        CutEqual(Escape(u), x, Escape(w), y);
        HexDigitInjective(u / 16 / 16 / 16, w / 16 / 16 / 16);
        HexDigitInjective(u / 16 / 16 % 16, w / 16 / 16 % 16);
        HexDigitInjective(u / 16 % 16, w / 16 % 16);
        HexDigitInjective(u % 16, w % 16);
      }
    }
    CutEqual(Escape(u), x, Escape(w), y);
  }

  /** A quoted string ends at its own closing quote. */
  lemma {:induction false} UnitsUnique(u: seq<Unit>, x: Bytes, w: seq<Unit>, y: Bytes)
    requires WriteUnits(u) + [QUOTE] + x == WriteUnits(w) + [QUOTE] + y
    ensures u == w && x == y
  {
    hide Escape, HexDigit;
    var s := WriteUnits(u) + [QUOTE] + x;
    UnitsStart(u, x);
    UnitsStart(w, y);
    if u == [] || w == [] {
      assert x == s[1..] && y == s[1..];
    } else {
      var x', y' := WriteUnits(u[1..]) + [QUOTE] + x, WriteUnits(w[1..]) + [QUOTE] + y;
      assert s == Escape(u[0]) + x' && s == Escape(w[0]) + y';
      EscapeUnique(u[0], x', w[0], y');
      UnitsUnique(u[1..], x, w[1..], y);
      assert u == [u[0]] + u[1..] && w == [w[0]] + w[1..];
    }
  }

  lemma {:induction false} UnitsStart(u: seq<Unit>, x: Bytes)
    ensures u == [] <==> (WriteUnits(u) + [QUOTE] + x)[0] == QUOTE
  {
    if u != [] {
      assert (WriteUnits(u) + [QUOTE] + x)[0] == Escape(u[0])[0];
    }
  }

  // ---------- values ----------

  /** What may follow a number. */
  predicate Delimited(rest: Bytes) {
    rest == [] || !NumberByte(rest[0])
  }

  /** How many bytes a number at the front takes. */
  function Leading(s: Bytes): nat {
    if s == [] || !NumberByte(s[0]) then 0 else 1 + Leading(s[1..])
  }

  lemma {:induction false} LeadingToken(token: Bytes, x: Bytes)
    requires forall i :: 0 <= i < |token| ==> NumberByte(token[i])
    requires Delimited(x)
    ensures Leading(token + x) == |token|
  {
    if token == [] {
      assert token + x == x;
    } else {
      assert (token + x)[1..] == token[1..] + x;
      LeadingToken(token[1..], x);
    }
  }

  lemma TokenUnique(a: Bytes, x: Bytes, b: Bytes, y: Bytes)
    requires forall i :: 0 <= i < |a| ==> NumberByte(a[i])
    requires forall i :: 0 <= i < |b| ==> NumberByte(b[i])
    requires Delimited(x) && Delimited(y) && a + x == b + y
    ensures a == b && x == y
  {
    LeadingToken(a, x);
    LeadingToken(b, y);
    CutEqual(a, x, b, y);
  }

  /** The kind of a value shows in its first byte. */
  function Kind(b: Byte): nat {
    if b == 0x6E then 0 else if b == 0x74 then 1 else if b == 0x66 then 2 else if b == QUOTE then 3
    else if b == LBRACKET then 4 else if b == LBRACE then 5 else if NumberByte(b) then 6 else 7
  }

  function KindOf(v: Json): nat {
    match v
    case Null => 0
    case Bool(b) => if b then 1 else 2
    case Text(_) => 3
    case Array(_) => 4
    case Object(_) => 5
    case Number(_) => 6
  }

  lemma {:induction false} StartsByKind(v: Json)
    requires Valid(v)
    ensures Write(v) != [] && Kind(Write(v)[0]) == KindOf(v)
  {
    hide WriteItems, WriteMembers, WriteUnits, ValidItems, ValidMembers;
  }

  /** Reading a value back: two values written before any rests are the same value, when a
      number is followed by something that cannot belong to it. */
  lemma {:induction false} WriteUnique(v: Json, x: Bytes, w: Json, y: Bytes)
    requires Valid(v) && Valid(w) && Write(v) + x == Write(w) + y
    requires v.Number? ==> Delimited(x)
    requires w.Number? ==> Delimited(y)
    ensures v == w && x == y
    decreases v
  {
    hide WriteItems, WriteMembers, WriteText, ValidItems, ValidMembers, NumberByte, Delimited;
    var s := Write(v) + x;
    StartsByKind(v);
    StartsByKind(w);
    assert s[0] == Write(v)[0] == Write(w)[0];
    hide Kind;
    match v {
      case Null => CutEqual(Write(v), x, Write(w), y);
      case Bool(_) => CutEqual(Write(v), x, Write(w), y);
      case Number(token) => TokenUnique(token, x, w.token, y);
      case Text(units) => TextUnique(units, x, w.units, y);
      case Array(items) =>
        assert s[1..] == WriteItems(items) + [RBRACKET] + x;
        assert s[1..] == WriteItems(w.items) + [RBRACKET] + y;
        ItemsUnique(items, x, w.items, y);
      case Object(members) =>
        assert s[1..] == WriteMembers(members) + [RBRACE] + x;
        assert s[1..] == WriteMembers(w.members) + [RBRACE] + y;
        MembersUnique(members, x, w.members, y);
    }
  }

  lemma TextUnique(u: seq<Unit>, x: Bytes, w: seq<Unit>, y: Bytes)
    requires WriteText(u) + x == WriteText(w) + y
    ensures u == w && x == y
  {
    assert (WriteText(u) + x)[1..] == WriteUnits(u) + [QUOTE] + x;
    assert (WriteText(w) + y)[1..] == WriteUnits(w) + [QUOTE] + y;
    UnitsUnique(u, x, w, y);
  }

  /** What follows an item: the closing bracket, or a comma and the other items. */
  function AfterItem(tail: Items, x: Bytes): Bytes {
    if tail.NoItems? then [RBRACKET] + x else [COMMA] + (WriteItems(tail) + [RBRACKET] + x)
  }

  lemma {:induction false} ItemsSplit(a: Items, x: Bytes)
    requires a.Items?
    ensures WriteItems(a) + [RBRACKET] + x == Write(a.head) + AfterItem(a.tail, x)
    ensures Delimited(AfterItem(a.tail, x))
  {
  }

  lemma {:induction false} ItemsStart(a: Items, x: Bytes)
    requires ValidItems(a)
    ensures a.NoItems? <==> (WriteItems(a) + [RBRACKET] + x)[0] == RBRACKET
  {
    if a.Items? {
      StartsByKind(a.head);
      assert (WriteItems(a) + [RBRACKET] + x)[0] == Write(a.head)[0];
    }
  }

  lemma {:induction false} ItemsUnique(a: Items, x: Bytes, b: Items, y: Bytes)
    requires ValidItems(a) && ValidItems(b)
    requires WriteItems(a) + [RBRACKET] + x == WriteItems(b) + [RBRACKET] + y
    ensures a == b && x == y
    decreases a
  {
    hide Write, Valid, WriteItems, Delimited;
    ItemsStart(a, x);
    ItemsStart(b, y);
    if a.Items? && b.Items? {
      ItemsSplit(a, x);
      ItemsSplit(b, y);
      var x', y' := AfterItem(a.tail, x), AfterItem(b.tail, y);
      WriteUnique(a.head, x', b.head, y');
      assert x'[0] == y'[0];
      if a.tail.Items? {
        assert x'[1..] == WriteItems(a.tail) + [RBRACKET] + x && y'[1..] == WriteItems(b.tail) + [RBRACKET] + y;
        ItemsUnique(a.tail, x, b.tail, y);
      } else {
        assert x'[1..] == x && y'[1..] == y;
      }
    } else {
      NoItemsRest(x);
      NoItemsRest(y);
    }
  }

  lemma NoItemsRest(x: Bytes)
    ensures (WriteItems(NoItems) + [RBRACKET] + x)[1..] == x
  {
  }

  /** What follows a member: the closing brace, or a comma and the other members. */
  function AfterMember(rest: Members, x: Bytes): Bytes {
    if rest.NoMembers? then [RBRACE] + x else [COMMA] + (WriteMembers(rest) + [RBRACE] + x)
  }

  lemma {:induction false} MembersSplit(a: Members, x: Bytes)
    requires a.Members?
    ensures WriteMembers(a) + [RBRACE] + x == WriteText(a.key) + ([COLON] + (Write(a.value) + AfterMember(a.rest, x)))
    ensures Delimited(AfterMember(a.rest, x))
  {
    hide Write, WriteText;
  }

  lemma {:induction false} MembersStart(a: Members, x: Bytes)
    ensures a.NoMembers? <==> (WriteMembers(a) + [RBRACE] + x)[0] == RBRACE
  {
    if a.Members? {
      MembersSplit(a, x);
      hide WriteMembers;
      assert (WriteMembers(a) + [RBRACE] + x)[0] == WriteText(a.key)[0] == QUOTE;
    }
  }

  lemma {:induction false} MembersUnique(a: Members, x: Bytes, b: Members, y: Bytes)
    requires ValidMembers(a) && ValidMembers(b)
    requires WriteMembers(a) + [RBRACE] + x == WriteMembers(b) + [RBRACE] + y
    ensures a == b && x == y
    decreases a
  {
    hide Write, Valid, WriteText, WriteMembers, Delimited;
    MembersStart(a, x);
    MembersStart(b, y);
    if a.Members? && b.Members? {
      MembersSplit(a, x);
      MembersSplit(b, y);
      var x2, y2 := AfterMember(a.rest, x), AfterMember(b.rest, y);
      var x1, y1 := Write(a.value) + x2, Write(b.value) + y2;
      TextUnique(a.key, [COLON] + x1, b.key, [COLON] + y1);
      assert ([COLON] + x1)[1..] == x1 && ([COLON] + y1)[1..] == y1;
      WriteUnique(a.value, x2, b.value, y2);
      MembersRest(a, x, b, y);
      if a.rest.Members? {
        MembersUnique(a.rest, x, b.rest, y);
      }
    } else {
      NoMembersRest(x);
      NoMembersRest(y);
    }
  }

  lemma {:induction false} MembersRest(a: Members, x: Bytes, b: Members, y: Bytes)
    requires a.Members? && b.Members? && AfterMember(a.rest, x) == AfterMember(b.rest, y)
    ensures a.rest.NoMembers? <==> b.rest.NoMembers?
    ensures if a.rest.NoMembers? then x == y
            else WriteMembers(a.rest) + [RBRACE] + x == WriteMembers(b.rest) + [RBRACE] + y
  {
    var s := AfterMember(a.rest, x);
    assert s[0] == if a.rest.NoMembers? then RBRACE else COMMA;
    assert s[1..] == if a.rest.NoMembers? then x else WriteMembers(a.rest) + [RBRACE] + x;
    assert s[1..] == if b.rest.NoMembers? then y else WriteMembers(b.rest) + [RBRACE] + y;
  }

  lemma NoMembersRest(x: Bytes)
    ensures (WriteMembers(NoMembers) + [RBRACE] + x)[1..] == x
  {
  }

  // ---------- the text itself ----------

  /** ASCII text as bytes. */
  function Ascii(s: string): (r: Bytes)
    ensures |r| == |s|
  {
    seq(|s|, i requires 0 <= i < |s| => s[i] as int % 256)
  }

  /** How each kind of value is spelled: literals as JSON spells them, numbers by their text, arrays and
      objects with commas and colons and no space. */
  lemma {:induction false} LiteralSpelling(v: Json)
    ensures Write(Null) == Ascii("null") && Write(Bool(true)) == Ascii("true") && Write(Bool(false)) == Ascii("false")
    ensures v.Number? ==> Write(v) == v.token
    ensures Write(Array(NoItems)) == Ascii("[]") && Write(Object(NoMembers)) == Ascii("{}")
  {
  }

  lemma {:induction false} BracketSpelling(items: Items, members: Members)
    ensures Write(Array(items)) == Ascii("[") + WriteItems(items) + Ascii("]")
    ensures Write(Object(members)) == Ascii("{") + WriteMembers(members) + Ascii("}")
  {
    assert Ascii("[") == [LBRACKET] && Ascii("]") == [RBRACKET] && Ascii("{") == [LBRACE] && Ascii("}") == [RBRACE];
    hide Ascii, WriteItems, WriteMembers;
  }

  lemma {:induction false} ItemSpelling(v: Json, items: Items)
    ensures WriteItems(NoItems) == [] && WriteItems(Items(v, NoItems)) == Write(v)
    ensures items.Items? ==> WriteItems(Items(v, items)) == Write(v) + Ascii(",") + WriteItems(items)
  {
    assert Ascii(",") == [COMMA];
    hide Ascii, Write;
    assert Write(v) + [] == Write(v);
    assert Write(v) + ([COMMA] + WriteItems(items)) == Write(v) + [COMMA] + WriteItems(items);
  }

  lemma {:induction false} MemberSpelling(k: seq<Unit>, v: Json, members: Members)
    ensures WriteMembers(NoMembers) == []
    ensures WriteMembers(Members(k, v, NoMembers)) == WriteText(k) + Ascii(":") + Write(v)
    ensures members.Members? ==>
      WriteMembers(Members(k, v, members)) == WriteText(k) + Ascii(":") + Write(v) + Ascii(",") + WriteMembers(members)
  {
    assert Ascii(",") == [COMMA] && Ascii(":") == [COLON];
    hide Ascii, WriteText, Write;
    var pair := WriteText(k) + [COLON] + Write(v);
    assert pair + [] == pair;
    assert pair + ([COMMA] + WriteMembers(members)) == pair + [COMMA] + WriteMembers(members);
  }

  lemma {:induction false} TextSpelling(u: Unit, units: seq<Unit>)
    ensures WriteText(units) == Ascii("\"") + WriteUnits(units) + Ascii("\"")
    ensures WriteUnits([]) == [] && WriteUnits([u] + units) == Escape(u) + WriteUnits(units)
  {
    assert ([u] + units)[1..] == units;
  }

  /** How a character is spelled in a string: printable ASCII as itself, a few by a letter after a
      backslash, and everything else by four hexadecimal digits in lower case. */
  lemma CharacterSpelling(u: Unit)
    ensures u == 0x22 ==> Escape(u) == Ascii("\\\"")
    ensures u == 0x5C ==> Escape(u) == Ascii("\\\\")
    ensures u == 8 ==> Escape(u) == Ascii("\\b")
    ensures u == 9 ==> Escape(u) == Ascii("\\t")
    ensures u == 10 ==> Escape(u) == Ascii("\\n")
    ensures u == 12 ==> Escape(u) == Ascii("\\f")
    ensures u == 13 ==> Escape(u) == Ascii("\\r")
    ensures 0x20 <= u <= 0x7E && u != 0x22 && u != 0x5C ==> Escape(u) == [u]
    ensures (u < 0x20 && u !in {8, 9, 10, 12, 13}) || u > 0x7E ==>
      && |Escape(u)| == 6 && Escape(u)[..2] == Ascii("\\u")
      && u == ((HexValue(Escape(u)[2]) * 16 + HexValue(Escape(u)[3])) * 16 + HexValue(Escape(u)[4])) * 16
              + HexValue(Escape(u)[5])
  {
  }

  /** The value of a hexadecimal digit in lower case. */
  function HexValue(b: Byte): int {
    if '0' as int <= b <= '9' as int then b - '0' as int else b - 'a' as int + 10
  }
}
