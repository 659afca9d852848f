/** JSON trees and their compact serialisation, byte for byte (RFC 8259, sections 2 to 7). */
module JsonText {
  newtype Byte = b: int | 0 <= b < 256

  type Bytes = seq<Byte>

  const QUOTE: Byte := 0x22
  const COMMA: Byte := 0x2C
  const COLON: Byte := 0x3A
  const LBRACKET: Byte := 0x5B
  const BACKSLASH: Byte := 0x5C
  const RBRACKET: Byte := 0x5D
  const LBRACE: Byte := 0x7B
  const RBRACE: Byte := 0x7D

  /** Digits, sign, point and exponent letters: the bytes a number may contain. */
  predicate NumberByte(b: Byte) {
    0x30 <= b <= 0x39 || b == 0x2B || b == 0x2D || b == 0x2E || b == 0x45 || b == 0x65
  }

  type NumberText = t: Bytes | |t| > 0 && forall k | 0 <= k < |t| :: NumberByte(t[k]) witness [0x30]

  /** A JSON value; a `Gap` marks a place that `Fill` plugs with a value. */
  datatype Json =
    | Null
    | Bool(value: bool)
    | Number(text: NumberText)
    | Str(content: Bytes)
    | Arr(items: Items)
    | Obj(fields: Fields)
    | Gap(index: nat)

  datatype Items = NoItems | Item(head: Json, tail: Items)

  datatype Fields = NoFields | Field(key: Bytes, value: Json, rest: Fields)

  /* ---------- Serialisation ---------- */

  function HexDigit(n: int): Byte
    requires 0 <= n < 16
  {
    if n < 10 then 0x30 + n as Byte else 0x61 + (n - 10) as Byte
  }

  /** One byte of string content: quotes, backslashes and control characters are escaped, the rest is verbatim. */
  function Escape(b: Byte): Bytes {
    if b == QUOTE || b == BACKSLASH then [BACKSLASH, b]
    else if b == 0x08 then [BACKSLASH, 0x62]
    else if b == 0x09 then [BACKSLASH, 0x74]
    else if b == 0x0A then [BACKSLASH, 0x6E]
    else if b == 0x0C then [BACKSLASH, 0x66]
    else if b == 0x0D then [BACKSLASH, 0x72]
    else if b < 0x20 then [BACKSLASH, 0x75, 0x30, 0x30, HexDigit(b as int / 16), HexDigit(b as int % 16)]
    else [b]
  }

  function EscapeAll(s: Bytes): Bytes {
    if s == [] then [] else Escape(s[0]) + EscapeAll(s[1..])
  }

  function Quoted(s: Bytes): Bytes {
    [QUOTE] + EscapeAll(s) + [QUOTE]
  }

  /** The text of a value without gaps; a gap, which no serialiser meets, counts as empty. */
  function Serialise(v: Json): Bytes {
    match v
    case Null => [0x6E, 0x75, 0x6C, 0x6C]
    case Bool(true) => [0x74, 0x72, 0x75, 0x65]
    case Bool(false) => [0x66, 0x61, 0x6C, 0x73, 0x65]
    case Number(text) => text
    case Str(content) => Quoted(content)
    case Arr(items) => [LBRACKET] + SerialiseItems(items) + [RBRACKET]
    case Obj(fields) => [LBRACE] + SerialiseFields(fields) + [RBRACE]
    case Gap(_) => []
  }

  function SerialiseItems(items: Items): Bytes {
    match items
    case NoItems => []
    case Item(v, NoItems) => Serialise(v)
    case Item(v, tail) => Serialise(v) + [COMMA] + SerialiseItems(tail)
  }

  function SerialiseFields(fields: Fields): Bytes {
    match fields
    case NoFields => []
    case Field(k, v, NoFields) => Quoted(k) + [COLON] + Serialise(v)
    case Field(k, v, rest) => Quoted(k) + [COLON] + Serialise(v) + [COMMA] + SerialiseFields(rest)
  }

  /* ---------- Reading back ---------- */

  function HexValue(b: Byte): int {
    if 0x30 <= b <= 0x39 then b as int - 0x30 else if 0x61 <= b <= 0x66 then b as int - 0x57 else 0
  }

  /** What a reader takes string content for (RFC 8259, section 7), code points below 256 only. */
  function Unescape(s: Bytes): Bytes
    decreases |s|
  {
    if s == [] then []
    else if s[0] != BACKSLASH then [s[0]] + Unescape(s[1..])
    else if |s| == 1 then []
    else if s[1] == 0x62 then [0x08] + Unescape(s[2..])
    else if s[1] == 0x74 then [0x09] + Unescape(s[2..])
    else if s[1] == 0x6E then [0x0A] + Unescape(s[2..])
    else if s[1] == 0x66 then [0x0C] + Unescape(s[2..])
    else if s[1] == 0x72 then [0x0D] + Unescape(s[2..])
    else if s[1] == 0x75 then
      if |s| < 6 then [] else [(HexValue(s[4]) * 16 + HexValue(s[5])) as Byte] + Unescape(s[6..])
    else [s[1]] + Unescape(s[2..])
  }

  lemma OneReadBack(b: Byte, rest: Bytes)
    ensures Unescape(Escape(b) + rest) == [b] + Unescape(rest)
  {
    var e := Escape(b);
    var s := e + rest;
    assert s[|e|..] == rest && s[0] == e[0];
    assert |e| > 1 ==> s[1] == e[1];
    assert |e| == 6 ==> s[4] == e[4] && s[5] == e[5];
  }

  /** String content is read back exactly, and is free of quotes, backslashes and control characters that would not be
      escaped. */
  lemma {:induction false} ContentReadBack(content: Bytes)
    ensures Unescape(EscapeAll(content)) == content
    ensures forall i | 0 <= i < |EscapeAll(content)| :: EscapeAll(content)[i] >= 0x20
  {
    if content != [] {
      OneReadBack(content[0], EscapeAll(content[1..]));
      ContentReadBack(content[1..]);
      assert content == [content[0]] + content[1..];
    }
  }

  /** Arrays and objects of two: brackets or braces around, a comma between, a colon after each key. */
  lemma PairsSpelled(v: Json, w: Json, k: Bytes, l: Bytes)
    ensures Serialise(Arr(Item(v, Item(w, NoItems)))) == [0x5B] + (Serialise(v) + [0x2C] + Serialise(w)) + [0x5D]
    ensures Serialise(Obj(Field(k, v, Field(l, w, NoFields)))) ==
      [0x7B] + (Quoted(k) + [0x3A] + Serialise(v) + [0x2C] + (Quoted(l) + [0x3A] + Serialise(w))) + [0x7D]
  {
    var item, field := Item(w, NoItems), Field(l, w, NoFields);
    assert SerialiseItems(item) == Serialise(w);
    assert SerialiseItems(Item(v, item)) == Serialise(v) + [0x2C] + SerialiseItems(item);
    assert SerialiseFields(field) == Quoted(l) + [0x3A] + Serialise(w);
    assert SerialiseFields(Field(k, v, field)) == Quoted(k) + [0x3A] + Serialise(v) + [0x2C] + SerialiseFields(field);
  }

  /* ---------- Plugging gaps ---------- */

  function Fill(v: Json, plugs: seq<Json>): Json {
    match v
    case Arr(items) => Arr(FillItems(items, plugs))
    case Obj(fields) => Obj(FillFields(fields, plugs))
    case Gap(i) => if i < |plugs| then plugs[i] else v
    case _ => v
  }

  function FillItems(items: Items, plugs: seq<Json>): Items {
    match items
    case NoItems => NoItems
    case Item(v, tail) => Item(Fill(v, plugs), FillItems(tail, plugs))
  }

  function FillFields(fields: Fields, plugs: seq<Json>): Fields {
    match fields
    case NoFields => NoFields
    case Field(k, v, rest) => Field(k, Fill(v, plugs), FillFields(rest, plugs))
  }
}
