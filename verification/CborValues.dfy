/**
  The values that the CBOR codec handles, and the byte strings that encode them: section 3 of RFC 8949, with the
  shortest heads as in section 4.1.
*/
module CborValues {
  import opened Bytes
  import opened JsNumbers

  /** A code unit of a JavaScript string. */
  type Unit = c: int | 0 <= c < 0x1_0000

  type Text = seq<Unit>

  /** The largest size of the buffer of an encoder. */
  const LIMIT: nat := 0x4000_0000

  /** The integers that a double holds exactly without gaps. */
  type SafeInt = n: int | -0x20_0000_0000_0000 <= n <= 0x20_0000_0000_0000

  /**
    Other numbers than safe integers are kept as opaque bytes: those of their floating-point form, or in the decoder
    those that they were read from.  Objects list their own properties in order.
  */
  datatype Value =
    | False
    | True
    | Null
    | Undefined
    | Int(n: SafeInt)
    | Float(bits: seq<Byte>)
    | String(units: Text)
    | Binary(bytes: seq<Byte>)
    | Array(items: seq<Value>)
    | Object(fields: seq<Field>)

  datatype Field = Field(key: Text, value: Value)

  // ---------------------------------------------------------------------------------------------------------
  // Numbers in network byte order
  // ---------------------------------------------------------------------------------------------------------

  function BigEndian(n: nat, k: nat): (r: seq<Byte>)
    ensures |r| == k
  {
    if k == 0 then [] else BigEndian(n / 256, k - 1) + [n % 256]
  }

  function Number(s: seq<Byte>): nat
  {
    if s == [] then 0 else 256 * Number(s[..|s| - 1]) + s[|s| - 1]
  }

  function Pow256(k: nat): nat
  {
    if k == 0 then 1 else 256 * Pow256(k - 1)
  }

  lemma {:induction false} NumberOfBigEndian(n: nat, k: nat)
    requires n < Pow256(k)
    ensures Number(BigEndian(n, k)) == n
  {
    if k != 0 {
      NumberOfBigEndian(n / 256, k - 1);
      assert BigEndian(n, k)[..k - 1] == BigEndian(n / 256, k - 1);
    }
  }

  // ---------------------------------------------------------------------------------------------------------
  // Encoding
  // ---------------------------------------------------------------------------------------------------------

  /** The initial byte of a data item and its argument, in the shortest form. */
  function Head(major: nat, length: nat): (r: seq<Byte>)
    requires major < 8
    ensures 0 < |r| <= 9
  {
    if length < 24 then [major * 32 + length]
    else if length < 0x100 then [major * 32 + 24] + BigEndian(length, 1)
    else if length < 0x1_0000 then [major * 32 + 25] + BigEndian(length, 2)
    else if length < 0x1_0000_0000 then [major * 32 + 26] + BigEndian(length, 4)
    else [major * 32 + 27] + (BigEndian(length / 0x1_0000_0000, 4) + BigEndian(length % 0x1_0000_0000, 4))
  }

  /** The bytes of one character that starts with the unit c and may go on with the unit d. */
  function Character(c: Unit, d: Unit): (r: seq<Byte>)
    ensures |r| > 0
  {
    if c < 0x80 then [c]
    else if c < 0x800 then TwoBytes(c)
    else if c < 0xd800 then ThreeBytes(c)
    else FourBytes(Joined(c, d))
  }

  /** The code point whose bits above 0x10000 are ten bits of each of two units. */
  function Joined(c: Unit, d: Unit): (r: nat)
    ensures r < 0x11_0000
  {
    c % 1024 * 1024 + d % 1024 + 0x1_0000
  }

  function TwoBytes(c: nat): seq<Byte>
    requires c < 0x800
  {
    [0xc0 + c / 64, 0x80 + c % 64]
  }

  function ThreeBytes(c: nat): seq<Byte>
    requires c < 0x1_0000
  {
    [0xe0 + c / 4096, 0x80 + c / 64 % 64, 0x80 + c % 64]
  }

  function FourBytes(c: nat): seq<Byte>
    requires c < 0x11_0000
  {
    [0xf0 + c / 0x4_0000, 0x80 + c / 4096 % 64, 0x80 + c / 64 % 64, 0x80 + c % 64]
  }

  /** How many units a character takes: every unit from 0xd800 up is read as the first of a pair. */
  function Width(u: Text): nat
    requires u != []
  {
    if u[0] < 0xd800 || |u| == 1 then 1 else 2
  }

  function Second(u: Text): Unit
    requires u != []
  {
    if |u| > 1 then u[1] else 0
  }

  function EncodeText(u: Text): seq<Byte>
  {
    if u == [] then [] else Character(u[0], Second(u)) + EncodeText(u[Width(u)..])
  }

  function EncodeValue(v: Value): (r: seq<Byte>)
    ensures |r| > 0
    decreases v, 0
  {
    match v
    case False => [0xf4]
    case True => [0xf5]
    case Null => [0xf6]
    case Undefined => [0xf7]
    case Int(n) => if n >= 0 then Head(0, n) else Head(1, -(n + 1))
    case Float(bits) => [0xfb] + bits
    case String(units) => EncodeString(units)
    case Binary(bytes) => Head(2, |bytes|) + bytes
    case Array(items) => Head(4, |items|) + EncodeItems(items)
    case Object(fields) => Head(5, |fields|) + EncodeFields(fields)
  }

  function EncodeString(u: Text): (r: seq<Byte>)
    ensures |r| > 0
  {
    Head(3, |EncodeText(u)|) + EncodeText(u)
  }

  function EncodeItems(items: seq<Value>): (r: seq<Byte>)
    ensures |r| >= |items|
    decreases items, 0
  {
    if items == [] then [] else EncodeValue(items[0]) + EncodeItems(items[1..])
  }

  function EncodeFields(fields: seq<Field>): (r: seq<Byte>)
    ensures |r| >= |fields|
    decreases fields, 0
  {
    if fields == [] then []
    else EncodeString(fields[0].key) + EncodeValue(fields[0].value) + EncodeFields(fields[1..])
  }

  /** Floating-point numbers have eight bytes. */
  ghost predicate Doubles(v: Value)
    decreases v
  {
    match v
    case Float(bits) => |bits| == 8
    case Array(items) => forall i :: 0 <= i < |items| ==> Doubles(items[i])
    case Object(fields) => forall i :: 0 <= i < |fields| ==> Doubles(fields[i].value)
    case _ => true
  }
}
