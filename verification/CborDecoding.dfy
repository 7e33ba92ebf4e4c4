/**
  Reading CBOR data items from a position of a byte string, as functions: what the decoder of section 3 of RFC 8949
  returns and how far it reads, for every input.
*/
module CborDecoding {
  import opened Bytes
  import opened JsNumbers
  import opened CborValues

  /** A value and the position after it, or the failure that an exception reports. */
  datatype Result<T> = Ok(value: T, next: nat) | Fail

  /** An unsigned number of k bytes. */
  function ReadUint(s: seq<Byte>, pos: nat, k: nat): (r: Result<nat>)
    ensures r.Ok? ==> r.next == pos + k <= |s|
  {
    if pos + k <= |s| then Ok(Number(s[pos..pos + k]), pos + k) else Fail
  }

  /** The argument of an initial byte; -1 stands for an indefinite length. */
  function ReadLength(s: seq<Byte>, pos: nat, info: nat): (r: Result<int>)
    requires pos <= |s|
    ensures r.Ok? ==> pos <= r.next <= |s| && r.value >= -1
  {
    if info < 24 then Ok(info, pos)
    else if info == 24 then Widen(ReadUint(s, pos, 1))
    else if info == 25 then Widen(ReadUint(s, pos, 2))
    else if info == 26 then Widen(ReadUint(s, pos, 4))
    else if info == 27 then
      match ReadUint(s, pos, 4)
      case Fail => Fail
      case Ok(high, p) =>
        match ReadUint(s, p, 4)
        case Fail => Fail
        case Ok(low, q) => Ok(high * 0x1_0000_0000 + low, q)
    else if info == 31 then Ok(-1, pos)
    else Fail
  }

  function Widen(r: Result<nat>): Result<int>
  {
    match r
    case Fail => Fail
    case Ok(n, next) => Ok(n, next)
  }

  function ReadBytes(s: seq<Byte>, pos: nat, length: nat): (r: Result<seq<Byte>>)
    requires pos <= |s|
    ensures r.Ok? ==> pos <= r.next <= |s|
  {
    if pos + length <= |s| then Ok(s[pos..pos + length], pos + length) else Fail
  }

  /** How many bytes a character takes, by its first byte. */
  function CharacterLength(b: Byte): nat
  {
    if b < 0x80 then 1 else if b < 0xe0 then 2 else if b < 0xf0 then 3 else 4
  }

  /** The code point in the bytes of a character. */
  function CodePoint(c: seq<Byte>): (r: nat)
    requires |c| > 0 && |c| == CharacterLength(c[0])
    ensures r < 0x40_0000
  {
    var a: nat := c[0];
    if |c| == 1 then a
    else if |c| == 2 then a % 32 * 64 + Continuation(c, 1)
    else if |c| == 3 then a % 16 * 4096 + Tail(c, 1)
    else a % 16 * 0x4_0000 + Continuation(c, 1) * 4096 + Tail(c, 2)
  }

  /** The last twelve bits of a code point. */
  function Tail(c: seq<Byte>, i: nat): nat
    requires i + 2 == |c|
  {
    Continuation(c, i) * 64 + Continuation(c, i + 1)
  }

  function Continuation(c: seq<Byte>, i: nat): (r: nat)
    requires i < |c|
    ensures r < 64
  {
    c[i] % 64
  }

  /** The units of a code point; the leading bits of 0xd800 absorb the bit of weight 0x800. */
  function Units(code: nat): Text
    requires code < 0x40_0000
  {
    if code < 0x1_0000 then [code]
    else [0xd800 + (code - 0x1_0000) / 1024 % 0x800, 0xdc00 + (code - 0x1_0000) % 1024]
  }

  /** Text in the next length bytes; a character that starts in them is read to its end. */
  function ReadText(s: seq<Byte>, pos: nat, length: int): (r: Result<Text>)
    requires pos <= |s|
    ensures r.Ok? ==> pos <= r.next <= |s|
    decreases |s| - pos
  {
    if length <= 0 then Ok([], pos)
    else if pos == |s| then Fail
    else
      var k := CharacterLength(s[pos]);
      if pos + k > |s| then Fail
      else
        match ReadText(s, pos + k, length - k)
        case Fail => Fail
        case Ok(rest, next) => Ok(Units(CodePoint(s[pos..pos + k])) + rest, next)
  }

  /** The length of the next chunk of an indefinite string, -1 at its end. */
  function ReadChunkLength(s: seq<Byte>, pos: nat, major: nat): (r: Result<int>)
    requires pos <= |s|
    ensures r.Ok? ==> pos < r.next <= |s| && r.value >= -1
  {
    if pos == |s| then Fail
    else if s[pos] == 0xff then Ok(-1, pos + 1)
    else
      match ReadLength(s, pos + 1, s[pos] % 32)
      case Fail => Fail
      case Ok(length, next) => if length < 0 || s[pos] / 32 != major then Fail else Ok(length, next)
  }

  function ReadBinaryChunks(s: seq<Byte>, pos: nat): (r: Result<seq<Byte>>)
    requires pos <= |s|
    ensures r.Ok? ==> pos < r.next <= |s|
    decreases |s| - pos
  {
    match ReadChunkLength(s, pos, 2)
    case Fail => Fail
    case Ok(length, p) =>
      if length < 0 then Ok([], p)
      else
        match ReadBytes(s, p, length)
        case Fail => Fail
        case Ok(chunk, q) =>
          match ReadBinaryChunks(s, q)
          case Fail => Fail
          case Ok(rest, next) => Ok(chunk + rest, next)
  }

  function ReadTextChunks(s: seq<Byte>, pos: nat): (r: Result<Text>)
    requires pos <= |s|
    ensures r.Ok? ==> pos < r.next <= |s|
    decreases |s| - pos
  {
    match ReadChunkLength(s, pos, 3)
    case Fail => Fail
    case Ok(length, p) =>
      if length < 0 then Ok([], p)
      else
        match ReadText(s, p, length)
        case Fail => Fail
        case Ok(chunk, q) =>
          match ReadTextChunks(s, q)
          case Fail => Fail
          case Ok(rest, next) => Ok(chunk + rest, next)
  }

  /** The name whose assignment sets the prototype of an object and no property of its own. */
  const PROTO: Text := [95, 95, 112, 114, 111, 116, 111, 95, 95]

  /** Assignment to a property: an existing one keeps its place, a new one comes last. */
  function Put(fields: seq<Field>, key: Text, value: Value): seq<Field>
  {
    if key == PROTO then fields
    else if fields == [] then [Field(key, value)]
    else if fields[0].key == key then [Field(key, value)] + fields[1..]
    else [fields[0]] + Put(fields[1..], key, value)
  }

  /** The name that JavaScript converts a value to when it is used as the key of an object, if it has one. */
  datatype Name = Name(text: Text) | NoName

  type Naming = Value -> Name

  /** Strings are their own names. */
  function KeyName(key: Value, naming: Naming): Name
  {
    if key.String? then Name(key.units) else naming(key)
  }

  /** An integer, after all roundings; one that is not safe is kept as the bytes of its head. */
  function Integer(major: nat, argument: nat): Value
    requires major < 2
  {
    var length := Rounded(argument);
    var size := if major == 0 then length else Rounded(1 + length);
    if size > POW_2_53 then Float(Head(major, argument)) else if major == 0 then Int(size) else Int(-size)
  }

  lemma SafeInteger(major: nat, argument: nat)
    requires major < 2 && argument + major <= POW_2_53
    ensures Integer(major, argument) == if major == 0 then Int(argument) else Int(-1 - argument)
  {
    hide Rounded;
    RoundedExact(argument);
    RoundedExact(1 + argument);
  }

  /** One data item. */
  function ReadItem(s: seq<Byte>, pos: nat, naming: Naming): (r: Result<Value>)
    requires pos <= |s|
    ensures r.Ok? ==> pos < r.next <= |s|
    decreases |s| - pos, 0
  {
    if pos == |s| then Fail
    else
      var major, info := s[pos] / 32, s[pos] % 32;
      if major == 7 && 25 <= info <= 27 then
        match ReadBytes(s, pos + 1, if info == 25 then 2 else if info == 26 then 4 else 8)
        case Fail => Fail
        case Ok(bits, next) => Ok(Float(bits), next)
      else
        match ReadLength(s, pos + 1, info)
        case Fail => Fail
        case Ok(length, p) =>
          if length < 0 && (major < 2 || 6 < major) then Fail else ReadContent(s, p, major, length, naming)
  }

  /** What follows the head of a data item. */
  function ReadContent(s: seq<Byte>, pos: nat, major: nat, length: int, naming: Naming): (r: Result<Value>)
    requires pos <= |s| && major < 8 && length >= -1 && (length >= 0 || 2 <= major <= 6)
    ensures r.Ok? ==> pos <= r.next <= |s|
    decreases |s| - pos, 2
  {
    match major
    case 0 => Ok(Integer(0, length), pos)
    case 1 => Ok(Integer(1, length), pos)
    case 2 =>
      (match if length < 0 then ReadBinaryChunks(s, pos) else ReadBytes(s, pos, length)
       case Fail => Fail
       case Ok(bytes, next) => Ok(Binary(bytes), next))
    case 3 =>
      (match if length < 0 then ReadTextChunks(s, pos) else ReadText(s, pos, length)
       case Fail => Fail
       case Ok(units, next) => Ok(String(units), next))
    case 4 =>
      (match if length < 0 then ReadItemsToBreak(s, pos, naming)
             else if length < 0x1_0000_0000 then ReadItems(s, pos, length, naming) else Fail
       case Fail => Fail
       case Ok(items, next) => Ok(Array(items), next))
    case 5 =>
      (match ReadFields(s, pos, length, [], naming)
       case Fail => Fail
       case Ok(fields, next) => Ok(Object(fields), next))
    case 6 => ReadItem(s, pos, naming)
    case _ =>
      Ok(if length == 20 then False else if length == 21 then True else if length == 22 then Null else Undefined, pos)
  }

  function ReadItems(s: seq<Byte>, pos: nat, n: nat, naming: Naming): (r: Result<seq<Value>>)
    requires pos <= |s|
    ensures r.Ok? ==> pos <= r.next <= |s|
    decreases |s| - pos, 1
  {
    if n == 0 then Ok([], pos)
    else
      match ReadItem(s, pos, naming)
      case Fail => Fail
      case Ok(v, p) =>
        match ReadItems(s, p, n - 1, naming)
        case Fail => Fail
        case Ok(rest, next) => Ok([v] + rest, next)
  }

  function ReadItemsToBreak(s: seq<Byte>, pos: nat, naming: Naming): (r: Result<seq<Value>>)
    requires pos <= |s|
    ensures r.Ok? ==> pos <= r.next <= |s|
    decreases |s| - pos, 1
  {
    if pos == |s| then Fail
    else if s[pos] == 0xff then Ok([], pos + 1)
    else
      match ReadItem(s, pos, naming)
      case Fail => Fail
      case Ok(v, p) =>
        match ReadItemsToBreak(s, p, naming)
        case Fail => Fail
        case Ok(rest, next) => Ok([v] + rest, next)
  }

  /** The remaining n entries of an object, or all up to the break if n is negative, added to the fields so far. */
  function ReadFields(s: seq<Byte>, pos: nat, n: int, fields: seq<Field>, naming: Naming): (r: Result<seq<Field>>)
    requires pos <= |s|
    ensures r.Ok? ==> pos <= r.next <= |s|
    decreases |s| - pos, 1
  {
    if n == 0 then Ok(fields, pos)
    else if n < 0 && pos == |s| then Fail
    else if n < 0 && s[pos] == 0xff then Ok(fields, pos + 1)
    else
      match ReadItem(s, pos, naming)
      case Fail => Fail
      case Ok(key, p) =>
        match ReadItem(s, p, naming)
        case Fail => Fail
        case Ok(value, q) =>
          match KeyName(key, naming)
          case NoName => Fail
          case Name(k) => ReadFields(s, q, if n < 0 then n else n - 1, Put(fields, k, value), naming)
  }

  /** A whole input is one data item and nothing after it. */
  function Decode(s: seq<Byte>, naming: Naming): Result<Value>
  {
    match ReadItem(s, 0, naming)
    case Fail => Fail
    case Ok(v, next) => if next == |s| then Ok(v, next) else Fail
  }
}
