/**
  The decoder: a recursive parser that advances an offset over the input.  Each method reports an exception by a flag
  and is proved equal to the reading functions of CborDecoding.
*/
module CborDecoder {
  import opened Bytes
  import opened CborValues
  import opened CborDecoding
  import CborEncoder
  import CborRoundTrip

  /** What a method returned and how far it read, or that it failed, as a result says. */
  ghost predicate Gives<T>(ok: bool, value: T, next: nat, r: Result<T>)
  {
    ok == r.Ok? && (ok ==> value == r.value && next == r.next)
  }

  /** A result that continues what was collected before it. */
  ghost function After<T>(before: seq<T>, r: Result<seq<T>>): Result<seq<T>>
  {
    match r
    case Fail => Fail
    case Ok(rest, next) => Ok(before + rest, next)
  }

  lemma AfterAfter<T>(a: seq<T>, b: seq<T>, r: Result<seq<T>>)
    ensures After(a, After(b, r)) == After(a + b, r)
  {
    if r.Ok? {
      assert a + (b + r.value) == a + b + r.value;
    }
  }

  lemma AfterNothing<T>(r: Result<seq<T>>)
    ensures After([], r) == r
  {
    if r.Ok? {
      assert [] + r.value == r.value;
    }
  }

  lemma AfterAll<T>(a: seq<T>, next: nat)
    ensures After(a, Ok([], next)) == Ok(a, next)
  {
    assert a + [] == a;
  }

  class Decoder {
    const data: seq<Byte>
    const naming: Naming
    var offset: nat

    constructor (data: seq<Byte>, naming: Naming)
      ensures this.data == data && this.naming == naming && offset == 0
    {
      this.data := data;
      this.naming := naming;
      offset := 0;
    }

    method ReadUint8() returns (ok: bool, value: Byte)
      requires offset <= |data|
      modifies this
      ensures offset <= |data|
      ensures ok <==> old(offset) < |data|
      ensures ok ==> value == data[old(offset)] && offset == old(offset) + 1
      ensures !ok ==> offset == old(offset)
    {
      ok, value := offset < |data|, 0;
      if ok {
        value := data[offset];
        offset := offset + 1;
      }
    }

    /** A number of k bytes, the most significant first. */
    method ReadUint(k: nat) returns (ok: bool, value: nat)
      requires offset <= |data|
      modifies this
      ensures offset <= |data|
      ensures Gives(ok, value, offset, CborDecoding.ReadUint(data, old(offset), k))
    {
      ok, value := offset + k <= |data|, 0;
      if ok {
        var start := offset;
        for i := 0 to k
          invariant value == Number(data[start..start + i])
        {
          assert data[start..start + i + 1] == data[start..start + i] + [data[start + i]];
          value := 256 * value + data[start + i];
        }
        offset := offset + k;
      }
    }

    method ReadArrayBuffer(length: nat) returns (ok: bool, value: seq<Byte>)
      requires offset <= |data|
      modifies this
      ensures offset <= |data|
      ensures Gives(ok, value, offset, ReadBytes(data, old(offset), length))
    {
      ok, value := offset + length <= |data|, [];
      if ok {
        value := data[offset..offset + length];
        offset := offset + length;
      }
    }

    /** Whether the next byte is the break, which is then read. */
    method ReadBreak() returns (ok: bool, value: bool)
      requires offset <= |data|
      modifies this
      ensures offset <= |data|
      ensures ok <==> old(offset) < |data|
      ensures ok ==> value == (data[old(offset)] == 0xff) && offset == old(offset) + if value then 1 else 0
    {
      ok, value := offset < |data|, false;
      if ok && data[offset] == 0xff {
        offset := offset + 1;
        value := true;
      }
    }

    method ReadLength(additionalInformation: nat) returns (ok: bool, value: int)
      requires offset <= |data|
      modifies this
      ensures offset <= |data|
      ensures Gives(ok, value, offset, CborDecoding.ReadLength(data, old(offset), additionalInformation))
    {
      hide CborDecoding.ReadUint;
      ok, value := true, -1;
      if additionalInformation < 24 {
        value := additionalInformation;
      } else if additionalInformation == 24 {
        ok, value := ReadUint(1);
      } else if additionalInformation == 25 {
        ok, value := ReadUint(2);
      } else if additionalInformation == 26 {
        ok, value := ReadUint(4);
      } else if additionalInformation == 27 {
        ok, value := ReadUint(4);
        if ok {
          var low: nat;
          ok, low := ReadUint(4);
          value := value * 0x1_0000_0000 + low;
        }
      } else if additionalInformation != 31 {
        ok := false;
      }
    }

    method ReadIndefiniteStringLength(majorType: nat) returns (ok: bool, value: int)
      requires offset <= |data|
      modifies this
      ensures offset <= |data|
      ensures Gives(ok, value, offset, ReadChunkLength(data, old(offset), majorType))
    {
      hide CborDecoding.ReadLength;
      value := -1;
      var initialByte: Byte;
      ok, initialByte := ReadUint8();
      if ok && initialByte != 0xff {
        ok, value := ReadLength(initialByte % 32);
        if value < 0 || initialByte / 32 != majorType {
          ok := false;
        }
      }
    }

    /** The bits of the next byte under a character's first. */
    method ReadContinuation() returns (ok: bool, value: nat)
      requires offset <= |data|
      modifies this
      ensures offset <= |data|
      ensures ok <==> old(offset) < |data|
      ensures ok ==> value == data[old(offset)] % 64 && offset == old(offset) + 1
    {
      var next: Byte;
      ok, next := ReadUint8();
      value := next % 64;
    }

    /** The code point of the next character and how many bytes follow its first one. */
    method ReadCodePoint() returns (ok: bool, value: nat, more: nat)
      requires offset < |data|
      modifies this
      ensures offset <= |data|
      ensures var k := CharacterLength(data[old(offset)]);
              && ok == (old(offset) + k <= |data|)
              && (ok ==> offset == old(offset) + k && more == k - 1 && value == CodePoint(data[old(offset)..offset]))
    {
      more := 0;
      var b, c, d: nat;
      ok, value := ReadUint8();
      if value >= 0x80 {
        if value < 0xe0 {
          ok, b := ReadContinuation();
          value := value % 32 * 64 + b;
          more := 1;
        } else if value < 0xf0 {
          ok, b := ReadContinuation();
          if ok {
            ok, c := ReadContinuation();
            value := value % 16 * 4096 + (b * 64 + c);
          }
          more := 2;
        } else {
          ok, b := ReadContinuation();
          if ok {
            ok, c := ReadContinuation();
          }
          if ok {
            ok, d := ReadContinuation();
            value := value % 16 * 0x4_0000 + b * 4096 + (c * 64 + d);
          }
          more := 3;
        }
      }
    }

    method AppendUtf16Data(before: Text, size: nat) returns (ok: bool, utf16data: Text)
      requires offset <= |data|
      modifies this
      ensures offset <= |data|
      ensures Gives(ok, utf16data, offset, After(before, ReadText(data, old(offset), size)))
    {
      hide CharacterLength, CodePoint, Units;
      ok, utf16data := true, before;
      ghost var all := After(before, ReadText(data, offset, size));
      var i, length: int := 0, size;
      while i < length
        invariant offset <= |data| && After(utf16data, ReadText(data, offset, length - i)) == all
        decreases |data| - offset
      {
        if offset == |data| {
          return false, utf16data;
        }
        ghost var pos := offset;
        var value, more: nat;
        ok, value, more := ReadCodePoint();
        if !ok {
          return;
        }
        length := length - more;
        ghost var read := utf16data;
        if value < 0x1_0000 {
          utf16data := utf16data + [value];
        } else {
          value := value - 0x1_0000;
          utf16data := utf16data + [0xd800 + value / 1024 % 0x800, 0xdc00 + value % 1024];
        }
        ghost var units := Units(CodePoint(data[pos..offset]));
        assert utf16data == read + units by { UnitsOf(CodePoint(data[pos..offset])); }
        AfterAfter(read, units, ReadText(data, offset, length - i - 1));
        i := i + 1;
      }
      AfterAll(utf16data, offset);
    }

    static lemma UnitsOf(code: nat)
      requires code < 0x40_0000
      ensures Units(code) == if code < 0x1_0000 then [code]
                             else [0xd800 + (code - 0x1_0000) / 1024 % 0x800, 0xdc00 + (code - 0x1_0000) % 1024]
    {
    }

    method DecodeItem() returns (ok: bool, value: Value)
      requires offset <= |data|
      modifies this
      ensures offset <= |data|
      ensures Gives(ok, value, offset, ReadItem(data, old(offset), naming))
      decreases |data| - offset, 0
    {
      hide ReadContent, CborDecoding.ReadLength;
      value := Undefined;
      var initialByte: Byte;
      ok, initialByte := ReadUint8();
      if !ok {
        return;
      }
      var majorType, additionalInformation := initialByte / 32, initialByte % 32;
      if majorType == 7 && 25 <= additionalInformation <= 27 {
        var bits: seq<Byte>;
        ok, bits := ReadArrayBuffer(
          if additionalInformation == 25 then 2 else if additionalInformation == 26 then 4 else 8);
        value := Float(bits);
        return;
      }
      var length: int;
      ok, length := ReadLength(additionalInformation);
      if length < 0 && (majorType < 2 || 6 < majorType) {
        ok := false;
      }
      if ok {
        ok, value := DecodeContent(majorType, length);
      }
    }

    method DecodeContent(majorType: nat, length: int) returns (ok: bool, value: Value)
      requires offset <= |data| && majorType < 8 && length >= -1 && (length >= 0 || 2 <= majorType <= 6)
      modifies this
      ensures offset <= |data|
      ensures Gives(ok, value, offset, ReadContent(data, old(offset), majorType, length, naming))
      decreases |data| - offset, 2
    {
      hide ReadItem, ReadItems, ReadItemsToBreak, ReadFields, ReadBinaryChunks, ReadTextChunks, ReadText, ReadBytes,
           Integer;
      ok, value := true, Undefined;
      match majorType
      case 0 => value := Integer(0, length);
      case 1 => value := Integer(1, length);
      case 2 =>
        var bytes: seq<Byte>;
        if length < 0 {
          ok, bytes := DecodeBinaryChunks();
        } else {
          ok, bytes := ReadArrayBuffer(length);
        }
        value := Binary(bytes);
      case 3 =>
        var utf16data: Text;
        if length < 0 {
          ok, utf16data := DecodeTextChunks();
        } else {
          AfterNothing(ReadText(data, offset, length));
          ok, utf16data := AppendUtf16Data([], length);
        }
        value := String(utf16data);
      case 4 =>
        var retArray: seq<Value> := [];
        if length < 0 {
          ok, retArray := DecodeItemsToBreak();
        } else if length < 0x1_0000_0000 {
          ok, retArray := DecodeItems(length);
        } else {
          ok := false;
        }
        value := Array(retArray);
      case 5 =>
        var retObject: seq<Field>;
        ok, retObject := DecodeFields(length);
        value := Object(retObject);
      case 6 => ok, value := DecodeItem();
      case 7 =>
        value := if length == 20 then False else if length == 21 then True else if length == 22 then Null
                 else Undefined;
    }

    method DecodeBinaryChunks() returns (ok: bool, elements: seq<Byte>)
      requires offset <= |data|
      modifies this
      ensures offset <= |data|
      ensures Gives(ok, elements, offset, ReadBinaryChunks(data, old(offset)))
    {
      hide ReadChunkLength;
      ok, elements := true, [];
      ghost var all := ReadBinaryChunks(data, offset);
      AfterNothing(all);
      while true
        invariant offset <= |data| && After(elements, ReadBinaryChunks(data, offset)) == all
        decreases |data| - offset
      {
        var length: int;
        ok, length := ReadIndefiniteStringLength(2);
        AfterAll(elements, offset);
        if !ok || length < 0 {
          return;
        }
        var chunk: seq<Byte>;
        ok, chunk := ReadArrayBuffer(length);
        if !ok {
          return;
        }
        AfterAfter(elements, chunk, ReadBinaryChunks(data, offset));
        elements := elements + chunk;
      }
    }

    method DecodeTextChunks() returns (ok: bool, utf16data: Text)
      requires offset <= |data|
      modifies this
      ensures offset <= |data|
      ensures Gives(ok, utf16data, offset, ReadTextChunks(data, old(offset)))
    {
      hide ReadChunkLength, ReadText;
      ok, utf16data := true, [];
      ghost var all := ReadTextChunks(data, offset);
      AfterNothing(all);
      while true
        invariant offset <= |data| && After(utf16data, ReadTextChunks(data, offset)) == all
        decreases |data| - offset
      {
        var length: int;
        ok, length := ReadIndefiniteStringLength(3);
        AfterAll(utf16data, offset);
        if !ok || length < 0 {
          return;
        }
        ghost var chunk := ReadText(data, offset, length);
        ghost var before := utf16data;
        ok, utf16data := AppendUtf16Data(utf16data, length);
        if !ok {
          return;
        }
        AfterAfter(before, chunk.value, ReadTextChunks(data, offset));
      }
    }

    method DecodeItems(length: nat) returns (ok: bool, retArray: seq<Value>)
      requires offset <= |data|
      modifies this
      ensures offset <= |data|
      ensures Gives(ok, retArray, offset, ReadItems(data, old(offset), length, naming))
      decreases |data| - offset, 1
    {
      hide ReadItem;
      ok, retArray := true, [];
      ghost var all := ReadItems(data, offset, length, naming);
      AfterNothing(all);
      for i := 0 to length
        invariant old(offset) <= offset <= |data|
        invariant After(retArray, ReadItems(data, offset, length - i, naming)) == all
      {
        var item: Value;
        ok, item := DecodeItem();
        if !ok {
          return;
        }
        AfterAfter(retArray, [item], ReadItems(data, offset, length - i - 1, naming));
        retArray := retArray + [item];
      }
      AfterAll(retArray, offset);
    }

    method DecodeItemsToBreak() returns (ok: bool, retArray: seq<Value>)
      requires offset <= |data|
      modifies this
      ensures offset <= |data|
      ensures Gives(ok, retArray, offset, ReadItemsToBreak(data, old(offset), naming))
      decreases |data| - offset, 1
    {
      hide ReadItem;
      ok, retArray := true, [];
      ghost var all := ReadItemsToBreak(data, offset, naming);
      AfterNothing(all);
      while true
        invariant old(offset) <= offset <= |data|
        invariant After(retArray, ReadItemsToBreak(data, offset, naming)) == all
        decreases |data| - offset
      {
        var end: bool;
        ok, end := ReadBreak();
        AfterAll(retArray, offset);
        if !ok || end {
          return;
        }
        var item: Value;
        ok, item := DecodeItem();
        if !ok {
          return;
        }
        AfterAfter(retArray, [item], ReadItemsToBreak(data, offset, naming));
        retArray := retArray + [item];
      }
    }

    method DecodeFields(length: int) returns (ok: bool, retObject: seq<Field>)
      requires offset <= |data|
      modifies this
      ensures offset <= |data|
      ensures Gives(ok, retObject, offset, ReadFields(data, old(offset), length, [], naming))
      decreases |data| - offset, 1
    {
      hide ReadItem, Put;
      ok, retObject := true, [];
      ghost var all := ReadFields(data, offset, length, [], naming);
      var i := 0;
      while i < length || length < 0
        invariant old(offset) <= offset <= |data| && 0 <= i && (length >= 0 ==> i <= length)
        invariant ReadFields(data, offset, if length < 0 then length else length - i, retObject, naming) == all
        decreases |data| - offset
      {
        if length < 0 {
          var end: bool;
          ok, end := ReadBreak();
          if !ok || end {
            return;
          }
        }
        var key, value: Value;
        ok, key := DecodeItem();
        if !ok {
          return;
        }
        ok, value := DecodeItem();
        if !ok {
          return;
        }
        var name := KeyName(key, naming);
        if name.NoName? {
          return false, retObject;
        }
        retObject := Put(retObject, name.text, value);
        i := i + 1;
      }
    }
  }

  /** The value in a whole input. */
  method Decode(data: seq<Byte>, naming: Naming) returns (ok: bool, value: Value)
    ensures Gives(ok, value, |data|, CborDecoding.Decode(data, naming))
  {
    hide ReadItem;
    var decoder := new Decoder(data, naming);
    ok, value := decoder.DecodeItem();
    ok := ok && decoder.offset == |data|;
  }

  /** The two programs one after the other: a value comes back if and only if it is well-formed. */
  method EncodeThenDecode(value: Value, naming: Naming) returns (ok: bool, result: Value)
    requires Doubles(value) && |EncodeValue(value)| <= LIMIT
    ensures ok && result == CborRoundTrip.Decoded(value)
    ensures result == value <==> CborRoundTrip.WellFormed(value)
  {
    hide EncodeValue, CborDecoding.Decode, ReadItem, CborRoundTrip.Decoded, CborRoundTrip.WellFormed, Doubles;
    var bytes := CborEncoder.Encode(value);
    ok, result := Decode(bytes, naming);
    CborRoundTrip.RoundTrip(value, [], naming);
    CborRoundTrip.DecodedUnchanged(value);
    assert bytes + [] == bytes;
  }
}
