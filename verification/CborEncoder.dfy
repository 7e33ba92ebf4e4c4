/**
  The encoder: a recursive printer over a buffer that doubles when it is full.
*/
module CborEncoder {
  import opened Bytes
  import opened JsNumbers
  import opened CborValues

  // ---------------------------------------------------------------------------------------------------------
  // Sizes of the buffer
  // ---------------------------------------------------------------------------------------------------------

  /** The shift to the left by one bit on 32-bit integers. */
  function ShiftLeft(n: int): int
  {
    ToInt32(2 * n)
  }

  function Grown(n: int, k: nat): int
  {
    if k == 0 then n else ShiftLeft(Grown(n, k - 1))
  }

  ghost predicate Size(n: int)
  {
    exists k: nat :: 8 <= k <= 30 && n == Pow2(k)
  }

  lemma Pow2At(k: nat)
    requires 8 <= k <= 30
    ensures 0x100 <= Pow2(k) <= LIMIT && Pow2(k) % 4 == 0
    ensures Pow2(k) < LIMIT ==> k < 30
    decreases 30 - k
  {
    if k == 30 {
      Pow2Of30();
    } else {
      Pow2At(k + 1);
      Pow2AtLeast(k);
    }
  }

  lemma Pow2Of30()
    ensures Pow2(30) == LIMIT
  {
    assert Pow2(8) == 0x100;
    assert Pow2(16) == 0x1_0000;
    assert Pow2(24) == 0x100_0000;
    assert Pow2(30) == LIMIT;
  }

  lemma {:induction false} Pow2AtLeast(k: nat)
    requires k >= 8
    ensures Pow2(k) >= 0x100 && Pow2(k) % 4 == 0
  {
    if k == 8 {
      assert Pow2(8) == 0x100;
    } else {
      Pow2AtLeast(k - 1);
    }
  }

  lemma SizeBounds(n: int)
    requires Size(n)
    ensures 0x100 <= n <= LIMIT && n % 4 == 0
    ensures n < LIMIT ==> ShiftLeft(n) == 2 * n && Size(2 * n)
  {
    var k: nat :| 8 <= k <= 30 && n == Pow2(k);
    Pow2At(k);
    if n < LIMIT {
      assert 2 * n == Pow2(k + 1);
      Pow2At(k + 1);
    }
  }

  lemma Pow2Step(k: nat)
    requires k > 0
    ensures Pow2(k) == 2 * Pow2(k - 1)
  {
  }

  lemma {:induction false} GrownIsPow2(k: nat)
    requires k <= 22
    ensures Grown(0x100, k) == Pow2(8 + k)
  {
    hide Pow2, ShiftLeft;
    if k == 0 {
      Pow2Eight();
    } else {
      GrownIsPow2(k - 1);
      Pow2At(8 + k);
      Pow2Step(8 + k);
      SizeBounds(Grown(0x100, k - 1));
    }
  }

  lemma ShiftsOut()
    ensures ShiftLeft(LIMIT) == -0x8000_0000 && ShiftLeft(-0x8000_0000) == 0 && ShiftLeft(0) == 0
  {
  }

  lemma {:induction false} GrownBounded(k: nat)
    ensures Grown(0x100, k) <= LIMIT
    ensures k > 22 ==> Grown(0x100, k) == if k == 23 then -0x8000_0000 else 0
  {
    hide Pow2, ShiftLeft, Size;
    if k <= 22 {
      GrownIsPow2(k);
      Pow2At(8 + k);
    } else {
      GrownBounded(k - 1);
      ShiftsOut();
      if k == 23 {
        GrownIsPow2(k - 1);
        Pow2Of30();
      }
    }
  }

  lemma GrowthReaches(k: nat)
    requires k == 22
    ensures Grown(0x100, k) == LIMIT
  {
    hide Pow2, Grown;
    GrownIsPow2(k);
    Pow2Of30();
  }

  /** The growth loop ends if and only if the required length is at most the limit. */
  lemma GrowthEnds(required: nat)
    ensures (exists k: nat :: Grown(0x100, k) >= required) <==> required <= LIMIT
  {
    hide Grown;
    var last: nat :| last == 22;
    GrowthReaches(last);
    assert required <= LIMIT ==> Grown(0x100, last) >= required;
    forall k: nat
      ensures Grown(0x100, k) <= LIMIT
    {
      GrownBounded(k);
    }
  }

  // ---------------------------------------------------------------------------------------------------------
  // The encoder
  // ---------------------------------------------------------------------------------------------------------

  class Encoder {
    var data: array<Byte>
    var offset: nat
    var lastLength: nat

    ghost predicate Valid()
      reads this
    {
      Size(data.Length) && offset <= data.Length
    }

    ghost function Written(): seq<Byte>
      requires Valid()
      reads this, data
    {
      data[..offset]
    }

    constructor ()
      ensures Valid() && fresh(data) && Written() == []
    {
      data := new Byte[0x100](_ => 0);
      offset := 0;
      lastLength := 0;
      new;
      assert Pow2(8) == 0x100;
    }

    method PrepareWrite(length: nat)
      requires Valid() && offset + length <= LIMIT
      modifies this`data, this`lastLength
      ensures Valid() && Written() == old(Written()) && offset + length <= data.Length
      ensures lastLength == length && (data == old(data) || fresh(data))
    {
      hide Size;
      var newByteLength := EnoughBytes(data.Length, offset + length);
      if newByteLength != data.Length {
        SizeBounds(data.Length);
        data := Regrown(data, newByteLength, offset);
      }
      lastLength := length;
    }

    static method Regrown(data: array<Byte>, newByteLength: nat, offset: nat) returns (grown: array<Byte>)
      requires offset <= data.Length <= newByteLength && data.Length % 4 == 0
      ensures fresh(grown) && grown.Length == newByteLength && grown[..offset] == data[..offset]
    {
      grown := new Byte[newByteLength](_ => 0);
      var count := (offset + 3) / 4;
      CopyWords(data, grown, count);
      assert grown[..offset] == grown[..4 * count][..offset];
      assert data[..offset] == data[..4 * count][..offset];
    }

    static method EnoughBytes(byteLength: nat, requiredLength: nat) returns (newByteLength: nat)
      requires Size(byteLength) && requiredLength <= LIMIT
      ensures Size(newByteLength) && newByteLength >= requiredLength
      ensures newByteLength >= byteLength && (newByteLength == byteLength <==> requiredLength <= byteLength)
    {
      hide ShiftLeft, Size;
      newByteLength := byteLength;
      while newByteLength < requiredLength
        invariant Size(newByteLength) && newByteLength >= byteLength
        invariant newByteLength > byteLength ==> requiredLength > byteLength
        decreases LIMIT - newByteLength
      {
        SizeBounds(newByteLength);
        newByteLength := ShiftLeft(newByteLength);
      }
    }

    static method CopyWords(source: array<Byte>, target: array<Byte>, count: nat)
      requires 4 * count <= source.Length <= target.Length && source != target
      modifies target
      ensures target[..4 * count] == source[..4 * count]
    {
      for i := 0 to count
        invariant target[..4 * i] == source[..4 * i]
      {
        target[4 * i], target[4 * i + 1], target[4 * i + 2], target[4 * i + 3] :=
          source[4 * i], source[4 * i + 1], source[4 * i + 2], source[4 * i + 3];
      }
    }

    method CommitWrite()
      requires offset + lastLength <= data.Length
      modifies this`offset
      ensures offset == old(offset) + lastLength
    {
      offset := offset + lastLength;
    }

    /** The k bytes of an unsigned number, the most significant first. */
    static method SetUint(data: array<Byte>, offset: nat, value: nat, k: nat)
      requires offset + k <= data.Length
      modifies data
      ensures data[..offset] == old(data[..offset])
      ensures data[offset..offset + k] == BigEndian(value, k)
    {
      var v, i := value, k;
      while i > 0
        invariant 0 <= i <= k
        invariant data[..offset] == old(data[..offset])
        invariant BigEndian(value, k) == BigEndian(v, i) + data[offset + i..offset + k]
      {
        ghost var rest := data[offset + i..offset + k];
        i := i - 1;
        data[offset + i] := v % 256;
        assert data[offset + i..offset + k] == [v % 256] + rest;
        v := v / 256;
      }
    }

    /** An unsigned number of k bytes. */
    method WriteUint(value: nat, k: nat)
      requires Valid() && offset + k <= LIMIT
      modifies this, data
      ensures Valid() && (data == old(data) || fresh(data))
      ensures Written() == old(Written()) + BigEndian(value, k)
    {
      PrepareWrite(k);
      SetUint(data, offset, value, k);
      assert data[..offset + k] == data[..offset] + data[offset..offset + k];
      CommitWrite();
    }

    method WriteUint8(value: Byte)
      requires Valid() && offset < LIMIT
      modifies this, data
      ensures Valid() && (data == old(data) || fresh(data))
      ensures Written() == old(Written()) + [value]
    {
      WriteUint(value, 1);
      assert BigEndian(value, 1) == BigEndian(value / 256, 0) + [value];
    }

    method WriteUint64(value: nat)
      requires Valid() && offset + 8 <= LIMIT
      modifies this, data
      ensures Valid() && (data == old(data) || fresh(data))
      ensures Written() == old(Written()) + (BigEndian(value / 0x1_0000_0000, 4) + BigEndian(value % 0x1_0000_0000, 4))
    {
      hide Size, BigEndian;
      var low := value % 0x1_0000_0000;
      var high := (value - low) / 0x1_0000_0000;
      PrepareWrite(8);
      SetHalves(data, offset, high, low);
      CommitWrite();
    }

    static method SetHalves(data: array<Byte>, offset: nat, high: nat, low: nat)
      requires offset + 8 <= data.Length
      modifies data
      ensures data[..offset + 8] == old(data[..offset]) + (BigEndian(high, 4) + BigEndian(low, 4))
    {
      hide BigEndian;
      SetUint(data, offset, high, 4);
      assert data[..offset + 4] == data[..offset] + data[offset..offset + 4];
      SetUint(data, offset + 4, low, 4);
      assert data[..offset + 8] == data[..offset + 4] + data[offset + 4..offset + 8];
      Grouped(old(data[..offset]), BigEndian(high, 4), BigEndian(low, 4));
    }

    static lemma Grouped(a: seq<Byte>, b: seq<Byte>, c: seq<Byte>)
      ensures a + b + c == a + (b + c)
    {
    }

    /** The bytes of an array, or of a floating-point number. */
    method WriteUint8Array(value: seq<Byte>)
      requires Valid() && offset + |value| <= LIMIT
      modifies this, data
      ensures Valid() && (data == old(data) || fresh(data))
      ensures Written() == old(Written()) + value
    {
      PrepareWrite(|value|);
      Fill(data, offset, value);
      CommitWrite();
    }

    static method Fill(data: array<Byte>, offset: nat, value: seq<Byte>)
      requires offset + |value| <= data.Length
      modifies data
      ensures data[..offset + |value|] == old(data[..offset]) + value
    {
      for i := 0 to |value|
        invariant data[..offset + i] == old(data[..offset]) + value[..i]
      {
        data[offset + i] := value[i];
      }
    }

    method WriteTypeAndLength(major: nat, length: nat)
      requires Valid() && major < 8 && offset + |Head(major, length)| <= LIMIT
      modifies this, data
      ensures Valid() && (data == old(data) || fresh(data))
      ensures Written() == old(Written()) + Head(major, length)
    {
      hide BigEndian, Size, Pow2, Head;
      HeadIs(major, length);
      if length < 24 {
        WriteUint8(major * 32 + length);
      } else if length < 0x100 {
        WriteHead(major * 32 + 24, length, 1);
      } else if length < 0x1_0000 {
        WriteHead(major * 32 + 25, length, 2);
      } else if length < 0x1_0000_0000 {
        WriteHead(major * 32 + 26, length, 4);
      } else {
        WriteLongHead(major * 32 + 27, length);
      }
    }

    /** An initial byte and an argument of two halves. */
    method WriteLongHead(initial: Byte, length: nat)
      requires Valid() && offset + 9 <= LIMIT
      modifies this, data
      ensures Valid() && (data == old(data) || fresh(data))
      ensures var halves := BigEndian(length / 0x1_0000_0000, 4) + BigEndian(length % 0x1_0000_0000, 4);
              Written() == old(Written()) + ([initial] + halves)
    {
      hide BigEndian, Size, Pow2;
      ghost var before := Written();
      WriteUint8(initial);
      WriteUint64(length);
      Grouped(before, [initial], BigEndian(length / 0x1_0000_0000, 4) + BigEndian(length % 0x1_0000_0000, 4));
    }

    static lemma HeadIs(major: nat, length: nat)
      requires major < 8
      ensures length < 24 ==> Head(major, length) == [major * 32 + length]
      ensures 24 <= length < 0x100 ==> Head(major, length) == [major * 32 + 24] + BigEndian(length, 1)
      ensures 0x100 <= length < 0x1_0000 ==> Head(major, length) == [major * 32 + 25] + BigEndian(length, 2)
      ensures 0x1_0000 <= length < 0x1_0000_0000 ==> Head(major, length) == [major * 32 + 26] + BigEndian(length, 4)
      ensures var halves := BigEndian(length / 0x1_0000_0000, 4) + BigEndian(length % 0x1_0000_0000, 4);
              length >= 0x1_0000_0000 ==> Head(major, length) == [major * 32 + 27] + halves
    {
      hide BigEndian;
    }

    /** An initial byte and an argument of k bytes. */
    method WriteHead(initial: Byte, length: nat, k: nat)
      requires Valid() && offset + 1 + k <= LIMIT
      modifies this, data
      ensures Valid() && (data == old(data) || fresh(data))
      ensures Written() == old(Written()) + ([initial] + BigEndian(length, k))
    {
      hide BigEndian, Size, Pow2;
      ghost var before := Written();
      WriteUint8(initial);
      WriteUint(length, k);
      Grouped(before, [initial], BigEndian(length, k));
    }

    static lemma NoCharacters()
      ensures EncodeText([]) == []
    {
    }

    static lemma FirstCharacter(u: Text)
      requires u != []
      ensures EncodeText(u) == Character(u[0], Second(u)) + EncodeText(u[Width(u)..])
    {
    }

    /** The bytes of a string; the fields that the code combines with or do not overlap. */
    static method Utf8(value: Text) returns (utf8data: seq<Byte>)
      ensures utf8data == EncodeText(value)
    {
      hide EncodeText;
      utf8data := [];
      var i := 0;
      while i < |value|
        invariant 0 <= i <= |value|
        invariant EncodeText(value) == utf8data + EncodeText(value[i..])
      {
        var charCode: nat := value[i];
        ghost var rest, before := value[i..], utf8data;
        if charCode < 0x80 {
          utf8data := utf8data + [charCode];
        } else if charCode < 0x800 {
          utf8data := utf8data + [0xc0 + charCode / 64, 0x80 + charCode % 64];
        } else if charCode < 0xd800 {
          utf8data := utf8data + [0xe0 + charCode / 4096, 0x80 + charCode / 64 % 64, 0x80 + charCode % 64];
        } else {
          charCode := charCode % 1024 * 1024;
          i := i + 1;
          charCode := charCode + if i < |value| then value[i] % 1024 else 0;
          charCode := charCode + 0x1_0000;
          assert charCode == Joined(rest[0], Second(rest));
          utf8data := utf8data + [0xf0 + charCode / 0x4_0000, 0x80 + charCode / 4096 % 64,
                                  0x80 + charCode / 64 % 64, 0x80 + charCode % 64];
        }
        i := i + 1;
        assert utf8data == before + Character(rest[0], Second(rest));
        FirstCharacter(rest);
        Grouped(before, Character(rest[0], Second(rest)), EncodeText(rest[Width(rest)..]));
        if i > |value| {
          i := |value|;
        }
        assert value[i..] == rest[Width(rest)..];
      }
      assert value[i..] == [];
      NoCharacters();
    }

    method EncodeItem(value: Value)
      requires Valid() && Doubles(value) && offset + |EncodeValue(value)| <= LIMIT
      modifies this, data
      ensures Valid() && (data == old(data) || fresh(data))
      ensures Written() == old(Written()) + EncodeValue(value)
      decreases value, 1
    {
      hide Size, Head, EncodeText, EncodeString, EncodeItems, EncodeFields, Pow2;
      match value
      case False => WriteUint8(0xf4);
      case True => WriteUint8(0xf5);
      case Null => WriteUint8(0xf6);
      case Undefined => WriteUint8(0xf7);
      case Int(n) =>
        if n >= 0 {
          WriteTypeAndLength(0, n);
        } else {
          WriteTypeAndLength(1, -(n + 1));
        }
      case Float(bits) => EncodeFloat(bits);
      case String(units) => EncodeKey(units);
      case Binary(bytes) => EncodeBinary(bytes);
      case Array(items) => EncodeArray(items);
      case Object(fields) => EncodeObject(fields);
    }

    method EncodeFloat(bits: seq<Byte>)
      requires Valid() && offset + 1 + |bits| <= LIMIT
      modifies this, data
      ensures Valid() && (data == old(data) || fresh(data))
      ensures Written() == old(Written()) + ([0xfb] + bits)
    {
      hide Size;
      WriteUint8(0xfb);
      WriteUint8Array(bits);
    }

    method EncodeBinary(bytes: seq<Byte>)
      requires Valid() && offset + |Head(2, |bytes|) + bytes| <= LIMIT
      modifies this, data
      ensures Valid() && (data == old(data) || fresh(data))
      ensures Written() == old(Written()) + (Head(2, |bytes|) + bytes)
    {
      hide Size, Head;
      WriteTypeAndLength(2, |bytes|);
      WriteUint8Array(bytes);
    }

    /** A string, as a value or as the key of an entry. */
    method EncodeKey(units: Text)
      requires Valid() && offset + |EncodeString(units)| <= LIMIT
      modifies this, data
      ensures Valid() && (data == old(data) || fresh(data))
      ensures Written() == old(Written()) + EncodeString(units)
    {
      hide Size, Head, EncodeText;
      var utf8data := Utf8(units);
      WriteTypeAndLength(3, |utf8data|);
      WriteUint8Array(utf8data);
    }

    method EncodeArray(items: seq<Value>)
      requires Valid() && (forall i :: 0 <= i < |items| ==> Doubles(items[i]))
      requires offset + |Head(4, |items|) + EncodeItems(items)| <= LIMIT
      modifies this, data
      ensures Valid() && (data == old(data) || fresh(data))
      ensures Written() == old(Written()) + (Head(4, |items|) + EncodeItems(items))
      decreases items, 0
    {
      hide Size, EncodeValue, Doubles, Head;
      WriteTypeAndLength(4, |items|);
      ghost var first := Written();
      for i := 0 to |items|
        invariant Valid() && (data == old(data) || fresh(data))
        invariant first + EncodeItems(items) == Written() + EncodeItems(items[i..])
      {
        assert items[i..][1..] == items[i + 1..];
        EncodeItem(items[i]);
      }
      Grouped(old(Written()), Head(4, |items|), EncodeItems(items));
    }

    method EncodeObject(fields: seq<Field>)
      requires Valid() && (forall i :: 0 <= i < |fields| ==> Doubles(fields[i].value))
      requires offset + |Head(5, |fields|) + EncodeFields(fields)| <= LIMIT
      modifies this, data
      ensures Valid() && (data == old(data) || fresh(data))
      ensures Written() == old(Written()) + (Head(5, |fields|) + EncodeFields(fields))
      decreases fields, 0
    {
      hide Size, EncodeValue, EncodeString, Doubles, Head;
      WriteTypeAndLength(5, |fields|);
      ghost var first := Written();
      for i := 0 to |fields|
        invariant Valid() && (data == old(data) || fresh(data))
        invariant first + EncodeFields(fields) == Written() + EncodeFields(fields[i..])
      {
        assert fields[i..][1..] == fields[i + 1..];
        EncodeEntry(fields[i]);
      }
      Grouped(old(Written()), Head(5, |fields|), EncodeFields(fields));
    }

    method EncodeEntry(field: Field)
      requires Valid() && Doubles(field.value)
      requires offset + |EncodeString(field.key) + EncodeValue(field.value)| <= LIMIT
      modifies this, data
      ensures Valid() && (data == old(data) || fresh(data))
      ensures Written() == old(Written()) + (EncodeString(field.key) + EncodeValue(field.value))
      decreases field, 0
    {
      hide Size, EncodeValue, EncodeString;
      EncodeKey(field.key);
      EncodeItem(field.value);
    }
  }

  /** The bytes of a value: exactly its encoding, however often the buffer grew on the way. */
  method Encode(value: Value) returns (bytes: seq<Byte>)
    requires Doubles(value) && |EncodeValue(value)| <= LIMIT
    ensures bytes == EncodeValue(value)
  {
    var encoder := new Encoder();
    encoder.EncodeItem(value);
    bytes := encoder.data[..encoder.offset];
  }
}
