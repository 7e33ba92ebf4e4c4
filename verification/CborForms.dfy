/**
  Byte strings that the encoder does not write: items of indefinite length, chunks, tags, short numbers, heads that are
  reserved, and encodings whose end is missing.  At the end are examples that fix the encoding itself.
*/
module CborForms {
  import opened Bytes
  import opened JsNumbers
  import opened CborValues
  import opened CborDecoding
  import opened CborRoundTrip

  // ---------------------------------------------------------------------------------------------------------
  // Other encodings of the same values
  // ---------------------------------------------------------------------------------------------------------

  const BREAK: Byte := 0xff

  /** No encoding begins like the break. */
  lemma NoBreak(v: Value)
    ensures EncodeValue(v)[0] != BREAK
  {
    hide EncodeText, EncodeItems, EncodeFields, BigEndian;
  }

  /** An initial byte without a length leads to its content up to the break. */
  lemma ReadOpen(s: seq<Byte>, pos: nat, major: nat, naming: Naming)
    requires pos < |s| && 2 <= major <= 5 && s[pos] == major * 32 + 31
    ensures ReadItem(s, pos, naming) == ReadContent(s, pos + 1, major, -1, naming)
  {
    hide ReadContent;
  }

  lemma Regrouped(a: seq<Byte>, b: seq<Byte>, c: seq<Byte>)
    ensures a + b + c == a + (b + c)
  {
  }

  lemma OpenItem(s: seq<Byte>, pos: nat, v: Value, p: nat, rest: seq<Value>, next: nat, naming: Naming)
    requires pos < |s| && s[pos] != BREAK && ReadItem(s, pos, naming) == Ok(v, p)
    requires ReadItemsToBreak(s, p, naming) == Ok(rest, next)
    ensures ReadItemsToBreak(s, pos, naming) == Ok([v] + rest, next)
  {
    hide ReadItem;
  }

  lemma NoOpenItem(s: seq<Byte>, pos: nat, naming: Naming)
    requires At(s, pos, [BREAK])
    ensures ReadItemsToBreak(s, pos, naming) == Ok([], pos + 1)
  {
    AtFirst(s, pos, [BREAK]);
  }

  lemma {:induction false} ReadItemsOpen(s: seq<Byte>, pos: nat, items: seq<Value>, naming: Naming)
    requires pos <= |s| && (forall i :: 0 <= i < |items| ==> Doubles(items[i]))
    requires At(s, pos, EncodeItems(items) + [BREAK]) && |EncodeItems(items)| <= LIMIT
    ensures ReadItemsToBreak(s, pos, naming) == Ok(DecodedItems(items), pos + |EncodeItems(items)| + 1)
    decreases items
  {
    hide ReadItem, ReadItemsToBreak, EncodeValue, Decoded, Doubles;
    if items == [] {
      assert [] + [BREAK] == [BREAK];
      NoOpenItem(s, pos, naming);
    } else {
      var e, rest := EncodeValue(items[0]), EncodeItems(items[1..]);
      Regrouped(e, rest, [BREAK]);
      AtSplit(s, pos, e, rest + [BREAK]);
      AtFirst(s, pos, e);
      NoBreak(items[0]);
      ReadEncoded(s, pos, items[0], naming);
      var p := pos + |e|;
      ReadItemsOpen(s, p, items[1..], naming);
      OpenItem(s, pos, Decoded(items[0]), p, DecodedItems(items[1..]), p + |rest| + 1, naming);
    }
  }

  /** An array of indefinite length reads as one of definite length with the same items. */
  lemma ReadArrayOpen(s: seq<Byte>, pos: nat, items: seq<Value>, naming: Naming)
    requires pos <= |s| && Doubles(Array(items)) && |EncodeItems(items)| <= LIMIT
    requires At(s, pos, [0x9f] + (EncodeItems(items) + [BREAK]))
    ensures ReadItem(s, pos, naming) == Ok(Decoded(Array(items)), pos + |EncodeItems(items)| + 2)
  {
    hide ReadItem, ReadItemsToBreak, EncodeItems, DecodedItems;
    AtSplit(s, pos, [0x9f], EncodeItems(items) + [BREAK]);
    AtFirst(s, pos, [0x9f]);
    ReadOpen(s, pos, 4, naming);
    ReadItemsOpen(s, pos + 1, items, naming);
  }

  lemma OpenField(s: seq<Byte>, pos: nat, key: Text, p: nat, v: Value, q: nat, before: seq<Field>, naming: Naming)
    requires pos < |s| && s[pos] != BREAK && ReadItem(s, pos, naming) == Ok(String(key), p) && p <= |s|
    requires ReadItem(s, p, naming) == Ok(v, q) && q <= |s|
    ensures ReadFields(s, pos, -1, before, naming) == ReadFields(s, q, -1, Put(before, key, v), naming)
  {
    hide ReadItem, Put;
  }

  lemma NoOpenField(s: seq<Byte>, pos: nat, before: seq<Field>, naming: Naming)
    requires At(s, pos, [BREAK])
    ensures ReadFields(s, pos, -1, before, naming) == Ok(before, pos + 1)
  {
    AtFirst(s, pos, [BREAK]);
  }

  lemma {:induction false} ReadFieldsOpen(s: seq<Byte>, pos: nat, fields: seq<Field>, before: seq<Field>,
                                          naming: Naming)
    requires pos <= |s| && (forall i :: 0 <= i < |fields| ==> Doubles(fields[i].value))
    requires At(s, pos, EncodeFields(fields) + [BREAK]) && |EncodeFields(fields)| <= LIMIT
    ensures ReadFields(s, pos, -1, before, naming)
            == Ok(DecodedFields(fields, before), pos + |EncodeFields(fields)| + 1)
    decreases fields
  {
    hide ReadItem, ReadFields, EncodeValue, EncodeString, Decoded, Doubles, Pairs, Put;
    if fields == [] {
      assert [] + [BREAK] == [BREAK];
      NoOpenField(s, pos, before, naming);
    } else {
      var key, value := fields[0].key, fields[0].value;
      var k, e, rest := EncodeString(key), EncodeValue(value), EncodeFields(fields[1..]);
      Regrouped(k + e, rest, [BREAK]);
      AtSplit(s, pos, k + e, rest + [BREAK]);
      AtSplit(s, pos, k, e);
      AtFirst(s, pos, k);
      KeyNoBreak(key);
      ReadEncodedString(s, pos, key, naming);
      var p := pos + |k|;
      ReadEncoded(s, p, value, naming);
      ReadFieldsOpen(s, p + |e|, fields[1..], Put(before, Pairs(key), Decoded(value)), naming);
      OpenField(s, pos, Pairs(key), p, Decoded(value), p + |e|, before, naming);
    }
  }

  lemma KeyNoBreak(u: Text)
    ensures EncodeString(u)[0] != BREAK
  {
    NoBreak(String(u));
  }

  /** An object of indefinite length reads as one of definite length with the same entries. */
  lemma ReadObjectOpen(s: seq<Byte>, pos: nat, fields: seq<Field>, naming: Naming)
    requires pos <= |s| && Doubles(Object(fields)) && |EncodeFields(fields)| <= LIMIT
    requires At(s, pos, [0xbf] + (EncodeFields(fields) + [BREAK]))
    ensures ReadItem(s, pos, naming) == Ok(Decoded(Object(fields)), pos + |EncodeFields(fields)| + 2)
  {
    hide ReadItem, ReadFields, EncodeFields, DecodedFields;
    AtSplit(s, pos, [0xbf], EncodeFields(fields) + [BREAK]);
    AtFirst(s, pos, [0xbf]);
    ReadOpen(s, pos, 5, naming);
    ReadFieldsOpen(s, pos + 1, fields, [], naming);
  }

  /** Chunks of bytes one after the other. */
  function EncodeChunks(chunks: seq<seq<Byte>>): seq<Byte>
  {
    if chunks == [] then [] else EncodeValue(Binary(chunks[0])) + EncodeChunks(chunks[1..])
  }

  function Joint<T>(chunks: seq<seq<T>>): seq<T>
  {
    if chunks == [] then [] else chunks[0] + Joint(chunks[1..])
  }

  lemma ReadChunkHead(s: seq<Byte>, pos: nat, major: nat, n: nat)
    requires major < 7 && n <= POW_2_53 && At(s, pos, Head(major, n))
    ensures pos < |s| && ReadChunkLength(s, pos, major) == Ok(n, pos + |Head(major, n)|)
  {
    hide Head, ReadLength;
    ReadHead(s, pos, major, n);
  }

  lemma BinaryChunk(s: seq<Byte>, pos: nat, p: nat, c: seq<Byte>, rest: seq<Byte>, next: nat)
    requires pos <= |s| && ReadChunkLength(s, pos, 2) == Ok(|c|, p) && At(s, p, c)
    requires ReadBinaryChunks(s, p + |c|) == Ok(rest, next)
    ensures ReadBinaryChunks(s, pos) == Ok(c + rest, next)
  {
    hide ReadChunkLength;
  }

  lemma NoBinaryChunk(s: seq<Byte>, pos: nat)
    requires At(s, pos, [BREAK])
    ensures ReadBinaryChunks(s, pos) == Ok([], pos + 1)
  {
    AtFirst(s, pos, [BREAK]);
  }

  lemma {:induction false} ReadBinaryOpen(s: seq<Byte>, pos: nat, chunks: seq<seq<Byte>>)
    requires pos <= |s| && At(s, pos, EncodeChunks(chunks) + [BREAK]) && |EncodeChunks(chunks)| <= LIMIT
    ensures ReadBinaryChunks(s, pos) == Ok(Joint(chunks), pos + |EncodeChunks(chunks)| + 1)
    decreases |chunks|
  {
    hide Head, ReadChunkLength, ReadBinaryChunks, At;
    if chunks == [] {
      assert [] + [BREAK] == [BREAK];
      NoBinaryChunk(s, pos);
    } else {
      var c, rest := chunks[0], EncodeChunks(chunks[1..]);
      var h := Head(2, |c|);
      Regrouped(h + c, rest, [BREAK]);
      AtSplit(s, pos, h + c, rest + [BREAK]);
      AtSplit(s, pos, h, c);
      ReadChunkHead(s, pos, 2, |c|);
      AtFits(s, pos + |h|, c);
      var p := pos + |h|;
      ReadBinaryOpen(s, p + |c|, chunks[1..]);
      BinaryChunk(s, pos, p, c, Joint(chunks[1..]), p + |c| + |rest| + 1);
    }
  }

  lemma AtFits(s: seq<Byte>, pos: nat, e: seq<Byte>)
    requires At(s, pos, e)
    ensures pos + |e| <= |s|
  {
  }

  /** Chunks of text one after the other. */
  function EncodeTexts(chunks: seq<Text>): seq<Byte>
  {
    if chunks == [] then [] else EncodeString(chunks[0]) + EncodeTexts(chunks[1..])
  }

  function AllPairs(chunks: seq<Text>): Text
  {
    if chunks == [] then [] else Pairs(chunks[0]) + AllPairs(chunks[1..])
  }

  lemma TextChunk(s: seq<Byte>, pos: nat, p: nat, n: nat, u: Text, rest: Text, next: nat)
    requires pos <= |s| && ReadChunkLength(s, pos, 3) == Ok(n, p) && ReadText(s, p, n) == Ok(u, p + n) && p + n <= |s|
    requires ReadTextChunks(s, p + n) == Ok(rest, next)
    ensures ReadTextChunks(s, pos) == Ok(u + rest, next)
  {
    hide ReadChunkLength, ReadText;
  }

  lemma NoTextChunk(s: seq<Byte>, pos: nat)
    requires At(s, pos, [BREAK])
    ensures ReadTextChunks(s, pos) == Ok([], pos + 1)
  {
    AtFirst(s, pos, [BREAK]);
  }

  lemma {:induction false} ReadTextOpen(s: seq<Byte>, pos: nat, chunks: seq<Text>)
    requires pos <= |s| && At(s, pos, EncodeTexts(chunks) + [BREAK]) && |EncodeTexts(chunks)| <= LIMIT
    ensures ReadTextChunks(s, pos) == Ok(AllPairs(chunks), pos + |EncodeTexts(chunks)| + 1)
    decreases |chunks|
  {
    hide Head, ReadChunkLength, ReadText, ReadTextChunks, EncodeText, Pairs, At;
    if chunks == [] {
      assert [] + [BREAK] == [BREAK];
      NoTextChunk(s, pos);
    } else {
      var e, rest := EncodeText(chunks[0]), EncodeTexts(chunks[1..]);
      var h := Head(3, |e|);
      Regrouped(h + e, rest, [BREAK]);
      AtSplit(s, pos, h + e, rest + [BREAK]);
      AtSplit(s, pos, h, e);
      ReadChunkHead(s, pos, 3, |e|);
      AtFits(s, pos + |h|, e);
      var p := pos + |h|;
      ReadEncodedText(s, p, chunks[0]);
      ReadTextOpen(s, p + |e|, chunks[1..]);
      TextChunk(s, pos, p, |e|, Pairs(chunks[0]), AllPairs(chunks[1..]), p + |e| + |rest| + 1);
    }
  }

  /** A byte string in chunks reads as the chunks put together. */
  lemma ReadBinaryInChunks(s: seq<Byte>, pos: nat, chunks: seq<seq<Byte>>, naming: Naming)
    requires pos <= |s| && |EncodeChunks(chunks)| <= LIMIT
    requires At(s, pos, [0x5f] + (EncodeChunks(chunks) + [BREAK]))
    ensures ReadItem(s, pos, naming) == Ok(Binary(Joint(chunks)), pos + |EncodeChunks(chunks)| + 2)
  {
    hide ReadItem, ReadBinaryChunks, EncodeChunks;
    AtSplit(s, pos, [0x5f], EncodeChunks(chunks) + [BREAK]);
    AtFirst(s, pos, [0x5f]);
    ReadOpen(s, pos, 2, naming);
    ReadBinaryOpen(s, pos + 1, chunks);
  }

  /** A text in chunks reads as the chunks put together. */
  lemma ReadTextInChunks(s: seq<Byte>, pos: nat, chunks: seq<Text>, naming: Naming)
    requires pos <= |s| && |EncodeTexts(chunks)| <= LIMIT
    requires At(s, pos, [0x7f] + (EncodeTexts(chunks) + [BREAK]))
    ensures ReadItem(s, pos, naming) == Ok(String(AllPairs(chunks)), pos + |EncodeTexts(chunks)| + 2)
  {
    hide ReadItem, ReadTextChunks, EncodeTexts;
    AtSplit(s, pos, [0x7f], EncodeTexts(chunks) + [BREAK]);
    AtFirst(s, pos, [0x7f]);
    ReadOpen(s, pos, 3, naming);
    ReadTextOpen(s, pos + 1, chunks);
  }

  /** A tag does not change what it is put on. */
  lemma ReadTagged(s: seq<Byte>, pos: nat, n: nat, v: Value, naming: Naming)
    requires pos <= |s| && n <= POW_2_53 && Doubles(v) && |EncodeValue(v)| <= LIMIT
    requires At(s, pos, Head(6, n) + EncodeValue(v))
    ensures ReadItem(s, pos, naming) == Ok(Decoded(v), pos + |Head(6, n)| + |EncodeValue(v)|)
  {
    hide ReadItem, EncodeValue, Decoded, Doubles, Head;
    ReadHeadOf(s, pos, 6, n, EncodeValue(v), naming);
    ReadEncoded(s, pos + |Head(6, n)|, v, naming);
  }

  /** Numbers of two, four or eight bytes are kept as these. */
  lemma ReadFloat(s: seq<Byte>, pos: nat, bits: seq<Byte>, naming: Naming)
    requires pos <= |s| && |bits| in {2, 4, 8}
    requires At(s, pos, [if |bits| == 2 then 0xf9 else if |bits| == 4 then 0xfa else 0xfb] + bits)
    ensures ReadItem(s, pos, naming) == Ok(Float(bits), pos + 1 + |bits|)
  {
    var b: Byte := if |bits| == 2 then 0xf9 else if |bits| == 4 then 0xfa else 0xfb;
    AtSplit(s, pos, [b], bits);
    AtFirst(s, pos, [b]);
  }

  /** Heads that section 3 of RFC 8949 reserves, and lengths that are open where they must not be. */
  lemma ReadBadHead(s: seq<Byte>, pos: nat, naming: Naming)
    requires pos < |s|
    requires 28 <= s[pos] % 32 <= 30 || (s[pos] % 32 == 31 && s[pos] / 32 in {0, 1, 7})
    ensures ReadItem(s, pos, naming) == Fail
  {
    hide ReadContent;
  }

  // ---------------------------------------------------------------------------------------------------------
  // Bytes that are not there
  // ---------------------------------------------------------------------------------------------------------

  /** What was read is read again, whatever follows. */
  ghost predicate Extends<T>(r: Result<T>, q: Result<T>)
  {
    r.Ok? ==> q == r
  }

  lemma SliceExtends(s: seq<Byte>, more: seq<Byte>, pos: nat, k: nat)
    requires pos + k <= |s|
    ensures (s + more)[pos..pos + k] == s[pos..pos + k]
  {
  }

  lemma UintExtends(s: seq<Byte>, more: seq<Byte>, pos: nat, k: nat)
    ensures Extends(ReadUint(s, pos, k), ReadUint(s + more, pos, k))
  {
    if pos + k <= |s| {
      SliceExtends(s, more, pos, k);
    }
  }

  lemma LengthExtends(s: seq<Byte>, more: seq<Byte>, pos: nat, info: nat)
    requires pos <= |s|
    ensures Extends(ReadLength(s, pos, info), ReadLength(s + more, pos, info))
  {
    hide ReadUint;
    UintExtends(s, more, pos, 1);
    UintExtends(s, more, pos, 2);
    UintExtends(s, more, pos, 4);
    UintExtends(s, more, pos + 4, 4);
  }

  lemma BytesExtend(s: seq<Byte>, more: seq<Byte>, pos: nat, k: nat)
    requires pos <= |s|
    ensures Extends(ReadBytes(s, pos, k), ReadBytes(s + more, pos, k))
  {
    if pos + k <= |s| {
      SliceExtends(s, more, pos, k);
    }
  }

  lemma {:induction false} TextExtends(s: seq<Byte>, more: seq<Byte>, pos: nat, length: int)
    requires pos <= |s|
    ensures Extends(ReadText(s, pos, length), ReadText(s + more, pos, length))
    decreases |s| - pos
  {
    hide Units, CodePoint, CharacterLength;
    if length > 0 && pos < |s| {
      var k := CharacterLength(s[pos]);
      CharacterLengths(s[pos]);
      if pos + k <= |s| {
        SliceExtends(s, more, pos, k);
        TextExtends(s, more, pos + k, length - k);
      }
    }
  }

  lemma CharacterLengths(b: Byte)
    ensures 1 <= CharacterLength(b) <= 4
  {
  }

  lemma ChunkLengthExtends(s: seq<Byte>, more: seq<Byte>, pos: nat, major: nat)
    requires pos <= |s|
    ensures Extends(ReadChunkLength(s, pos, major), ReadChunkLength(s + more, pos, major))
  {
    hide ReadLength;
    if pos < |s| {
      LengthExtends(s, more, pos + 1, s[pos] % 32);
    }
  }

  lemma {:induction false} BinaryChunksExtend(s: seq<Byte>, more: seq<Byte>, pos: nat)
    requires pos <= |s|
    ensures Extends(ReadBinaryChunks(s, pos), ReadBinaryChunks(s + more, pos))
    decreases |s| - pos
  {
    hide ReadChunkLength, ReadBytes;
    ChunkLengthExtends(s, more, pos, 2);
    var c := ReadChunkLength(s, pos, 2);
    if c.Ok? && c.value >= 0 {
      BytesExtend(s, more, c.next, c.value);
      var b := ReadBytes(s, c.next, c.value);
      if b.Ok? {
        BinaryChunksExtend(s, more, b.next);
      }
    }
  }

  lemma {:induction false} TextChunksExtend(s: seq<Byte>, more: seq<Byte>, pos: nat)
    requires pos <= |s|
    ensures Extends(ReadTextChunks(s, pos), ReadTextChunks(s + more, pos))
    decreases |s| - pos
  {
    hide ReadChunkLength, ReadText;
    ChunkLengthExtends(s, more, pos, 3);
    var c := ReadChunkLength(s, pos, 3);
    if c.Ok? && c.value >= 0 {
      TextExtends(s, more, c.next, c.value);
      var u := ReadText(s, c.next, c.value);
      if u.Ok? {
        TextChunksExtend(s, more, u.next);
      }
    }
  }

  /** Reading an item looks at no byte behind it. */
  lemma {:induction false} ItemExtends(s: seq<Byte>, more: seq<Byte>, pos: nat, naming: Naming)
    requires pos <= |s|
    ensures Extends(ReadItem(s, pos, naming), ReadItem(s + more, pos, naming))
    decreases |s| - pos, 0
  {
    hide ReadLength, ReadBytes, ReadContent;
    if pos < |s| {
      var major, info := s[pos] / 32, s[pos] % 32;
      BytesExtend(s, more, pos + 1, if info == 25 then 2 else if info == 26 then 4 else 8);
      LengthExtends(s, more, pos + 1, info);
      var l := ReadLength(s, pos + 1, info);
      if l.Ok? && !(l.value < 0 && (major < 2 || 6 < major)) {
        ContentExtends(s, more, l.next, major, l.value, naming);
      }
    }
  }

  lemma {:induction false} ContentExtends(s: seq<Byte>, more: seq<Byte>, pos: nat, major: nat, length: int,
                                          naming: Naming)
    requires pos <= |s| && major < 8 && length >= -1 && (length >= 0 || 2 <= major <= 6)
    ensures Extends(ReadContent(s, pos, major, length, naming), ReadContent(s + more, pos, major, length, naming))
    decreases |s| - pos, 2
  {
    hide ReadBinaryChunks, ReadBytes, ReadTextChunks, ReadText, ReadItems, ReadItemsToBreak, ReadFields, ReadItem,
         Integer;
    match major
    case 2 =>
      BinaryChunksExtend(s, more, pos);
      if length >= 0 {
        BytesExtend(s, more, pos, length);
      }
    case 3 =>
      TextChunksExtend(s, more, pos);
      TextExtends(s, more, pos, length);
    case 4 =>
      ToBreakExtends(s, more, pos, naming);
      if length >= 0 {
        ItemsExtend(s, more, pos, length, naming);
      }
    case 5 => FieldsExtend(s, more, pos, length, [], naming);
    case 6 => ItemExtends(s, more, pos, naming);
    case _ =>
  }

  lemma {:induction false} ItemsExtend(s: seq<Byte>, more: seq<Byte>, pos: nat, n: nat, naming: Naming)
    requires pos <= |s|
    ensures Extends(ReadItems(s, pos, n, naming), ReadItems(s + more, pos, n, naming))
    decreases |s| - pos, 1
  {
    hide ReadItem;
    if n > 0 {
      ItemExtends(s, more, pos, naming);
      var v := ReadItem(s, pos, naming);
      if v.Ok? {
        ItemsExtend(s, more, v.next, n - 1, naming);
      }
    }
  }

  lemma {:induction false} ToBreakExtends(s: seq<Byte>, more: seq<Byte>, pos: nat, naming: Naming)
    requires pos <= |s|
    ensures Extends(ReadItemsToBreak(s, pos, naming), ReadItemsToBreak(s + more, pos, naming))
    decreases |s| - pos, 1
  {
    hide ReadItem;
    if pos < |s| && s[pos] != BREAK {
      ItemExtends(s, more, pos, naming);
      var v := ReadItem(s, pos, naming);
      if v.Ok? {
        ToBreakExtends(s, more, v.next, naming);
      }
    }
  }

  lemma {:induction false} FieldsExtend(s: seq<Byte>, more: seq<Byte>, pos: nat, n: int, fields: seq<Field>,
                                        naming: Naming)
    requires pos <= |s|
    ensures Extends(ReadFields(s, pos, n, fields, naming), ReadFields(s + more, pos, n, fields, naming))
    decreases |s| - pos, 1
  {
    hide ReadItem, Put, KeyName;
    if n != 0 && !(n < 0 && (pos == |s| || s[pos] == BREAK)) {
      ItemExtends(s, more, pos, naming);
      var k := ReadItem(s, pos, naming);
      if k.Ok? {
        ItemExtends(s, more, k.next, naming);
        var v := ReadItem(s, k.next, naming);
        var name := KeyName(k.value, naming);
        if v.Ok? && name.Name? {
          FieldsExtend(s, more, v.next, if n < 0 then n else n - 1, Put(fields, name.text, v.value), naming);
        }
      }
    }
  }

  /** An encoding of which the end is missing does not decode. */
  lemma Truncated(v: Value, k: nat, naming: Naming)
    requires Doubles(v) && |EncodeValue(v)| <= LIMIT && k < |EncodeValue(v)|
    ensures ReadItem(EncodeValue(v)[..k], 0, naming) == Fail && Decode(EncodeValue(v)[..k], naming) == Fail
  {
    hide EncodeValue, ReadItem, Decoded, Doubles;
    var e := EncodeValue(v);
    var s := e[..k];
    assert s + e[k..] == e;
    ItemExtends(s, e[k..], 0, naming);
    assert e[0..0 + |e|] == e;
    ReadEncoded(e, 0, v, naming);
  }

  // ---------------------------------------------------------------------------------------------------------
  // Examples of appendix A of RFC 8949
  // ---------------------------------------------------------------------------------------------------------

  lemma OneByte(n: nat)
    ensures BigEndian(n, 1) == [n % 256]
  {
    assert BigEndian(n / 256, 0) == [];
  }

  lemma TwoBytesOf(n: nat)
    ensures BigEndian(n, 2) == [n / 256 % 256, n % 256]
  {
    OneByte(n / 256);
  }

  lemma FourBytesOf(n: nat)
    ensures BigEndian(n, 4) == [n / 256 / 256 / 256 % 256, n / 256 / 256 % 256, n / 256 % 256, n % 256]
  {
    TwoBytesOf(n / 256 / 256);
    assert BigEndian(n / 256, 3) == BigEndian(n / 256 / 256, 2) + [n / 256 % 256];
  }

  lemma HeadExamples(major: nat)
    requires major < 8
    ensures Head(major, 23) == [major * 32 + 23] && Head(major, 24) == [major * 32 + 24, 24]
    ensures Head(major, 1000) == [major * 32 + 25, 0x03, 0xe8]
    ensures Head(major, 1000000) == [major * 32 + 26, 0x00, 0x0f, 0x42, 0x40]
  {
    hide BigEndian;
    OneByte(24);
    TwoBytesOf(1000);
    FourBytesOf(1000000);
  }

  lemma LongHeadExample(major: nat)
    requires major < 8
    ensures Head(major, 1000000000000) == [major * 32 + 27, 0x00, 0x00, 0x00, 0xe8, 0xd4, 0xa5, 0x10, 0x00]
  {
    hide BigEndian;
    FourBytesOf(0xe8);
    FourBytesOf(0xd4a51000);
  }

  lemma SimpleExamples()
    ensures EncodeValue(Int(1000)) == [0x19, 0x03, 0xe8] && EncodeValue(Int(-1001)) == [0x39, 0x03, 0xe8]
    ensures EncodeValue(Int(0)) == [0x00] && EncodeValue(Int(-1)) == [0x20]
    ensures EncodeValue(False) == [0xf4] && EncodeValue(True) == [0xf5]
    ensures EncodeValue(Null) == [0xf6] && EncodeValue(Undefined) == [0xf7]
    ensures EncodeValue(Binary([1, 2, 3, 4])) == [0x44, 1, 2, 3, 4]
  {
    hide BigEndian;
    HeadExamples(0);
    HeadExamples(1);
  }

  lemma OneByteExample()
    ensures Character(0x61, 0) == [0x61]
  {
    hide TwoBytes, ThreeBytes, FourBytes, Joined;
  }

  lemma TwoBytesExample()
    ensures Character(0xfc, 0) == [0xc3, 0xbc]
  {
    hide ThreeBytes, FourBytes, Joined;
  }

  lemma ThreeBytesExample()
    ensures Character(0x6c34, 0) == [0xe6, 0xb0, 0xb4]
  {
    hide TwoBytes, FourBytes, Joined;
  }

  lemma FourBytesExample()
    ensures Character(0xd800, 0xdd51) == [0xf0, 0x90, 0x85, 0x91]
  {
    hide TwoBytes, ThreeBytes, FourBytes, Joined;
    assert Joined(0xd800, 0xdd51) == 0x1_0151 by { JoinedExample(); }
    FourBytesOf10151();
  }

  lemma JoinedExample()
    ensures Joined(0xd800, 0xdd51) == 0x1_0151
  {
  }

  lemma FourBytesOf10151()
    ensures FourBytes(0x1_0151) == [0xf0, 0x90, 0x85, 0x91]
  {
  }

  lemma TextExamples()
    ensures EncodeValue(String([0x61])) == [0x61, 0x61]
    ensures EncodeValue(String([0xfc])) == [0x62, 0xc3, 0xbc]
    ensures EncodeValue(String([0x6c34])) == [0x63, 0xe6, 0xb0, 0xb4]
    ensures EncodeValue(String([0xd800, 0xdd51])) == [0x64, 0xf0, 0x90, 0x85, 0x91]
  {
    hide EncodeValue, EncodeText, Character;
    assert Character(0x61, 0) == [0x61] by { OneByteExample(); }
    TwoBytesExample();
    ThreeBytesExample();
    FourBytesExample();
    OneCharacter([0x61], [0x61]);
    OneCharacter([0xfc], [0xc3, 0xbc]);
    OneCharacter([0x6c34], [0xe6, 0xb0, 0xb4]);
    OneCharacter([0xd800, 0xdd51], [0xf0, 0x90, 0x85, 0x91]);
  }

  /** A text of one character. */
  lemma OneCharacter(u: Text, bytes: seq<Byte>)
    requires u != [] && |u| == Width(u) && bytes == Character(u[0], Second(u)) && |bytes| < 24
    ensures EncodeText(u) == bytes
    ensures EncodeValue(String(u)) == [0x60 + |bytes|] + bytes
  {
    hide Character, Second;
    assert u[Width(u)..] == [];
    assert EncodeText(u) == bytes + EncodeText([]);
  }

  lemma NestedExamples()
    ensures EncodeValue(Array([True, Array([False])])) == [0x82, 0xf5, 0x81, 0xf4]
    ensures EncodeValue(Object([Field([0x61], Null)])) == [0xa1, 0x61, 0x61, 0xf6]
  {
    ListExample();
    var fields := [Field([0x61], Null)];
    assert fields[1..] == [];
    OneCharacter([0x61], [0x61]);
    assert EncodeFields(fields) == EncodeString([0x61]) + EncodeValue(Null) + EncodeFields([]);
  }

  lemma ListExample()
    ensures EncodeValue(Array([True, Array([False])])) == [0x82, 0xf5, 0x81, 0xf4]
  {
    var inner, outer := [False], [True, Array([False])];
    assert inner[1..] == [] && outer[1..] == [Array([False])] && outer[1..][1..] == [];
    assert EncodeItems(inner) == [0xf4] + EncodeItems([]);
    assert EncodeValue(Array(inner)) == [0x81, 0xf4];
    assert EncodeItems(outer[1..]) == [0x81, 0xf4] + EncodeItems([]);
    assert EncodeItems(outer) == [0xf5] + EncodeItems(outer[1..]);
  }
}
