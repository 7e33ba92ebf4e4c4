/**
  Decoding undoes encoding: what comes back for every value, whatever bytes follow it, and for exactly which values
  it is the value itself.
*/
module CborRoundTrip {
  import opened Bytes
  import opened JsNumbers
  import opened CborValues
  import opened CborDecoding

  /** The bytes e lie at a position. */
  ghost predicate At(s: seq<Byte>, pos: nat, e: seq<Byte>)
  {
    pos + |e| <= |s| && s[pos..pos + |e|] == e
  }

  lemma AtSplit(s: seq<Byte>, pos: nat, a: seq<Byte>, b: seq<Byte>)
    requires At(s, pos, a + b)
    ensures At(s, pos, a) && At(s, pos + |a|, b)
  {
    assert s[pos..pos + |a|] == s[pos..pos + |a + b|][..|a|];
    assert s[pos + |a|..pos + |a| + |b|] == s[pos..pos + |a + b|][|a|..];
  }

  lemma AtFirst(s: seq<Byte>, pos: nat, e: seq<Byte>)
    requires At(s, pos, e) && e != []
    ensures s[pos] == e[0]
  {
    assert s[pos] == s[pos..pos + |e|][0];
  }

  // ---------------------------------------------------------------------------------------------------------
  // Heads
  // ---------------------------------------------------------------------------------------------------------

  lemma ReadBigEndian(s: seq<Byte>, pos: nat, n: nat, k: nat)
    requires n < Pow256(k) && At(s, pos, BigEndian(n, k))
    ensures ReadUint(s, pos, k) == Ok(n, pos + k)
  {
    NumberOfBigEndian(n, k);
  }

  lemma Powers()
    ensures Pow256(1) == 0x100 && Pow256(2) == 0x1_0000 && Pow256(4) == 0x1_0000_0000
  {
    assert Pow256(3) == 0x100_0000;
  }

  lemma ReadHead(s: seq<Byte>, pos: nat, major: nat, n: nat)
    requires major < 8 && n <= POW_2_53 && At(s, pos, Head(major, n))
    ensures pos + |Head(major, n)| <= |s|
    ensures s[pos] / 32 == major
    ensures ReadLength(s, pos + 1, s[pos] % 32) == Ok(n, pos + |Head(major, n)|)
  {
    Powers();
    var head := Head(major, n);
    AtFirst(s, pos, head);
    if n >= 24 {
      AtSplit(s, pos, [head[0]], head[1..]);
      assert [head[0]] + head[1..] == head;
      if n < 0x100 {
        ReadBigEndian(s, pos + 1, n, 1);
      } else if n < 0x1_0000 {
        ReadBigEndian(s, pos + 1, n, 2);
      } else if n < 0x1_0000_0000 {
        ReadBigEndian(s, pos + 1, n, 4);
      } else {
        var high, low := n / 0x1_0000_0000, n % 0x1_0000_0000;
        AtSplit(s, pos + 1, BigEndian(high, 4), BigEndian(low, 4));
        ReadBigEndian(s, pos + 1, high, 4);
        ReadBigEndian(s, pos + 5, low, 4);
      }
    }
  }

  /** No head of any form says the same in fewer bytes: the preferred serialization of section 4.1. */
  lemma HeadShortest(s: seq<Byte>, pos: nat, n: nat)
    requires pos < |s| && ReadLength(s, pos + 1, s[pos] % 32).Ok? && ReadLength(s, pos + 1, s[pos] % 32).value == n
    ensures |Head(s[pos] / 32, n)| <= ReadLength(s, pos + 1, s[pos] % 32).next - pos
  {
    hide Number;
    Powers();
    var info := s[pos] % 32;
    if info == 24 {
      NumberBounded(s[pos + 1..pos + 2]);
    } else if info == 25 {
      NumberBounded(s[pos + 1..pos + 3]);
    } else if info == 26 {
      NumberBounded(s[pos + 1..pos + 5]);
    }
  }

  lemma {:induction false} NumberBounded(s: seq<Byte>)
    ensures Number(s) < Pow256(|s|)
  {
    if s != [] {
      NumberBounded(s[..|s| - 1]);
    }
  }

  // ---------------------------------------------------------------------------------------------------------
  // Text
  // ---------------------------------------------------------------------------------------------------------

  /** What the units of a character come back as: every unit from 0xd800 up is made the first of a pair. */
  function Returned(c: Unit, d: Unit): (r: Text)
    ensures |r| > 0
  {
    if c < 0xd800 then [c] else [0xd800 + c % 1024, 0xdc00 + d % 1024]
  }

  function Pairs(u: Text): (r: Text)
    ensures |r| >= |u|
  {
    if u == [] then [] else Returned(u[0], Second(u)) + Pairs(u[Width(u)..])
  }

  /** Units under 0xd800 and surrogate pairs. */
  ghost predicate WellFormedText(u: Text)
  {
    u == []
    || (u[0] < 0xd800 && WellFormedText(u[1..]))
    || (|u| > 1 && 0xd800 <= u[0] < 0xdc00 && 0xdc00 <= u[1] < 0xe000 && WellFormedText(u[2..]))
  }

  /** Exactly the well-formed texts come back unchanged. */
  lemma {:induction false} PairsUnchanged(u: Text)
    ensures Pairs(u) == u <==> WellFormedText(u)
  {
    if u != [] {
      var k := Width(u);
      var r := Returned(u[0], Second(u));
      PairsUnchanged(u[k..]);
      assert u == u[..k] + u[k..];
      if Pairs(u) == u {
        assert Pairs(u)[0] == r[0];
        if u[0] >= 0xd800 {
          assert Pairs(u)[1] == r[1];
        }
        assert Pairs(u)[|r|..] == Pairs(u[k..]);
      }
      if u[0] < 0xd800 || (|u| > 1 && u[0] < 0xdc00 && 0xdc00 <= u[1] < 0xe000) {
        assert r == u[..k];
      }
    }
  }

  lemma CodeOfOne(c: nat)
    requires c < 0x80
    ensures CharacterLength(c) == 1 && CodePoint([c]) == c
  {
  }

  lemma CodeOfTwo(c: nat)
    requires 0x80 <= c < 0x800
    ensures CharacterLength(TwoBytes(c)[0]) == |TwoBytes(c)| && CodePoint(TwoBytes(c)) == c
  {
    Assemble2(c);
  }

  lemma CodeOfThree(c: nat)
    requires 0x800 <= c < 0xd800
    ensures CharacterLength(ThreeBytes(c)[0]) == |ThreeBytes(c)| && CodePoint(ThreeBytes(c)) == c
  {
    Assemble3(c);
  }

  lemma CodeOfFour(c: nat)
    requires 0x1_0000 <= c < 0x11_0000
    ensures CharacterLength(FourBytes(c)[0]) == |FourBytes(c)| && CodePoint(FourBytes(c)) == c
  {
    Assemble4(c);
  }

  lemma CodePointOfCharacter(c: Unit, d: Unit)
    ensures CharacterLength(Character(c, d)[0]) == |Character(c, d)|
    ensures CodePoint(Character(c, d)) < 0x40_0000 && Units(CodePoint(Character(c, d))) == Returned(c, d)
  {
    hide CharacterLength, CodePoint, TwoBytes, ThreeBytes, FourBytes;
    if c < 0x80 {
      CodeOfOne(c);
    } else if c < 0x800 {
      CodeOfTwo(c);
    } else if c < 0xd800 {
      CodeOfThree(c);
    } else {
      CodeOfFour(Joined(c, d));
      Halves(c % 1024, d % 1024);
    }
  }

  lemma Halves(high: nat, low: nat)
    requires high < 1024 && low < 1024
    ensures (high * 1024 + low) / 1024 % 0x800 == high && (high * 1024 + low) % 1024 == low
  {
  }

  lemma Assemble2(n: nat)
    requires n < 0x800
    ensures (0xc0 + n / 64) % 32 * 64 + (0x80 + n % 64) % 64 == n
  {
  }

  lemma Digit(n: nat, d: nat, base: nat)
    requires d < base && ((base == 16 && n == d + 0xf0) || (base == 64 && n == d + 0x80))
    ensures n % base == d
  {
  }

  lemma Assemble3(n: nat)
    requires n < 0x1_0000
    ensures (0xe0 + n / 4096) % 16 * 4096 + ((0x80 + n / 64 % 64) % 64 * 64 + (0x80 + n % 64) % 64) == n
  {
    assert n / 4096 == n / 64 / 64;
  }

  lemma Assemble4(n: nat)
    requires n < 0x40_0000
    ensures (0xf0 + n / 0x4_0000) % 16 * 0x4_0000 + (0x80 + n / 4096 % 64) % 64 * 4096
            + ((0x80 + n / 64 % 64) % 64 * 64 + (0x80 + n % 64) % 64) == n
  {
    var a, b, c := n / 64, n / 4096, n / 0x4_0000;
    assert b == a / 64 && c == b / 64;
    Digit(c + 0xf0, c, 16);
    Digit(0x80 + b % 64, b % 64, 64);
    Digit(0x80 + a % 64, a % 64, 64);
    Digit(0x80 + n % 64, n % 64, 64);
  }

  lemma {:induction false} ReadEncodedText(s: seq<Byte>, pos: nat, u: Text)
    requires pos <= |s| && At(s, pos, EncodeText(u))
    ensures ReadText(s, pos, |EncodeText(u)|) == Ok(Pairs(u), pos + |EncodeText(u)|)
    decreases |u|
  {
    hide Character, CharacterLength, CodePoint, Units, Returned;
    if u != [] {
      var e, rest := Character(u[0], Second(u)), u[Width(u)..];
      AtSplit(s, pos, e, EncodeText(rest));
      AtFirst(s, pos, e);
      CodePointOfCharacter(u[0], Second(u));
      ReadEncodedText(s, pos + |e|, rest);
    }
  }

  // ---------------------------------------------------------------------------------------------------------
  // Values
  // ---------------------------------------------------------------------------------------------------------

  /** What a value comes back as. */
  function Decoded(v: Value): Value
    decreases v, 0
  {
    match v
    case String(units) => String(Pairs(units))
    case Array(items) => Array(DecodedItems(items))
    case Object(fields) => Object(DecodedFields(fields, []))
    case _ => v
  }

  function DecodedItems(items: seq<Value>): seq<Value>
    decreases items, 0
  {
    if items == [] then [] else [Decoded(items[0])] + DecodedItems(items[1..])
  }

  function DecodedFields(fields: seq<Field>, before: seq<Field>): seq<Field>
    decreases fields, 0
  {
    if fields == [] then before
    else DecodedFields(fields[1..], Put(before, Pairs(fields[0].key), Decoded(fields[0].value)))
  }

  lemma {:induction false} ReadEncoded(s: seq<Byte>, pos: nat, v: Value, naming: Naming)
    requires pos <= |s| && Doubles(v) && At(s, pos, EncodeValue(v)) && |EncodeValue(v)| <= LIMIT
    ensures ReadItem(s, pos, naming) == Ok(Decoded(v), pos + |EncodeValue(v)|)
    decreases v, 0
  {
    hide Head, ReadLength, ReadItem, ReadContent, ReadItems, ReadFields, EncodeItems, EncodeFields, DecodedFields,
         DecodedItems;
    match v
    case Int(n) => ReadEncodedInt(s, pos, n, naming);
    case String(units) => ReadEncodedString(s, pos, units, naming);
    case Binary(bytes) => ReadEncodedBinary(s, pos, bytes, naming);
    case Array(items) =>
      ReadHeadOf(s, pos, 4, |items|, EncodeItems(items), naming);
      ReadEncodedItems(s, pos + |Head(4, |items|)|, items, naming);
      ContentOfArray(s, pos + |Head(4, |items|)|, |items|, naming);
    case Object(fields) =>
      ReadHeadOf(s, pos, 5, |fields|, EncodeFields(fields), naming);
      ReadEncodedFields(s, pos + |Head(5, |fields|)|, fields, [], naming);
      ContentOfObject(s, pos + |Head(5, |fields|)|, |fields|, naming);
    case _ => ReadEncodedFixed(s, pos, v, naming);
  }

  lemma ReadEncodedFixed(s: seq<Byte>, pos: nat, v: Value, naming: Naming)
    requires pos <= |s| && Doubles(v) && At(s, pos, EncodeValue(v))
    requires v.False? || v.True? || v.Null? || v.Undefined? || v.Float?
    ensures ReadItem(s, pos, naming) == Ok(v, pos + |EncodeValue(v)|)
  {
    AtFirst(s, pos, EncodeValue(v));
    if v.Float? {
      AtSplit(s, pos, [0xfb], v.bits);
    }
  }

  /** A head leads to its content. */
  lemma ReadNested(s: seq<Byte>, pos: nat, major: nat, n: nat, naming: Naming)
    requires pos < |s| && major < 7 && s[pos] / 32 == major
    requires ReadLength(s, pos + 1, s[pos] % 32).Ok? && ReadLength(s, pos + 1, s[pos] % 32).value == n
    ensures ReadItem(s, pos, naming) == ReadContent(s, ReadLength(s, pos + 1, s[pos] % 32).next, major, n, naming)
  {
  }

  lemma ReadHeadOf(s: seq<Byte>, pos: nat, major: nat, n: nat, content: seq<Byte>, naming: Naming)
    requires major < 7 && n <= POW_2_53 && At(s, pos, Head(major, n) + content)
    ensures pos + |Head(major, n)| <= |s| && At(s, pos + |Head(major, n)|, content)
    ensures ReadItem(s, pos, naming) == ReadContent(s, pos + |Head(major, n)|, major, n, naming)
  {
    hide Head, ReadLength, ReadItem, ReadContent;
    AtSplit(s, pos, Head(major, n), content);
    ReadHead(s, pos, major, n);
    ReadNested(s, pos, major, n, naming);
  }

  lemma ContentOfArray(s: seq<Byte>, pos: nat, n: nat, naming: Naming)
    requires pos <= |s| && n < 0x1_0000_0000 && ReadItems(s, pos, n, naming).Ok?
    ensures var r := ReadItems(s, pos, n, naming);
            ReadContent(s, pos, 4, n, naming) == Ok(Array(r.value), r.next)
  {
  }

  lemma ContentOfObject(s: seq<Byte>, pos: nat, n: nat, naming: Naming)
    requires pos <= |s| && ReadFields(s, pos, n, [], naming).Ok?
    ensures var r := ReadFields(s, pos, n, [], naming);
            ReadContent(s, pos, 5, n, naming) == Ok(Object(r.value), r.next)
  {
  }

  lemma ReadEncodedInt(s: seq<Byte>, pos: nat, n: SafeInt, naming: Naming)
    requires pos <= |s| && At(s, pos, EncodeValue(Int(n)))
    ensures ReadItem(s, pos, naming) == Ok(Int(n), pos + |EncodeValue(Int(n))|)
  {
    hide Head, ReadLength, ReadItem, Integer;
    var major, size := if n >= 0 then 0 else 1, if n >= 0 then n else -(n + 1);
    assert EncodeValue(Int(n)) == Head(major, size);
    ReadHead(s, pos, major, size);
    ReadNested(s, pos, major, size, naming);
    SafeInteger(major, size);
  }

  lemma ReadEncodedBinary(s: seq<Byte>, pos: nat, bytes: seq<Byte>, naming: Naming)
    requires pos <= |s| && At(s, pos, EncodeValue(Binary(bytes))) && |bytes| <= LIMIT
    ensures ReadItem(s, pos, naming) == Ok(Binary(bytes), pos + |EncodeValue(Binary(bytes))|)
  {
    hide Head, ReadLength, ReadItem;
    AtSplit(s, pos, Head(2, |bytes|), bytes);
    ReadHead(s, pos, 2, |bytes|);
    ReadNested(s, pos, 2, |bytes|, naming);
  }

  lemma ReadEncodedString(s: seq<Byte>, pos: nat, u: Text, naming: Naming)
    requires pos <= |s| && At(s, pos, EncodeString(u)) && |EncodeString(u)| <= LIMIT
    ensures ReadItem(s, pos, naming) == Ok(String(Pairs(u)), pos + |EncodeString(u)|)
  {
    hide Head, ReadLength, ReadItem, ReadText, EncodeText, Pairs;
    var e := EncodeText(u);
    AtSplit(s, pos, Head(3, |e|), e);
    ReadHead(s, pos, 3, |e|);
    ReadEncodedText(s, pos + |Head(3, |e|)|, u);
    ReadNested(s, pos, 3, |e|, naming);
  }

  lemma {:induction false} ReadEncodedItems(s: seq<Byte>, pos: nat, items: seq<Value>, naming: Naming)
    requires pos <= |s| && (forall i :: 0 <= i < |items| ==> Doubles(items[i]))
    requires At(s, pos, EncodeItems(items)) && |EncodeItems(items)| <= LIMIT
    ensures ReadItems(s, pos, |items|, naming) == Ok(DecodedItems(items), pos + |EncodeItems(items)|)
    decreases items, 0
  {
    hide ReadItem, EncodeValue, Decoded;
    if items != [] {
      var e := EncodeValue(items[0]);
      AtSplit(s, pos, e, EncodeItems(items[1..]));
      ReadEncoded(s, pos, items[0], naming);
      ReadEncodedItems(s, pos + |e|, items[1..], naming);
    }
  }

  lemma {:induction false} ReadEncodedFields(s: seq<Byte>, pos: nat, fields: seq<Field>, before: seq<Field>,
                                             naming: Naming)
    requires pos <= |s| && (forall i :: 0 <= i < |fields| ==> Doubles(fields[i].value))
    requires At(s, pos, EncodeFields(fields)) && |EncodeFields(fields)| <= LIMIT
    ensures ReadFields(s, pos, |fields|, before, naming)
            == Ok(DecodedFields(fields, before), pos + |EncodeFields(fields)|)
    decreases fields, 0
  {
    hide ReadItem, EncodeValue, EncodeString, Decoded, Pairs, Put;
    if fields != [] {
      var k, e := EncodeString(fields[0].key), EncodeValue(fields[0].value);
      AtSplit(s, pos, k + e, EncodeFields(fields[1..]));
      AtSplit(s, pos, k, e);
      ReadEncodedString(s, pos, fields[0].key, naming);
      ReadEncoded(s, pos + |k|, fields[0].value, naming);
      ReadEncodedFields(s, pos + |k| + |e|, fields[1..],
                        Put(before, Pairs(fields[0].key), Decoded(fields[0].value)), naming);
    }
  }

  // ---------------------------------------------------------------------------------------------------------
  // The round trip
  // ---------------------------------------------------------------------------------------------------------

  /** Values whose texts are well-formed and whose objects have distinct ordinary keys. */
  ghost predicate WellFormed(v: Value)
    decreases v
  {
    match v
    case String(units) => WellFormedText(units)
    case Array(items) => forall i :: 0 <= i < |items| ==> WellFormed(items[i])
    case Object(fields) =>
      (forall i :: 0 <= i < |fields| ==> WellFormedText(fields[i].key) && WellFormed(fields[i].value))
      && ProperKeys(fields)
    case _ => true
  }

  ghost predicate ProperKeys(fields: seq<Field>)
  {
    && (forall i :: 0 <= i < |fields| ==> fields[i].key != PROTO)
    && (forall i, j :: 0 <= i < j < |fields| ==> fields[i].key != fields[j].key)
  }

  ghost predicate HasKey(fields: seq<Field>, key: Text)
  {
    exists i :: 0 <= i < |fields| && fields[i].key == key
  }

  lemma {:induction false} PutSize(fields: seq<Field>, key: Text, value: Value)
    ensures |fields| <= |Put(fields, key, value)| <= |fields| + 1
    ensures |Put(fields, key, value)| == |fields| + 1 <==> key != PROTO && !HasKey(fields, key)
    ensures key != PROTO && !HasKey(fields, key) ==> Put(fields, key, value) == fields + [Field(key, value)]
  {
    if key != PROTO && fields != [] && fields[0].key != key {
      PutSize(fields[1..], key, value);
      if HasKey(fields, key) {
        var i :| 0 <= i < |fields| && fields[i].key == key;
        assert fields[1..][i - 1].key == key;
      }
    }
  }

  lemma FirstKey(fields: seq<Field>, key: Text)
    requires fields != []
    ensures HasKey(fields, key) <==> fields[0].key == key || HasKey(fields[1..], key)
    ensures ProperKeys(fields) ==> ProperKeys(fields[1..]) && !HasKey(fields[1..], fields[0].key)
  {
    var rest := fields[1..];
    if HasKey(rest, key) {
      var i :| 0 <= i < |rest| && rest[i].key == key;
      assert fields[i + 1].key == key;
    }
    if HasKey(fields, key) && fields[0].key != key {
      var i :| 0 <= i < |fields| && fields[i].key == key;
      assert rest[i - 1].key == key;
    }
  }

  /** The fields with the value of a property replaced. */
  ghost predicate Replaced(before: seq<Field>, key: Text, value: Value, after: seq<Field>)
  {
    && |after| == |before|
    && forall i :: 0 <= i < |before| ==>
         after[i] == if before[i].key == key then Field(key, value) else before[i]
  }

  /**
    An assignment to a property that exists replaces its value and leaves its place and the others, and to another one
    adds it at the end; an assignment to the prototype adds none.
  */
  lemma {:induction false} PutMeans(fields: seq<Field>, key: Text, value: Value)
    requires ProperKeys(fields)
    ensures var put := Put(fields, key, value);
            if key == PROTO then put == fields
            else if HasKey(fields, key) then Replaced(fields, key, value, put)
            else put == fields + [Field(key, value)]
  {
    hide ProperKeys, HasKey, Replaced;
    if key != PROTO {
      if fields == [] {
        assert !HasKey(fields, key) by { NoKey(fields, key); }
      } else {
        var first, rest := fields[0], fields[1..];
        FirstKey(fields, key);
        if first.key == key {
          FirstKey(fields, first.key);
          assert !HasKey(rest, key);
          ReplacedFirst(first, rest, key, value);
        } else {
          PutMeans(rest, key, value);
          if HasKey(rest, key) {
            ReplacedRest(first, rest, key, value, Put(rest, key, value));
          }
        }
        assert [first] + rest == fields;
      }
    }
  }

  lemma NoKey(fields: seq<Field>, key: Text)
    ensures !HasKey(fields, key) <==> forall i :: 0 <= i < |fields| ==> fields[i].key != key
  {
  }

  lemma ReplacedFirst(first: Field, rest: seq<Field>, key: Text, value: Value)
    requires first.key == key && !HasKey(rest, key)
    ensures Replaced([first] + rest, key, value, [Field(key, value)] + rest)
  {
    NoKey(rest, key);
  }

  lemma ReplacedRest(first: Field, rest: seq<Field>, key: Text, value: Value, after: seq<Field>)
    requires first.key != key && Replaced(rest, key, value, after)
    ensures Replaced([first] + rest, key, value, [first] + after)
  {
  }

  /** Each entry of an object on its own. */
  function DecodedField(f: Field): Field
  {
    Field(Pairs(f.key), Decoded(f.value))
  }

  /** Nothing is dropped or overwritten exactly when the keys that come back are new, distinct and ordinary. */
  lemma {:induction false} FieldsKept(fields: seq<Field>, before: seq<Field>)
    requires ProperKeys(before)
    ensures var each := seq(|fields|, i requires 0 <= i < |fields| => DecodedField(fields[i]));
            var after := DecodedFields(fields, before);
            && |after| <= |before| + |fields|
            && (|after| == |before| + |fields| <==> ProperKeys(before + each))
            && (ProperKeys(before + each) ==> after == before + each)
  {
    hide Put, Decoded, Pairs, ProperKeys;
    var each := seq(|fields|, i requires 0 <= i < |fields| => DecodedField(fields[i]));
    if fields == [] {
      assert before + each == before;
    } else {
      var f := DecodedField(fields[0]);
      var rest := fields[1..];
      var each1 := seq(|rest|, i requires 0 <= i < |rest| => DecodedField(rest[i]));
      var put := Put(before, f.key, f.value);
      assert each == [f] + each1;
      PutSize(before, f.key, f.value);
      PutKeepsProper(before, f.key, f.value);
      FieldsKept(rest, put);
      if f.key != PROTO && !HasKey(before, f.key) {
        assert put + each1 == before + each;
      } else {
        NotProper(before, each);
      }
    }
  }

  lemma NotProper(before: seq<Field>, each: seq<Field>)
    requires each != [] && (each[0].key == PROTO || HasKey(before, each[0].key))
    ensures !ProperKeys(before + each)
  {
    var all := before + each;
    assert all[|before|] == each[0];
    if HasKey(before, each[0].key) {
      var i :| 0 <= i < |before| && before[i].key == each[0].key;
      assert all[i] == before[i] && i < |before|;
    }
  }

  lemma {:induction false} PutKeepsProper(fields: seq<Field>, key: Text, value: Value)
    requires ProperKeys(fields)
    ensures ProperKeys(Put(fields, key, value))
    ensures forall k :: HasKey(Put(fields, key, value), k) ==> HasKey(fields, k) || k == key
  {
    if key != PROTO && fields != [] && fields[0].key != key {
      var put := Put(fields[1..], key, value);
      PutKeepsProper(fields[1..], key, value);
      var all := [fields[0]] + put;
      forall i | 0 <= i < |all|
        ensures all[i].key == key || HasKey(fields, all[i].key)
        ensures i > 0 ==> all[i].key != fields[0].key
      {
        if i > 0 {
          assert put[i - 1] == all[i] && HasKey(put, all[i].key);
          if all[i].key != key {
            assert HasKey(fields[1..], all[i].key);
            var j :| 0 <= j < |fields[1..]| && fields[1..][j].key == all[i].key;
            assert fields[j + 1].key == all[i].key;
          }
        }
      }
    }
  }

  /** Exactly the well-formed values come back as themselves. */
  lemma {:induction false} DecodedUnchanged(v: Value)
    ensures Decoded(v) == v <==> WellFormed(v)
    decreases v, 0
  {
    match v
    case String(units) => PairsUnchanged(units);
    case Array(items) => ItemsUnchanged(items);
    case Object(fields) => FieldsUnchanged(fields);
    case _ =>
  }

  lemma {:induction false} ItemsUnchanged(items: seq<Value>)
    ensures |DecodedItems(items)| == |items|
    ensures DecodedItems(items) == items <==> (forall i :: 0 <= i < |items| ==> WellFormed(items[i]))
    decreases items, 0
  {
    if items != [] {
      DecodedUnchanged(items[0]);
      ItemsUnchanged(items[1..]);
      assert items == [items[0]] + items[1..];
      assert forall i :: 1 <= i < |items| ==> items[i] == items[1..][i - 1];
      assert forall i :: 0 <= i < |items[1..]| ==> items[1..][i] == items[i + 1];
    }
  }

  lemma {:induction false} FieldsUnchanged(fields: seq<Field>)
    ensures DecodedFields(fields, []) == fields <==> WellFormed(Object(fields))
    decreases fields, 0
  {
    hide Pairs, Decoded, WellFormed, WellFormedText, ProperKeys, DecodedFields;
    var each := seq(|fields|, i requires 0 <= i < |fields| => DecodedField(fields[i]));
    assert ProperKeys([]) by { NoKeys(); }
    FieldsKept(fields, []);
    assert [] + each == each;
    forall i | 0 <= i < |fields|
      ensures each[i] == fields[i] <==> WellFormedText(fields[i].key) && WellFormed(fields[i].value)
    {
      PairsUnchanged(fields[i].key);
      DecodedUnchanged(fields[i].value);
    }
    WellFormedObject(fields);
    if DecodedFields(fields, []) == fields {
      assert each == fields;
    }
    if WellFormed(Object(fields)) {
      assert each == fields;
    }
  }

  lemma WellFormedObject(fields: seq<Field>)
    ensures WellFormed(Object(fields))
            <==> (forall i :: 0 <= i < |fields| ==> WellFormedText(fields[i].key) && WellFormed(fields[i].value))
                 && ProperKeys(fields)
  {
    hide WellFormedText, ProperKeys;
  }

  lemma NoKeys()
    ensures ProperKeys([])
  {
  }

  /**
    Decoding the bytes of a value, whatever follows them, reads exactly those bytes; it gives the value back if and
    only if the value is well-formed.
  */
  lemma RoundTrip(v: Value, rest: seq<Byte>, naming: Naming)
    requires Doubles(v) && |EncodeValue(v)| <= LIMIT
    ensures ReadItem(EncodeValue(v) + rest, 0, naming) == Ok(Decoded(v), |EncodeValue(v)|)
    ensures Decode(EncodeValue(v) + rest, naming) == if rest == [] then Ok(Decoded(v), |EncodeValue(v)|) else Fail
    ensures Decode(EncodeValue(v), naming) == Ok(v, |EncodeValue(v)|) <==> WellFormed(v)
  {
    hide EncodeValue, ReadItem, Decoded, WellFormed;
    var e := EncodeValue(v);
    var s := e + rest;
    assert s[0..0 + |e|] == e;
    ReadEncoded(s, 0, v, naming);
    assert e[0..0 + |e|] == e;
    ReadEncoded(e, 0, v, naming);
    DecodedUnchanged(v);
  }

  /** No encoding is a proper prefix of another, and different values have different encodings. */
  lemma Unambiguous(v: Value, w: Value, a: seq<Byte>, b: seq<Byte>)
    requires Doubles(v) && WellFormed(v) && |EncodeValue(v)| <= LIMIT
    requires Doubles(w) && WellFormed(w) && |EncodeValue(w)| <= LIMIT
    requires EncodeValue(v) + a == EncodeValue(w) + b
    ensures v == w && a == b
  {
    hide EncodeValue, ReadItem, Decoded, WellFormed, Decode;
    var naming: Naming := key => NoName;
    RoundTrip(v, a, naming);
    RoundTrip(w, b, naming);
    DecodedUnchanged(v);
    DecodedUnchanged(w);
    assert a == (EncodeValue(v) + a)[|EncodeValue(v)|..];
    assert b == (EncodeValue(w) + b)[|EncodeValue(w)|..];
  }

  /** A private-use character, a lone surrogate and an entry named "__proto__" are lost on the way. */
  lemma Lost()
    ensures Decoded(String([0xe000])) != String([0xe000])
    ensures Decoded(String([0xd800])) != String([0xd800])
    ensures Decoded(Object([Field(PROTO, Null)])) == Object([])
  {
    hide Pairs, DecodedFields;
    PairsUnchanged([0xe000]);
    PairsUnchanged([0xd800]);
    ProtoDropped();
  }

  lemma ProtoDropped()
    ensures DecodedFields([Field(PROTO, Null)], []) == []
  {
    hide Pairs;
    ProtoUnchanged();
    var fields := [Field(PROTO, Null)];
    assert fields[1..] == [];
    assert DecodedFields(fields, []) == DecodedFields([], Put([], PROTO, Null));
  }

  lemma ProtoUnchanged()
    ensures Pairs(PROTO) == PROTO
  {
    assert WellFormedText(PROTO[9..]);
    assert PROTO[8..][1..] == PROTO[9..] && WellFormedText(PROTO[8..]);
    assert PROTO[7..][1..] == PROTO[8..] && WellFormedText(PROTO[7..]);
    assert PROTO[6..][1..] == PROTO[7..] && WellFormedText(PROTO[6..]);
    assert PROTO[5..][1..] == PROTO[6..] && WellFormedText(PROTO[5..]);
    assert PROTO[4..][1..] == PROTO[5..] && WellFormedText(PROTO[4..]);
    assert PROTO[3..][1..] == PROTO[4..] && WellFormedText(PROTO[3..]);
    assert PROTO[2..][1..] == PROTO[3..] && WellFormedText(PROTO[2..]);
    assert PROTO[1..][1..] == PROTO[2..] && WellFormedText(PROTO[1..]);
    PairsUnchanged(PROTO);
  }
}
