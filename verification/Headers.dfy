/**
 Serialisation of HTTP headers (connection/header.go): every name and value in base64, joined as
 `name:value;name:value`.

 A Go map is iterated in an order of its own each time, so a header map is a sequence of entries in the
 order that one iteration yields, and the two passes of the serialiser get a sequence each.
 */
module Headers {
  import opened Wrappers
  import opened Base64
  import Strings

  const COLON: Byte := 58
  const SEMICOLON: Byte := 59

  datatype Entry = Entry(name: Bytes, values: seq<Bytes>)

  datatype Header = Header(name: Bytes, value: Bytes)

  function OfEntry(name: Bytes, values: seq<Bytes>): seq<Header> {
    seq(|values|, i requires 0 <= i < |values| => Header(name, values[i]))
  }

  /** One header for every value, in iteration order. */
  function Flatten(entries: seq<Entry>): seq<Header> {
    if entries == [] then []
    else Flatten(entries[..|entries| - 1]) + OfEntry(entries[|entries| - 1].name, entries[|entries| - 1].values)
  }

  // ---------- Serialising ----------

  function SerializePair(h: Header): (text: Bytes) {
    Encode(h.name) + [COLON] + Encode(h.value)
  }

  function Serialize(headers: seq<Header>): Bytes {
    if headers == [] then []
    else
      var front := Serialize(headers[..|headers| - 1]);
      var last := SerializePair(headers[|headers| - 1]);
      if front == [] then last else front + [SEMICOLON] + last
  }

  /** The running total the first pass keeps: two delimiters for every pair. */
  function SerializedLen(headers: seq<Header>): nat {
    if headers == [] then 0
    else SerializedLen(headers[..|headers| - 1]) + PairLen(headers[|headers| - 1])
  }

  function PairLen(h: Header): nat {
    2 + EncodedLen(|h.name|) + EncodedLen(|h.value|)
  }

  // ---------- Deserialising ----------

  function Zeros(n: nat): Bytes {
    seq(n, _ => 0)
  }

  /** The whole buffer becomes the string: what decoding leaves unfilled stays zero. */
  function DecodeField(text: Bytes): Option<Bytes> {
    match Decode(text)
    case None => None
    case Some(b) =>
      DecodeFits(text);
      Some(b + Zeros(DecodedLen(|text|) - |b|))
  }

  function DeserializePair(text: Bytes): Option<Header> {
    var parts := Strings.Split(text, COLON);
    if |parts| != 2 then None
    else
      var name, value := DecodeField(parts[0]), DecodeField(parts[1]);
      if name.None? || value.None? then None else Some(Header(name.value, value.value))
  }

  /** What the non-empty parts read as, or `None` when one of them cannot be read. */
  function Collect(parts: seq<Bytes>, read: Bytes -> Option<Header>): Option<seq<Header>> {
    if parts == [] then Some([])
    else
      var front := Collect(parts[..|parts| - 1], read);
      var part := parts[|parts| - 1];
      if front.None? then None
      else if part == [] then front
      else match read(part)
        case None => None
        case Some(h) => Some(front.value + [h])
  }

  function Deserialize(text: Bytes): Option<seq<Header>> {
    Collect(Strings.Split(text, SEMICOLON), DeserializePair)
  }

  // ---------- The round trip ----------

  lemma LettersAvoid(s: Bytes)
    requires AllLetters(s)
    ensures COLON !in s && SEMICOLON !in s
  {
  }

  lemma PairFacts(h: Header)
    ensures SEMICOLON !in SerializePair(h) && SerializePair(h) != []
    ensures Strings.Split(SerializePair(h), COLON) == [Encode(h.name), Encode(h.value)]
    ensures |SerializePair(h)| == PairLen(h) - 1
  {
    EncodeIsLetters(h.name);
    EncodeIsLetters(h.value);
    LettersAvoid(Encode(h.name));
    LettersAvoid(Encode(h.value));
    Strings.SplitAtFirst(Encode(h.name), COLON, Encode(h.value));
    assert Strings.Split(Encode(h.value), COLON) == [Encode(h.value)];
    EncodeLength(h.name);
    EncodeLength(h.value);
  }

  lemma PairRoundTrip(h: Header)
    ensures DeserializePair(SerializePair(h)) == Some(h)
  {
    PairFacts(h);
    RoundTrip(h.name);
    RoundTrip(h.value);
    assert h.name + Zeros(0) == h.name && h.value + Zeros(0) == h.value;
  }

  function Pairs(headers: seq<Header>): seq<Bytes> {
    seq(|headers|, i requires 0 <= i < |headers| => SerializePair(headers[i]))
  }

  lemma OnePair(headers: seq<Header>, pair: Bytes)
    requires |headers| == 1 && pair == SerializePair(headers[0]) && SEMICOLON !in pair
    ensures Serialize(headers) == pair && Strings.Split(pair, SEMICOLON) == [pair] == Pairs(headers)
    ensures SerializedLen(headers) == PairLen(headers[0])
  {
    assert headers[..0] == [];
  }

  lemma PairsSnoc(headers: seq<Header>)
    requires headers != []
    ensures Pairs(headers) == Pairs(headers[..|headers| - 1]) + [SerializePair(headers[|headers| - 1])]
  {
  }

  /** The separator is written before every pair but the first, however short the pairs are. */
  lemma {:induction false} SerializeSplits(headers: seq<Header>)
    requires headers != []
    ensures Serialize(headers) != []
    ensures Strings.Split(Serialize(headers), SEMICOLON) == Pairs(headers)
    ensures |Serialize(headers)| == SerializedLen(headers) - 1
  {
    var n := |headers| - 1;
    var last := SerializePair(headers[n]);
    PairFacts(headers[n]);
    if n == 0 {
      OnePair(headers, last);
    } else {
      SerializeSplits(headers[..n]);
      Strings.SplitSnoc(Serialize(headers[..n]), SEMICOLON, last);
      PairsSnoc(headers);
    }
  }

  /** Parts that read one by one as the headers read together as the whole list. */
  lemma {:induction false} CollectAll(parts: seq<Bytes>, read: Bytes -> Option<Header>, headers: seq<Header>)
    requires |parts| == |headers|
    requires forall i :: 0 <= i < |parts| ==> parts[i] != [] && read(parts[i]) == Some(headers[i])
    ensures Collect(parts, read) == Some(headers)
  {
    if parts != [] {
      var n := |parts| - 1;
      CollectAll(parts[..n], read, headers[..n]);
      assert headers == headers[..n] + [headers[n]];
    }
  }

  lemma PartsRoundTrip(headers: seq<Header>)
    ensures Collect(Pairs(headers), DeserializePair) == Some(headers)
  {
    forall i | 0 <= i < |headers|
      ensures Pairs(headers)[i] != [] && DeserializePair(Pairs(headers)[i]) == Some(headers[i])
    {
      PairFacts(headers[i]);
      PairRoundTrip(headers[i]);
    }
    CollectAll(Pairs(headers), DeserializePair, headers);
  }

  lemma EmptyPart(read: Bytes -> Option<Header>)
    ensures Collect([[]], read) == Some([])
  {
    var parts: seq<Bytes> := [[]];
    assert parts[..0] == [];
    assert Collect(parts[..0], read) == Some([]);
  }

  lemma EmptyText()
    ensures Deserialize([]) == Some([])
  {
    var none: Bytes := [];
    assert Strings.Split(none, SEMICOLON) == [none];
    EmptyPart(DeserializePair);
  }

  /** Deserialising gives back the flattened headers, empty names and values included. */
  lemma SerializeRoundTrip(headers: seq<Header>)
    ensures Deserialize(Serialize(headers)) == Some(headers)
    ensures headers != [] ==> |Serialize(headers)| == SerializedLen(headers) - 1
  {
    if headers == [] {
      EmptyText();
    } else {
      SerializeSplits(headers);
      PartsRoundTrip(headers);
    }
  }

  /** The text itself: `name:value`, and a semicolon before all but the first. */
  lemma SerializesAs(front: seq<Header>, h: Header)
    ensures Serialize(front + [h]) ==
              (if front == [] then [] else Serialize(front) + [';' as int])
              + (Encode(h.name) + [':' as int] + Encode(h.value))
  {
    assert (front + [h])[..|front|] == front;
    if front != [] {
      SerializeRoundTrip(front);
      LenPositive(front);
    }
  }

  lemma LenPositive(headers: seq<Header>)
    requires headers != []
    ensures SerializedLen(headers) >= 2
  {
  }

  /** The parts between separators of one character. */
  function PartsOf(text: Bytes, separator: char): seq<Bytes>
    requires separator as int < 256
  {
    var b: Byte := separator as int;
    Strings.Split(text, b)
  }

  /** There is one colon, and both sides of it decode. */
  predicate Readable(part: Bytes) {
    var sides := PartsOf(part, ':');
    |sides| == 2 && Decode(sides[0]).Some? && Decode(sides[1]).Some?
  }

  function NonEmpty(parts: seq<Bytes>): nat {
    if parts == [] then 0
    else NonEmpty(parts[..|parts| - 1]) + if parts[|parts| - 1] == [] then 0 else 1
  }

  /** A text is read exactly when all its parts are that are not empty, and gives a header for each of them. */
  lemma DeserializesIff(text: Bytes)
    ensures Deserialize(text).Some? <==> AllReadable(PartsOf(text, ';'))
    ensures Deserialize(text).Some? ==> |Deserialize(text).value| == NonEmpty(PartsOf(text, ';'))
  {
    CollectsIff(PartsOf(text, ';'));
  }

  predicate AllReadable(parts: seq<Bytes>) {
    forall i :: 0 <= i < |parts| && parts[i] != [] ==> Readable(parts[i])
  }

  lemma ReadsPair(part: Bytes)
    ensures DeserializePair(part).Some? <==> Readable(part)
  {
  }

  lemma ReadableSnoc(front: seq<Bytes>, last: Bytes)
    ensures AllReadable(front + [last]) <==> AllReadable(front) && (last != [] ==> Readable(last))
    ensures NonEmpty(front + [last]) == NonEmpty(front) + if last == [] then 0 else 1
  {
    assert (front + [last])[..|front|] == front;
    assert (front + [last])[|front|] == last;
    assert forall i :: 0 <= i < |front| ==> (front + [last])[i] == front[i];
  }

  lemma {:induction false} CollectsIff(parts: seq<Bytes>)
    ensures Collect(parts, DeserializePair).Some? <==> AllReadable(parts)
    ensures Collect(parts, DeserializePair).Some? ==> |Collect(parts, DeserializePair).value| == NonEmpty(parts)
  {
    if parts != [] {
      var front, last := parts[..|parts| - 1], parts[|parts| - 1];
      CollectsIff(front);
      ReadsPair(last);
      assert parts == front + [last];
      ReadableSnoc(front, last);
    }
  }

  /** No two header lists serialise to the same text. */
  lemma SerializeIsInjective(a: seq<Header>, b: seq<Header>)
    requires Serialize(a) == Serialize(b)
    ensures a == b
  {
    SerializeRoundTrip(a);
    SerializeRoundTrip(b);
  }

  /**
   Line breaks are skipped by the decoder wherever they stand, but counted by the buffer: any text that
   decodes is read as its bytes and as many zeros as the breaks add to the computed length.
   */
  lemma FieldIsPadded(text: Bytes)
    ensures DecodeField(text).Some? <==> Decode(text).Some?
    ensures Decode(text).Some? ==>
              var padding := DecodedLen(|text|) - DecodedLen(|StripNewlines(text)|);
              && padding >= 0 && DecodeField(text) == Some(Decode(text).value + Zeros(padding))
              && (DecodeField(text) == Decode(text) <==> padding == 0)
  {
    if Decode(text).Some? {
      DecodeLength(StripNewlines(text));
      PaddedField(text, Decode(text).value);
      PaddingShows(Decode(text).value, DecodedLen(|text|) - DecodedLen(|StripNewlines(text)|));
    }
  }

  /**
   So a field with line breaks in any places reads back as what was encoded exactly when there is none, or
   a single one and the length is a multiple of three.
   */
  lemma ReadsBackIff(text: Bytes, b: Bytes)
    requires StripNewlines(text) == Encode(b)
    ensures |text| >= |Encode(b)| && DecodedLen(|text|) >= |b|
    ensures DecodeField(text) == Some(b + Zeros(DecodedLen(|text|) - |b|))
    ensures DecodeField(text) == Some(b) <==> |text| == |Encode(b)| || (|text| == |Encode(b)| + 1 && |b| % 3 == 0)
  {
    DecodeOfStripped(text, b);
    PaddedField(text, b);
    PaddingShows(b, DecodedLen(|text|) - |b|);
    PaddingLen(|b|, |text| - |Encode(b)|);
    EncodeLength(b);
  }

  lemma DecodeOfStripped(text: Bytes, b: Bytes)
    requires StripNewlines(text) == Encode(b)
    ensures Decode(text) == Some(b) && |text| >= |Encode(b)|
  {
    EncodeIsLetters(b);
    RoundTrip(b);
    StripShortens(text);
    LettersHaveNoNewlines(Encode(b));
  }

  /** A line feed behind a field adds a zero byte, unless the length of the field is a multiple of three. */
  lemma LineBreakPadsField(b: Bytes)
    ensures DecodeField(Encode(b) + [LINE_FEED]) == Some(b + Zeros(if |b| % 3 == 0 then 0 else 1))
    ensures DecodeField(Encode(b) + [LINE_FEED]) == Some(b) <==> |b| % 3 == 0
  {
    EncodeIsLetters(b);
    StripTrailing(Encode(b));
    ReadsBackIff(Encode(b) + [LINE_FEED], b);
    EncodeLength(b);
    PaddingLen(|b|, 1);
  }

  lemma PaddingShows(b: Bytes, n: nat)
    ensures b + Zeros(n) == b <==> n == 0
  {
    assert |b + Zeros(n)| == |b| + n;
  }

  lemma PaddedField(text: Bytes, b: Bytes)
    requires Decode(text) == Some(b)
    ensures DecodedLen(|text|) >= |b| && DecodeField(text) == Some(b + Zeros(DecodedLen(|text|) - |b|))
  {
    DecodeFits(text);
  }

  lemma PaddingLen(n: nat, breaks: nat)
    ensures DecodedLen(EncodedLen(n)) == n
    ensures DecodedLen(EncodedLen(n) + breaks) == n <==> breaks == 0 || (breaks == 1 && n % 3 == 0)
    ensures breaks == 1 ==> DecodedLen(EncodedLen(n) + breaks) == n + (if n % 3 == 0 then 0 else 1)
  {
    var q, r := n / 3, n % 3;
    assert n == 3 * q + r;
    assert EncodedLen(n) == 4 * q + (if r == 0 then 0 else r + 1);
    if breaks >= 1 {
      DecodedLenMonotone(EncodedLen(n) + 1, EncodedLen(n) + breaks);
    }
    if breaks >= 2 {
      DecodedLenMonotone(EncodedLen(n) + 2, EncodedLen(n) + breaks);
    }
  }

  lemma {:induction false} StripTrailing(s: Bytes)
    requires AllLetters(s)
    ensures StripNewlines(s + [LINE_FEED]) == s && StripNewlines(s) == s
  {
    if s == [] {
      assert s + [LINE_FEED] == [LINE_FEED];
    } else {
      assert (s + [LINE_FEED])[1..] == s[1..] + [LINE_FEED];
      StripTrailing(s[1..]);
    }
  }

  // ---------- Two iterations of one map ----------

  lemma FlattenSnoc(front: seq<Entry>, last: Entry)
    ensures Flatten(front + [last]) == Flatten(front) + OfEntry(last.name, last.values)
  {
    assert (front + [last])[..|front|] == front;
  }

  lemma {:induction false} FlattenConcat(a: seq<Entry>, b: seq<Entry>)
    ensures Flatten(a + b) == Flatten(a) + Flatten(b)
    decreases |b|
  {
    if b == [] {
      assert a + b == a && Flatten(b) == [];
    } else {
      var front, last := b[..|b| - 1], b[|b| - 1];
      assert b == front + [last] && a + b == a + front + [last];
      FlattenConcat(a, front);
      FlattenSnoc(a + front, last);
      FlattenSnoc(front, last);
      assert Flatten(a) + Flatten(front) + OfEntry(last.name, last.values)
          == Flatten(a) + (Flatten(front) + OfEntry(last.name, last.values));
    }
  }

  lemma LenSnoc(front: seq<Header>, h: Header)
    ensures SerializedLen(front + [h]) == SerializedLen(front) + PairLen(h)
  {
    assert (front + [h])[..|front|] == front;
  }

  lemma {:induction false} LenConcat(a: seq<Header>, b: seq<Header>)
    ensures SerializedLen(a + b) == SerializedLen(a) + SerializedLen(b)
    decreases |b|
  {
    if b == [] {
      assert a + b == a && SerializedLen(b) == 0;
    } else {
      var front, last := b[..|b| - 1], b[|b| - 1];
      assert b == front + [last] && a + b == a + front + [last];
      LenConcat(a, front);
      LenSnoc(a + front, last);
      LenSnoc(front, last);
    }
  }

  /** The computed length does not depend on the iteration order. */
  lemma {:induction false} LenIsOrderFree(first: seq<Entry>, second: seq<Entry>)
    requires multiset(first) == multiset(second)
    ensures SerializedLen(Flatten(first)) == SerializedLen(Flatten(second))
    decreases |first|
  {
    assert |first| == |multiset(first)| == |second|;
    if first != [] {
      var n := |first| - 1;
      var e := first[n];
      assert first == first[..n] + [e];
      assert e in multiset(second);
      var i :| 0 <= i < |second| && second[i] == e;
      var rest := second[..i] + second[i + 1..];
      assert second == second[..i] + [e] + second[i + 1..];
      assert multiset(rest) == multiset(second) - multiset{e};
      LenIsOrderFree(first[..n], rest);
      FlattenConcat(first[..n], [e]);
      FlattenConcat(second[..i] + [e], second[i + 1..]);
      FlattenConcat(second[..i], [e]);
      FlattenConcat(second[..i], second[i + 1..]);
      LenConcat(Flatten(first[..n]), Flatten([e]));
      LenConcat(Flatten(second[..i]) + Flatten([e]), Flatten(second[i + 1..]));
      LenConcat(Flatten(second[..i]), Flatten([e]));
      LenConcat(Flatten(second[..i]), Flatten(second[i + 1..]));
    }
  }

  // ---------- The loops ----------

  /** The first pass: the serialised length, and the longest encoding of a name or value. */
  method Measure(entries: seq<Entry>) returns (serializedLen: nat, maxTempLen: nat)
    ensures serializedLen == SerializedLen(Flatten(entries))
    ensures maxTempLen == MaxTempLen(Flatten(entries))
  {
    serializedLen, maxTempLen := 0, 0;
    for i := 0 to |entries|
      invariant serializedLen == SerializedLen(Flatten(entries[..i]))
      invariant maxTempLen == MaxTempLen(Flatten(entries[..i]))
    {
      assert entries[..i + 1][..i] == entries[..i];
      serializedLen, maxTempLen := MeasureEntry(entries[i], serializedLen, maxTempLen, Flatten(entries[..i]));
    }
    assert entries[..|entries|] == entries;
  }

  method MeasureEntry(e: Entry, oldLen: nat, oldMax: nat, ghost front: seq<Header>)
    returns (serializedLen: nat, maxTempLen: nat)
    requires oldLen == SerializedLen(front) && oldMax == MaxTempLen(front)
    ensures serializedLen == SerializedLen(front + OfEntry(e.name, e.values))
    ensures maxTempLen == MaxTempLen(front + OfEntry(e.name, e.values))
  {
    serializedLen, maxTempLen := oldLen, oldMax;
    assert front + OfEntry(e.name, e.values[..0]) == front;
    for j := 0 to |e.values|
      invariant serializedLen == SerializedLen(front + OfEntry(e.name, e.values[..j]))
      invariant maxTempLen == MaxTempLen(front + OfEntry(e.name, e.values[..j]))
    {
      EntrySnoc(front, e.name, e.values, j);
      MeasureSnoc(front + OfEntry(e.name, e.values[..j]), Header(e.name, e.values[j]));
      var nameLen := EncodedLen(|e.name|);
      var valueLen := EncodedLen(|e.values[j]|);
      serializedLen := serializedLen + (2 + nameLen + valueLen);
      maxTempLen := Max(Max(maxTempLen, nameLen), valueLen);
    }
    assert e.values[..|e.values|] == e.values;
  }

  function Max(a: nat, b: nat): nat {
    if b > a then b else a
  }

  function MaxTempLen(headers: seq<Header>): nat {
    if headers == [] then 0
    else
      var h := headers[|headers| - 1];
      Max(Max(MaxTempLen(headers[..|headers| - 1]), EncodedLen(|h.name|)), EncodedLen(|h.value|))
  }

  lemma MeasureSnoc(front: seq<Header>, h: Header)
    ensures SerializedLen(front + [h]) == SerializedLen(front) + PairLen(h)
    ensures MaxTempLen(front + [h]) == Max(Max(MaxTempLen(front), EncodedLen(|h.name|)), EncodedLen(|h.value|))
  {
    assert (front + [h])[..|front|] == front;
  }

  lemma EntrySnoc(front: seq<Header>, name: Bytes, values: seq<Bytes>, j: nat)
    requires j < |values|
    ensures front + OfEntry(name, values[..j + 1]) == front + OfEntry(name, values[..j]) + [Header(name, values[j])]
  {
  }

  predicate FitsIn(h: Header, size: nat) {
    EncodedLen(|h.name|) <= size && EncodedLen(|h.value|) <= size
  }

  lemma {:induction false} MaxCovers(headers: seq<Header>, h: Header)
    requires h in headers
    ensures FitsIn(h, MaxTempLen(headers))
  {
    var n := |headers| - 1;
    if h != headers[n] {
      assert headers == headers[..n] + [headers[n]];
      MaxCovers(headers[..n], h);
    }
  }

  /** A header comes from an entry, so two orders of the same entries have the same headers. */
  lemma {:induction false} FlattenMembers(entries: seq<Entry>, h: Header)
    ensures h in Flatten(entries) <==> exists e :: e in entries && e.name == h.name && h.value in e.values
  {
    if entries != [] {
      var n := |entries| - 1;
      var e := entries[n];
      assert entries == entries[..n] + [e];
      FlattenMembers(entries[..n], h);
      OfEntryMembers(e, h);
    }
  }

  lemma OfEntryMembers(e: Entry, h: Header)
    ensures h in OfEntry(e.name, e.values) <==> e.name == h.name && h.value in e.values
  {
    if e.name == h.name && h.value in e.values {
      var i :| 0 <= i < |e.values| && e.values[i] == h.value;
      assert OfEntry(e.name, e.values)[i] == h;
    }
  }

  lemma HeadersAreOrderFree(first: seq<Entry>, second: seq<Entry>, h: Header)
    requires multiset(first) == multiset(second) && h in Flatten(second)
    ensures h in Flatten(first)
  {
    FlattenMembers(first, h);
    FlattenMembers(second, h);
    var e :| e in second && e.name == h.name && h.value in e.values;
    assert e in multiset(second);
    assert e in first;
  }

  /** `writeB64`: encodes into the scratch buffer, which is replaced when it is too small. */
  method WriteB64(s: Bytes, temp: array<Byte>) returns (text: Bytes, scratch: array<Byte>)
    modifies temp
    ensures text == Encode(s)
    ensures EncodedLen(|s|) <= temp.Length ==> scratch == temp
    ensures scratch == temp || fresh(scratch)
  {
    EncodeLength(s);
    var n := EncodedLen(|s|);
    scratch := temp;
    if n > scratch.Length {
      scratch := new Byte[n];
    }
    var encoded := Encode(s);
    forall i | 0 <= i < n {
      scratch[i] := encoded[i];
    }
    text := scratch[..n];
  }

  /**
   `first` and `second` are the orders of the two iterations. The buffer that was sized in the first pass
   is never replaced in the second, and the builder ends at the length that was reserved, less one.
   */
  method SerializeHeaders(first: seq<Entry>, second: seq<Entry>)
    returns (out: Bytes, serializedLen: nat, regrown: bool)
    requires multiset(first) == multiset(second)
    ensures out == Serialize(Flatten(second))
    ensures Deserialize(out) == Some(Flatten(second))
    ensures |out| == if Flatten(second) == [] then 0 else serializedLen - 1
    ensures !regrown
  {
    var maxTempLen;
    serializedLen, maxTempLen := Measure(first);
    LenIsOrderFree(first, second);
    forall h | h in Flatten(second)
      ensures FitsIn(h, maxTempLen)
    {
      HeadersAreOrderFree(first, second, h);
      MaxCovers(Flatten(first), h);
    }
    out, regrown := WriteAll(second, maxTempLen);
    SerializeRoundTrip(Flatten(second));
  }

  /** The second pass. */
  method WriteAll(entries: seq<Entry>, maxTempLen: nat) returns (out: Bytes, regrown: bool)
    requires forall h :: h in Flatten(entries) ==> FitsIn(h, maxTempLen)
    ensures out == Serialize(Flatten(entries)) && !regrown
  {
    out, regrown := [], false;
    var temp := new Byte[maxTempLen];
    for i := 0 to |entries|
      invariant out == Serialize(Flatten(entries[..i])) && !regrown && temp.Length == maxTempLen && fresh(temp)
    {
      var e := entries[i];
      assert entries[..i + 1][..i] == entries[..i];
      FlattenMonotone(entries, i);
      ghost var front := Flatten(entries[..i]);
      assert front + OfEntry(e.name, e.values[..0]) == front;
      for j := 0 to |e.values|
        invariant out == Serialize(front + OfEntry(e.name, e.values[..j]))
        invariant !regrown && temp.Length == maxTempLen && fresh(temp)
      {
        EntrySnoc(front, e.name, e.values, j);
        assert OfEntry(e.name, e.values)[j] == Header(e.name, e.values[j]);
        var grew;
        out, temp, grew := WriteHeader(Header(e.name, e.values[j]), out, temp, front + OfEntry(e.name, e.values[..j]));
        regrown := regrown || grew;
      }
      assert e.values[..|e.values|] == e.values;
    }
    assert entries[..|entries|] == entries;
  }

  lemma FlattenMonotone(entries: seq<Entry>, i: nat)
    requires i < |entries|
    ensures forall h :: h in OfEntry(entries[i].name, entries[i].values) ==> h in Flatten(entries)
  {
    forall h | h in OfEntry(entries[i].name, entries[i].values)
      ensures h in Flatten(entries)
    {
      OfEntryMembers(entries[i], h);
      FlattenMembers(entries, h);
    }
  }

  method WriteHeader(h: Header, buf: Bytes, temp: array<Byte>, ghost written: seq<Header>)
    returns (out: Bytes, scratch: array<Byte>, grew: bool)
    requires buf == Serialize(written)
    modifies temp
    ensures out == Serialize(written + [h])
    ensures FitsIn(h, temp.Length) ==> scratch == temp && !grew
    ensures scratch == temp || fresh(scratch)
  {
    SerializeSnoc(written, h);
    out := buf;
    if |out| > 0 {
      out := out + [SEMICOLON];
    }
    var name, value;
    name, scratch := WriteB64(h.name, temp);
    grew := scratch != temp;
    out := out + name + [COLON];
    var afterName := scratch;
    value, scratch := WriteB64(h.value, afterName);
    grew := grew || scratch != afterName;
    out := out + value;
  }

  lemma SerializeSnoc(headers: seq<Header>, h: Header)
    ensures Serialize(headers + [h]) ==
              (if Serialize(headers) == [] then [] else Serialize(headers) + [SEMICOLON])
              + Encode(h.name) + [COLON] + Encode(h.value)
  {
    assert (headers + [h])[..|headers|] == headers;
    var front, pair := Serialize(headers), SerializePair(h);
    if front == [] {
      assert [] + Encode(h.name) + [COLON] + Encode(h.value) == pair;
    } else {
      assert front + [SEMICOLON] + pair == front + [SEMICOLON] + Encode(h.name) + [COLON] + Encode(h.value);
    }
  }

  method DeserializeHeaders(text: Bytes) returns (result: Option<seq<Header>>)
    ensures result == Deserialize(text)
  {
    var pairs := Strings.Split(text, SEMICOLON);
    var deserialized := [];
    for i := 0 to |pairs|
      invariant Collect(pairs[..i], DeserializePair) == Some(deserialized)
    {
      assert pairs[..i + 1][..i] == pairs[..i];
      if |pairs[i]| == 0 {
        continue;
      }
      var parts := Strings.Split(pairs[i], COLON);
      if |parts| != 2 {
        FailureStays(pairs, DeserializePair, i + 1);
        return None;
      }
      var name, value := DecodeField(parts[0]), DecodeField(parts[1]);
      if name.None? || value.None? {
        FailureStays(pairs, DeserializePair, i + 1);
        return None;
      }
      deserialized := deserialized + [Header(name.value, value.value)];
    }
    assert pairs[..|pairs|] == pairs;
    result := Some(deserialized);
  }

  /** A part that cannot be read makes the whole text fail. */
  lemma {:induction false} FailureStays(parts: seq<Bytes>, read: Bytes -> Option<Header>, n: nat)
    requires n <= |parts| && Collect(parts[..n], read).None?
    ensures Collect(parts, read).None?
    decreases |parts|
  {
    if n == |parts| {
      assert parts[..n] == parts;
    } else {
      assert parts[..|parts| - 1][..n] == parts[..n];
      FailureStays(parts[..|parts| - 1], read, n);
    }
  }
}
