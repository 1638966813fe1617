/**
 Unpadded standard base64, as `base64.RawStdEncoding` encodes and decodes it (sections 3.2 and 4 of
 RFC 4648).
 */
module Base64 {
  import opened Wrappers

  const CARRIAGE_RETURN: Byte := 13
  const LINE_FEED: Byte := 10

  /** The alphabet of table 1 of the RFC. */
  function Letter(v: int): (c: Byte)
    requires 0 <= v < 64
  {
    if v < 26 then 65 + v
    else if v < 52 then 97 + v - 26
    else if v < 62 then 48 + v - 52
    else if v == 62 then 43 else 47
  }

  predicate IsLetter(c: Byte) {
    65 <= c <= 90 || 97 <= c <= 122 || 48 <= c <= 57 || c == 43 || c == 47
  }

  function LetterValue(c: Byte): (v: int)
    requires IsLetter(c)
    ensures 0 <= v < 64 && Letter(v) == c
  {
    if 65 <= c <= 90 then c - 65
    else if 97 <= c <= 122 then c - 97 + 26
    else if 48 <= c <= 57 then c - 48 + 52
    else if c == 43 then 62 else 63
  }

  lemma LetterRoundTrip(v: int)
    requires 0 <= v < 64
    ensures IsLetter(Letter(v)) && LetterValue(Letter(v)) == v
  {
  }

  function EncodedLen(n: nat): nat {
    n / 3 * 4 + (n % 3 * 8 + 5) / 6
  }

  function DecodedLen(n: nat): nat {
    n / 4 * 3 + n % 4 * 6 / 8
  }

  function Encode(b: Bytes): Bytes {
    if |b| == 0 then []
    else if |b| == 1 then [Letter(b[0] / 4), Letter(b[0] % 4 * 16)]
    else if |b| == 2 then [Letter(b[0] / 4), Letter(b[0] % 4 * 16 + b[1] / 16), Letter(b[1] % 16 * 4)]
    else Group(b[0], b[1], b[2]) + Encode(b[3..])
  }

  /** Three bytes as four letters. */
  function Group(b0: Byte, b1: Byte, b2: Byte): (g: Bytes)
    ensures |g| == 4
  {
    [Letter(b0 / 4), Letter(b0 % 4 * 16 + b1 / 16), Letter(b1 % 16 * 4 + b2 / 64), Letter(b2 % 64)]
  }

  predicate AllLetters(s: Bytes) {
    forall i :: 0 <= i < |s| ==> IsLetter(s[i])
  }

  /** The bytes of a text of letters; the bits that a last partial group leaves over are ignored. */
  function DecodeLetters(s: Bytes): Bytes
    requires AllLetters(s)
  {
    if |s| < 2 then []
    else
      var v0, v1 := LetterValue(s[0]), LetterValue(s[1]);
      var b0: Byte := v0 * 4 + v1 / 16;
      if |s| == 2 then [b0]
      else
        var v2 := LetterValue(s[2]);
        var b1: Byte := v1 % 16 * 16 + v2 / 4;
        if |s| == 3 then [b0, b1]
        else
          var b2: Byte := v2 % 4 * 64 + LetterValue(s[3]);
          [b0, b1, b2] + DecodeLetters(s[4..])
  }

  /** Line breaks are skipped wherever they stand. */
  function StripNewlines(s: Bytes): Bytes {
    if s == [] then []
    else if s[0] == CARRIAGE_RETURN || s[0] == LINE_FEED then StripNewlines(s[1..])
    else [s[0]] + StripNewlines(s[1..])
  }

  /** `None` stands for a corrupt input: a foreign character, or a lone letter in the last group. */
  function Decode(s: Bytes): Option<Bytes> {
    var letters := StripNewlines(s);
    if !AllLetters(letters) || |letters| % 4 == 1 then None
    else Some(DecodeLetters(letters))
  }

  // ---------- Lengths ----------

  lemma {:induction false} EncodeLength(b: Bytes)
    ensures |Encode(b)| == EncodedLen(|b|)
  {
    if |b| >= 3 {
      EncodeLength(b[3..]);
      assert |b| / 3 == |b[3..]| / 3 + 1 && |b| % 3 == |b[3..]| % 3;
    }
  }

  lemma DecodedLenOfEncodedLen(n: nat)
    ensures DecodedLen(EncodedLen(n)) == n
    ensures EncodedLen(n) % 4 != 1
  {
    var q, r := n / 3, n % 3;
    assert n == 3 * q + r;
    assert EncodedLen(n) == 4 * q + (if r == 0 then 0 else r + 1);
  }

  // ---------- The round trip ----------

  lemma {:induction false} EncodeIsLetters(b: Bytes)
    ensures AllLetters(Encode(b))
  {
    if |b| >= 3 {
      EncodeIsLetters(b[3..]);
      GroupIsLetters(b[0], b[1], b[2]);
    }
  }

  lemma GroupIsLetters(b0: Byte, b1: Byte, b2: Byte)
    ensures AllLetters(Group(b0, b1, b2))
  {
  }

  /** Two bit fields packed into one number come apart again. */
  lemma Unpack(high: int, low: int, width: int)
    requires width == 4 || width == 16 || width == 64
    requires 0 <= high && 0 <= low < width
    ensures (high * width + low) / width == high && (high * width + low) % width == low
  {
  }

  lemma DecodeGroup(s0: int, s1: int, s2: int, s3: int)
    requires 0 <= s0 < 64 && 0 <= s1 < 64 && 0 <= s2 < 64 && 0 <= s3 < 64
    ensures AllLetters([Letter(s0), Letter(s1), Letter(s2), Letter(s3)])
    ensures DecodeLetters([Letter(s0), Letter(s1), Letter(s2), Letter(s3)])
         == [s0 * 4 + s1 / 16, s1 % 16 * 16 + s2 / 4, s2 % 4 * 64 + s3]
    ensures DecodeLetters([Letter(s0), Letter(s1), Letter(s2)]) == [s0 * 4 + s1 / 16, s1 % 16 * 16 + s2 / 4]
    ensures DecodeLetters([Letter(s0), Letter(s1)]) == [s0 * 4 + s1 / 16]
  {
    LetterRoundTrip(s0);
    LetterRoundTrip(s1);
    LetterRoundTrip(s2);
    LetterRoundTrip(s3);
    assert [Letter(s0), Letter(s1), Letter(s2), Letter(s3)][4..] == [];
  }

  /** The bytes given by their bit fields: `b0 = h0 l0`, `b1 = h1 l1` and `b2 = h2 l2`. */
  lemma FieldsRoundTrip(h0: int, l0: int, h1: int, l1: int, h2: int, l2: int)
    requires 0 <= h0 < 64 && 0 <= l0 < 4 && 0 <= h1 < 16 && 0 <= l1 < 16 && 0 <= h2 < 4 && 0 <= l2 < 64
    ensures AllLetters([Letter(h0), Letter(l0 * 16 + h1), Letter(l1 * 4 + h2), Letter(l2)])
    ensures DecodeLetters([Letter(h0), Letter(l0 * 16 + h1), Letter(l1 * 4 + h2), Letter(l2)])
         == [h0 * 4 + l0, h1 * 16 + l1, h2 * 64 + l2]
    ensures DecodeLetters([Letter(h0), Letter(l0 * 16 + h1), Letter(l1 * 4 + h2)]) == [h0 * 4 + l0, h1 * 16 + l1]
    ensures DecodeLetters([Letter(h0), Letter(l0 * 16 + h1)]) == [h0 * 4 + l0]
  {
    DecodeGroup(h0, l0 * 16 + h1, l1 * 4 + h2, l2);
    Unpack(l0, h1, 16);
    Unpack(l1, h2, 4);
  }

  /** A byte is its two bit fields. */
  lemma Cut(b: Byte, width: int)
    requires width == 4 || width == 16 || width == 64
    ensures 0 <= b / width < 256 / width && 0 <= b % width < width && b / width * width + b % width == b
  {
  }

  lemma GroupOfFields(b0: Byte, b1: Byte, b2: Byte, h0: int, l0: int, h1: int, l1: int, h2: int, l2: int)
    requires h0 == b0 / 4 && l0 == b0 % 4 && h1 == b1 / 16 && l1 == b1 % 16 && h2 == b2 / 64 && l2 == b2 % 64
    ensures Group(b0, b1, b2) == [Letter(h0), Letter(l0 * 16 + h1), Letter(l1 * 4 + h2), Letter(l2)]
  {
  }

  lemma GroupRoundTrip(b0: Byte, b1: Byte, b2: Byte)
    ensures AllLetters(Group(b0, b1, b2)) && DecodeLetters(Group(b0, b1, b2)) == [b0, b1, b2]
  {
    var h0, l0, h1, l1, h2, l2 := b0 / 4, b0 % 4, b1 / 16, b1 % 16, b2 / 64, b2 % 64;
    Cut(b0, 4);
    Cut(b1, 16);
    Cut(b2, 64);
    GroupOfFields(b0, b1, b2, h0, l0, h1, l1, h2, l2);
    FieldsRoundTrip(h0, l0, h1, l1, h2, l2);
  }

  lemma OneByteRoundTrip(b0: Byte)
    ensures DecodeLetters([Letter(b0 / 4), Letter(b0 % 4 * 16)]) == [b0]
  {
    Cut(b0, 4);
    FieldsRoundTrip(b0 / 4, b0 % 4, 0, 0, 0, 0);
  }

  lemma TwoBytesRoundTrip(b0: Byte, b1: Byte)
    ensures DecodeLetters([Letter(b0 / 4), Letter(b0 % 4 * 16 + b1 / 16), Letter(b1 % 16 * 4)]) == [b0, b1]
  {
    Cut(b0, 4);
    Cut(b1, 16);
    FieldsRoundTrip(b0 / 4, b0 % 4, b1 / 16, b1 % 16, 0, 0);
  }

  lemma DecodeGroups(group: Bytes, rest: Bytes)
    requires |group| == 4 && AllLetters(group) && AllLetters(rest)
    ensures AllLetters(group + rest) && DecodeLetters(group + rest) == DecodeLetters(group) + DecodeLetters(rest)
  {
    assert (group + rest)[4..] == rest && group[4..] == [];
  }

  lemma {:induction false} LettersRoundTrip(b: Bytes)
    ensures AllLetters(Encode(b)) && DecodeLetters(Encode(b)) == b
  {
    EncodeIsLetters(b);
    if |b| == 1 {
      OneByteRoundTrip(b[0]);
    } else if |b| == 2 {
      TwoBytesRoundTrip(b[0], b[1]);
    } else if |b| >= 3 {
      EncodeIsLetters(b[3..]);
      LettersRoundTrip(b[3..]);
      GroupRoundTrip(b[0], b[1], b[2]);
      DecodeGroups(Group(b[0], b[1], b[2]), Encode(b[3..]));
      assert b == [b[0], b[1], b[2]] + b[3..];
    }
  }

  lemma {:induction false} LettersHaveNoNewlines(s: Bytes)
    requires AllLetters(s)
    ensures StripNewlines(s) == s
  {
    if s != [] {
      LettersHaveNoNewlines(s[1..]);
    }
  }

  /** Decoding undoes encoding, and fills a buffer of the computed size exactly. */
  lemma RoundTrip(b: Bytes)
    ensures Decode(Encode(b)) == Some(b)
    ensures DecodedLen(|Encode(b)|) == |b|
  {
    LettersRoundTrip(b);
    LettersHaveNoNewlines(Encode(b));
    EncodeLength(b);
    DecodedLenOfEncodedLen(|b|);
  }

  lemma {:induction false} DecodeLength(s: Bytes)
    requires AllLetters(s) && |s| % 4 != 1
    ensures |DecodeLetters(s)| == DecodedLen(|s|)
  {
    if |s| >= 4 {
      DecodeLength(s[4..]);
      assert |s| / 4 == |s[4..]| / 4 + 1 && |s| % 4 == |s[4..]| % 4;
    }
  }

  lemma {:induction false} StripShortens(s: Bytes)
    ensures |StripNewlines(s)| <= |s|
  {
    if s != [] {
      StripShortens(s[1..]);
    }
  }

  /** What is decoded never exceeds the buffer that `DecodedLen` of the input asks for. */
  lemma DecodeFits(s: Bytes)
    requires Decode(s).Some?
    ensures |Decode(s).value| <= DecodedLen(|s|)
  {
    var letters := StripNewlines(s);
    DecodeLength(letters);
    StripShortens(s);
    DecodedLenMonotone(|letters|, |s|);
  }

  lemma DecodedLenMonotone(m: nat, n: nat)
    requires m <= n
    ensures DecodedLen(m) <= DecodedLen(n)
  {
    assert DecodedLen(m) == m * 3 / 4 && DecodedLen(n) == n * 3 / 4;
  }

  // ---------- The encoding itself ----------

  lemma LetterIs(v: int)
    requires 0 <= v < 64
    ensures v < 26 ==> Letter(v) == 'A' as int + v
    ensures 26 <= v < 52 ==> Letter(v) == 'a' as int + v - 26
    ensures 52 <= v < 62 ==> Letter(v) == '0' as int + v - 52
    ensures v >= 62 ==> Letter(v) == (if v == 62 then '+' else '/') as int
  {
  }

  /** Four letters spell the number that their three bytes do. */
  lemma GroupSpells(b0: Byte, b1: Byte, b2: Byte)
    ensures var g := Group(b0, b1, b2);
            AllLetters(g)
            && LetterValue(g[0]) * 262144 + LetterValue(g[1]) * 4096 + LetterValue(g[2]) * 64 + LetterValue(g[3])
               == b0 * 65536 + b1 * 256 + b2
  {
    GroupIsLetters(b0, b1, b2);
    LetterRoundTrip(b0 / 4);
    LetterRoundTrip(b0 % 4 * 16 + b1 / 16);
    LetterRoundTrip(b1 % 16 * 4 + b2 / 64);
    LetterRoundTrip(b2 % 64);
  }

  lemma EncodesFirst(b0: Byte, b1: Byte, b2: Byte, rest: Bytes)
    ensures Encode([b0, b1, b2] + rest) == Group(b0, b1, b2) + Encode(rest)
  {
    assert ([b0, b1, b2] + rest)[3..] == rest;
  }

  /** The encoding is made group by group; one or two bytes are left over, and filled up with zero bits. */
  lemma {:induction false} EncodesByGroups(a: Bytes, b: Bytes)
    requires |a| % 3 == 0
    ensures Encode(a + b) == Encode(a) + Encode(b)
    decreases |a|
  {
    if a == [] {
      assert a + b == b;
    } else {
      var head, tail := [a[0], a[1], a[2]], a[3..];
      assert a == head + tail && a + b == head + (tail + b);
      EncodesByGroups(tail, b);
      EncodesFirst(a[0], a[1], a[2], tail);
      EncodesFirst(a[0], a[1], a[2], tail + b);
    }
  }

  lemma EncodesGroup(b0: Byte, b1: Byte, b2: Byte)
    ensures Encode([b0, b1, b2]) == Group(b0, b1, b2)
    ensures Encode([b0, b1]) == Group(b0, b1, 0)[..3]
    ensures Encode([b0]) == Group(b0, 0, 0)[..2]
  {
    assert [b0, b1, b2][3..] == [];
  }

  // ---------- What decodes ----------

  lemma {:induction false} StripSplits(a: Bytes, b: Bytes)
    ensures StripNewlines(a + b) == StripNewlines(a) + StripNewlines(b)
    decreases |a|
  {
    if a == [] {
      assert a + b == b;
    } else {
      assert (a + b)[0] == a[0] && (a + b)[1..] == a[1..] + b;
      StripSplits(a[1..], b);
    }
  }

  /** Carriage returns and line feeds can stand anywhere. */
  lemma BreaksAreSkipped(a: Bytes, c: Byte, b: Bytes)
    requires c == 13 || c == 10
    ensures Decode(a + [c] + b) == Decode(a + b)
  {
    StripSplits(a + [c], b);
    StripSplits(a, [c]);
    StripSplits(a, b);
    assert [c][1..] == [];
    assert StripNewlines([c]) == [];
    assert StripNewlines(a) + [] == StripNewlines(a);
    assert StripNewlines(a + [c] + b) == StripNewlines(a + b);
  }

  /** Without them, what decodes are letters, and not one more than a multiple of four. */
  lemma DecodesIff(s: Bytes)
    requires 13 !in s && 10 !in s
    ensures Decode(s).Some? <==>
      && |s| % 4 != 1
      && forall c :: c in s ==>
           || 'A' as int <= c <= 'Z' as int || 'a' as int <= c <= 'z' as int || '0' as int <= c <= '9' as int
           || c == '+' as int || c == '/' as int
  {
    NoBreaks(s);
    assert AllLetters(s) <==> forall c :: c in s ==> IsLetter(c);
  }

  lemma {:induction false} NoBreaks(s: Bytes)
    requires 13 !in s && 10 !in s
    ensures StripNewlines(s) == s
  {
    if s != [] {
      NoBreaks(s[1..]);
    }
  }
}
