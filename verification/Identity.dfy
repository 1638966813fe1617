/**
 Trace identities (tracing/identity.go) in their two forms: the text `traceID:spanID:0:flags` in hexadecimal
 and 25 big-endian bytes. A text is a sequence of characters of one byte each.
 */
module Identity {
  import opened Wrappers
  import Datagram
  import Strconv
  import Strings

  const TWO_TO_64 := 0x1_0000_0000_0000_0000
  const BASE := 16
  const HALF_WIDTH := 16
  const TRACE_ID_WIDTH := 32
  const SEPARATOR := ':'

  type Uint64 = x: int | 0 <= x < TWO_TO_64

  datatype Fields = Fields(traceIDUpper: Uint64, traceIDLower: Uint64, spanID: Uint64, flags: Byte)

  // ---------- Printing ----------

  function HexDigit(d: int): (c: char)
    requires 0 <= d < 16
    ensures Strconv.DigitValue(c) == d && c != SEPARATOR
  {
    if d < 10 then '0' + d as char else 'a' + (d - 10) as char
  }

  /** `%x`. */
  function Hex(v: nat): string {
    if v < 16 then [HexDigit(v)] else Hex(v / 16) + [HexDigit(v % 16)]
  }

  function Zeros(n: nat): string {
    seq(n, _ => '0')
  }

  function PadTo(s: string, width: nat): string {
    if |s| >= width then s else Zeros(width - |s|) + s
  }

  function Print(f: Fields): string {
    PadTo(Hex(f.traceIDUpper), HALF_WIDTH) + PadTo(Hex(f.traceIDLower), HALF_WIDTH)
    + [SEPARATOR] + Hex(f.spanID) + [SEPARATOR] + "0" + [SEPARATOR] + Hex(f.flags)
  }

  // ---------- Parsing ----------

  /** `Panics` stands for the negative repeat count that an overlong trace ID asks for. */
  datatype Outcome = Parsed(fields: Fields) | Failed | Panics

  predicate Overlong(tracingID: string) {
    |tracingID| > TRACE_ID_WIDTH
  }

  function Parse(trace: string): Outcome {
    var parts := Strings.Split(trace, SEPARATOR);
    if |parts| != 4 then Failed
    else if parts[0] == "" then Failed
    else if Overlong(parts[0]) then Panics
    else ParseParts(PadTo(parts[0], TRACE_ID_WIDTH), parts[1], parts[3])
  }

  function ParseParts(tracingID: string, span: string, flag: string): Outcome
    requires |tracingID| == TRACE_ID_WIDTH
  {
    match Strconv.ParseUint(tracingID[..HALF_WIDTH], BASE, TWO_TO_64)
    case None => Failed
    case Some(upper) =>
      match Strconv.ParseUint(tracingID[HALF_WIDTH..], BASE, TWO_TO_64)
      case None => Failed
      case Some(lower) =>
        match Strconv.ParseUint(span, BASE, TWO_TO_64)
        case None => Failed
        case Some(spanID) =>
          match Strconv.ParseUint(flag, BASE, 256)
          case None => Failed
          case Some(flags) => Parsed(Fields(upper, lower, spanID, flags))
  }

  // ---------- Hexadecimal ----------

  lemma {:induction false} HexSpells(v: nat)
    ensures Hex(v) != "" && Strconv.IsDigits(Hex(v), BASE) && Strconv.Value(Hex(v), BASE) == v
    ensures SEPARATOR !in Hex(v)
  {
    if v < 16 {
      assert Hex(v)[..0] == "";
      assert Strconv.Value(Hex(v)[..0], BASE) == 0;
    } else {
      HexSpells(v / 16);
      assert Hex(v)[..|Hex(v)| - 1] == Hex(v / 16);
    }
  }

  lemma {:induction false} HexFits(v: nat, width: nat)
    requires v < Strconv.Power(16, width) && width > 0
    ensures |Hex(v)| <= width
    decreases width
  {
    if v >= 16 {
      assert width > 1 by {
        assert Strconv.Power(16, 1) == 16 * Strconv.Power(16, 0);
      }
      HexFits(v / 16, width - 1);
    }
  }

  lemma {:induction false} ZerosSpellNothing(n: nat)
    ensures Strconv.IsDigits(Zeros(n), BASE) && Strconv.Value(Zeros(n), BASE) == 0 && SEPARATOR !in Zeros(n)
  {
    if n > 0 {
      ZerosSpellNothing(n - 1);
      assert Zeros(n)[..n - 1] == Zeros(n - 1);
    }
  }

  lemma ConcatMembers(s: string, t: string)
    ensures Strconv.IsDigits(s + t, BASE) <==> Strconv.IsDigits(s, BASE) && Strconv.IsDigits(t, BASE)
    ensures SEPARATOR in s + t <==> SEPARATOR in s || SEPARATOR in t
  {
    assert forall i :: 0 <= i < |s| ==> (s + t)[i] == s[i];
    assert forall i :: 0 <= i < |t| ==> (s + t)[|s| + i] == t[i];
  }

  lemma ZerosAddNothing(n: nat, s: string)
    ensures Strconv.Value(Zeros(n) + s, BASE) == Strconv.Value(s, BASE)
  {
    ZerosSpellNothing(n);
    Strconv.ValueConcat(Zeros(n), s, BASE);
  }

  /** Padding on the left keeps the number. */
  lemma PaddingKeepsValue(s: string, width: nat)
    ensures Strconv.Value(PadTo(s, width), BASE) == Strconv.Value(s, BASE)
    ensures Strconv.IsDigits(PadTo(s, width), BASE) <==> Strconv.IsDigits(s, BASE)
    ensures SEPARATOR in PadTo(s, width) <==> SEPARATOR in s
    ensures |PadTo(s, width)| == if |s| >= width then |s| else width
  {
    if |s| < width {
      ZerosAddNothing(width - |s|, s);
      ZerosSpellNothing(width - |s|);
      ConcatMembers(Zeros(width - |s|), s);
    }
  }

  lemma PowerOfHalf()
    ensures Strconv.Power(16, HALF_WIDTH) == TWO_TO_64
  {
    assert Strconv.Power(16, 4) == 65536;
    assert Strconv.Power(16, 8) == 0x1_0000_0000;
    assert Strconv.Power(16, 12) == 0x1_0000_0000_0000;
  }

  /** A 64-bit number as 16 digits. */
  lemma HalfSpells(v: Uint64)
    ensures |PadTo(Hex(v), HALF_WIDTH)| == HALF_WIDTH && SEPARATOR !in PadTo(Hex(v), HALF_WIDTH)
    ensures Strconv.ParseUint(PadTo(Hex(v), HALF_WIDTH), BASE, TWO_TO_64) == Some(v)
  {
    PowerOfHalf();
    HexSpells(v);
    HexFits(v, HALF_WIDTH);
    PaddingKeepsValue(Hex(v), HALF_WIDTH);
  }

  lemma HexParses(v: nat, limit: nat)
    requires v < limit
    ensures Strconv.ParseUint(Hex(v), BASE, limit) == Some(v)
  {
    HexSpells(v);
  }

  // ---------- The round trip of the text ----------

  lemma SplitPrinted(a: string, b: string, c: string, d: string)
    requires SEPARATOR !in a && SEPARATOR !in b && SEPARATOR !in c && SEPARATOR !in d
    ensures Strings.Split(a + [SEPARATOR] + b + [SEPARATOR] + c + [SEPARATOR] + d, SEPARATOR) == [a, b, c, d]
  {
    assert Strings.Split(a, SEPARATOR) == [a];
    Strings.SplitSnoc(a, SEPARATOR, b);
    Strings.SplitSnoc(a + [SEPARATOR] + b, SEPARATOR, c);
    Strings.SplitSnoc(a + [SEPARATOR] + b + [SEPARATOR] + c, SEPARATOR, d);
  }

  lemma PartsRoundTrip(f: Fields, tracingID: string)
    requires tracingID == PadTo(Hex(f.traceIDUpper), HALF_WIDTH) + PadTo(Hex(f.traceIDLower), HALF_WIDTH)
    ensures |tracingID| == TRACE_ID_WIDTH && SEPARATOR !in tracingID
    ensures ParseParts(tracingID, Hex(f.spanID), Hex(f.flags)) == Parsed(f)
  {
    HalfSpells(f.traceIDUpper);
    HalfSpells(f.traceIDLower);
    HexParses(f.spanID, TWO_TO_64);
    HexParses(f.flags, 256);
    assert tracingID[..HALF_WIDTH] == PadTo(Hex(f.traceIDUpper), HALF_WIDTH);
    assert tracingID[HALF_WIDTH..] == PadTo(Hex(f.traceIDLower), HALF_WIDTH);
  }

  /** Every identity, printed and parsed, is itself again. */
  lemma TextRoundTrip(f: Fields)
    ensures Parse(Print(f)) == Parsed(f)
  {
    var tracingID := PadTo(Hex(f.traceIDUpper), HALF_WIDTH) + PadTo(Hex(f.traceIDLower), HALF_WIDTH);
    PartsRoundTrip(f, tracingID);
    HexSpells(f.spanID);
    HexSpells(f.flags);
    SplitPrinted(tracingID, Hex(f.spanID), "0", Hex(f.flags));
  }

  /** Lower-case hexadecimal digits. */
  predicate IsLowerHex(s: string) {
    s != "" && forall i :: 0 <= i < |s| ==> '0' <= s[i] <= '9' || 'a' <= s[i] <= 'f'
  }

  lemma {:induction false} HexIsLower(v: nat)
    ensures IsLowerHex(Hex(v)) && (v > 0 ==> Hex(v)[0] != '0')
  {
    if v >= 16 {
      HexIsLower(v / 16);
    }
  }

  lemma PaddedIsLower(v: nat, width: nat)
    ensures IsLowerHex(PadTo(Hex(v), width))
  {
    HexIsLower(v);
  }

  /** A number without leading zeros, in lower-case hexadecimal. */
  predicate Spells(s: string, v: nat) {
    IsLowerHex(s) && Strconv.Value(s, 16) == v && (v > 0 ==> s[0] != '0') && (v == 0 ==> s == "0")
  }

  lemma HexSpellsShort(v: nat)
    ensures Spells(Hex(v), v)
  {
    HexSpells(v);
    HexIsLower(v);
  }

  lemma ConcatIsLower(s: string, t: string)
    requires IsLowerHex(s) && IsLowerHex(t)
    ensures IsLowerHex(s + t)
  {
  }

  lemma TracePart(upper: Uint64, lower: Uint64)
    ensures var s := PadTo(Hex(upper), HALF_WIDTH) + PadTo(Hex(lower), HALF_WIDTH);
            |s| == 32 && IsLowerHex(s) && Strconv.Value(s, 16) == upper * 0x1_0000_0000_0000_0000 + lower
  {
    PaddedIsLower(upper, HALF_WIDTH);
    PaddedIsLower(lower, HALF_WIDTH);
    ConcatIsLower(PadTo(Hex(upper), HALF_WIDTH), PadTo(Hex(lower), HALF_WIDTH));
    HalfSpells(upper);
    HalfSpells(lower);
    PowerOfHalf();
    Strconv.ValueConcat(PadTo(Hex(upper), HALF_WIDTH), PadTo(Hex(lower), HALF_WIDTH), BASE);
  }

  lemma PrintedParts(f: Fields)
    ensures Strings.Split(Print(f), SEPARATOR) ==
              [PadTo(Hex(f.traceIDUpper), HALF_WIDTH) + PadTo(Hex(f.traceIDLower), HALF_WIDTH),
               Hex(f.spanID), "0", Hex(f.flags)]
  {
    var tracingID := PadTo(Hex(f.traceIDUpper), HALF_WIDTH) + PadTo(Hex(f.traceIDLower), HALF_WIDTH);
    PartsRoundTrip(f, tracingID);
    HexSpells(f.spanID);
    HexSpells(f.flags);
    SplitPrinted(tracingID, Hex(f.spanID), "0", Hex(f.flags));
  }

  /** What an identity looks like: 32 digits, then the span, a zero and the flags without leading zeros. */
  lemma PrintsAs(f: Fields)
    ensures var parts := Strings.Split(Print(f), ':');
            && |parts| == 4 && |parts[0]| == 32 && IsLowerHex(parts[0])
            && Strconv.Value(parts[0], 16) == f.traceIDUpper * 0x1_0000_0000_0000_0000 + f.traceIDLower
            && Spells(parts[1], f.spanID) && parts[2] == "0" && Spells(parts[3], f.flags)
  {
    PrintedParts(f);
    TracePart(f.traceIDUpper, f.traceIDLower);
    HexSpellsShort(f.spanID);
    HexSpellsShort(f.flags);
  }

  lemma PrintIsInjective(f: Fields, g: Fields)
    requires Print(f) == Print(g)
    ensures f == g
  {
    TextRoundTrip(f);
    TextRoundTrip(g);
  }

  // ---------- What is accepted ----------

  predicate IsHexBelow(s: string, limit: nat) {
    s != "" && Strconv.IsDigits(s, BASE) && Strconv.Value(s, BASE) < limit
  }

  /** The four parts of a text that parses; the third is not looked at. */
  predicate Acceptable(parts: seq<string>) {
    && |parts| == 4
    && 0 < |parts[0]| <= TRACE_ID_WIDTH && Strconv.IsDigits(parts[0], BASE)
    && IsHexBelow(parts[1], TWO_TO_64) && IsHexBelow(parts[3], 256)
  }

  lemma HalvesAreDigits(tracingID: string, upper: string, lower: string)
    requires tracingID == upper + lower
    ensures Strconv.IsDigits(tracingID, BASE) <==> Strconv.IsDigits(upper, BASE) && Strconv.IsDigits(lower, BASE)
  {
    if !Strconv.IsDigits(tracingID, BASE) {
      var i :| 0 <= i < |tracingID| && Strconv.DigitValue(tracingID[i]) >= BASE;
      assert if i < |upper| then upper[i] == tracingID[i] else lower[i - |upper|] == tracingID[i];
    } else {
      assert forall i :: 0 <= i < |upper| ==> upper[i] == tracingID[i];
      assert forall i :: 0 <= i < |lower| ==> lower[i] == tracingID[|upper| + i];
    }
  }

  lemma HalvesParse(tracingID: string)
    requires |tracingID| == TRACE_ID_WIDTH
    ensures var upper, lower := tracingID[..HALF_WIDTH], tracingID[HALF_WIDTH..];
            && (Strconv.IsDigits(tracingID, BASE) <==> Strconv.IsDigits(upper, BASE) && Strconv.IsDigits(lower, BASE))
            && (Strconv.IsDigits(tracingID, BASE) ==>
                  Strconv.Value(upper, BASE) < TWO_TO_64 && Strconv.Value(lower, BASE) < TWO_TO_64)
            && Strconv.Value(tracingID, BASE) == Strconv.Value(upper, BASE) * TWO_TO_64 + Strconv.Value(lower, BASE)
  {
    var upper, lower := tracingID[..HALF_WIDTH], tracingID[HALF_WIDTH..];
    assert tracingID == upper + lower;
    HalvesAreDigits(tracingID, upper, lower);
    PowerOfHalf();
    Strconv.ValueConcat(upper, lower, BASE);
    if Strconv.IsDigits(tracingID, BASE) {
      Strconv.ValueBound(upper, BASE);
      Strconv.ValueBound(lower, BASE);
    }
  }

  /**
   A text is accepted exactly when its parts are acceptable, and the fields are then the numbers its parts
   spell, the trace ID as one number of 128 bits. It panics exactly on four parts with an overlong trace ID.
   */
  lemma ParsesIff(trace: string)
    ensures var parts := Strings.Split(trace, SEPARATOR);
            && (Parse(trace).Parsed? <==> Acceptable(parts))
            && (Parse(trace).Panics? <==> |parts| == 4 && |parts[0]| > 32)
            && (Parse(trace).Parsed? ==>
                  var f := Parse(trace).fields;
                  && f.traceIDUpper * TWO_TO_64 + f.traceIDLower == Strconv.Value(parts[0], BASE)
                  && f.spanID == Strconv.Value(parts[1], BASE) && f.flags == Strconv.Value(parts[3], BASE))
  {
    var parts := Strings.Split(trace, SEPARATOR);
    if |parts| == 4 && parts[0] != "" && !Overlong(parts[0]) {
      PaddingKeepsValue(parts[0], TRACE_ID_WIDTH);
      HalvesParse(PadTo(parts[0], TRACE_ID_WIDTH));
    }
  }

  /** Parsing and printing settles at once: the printed form of what was parsed parses to the same fields. */
  lemma CanonicalForm(trace: string)
    requires Parse(trace).Parsed?
    ensures Parse(Print(Parse(trace).fields)) == Parse(trace)
  {
    TextRoundTrip(Parse(trace).fields);
  }

  // ---------- The binary form ----------

  function BigEndian(v: nat, width: nat): (b: Bytes)
    ensures |b| == width
  {
    if width == 0 then [] else BigEndian(v / 256, width - 1) + [v % 256]
  }

  function FromBigEndian(b: Bytes): nat {
    if b == [] then 0 else FromBigEndian(b[..|b| - 1]) * 256 + b[|b| - 1]
  }

  lemma {:induction false} BytesRoundTrip(v: nat, width: nat)
    requires v < Strconv.Power(256, width)
    ensures FromBigEndian(BigEndian(v, width)) == v
  {
    if width > 0 {
      BytesRoundTrip(v / 256, width - 1);
      assert BigEndian(v, width)[..width - 1] == BigEndian(v / 256, width - 1);
    }
  }

  lemma {:induction false} NumberRoundTrip(b: Bytes)
    ensures FromBigEndian(b) < Strconv.Power(256, |b|)
    ensures BigEndian(FromBigEndian(b), |b|) == b
  {
    if b != [] {
      NumberRoundTrip(b[..|b| - 1]);
      assert b == b[..|b| - 1] + [b[|b| - 1]];
    }
  }

  lemma PowerOfByte()
    ensures Strconv.Power(256, 8) == TWO_TO_64 && Strconv.Power(256, 1) == 256
  {
    assert Strconv.Power(256, 2) == 65536;
    assert Strconv.Power(256, 4) == 0x1_0000_0000;
    assert Strconv.Power(256, 6) == 0x1_0000_0000_0000;
  }

  function Marshal(f: Fields): (b: Bytes)
    ensures |b| == Datagram.IDENTITY_LENGTH
  {
    BigEndian(f.traceIDUpper, 8) + BigEndian(f.traceIDLower, 8) + BigEndian(f.spanID, 8) + BigEndian(f.flags, 1)
  }

  /** Eight bytes are a 64-bit number. */
  function ReadUint64(data: Bytes, at: nat): Uint64
    requires at + 8 <= |data|
  {
    NumberRoundTrip(data[at..at + 8]);
    PowerOfByte();
    FromBigEndian(data[at..at + 8])
  }

  function Unmarshal(data: Bytes): Option<Fields> {
    if |data| < Datagram.IDENTITY_LENGTH then None
    else Some(Fields(ReadUint64(data, 0), ReadUint64(data, 8), ReadUint64(data, 16), data[24]))
  }

  lemma MarshalledParts(f: Fields)
    ensures var b := Marshal(f);
            && b[0..8] == BigEndian(f.traceIDUpper, 8) && b[8..16] == BigEndian(f.traceIDLower, 8)
            && b[16..24] == BigEndian(f.spanID, 8) && b[24] == BigEndian(f.flags, 1)[0]
  {
  }

  lemma {:induction false} BigEndianAt(v: nat, width: nat, i: nat)
    requires i < width
    ensures BigEndian(v, width)[i] == v / Strconv.Power(256, width - 1 - i) % 256
  {
    if i < width - 1 {
      BigEndianAt(v / 256, width - 1, i);
      DivideTwice(v, Strconv.Power(256, width - 2 - i));
    }
  }

  lemma DivideTwice(v: nat, p: nat)
    requires p > 0
    ensures v / 256 / p == v / (256 * p)
  {
    var q, r := v / 256, v % 256;
    var k, s := q / p, q % p;
    assert v == 256 * (p * k + s) + r;
    assert v == (256 * p) * k + (256 * s + r);
    assert 256 * s + r < 256 * p;
    Quotient(v, 256 * p, k, 256 * s + r);
  }

  lemma Times(d: nat, a: nat, b: nat)
    requires a < b
    ensures d * (a + 1) <= d * b
  {
  }

  lemma Quotient(v: nat, d: nat, k: nat, r: nat)
    requires r < d && v == d * k + r
    ensures v / d == k
  {
    if v / d < k {
      Times(d, v / d, k);
    } else if k < v / d {
      Times(d, k, v / d);
    }
  }

  /** The binary form: three numbers of eight bytes, the most significant byte first, and the flags. */
  lemma MarshalsAs(f: Fields, i: nat)
    requires i < 8
    ensures var b := Marshal(f);
            && |b| == 25
            && b[i] == f.traceIDUpper / Strconv.Power(256, 7 - i) % 256
            && b[8 + i] == f.traceIDLower / Strconv.Power(256, 7 - i) % 256
            && b[16 + i] == f.spanID / Strconv.Power(256, 7 - i) % 256
            && b[24] == f.flags
  {
    BigEndianAt(f.traceIDUpper, 8, i);
    BigEndianAt(f.traceIDLower, 8, i);
    BigEndianAt(f.spanID, 8, i);
    BigEndianAt(f.flags, 1, 0);
  }

  /** Every identity survives the binary form too, which has the length that datagrams reserve for it. */
  lemma BinaryRoundTrip(f: Fields)
    ensures Unmarshal(Marshal(f)) == Some(f)
  {
    PowerOfByte();
    MarshalledParts(f);
    BytesRoundTrip(f.traceIDUpper, 8);
    BytesRoundTrip(f.traceIDLower, 8);
    BytesRoundTrip(f.spanID, 8);
  }

  /** And any 25 bytes are the binary form of what they unmarshal to; further bytes are ignored. */
  lemma UnmarshalIsOnto(data: Bytes)
    requires |data| >= Datagram.IDENTITY_LENGTH
    ensures Unmarshal(data).Some? && Marshal(Unmarshal(data).value) == data[..Datagram.IDENTITY_LENGTH]
  {
    NumberRoundTrip(data[0..8]);
    NumberRoundTrip(data[8..16]);
    NumberRoundTrip(data[16..24]);
    assert BigEndian(data[24], 1) == [data[24]] by {
      assert BigEndian(data[24] / 256, 0) == [];
    }
    assert data[..25] == data[0..8] + data[8..16] + data[16..24] + [data[24]];
  }

  // ---------- The object ----------

  class Identity {
    var traceIDUpper: Uint64
    var traceIDLower: Uint64
    var spanID: Uint64
    var flags: Byte

    function View(): Fields
      reads this
    {
      Fields(traceIDUpper, traceIDLower, spanID, flags)
    }

    constructor (f: Fields)
      ensures View() == f
    {
      traceIDUpper, traceIDLower, spanID, flags := f.traceIDUpper, f.traceIDLower, f.spanID, f.flags;
    }

    /** The fields are written one after the other. */
    method MarshalBinary() returns (buf: Bytes)
      ensures buf == Marshal(View())
    {
      var fields: seq<(nat, nat)> :=
        [(traceIDUpper as nat, 8), (traceIDLower as nat, 8), (spanID as nat, 8), (flags as nat, 1)];
      buf := [];
      for i := 0 to |fields|
        invariant buf == Written(fields, i)
      {
        buf := buf + BigEndian(fields[i].0, fields[i].1);
      }
      assert Written(fields, 0) == [];
      assert Written(fields, 1) == BigEndian(traceIDUpper, 8);
      assert Written(fields, 2) == BigEndian(traceIDUpper, 8) + BigEndian(traceIDLower, 8);
      assert Written(fields, 3) == BigEndian(traceIDUpper, 8) + BigEndian(traceIDLower, 8) + BigEndian(spanID, 8);
    }

    /** Reads field after field; a text that is too short leaves the receiver as it was. */
    method UnmarshalBinary(data: Bytes) returns (ok: bool)
      modifies this
      ensures ok <==> Unmarshal(data).Some?
      ensures View() == if ok then Unmarshal(data).value else old(View())
    {
      if |data| < Datagram.IDENTITY_LENGTH {
        return false;
      }
      traceIDUpper := ReadUint64(data, 0);
      traceIDLower := ReadUint64(data, 8);
      spanID := ReadUint64(data, 16);
      flags := data[24];
      return true;
    }
  }

  function Written(fields: seq<(nat, nat)>, n: nat): Bytes
    requires n <= |fields|
  {
    if n == 0 then [] else Written(fields, n - 1) + BigEndian(fields[n - 1].0, fields[n - 1].1)
  }
}
