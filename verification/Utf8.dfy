/**
 UTF-8 as Python encodes and decodes it (section 3 of RFC 3629), with the decoder's "ignore"
 error handler: it drops the longest ill-formed start of a sequence and goes on.
 */
module Utf8 {
  type CodePoint = c: int | 0 <= c < 0x11_0000
  type Byte = b: int | 0 <= b < 256

  predicate IsScalar(c: CodePoint) {
    !(0xD800 <= c < 0xE000)
  }

  predicate Encodable(p: seq<CodePoint>) {
    forall i | 0 <= i < |p| :: IsScalar(p[i])
  }

  function Width(c: CodePoint): nat {
    if c < 0x80 then 1 else if c < 0x800 then 2 else if c < 0x1_0000 then 3 else 4
  }

  function EncodeChar(c: CodePoint): (s: seq<Byte>)
    ensures |s| == Width(c)
  {
    if c < 0x80 then [c]
    else if c < 0x800 then [0xC0 + c / 0x40, 0x80 + c % 0x40]
    else if c < 0x1_0000 then [0xE0 + c / 0x1000, 0x80 + c / 0x40 % 0x40, 0x80 + c % 0x40]
    else [0xF0 + c / 0x4_0000, 0x80 + c / 0x1000 % 0x40, 0x80 + c / 0x40 % 0x40, 0x80 + c % 0x40]
  }

  function Encode(p: seq<CodePoint>): seq<Byte> {
    if p == [] then [] else EncodeChar(p[0]) + Encode(p[1..])
  }

  predicate Continues(b: Byte) {
    0x80 <= b < 0xC0
  }

  /** The second byte must continue and must not make the sequence overlong, a surrogate or too large. */
  predicate SecondOk(first: Byte, second: Byte) {
    && Continues(second)
    && (first == 0xE0 ==> 0xA0 <= second)
    && (first == 0xED ==> second < 0xA0)
    && (first == 0xF0 ==> 0x90 <= second)
    && (first == 0xF4 ==> second < 0x90)
  }

  /** What the decoder makes of the next bytes: a character, or bytes to drop. */
  datatype Scanned = Char(c: CodePoint, width: nat) | Dropped(width: nat)

  /** The payload of a continuation byte, or of a leading byte with its marker taken off. */
  function Payload(b: Byte, marker: int): int {
    var n: int := b;
    n - marker
  }

  function Scan(s: seq<Byte>): (r: Scanned)
    requires s != []
    ensures 0 < r.width <= |s|
  {
    if s[0] < 0x80 then Char(s[0], 1)
    else if s[0] < 0xC2 || 0xF5 <= s[0] then Dropped(1)
    else if |s| < 2 then Dropped(|s|)
    else if !SecondOk(s[0], s[1]) then Dropped(1)
    else if s[0] < 0xE0 then Char(Payload(s[0], 0xC0) * 0x40 + Payload(s[1], 0x80), 2)
    else if |s| < 3 then Dropped(|s|)
    else if !Continues(s[2]) then Dropped(2)
    else if s[0] < 0xF0 then
      Char(Payload(s[0], 0xE0) * 0x1000 + Payload(s[1], 0x80) * 0x40 + Payload(s[2], 0x80), 3)
    else if |s| < 4 then Dropped(|s|)
    else if !Continues(s[3]) then Dropped(3)
    else
      Char(Payload(s[0], 0xF0) * 0x4_0000 + Payload(s[1], 0x80) * 0x1000
           + Payload(s[2], 0x80) * 0x40 + Payload(s[3], 0x80), 4)
  }

  function DecodeIgnoring(s: seq<Byte>): seq<CodePoint> {
    if s == [] then []
    else
      match Scan(s)
      case Char(c, n) => [c] + DecodeIgnoring(s[n..])
      case Dropped(n) => DecodeIgnoring(s[n..])
  }

  /** A character is its six-bit groups. */
  lemma SixBitGroups(c: CodePoint)
    ensures c == c / 0x40 * 0x40 + c % 0x40
    ensures c == c / 0x1000 * 0x1000 + c / 0x40 % 0x40 * 0x40 + c % 0x40
    ensures c == c / 0x4_0000 * 0x4_0000 + c / 0x1000 % 0x40 * 0x1000 + c / 0x40 % 0x40 * 0x40 + c % 0x40
  {}

  /** The bits that a sequence of bytes carries after the marker of its leading byte. */
  function Bits(s: seq<Byte>, marker: int): int
    requires s != []
  {
    if |s| == 1 then Payload(s[0], marker) else Bits(s[..|s| - 1], marker) * 64 + Payload(s[|s| - 1], 0x80)
  }

  lemma BitsOf(a: Byte, b: Byte, c: Byte, d: Byte, marker: int)
    ensures Bits([a], marker) == Payload(a, marker)
    ensures Bits([a, b], marker) == Payload(a, marker) * 64 + Payload(b, 0x80)
    ensures Bits([a, b, c], marker) == Payload(a, marker) * 4096 + Payload(b, 0x80) * 64 + Payload(c, 0x80)
    ensures Bits([a, b, c, d], marker)
            == Payload(a, marker) * 262144 + Payload(b, 0x80) * 4096 + Payload(c, 0x80) * 64 + Payload(d, 0x80)
  {
    assert [a, b][..1] == [a] && [a, b, c][..2] == [a, b] && [a, b, c, d][..3] == [a, b, c];
  }

  /** The table in section 3 of RFC 3629: ranges, leading and continuation bytes, and payload bits. */
  lemma EncodingFollowsTheTable(c: CodePoint)
    ensures var s := EncodeChar(c);
            && (c <= 0x7F ==> s == [c])
            && (0x80 <= c <= 0x7FF ==> |s| == 2 && 0xC2 <= s[0] <= 0xDF && Bits(s, 0xC0) == c)
            && (0x800 <= c <= 0xFFFF ==> |s| == 3 && 0xE0 <= s[0] <= 0xEF && Bits(s, 0xE0) == c)
            && (0x1_0000 <= c ==> |s| == 4 && 0xF0 <= s[0] <= 0xF4 && Bits(s, 0xF0) == c)
            && forall i | 1 <= i < |s| :: 0x80 <= s[i] <= 0xBF
  {
    var s := EncodeChar(c);
    SixBitGroups(c);
    if |s| == 2 { BitsOf(s[0], s[1], 0, 0, 0xC0); }
    else if |s| == 3 { BitsOf(s[0], s[1], s[2], 0, 0xE0); }
    else if |s| == 4 { BitsOf(s[0], s[1], s[2], s[3], 0xF0); }
  }

  lemma ScanReadsTwoOrThree(c: CodePoint, s: seq<Byte>)
    requires IsScalar(c) && 0x80 <= c < 0x1_0000
    requires |s| >= Width(c) && forall i | 0 <= i < Width(c) :: s[i] == EncodeChar(c)[i]
    ensures Scan(s) == Char(c, Width(c))
  {
    SixBitGroups(c);
    assert s[0] == EncodeChar(c)[0] && s[1] == EncodeChar(c)[1];
    if c >= 0x800 { assert s[2] == EncodeChar(c)[2]; }
  }

  lemma ScanReadsFour(c: CodePoint, s: seq<Byte>)
    requires 0x1_0000 <= c
    requires |s| >= 4 && forall i | 0 <= i < 4 :: s[i] == EncodeChar(c)[i]
    ensures Scan(s) == Char(c, 4)
  {
    SixBitGroups(c);
    assert s[0] == EncodeChar(c)[0] && s[1] == EncodeChar(c)[1] && s[2] == EncodeChar(c)[2] && s[3] == EncodeChar(c)[3];
  }

  /** A whole character is read back, whatever follows. */
  lemma ScanReadsChar(c: CodePoint, rest: seq<Byte>)
    requires IsScalar(c)
    ensures Scan(EncodeChar(c) + rest) == Char(c, Width(c))
  {
    if 0x80 <= c < 0x1_0000 { ScanReadsTwoOrThree(c, EncodeChar(c) + rest); }
    else if 0x1_0000 <= c { ScanReadsFour(c, EncodeChar(c) + rest); }
  }

  /** The leading byte tells the width, and the bytes after it may follow it. */
  lemma LeadTellsWidth(c: CodePoint)
    requires IsScalar(c) && Width(c) >= 2
    ensures var e := EncodeChar(c);
            && 0xC2 <= e[0] < 0xF5 && SecondOk(e[0], e[1])
            && (Width(c) == 2 <==> e[0] < 0xE0) && (Width(c) == 4 <==> e[0] >= 0xF0)
            && (Width(c) >= 3 ==> Continues(e[2]))
  {}

  /** A character cut short is dropped as a whole. */
  lemma ScanDropsPart(c: CodePoint, k: nat)
    requires IsScalar(c) && 0 < k < Width(c)
    ensures Scan(EncodeChar(c)[..k]) == Dropped(k)
  {
    var s := EncodeChar(c)[..k];
    LeadTellsWidth(c);
    assert s[0] == EncodeChar(c)[0];
    if k > 1 { assert s[1] == EncodeChar(c)[1]; }
    if k > 2 { assert s[2] == EncodeChar(c)[2]; }
  }

  /** How many leading characters fit in `n` bytes. */
  function Fitting(p: seq<CodePoint>, n: nat): (k: nat)
    ensures k <= |p|
  {
    if p == [] || Width(p[0]) > n then 0 else 1 + Fitting(p[1..], n - Width(p[0]))
  }

  function Cut(s: seq<Byte>, n: nat): seq<Byte> {
    if |s| <= n then s else s[..n]
  }

  lemma DecodeReadsChar(c: CodePoint, tail: seq<Byte>)
    requires IsScalar(c)
    ensures DecodeIgnoring(EncodeChar(c) + tail) == [c] + DecodeIgnoring(tail)
  {
    ScanReadsChar(c, tail);
    assert (EncodeChar(c) + tail)[Width(c)..] == tail;
  }

  lemma DecodeDropsPart(c: CodePoint, k: nat)
    requires IsScalar(c) && 0 < k < Width(c)
    ensures DecodeIgnoring(EncodeChar(c)[..k]) == []
  {
    ScanDropsPart(c, k);
    assert EncodeChar(c)[..k][k..] == [];
  }

  /** Cutting before or after the end of the first character. */
  lemma CutChar(s: seq<Byte>, rest: seq<Byte>, n: nat)
    ensures Cut(s + rest, n) == if |s| <= n then s + Cut(rest, n - |s|) else s[..n]
  {}

  lemma LongerPrefix(p: seq<CodePoint>, k: nat)
    requires k < |p|
    ensures p[..k + 1] == [p[0]] + p[1..][..k]
  {}

  lemma DecodePartOfChar(p: seq<CodePoint>, n: nat)
    requires Encodable(p) && p != [] && n < Width(p[0])
    ensures DecodeIgnoring(Cut(Encode(p), n)) == []
  {
    CutChar(EncodeChar(p[0]), Encode(p[1..]), n);
    if n > 0 { DecodeDropsPart(p[0], n); }
  }

  /** Decoding the first `n` bytes gives the characters that fit in them. */
  lemma {:induction false} DecodeCut(p: seq<CodePoint>, n: nat)
    requires Encodable(p)
    ensures DecodeIgnoring(Cut(Encode(p), n)) == p[..Fitting(p, n)]
    decreases |p|
  {
    if p != [] {
      var c, rest := p[0], p[1..];
      CutChar(EncodeChar(c), Encode(rest), n);
      if Width(c) <= n {
        var k := Fitting(rest, n - Width(c));
        DecodeReadsChar(c, Cut(Encode(rest), n - Width(c)));
        DecodeCut(rest, n - Width(c));
        LongerPrefix(p, k);
        assert Fitting(p, n) == k + 1;
      } else {
        DecodePartOfChar(p, n);
      }
    }
  }

  lemma {:induction false} EncodedOneLonger(p: seq<CodePoint>, k: nat)
    requires k < |p|
    ensures |Encode(p[..k + 1])| == |Encode(p[..k])| + Width(p[k])
    decreases k
  {
    assert p[..k + 1][1..] == p[1..][..k];
    if k > 0 {
      assert p[..k][1..] == p[1..][..k - 1];
      EncodedOneLonger(p[1..], k - 1);
    }
  }

  /** `Fitting` is the length of the longest prefix whose encoding has at most `n` bytes. */
  lemma {:induction false} FittingIsLongest(p: seq<CodePoint>, n: nat, k: nat)
    requires k <= |p|
    ensures |Encode(p[..k])| <= n <==> k <= Fitting(p, n)
    decreases |p|
  {
    if k > 0 {
      var rest := p[1..];
      assert p[..k][1..] == rest[..k - 1];
      if Width(p[0]) <= n { FittingIsLongest(rest, n - Width(p[0]), k - 1); }
    }
  }

  /** Encoding and decoding are inverse on text without surrogates. */
  lemma RoundTrip(p: seq<CodePoint>)
    requires Encodable(p)
    ensures DecodeIgnoring(Encode(p)) == p
  {
    DecodeCut(p, |Encode(p)|);
    assert p[..|p|] == p;
    FittingIsLongest(p, |Encode(p)|, |p|);
  }
}
