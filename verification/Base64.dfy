/**
 Base64 as Python's library writes and leniently reads it (sections 4 and 5 of RFC 4648), and the
 recovery of a passkey challenge key from the client's base64url form (camp44/api/v1/passkey.py).
 */
module Base64 {
  import opened Wrappers
  import opened Utf8

  type Sextet = v: int | 0 <= v < 64

  /** The standard alphabet, or the URL-safe one. */
  function Letter(url: bool, v: Sextet): char {
    if v < 26 then 'A' + v as char
    else if v < 52 then 'a' + (v - 26) as char
    else if v < 62 then '0' + (v - 52) as char
    else if v == 62 then (if url then '-' else '+')
    else (if url then '_' else '/')
  }

  function Letters(url: bool, vs: seq<Sextet>): string {
    seq(|vs|, i requires 0 <= i < |vs| => Letter(url, vs[i]))
  }

  /** The six-bit groups of one, two and three bytes. */
  function OneByte(a: Byte): seq<Sextet> {
    [a / 4, a % 4 * 16]
  }

  function TwoBytes(a: Byte, b: Byte): seq<Sextet> {
    [a / 4, a % 4 * 16 + b / 16, b % 16 * 4]
  }

  function ThreeBytes(a: Byte, b: Byte, c: Byte): seq<Sextet> {
    [a / 4, a % 4 * 16 + b / 16, b % 16 * 4 + c / 64, c % 64]
  }

  /** The number that six-bit groups spell. */
  function Joined(vs: seq<Sextet>): int {
    if vs == [] then 0 else Joined(vs[..|vs| - 1]) * 64 + vs[|vs| - 1] as int
  }

  lemma JoinedOf(a: Sextet, b: Sextet, c: Sextet, d: Sextet)
    ensures Joined([a]) == a as int
    ensures Joined([a, b]) == a as int * 64 + b as int
    ensures Joined([a, b, c]) == a as int * 4096 + b as int * 64 + c as int
    ensures Joined([a, b, c, d]) == a as int * 262144 + b as int * 4096 + c as int * 64 + d as int
  {
    assert [a][..0] == [] && [a, b][..1] == [a] && [a, b, c][..2] == [a, b] && [a, b, c, d][..3] == [a, b, c];
  }

  /** The groups are the bits of the bytes, most significant first, zeros filling the last group. */
  lemma GroupsAreBits(a: Byte, b: Byte, c: Byte)
    ensures Joined(OneByte(a)) == a as int * 16
    ensures Joined(TwoBytes(a, b)) == (a as int * 256 + b as int) * 4
    ensures Joined(ThreeBytes(a, b, c)) == a as int * 65536 + b as int * 256 + c as int
  {
    var x, y, z := OneByte(a), TwoBytes(a, b), ThreeBytes(a, b, c);
    JoinedOf(x[0], x[1], 0, 0);
    JoinedOf(y[0], y[1], y[2], 0);
    JoinedOf(z[0], z[1], z[2], z[3]);
  }

  /** `b64encode`, `urlsafe_b64encode`. */
  function Encoded(url: bool, b: seq<Byte>): string {
    if b == [] then ""
    else if |b| == 1 then Letters(url, OneByte(b[0])) + "=="
    else if |b| == 2 then Letters(url, TwoBytes(b[0], b[1])) + "="
    else Letters(url, ThreeBytes(b[0], b[1], b[2])) + Encoded(url, b[3..])
  }

  /** Vectors from section 10 of RFC 4648, and one for the two letters in which the alphabets differ. */
  lemma KnownVectors()
    ensures Encoded(false, []) == ""
    ensures Encoded(false, [102]) == "Zg==" && Encoded(false, [102, 111]) == "Zm8="
    ensures Encoded(false, [102, 111, 111]) == "Zm9v"
    ensures Encoded(false, [251, 255]) == "+/8=" && Encoded(true, [251, 255]) == "-_8="
  {
    assert Letters(false, OneByte(102)) == "Zg" && Letters(false, TwoBytes(102, 111)) == "Zm8";
    assert Letters(false, ThreeBytes(102, 111, 111)) == "Zm9v" && [102, 111, 111][3..] == [];
    assert Letters(false, TwoBytes(251, 255)) == "+/8" && Letters(true, TwoBytes(251, 255)) == "-_8";
  }

  function Stripped(s: string): string {
    if s != "" && s[|s| - 1] == '=' then Stripped(s[..|s| - 1]) else s
  }

  function Value(c: char): Option<Sextet> {
    if 'A' <= c <= 'Z' then Some((c - 'A') as int)
    else if 'a' <= c <= 'z' then Some((c - 'a') as int + 26)
    else if '0' <= c <= '9' then Some((c - '0') as int + 52)
    else if c == '+' then Some(62)
    else if c == '/' then Some(63)
    else None
  }

  /** How much of the previous letter is still to be written, by position in the group. */
  predicate CarryOk(quad: nat, left: int) {
    quad < 4 && 0 <= left < (if quad == 1 then 64 else if quad == 2 then 16 else if quad == 3 then 4 else 1)
  }

  function Written(first: Byte, rest: Option<seq<Byte>>): Option<seq<Byte>> {
    match rest
    case Some(bytes) => Some([first] + bytes)
    case None => None
  }

  /** `binascii.a2b_base64` without strict mode: letters outside the alphabet are skipped, padding
      that completes a group ends the input, and input ending inside a group is an error. */
  function Read(s: string, quad: nat, left: int, pads: nat): Option<seq<Byte>>
    requires CarryOk(quad, left)
  {
    if s == "" then (if quad == 0 then Some([]) else None)
    else if s[0] == '=' then
      if quad >= 2 && quad + pads + 1 >= 4 then Some([])
      else Read(s[1..], quad, left, if quad >= 2 then pads + 1 else pads)
    else
      match Value(s[0])
      case None => Read(s[1..], quad, left, pads)
      case Some(v) =>
        if quad == 0 then Read(s[1..], 1, v, 0)
        else if quad == 1 then Written(left * 4 + v / 16, Read(s[1..], 2, v % 16, 0))
        else if quad == 2 then Written(left * 16 + v / 4, Read(s[1..], 3, v % 4, 0))
        else Written(left * 64 + v, Read(s[1..], 0, 0, 0))
  }

  predicate Ascii(s: string) {
    forall i | 0 <= i < |s| :: s[i] < 128 as char
  }

  /** `b64decode` of text. */
  function Decoded(s: string): Option<seq<Byte>> {
    if Ascii(s) then Read(s, 0, 0, 0) else None
  }

  function ToStandard(s: string): string {
    seq(|s|, i requires 0 <= i < |s| => if s[i] == '-' then '+' else if s[i] == '_' then '/' else s[i])
  }

  function Padding(n: nat): string {
    var short: int := -1 * n;
    seq(short % 4, _ => '=')
  }

  /** `_b64url_decode`; nothing when it raises. */
  function B64UrlDecode(s: string): Option<seq<Byte>> {
    if Ascii(s) then Decoded(ToStandard(s + Padding(|s|))) else None
  }

  /** The key under which a challenge is stored when the options are sent. */
  function StoredKey(challenge: seq<Byte>): string {
    Encoded(false, challenge)
  }

  /** The key recovered from what the client claims to have signed; empty when decoding raises. */
  function ClaimedKey(claimed: string): string {
    match B64UrlDecode(claimed)
    case Some(bytes) => Encoded(false, bytes)
    case None => ""
  }

  // ---------------------------------------------------------------------------------------
  // Reading back what was written.
  // ---------------------------------------------------------------------------------------

  lemma LetterHasValue(v: Sextet)
    ensures Value(Letter(false, v)) == Some(v) && Letter(false, v) != '='
    ensures Letter(true, v) < 128 as char && Letter(false, v) < 128 as char && Letter(true, v) != '='
    ensures Letter(false, v) ==
              if Letter(true, v) == '-' then '+' else if Letter(true, v) == '_' then '/' else Letter(true, v)
  {}

  lemma ReadLetter(v: Sextet, rest: string, quad: nat, left: int, pads: nat)
    requires CarryOk(quad, left)
    ensures Read([Letter(false, v)] + rest, quad, left, pads) ==
              if quad == 0 then Read(rest, 1, v, 0)
              else if quad == 1 then Written(left * 4 + v / 16, Read(rest, 2, v % 16, 0))
              else if quad == 2 then Written(left * 16 + v / 4, Read(rest, 3, v % 4, 0))
              else Written(left * 64 + v, Read(rest, 0, 0, 0))
  {
    LetterHasValue(v);
    assert ([Letter(false, v)] + rest)[1..] == rest;
  }

  lemma ReadTwoLetters(a: Sextet, b: Sextet, rest: string)
    ensures Read(Letters(false, [a, b]) + rest, 0, 0, 0) == Written(a * 4 + b / 16, Read(rest, 2, b % 16, 0))
  {
    ReadLetter(a, [Letter(false, b)] + rest, 0, 0, 0);
    ReadLetter(b, rest, 1, a, 0);
    assert Letters(false, [a, b]) + rest == [Letter(false, a)] + ([Letter(false, b)] + rest);
  }

  lemma ReadThreeLetters(a: Sextet, b: Sextet, c: Sextet, rest: string)
    ensures Read(Letters(false, [a, b, c]) + rest, 0, 0, 0)
            == Written(a * 4 + b / 16, Written(b % 16 * 16 + c / 4, Read(rest, 3, c % 4, 0)))
  {
    ReadTwoLetters(a, b, [Letter(false, c)] + rest);
    ReadLetter(c, rest, 2, b % 16, 0);
    assert Letters(false, [a, b, c]) + rest == Letters(false, [a, b]) + ([Letter(false, c)] + rest);
  }

  lemma ReadFourLetters(a: Sextet, b: Sextet, c: Sextet, d: Sextet, rest: string)
    ensures Read(Letters(false, [a, b, c, d]) + rest, 0, 0, 0)
            == Written(a * 4 + b / 16, Written(b % 16 * 16 + c / 4, Written(c % 4 * 64 + d, Read(rest, 0, 0, 0))))
  {
    ReadThreeLetters(a, b, c, [Letter(false, d)] + rest);
    ReadLetter(d, rest, 3, c % 4, 0);
    assert Letters(false, [a, b, c, d]) + rest == Letters(false, [a, b, c]) + ([Letter(false, d)] + rest);
  }

  /** The six-bit groups hold all the bits. */
  lemma SextetsRegroup(a: Byte, b: Byte, c: Byte)
    ensures a / 4 * 4 + a % 4 * 16 / 16 == a
    ensures a / 4 * 4 + (a % 4 * 16 + b / 16) / 16 == a
    ensures (a % 4 * 16 + b / 16) % 16 * 16 + b % 16 * 4 / 4 == b
    ensures (a % 4 * 16 + b / 16) % 16 * 16 + (b % 16 * 4 + c / 64) / 4 == b
    ensures (b % 16 * 4 + c / 64) % 4 * 64 + c % 64 == c
  {}

  /** The letters of one, two and three bytes, read back. */
  lemma ReadOneByte(a: Byte)
    ensures Read(Letters(false, OneByte(a)) + "==", 0, 0, 0) == Some([a])
  {
    SextetsRegroup(a, 0, 0);
    ReadTwoLetters(a / 4, a % 4 * 16, "==");
    assert "=="[1..] == "=";
    assert [a] + [] == [a];
  }

  lemma ReadTwoBytes(a: Byte, b: Byte)
    ensures Read(Letters(false, TwoBytes(a, b)) + "=", 0, 0, 0) == Some([a, b])
  {
    var l0: Sextet, l1: Sextet, l2: Sextet := a / 4, a % 4 * 16 + b / 16, b % 16 * 4;
    ReadThreeLetters(l0, l1, l2, "=");
    assert l0 * 4 + l1 / 16 == a && l1 % 16 * 16 + l2 / 4 == b by { SextetsRegroup(a, b, 0); }
    assert [a] + ([b] + []) == [a, b];
  }

  lemma ReadThreeBytes(a: Byte, b: Byte, c: Byte, rest: string)
    ensures Read(Letters(false, ThreeBytes(a, b, c)) + rest, 0, 0, 0)
            == Written(a, Written(b, Written(c, Read(rest, 0, 0, 0))))
  {
    var l0: Sextet, l1: Sextet, l2: Sextet, l3: Sextet := a / 4, a % 4 * 16 + b / 16, b % 16 * 4 + c / 64, c % 64;
    ReadFourLetters(l0, l1, l2, l3, rest);
    assert l0 * 4 + l1 / 16 == a && l1 % 16 * 16 + l2 / 4 == b && l2 % 4 * 64 + l3 == c by { SextetsRegroup(a, b, c); }
  }

  lemma WrittenBack(b: seq<Byte>)
    requires |b| > 2
    ensures Written(b[0], Written(b[1], Written(b[2], Some(b[3..])))) == Some(b)
  {
    assert [b[0]] + ([b[1]] + ([b[2]] + b[3..])) == b;
  }

  lemma {:induction false} ReadEncoded(b: seq<Byte>)
    ensures Read(Encoded(false, b), 0, 0, 0) == Some(b)
    decreases |b|
  {
    if |b| == 1 {
      ReadOneByte(b[0]);
      assert b == [b[0]];
    } else if |b| == 2 {
      ReadTwoBytes(b[0], b[1]);
      assert b == [b[0], b[1]];
    } else if |b| > 2 {
      ReadThreeBytes(b[0], b[1], b[2], Encoded(false, b[3..]));
      ReadEncoded(b[3..]);
      WrittenBack(b);
    }
  }

  /** Letters of the two alphabets correspond and are not padding. */
  lemma LettersTranslate(vs: seq<Sextet>)
    ensures ToStandard(Letters(true, vs)) == Letters(false, vs)
    ensures Ascii(Letters(true, vs)) && Ascii(Letters(false, vs))
    ensures forall i | 0 <= i < |vs| :: Letters(true, vs)[i] != '='
  {
    forall i | 0 <= i < |vs| { LetterHasValue(vs[i]); }
  }

  /** Both alphabets write the same letters up to the translation, in whole groups of four. */
  lemma {:induction false} EncodedShape(b: seq<Byte>)
    ensures ToStandard(Encoded(true, b)) == Encoded(false, b)
    ensures Ascii(Encoded(true, b)) && Ascii(Encoded(false, b))
    ensures |Encoded(true, b)| % 4 == 0
    decreases |b|
  {
    if |b| == 1 {
      LettersTranslate(OneByte(b[0]));
      TranslateAppend(Letters(true, OneByte(b[0])), "==");
    } else if |b| == 2 {
      LettersTranslate(TwoBytes(b[0], b[1]));
      TranslateAppend(Letters(true, TwoBytes(b[0], b[1])), "=");
    } else if |b| > 2 {
      var head, tail := ThreeBytes(b[0], b[1], b[2]), b[3..];
      LettersTranslate(head);
      EncodedShape(tail);
      TranslateAppend(Letters(true, head), Encoded(true, tail));
    }
  }

  lemma TranslateAppend(x: string, y: string)
    ensures ToStandard(x + y) == ToStandard(x) + ToStandard(y)
    ensures Ascii(x) && Ascii(y) ==> Ascii(x + y)
  {}

  /** Standard encoding and decoding are inverse. */
  lemma StandardRoundTrip(b: seq<Byte>)
    ensures Decoded(Encoded(false, b)) == Some(b)
  {
    EncodedShape(b);
    ReadEncoded(b);
  }

  /** The last letters of a non-empty encoding: two, one or no padding signs. */
  lemma {:induction false} LastLetters(b: seq<Byte>)
    requires b != []
    ensures |Encoded(true, b)| >= 4 && Encoded(true, b)[|Encoded(true, b)| - 3] != '='
    ensures var e := Encoded(true, b); e[|e| - 2] == '=' ==> e[|e| - 1] == '='
    decreases |b|
  {
    if |b| == 1 {
      LettersTranslate(OneByte(b[0]));
    } else if |b| == 2 {
      LettersTranslate(TwoBytes(b[0], b[1]));
    } else {
      var head := Letters(true, ThreeBytes(b[0], b[1], b[2]));
      LettersTranslate(ThreeBytes(b[0], b[1], b[2]));
      if |b| > 3 {
        LastLetters(b[3..]);
        LastOfAppend(head, Encoded(true, b[3..]));
      } else {
        assert Encoded(true, b) == head;
      }
    }
  }

  lemma LastOfAppend(x: string, y: string)
    requires |y| >= 4
    ensures (x + y)[|x + y| - 1] == y[|y| - 1]
    ensures (x + y)[|x + y| - 2] == y[|y| - 2]
    ensures (x + y)[|x + y| - 3] == y[|y| - 3]
  {}

  lemma StripOne(e: string)
    requires |e| >= 2 && e[|e| - 1] == '=' && e[|e| - 2] != '='
    ensures Stripped(e) == e[..|e| - 1]
  {}

  lemma StripTwo(e: string)
    requires |e| >= 3 && e[|e| - 1] == '=' && e[|e| - 2] == '=' && e[|e| - 3] != '='
    ensures Stripped(e) == e[..|e| - 2]
  {
    StripOne(e[..|e| - 1]);
    assert e[..|e| - 1][..|e| - 2] == e[..|e| - 2];
  }

  lemma PaddingFills(n: nat)
    ensures Padding(n) == if n % 4 == 0 then "" else if n % 4 == 3 then "=" else if n % 4 == 2 then "==" else "==="
  {}

  lemma PaddingRestores(e: string)
    requires |e| % 4 == 0 && |e| >= 4 && e[|e| - 3] != '='
    requires e[|e| - 2] == '=' ==> e[|e| - 1] == '='
    ensures Stripped(e) + Padding(|Stripped(e)|) == e && Stripped(e) <= e
  {
    if e[|e| - 2] == '=' {
      StripTwo(e);
      PaddingFills(|e| - 2);
      assert e == e[..|e| - 2] + "==";
    } else if e[|e| - 1] == '=' {
      StripOne(e);
      PaddingFills(|e| - 1);
      assert e == e[..|e| - 1] + "=";
    } else {
      PaddingFills(|e|);
    }
  }

  /** Stripping removes at most two signs, and `_b64url_decode` puts exactly those back. */
  lemma StripThenPad(b: seq<Byte>)
    ensures Stripped(Encoded(true, b)) + Padding(|Stripped(Encoded(true, b))|) == Encoded(true, b)
    ensures Stripped(Encoded(true, b)) <= Encoded(true, b)
  {
    if b != [] {
      EncodedShape(b);
      LastLetters(b);
      PaddingRestores(Encoded(true, b));
    }
  }

  lemma DecodesAfterPadding(s: string, b: seq<Byte>)
    requires Ascii(s) && s + Padding(|s|) == Encoded(true, b)
    ensures B64UrlDecode(s) == Some(b)
  {
    EncodedShape(b);
    StandardRoundTrip(b);
  }

  /** The client may send the challenge with or without padding: either way `_b64url_decode` gives
      the challenge back, the recovered key is the stored one, and the stored key decodes to the
      challenge for the signature check. */
  lemma ChallengeKeyRoundTrip(challenge: seq<Byte>)
    ensures B64UrlDecode(Encoded(true, challenge)) == Some(challenge)
    ensures B64UrlDecode(Stripped(Encoded(true, challenge))) == Some(challenge)
    ensures ClaimedKey(Encoded(true, challenge)) == StoredKey(challenge)
    ensures ClaimedKey(Stripped(Encoded(true, challenge))) == StoredKey(challenge)
    ensures Decoded(StoredKey(challenge)) == Some(challenge)
  {
    EncodedShape(challenge);
    PaddingFills(|Encoded(true, challenge)|);
    DecodesAfterPadding(Encoded(true, challenge), challenge);
    StripThenPad(challenge);
    DecodesAfterPadding(Stripped(Encoded(true, challenge)), challenge);
    StandardRoundTrip(challenge);
  }

  /** Different challenges are stored under different keys. */
  lemma StoredKeysAreDistinct(a: seq<Byte>, b: seq<Byte>)
    requires StoredKey(a) == StoredKey(b)
    ensures a == b
  {
    StandardRoundTrip(a);
    StandardRoundTrip(b);
  }
}
