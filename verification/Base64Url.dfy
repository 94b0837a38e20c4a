/** Unpadded base64url (section 5 of RFC 4648) over bytes. */
module Base64Url {
  import opened Wrappers

  type Byte = n: nat | n < 256

  type Sextet = n: nat | n < 64

  function Letter(n: Sextet): (c: char)
    ensures ValueOf(c) == Some(n)
  {
    if n < 26 then 'A' + n as char
    else if n < 52 then 'a' + (n - 26) as char
    else if n < 62 then '0' + (n - 52) as char
    else if n == 62 then '-'
    else '_'
  }

  /** The value of a letter. The standard alphabet's last two letters are read too; anything else has none. */
  function ValueOf(c: char): Option<Sextet> {
    if 'A' <= c <= 'Z' then Some((c - 'A') as nat)
    else if 'a' <= c <= 'z' then Some(26 + (c - 'a') as nat)
    else if '0' <= c <= '9' then Some(52 + (c - '0') as nat)
    else if c == '-' || c == '+' then Some(62)
    else if c == '_' || c == '/' then Some(63)
    else None
  }

  /** The six bits across the border of two bytes. */
  function Across(a: Byte, b: Byte): Sextet {
    var n: nat := a % 4 * 16 + b / 16;
    n
  }

  function AcrossNext(b: Byte, c: Byte): Sextet {
    var n: nat := b % 16 * 4 + c / 64;
    n
  }

  function ToSextets(bytes: seq<Byte>): seq<Sextet> {
    if |bytes| == 0 then []
    else if |bytes| == 1 then [bytes[0] / 4, Across(bytes[0], 0)]
    else if |bytes| == 2 then [bytes[0] / 4, Across(bytes[0], bytes[1]), AcrossNext(bytes[1], 0)]
    else
      [bytes[0] / 4, Across(bytes[0], bytes[1]), AcrossNext(bytes[1], bytes[2]), bytes[2] % 64] + ToSextets(bytes[3..])
  }

  function FirstByte(a: Sextet, b: Sextet): Byte {
    var n: nat := a * 4 + b / 16;
    n
  }

  function SecondByte(b: Sextet, c: Sextet): Byte {
    var n: nat := b % 16 * 16 + c / 4;
    n
  }

  function ThirdByte(c: Sextet, d: Sextet): Byte {
    var n: nat := c % 4 * 64 + d;
    n
  }

  /** Left-over bits are dropped. */
  function ToBytes(sextets: seq<Sextet>): seq<Byte> {
    if |sextets| <= 1 then []
    else if |sextets| == 2 then [FirstByte(sextets[0], sextets[1])]
    else if |sextets| == 3 then [FirstByte(sextets[0], sextets[1]), SecondByte(sextets[1], sextets[2])]
    else
      [FirstByte(sextets[0], sextets[1]), SecondByte(sextets[1], sextets[2]), ThirdByte(sextets[2], sextets[3])]
      + ToBytes(sextets[4..])
  }

  function Letters(sextets: seq<Sextet>): (text: string)
    ensures |text| == |sextets| && forall i :: 0 <= i < |text| ==> text[i] == Letter(sextets[i])
  {
    seq(|sextets|, i requires 0 <= i < |sextets| => Letter(sextets[i]))
  }

  /** Characters outside the alphabet are skipped. */
  function Values(text: string): seq<Sextet> {
    if text == "" then []
    else (if ValueOf(text[0]).Some? then [ValueOf(text[0]).value] else []) + Values(text[1..])
  }

  function Encode(bytes: seq<Byte>): string { Letters(ToSextets(bytes)) }

  function Decode(text: string): seq<Byte> { ToBytes(Values(text)) }

  /** Three bytes are put together again from their sextets. */
  lemma BytesBack(a: Byte, b: Byte, c: Byte)
    ensures FirstByte(a / 4, Across(a, b)) == a
    ensures SecondByte(Across(a, b), AcrossNext(b, c)) == b
    ensures ThirdByte(AcrossNext(b, c), c % 64) == c
  {
    assert Across(a, b) / 16 == a % 4;
    assert Across(a, b) % 16 == b / 16;
    assert AcrossNext(b, c) / 4 == b % 16;
    assert AcrossNext(b, c) % 4 == c / 64;
  }

  lemma {:induction false} BytesOfSextets(bytes: seq<Byte>)
    ensures ToBytes(ToSextets(bytes)) == bytes
  {
    hide FirstByte, SecondByte, ThirdByte, Across, AcrossNext;
    if |bytes| > 0 {
      BytesBack(bytes[0], if |bytes| > 1 then bytes[1] else 0, if |bytes| > 2 then bytes[2] else 0);
    }
    if |bytes| >= 3 {
      BytesOfSextets(bytes[3..]);
      var sextets := ToSextets(bytes);
      assert sextets[4..] == ToSextets(bytes[3..]);
      assert bytes == [bytes[0], bytes[1], bytes[2]] + bytes[3..];
    }
  }

  lemma {:induction false} ValuesOfLetters(sextets: seq<Sextet>)
    ensures Values(Letters(sextets)) == sextets
  {
    if sextets != [] {
      ValuesOfLetters(sextets[1..]);
      assert Letters(sextets)[1..] == Letters(sextets[1..]);
    }
  }

  /** Decoding undoes encoding. */
  lemma DecodeOfEncode(bytes: seq<Byte>)
    ensures Decode(Encode(bytes)) == bytes
  {
    ValuesOfLetters(ToSextets(bytes));
    BytesOfSextets(bytes);
  }

  const UPPER := "ABCDEFGHIJKLMNOPQRSTUVWXYZ"
  const LOWER := "abcdefghijklmnopqrstuvwxyz"
  const DIGITS := "0123456789"

  /** The URL-safe alphabet, in the order of its values. */
  const ALPHABET := UPPER + LOWER + DIGITS + "-_"

  lemma UpperExactly(n: nat)
    requires n < 26
    ensures UPPER[n] == 'A' + n as char
  {
  }

  lemma LowerExactly(n: nat)
    requires n < 26
    ensures LOWER[n] == 'a' + n as char
  {
  }

  lemma DigitExactly(n: nat)
    requires n < 10
    ensures DIGITS[n] == '0' + n as char
  {
  }

  lemma LetterExactly(n: Sextet)
    ensures |ALPHABET| == 64 && Letter(n) == ALPHABET[n]
  {
    assert |UPPER| == 26 && |LOWER| == 26 && |DIGITS| == 10;
    if n < 26 {
      UpperExactly(n);
    } else if n < 52 {
      LowerExactly(n - 26);
    } else if n < 62 {
      DigitExactly(n - 52);
    }
  }

  /** Four letters as one number of 24 bits, first letter highest. */
  function Bits(w: Sextet, x: Sextet, y: Sextet, z: Sextet): nat { w * 0x4_0000 + x * 0x1000 + y * 0x40 + z }

  /** Three bytes are the sextets of the same 24 bits. */
  lemma SextetsExactly(a: Byte, b: Byte, c: Byte, w: Sextet, x: Sextet, y: Sextet, z: Sextet)
    requires Bits(w, x, y, z) == a * 0x1_0000 + b * 0x100 + c
    ensures w == a / 4 && x == Across(a, b) && y == AcrossNext(b, c) && z == c % 64
  {
    var high, low := a % 4, b % 16;
    assert a == a / 4 * 4 + high && b == b / 16 * 16 + low && c == c / 64 * 64 + c % 64;
    assert w == a / 4;
    assert x == high * 16 + b / 16;
    assert y == low * 4 + c / 64;
  }

  lemma LetterOf(s: Sextet, n: Sextet)
    requires s == n
    ensures |ALPHABET| == 64 && Letter(s) == ALPHABET[n]
  {
    LetterExactly(n);
  }

  /**
   Three bytes at a time, 24 bits are written as four letters of the alphabet,
   highest bits first; of one or two bytes left over, missing bits are zero and
   letters without any bits are left out.
   */
  lemma EncodedExactly(a: Byte, b: Byte, c: Byte, rest: seq<Byte>, w: Sextet, x: Sextet, y: Sextet, z: Sextet)
    requires Bits(w, x, y, z) == a * 0x1_0000 + b * 0x100 + c
    ensures |ALPHABET| == 64 && Encode([]) == ""
    ensures Encode([a, b, c] + rest) == [ALPHABET[w], ALPHABET[x], ALPHABET[y], ALPHABET[z]] + Encode(rest)
    ensures c == 0 ==> Encode([a, b]) == [ALPHABET[w], ALPHABET[x], ALPHABET[y]]
    ensures c == 0 && b == 0 ==> Encode([a]) == [ALPHABET[w], ALPHABET[x]]
  {
    assert ([a, b, c] + rest)[3..] == rest;
    hide Letter, Across, AcrossNext, Bits;
    SextetsExactly(a, b, c, w, x, y, z);
    LetterOf(a / 4, w);
    LetterOf(Across(a, b), x);
    LetterOf(AcrossNext(b, c), y);
    LetterOf(c % 64, z);
  }

  lemma EncodedLength(bytes: seq<Byte>)
    ensures |Encode(bytes)| == (4 * |bytes| + 2) / 3
  {
    SextetCount(bytes);
  }

  lemma {:induction false} SextetCount(bytes: seq<Byte>)
    ensures |ToSextets(bytes)| == (4 * |bytes| + 2) / 3
  {
    if |bytes| >= 3 {
      SextetCount(bytes[3..]);
    }
  }
}
