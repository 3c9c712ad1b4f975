/** Bytes, as the broker reads and writes them. */
module Bytes {
  newtype Byte = n: int | 0 <= n < 256

  type ByteString = seq<Byte>

  const CR: Byte := 13
  const LF: Byte := 10
  const CRLF: ByteString := [CR, LF]

  function Ascii(text: string): (b: ByteString)
    requires forall c <- text :: c as int < 128
    ensures |b| == |text|
  {
    seq(|text|, i requires 0 <= i < |text| => assert text[i] in text; text[i] as int as Byte)
  }

  function Concat(pieces: seq<ByteString>): ByteString {
    if pieces == [] then [] else pieces[0] + Concat(pieces[1..])
  }

  /** Prepending `a` to both sides of a split. */
  lemma Prepend<T>(a: seq<T>, whole: seq<T>, head: seq<T>, tail: seq<T>)
    requires whole == head + tail
    ensures a + whole == (a + head) + tail
  {
  }

  lemma {:induction false} ConcatAppend(pieces: seq<ByteString>, last: ByteString)
    ensures Concat(pieces + [last]) == Concat(pieces) + last
  {
    if pieces == [] {
    } else {
      assert (pieces + [last])[1..] == pieces[1..] + [last];
      ConcatAppend(pieces[1..], last);
    }
  }

  /** The base64 alphabet of section 4 of RFC 4648. */
  function Base64Digit(i: int): Byte
    requires 0 <= i < 64
  {
    (if i < 26 then 65 + i
     else if i < 52 then 71 + i
     else if i < 62 then i - 4
     else if i == 62 then 43 else 47) as Byte
  }

  /** The four characters of the first three bytes, or of fewer at the end, with padding. */
  function Quad(b: ByteString): (r: ByteString)
    requires b != []
    ensures |r| == 4
  {
    var x := b[0] as int;
    var y := if |b| > 1 then b[1] as int else 0;
    var z := if |b| > 2 then b[2] as int else 0;
    [Base64Digit(x / 4),
     Base64Digit(x % 4 * 16 + y / 16),
     if |b| > 1 then Base64Digit(y % 16 * 4 + z / 64) else 61,
     if |b| > 2 then Base64Digit(z % 64) else 61]
  }

  function Base64(b: ByteString): (r: ByteString)
    ensures |r| == 4 * ((|b| + 2) / 3)
    decreases |b|
  {
    if b == [] then [] else Quad(b) + Base64(if |b| > 3 then b[3..] else [])
  }

  // ----- Reading it back -----

  const CAPITALS := "ABCDEFGHIJKLMNOPQRSTUVWXYZ"
  const SMALL := "abcdefghijklmnopqrstuvwxyz"
  const ALPHABET := CAPITALS + SMALL + "0123456789" + "+/"

  function IndexIn(alphabet: string, b: Byte): nat {
    if alphabet == "" || alphabet[0] as int == b as int then 0 else 1 + IndexIn(alphabet[1..], b)
  }

  function Sextet(b: Byte): nat {
    if b == 61 then 0 else IndexIn(ALPHABET, b)
  }

  /** The bytes of four characters: their six bits each, taken together; padding takes the last bytes away. */
  function Three(s: ByteString): ByteString
    requires |s| == 4
  {
    var n := ((Sextet(s[0]) * 64 + Sextet(s[1])) * 64 + Sextet(s[2])) * 64 + Sextet(s[3]);
    var bytes := [(n / 65536 % 256) as Byte, (n / 256 % 256) as Byte, (n % 256) as Byte];
    if s[2] == 61 then bytes[..1] else if s[3] == 61 then bytes[..2] else bytes
  }

  function FromBase64(s: ByteString): ByteString {
    if |s| < 4 then [] else Three(s[..4]) + FromBase64(s[4..])
  }

  lemma CapitalAt(i: int)
    requires 0 <= i < 26
    ensures CAPITALS[i] as int == 65 + i
  {
  }

  lemma SmallAt(i: int)
    requires 0 <= i < 26
    ensures SMALL[i] as int == 97 + i
  {
  }

  lemma DigitAt(i: int)
    requires 0 <= i < 64
    ensures |ALPHABET| == 64 && Base64Digit(i) as int == ALPHABET[i] as int
  {
    if i < 26 {
      CapitalAt(i);
      assert ALPHABET[i] == CAPITALS[i];
    } else if i < 52 {
      SmallAt(i - 26);
      assert ALPHABET[i] == SMALL[i - 26];
    } else if i < 62 {
      assert ALPHABET[i] == "0123456789"[i - 52];
    } else {
      assert ALPHABET[i] == "+/"[i - 62];
    }
  }

  lemma {:induction false} IndexOfDigit(alphabet: string, i: nat)
    requires i < |alphabet| && (forall c <- alphabet :: c as int < 256) && forall j: nat, k: nat :: j < k < |alphabet| ==> alphabet[j] != alphabet[k]
    ensures alphabet[i] in alphabet && IndexIn(alphabet, alphabet[i] as int as Byte) == i
  {
    if i > 0 {
      assert forall c <- alphabet[1..] :: c in alphabet;
      IndexOfDigit(alphabet[1..], i - 1);
    }
  }

  lemma SextetOfDigit(i: int)
    requires 0 <= i < 64
    ensures Sextet(Base64Digit(i)) == i && Base64Digit(i) != 61
  {
    hide IndexIn;
    forall j: nat, k: nat | j < k < 64
      ensures ALPHABET[j] != ALPHABET[k]
    {
      DigitAt(j);
      DigitAt(k);
    }
    forall c <- ALPHABET
      ensures c as int < 256
    {
      var j: nat :| j < 64 && ALPHABET[j] == c;
      DigitAt(j);
    }
    DigitAt(i);
    IndexOfDigit(ALPHABET, i);
  }

  lemma ThreeBytes(x: int, y: int, z: int)
    requires 0 <= x < 256 && 0 <= y < 256 && 0 <= z < 256
    ensures var n := ((x / 4 * 64 + (x % 4 * 16 + y / 16)) * 64 + (y % 16 * 4 + z / 64)) * 64 + z % 64;
            n / 65536 % 256 == x && n / 256 % 256 == y && n % 256 == z
  {
    Halves(x, 4);
    Halves(y, 16);
    Halves(z, 64);
    Unpacked(x, y, z);
  }

  lemma Halves(n: int, d: int)
    requires d > 0
    ensures n == n / d * d + n % d
  {
  }

  lemma Unpacked(x: int, y: int, z: int)
    requires 0 <= x < 256 && 0 <= y < 256 && 0 <= z < 256
    ensures var n := x * 65536 + y * 256 + z; n / 65536 == x && n / 256 == x * 256 + y && n % 256 == z && (x * 256 + y) % 256 == y && x % 256 == x
  {
  }

  lemma QuadBack(b: ByteString)
    requires b != []
    ensures Three(Quad(b)) == b[..if |b| > 3 then 3 else |b|]
  {
    hide Sextet, Base64Digit;
    var x := b[0] as int;
    var y := if |b| > 1 then b[1] as int else 0;
    var z := if |b| > 2 then b[2] as int else 0;
    SextetOfDigit(x / 4);
    SextetOfDigit(x % 4 * 16 + y / 16);
    SextetOfDigit(y % 16 * 4 + z / 64);
    SextetOfDigit(z % 64);
    SextetOfPadding();
    ThreeBytes(x, y, z);
  }

  lemma SextetOfPadding()
    ensures Sextet(61) == 0
  {
  }

  /** What is written in base64, with the alphabet of section 4 of RFC 4648, reads back. */
  lemma {:induction false} Base64Reads(b: ByteString)
    ensures FromBase64(Base64(b)) == b
    decreases |b|
  {
    hide Quad, Three;
    if b != [] {
      var rest := if |b| > 3 then b[3..] else [];
      QuadBack(b);
      Base64Reads(rest);
      assert Base64(b)[..4] == Quad(b) && Base64(b)[4..] == Base64(rest);
    }
  }
}
