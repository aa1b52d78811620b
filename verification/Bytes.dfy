/** Byte strings and their lower-case hexadecimal form (`%x` and encoding/hex; base16 of section 8 of RFC 4648). */
module Bytes {
  datatype Option<+T> = None | Some(value: T)

  newtype byte = x: int | 0 <= x < 256
  type Bytes = seq<byte>

  const DIGITS: string := "0123456789abcdef"

  /** Lower-case base16: two digits a byte, high nibble first. */
  function Hex(b: Bytes): (h: string)
    ensures |h| == 2 * |b|
    ensures forall c | c in h :: c in DIGITS
  {
    if b == [] then ""
    else [DIGITS[b[0] as int / 16], DIGITS[b[0] as int % 16]] + Hex(b[1..])
  }

  /** The value of one digit; upper case is accepted when decoding. */
  function Nibble(c: char): Option<nat> {
    if '0' <= c <= '9' then Some(c as nat - '0' as nat)
    else if 'a' <= c <= 'f' then Some(c as nat - 'a' as nat + 10)
    else if 'A' <= c <= 'F' then Some(c as nat - 'A' as nat + 10)
    else None
  }

  /** hex.DecodeString: fails on an odd length or a character that is not a digit. */
  function Unhex(h: string): Option<Bytes> {
    if h == "" then Some([])
    else if |h| == 1 then None
    else
      match (Nibble(h[0]), Nibble(h[1]))
      case (Some(hi), Some(lo)) =>
        if hi * 16 + lo >= 256 then None else
        (match Unhex(h[2..])
         case Some(rest) => Some([(hi * 16 + lo) as byte] + rest)
         case None => None)
      case _ => None
  }

  lemma DigitNibble(n: nat)
    requires n < 16
    ensures Nibble(DIGITS[n]) == Some(n)
  {
    assert DIGITS[n] == if n < 10 then ('0' as nat + n) as char else ('a' as nat + n - 10) as char by {
      if n < 8 { if n < 4 {} else {} } else { if n < 12 {} else {} }
    }
  }

  lemma ByteDigits(b: byte)
    ensures Nibble(DIGITS[b as int / 16]) == Some(b as int / 16)
    ensures Nibble(DIGITS[b as int % 16]) == Some(b as int % 16)
    ensures b as int / 16 * 16 + b as int % 16 == b as int
  {
    DigitNibble(b as int / 16);
    DigitNibble(b as int % 16);
  }

  lemma UnhexStep(hi: char, lo: char, rest: string, b: byte)
    requires Nibble(hi) == Some(b as int / 16) && Nibble(lo) == Some(b as int % 16)
    requires b as int / 16 * 16 + b as int % 16 == b as int && Unhex(rest).Some?
    ensures Unhex([hi, lo] + rest) == Some([b] + Unhex(rest).value)
  {
    hide Nibble;
    assert ([hi, lo] + rest)[2..] == rest;
  }

  /** Decoding gives back the encoded bytes, the empty string included. */
  lemma {:induction false} HexRoundTrip(b: Bytes)
    ensures Unhex(Hex(b)) == Some(b)
  {
    if b != [] {
      ByteDigits(b[0]);
      HexRoundTrip(b[1..]);
      hide Nibble, Unhex;
      UnhexStep(DIGITS[b[0] as int / 16], DIGITS[b[0] as int % 16], Hex(b[1..]), b[0]);
      assert [b[0]] + b[1..] == b;
    } else {
      assert Hex(b) == "";
    }
  }

  lemma HexInjective(a: Bytes, b: Bytes)
    requires Hex(a) == Hex(b)
    ensures a == b
  {
    HexRoundTrip(a);
    HexRoundTrip(b);
  }
}
