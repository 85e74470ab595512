// Hexadecimal text for binary columns in a backup.
module Hex {
  import opened Wrappers

  function Digit(n: int): char
    requires 0 <= n < 16
  {
    if n < 10 then '0' + n as char else 'a' + (n - 10) as char
  }

  function DigitValue(c: char): (v: Option<int>)
    ensures v.Some? ==> 0 <= v.value < 16
  {
    if '0' <= c <= '9' then Some(c as int - '0' as int)
    else if 'a' <= c <= 'f' then Some(c as int - 'a' as int + 10)
    else if 'A' <= c <= 'F' then Some(c as int - 'A' as int + 10)
    else None
  }

  function Encode(b: Bytes): string {
    if b == [] then "" else [Digit(b[0] / 16), Digit(b[0] % 16)] + Encode(b[1..])
  }

  // Fails on an odd length or on a character that is no hex digit.
  function Decode(s: string): Option<Bytes> {
    if s == "" then Some([])
    else if |s| == 1 then None
    else
      var hi, lo, rest := DigitValue(s[0]), DigitValue(s[1]), Decode(s[2..]);
      if hi.None? || lo.None? || rest.None? then None
      else Some([hi.value * 16 + lo.value] + rest.value)
  }

  lemma DigitRoundTrip(n: int)
    requires 0 <= n < 16
    ensures DigitValue(Digit(n)) == Some(n)
  {
    var c := Digit(n);
    assert c as int == if n < 10 then '0' as int + n else 'a' as int + n - 10;
  }

  const DIGITS: string := "0123456789abcdef"

  lemma {:induction false} EncodedAt(b: Bytes, i: nat)
    requires i < |b|
    ensures |Encode(b)| == 2 * |b|
    ensures Encode(b)[2 * i] == Digit(b[i] / 16) && Encode(b)[2 * i + 1] == Digit(b[i] % 16)
  {
    var rest := Encode(b[1..]);
    assert Encode(b) == [Digit(b[0] / 16), Digit(b[0] % 16)] + rest;
    if |b| == 1 {
      assert b[1..] == [];
    } else {
      EncodedAt(b[1..], if i > 0 then i - 1 else 0);
    }
  }

  lemma DigitsInOrder(n: nat)
    requires n < 16
    ensures Digit(n) == DIGITS[n]
  {
  }

  // Two lower-case digits for each byte, the high one first.
  lemma EncodedText(b: Bytes, i: nat)
    requires i < |b|
    ensures |Encode(b)| == 2 * |b|
    ensures Encode(b)[2 * i] == DIGITS[b[i] / 16] && Encode(b)[2 * i + 1] == DIGITS[b[i] % 16]
  {
    EncodedAt(b, i);
    DigitsInOrder(b[i] / 16);
    DigitsInOrder(b[i] % 16);
  }

  lemma {:induction false} DecodeEncode(b: Bytes)
    ensures Decode(Encode(b)) == Some(b)
  {
    if b != [] {
      DecodeEncode(b[1..]);
      DigitRoundTrip(b[0] / 16);
      DigitRoundTrip(b[0] % 16);
      assert Encode(b)[2..] == Encode(b[1..]);
      assert b == [b[0]] + b[1..] && b[0] / 16 * 16 + b[0] % 16 == b[0];
      var e := Encode(b);
      assert e[0] == Digit(b[0] / 16) && e[1] == Digit(b[0] % 16);
    }
  }
}
