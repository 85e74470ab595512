// Numbers, words and lines as Rust's string functions read them.
module Text {
  import opened Wrappers
  import Hex

  predicate Lacks(s: string, c: char) { forall i :: 0 <= i < |s| ==> s[i] != c }

  // ---- numbers --------------------------------------------------------------------------

  function Dec(n: nat): (s: string)
    ensures s != "" && forall i :: 0 <= i < |s| ==> '0' <= s[i] <= '9'
  {
    if n < 10 then [Hex.Digit(n)] else Dec(n / 10) + [Hex.Digit(n % 10)]
  }

  // The value of a digit string; none if some character is no digit of the radix.
  function Value(s: string, radix: nat): Option<nat> {
    if s == "" then Some(0)
    else
      var front, last := Value(s[..|s| - 1], radix), Hex.DigitValue(s[|s| - 1]);
      if front.None? || last.None? || last.value >= radix then None else Some(front.value * radix + last.value)
  }

  // from_str_radix for an unsigned type: at least one digit, a leading '+' allowed, no overflow.
  function ParseUnsigned(s: string, radix: nat, max: nat): Option<nat> {
    var body := if |s| > 1 && s[0] == '+' then s[1..] else s;
    if body == "" then None
    else
      var v := Value(body, radix);
      if v.None? || v.value > max then None else v
  }

  lemma {:induction false} ValueOfDec(n: nat)
    ensures Value(Dec(n), 10) == Some(n)
  {
    var s := Dec(n);
    Hex.DigitRoundTrip(n % 10);
    if n >= 10 {
      ValueOfDec(n / 10);
      assert s[..|s| - 1] == Dec(n / 10);
      assert n / 10 * 10 + n % 10 == n;
    } else {
      assert s[..|s| - 1] == "";
    }
  }

  lemma ParseDec(n: nat, max: nat)
    requires n <= max
    ensures ParseUnsigned(Dec(n), 10, max) == Some(n)
  {
    ValueOfDec(n);
  }

  // n in exactly `width` upper-case hex digits, as the kernel prints it.
  function UpperDigit(n: nat): char
    requires n < 16
  {
    if n < 10 then '0' + n as char else 'A' + (n - 10) as char
  }

  function FixedHex(n: nat, width: nat): (s: string)
    ensures |s| == width
    ensures forall i :: 0 <= i < |s| ==> '0' <= s[i] <= '9' || 'A' <= s[i] <= 'F'
    decreases n, width
  {
    if width == 0 then "" else FixedHex(n / 16, width - 1) + [UpperDigit(n % 16)]
  }

  // n in `width` lower-case hex digits, as Rust formats it.
  function LowerHexText(n: nat, width: nat): (s: string)
    ensures |s| == width
    decreases n, width
  {
    if width == 0 then "" else LowerHexText(n / 16, width - 1) + [Hex.Digit(n % 16)]
  }

  function Pow16(k: nat): nat { if k == 0 then 1 else 16 * Pow16(k - 1) }

  lemma UpperDigitValue(n: nat)
    requires n < 16
    ensures Hex.DigitValue(UpperDigit(n)) == Some(n)
  {
    var c := UpperDigit(n);
    assert c as int == if n < 10 then '0' as int + n else 'A' as int + n - 10;
  }

  lemma {:induction false} ValueOfFixedHex(n: nat, width: nat)
    requires n < Pow16(width)
    ensures Value(FixedHex(n, width), 16) == Some(n)
    decreases width
  {
    if width > 0 {
      var s := FixedHex(n, width);
      ValueOfFixedHex(n / 16, width - 1);
      UpperDigitValue(n % 16);
      assert s[..|s| - 1] == FixedHex(n / 16, width - 1);
      assert n / 16 * 16 + n % 16 == n;
    }
  }

  // ---- words ----------------------------------------------------------------------------

  // Unicode White_Space.
  predicate IsSpace(c: char) {
    var n := c as int;
    || 9 <= n <= 13 || n == 0x20 || n == 0x85 || n == 0xA0 || n == 0x1680 || 0x2000 <= n <= 0x200A
    || n == 0x2028 || n == 0x2029 || n == 0x202F || n == 0x205F || n == 0x3000
  }

  predicate IsWord(w: string) { w != "" && forall i :: 0 <= i < |w| ==> !IsSpace(w[i]) }

  function WordLength(s: string): (n: nat)
    ensures n <= |s|
    ensures forall i :: 0 <= i < n ==> !IsSpace(s[i])
    ensures n < |s| ==> IsSpace(s[n])
  {
    if s == "" || IsSpace(s[0]) then 0 else 1 + WordLength(s[1..])
  }

  // split_whitespace
  function Words(s: string): seq<string>
    decreases |s|
  {
    if s == "" then []
    else if IsSpace(s[0]) then Words(s[1..])
    else [s[..WordLength(s)]] + Words(s[WordLength(s)..])
  }

  function Join(ws: seq<string>): string {
    if ws == [] then "" else if |ws| == 1 then ws[0] else ws[0] + " " + Join(ws[1..])
  }

  lemma FirstWord(w: string, rest: string)
    requires IsWord(w) && (rest == "" || IsSpace(rest[0]))
    ensures Words(w + rest) == [w] + Words(rest)
  {
    var s := w + rest;
    assert s[0] == w[0];
    var n := WordLength(s);
    assert forall i :: 0 <= i < |w| ==> s[i] == w[i];
    assert rest != "" ==> s[|w|] == rest[0];
    assert s[..n] == w && s[n..] == rest;
  }

  lemma NoWords(end: string)
    requires end == "" || end == "\n"
    ensures Words(end) == []
  {
    assert end != "" ==> IsSpace(end[0]) && end[1..] == "";
  }

  // Joining words with spaces and splitting again gives the words back, also before a line end.
  lemma {:induction false} WordsOfJoin(ws: seq<string>, end: string)
    requires forall w :: w in ws ==> IsWord(w)
    requires end == "" || end == "\n"
    ensures Words(Join(ws) + end) == ws
  {
    if ws == [] {
      assert Join(ws) + end == end;
      NoWords(end);
    } else if |ws| == 1 {
      FirstWord(ws[0], end);
      NoWords(end);
    } else {
      var rest := Join(ws[1..]) + end;
      assert Join(ws) + end == ws[0] + (" " + rest);
      FirstWord(ws[0], " " + rest);
      assert (" " + rest)[1..] == rest;
      WordsOfJoin(ws[1..], end);
    }
  }

  // ---- lines ----------------------------------------------------------------------------

  function LineLength(s: string): (n: nat)
    ensures n <= |s|
    ensures forall i :: 0 <= i < n ==> s[i] != '\n'
    ensures n < |s| ==> s[n] == '\n'
  {
    if s == "" || s[0] == '\n' then 0 else 1 + LineLength(s[1..])
  }

  function DropReturn(s: string): string {
    if s != "" && s[|s| - 1] == '\r' then s[..|s| - 1] else s
  }

  // lines(): split at line feeds, a carriage return before one dropped, no empty last line.
  function Lines(s: string): seq<string>
    decreases |s|
  {
    if s == "" then []
    else
      var n := LineLength(s);
      if n == |s| then [s] else [DropReturn(s[..n])] + Lines(s[n + 1..])
  }

  function Unlines(ls: seq<string>): string {
    if ls == [] then "" else ls[0] + "\n" + Unlines(ls[1..])
  }

  predicate IsLine(l: string) { Lacks(l, '\n') && DropReturn(l) == l }

  lemma {:induction false} LinesOfUnlines(ls: seq<string>)
    requires forall l :: l in ls ==> IsLine(l)
    ensures Lines(Unlines(ls)) == ls
  {
    if ls != [] {
      var s := Unlines(ls);
      var n := LineLength(s);
      assert IsLine(ls[0]);
      assert s[|ls[0]|] == '\n';
      assert forall i :: 0 <= i < |ls[0]| ==> s[i] == ls[0][i];
      assert n == |ls[0]|;
      assert s[..n] == ls[0] && s[n + 1..] == Unlines(ls[1..]);
      LinesOfUnlines(ls[1..]);
    }
  }
}
