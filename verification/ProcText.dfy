/** Parsing what the kernel prints under /proc, and the network patterns matched against it. */
module ProcText {
  import opened Wrappers
  import opened Text
  import opened Routing

  // ---- /proc/PID/stat: the start time ------------------------------------------------------

  datatype StatResult = StartTime(ticks: nat) | Malformed | Panic

  const MAX_U64: nat := 0xFFFF_FFFF_FFFF_FFFF

  function LastIndex(s: string, c: char): (i: Option<nat>)
    ensures i.None? ==> Lacks(s, c)
    ensures i.Some? ==> i.value < |s| && s[i.value] == c && forall j :: i.value < j < |s| ==> s[j] != c
  {
    if s == "" then None else if s[|s| - 1] == c then Some(|s| - 1) else LastIndex(s[..|s| - 1], c)
  }

  // Everything after the last ')' and the byte that follows it; a missing or wider character there panics.
  function ParseStat(stat: string): StatResult {
    var close := LastIndex(stat, ')');
    if close.None? then Malformed
    else if close.value + 2 > |stat| || stat[close.value + 1] as int >= 0x80 then Panic
    else
      var fields := Words(stat[close.value + 2..]);
      if |fields| <= 19 then Malformed
      else
        var t := ParseUnsigned(fields[19], 10, MAX_U64);
        if t.None? then Malformed else StartTime(t.value)
  }

  // As the kernel prints it; `fields` are those after the name, the third field of the line first.
  function StatLine(pid: nat, name: string, fields: seq<string>): string {
    Dec(pid) + " (" + name + ") " + Join(fields) + "\n"
  }

  lemma {:induction false} JoinLacks(ws: seq<string>, c: char)
    requires c != ' ' && forall w :: w in ws ==> Lacks(w, c)
    ensures Lacks(Join(ws), c)
  {
    if |ws| > 1 {
      assert ws[0] in ws;
      JoinLacks(ws[1..], c);
    } else if |ws| == 1 {
      assert ws[0] in ws;
    }
  }

  lemma LastIndexAt(front: string, c: char, back: string)
    requires Lacks(back, c)
    ensures LastIndex(front + [c] + back, c) == Some(|front|)
  {
    var s := front + [c] + back;
    assert s[|front|] == c;
    assert forall j :: |front| < j < |s| ==> s[j] == back[j - |front| - 1];
  }

  lemma ParseStatAfter(front: string, text: string, fields: seq<string>, ticks: nat)
    requires Lacks(text, ')') && Words(text) == fields
    requires |fields| > 19 && ParseUnsigned(fields[19], 10, MAX_U64) == Some(ticks)
    ensures ParseStat(front + [')'] + (" " + text)) == StartTime(ticks)
  {
    var stat := front + [')'] + (" " + text);
    assert Lacks(" " + text, ')');
    LastIndexAt(front, ')', " " + text);
    assert stat[|front| + 1] == ' ';
    assert stat[|front| + 2..] == text;
  }

  // Whatever the process is called, parentheses and spaces included, the parsed start time is the
  // printed field 22.
  lemma StatRoundTrip(pid: nat, name: string, fields: seq<string>, ticks: nat)
    requires |fields| >= 20 && forall w :: w in fields ==> IsWord(w) && Lacks(w, ')')
    requires fields[19] == Dec(ticks) && ticks <= MAX_U64
    ensures ParseStat(StatLine(pid, name, fields)) == StartTime(ticks)
  {
    var front, text := Dec(pid) + " (" + name, Join(fields) + "\n";
    assert StatLine(pid, name, fields) == front + [')'] + (" " + text);
    JoinLacks(fields, ')');
    WordsOfJoin(fields, "\n");
    ParseDec(ticks, MAX_U64);
    ParseStatAfter(front, text, fields, ticks);
  }

  // ---- /proc/PID/net/tcp: remote addresses ---------------------------------------------------

  datatype Connection = Connection(ip: string, port: nat)

  function FirstIndex(s: string, c: char): (i: Option<nat>)
    ensures i.None? ==> Lacks(s, c)
    ensures i.Some? ==> i.value < |s| && s[i.value] == c && forall j :: 0 <= j < i.value ==> s[j] != c
  {
    if s == "" then None
    else if s[0] == c then Some(0)
    else
      var i := FirstIndex(s[1..], c);
      if i.None? then None else Some(i.value + 1)
  }

  function Quad(a: nat, b: nat, c: nat, d: nat): string { Dec(a) + "." + (Dec(b) + "." + (Dec(c) + "." + Dec(d))) }

  // The IPv4 branch: eight hex digits, low byte first.
  function ParseIpv4(addr: string): Option<string>
    requires |addr| == 8
  {
    var n := ParseUnsigned(addr, 16, 0xFFFF_FFFF);
    if n.None? then None
    else Some(Quad(n.value % 256, n.value / 256 % 256, n.value / 65536 % 256, n.value / 16777216 % 256))
  }

  // The IPv6 branch: words of eight hex digits, written out again; on a little-endian host the two
  // byte swaps cancel.
  function ParseWords(addr: string, n: nat): (r: Option<string>)
    requires |addr| == 8 * n
    decreases n
  {
    if n == 0 then Some("")
    else
      var word, rest := ParseUnsigned(addr[..8], 16, 0xFFFF_FFFF), ParseWords(addr[8..], n - 1);
      if word.None? || rest.None? then None else Some(LowerHexText(word.value, 8) + rest.value)
  }

  // In groups of four.
  function Colons(hex: string): string
    decreases |hex|
  {
    if |hex| <= 4 then hex else hex[..4] + ":" + Colons(hex[4..])
  }

  function ParseIpv6(addr: string): Option<string>
    requires |addr| == 32
  {
    var hex := ParseWords(addr, 4);
    if hex.None? then None else Some(Colons(hex.value))
  }

  function ParseAddr(addr: string, ipv6: bool): Option<Connection> {
    var colon := FirstIndex(addr, ':');
    if colon.None? then None
    else
      var port := ParseUnsigned(addr[colon.value + 1..], 16, 0xFFFF);
      if port.None? || colon.value != (if ipv6 then 32 else 8) then None
      else
        var ip := if ipv6 then ParseIpv6(addr[..32]) else ParseIpv4(addr[..8]);
        if ip.None? then None else Some(Connection(ip.value, port.value))
  }

  // The kernel prints four network-order bytes as one little-endian number.
  function Word(a: byte, b: byte, c: byte, d: byte): (n: nat)
    ensures n <= 0xFFFF_FFFF
  {
    a + 256 * b + 65536 * c + 16777216 * d
  }

  function KernelAddr(a: byte, b: byte, c: byte, d: byte, port: nat): string {
    FixedHex(Word(a, b, c, d), 8) + ":" + FixedHex(port, 4)
  }

  lemma BytesOfWord(a: byte, b: byte, c: byte, d: byte)
    ensures var n := Word(a, b, c, d);
      n % 256 == a && n / 256 % 256 == b && n / 65536 % 256 == c && n / 16777216 % 256 == d
  {
    var n := Word(a, b, c, d);
    var n1 := b + 256 * c + 65536 * d;
    var n2 := c + 256 * d;
    assert n == 256 * n1 + a && n1 == 256 * n2 + b;
    HighAndLow(n1, a);
    HighAndLow(n2, b);
    HighAndLow(d, c);
    Shifted(n);
  }

  lemma HighAndLow(high: nat, low: byte)
    ensures (256 * high + low) / 256 == high && (256 * high + low) % 256 == low
  {
  }

  lemma Shifted(n: nat)
    ensures n / 65536 == n / 256 / 256 && n / 16777216 == n / 256 / 256 / 256
  {
  }

  lemma Powers()
    ensures Pow16(4) == 0x1_0000 && Pow16(8) == 0x1_0000_0000
  {
    assert Pow16(2) == 256;
    assert Pow16(4) == 16 * (16 * Pow16(2));
    assert Pow16(6) == 16 * (16 * Pow16(4));
    assert Pow16(8) == 16 * (16 * Pow16(6));
  }

  lemma ColonAt(front: string, back: string)
    requires Lacks(front, ':')
    ensures FirstIndex(front + ":" + back, ':') == Some(|front|)
  {
    var s := front + ":" + back;
    assert s[|front|] == ':';
    assert forall j :: 0 <= j < |front| ==> s[j] == front[j];
  }

  lemma ParseFixedHex(n: nat, width: nat, max: nat)
    requires width > 0 && n < Pow16(width) && n <= max
    ensures ParseUnsigned(FixedHex(n, width), 16, max) == Some(n)
  {
    ValueOfFixedHex(n, width);
  }

  lemma ParseKernelWord(n: nat)
    requires n <= 0xFFFF_FFFF
    ensures ParseUnsigned(FixedHex(n, 8), 16, 0xFFFF_FFFF) == Some(n)
  {
    Powers();
    ParseFixedHex(n, 8, 0xFFFF_FFFF);
  }

  lemma ParseKernelPort(port: nat)
    requires port <= 0xFFFF
    ensures ParseUnsigned(FixedHex(port, 4), 16, 0xFFFF) == Some(port)
  {
    Powers();
    ParseFixedHex(port, 4, 0xFFFF);
  }

  // Whatever stands for the address before the colon.
  lemma ParseAddrParts(text: string, ipv6: bool, port: nat)
    requires Lacks(text, ':') && |text| == (if ipv6 then 32 else 8) && port <= 0xFFFF
    ensures var ip := if ipv6 then ParseIpv6(text) else ParseIpv4(text);
      ParseAddr(text + ":" + FixedHex(port, 4), ipv6) ==
        if ip.None? then None else Some(Connection(ip.value, port))
  {
    var s := text + ":" + FixedHex(port, 4);
    ColonAt(text, FixedHex(port, 4));
    ParseKernelPort(port);
    assert s[..|text|] == text && s[|text| + 1..] == FixedHex(port, 4);
  }

  // Every IPv4 address and port comes back from the kernel's form as its dotted quad.
  lemma Ipv4RoundTrip(a: byte, b: byte, c: byte, d: byte, port: nat)
    requires port <= 0xFFFF
    ensures ParseAddr(KernelAddr(a, b, c, d, port), false) == Some(Connection(Quad(a, b, c, d), port))
  {
    BytesOfWord(a, b, c, d);
    ParseKernelWord(Word(a, b, c, d));
    ParseAddrParts(FixedHex(Word(a, b, c, d), 8), false, port);
  }

  lemma AppendDigit(n: nat, width: nat, front: string, d: nat)
    requires FixedHex(n, width) == front && d < 16
    ensures FixedHex(16 * n + d, width + 1) == front + [UpperDigit(d)]
  {
  }

  lemma LoopbackWord()
    ensures FixedHex(0x0100007F, 8) == "0100007F"
  {
    AppendDigit(0, 0, "", 0);
    AppendDigit(0, 1, "0", 1);
    AppendDigit(1, 2, "01", 0);
    AppendDigit(0x10, 3, "010", 0);
    AppendDigit(0x100, 4, "0100", 0);
    AppendDigit(0x1000, 5, "01000", 0);
    AppendDigit(0x10000, 6, "010000", 7);
    AppendDigit(0x100007, 7, "0100007", 15);
  }

  lemma LoopbackPort()
    ensures FixedHex(8080, 4) == "1F90"
  {
    AppendDigit(0, 0, "", 1);
    AppendDigit(1, 1, "1", 15);
    AppendDigit(0x1f, 2, "1F", 9);
    AppendDigit(0x1f9, 3, "1F9", 0);
  }

  lemma DecOf127()
    ensures Quad(127, 0, 0, 1) == "127.0.0.1"
  {
    assert Dec(0) == "0" && Dec(1) == "1" && Dec(12) == "12";
    assert Dec(127) == Dec(12) + "7";
  }

  // The loopback address and port 8080, letter for letter.
  lemma LoopbackRead(addr: string)
    requires addr == "0100007F:1F90"
    ensures ParseAddr(addr, false) == Some(Connection("127.0.0.1", 8080))
  {
    LoopbackWord();
    LoopbackPort();
    DecOf127();
    assert Word(127, 0, 0, 1) == 0x0100007F;
    assert addr == "0100007F" + ":" + "1F90" == KernelAddr(127, 0, 0, 1, 8080);
    Ipv4RoundTrip(127, 0, 0, 1, 8080);
  }

  // ---- IPv6: the words come back in the host's byte order ------------------------------------

  // Four bytes of an address, in network order.
  datatype Quartet = Quartet(a: byte, b: byte, c: byte, d: byte)

  // As the kernel prints them.
  function KernelWords(qs: seq<Quartet>): (s: string)
    ensures |s| == 8 * |qs| && forall i :: 0 <= i < |s| ==> '0' <= s[i] <= '9' || 'A' <= s[i] <= 'F'
  {
    if qs == [] then "" else FixedHex(Word(qs[0].a, qs[0].b, qs[0].c, qs[0].d), 8) + KernelWords(qs[1..])
  }

  function NetworkBytes(qs: seq<Quartet>): (r: Bytes)
    ensures |r| == 4 * |qs|
  {
    if qs == [] then [] else [qs[0].a, qs[0].b, qs[0].c, qs[0].d] + NetworkBytes(qs[1..])
  }

  // Each quartet in reverse.
  function HostBytes(qs: seq<Quartet>): (r: Bytes)
    ensures |r| == 4 * |qs|
  {
    if qs == [] then [] else [qs[0].d, qs[0].c, qs[0].b, qs[0].a] + HostBytes(qs[1..])
  }

  lemma LowByteLast(n: nat, low: byte, width: nat)
    ensures LowerHexText(256 * n + low, width + 2) == LowerHexText(n, width) + Hex.Encode([low])
  {
    var m := 256 * n + low;
    HighAndLow(n, low);
    assert m / 16 == 16 * n + low / 16 && m % 16 == low % 16;
    assert m / 16 / 16 == n && m / 16 % 16 == low / 16;
    assert LowerHexText(m, width + 2) == LowerHexText(m / 16, width + 1) + [Hex.Digit(m % 16)];
    assert LowerHexText(m / 16, width + 1) == LowerHexText(n, width) + [Hex.Digit(m / 16 % 16)];
    assert Hex.Encode([low][1..]) == "";
  }

  lemma {:induction false} EncodeConcat(s: Bytes, t: Bytes)
    ensures Hex.Encode(s + t) == Hex.Encode(s) + Hex.Encode(t)
  {
    if s == [] {
      assert s + t == t;
    } else {
      assert (s + t)[1..] == s[1..] + t;
      EncodeConcat(s[1..], t);
    }
  }

  lemma ShiftIn(n: nat, text: Bytes, low: byte, width: nat)
    requires LowerHexText(n, width) == Hex.Encode(text)
    ensures LowerHexText(256 * n + low, width + 2) == Hex.Encode(text + [low])
  {
    LowByteLast(n, low, width);
    EncodeConcat(text, [low]);
  }

  lemma TextOfWord(a: byte, b: byte, c: byte, d: byte)
    ensures LowerHexText(Word(a, b, c, d), 8) == Hex.Encode([d, c, b, a])
  {
    var n2: nat := 256 * d + c;
    var n1: nat := 256 * n2 + b;
    assert Word(a, b, c, d) == 256 * n1 + a;
    ShiftIn(0, [], d, 0);
    ShiftIn(d, [] + [d], c, 2);
    ShiftIn(n2, [] + [d] + [c], b, 4);
    ShiftIn(n1, [] + [d] + [c] + [b], a, 6);
    assert [] + [d] + [c] + [b] + [a] == [d, c, b, a];
  }

  lemma FirstWord(word: string, value: nat, rest: string, n: nat)
    requires |word| == 8 && |rest| == 8 * n && ParseUnsigned(word, 16, 0xFFFF_FFFF) == Some(value)
    ensures ParseWords(word + rest, n + 1) ==
      if ParseWords(rest, n).None? then None else Some(LowerHexText(value, 8) + ParseWords(rest, n).value)
  {
    assert (word + rest)[..8] == word && (word + rest)[8..] == rest;
  }

  lemma {:induction false} ParseKernelWords(qs: seq<Quartet>)
    ensures ParseWords(KernelWords(qs), |qs|) == Some(Hex.Encode(HostBytes(qs)))
  {
    if qs != [] {
      var q := qs[0];
      var n := Word(q.a, q.b, q.c, q.d);
      ParseKernelWords(qs[1..]);
      ParseKernelWord(n);
      FirstWord(FixedHex(n, 8), n, KernelWords(qs[1..]), |qs| - 1);
      TextOfWord(q.a, q.b, q.c, q.d);
      EncodeConcat([q.d, q.c, q.b, q.a], HostBytes(qs[1..]));
    }
  }

  // Every IPv6 address and port comes back with the bytes of each word in reverse.
  lemma Ipv6Reversed(qs: seq<Quartet>, port: nat)
    requires |qs| == 4 && port <= 0xFFFF
    ensures ParseAddr(KernelWords(qs) + ":" + FixedHex(port, 4), true) ==
      Some(Connection(Colons(Hex.Encode(HostBytes(qs))), port))
  {
    ParseKernelWords(qs);
    ParseAddrParts(KernelWords(qs), true, port);
  }

  predicate ReadsBothWays(q: Quartet) { q.a == q.d && q.b == q.c }

  lemma {:induction false} HostIsNetworkIff(qs: seq<Quartet>)
    ensures HostBytes(qs) == NetworkBytes(qs) <==> forall q :: q in qs ==> ReadsBothWays(q)
  {
    if qs != [] {
      var q := qs[0];
      HostIsNetworkIff(qs[1..]);
      assert qs == [q] + qs[1..];
      var h, n := HostBytes(qs), NetworkBytes(qs);
      assert h[4..] == HostBytes(qs[1..]) && n[4..] == NetworkBytes(qs[1..]);
      assert h == n ==> h[0] == n[0] && h[1] == n[1] && h[4..] == n[4..];
      assert h == h[..4] + h[4..] && n == n[..4] + n[4..];
      assert ReadsBothWays(q) ==> h[..4] == n[..4];
      assert (forall x :: x in qs ==> ReadsBothWays(x)) <==>
        ReadsBothWays(q) && forall x :: x in qs[1..] ==> ReadsBothWays(x);
    }
  }

  lemma {:induction false} ColonsInjective(s: string, t: string)
    requires |s| == |t| && Colons(s) == Colons(t)
    ensures s == t
    decreases |s|
  {
    if |s| > 4 {
      assert Colons(s)[..4] == s[..4] && Colons(t)[..4] == t[..4];
      assert Colons(s)[5..] == Colons(s[4..]) && Colons(t)[5..] == Colons(t[4..]);
      ColonsInjective(s[4..], t[4..]);
      assert s == s[..4] + s[4..] && t == t[..4] + t[4..];
    }
  }

  lemma {:induction false} EncodeLength(b: Bytes)
    ensures |Hex.Encode(b)| == 2 * |b|
  {
    if b != [] {
      EncodeLength(b[1..]);
    }
  }

  // So the address read is the one printed exactly when each of its four words reads the same in both
  // byte orders.
  lemma Ipv6RoundTripIff(qs: seq<Quartet>, port: nat)
    requires |qs| == 4 && port <= 0xFFFF
    ensures (ParseAddr(KernelWords(qs) + ":" + FixedHex(port, 4), true) ==
               Some(Connection(Colons(Hex.Encode(NetworkBytes(qs))), port)))
            <==> forall q :: q in qs ==> ReadsBothWays(q)
  {
    var host, net := HostBytes(qs), NetworkBytes(qs);
    Ipv6Reversed(qs, port);
    HostIsNetworkIff(qs);
    EncodeLength(host);
    EncodeLength(net);
    Hex.DecodeEncode(host);
    Hex.DecodeEncode(net);
    if Colons(Hex.Encode(host)) == Colons(Hex.Encode(net)) {
      ColonsInjective(Hex.Encode(host), Hex.Encode(net));
    }
  }

  // The loopback address is read as another one.
  const LOOPBACK: seq<Quartet> :=
    [Quartet(0, 0, 0, 0), Quartet(0, 0, 0, 0), Quartet(0, 0, 0, 0), Quartet(0, 0, 0, 1)]

  lemma LoopbackMisread(port: nat)
    requires port <= 0xFFFF
    ensures ParseAddr(KernelWords(LOOPBACK) + ":" + FixedHex(port, 4), true) !=
      Some(Connection(Colons(Hex.Encode(NetworkBytes(LOOPBACK))), port))
  {
    Ipv6RoundTripIff(LOOPBACK, port);
    assert LOOPBACK[3] in LOOPBACK && !ReadsBothWays(LOOPBACK[3]);
  }

  // ---- the table of connections ---------------------------------------------------------------

  // The established connections among the lines of a table without its header.
  function Established(lines: seq<string>, ipv6: bool): seq<Connection> {
    if lines == [] then []
    else
      var n := |lines| - 1;
      Established(lines[..n], ipv6) + Remote(lines[n], ipv6)
  }

  // What one line contributes: nothing unless it is established and its address parses.
  function Remote(line: string, ipv6: bool): seq<Connection> {
    var fields := Words(line);
    if |fields| < 4 || fields[3] != "01" then []
    else
      var c := ParseAddr(fields[2], ipv6);
      if c.None? then [] else [c.value]
  }

  lemma EstablishedSnoc(lines: seq<string>, i: nat, ipv6: bool)
    requires 1 <= i < |lines|
    ensures Established(lines[1..i + 1], ipv6) == Established(lines[1..i], ipv6) + Remote(lines[i], ipv6)
  {
    assert lines[1..i + 1][..i - 1] == lines[1..i];
  }

  // An unreadable table counts as an empty one.
  function Connections(content: Option<string>, ipv6: bool): seq<Connection> {
    if content.None? || Lines(content.value) == [] then [] else Established(Lines(content.value)[1..], ipv6)
  }

  method ReadTcp(content: Option<string>, ipv6: bool) returns (connections: seq<Connection>)
    ensures connections == Connections(content, ipv6)
  {
    connections := [];
    if content.None? {
      return;
    }
    var lines := Lines(content.value);
    if lines == [] {
      return;
    }
    for i := 1 to |lines|
      invariant connections == Established(lines[1..i], ipv6)
    {
      var fields := Words(lines[i]);
      EstablishedSnoc(lines, i, ipv6);
      if |fields| < 4 {
        continue;
      }
      if fields[3] != "01" {
        continue;
      }
      var c := ParseAddr(fields[2], ipv6);
      if c.Some? {
        connections := connections + [c.value];
      }
    }
    assert lines[1..|lines|] == lines[1..];
  }

  // The IPv4 connections, then the IPv6 ones.
  method GetConnections(tcp: Option<string>, tcp6: Option<string>) returns (connections: seq<Connection>)
    ensures connections == Connections(tcp, false) + Connections(tcp6, true)
  {
    connections := ReadTcp(tcp, false);
    var more := ReadTcp(tcp6, true);
    connections := connections + more;
  }

  // One end of a socket: an IPv4 address is one quartet, an IPv6 address four.
  datatype End = End(words: seq<Quartet>, port: nat)

  predicate EndOk(e: End, ipv6: bool) { |e.words| == (if ipv6 then 4 else 1) && e.port <= 0xFFFF }

  function KernelEnd(e: End): string { KernelWords(e.words) + ":" + FixedHex(e.port, 4) }

  // How the address of an end is read.
  function ReadAs(e: End, ipv6: bool): string
    requires EndOk(e, ipv6)
  {
    if ipv6 then Colons(Hex.Encode(HostBytes(e.words)))
    else Quad(e.words[0].a, e.words[0].b, e.words[0].c, e.words[0].d)
  }

  lemma EndIsRead(e: End, ipv6: bool)
    requires EndOk(e, ipv6)
    ensures ParseAddr(KernelEnd(e), ipv6) == Some(Connection(ReadAs(e, ipv6), e.port))
  {
    if ipv6 {
      Ipv6Reversed(e.words, e.port);
    } else {
      var q := e.words[0];
      assert KernelWords(e.words[1..]) == "";
      assert KernelEnd(e) == KernelAddr(q.a, q.b, q.c, q.d, e.port);
      Ipv4RoundTrip(q.a, q.b, q.c, q.d, e.port);
    }
  }

  // A socket as the kernel lists it: the local end comes before the remote one.
  datatype Socket = Socket(slot: string, local: End, remote: End, state: string, rest: seq<string>)

  function SocketLine(s: Socket): string {
    Join([s.slot, KernelEnd(s.local), KernelEnd(s.remote), s.state] + s.rest)
  }

  predicate SocketOk(s: Socket, ipv6: bool) {
    && IsWord(s.slot) && EndOk(s.local, ipv6) && EndOk(s.remote, ipv6) && IsWord(s.state)
    && (forall w :: w in s.rest ==> IsWord(w))
    && IsLine(SocketLine(s))
  }

  function EstablishedSockets(ss: seq<Socket>, ipv6: bool): seq<Connection>
    requires forall s :: s in ss ==> SocketOk(s, ipv6)
  {
    if ss == [] then []
    else
      var n := |ss| - 1;
      assert ss[n] in ss && SocketOk(ss[n], ipv6);
      EstablishedSockets(ss[..n], ipv6) +
      if ss[n].state == "01" then [Connection(ReadAs(ss[n].remote, ipv6), ss[n].remote.port)] else []
  }

  function SocketLines(ss: seq<Socket>): (r: seq<string>)
    ensures |r| == |ss| && forall i :: 0 <= i < |ss| ==> r[i] == SocketLine(ss[i])
  {
    seq(|ss|, i requires 0 <= i < |ss| => SocketLine(ss[i]))
  }

  lemma KernelEndIsWord(e: End)
    ensures IsWord(KernelEnd(e))
  {
  }

  lemma FieldsOfSocket(s: Socket, ipv6: bool)
    requires SocketOk(s, ipv6)
    ensures Words(SocketLine(s)) == [s.slot, KernelEnd(s.local), KernelEnd(s.remote), s.state] + s.rest
  {
    var first := [s.slot, KernelEnd(s.local), KernelEnd(s.remote), s.state];
    var ws := first + s.rest;
    KernelEndIsWord(s.local);
    KernelEndIsWord(s.remote);
    assert forall w :: w in ws ==> w in first || w in s.rest;
    WordsOfJoin(ws, "");
    assert Join(ws) + "" == SocketLine(s);
  }

  lemma RemoteOfSocket(s: Socket, ipv6: bool)
    requires SocketOk(s, ipv6)
    ensures Remote(SocketLine(s), ipv6) ==
      if s.state == "01" then [Connection(ReadAs(s.remote, ipv6), s.remote.port)] else []
  {
    FieldsOfSocket(s, ipv6);
    EndIsRead(s.remote, ipv6);
  }

  lemma {:induction false} EstablishedOfSockets(ss: seq<Socket>, ipv6: bool)
    requires forall s :: s in ss ==> SocketOk(s, ipv6)
    ensures Established(SocketLines(ss), ipv6) == EstablishedSockets(ss, ipv6)
  {
    if ss != [] {
      var n := |ss| - 1;
      assert SocketLines(ss)[..n] == SocketLines(ss[..n]);
      assert ss[n] in ss;
      EstablishedOfSockets(ss[..n], ipv6);
      RemoteOfSocket(ss[n], ipv6);
    }
  }

  // Reading a printed socket table gives exactly its established remote ends, in order: as they are for
  // IPv4, with the bytes of each quartet reversed for IPv6.
  lemma TableRoundTrip(header: string, ss: seq<Socket>, ipv6: bool)
    requires IsLine(header) && forall s :: s in ss ==> SocketOk(s, ipv6)
    ensures Connections(Some(Unlines([header] + SocketLines(ss))), ipv6) == EstablishedSockets(ss, ipv6)
  {
    var lines := [header] + SocketLines(ss);
    forall l | l in lines ensures IsLine(l) {
      if l != header {
        var i :| 0 <= i < |ss| && SocketLines(ss)[i] == l;
        assert ss[i] in ss;
      }
    }
    LinesOfUnlines(lines);
    assert lines[1..] == SocketLines(ss);
    EstablishedOfSockets(ss, ipv6);
  }

  // ---- network patterns --------------------------------------------------------------------

  // The pattern of the /24 network a.b.c, as a route stores it.
  function Network(a: nat, b: nat, c: nat): string { Prefix24(a, b, c) + ".0/24" }

  function Prefix24(a: nat, b: nat, c: nat): string { Dec(a) + "." + (Dec(b) + "." + Dec(c)) }

  lemma TrimNetwork(a: nat, b: nat, c: nat)
    ensures TrimEndMatches(Network(a, b, c), ".0/24") == Prefix24(a, b, c)
  {
    var s, p := Network(a, b, c), Prefix24(a, b, c);
    assert s[|s| - 5..] == ".0/24" && s[..|s| - 5] == p;
    assert Lacks(p, '/');
    assert |p| >= 5 ==> p[|p| - 5..][2] != '/';
    assert ".0/24"[2] == '/';
  }

  // Text up to a dot decides: equal before it, and a prefix after it.
  lemma DotSplit(d: string, e: string, s: string, t: string)
    requires Lacks(d, '.') && Lacks(e, '.')
    ensures d + "." + s <= e + "." + t <==> d == e && s <= t
  {
    var x, y := d + "." + s, e + "." + t;
    if x <= y {
      assert x[|d|] == '.' && y[|d|] == '.' && y[|e|] == '.';
      assert forall i :: 0 <= i < |d| ==> x[i] == d[i];
      assert forall i :: 0 <= i < |e| ==> y[i] == e[i];
      assert |d| == |e|;
      assert d == x[..|d|] == y[..|d|] == e;
      assert s == x[|d| + 1..] && t == y[|d| + 1..];
    }
    if d == e && s <= t {
      assert t == s + t[|s|..];
      assert y == x + t[|s|..];
    }
  }

  lemma DotAfter(d: string, e: string, t: string)
    requires Lacks(d, '.') && Lacks(e, '.')
    ensures d <= e + "." + t <==> d <= e
  {
    var y := e + "." + t;
    assert y[|e|] == '.' && y[..|e|] == e;
    if d <= y {
      assert |d| <= |e|;
      assert d == y[..|d|] == e[..|d|];
    }
    if d <= e {
      assert y == d + (e[|d|..] + "." + t);
    }
  }

  lemma DecInjective(m: nat, n: nat)
    requires Dec(m) == Dec(n)
    ensures m == n
  {
    ValueOfDec(m);
    ValueOfDec(n);
  }

  // An address matches a network's pattern exactly when its first two numbers are the network's and
  // the text of its third begins with that of the network's third.
  lemma CidrMatchesIff(a: nat, b: nat, c: nat, w: nat, x: nat, y: nat, z: nat)
    ensures CidrMatches(Network(a, b, c), Quad(w, x, y, z)) <==> a == w && b == x && Dec(c) <= Dec(y)
  {
    TrimNetwork(a, b, c);
    DotSplit(Dec(a), Dec(w), Dec(b) + "." + Dec(c), Dec(x) + "." + (Dec(y) + "." + Dec(z)));
    DotSplit(Dec(b), Dec(x), Dec(c), Dec(y) + "." + Dec(z));
    DotAfter(Dec(c), Dec(y), Dec(z));
    if Dec(a) == Dec(w) { DecInjective(a, w); }
    if Dec(b) == Dec(x) { DecInjective(b, x); }
  }

  // Decimal text that begins another's: the same number, or a nonzero one at most a tenth of it.
  lemma {:induction false} DecPrefix(c: nat, y: nat)
    requires Dec(c) <= Dec(y)
    ensures c == y || (0 < c && 10 * c <= y)
    decreases y
  {
    if |Dec(c)| == |Dec(y)| {
      DecInjective(c, y);
    } else {
      assert y >= 10 && Dec(y)[..|Dec(y)| - 1] == Dec(y / 10);
      assert Dec(c) <= Dec(y / 10);
      DecPrefix(c, y / 10);
    }
  }

  // Every parsed address is matched by the pattern of its own network.
  lemma OwnNetworkMatches(a: byte, b: byte, c: byte, d: byte, port: nat)
    requires port <= 0xFFFF
    ensures var r := ParseAddr(KernelAddr(a, b, c, d, port), false);
      r.Some? && CidrMatches(Network(a, b, c), r.value.ip)
  {
    Ipv4RoundTrip(a, b, c, d, port);
    CidrMatchesIff(a, b, c, a, b, c, d);
  }

  ghost predicate OnlyOwnHosts(a: byte, b: byte, c: byte) {
    forall w: byte, x: byte, y: byte, z: byte ::
      CidrMatches(Network(a, b, c), Quad(w, x, y, z)) ==> w == a && x == b && y == c
  }

  // The pattern stays inside its network exactly when the third number is 0 or above 25: from 1 to 25
  // it also takes in the networks whose third number has those leading digits.
  lemma PatternSoundIff(a: byte, b: byte, c: byte)
    ensures OnlyOwnHosts(a, b, c) <==> c == 0 || c > 25
  {
    if c == 0 || c > 25 {
      forall w: byte, x: byte, y: byte, z: byte | CidrMatches(Network(a, b, c), Quad(w, x, y, z))
        ensures w == a && x == b && y == c
      {
        CidrMatchesIff(a, b, c, w, x, y, z);
        DecPrefix(c, y);
      }
    } else {
      var y: byte := 10 * c;
      assert Dec(y) == Dec(c) + Dec(0);
      CidrMatchesIff(a, b, c, a, b, y, 0);
      assert CidrMatches(Network(a, b, c), Quad(a, b, y, 0));
    }
  }
}
