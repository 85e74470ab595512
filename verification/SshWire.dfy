/** The agent protocol's encodings: uint32 and string of section 5 of RFC 4251, and the identity
    and signature messages of sections 4.4 and 4.5 of draft-miller-ssh-agent-04. */
module SshWire {
  import opened Wrappers

  const MAX_MESSAGE: nat := 256 * 1024
  const U32_RANGE: nat := 0x1_0000_0000

  // ---- uint32 and string ---------------------------------------------------------------

  // Big-endian; a larger number is cut to 32 bits.
  function U32(n: nat): (b: Bytes)
    ensures |b| == 4
  {
    [n / 16777216 % 256, n / 65536 % 256, n / 256 % 256, n % 256]
  }

  function FromU32(b: Bytes): nat
    requires |b| >= 4
  {
    var b0: nat, b1: nat, b2: nat, b3: nat := b[0], b[1], b[2], b[3];
    b0 * 16777216 + b1 * 65536 + b2 * 256 + b3
  }

  function SshString(data: Bytes): Bytes { U32(|data|) + data }

  // Reading from the front: the value and what is left.
  function TakeU32(b: Bytes): Option<(nat, Bytes)> {
    if |b| < 4 then None else Some((FromU32(b), b[4..]))
  }

  function TakeString(b: Bytes, limit: nat): Option<(Bytes, Bytes)> {
    var len := TakeU32(b);
    if len.None? || len.value.0 > limit || len.value.0 > |len.value.1| then None
    else Some((len.value.1[..len.value.0], len.value.1[len.value.0..]))
  }

  lemma U32RoundTrip(n: nat)
    ensures FromU32(U32(n)) == n % U32_RANGE
  {
    var q := n / 256;
    assert n == 256 * q + n % 256;
    var q2 := q / 256;
    assert n / 65536 == q2 && q == 256 * q2 + q % 256;
    var q3 := q2 / 256;
    assert n / 16777216 == q3 && q2 == 256 * q3 + q2 % 256;
    assert n == U32_RANGE * (q3 / 256) + FromU32(U32(n));
  }

  lemma LowByte(high: nat, low: byte)
    ensures (256 * high + low) / 256 == high && (256 * high + low) % 256 == low
  {
  }

  lemma Shifts(n: nat)
    ensures n / 65536 == n / 256 / 256 && n / 16777216 == n / 256 / 256 / 256
  {
  }

  // Most significant byte first.
  lemma U32BigEndian(b0: nat, b1: nat, b2: nat, b3: nat)
    requires b0 < 256 && b1 < 256 && b2 < 256 && b3 < 256
    ensures U32(b0 * 16777216 + b1 * 65536 + b2 * 256 + b3) == [b0, b1, b2, b3]
  {
    var n := b0 * 16777216 + b1 * 65536 + b2 * 256 + b3;
    var n1 := 256 * b0 + b1;
    var n2 := 256 * n1 + b2;
    assert n == 256 * n2 + b3;
    Shifts(n);
    LowByte(n2, b3);
    LowByte(n1, b2);
    LowByte(b0, b1);
  }

  lemma TakeU32RoundTrip(n: nat, rest: Bytes)
    requires n < U32_RANGE
    ensures TakeU32(U32(n) + rest) == Some((n, rest))
  {
    U32RoundTrip(n);
    var b := U32(n) + rest;
    assert b[4..] == rest && b[..4] == U32(n);
    assert b[0] == U32(n)[0] && b[1] == U32(n)[1] && b[2] == U32(n)[2] && b[3] == U32(n)[3];
  }

  lemma TakeStringRoundTrip(data: Bytes, rest: Bytes, limit: nat)
    requires |data| < U32_RANGE && |data| <= limit
    ensures TakeString(SshString(data) + rest, limit) == Some((data, rest))
  {
    TakeU32RoundTrip(|data|, data + rest);
    assert SshString(data) + rest == U32(|data|) + (data + rest);
    assert (data + rest)[..|data|] == data && (data + rest)[|data|..] == rest;
  }

  lemma Associative(a: Bytes, b: Bytes, c: Bytes)
    ensures (a + b) + c == a + (b + c)
  {
  }

  // ---- sign requests -------------------------------------------------------------------

  datatype SignRequest = SignRequest(blob: Bytes, data: Bytes, flags: nat)

  function EncodeSign(r: SignRequest): Bytes { SshString(r.blob) + SshString(r.data) + U32(r.flags) }

  // The payload's three fields; anything after them is ignored.
  function ParseSign(payload: Bytes, limit: nat): Option<SignRequest> {
    var blob := TakeString(payload, limit);
    if blob.None? then None
    else
      var data := TakeString(blob.value.1, limit);
      if data.None? then None
      else
        var flags := TakeU32(data.value.1);
        if flags.None? then None else Some(SignRequest(blob.value.0, data.value.0, flags.value.0))
  }

  // A request that fits one message reads back unchanged.
  lemma SignRoundTrip(r: SignRequest, trailing: Bytes)
    requires r.flags < U32_RANGE && 1 + |EncodeSign(r)| <= MAX_MESSAGE
    ensures ParseSign(EncodeSign(r) + trailing, MAX_MESSAGE) == Some(r)
  {
    var rest2 := U32(r.flags) + trailing;
    var rest1 := SshString(r.data) + rest2;
    assert EncodeSign(r) + trailing == SshString(r.blob) + rest1 by {
      Associative(SshString(r.blob), SshString(r.data), U32(r.flags));
      Associative(SshString(r.blob), SshString(r.data) + U32(r.flags), trailing);
      Associative(SshString(r.data), U32(r.flags), trailing);
    }
    TakeStringRoundTrip(r.blob, rest1, MAX_MESSAGE);
    TakeStringRoundTrip(r.data, rest2, MAX_MESSAGE);
    TakeU32RoundTrip(r.flags, trailing);
  }

  // Inside a message of legal length the length check on strings never decides anything.
  lemma InnerLimitIsIdle(payload: Bytes)
    requires 1 + |payload| <= MAX_MESSAGE
    ensures ParseSign(payload, MAX_MESSAGE) == ParseSign(payload, U32_RANGE)
  {
    LimitIsIdle(payload);
    var blob := TakeString(payload, MAX_MESSAGE);
    if blob.Some? {
      LimitIsIdle(blob.value.1);
    }
  }

  lemma LimitIsIdle(b: Bytes)
    requires |b| <= MAX_MESSAGE
    ensures TakeString(b, MAX_MESSAGE) == TakeString(b, U32_RANGE)
    ensures TakeString(b, MAX_MESSAGE).Some? ==> |TakeString(b, MAX_MESSAGE).value.1| <= |b|
  {
  }

  // ---- identities ----------------------------------------------------------------------

  datatype Identity = Identity(blob: Bytes, comment: Bytes)

  const IDENTITIES_ANSWER: byte := 12

  function EncodeIdentity(i: Identity): Bytes { SshString(i.blob) + SshString(i.comment) }

  function EncodeIdentities(ids: seq<Identity>): Bytes {
    if ids == [] then [] else EncodeIdentities(ids[..|ids| - 1]) + EncodeIdentity(ids[|ids| - 1])
  }

  function IdentitiesAnswer(ids: seq<Identity>): Bytes { [IDENTITIES_ANSWER] + U32(|ids|) + EncodeIdentities(ids) }

  // What a client reads: the count, then that many pairs, then nothing.
  function TakeIdentities(n: nat, b: Bytes): Option<seq<Identity>> {
    if n == 0 then (if b == [] then Some([]) else None)
    else
      var blob := TakeString(b, U32_RANGE);
      if blob.None? then None
      else
        var comment := TakeString(blob.value.1, U32_RANGE);
        if comment.None? then None
        else
          var rest := TakeIdentities(n - 1, comment.value.1);
          if rest.None? then None else Some([Identity(blob.value.0, comment.value.0)] + rest.value)
  }

  function DecodeAnswer(b: Bytes): Option<seq<Identity>> {
    if b == [] || b[0] != IDENTITIES_ANSWER then None
    else
      var count := TakeU32(b[1..]);
      if count.None? then None else TakeIdentities(count.value.0, count.value.1)
  }

  predicate Small(i: Identity) { |i.blob| < U32_RANGE && |i.comment| < U32_RANGE }

  lemma {:induction false} EncodeIdentitiesFront(ids: seq<Identity>)
    requires ids != []
    ensures EncodeIdentities(ids) == EncodeIdentity(ids[0]) + EncodeIdentities(ids[1..])
  {
    var n := |ids| - 1;
    if n == 0 {
      assert ids[..0] == [] && ids[1..] == [];
      assert EncodeIdentities([]) == [];
    } else {
      var mid := ids[1..n];
      EncodeIdentitiesFront(ids[..n]);
      assert ids[..n][1..] == mid && ids[1..][..n - 1] == mid && ids[1..][n - 1] == ids[n];
      Associative(EncodeIdentity(ids[0]), EncodeIdentities(mid), EncodeIdentity(ids[n]));
    }
  }

  lemma {:induction false} TakeIdentitiesRoundTrip(ids: seq<Identity>)
    requires forall i :: i in ids ==> Small(i)
    ensures TakeIdentities(|ids|, EncodeIdentities(ids)) == Some(ids)
  {
    if ids != [] {
      assert ids == [ids[0]] + ids[1..] && ids[0] in ids;
      var rest := EncodeIdentities(ids[1..]);
      EncodeIdentitiesFront(ids);
      assert EncodeIdentities(ids) == SshString(ids[0].blob) + (SshString(ids[0].comment) + rest);
      TakeStringRoundTrip(ids[0].blob, SshString(ids[0].comment) + rest, U32_RANGE);
      TakeStringRoundTrip(ids[0].comment, rest, U32_RANGE);
      TakeIdentitiesRoundTrip(ids[1..]);
    }
  }

  // The answer decodes to exactly the listed pairs, in order.
  lemma IdentitiesRoundTrip(ids: seq<Identity>)
    requires |ids| < U32_RANGE && forall i :: i in ids ==> Small(i)
    ensures DecodeAnswer(IdentitiesAnswer(ids)) == Some(ids)
  {
    var b := IdentitiesAnswer(ids);
    assert b[1..] == U32(|ids|) + EncodeIdentities(ids);
    TakeU32RoundTrip(|ids|, EncodeIdentities(ids));
    TakeIdentitiesRoundTrip(ids);
  }

  // ---- signatures ----------------------------------------------------------------------

  datatype Signature = Signature(kind: Bytes, bytes: Bytes)

  const SIGN_RESPONSE: byte := 14

  function SignatureBlob(s: Signature): Bytes { SshString(s.kind) + SshString(s.bytes) }

  function SignResponse(s: Signature): Bytes { [SIGN_RESPONSE] + SshString(SignatureBlob(s)) }

  function DecodeSignature(b: Bytes): Option<Signature> {
    if b == [] || b[0] != SIGN_RESPONSE then None
    else
      var blob := TakeString(b[1..], U32_RANGE);
      if blob.None? || blob.value.1 != [] then None
      else
        var kind := TakeString(blob.value.0, U32_RANGE);
        if kind.None? then None
        else
          var bytes := TakeString(kind.value.1, U32_RANGE);
          if bytes.None? || bytes.value.1 != [] then None else Some(Signature(kind.value.0, bytes.value.0))
  }

  lemma SignatureRoundTrip(s: Signature)
    requires |SignatureBlob(s)| < U32_RANGE
    ensures DecodeSignature(SignResponse(s)) == Some(s)
  {
    var blob := SignatureBlob(s);
    assert SignResponse(s)[1..] == SshString(blob) + [];
    TakeStringRoundTrip(blob, [], U32_RANGE);
    TakeStringRoundTrip(s.kind, SshString(s.bytes), U32_RANGE);
    assert SshString(s.bytes) == SshString(s.bytes) + [];
    TakeStringRoundTrip(s.bytes, [], U32_RANGE);
  }

  // ---- writing and reading in place ------------------------------------------------------

  class Buffer {
    var bytes: Bytes

    constructor (start: Bytes)
      ensures bytes == start
    {
      bytes := start;
    }

    method Extend(more: Bytes)
      modifies this
      ensures bytes == old(bytes) + more
    {
      bytes := bytes + more;
    }

    method WriteString(data: Bytes)
      modifies this
      ensures bytes == old(bytes) + SshString(data)
    {
      Extend(U32(|data|));
      Extend(data);
      assert old(bytes) + U32(|data|) + data == old(bytes) + SshString(data);
    }

    method WriteIdentity(i: Identity)
      modifies this
      ensures bytes == old(bytes) + EncodeIdentity(i)
    {
      WriteString(i.blob);
      WriteString(i.comment);
      assert old(bytes) + SshString(i.blob) + SshString(i.comment) == old(bytes) + EncodeIdentity(i);
    }
  }

  class Cursor {
    const data: Bytes
    var pos: nat

    predicate Valid()
      reads this
    {
      pos <= |data|
    }

    function Rest(): Bytes
      reads this
      requires Valid()
    {
      data[pos..]
    }

    constructor (data: Bytes)
      ensures Valid() && Rest() == data
    {
      this.data := data;
      pos := 0;
    }

    // The next n bytes, all or none.
    method ReadExact(n: nat) returns (r: Option<Bytes>)
      requires Valid()
      modifies this
      ensures Valid()
      ensures r == if n <= |old(Rest())| then Some(old(Rest())[..n]) else None
      ensures Rest() == if r.Some? then old(Rest())[n..] else old(Rest())
    {
      if pos + n > |data| {
        return None;
      }
      r := Some(data[pos..pos + n]);
      assert data[pos..][..n] == data[pos..pos + n] && data[pos..][n..] == data[pos + n..];
      pos := pos + n;
    }

    method ReadU32() returns (r: Option<nat>)
      requires Valid()
      modifies this
      ensures Valid()
      ensures r.Some? <==> TakeU32(old(Rest())).Some?
      ensures r.Some? ==> TakeU32(old(Rest())) == Some((r.value, Rest()))
    {
      var four := ReadExact(4);
      if four.None? {
        return None;
      }
      r := Some(FromU32(four.value));
    }

    method ReadString() returns (r: Option<Bytes>)
      requires Valid()
      modifies this
      ensures Valid()
      ensures r.Some? <==> TakeString(old(Rest()), MAX_MESSAGE).Some?
      ensures r.Some? ==> TakeString(old(Rest()), MAX_MESSAGE) == Some((r.value, Rest()))
    {
      var len := ReadU32();
      if len.None? {
        return None;
      }
      if len.value > MAX_MESSAGE {
        return None;
      }
      r := ReadExact(len.value);
    }
  }

  method ReadSignRequest(payload: Bytes) returns (r: Option<SignRequest>)
    ensures r == ParseSign(payload, MAX_MESSAGE)
  {
    var cursor := new Cursor(payload);
    var blob := cursor.ReadString();
    if blob.None? {
      return None;
    }
    var data := cursor.ReadString();
    if data.None? {
      return None;
    }
    var flags := cursor.ReadU32();
    if flags.None? {
      return None;
    }
    r := Some(SignRequest(blob.value, data.value, flags.value));
  }

  method WriteSignResponse(s: Signature) returns (r: Bytes)
    ensures r == SignResponse(s)
  {
    var blob := new Buffer([]);
    blob.WriteString(s.kind);
    blob.WriteString(s.bytes);
    assert blob.bytes == SignatureBlob(s);
    var buf := new Buffer([SIGN_RESPONSE]);
    buf.WriteString(blob.bytes);
    r := buf.bytes;
  }

  method WriteIdentities(ids: seq<Identity>) returns (r: Bytes)
    ensures r == IdentitiesAnswer(ids)
  {
    var buf := new Buffer([IDENTITIES_ANSWER]);
    buf.Extend(U32(|ids|));
    for i := 0 to |ids|
      invariant buf.bytes == [IDENTITIES_ANSWER] + U32(|ids|) + EncodeIdentities(ids[..i])
    {
      assert ids[..i + 1][..i] == ids[..i] && ids[..i + 1][i] == ids[i];
      buf.WriteIdentity(ids[i]);
    }
    assert ids[..|ids|] == ids;
    r := buf.bytes;
  }
}
