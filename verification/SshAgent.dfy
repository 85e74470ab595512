/** The SSH agent's connection loop: length-prefixed messages in, one response out for each. */
module SshAgent {
  import opened Wrappers
  import opened Seqs
  import opened Sorting
  import opened Schema
  import opened SshWire

  const REQUEST_IDENTITIES: byte := 11
  const SIGN_REQUEST: byte := 13
  const FAILURE: byte := 5

  // The store as one message finds it: the key table, or none while it is locked. Text encoding and
  // signing (decryption included) are library calls.
  datatype View = View(
    keys: Option<seq<SshKeyRow>>, utf8: string -> Bytes, sign: (SshKeyRow, Bytes) -> Option<Signature>)

  // ---- the response to one message -----------------------------------------------------------

  // ORDER BY label ASC
  predicate LabelBefore(a: SshKeyRow, b: SshKeyRow) { TextBefore(a.name, b.name) }

  function ListKeys(keys: seq<SshKeyRow>): seq<SshKeyRow> { StableSort(LabelBefore, keys) }

  function Identities(v: View, keys: seq<SshKeyRow>): (r: seq<Identity>)
    ensures |r| == |keys|
  {
    seq(|keys|, i requires 0 <= i < |keys| => Identity(v.utf8(keys[i].publicKey), v.utf8(keys[i].name)))
  }

  function KeyWithBlob(v: View, keys: seq<SshKeyRow>, blob: Bytes): Option<SshKeyRow> {
    if keys == [] then None
    else if v.utf8(keys[0].publicKey) == blob then Some(keys[0])
    else KeyWithBlob(v, keys[1..], blob)
  }

  // SELECT ... FROM ssh_keys WHERE label = ?
  function KeyNamed(keys: seq<SshKeyRow>, name: string): Option<SshKeyRow> {
    if keys == [] then None
    else if keys[0].name == name then Some(keys[0])
    else KeyNamed(keys[1..], name)
  }

  // The key is found by its blob, in label order, and its secret by its label, in table order.
  function Signer(v: View, keys: seq<SshKeyRow>, blob: Bytes): Option<SshKeyRow> {
    var key := KeyWithBlob(v, ListKeys(keys), blob);
    if key.None? then None else KeyNamed(keys, key.value.name)
  }

  function SignAnswer(v: View, payload: Bytes): Bytes {
    var request := ParseSign(payload, MAX_MESSAGE);
    if request.None? || v.keys.None? then [FAILURE]
    else
      var signer := Signer(v, v.keys.value, request.value.blob);
      if signer.None? then [FAILURE] else SignedBy(v, signer.value, request.value.data)
  }

  function SignedBy(v: View, signer: SshKeyRow, data: Bytes): Bytes {
    var s := v.sign(signer, data);
    if s.None? then [FAILURE] else SignResponse(s.value)
  }

  function ListAnswer(v: View): Bytes {
    IdentitiesAnswer(Identities(v, if v.keys.None? then [] else ListKeys(v.keys.value)))
  }

  function Respond(v: View, msg: Bytes): (r: Bytes)
    requires msg != []
    ensures r != []
  {
    if msg[0] == REQUEST_IDENTITIES then ListAnswer(v)
    else if msg[0] == SIGN_REQUEST then SignAnswer(v, msg[1..])
    else [FAILURE]
  }

  // ---- which key signs ------------------------------------------------------------------------

  function Named(name: string): SshKeyRow -> bool { (k: SshKeyRow) => k.name == name }

  lemma {:induction false} KeyNamedIsFirst(keys: seq<SshKeyRow>, name: string)
    ensures var same := Filter(Named(name), keys);
      KeyNamed(keys, name) == if same == [] then None else Some(same[0])
  {
    if keys != [] {
      KeyNamedIsFirst(keys[1..], name);
    }
  }

  lemma {:induction false} KeyWithBlobFinds(v: View, keys: seq<SshKeyRow>, blob: Bytes)
    ensures KeyWithBlob(v, keys, blob).Some? ==>
      KeyWithBlob(v, keys, blob).value in keys && v.utf8(KeyWithBlob(v, keys, blob).value.publicKey) == blob
    ensures KeyWithBlob(v, keys, blob).None? ==> forall k :: k in keys ==> v.utf8(k.publicKey) != blob
  {
    if keys != [] {
      assert keys == [keys[0]] + keys[1..];
      KeyWithBlobFinds(v, keys[1..], blob);
    }
  }

  lemma LabelBeforeOrders()
    ensures TotalPreorder(LabelBefore)
  {
    forall a, b ensures LabelBefore(a, b) || LabelBefore(b, a) {
      TextBeforeTotal(a.name, b.name);
    }
    forall a, b, c | LabelBefore(a, b) && LabelBefore(b, c) ensures LabelBefore(a, c) {
      TextBeforeTransitive(a.name, b.name, c.name);
    }
  }

  lemma ListedKeys(keys: seq<SshKeyRow>)
    ensures forall k :: k in ListKeys(keys) <==> k in keys
    ensures Sorted(LabelBefore, ListKeys(keys))
  {
    LabelBeforeOrders();
    StableSortCorrect(LabelBefore, keys);
    forall k ensures k in ListKeys(keys) <==> k in keys {
      assert k in keys <==> k in multiset(keys);
      assert k in ListKeys(keys) <==> k in multiset(ListKeys(keys));
    }
  }

  predicate HasBlob(v: View, k: SshKeyRow, blob: Bytes) { v.utf8(k.publicKey) == blob }

  // In a list sorted by label the first key with a blob has the least label of all that have it.
  lemma {:induction false} FoundHasLeastLabel(v: View, listed: seq<SshKeyRow>, blob: Bytes, k: SshKeyRow)
    requires Sorted(LabelBefore, listed) && k in listed && HasBlob(v, k, blob)
    ensures KeyWithBlob(v, listed, blob).Some? && TextBefore(KeyWithBlob(v, listed, blob).value.name, k.name)
  {
    assert listed == [listed[0]] + listed[1..];
    if HasBlob(v, listed[0], blob) {
      TextBeforeTotal(k.name, k.name);
      var j :| 0 <= j < |listed| && listed[j] == k;
      assert j > 0 ==> LabelBefore(listed[0], listed[j]);
    } else {
      FoundHasLeastLabel(v, listed[1..], blob, k);
    }
  }

  lemma {:induction false} KeyNamedAt(keys: seq<SshKeyRow>, name: string) returns (i: nat)
    requires exists k :: k in keys && k.name == name
    ensures i < |keys| && keys[i].name == name && KeyNamed(keys, name) == Some(keys[i])
    ensures forall j :: 0 <= j < i ==> keys[j].name != name
  {
    assert keys == [keys[0]] + keys[1..];
    if keys[0].name == name {
      i := 0;
    } else {
      i := KeyNamedAt(keys[1..], name);
      assert forall j :: 0 < j < |keys| ==> keys[1..][j - 1] == keys[j];
      i := i + 1;
    }
  }

  // The i-th key has the blob, no key stored before it has its label, and no key with the blob has a
  // smaller label.
  predicate StandsFor(v: View, keys: seq<SshKeyRow>, blob: Bytes, i: nat)
    requires i < |keys|
  {
    && HasBlob(v, keys[i], blob)
    && (forall j :: 0 <= j < i ==> keys[j].name != keys[i].name)
    && (forall k :: k in keys && HasBlob(v, k, blob) ==> TextBefore(keys[i].name, k.name))
  }

  // The key that stands for the blob signs, if there is one.
  lemma StandingKeySigns(v: View, keys: seq<SshKeyRow>, blob: Bytes, i: nat)
    requires i < |keys| && StandsFor(v, keys, blob, i)
    ensures Signer(v, keys, blob) == Some(keys[i])
  {
    ListedKeys(keys);
    assert keys[i] in ListKeys(keys);
    FoundHasLeastLabel(v, ListKeys(keys), blob, keys[i]);
    KeyWithBlobFinds(v, ListKeys(keys), blob);
    var found := KeyWithBlob(v, ListKeys(keys), blob).value;
    assert found in keys;
    TextBeforeAntisymmetric(found.name, keys[i].name);
    var j := KeyNamedAt(keys, found.name);
    assert j == i;
  }

  // And if the signer has the blob, it stands for it.
  lemma SignerStands(v: View, keys: seq<SshKeyRow>, blob: Bytes) returns (i: nat)
    requires Signer(v, keys, blob).Some? && HasBlob(v, Signer(v, keys, blob).value, blob)
    ensures i < |keys| && StandsFor(v, keys, blob, i)
  {
    ListedKeys(keys);
    KeyWithBlobFinds(v, ListKeys(keys), blob);
    var found := KeyWithBlob(v, ListKeys(keys), blob).value;
    assert found in keys;
    i := KeyNamedAt(keys, found.name);
    forall k | k in keys && HasBlob(v, k, blob) ensures TextBefore(keys[i].name, k.name) {
      FoundHasLeastLabel(v, ListKeys(keys), blob, k);
    }
  }

  // The response that carries a signature, read back by the client, or that reports there is none.
  ghost predicate Carries(response: Bytes, signature: Option<Signature>) {
    match signature
    case None => response == [5]
    case Some(s) =>
      var blob := U32(|s.kind|) + s.kind + (U32(|s.bytes|) + s.bytes);
      && response == [14] + (U32(|blob|) + blob)
      && (|blob| < U32_RANGE ==> DecodeSignature(response) == signature)
  }

  lemma SignedByCarries(v: View, signer: SshKeyRow, data: Bytes)
    ensures Carries(SignedBy(v, signer, data), v.sign(signer, data))
  {
    var signature := v.sign(signer, data);
    if signature.Some? && |SignatureBlob(signature.value)| < U32_RANGE {
      SignatureRoundTrip(signature.value);
    }
  }

  // A request is answered by the secret of a stored key exactly when some key has its blob; and that
  // key has the blob exactly when some key stands for it.
  lemma SignerIsRequestedIff(v: View, payload: Bytes)
    requires v.keys.Some? && ParseSign(payload, MAX_MESSAGE).Some?
    ensures var keys, request := v.keys.value, ParseSign(payload, MAX_MESSAGE).value;
      var signer := Signer(v, keys, request.blob);
      && Carries(SignAnswer(v, payload), if signer.Some? then v.sign(signer.value, request.data) else None)
      && (signer.Some? <==> exists k :: k in keys && HasBlob(v, k, request.blob))
      && (signer.Some? ==> signer.value in keys)
      && (signer.Some? && HasBlob(v, signer.value, request.blob) <==>
            exists i :: 0 <= i < |keys| && StandsFor(v, keys, request.blob, i))
  {
    var keys, blob := v.keys.value, ParseSign(payload, MAX_MESSAGE).value.blob;
    ListedKeys(keys);
    KeyWithBlobFinds(v, ListKeys(keys), blob);
    var found := KeyWithBlob(v, ListKeys(keys), blob);
    if found.Some? {
      assert found.value in keys;
      var i := KeyNamedAt(keys, found.value.name);
    }
    var signer := Signer(v, keys, blob);
    if signer.Some? {
      SignedByCarries(v, signer.value, ParseSign(payload, MAX_MESSAGE).value.data);
    }
    if signer.Some? && HasBlob(v, signer.value, blob) {
      var i := SignerStands(v, keys, blob);
    }
    if i :| 0 <= i < |keys| && StandsFor(v, keys, blob, i) {
      StandingKeySigns(v, keys, blob, i);
    }
  }

  lemma PayloadIsRead(blob: Bytes, data: Bytes, flags: nat)
    requires 13 + |blob| + |data| <= MAX_MESSAGE && flags < U32_RANGE
    ensures var payload := U32(|blob|) + blob + (U32(|data|) + data) + U32(flags);
      ParseSign(payload, MAX_MESSAGE) == Some(SignRequest(blob, data, flags))
  {
    var payload := U32(|blob|) + blob + (U32(|data|) + data) + U32(flags);
    var r := SignRequest(blob, data, flags);
    assert EncodeSign(r) == payload && payload + [] == payload;
    SignRoundTrip(r, []);
  }

  lemma PayloadIsSigned(v: View, payload: Bytes, r: SignRequest, i: nat)
    requires v.keys.Some? && i < |v.keys.value| && StandsFor(v, v.keys.value, r.blob, i)
    requires ParseSign(payload, MAX_MESSAGE) == Some(r)
    ensures Carries(Respond(v, [13] + payload), v.sign(v.keys.value[i], r.data))
  {
    assert ([13] + payload)[1..] == payload;
    SignerIsRequestedIff(v, payload);
    StandingKeySigns(v, v.keys.value, r.blob, i);
  }

  // From the bytes of a request to what the client reads: the key that stands for the blob has signed the
  // data. The message is at most 256 KiB.
  lemma RequestIsSigned(v: View, blob: Bytes, data: Bytes, flags: nat, i: nat)
    requires v.keys.Some? && i < |v.keys.value| && StandsFor(v, v.keys.value, blob, i)
    requires 13 + |blob| + |data| <= 262144 && flags < U32_RANGE
    ensures var msg := [13] + (U32(|blob|) + blob + (U32(|data|) + data) + U32(flags));
      && |msg| <= 262144
      && Carries(Respond(v, msg), v.sign(v.keys.value[i], data))
  {
    var payload := U32(|blob|) + blob + (U32(|data|) + data) + U32(flags);
    PayloadIsRead(blob, data, flags);
    PayloadIsSigned(v, payload, SignRequest(blob, data, flags), i);
  }

  // The listing names every stored key once, in label order: the blob is the public key's text, the
  // comment its label. While the store is locked it is empty.
  lemma ListingIsRead(v: View, msg: Bytes)
    requires msg != [] && msg[0] == 11
    requires v.keys.Some? ==> |v.keys.value| < U32_RANGE
    requires v.keys.Some? ==>
      forall k :: k in v.keys.value ==> |v.utf8(k.publicKey)| < U32_RANGE && |v.utf8(k.name)| < U32_RANGE
    ensures v.keys.None? ==> Respond(v, msg) == [12, 0, 0, 0, 0] && DecodeAnswer(Respond(v, msg)) == Some([])
    ensures v.keys.Some? ==>
      var ids, listed := DecodeAnswer(Respond(v, msg)), ListKeys(v.keys.value);
      && multiset(listed) == multiset(v.keys.value)
      && (forall i, j :: 0 <= i < j < |listed| ==> TextBefore(listed[i].name, listed[j].name))
      && ids.Some? && |ids.value| == |listed|
      && forall i :: 0 <= i < |listed| ==>
           ids.value[i].blob == v.utf8(listed[i].publicKey) && ids.value[i].comment == v.utf8(listed[i].name)
  {
    if v.keys.Some? {
      var listed := ListKeys(v.keys.value);
      LabelBeforeOrders();
      StableSortCorrect(LabelBefore, v.keys.value);
      ListedKeys(v.keys.value);
      assert |listed| == |v.keys.value| by {
        assert |multiset(listed)| == |multiset(v.keys.value)|;
      }
      var ids := Identities(v, listed);
      forall id | id in ids ensures Small(id) {
        var i :| 0 <= i < |ids| && ids[i] == id;
        assert listed[i] in listed;
      }
      IdentitiesRoundTrip(ids);
      forall i, j | 0 <= i < j < |listed| ensures TextBefore(listed[i].name, listed[j].name) {
        assert LabelBefore(listed[i], listed[j]);
      }
    } else {
      IdentitiesRoundTrip([]);
    }
  }

  lemma ListedAlone(keys: seq<SshKeyRow>)
    requires |keys| == 1
    ensures ListKeys(keys) == keys
  {
    LabelBeforeOrders();
    StableSortCorrect(LabelBefore, keys);
    var listed := ListKeys(keys);
    assert |multiset(listed)| == 1;
    assert listed[0] in multiset(listed);
  }

  // A single key, byte for byte.
  lemma ListingOfOne(v: View, keys: seq<SshKeyRow>)
    requires v.keys == Some(keys) && |keys| == 1
    ensures var blob, comment := v.utf8(keys[0].publicKey), v.utf8(keys[0].name);
      Respond(v, [11]) == [12, 0, 0, 0, 1] + (U32(|blob|) + blob + (U32(|comment|) + comment))
  {
    ListedAlone(keys);
    var ids := Identities(v, keys);
    var none := ids[..0];
    assert EncodeIdentities(ids) == EncodeIdentities(none) + EncodeIdentity(ids[0]);
    assert none == [];
  }

  // With a locked store or a malformed request the answer is failure.
  lemma UnknownKeyFails(v: View, payload: Bytes)
    requires v.keys.None? || ParseSign(payload, MAX_MESSAGE).None?
      || forall k :: k in v.keys.value ==> v.utf8(k.publicKey) != ParseSign(payload, MAX_MESSAGE).value.blob
    ensures SignAnswer(v, payload) == [5]
  {
    if v.keys.Some? && ParseSign(payload, MAX_MESSAGE).Some? {
      SignerIsRequestedIff(v, payload);
    }
  }

  // Two keys under one label: a request for the second is signed with the first.
  lemma NamesakeSigns(v: View, first: SshKeyRow, second: SshKeyRow, payload: Bytes)
    requires v.keys == Some([first, second]) && first.name == second.name
    requires v.utf8(first.publicKey) != v.utf8(second.publicKey)
    requires ParseSign(payload, MAX_MESSAGE).Some?
    requires HasBlob(v, second, ParseSign(payload, MAX_MESSAGE).value.blob)
    ensures Carries(SignAnswer(v, payload), v.sign(first, ParseSign(payload, MAX_MESSAGE).value.data))
  {
    var keys, blob := v.keys.value, ParseSign(payload, MAX_MESSAGE).value.blob;
    SignerIsRequestedIff(v, payload);
    assert second in keys;
    assert forall i :: 0 <= i < |keys| ==> !StandsFor(v, keys, blob, i) by {
      assert keys[0].name == keys[1].name;
    }
  }

  const OLD_KEY := SshKeyRow("1", "work", "ssh-ed25519 AAAAold", "Ed25519", [], [], [], 0)
  const NEW_KEY := SshKeyRow("2", "work", "ssh-ed25519 AAAAnew", "Ed25519", [], [], [], 1)

  lemma WrongKeySigns(v: View, data: Bytes)
    requires v.keys == Some([OLD_KEY, NEW_KEY]) && v.utf8(OLD_KEY.publicKey) != v.utf8(NEW_KEY.publicKey)
    requires 1 + |EncodeSign(SignRequest(v.utf8(NEW_KEY.publicKey), data, 0))| <= MAX_MESSAGE
    ensures var r := SignRequest(v.utf8(NEW_KEY.publicKey), data, 0);
      Carries(SignAnswer(v, EncodeSign(r)), v.sign(OLD_KEY, data))
  {
    var r := SignRequest(v.utf8(NEW_KEY.publicKey), data, 0);
    SignRoundTrip(r, []);
    assert EncodeSign(r) + [] == EncodeSign(r);
    NamesakeSigns(v, OLD_KEY, NEW_KEY, EncodeSign(r));
  }

  // A key stored twice, with a label of its own the first time: still another key signs, because the
  // listing meets the second copy first.
  const HOME_KEY := SshKeyRow("0", "home", "ssh-ed25519 AAAAold", "Ed25519", [], [], [], 0)
  const DESK_KEY := SshKeyRow("1", "desk", "ssh-ed25519 AAAAnew", "Ed25519", [], [], [], 1)
  const HOME_AGAIN := SshKeyRow("2", "desk", "ssh-ed25519 AAAAold", "Ed25519", [], [], [], 2)

  lemma CopyMisleadsSigner(v: View, payload: Bytes)
    requires v.keys == Some([HOME_KEY, DESK_KEY, HOME_AGAIN])
    requires v.utf8(HOME_KEY.publicKey) != v.utf8(DESK_KEY.publicKey) && ParseSign(payload, MAX_MESSAGE).Some?
    requires HasBlob(v, HOME_KEY, ParseSign(payload, MAX_MESSAGE).value.blob)
    ensures Carries(SignAnswer(v, payload), v.sign(DESK_KEY, ParseSign(payload, MAX_MESSAGE).value.data))
  {
    var keys, blob := v.keys.value, ParseSign(payload, MAX_MESSAGE).value.blob;
    CopyIsFound(v, keys, blob);
    assert keys[0].name != "desk" && keys[1].name == "desk" && keys[1] in keys;
    var i := KeyNamedAt(keys, "desk");
    assert Signer(v, keys, blob) == Some(keys[i]) && i == 1;
    SignedByCarries(v, DESK_KEY, ParseSign(payload, MAX_MESSAGE).value.data);
  }

  lemma CopyIsFound(v: View, keys: seq<SshKeyRow>, blob: Bytes)
    requires keys == [HOME_KEY, DESK_KEY, HOME_AGAIN]
    requires HasBlob(v, HOME_KEY, blob) && !HasBlob(v, DESK_KEY, blob)
    ensures KeyWithBlob(v, ListKeys(keys), blob) == Some(HOME_AGAIN)
  {
    ListedKeys(keys);
    assert keys[2] in keys;
    FoundHasLeastLabel(v, ListKeys(keys), blob, HOME_AGAIN);
    KeyWithBlobFinds(v, ListKeys(keys), blob);
    assert !TextBefore("home", "desk");
  }

  // Listing in label order does not change which key a label stands for.
  lemma ListedKeyNamed(keys: seq<SshKeyRow>, name: string)
    ensures KeyNamed(ListKeys(keys), name) == KeyNamed(keys, name)
  {
    TextBeforeTotal(name, name);
    StableSortKeepsTies(LabelBefore, Named(name), keys);
    KeyNamedIsFirst(keys, name);
    KeyNamedIsFirst(ListKeys(keys), name);
  }

  // ---- messages in a byte stream ----------------------------------------------------------------

  datatype Next = Closed | BadLength | Truncated | Message(body: Bytes, rest: Bytes)

  // A stream that ends inside the length counts as closed.
  function NextMessage(input: Bytes, max: nat): (r: Next)
    ensures r.Message? ==> 0 < |r.body| <= max && |input| == 4 + |r.body| + |r.rest|
  {
    if |input| < 4 then Closed
    else
      var len := FromU32(input);
      if len == 0 || len > max then BadLength
      else if len > |input| - 4 then Truncated
      else Message(input[4..4 + len], input[4 + len..])
  }

  function Messages(input: Bytes, max: nat): (r: seq<Bytes>)
    ensures forall k :: 0 <= k < |r| ==> 0 < |r[k]| <= max
    decreases |input|
  {
    match NextMessage(input, max)
    case Message(body, rest) => [body] + Messages(rest, max)
    case _ => []
  }

  // What is left when the loop ends.
  function Leftover(input: Bytes, max: nat): Bytes
    decreases |input|
  {
    match NextMessage(input, max)
    case Message(_, rest) => Leftover(rest, max)
    case _ => input
  }

  function Framed(bodies: seq<Bytes>): Bytes {
    if bodies == [] then [] else SshString(bodies[0]) + Framed(bodies[1..])
  }

  lemma FromU32Back(b: Bytes)
    requires |b| >= 4
    ensures U32(FromU32(b)) == b[..4] && FromU32(b) < U32_RANGE
  {
    var b0: nat, b1: nat, b2: nat, b3: nat := b[0], b[1], b[2], b[3];
    U32BigEndian(b0, b1, b2, b3);
    assert [b0, b1, b2, b3] == b[..4];
  }

  lemma MessageIsFrame(input: Bytes, max: nat)
    requires NextMessage(input, max).Message?
    ensures var m := NextMessage(input, max); input == SshString(m.body) + m.rest
  {
    var m := NextMessage(input, max);
    FromU32Back(input);
    assert U32(|m.body|) == input[..4];
    assert input == input[..4] + (m.body + m.rest);
  }

  // The input is its legal messages, framed, and a rest that starts with none; each message takes at
  // least five bytes.
  lemma {:induction false} MessagesCover(input: Bytes, max: nat)
    ensures input == Framed(Messages(input, max)) + Leftover(input, max)
    ensures !NextMessage(Leftover(input, max), max).Message?
    ensures 5 * |Messages(input, max)| + |Leftover(input, max)| <= |input|
    decreases |input|
  {
    match NextMessage(input, max) {
      case Message(body, rest) =>
        MessagesCover(rest, max);
        MessageIsFrame(input, max);
        var ms, left := Messages(rest, max), Leftover(rest, max);
        assert ([body] + ms)[1..] == ms;
        assert SshString(body) + Framed(ms) + left == SshString(body) + (Framed(ms) + left);
      case _ =>
    }
  }

  lemma NextOfFrame(body: Bytes, rest: Bytes, max: nat)
    requires 0 < |body| <= max && |body| < U32_RANGE
    ensures NextMessage(SshString(body) + rest, max) == Message(body, rest)
  {
    var input := SshString(body) + rest;
    TakeU32RoundTrip(|body|, body + rest);
    assert input == U32(|body|) + (body + rest);
    assert input[4..4 + |body|] == body && input[4 + |body|..] == rest;
  }

  // Conversely, framed legal messages are read back, whatever incomplete or illegal rest follows.
  lemma {:induction false} MessagesRoundTrip(bodies: seq<Bytes>, rest: Bytes, max: nat)
    requires forall m :: m in bodies ==> 0 < |m| <= max && |m| < U32_RANGE
    requires !NextMessage(rest, max).Message?
    ensures Messages(Framed(bodies) + rest, max) == bodies
    ensures Leftover(Framed(bodies) + rest, max) == rest
  {
    if bodies == [] {
      assert Framed(bodies) + rest == rest;
    } else {
      assert bodies == [bodies[0]] + bodies[1..] && bodies[0] in bodies;
      assert Framed(bodies) + rest == SshString(bodies[0]) + (Framed(bodies[1..]) + rest);
      NextOfFrame(bodies[0], Framed(bodies[1..]) + rest, max);
      MessagesRoundTrip(bodies[1..], rest, max);
    }
  }

  // ---- the connection -----------------------------------------------------------------------------

  // The answer to the k-th message, with the store as it is then.
  function Answers(views: nat -> View): (nat, Bytes) -> Bytes {
    (k: nat, msg: Bytes) => if msg == [] then [] else Respond(views(k), msg)
  }

  function Responses(answer: (nat, Bytes) -> Bytes, msgs: seq<Bytes>): (r: seq<Bytes>)
    ensures |r| == |msgs|
    ensures forall k :: 0 <= k < |msgs| ==> r[k] == answer(k, msgs[k])
    decreases msgs
  {
    if msgs == [] then []
    else
      var n := |msgs| - 1;
      Responses(answer, msgs[..n]) + [answer(n, msgs[n])]
  }

  // The output so far grows by the frame of the k-th response.
  lemma ResponsesSnoc(answer: (nat, Bytes) -> Bytes, msgs: seq<Bytes>, k: nat)
    requires k < |msgs|
    ensures Framed(Responses(answer, msgs[..k + 1])) ==
            Framed(Responses(answer, msgs[..k])) + SshString(answer(k, msgs[k]))
  {
    assert msgs[..k + 1][..k] == msgs[..k];
    FramedSnoc(Responses(answer, msgs[..k]), answer(k, msgs[k]));
  }

  // A client that reads the output as frames gets exactly one response per message, in order.
  lemma ClientReadsResponses(views: nat -> View, input: Bytes)
    requires forall r :: r in Responses(Answers(views), Messages(input, MAX_MESSAGE)) ==> |r| < U32_RANGE
    ensures var rs := Responses(Answers(views), Messages(input, MAX_MESSAGE));
      && Messages(Framed(rs), U32_RANGE) == rs && Leftover(Framed(rs), U32_RANGE) == []
      && |rs| == |Messages(input, MAX_MESSAGE)|
  {
    var msgs := Messages(input, MAX_MESSAGE);
    var rs := Responses(Answers(views), msgs);
    forall r | r in rs ensures r != [] {
      var k :| 0 <= k < |rs| && rs[k] == r;
      assert r == Answers(views)(k, msgs[k]) == Respond(views(k), msgs[k]);
    }
    MessagesRoundTrip(rs, [], U32_RANGE);
    assert Framed(rs) + [] == Framed(rs);
  }

  class Connection {
    const views: nat -> View
    const input: Cursor
    var output: Bytes
    var answered: nat

    constructor (views: nat -> View, bytes: Bytes)
      ensures input.Valid() && input.Rest() == bytes && output == [] && answered == 0
      ensures this.views == views && fresh(input)
    {
      this.views := views;
      input := new Cursor(bytes);
      output := [];
      answered := 0;
    }

    method RequestIdentities() returns (r: Bytes)
      ensures r == ListAnswer(views(answered))
    {
      var v := views(answered);
      r := WriteIdentities(Identities(v, if v.keys.None? then [] else ListKeys(v.keys.value)));
    }

    method SignRequested(payload: Bytes) returns (r: Bytes)
      ensures r == SignAnswer(views(answered), payload)
    {
      var v := views(answered);
      var request := ReadSignRequest(payload);
      if request.None? || v.keys.None? {
        return [FAILURE];
      }
      var key := KeyWithBlob(v, ListKeys(v.keys.value), request.value.blob);
      if key.None? {
        return [FAILURE];
      }
      var signer := KeyNamed(v.keys.value, key.value.name);
      if signer.None? {
        return [FAILURE];
      }
      var s := v.sign(signer.value, request.value.data);
      if s.None? {
        return [FAILURE];
      }
      r := WriteSignResponse(s.value);
    }

    // The next message, or none when the connection is over.
    method ReadMessage() returns (msg: Option<Bytes>)
      requires input.Valid()
      modifies input
      ensures input.Valid()
      ensures var next := NextMessage(old(input.Rest()), MAX_MESSAGE);
        && (msg.Some? <==> next.Message?)
        && (msg.Some? ==> msg.value == next.body && input.Rest() == next.rest)
      ensures var bytes := old(input.Rest());
        msg.Some? <==> |bytes| >= 4 && 1 <= FromU32(bytes) <= 262144 && 4 + FromU32(bytes) <= |bytes|
      ensures msg.Some? ==> old(input.Rest()) == U32(|msg.value|) + msg.value + input.Rest()
      ensures |input.Rest()| <= |old(input.Rest())|
    {
      var prefix := input.ReadExact(4);
      if prefix.None? {
        return None;
      }
      var len := FromU32(prefix.value);
      if len == 0 || len > MAX_MESSAGE {
        return None;
      }
      msg := input.ReadExact(len);
      if msg.Some? {
        MessageParts(old(input.Rest()), len);
        MessageIsFrame(old(input.Rest()), MAX_MESSAGE);
      }
    }

    // The response to one message, by its type.
    method Answer(msg: Bytes) returns (r: Bytes)
      requires msg != []
      ensures r == Answers(views)(answered, msg) == Respond(views(answered), msg)
      ensures msg[0] != 11 && msg[0] != 13 ==> r == [5]
    {
      assert Answers(views)(answered, msg) == Respond(views(answered), msg);
      if msg[0] == REQUEST_IDENTITIES {
        r := RequestIdentities();
      } else if msg[0] == SIGN_REQUEST {
        r := SignRequested(msg[1..]);
      } else {
        r := [FAILURE];
      }
    }

    // One message read and answered: false when the connection is over.
    method HandleMessage() returns (more: bool)
      requires input.Valid()
      modifies this, input
      ensures input.Valid()
      ensures var next := NextMessage(old(input.Rest()), MAX_MESSAGE);
        && (more <==> next.Message?)
        && (more ==> input.Rest() == next.rest && answered == old(answered) + 1)
        && (more ==> output == old(output) + SshString(Answers(views)(old(answered), next.body)))
        && (!more ==> output == old(output) && answered == old(answered))
      ensures |input.Rest()| <= |old(input.Rest())|
    {
      var msg := ReadMessage();
      if msg.None? {
        return false;
      }
      var response := Answer(msg.value);
      output := output + (U32(|response|) + response);
      answered := answered + 1;
      more := true;
    }

    // Answers until the stream ends or breaks: one framed response per complete legal message, in order.
    method Serve()
      requires input.Valid() && output == [] && answered == 0
      modifies this, input
      ensures var msgs := Messages(old(input.Rest()), MAX_MESSAGE);
        && answered == |msgs|
        && output == Framed(Responses(Answers(views), msgs))
    {
      ghost var all := Messages(input.Rest(), MAX_MESSAGE);
      var open := true;
      while open
        invariant input.Valid() && answered <= |all|
        invariant open ==> Messages(input.Rest(), MAX_MESSAGE) == all[answered..]
        invariant output == Framed(Responses(Answers(views), all[..answered]))
        invariant !open ==> answered == |all|
        decreases |input.Rest()|, open
      {
        ghost var before, k := input.Rest(), answered;
        MessagesStep(all, k, before);
        open := HandleMessage();
        if open {
          ResponsesSnoc(Answers(views), all, k);
        }
      }
      assert all[..|all|] == all;
    }
  }

  lemma MessageParts(input: Bytes, len: nat)
    requires |input| >= 4 && len == FromU32(input[..4]) && 0 < len <= MAX_MESSAGE && len <= |input[4..]|
    ensures NextMessage(input, MAX_MESSAGE) == Message(input[4..][..len], input[4..][len..])
  {
    assert FromU32(input) == len;
    assert input[4..][..len] == input[4..4 + len];
    assert input[4..][len..] == input[4 + len..];
  }

  // Reading one more message of a stream whose first k are gone.
  lemma MessagesStep(all: seq<Bytes>, k: nat, before: Bytes)
    requires k <= |all| && Messages(before, MAX_MESSAGE) == all[k..]
    ensures var next := NextMessage(before, MAX_MESSAGE);
      && (next.Message? ==> k < |all| && next.body == all[k] && Messages(next.rest, MAX_MESSAGE) == all[k + 1..])
      && (!next.Message? ==> k == |all|)
  {
    var next := NextMessage(before, MAX_MESSAGE);
    if next.Message? {
      assert all[k..] == [next.body] + Messages(next.rest, MAX_MESSAGE);
      assert all[k] == all[k..][0] && all[k + 1..] == all[k..][1..];
    }
  }

  lemma {:induction false} FramedSnoc(bodies: seq<Bytes>, body: Bytes)
    ensures Framed(bodies + [body]) == Framed(bodies) + SshString(body)
  {
    if bodies == [] {
      assert bodies + [body] == [body] && [body][1..] == [];
      assert Framed([]) == [];
    } else {
      assert (bodies + [body])[1..] == bodies[1..] + [body];
      FramedSnoc(bodies[1..], body);
    }
  }
}
