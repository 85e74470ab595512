/** Choosing the certificate and the key out of the blocks of one PEM file. */
module PemBundle {
  import opened Wrappers
  import opened Seqs

  datatype Block = Block(tag: string, contents: Bytes)

  datatype BundleError = NoCertificate | NoKey

  predicate IsCert(b: Block) { b.tag == "CERTIFICATE" }

  predicate IsKey(b: Block) {
    b.tag in {"PRIVATE KEY", "EC PRIVATE KEY", "RSA PRIVATE KEY", "ENCRYPTED PRIVATE KEY"}
  }

  // PKCS#8, SEC1 and PKCS#1 keys, and encrypted ones.
  predicate HasKeyTag(b: Block) {
    || b.tag == "PRIVATE KEY" || b.tag == "ENCRYPTED PRIVATE KEY"
    || b.tag == "EC PRIVATE KEY" || b.tag == "RSA PRIVATE KEY"
  }

  predicate HasCertTag(b: Block) { b.tag == "CERTIFICATE" }

  lemma TagsTell(b: Block)
    ensures IsCert(b) <==> HasCertTag(b)
    ensures IsKey(b) <==> HasKeyTag(b)
  {
  }

  ghost predicate IsFirst(has: Block -> bool, blocks: seq<Block>, i: nat) {
    i < |blocks| && has(blocks[i]) && forall k :: 0 <= k < i ==> !has(blocks[k])
  }

  ghost predicate IsLast(has: Block -> bool, blocks: seq<Block>, i: nat) {
    i < |blocks| && has(blocks[i]) && forall k :: i < k < |blocks| ==> !has(blocks[k])
  }

  lemma {:induction false} FirstAt(has: Block -> bool, blocks: seq<Block>) returns (i: nat)
    requires Filter(has, blocks) != []
    ensures IsFirst(has, blocks, i) && blocks[i] == Filter(has, blocks)[0]
  {
    if has(blocks[0]) {
      i := 0;
    } else {
      i := FirstAt(has, blocks[1..]);
      assert forall k :: 0 < k < |blocks| ==> blocks[1..][k - 1] == blocks[k];
      i := i + 1;
    }
  }

  lemma {:induction false} LastAt(has: Block -> bool, blocks: seq<Block>) returns (i: nat)
    requires Filter(has, blocks) != []
    ensures IsLast(has, blocks, i) && blocks[i] == Filter(has, blocks)[|Filter(has, blocks)| - 1]
  {
    var n := |blocks| - 1;
    assert blocks == blocks[..n] + [blocks[n]];
    FilterSnoc(has, blocks[..n], blocks[n]);
    if has(blocks[n]) {
      i := n;
    } else {
      i := LastAt(has, blocks[..n]);
      assert forall k :: 0 <= k < n ==> blocks[..n][k] == blocks[k];
    }
  }

  lemma {:induction false} SameFilter(has: Block -> bool, other: Block -> bool, blocks: seq<Block>)
    requires forall b :: has(b) == other(b)
    ensures Filter(has, blocks) == Filter(other, blocks)
  {
    if blocks != [] {
      SameFilter(has, other, blocks[1..]);
    }
  }

  function Pick(certs: seq<Block>, keys: seq<Block>): Result<(Bytes, Bytes), BundleError> {
    if certs == [] then Err(NoCertificate)
    else if keys == [] then Err(NoKey)
    else Ok((certs[0].contents, keys[|keys| - 1].contents))
  }

  // A missing certificate is reported before a missing key; otherwise the first of the certificates and
  // the last of the keys are taken.
  ghost predicate IsPick(
    cert: Block -> bool, key: Block -> bool, blocks: seq<Block>, r: Result<(Bytes, Bytes), BundleError>)
  {
    match r
    case Err(NoCertificate) => forall b :: b in blocks ==> !cert(b)
    case Err(NoKey) => (exists b :: b in blocks && cert(b)) && forall b :: b in blocks ==> !key(b)
    case Ok((c, k)) =>
      && (exists i: nat :: IsFirst(cert, blocks, i) && blocks[i].contents == c)
      && (exists j: nat :: IsLast(key, blocks, j) && blocks[j].contents == k)
  }

  lemma PickMeansFor(cert: Block -> bool, key: Block -> bool, blocks: seq<Block>)
    ensures IsPick(cert, key, blocks, Pick(Filter(cert, blocks), Filter(key, blocks)))
  {
    var certs, keys := Filter(cert, blocks), Filter(key, blocks);
    if certs != [] {
      assert certs[0] in certs;
      var i := FirstAt(cert, blocks);
      if keys != [] {
        assert keys[0] in keys;
        var j := LastAt(key, blocks);
      }
    }
  }

  lemma PickMeans(blocks: seq<Block>)
    ensures IsPick(HasCertTag, HasKeyTag, blocks, Pick(Filter(IsCert, blocks), Filter(IsKey, blocks)))
  {
    forall b ensures IsCert(b) == HasCertTag(b) && IsKey(b) == HasKeyTag(b) {
      TagsTell(b);
    }
    SameFilter(IsCert, HasCertTag, blocks);
    SameFilter(IsKey, HasKeyTag, blocks);
    PickMeansFor(HasCertTag, HasKeyTag, blocks);
  }

  lemma NextBlock(blocks: seq<Block>, n: nat)
    requires n < |blocks|
    ensures var b, next := blocks[n], blocks[..n + 1];
      && !(IsCert(b) && IsKey(b))
      && Filter(IsCert, next) == Filter(IsCert, blocks[..n]) + (if IsCert(b) then [b] else [])
      && Filter(IsKey, next) == Filter(IsKey, blocks[..n]) + if IsKey(b) then [b] else []
  {
    assert blocks[..n + 1] == blocks[..n] + [blocks[n]];
    FilterSnoc(IsCert, blocks[..n], blocks[n]);
    FilterSnoc(IsKey, blocks[..n], blocks[n]);
  }

  // The first certificate and the last key, in the file's order, whatever stands between them.
  method PickCertAndKey(blocks: seq<Block>) returns (r: Result<(Bytes, Bytes), BundleError>)
    ensures r == Pick(Filter(IsCert, blocks), Filter(IsKey, blocks)) && IsPick(HasCertTag, HasKeyTag, blocks, r)
  {
    var cert, key: Option<Bytes> := None, None;
    for n := 0 to |blocks|
      invariant var certs := Filter(IsCert, blocks[..n]);
        cert == if certs == [] then None else Some(certs[0].contents)
      invariant var keys := Filter(IsKey, blocks[..n]);
        key == if keys == [] then None else Some(keys[|keys| - 1].contents)
    {
      NextBlock(blocks, n);
      if IsCert(blocks[n]) {
        if cert.None? {
          cert := Some(blocks[n].contents);
        }
      } else if IsKey(blocks[n]) {
        key := Some(blocks[n].contents);
      }
    }
    assert blocks[..|blocks|] == blocks;
    PickMeans(blocks);
    if cert.None? {
      return Err(NoCertificate);
    }
    if key.None? {
      return Err(NoKey);
    }
    r := Ok((cert.value, key.value));
  }
}
