/** The PKCS#11 module's object enumeration: two handles for each listed certificate, handed out in
    batches by one process-wide cursor (section 5.7 of the PKCS #11 v2.40 Base Specification). */
module ObjectCursor {
  import opened Wrappers

  const OK: nat := 0
  const ARGUMENTS_BAD: nat := 0x07
  const OBJECT_HANDLE_INVALID: nat := 0x82

  // ---- what one batch, and a run of batches, hands out ----------------------------------

  function Upto(from: nat, n: nat): (r: seq<nat>)
    ensures |r| == n && forall k :: 0 <= k < n ==> r[k] == from + k
  {
    seq(n, k => from + k)
  }

  // How many handles one call yields: never more than asked for, nothing past the end.
  function Batch(pos: nat, total: nat, max: nat): (n: nat)
    ensures n <= max && (n < max ==> pos + n >= total) && (n > 0 ==> pos + n <= total)
  {
    if pos >= total then 0 else if max < total - pos then max else total - pos
  }

  function Enumerated(pos: nat, total: nat, maxima: seq<nat>): seq<nat>
    decreases maxima
  {
    if maxima == [] then []
    else
      var n := Batch(pos, total, maxima[0]);
      Upto(pos, n) + Enumerated(pos + n, total, maxima[1..])
  }

  function Sum(s: seq<nat>): nat { if s == [] then 0 else s[0] + Sum(s[1..]) }

  lemma {:induction false} EnumeratedFrom(pos: nat, total: nat, maxima: seq<nat>)
    requires pos <= total
    ensures Enumerated(pos, total, maxima) == Upto(pos, Batch(pos, total, Sum(maxima)))
    decreases maxima
  {
    if maxima != [] {
      var n := Batch(pos, total, maxima[0]);
      EnumeratedFrom(pos + n, total, maxima[1..]);
    }
  }

  // However the calls are sized, together they hand out 0, 1, 2, ... without gap or repeat, and all
  // 2n handles once the sizes sum to 2n.
  lemma EnumerationIsExact(certs: nat, maxima: seq<nat>)
    ensures var all := Enumerated(0, 2 * certs, maxima);
      && all == Upto(0, |all|)
      && |all| == (if Sum(maxima) < 2 * certs then Sum(maxima) else 2 * certs)
  {
    EnumeratedFrom(0, 2 * certs, maxima);
  }

  // How the total is split over calls does not matter.
  lemma SplitIsInvisible(certs: nat, maxima: seq<nat>, others: seq<nat>)
    requires Sum(maxima) == Sum(others)
    ensures Enumerated(0, 2 * certs, maxima) == Enumerated(0, 2 * certs, others)
  {
    EnumeratedFrom(0, 2 * certs, maxima);
    EnumeratedFrom(0, 2 * certs, others);
  }

  // A handle stands for the certificate at half its number.
  predicate Accepted(certs: nat, handle: nat) { handle / 2 < certs }

  // Every handle of a full enumeration is accepted and no other is; each certificate has exactly two.
  lemma HandlesAreAccepted(certs: nat, maxima: seq<nat>, handle: nat)
    requires Sum(maxima) >= 2 * certs
    ensures handle in Enumerated(0, 2 * certs, maxima) <==> Accepted(certs, handle)
    ensures Accepted(certs, handle) <==> handle < 2 * certs
    ensures forall i :: 0 <= i < certs ==> (handle / 2 == i <==> handle == 2 * i || handle == 2 * i + 1)
  {
    EnumeratedFrom(0, 2 * certs, maxima);
    if Accepted(certs, handle) {
      assert Upto(0, 2 * certs)[handle] == handle;
    }
  }

  // ---- the module's state -----------------------------------------------------------------

  // Where a caller wants a number written.
  class Cell {
    var value: nat
  }

  class Token<Cert> {
    var initialised: bool
    var certs: seq<Cert>
    var signHandle: Option<nat>
    var findPosition: nat

    constructor ()
      ensures !initialised && certs == [] && signHandle == None && findPosition == 0
    {
      initialised, certs, signHandle, findPosition := false, [], None, 0;
    }

    // The daemon's list, or nothing when it cannot be had.
    method Relist(listed: Option<seq<Cert>>)
      modifies this`certs
      ensures certs == if listed.Some? then listed.value else []
    {
      certs := if listed.Some? then listed.value else [];
    }

    // The position is left where it was.
    method Initialize(listed: Option<seq<Cert>>)
      modifies this`certs, this`initialised
      ensures initialised && certs == if listed.Some? then listed.value else []
    {
      Relist(listed);
      initialised := true;
    }

    // No handle is accepted any more, but a signing handle chosen before is still there.
    method Finalize()
      modifies this`certs, this`initialised
      ensures !initialised && certs == [] && forall h :: !Accepted(|certs|, h)
    {
      initialised := false;
      certs := [];
    }

    method FindObjectsInit(listed: Option<seq<Cert>>)
      modifies this`certs, this`findPosition
      ensures certs == (if listed.Some? then listed.value else []) && findPosition == 0
    {
      Relist(listed);
      findPosition := 0;
    }

    // Writes the next handles below max and nothing else.
    method FindObjects(handles: array?<nat>, max: nat, found: Cell?) returns (rv: nat)
      requires handles != null ==> max <= handles.Length
      modifies this`findPosition, handles, found
      ensures rv == if handles == null || found == null then 7 else 0
      ensures rv != OK ==> findPosition == old(findPosition)
      ensures rv != OK && handles != null ==> handles[..] == old(handles[..])
      ensures rv != OK && found != null ==> found.value == old(found.value)
      ensures rv == OK ==>
        && found.value == Batch(old(findPosition), 2 * |certs|, max)
        && findPosition == old(findPosition) + found.value
        && handles[..] == Upto(old(findPosition), found.value) + old(handles[..])[found.value..]
    {
      if handles == null || found == null {
        return ARGUMENTS_BAD;
      }
      var count := 0;
      while count < max && findPosition < 2 * |certs|
        invariant count <= max && findPosition == old(findPosition) + count
        invariant count > 0 ==> findPosition <= 2 * |certs|
        invariant forall k :: 0 <= k < count ==> handles[k] == old(findPosition) + k
        invariant forall k :: count <= k < handles.Length ==> handles[k] == old(handles[k])
      {
        handles[count] := findPosition;
        count := count + 1;
        findPosition := findPosition + 1;
      }
      found.value := count;
      rv := OK;
    }

    method GetAttributeValue(handle: nat) returns (rv: nat)
      ensures rv == if handle < 2 * |certs| then 0 else 130
    {
      if handle / 2 >= |certs| {
        return OBJECT_HANDLE_INVALID;
      }
      rv := OK;
    }

    // A refused handle leaves the chosen one in place.
    method SignInit(handle: nat) returns (rv: nat)
      modifies this`signHandle
      ensures rv == if handle < 2 * |certs| then 0 else 130
      ensures signHandle == if handle < 2 * |certs| then Some(handle) else old(signHandle)
    {
      if handle / 2 >= |certs| {
        return OBJECT_HANDLE_INVALID;
      }
      signHandle := Some(handle);
      rv := OK;
    }
  }

  // A caller that asks again and again, with a buffer of each size, gets the enumeration.
  method FindAll<Cert>(token: Token<Cert>, maxima: seq<nat>) returns (handles: seq<nat>)
    modifies token`findPosition
    ensures handles == Enumerated(old(token.findPosition), 2 * |token.certs|, maxima)
  {
    handles := [];
    var found := new Cell;
    ghost var total := 2 * |token.certs|;
    ghost var first := token.findPosition;
    for i := 0 to |maxima|
      invariant token.certs == old(token.certs)
      invariant handles + Enumerated(token.findPosition, total, maxima[i..]) == Enumerated(first, total, maxima)
    {
      var buffer := new nat[maxima[i]](_ => 0);
      ghost var pos := token.findPosition;
      var rv := token.FindObjects(buffer, maxima[i], found);
      assert maxima[i..][0] == maxima[i] && maxima[i..][1..] == maxima[i + 1..];
      assert buffer[..found.value] == Upto(pos, found.value);
      handles := handles + buffer[..found.value];
    }
  }
}
