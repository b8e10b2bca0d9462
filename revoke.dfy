/**
 * The revocation list of revoke/__init__.py, after the Revocation List 2020
 * draft of the W3C Credentials Community Group: a fixed-length byte array
 * in which bit `rid` is set once index `rid` is revoked, bits numbered from
 * the most significant bit of each byte.
 *
 * Indices follow Python's indexing: `rid >> 3` is floor division by 8 (as
 * Dafny's `/` by a positive constant), and a negative byte index counts from
 * the end, so an index rid with -8n <= rid < 0 addresses the same bit as
 * rid + 8n in a list of n bytes. Any other out-of-range index raises
 * IndexError before anything is written; here that is a returned failure.
 */
module Revoke {
  import opened Wrappers

  /** Length of a fresh list, in bytes: 16 * 1024 * 8 = 131072. */
  const DefaultListSize: nat := 16 * 1024 * 8

  // ---------------------------------------------------------------------
  // Addressing
  // ---------------------------------------------------------------------

  /** The byte that `bitlist[rid >> 3]` reads in a list of n bytes; None is an IndexError. */
  function ByteIndex(n: nat, rid: int): (i: Option<nat>)
    ensures i.Some? <==> -8 * n <= rid < 8 * n
    ensures i.Some? ==> i.value < n
    ensures i.Some? && rid >= 0 ==> i.value == rid / 8
  {
    var q := rid / 8;
    if 0 <= q < n then Some(q)
    else if 0 <= n + q && q < 0 then Some(n + q)
    else None
  }

  /** The bit within that byte, counted from the most significant: `rid & 7`, which is `rid % 8`. */
  function BitOffset(rid: int): nat {
    rid % 8
  }

  /** The mask revoke ORs in: `128 >> k`. */
  function SetMask(k: nat): bv8
    requires k < 8
  {
    128 >> k
  }

  /** The mask is_revoked tests: `1 << (7 - k)`. */
  function TestMask(k: nat): bv8
    requires k < 8
  {
    1 << (7 - k)
  }

  /** revoke and is_revoked use the same mask for every offset. */
  lemma MasksAgree(k: nat)
    requires k < 8
    ensures SetMask(k) == TestMask(k)
  {
  }

  /**
   * The list position (0 <= p < 8n) that `rid` addresses in a list of n
   * bytes: rid itself when non-negative, rid + 8n when negative.
   */
  function Position(n: nat, rid: int): (p: Option<nat>)
    ensures p.Some? <==> -8 * n <= rid < 8 * n
    ensures p.Some? ==> p.value < 8 * n && p.value == (if rid < 0 then rid + 8 * n else rid)
  {
    match ByteIndex(n, rid)
    case None => None
    case Some(i) => Some(8 * i + BitOffset(rid))
  }

  /** The position splits back into the byte index and the bit offset that the source computes. */
  lemma PositionSplit(n: nat, rid: int)
    requires -8 * n <= rid < 8 * n
    ensures Position(n, rid).value / 8 == ByteIndex(n, rid).value
    ensures Position(n, rid).value % 8 == BitOffset(rid)
  {
  }

  // ---------------------------------------------------------------------
  // The bit string as a value
  // ---------------------------------------------------------------------

  /** Position p is set: the test is_revoked makes. */
  predicate IsSet(bytes: seq<bv8>, p: nat)
    requires p < 8 * |bytes|
  {
    bytes[p / 8] & TestMask(p % 8) != 0
  }

  /** The bytes after revoke sets position p: only byte p / 8 is written. */
  function SetBit(bytes: seq<bv8>, p: nat): (r: seq<bv8>)
    requires p < 8 * |bytes|
    ensures |r| == |bytes|
    ensures forall i :: 0 <= i < |bytes| && i != p / 8 ==> r[i] == bytes[i]
  {
    bytes[p / 8 := bytes[p / 8] | SetMask(p % 8)]
  }

  /** The positions set in a bit string. */
  ghost function RevokedSet(bytes: seq<bv8>): set<nat> {
    set p: nat | p < 8 * |bytes| && IsSet(bytes, p)
  }

  /** After setting p, position q is set exactly when q is p or q was set before. */
  lemma SetBitEffect(bytes: seq<bv8>, p: nat, q: nat)
    requires p < 8 * |bytes| && q < 8 * |bytes|
    ensures IsSet(SetBit(bytes, p), q) <==> q == p || IsSet(bytes, q)
  {
  }

  /** Setting p revokes p and nothing else. */
  lemma SetBitRevoked(bytes: seq<bv8>, p: nat)
    requires p < 8 * |bytes|
    ensures RevokedSet(SetBit(bytes, p)) == RevokedSet(bytes) + {p}
  {
    forall q: nat | q < 8 * |bytes|
      ensures IsSet(SetBit(bytes, p), q) <==> q == p || IsSet(bytes, q)
    {
      SetBitEffect(bytes, p, q);
    }
  }

  /** Setting a position twice is setting it once. */
  lemma SetBitIdempotent(bytes: seq<bv8>, p: nat)
    requires p < 8 * |bytes|
    ensures SetBit(SetBit(bytes, p), p) == SetBit(bytes, p)
  {
  }

  /** An all-zero list revokes nothing. */
  lemma ZerosRevokeNothing(n: nat)
    ensures RevokedSet(seq(n, _ => 0 as bv8)) == {}
  {
  }

  // ---------------------------------------------------------------------
  // Batches
  // ---------------------------------------------------------------------

  /** Index of the first entry of xs out of range for a list of n bytes, or |xs| if none is. */
  function FirstOutOfRange(n: nat, xs: seq<int>): (k: nat)
    ensures k <= |xs|
    ensures forall j :: 0 <= j < k ==> Position(n, xs[j]).Some?
    ensures k < |xs| ==> Position(n, xs[k]).None?
  {
    if xs == [] then 0
    else if Position(n, xs[0]).None? then 0
    else 1 + FirstOutOfRange(n, xs[1..])
  }

  /** The bytes after revoking each index of xs in turn, all in range. */
  function SetAll(bytes: seq<bv8>, xs: seq<int>): (r: seq<bv8>)
    requires forall j :: 0 <= j < |xs| ==> Position(|bytes|, xs[j]).Some?
    ensures |r| == |bytes|
  {
    if xs == [] then bytes
    else SetBit(SetAll(bytes, xs[..|xs| - 1]), Position(|bytes|, xs[|xs| - 1]).value)
  }

  /** The positions the in-range indices of xs address. */
  ghost function Positions(n: nat, xs: seq<int>): set<nat> {
    if xs == [] then {}
    else
      var last := Position(n, xs[|xs| - 1]);
      Positions(n, xs[..|xs| - 1]) + (if last.Some? then {last.value} else {})
  }

  /** Revoking a batch revokes exactly the positions of the batch, in addition to those before. */
  lemma {:induction false} SetAllRevoked(bytes: seq<bv8>, xs: seq<int>)
    requires forall j :: 0 <= j < |xs| ==> Position(|bytes|, xs[j]).Some?
    ensures RevokedSet(SetAll(bytes, xs)) == RevokedSet(bytes) + Positions(|bytes|, xs)
  {
    if xs != [] {
      var init := xs[..|xs| - 1];
      SetAllRevoked(bytes, init);
      SetBitRevoked(SetAll(bytes, init), Position(|bytes|, xs[|xs| - 1]).value);
    }
  }

  // ---------------------------------------------------------------------
  // The list object
  // ---------------------------------------------------------------------

  class RevocationList {
    var bitlist: array<bv8>

    /** The list positions currently revoked. */
    ghost var revoked: set<nat>

    /** The ghost view agrees with the bytes. */
    ghost predicate Valid()
      reads this, bitlist
    {
      revoked == RevokedSet(bitlist[..])
    }

    /**
     * A non-empty supplied array is used as it is (shared with the caller);
     * no array, or an empty one, gives a fresh all-zero list of the default size.
     */
    constructor (init: Option<array<bv8>>)
      ensures Valid()
      ensures init.Some? && init.value.Length > 0 ==> bitlist == init.value
      ensures !(init.Some? && init.value.Length > 0) ==>
        && fresh(bitlist)
        && bitlist.Length == DefaultListSize
        && (forall i :: 0 <= i < bitlist.Length ==> bitlist[i] == 0)
        && revoked == {}
    {
      if init.Some? && init.value.Length > 0 {
        bitlist := init.value;
        revoked := RevokedSet(init.value[..]);
      } else {
        bitlist := new bv8[DefaultListSize](_ => 0);
        ZerosRevokeNothing(DefaultListSize);
        revoked := {};
      }
    }

    /** The length of the list in bytes. */
    method Size() returns (n: nat)
      ensures n == bitlist.Length
    {
      n := bitlist.Length;
    }

    /**
     * Whether rid is revoked, read from the current bytes; None where the
     * byte index is out of range.
     */
    method IsRevoked(rid: int) returns (r: Option<bool>)
      ensures r.Some? <==> -8 * bitlist.Length <= rid < 8 * bitlist.Length
      ensures r.Some? ==> (r.value <==> IsSet(bitlist[..], Position(bitlist.Length, rid).value))
      ensures r.Some? && Valid() ==> (r.value <==> Position(bitlist.Length, rid).value in revoked)
    {
      var i := ByteIndex(bitlist.Length, rid);
      if i.None? {
        return None;
      }
      PositionSplit(bitlist.Length, rid);
      if bitlist[i.value] & TestMask(BitOffset(rid)) > 0 {
        r := Some(true);
      } else {
        r := Some(false);
      }
      assert IsSet(bitlist[..], Position(bitlist.Length, rid).value) == r.value;
    }

    /**
     * Revoke rid; false, with nothing written, where the byte index is out of
     * range. The bytes are written whatever they hold; the ghost view is
     * kept in step whenever it agreed with them before.
     */
    method Revoke(rid: int) returns (ok: bool)
      modifies this, bitlist
      ensures bitlist == old(bitlist)
      ensures old(Valid()) ==> Valid()
      ensures ok <==> -8 * bitlist.Length <= rid < 8 * bitlist.Length
      ensures ok ==> bitlist[..] == SetBit(old(bitlist[..]), Position(bitlist.Length, rid).value)
      ensures ok ==> revoked == old(revoked) + {Position(bitlist.Length, rid).value}
      ensures !ok ==> bitlist[..] == old(bitlist[..]) && revoked == old(revoked)
    {
      var i := ByteIndex(bitlist.Length, rid);
      if i.None? {
        return false;
      }
      PositionSplit(bitlist.Length, rid);
      bitlist[i.value] := bitlist[i.value] | SetMask(BitOffset(rid));
      SetBitRevoked(old(bitlist[..]), Position(bitlist.Length, rid).value);
      revoked := revoked + {Position(bitlist.Length, rid).value};
      return true;
    }

    /**
     * Revoke each index of xs in turn. Where one is out of range the source
     * raises and keeps what was revoked before it; here that returns false.
     */
    method BatchRevoke(xs: seq<int>) returns (ok: bool)
      modifies this, bitlist
      ensures bitlist == old(bitlist)
      ensures old(Valid()) ==> Valid()
      ensures ok <==> FirstOutOfRange(bitlist.Length, xs) == |xs|
      ensures bitlist[..] == SetAll(old(bitlist[..]), xs[..FirstOutOfRange(bitlist.Length, xs)])
      ensures revoked == old(revoked) + Positions(bitlist.Length, xs[..FirstOutOfRange(bitlist.Length, xs)])
    {
      ghost var n, before, was := bitlist.Length, bitlist[..], revoked;
      ghost var k := FirstOutOfRange(n, xs);
      var i := 0;
      while i < |xs|
        invariant 0 <= i <= k
        invariant bitlist == old(bitlist)
        invariant old(Valid()) ==> Valid()
        invariant bitlist[..] == SetAll(before, xs[..i])
        invariant revoked == was + Positions(n, xs[..i])
      {
        var done := Revoke(xs[i]);
        if !done {
          assert i == k;
          return false;
        }
        ghost var prefix := xs[..i + 1];
        assert prefix[..i] == xs[..i] && prefix[i] == xs[i];
        i := i + 1;
      }
      assert xs[..i] == xs;
      return true;
    }
  }
}

/** Scenarios proved from the contracts of RevocationList alone: the revoke-then-query test of tests/test_revoke.py, and two lists sharing one array. */
module RevokeScenarios {
  import opened Wrappers
  import opened Revoke

  method SetCheck() {
    var nl := new RevocationList(None);
    var n := nl.Size();
    assert n == 131072;

    var r := nl.IsRevoked(54);
    assert r == Some(false);
    var ok := nl.Revoke(54);
    r := nl.IsRevoked(54);
    assert ok && r == Some(true);

    r := nl.IsRevoked(10320);
    assert r == Some(false);
    ok := nl.Revoke(10320);
    r := nl.IsRevoked(10320);
    assert ok && r == Some(true);
    r := nl.IsRevoked(54);
    assert r == Some(true);
  }

  /** Two lists built on one array: a revoke through one is seen by a query through the other. */
  method SharedArray(rid: int)
    requires -8 <= rid < 8
  {
    var a := new bv8[1];
    var first := new RevocationList(Some(a));
    var second := new RevocationList(Some(a));
    ghost var before := a[..];
    var ok := first.Revoke(rid);
    ghost var p := Position(1, rid).value;
    SetBitEffect(before, p, p);
    var r := second.IsRevoked(rid);
    assert ok && r == Some(true);
  }
}
