/** Keyed hashing over an abstract hash function (lib/hmac.c; section 2 of RFC 2104). */
module Hmac {
  import opened Wrappers

  const IPAD: bv8 := 0x36
  const OPAD: bv8 := 0x5C

  /** A hash function, its block size and the size of its digest. */
  datatype Params = Params(hash: seq<bv8> -> seq<bv8>, maxKeyLen: nat, resultLen: nat)

  /** The digest has a fixed size that fits into a block. */
  ghost predicate Good(p: Params) {
    p.resultLen <= p.maxKeyLen && forall m :: |p.hash(m)| == p.resultLen
  }

  function Zeros(n: nat): seq<bv8> { seq(n, i => 0) }

  /** The key as a block: long keys are hashed first, short ones filled up with zeros. */
  function BlockKey(p: Params, key: seq<bv8>): (k: seq<bv8>)
    requires Good(p)
    ensures |k| == p.maxKeyLen
  {
    var k := if |key| > p.maxKeyLen then p.hash(key) else key;
    k + Zeros(p.maxKeyLen - |k|)
  }

  function XorAll(k: seq<bv8>, pad: bv8): (r: seq<bv8>)
    ensures |r| == |k|
  {
    seq(|k|, i requires 0 <= i < |k| => k[i] ^ pad)
  }

  /** H((K xor opad) || H((K xor ipad) || message)). */
  function Mac(p: Params, key: seq<bv8>, message: seq<bv8>): seq<bv8>
    requires Good(p)
  {
    var k := BlockKey(p, key);
    p.hash(XorAll(k, OPAD) + p.hash(XorAll(k, IPAD) + message))
  }

  /** A hash computation in progress; what was fed to it is all that it depends on. */
  class HashContext {
    var fed: seq<bv8>

    constructor ()
      ensures fed == []
    {
      fed := [];
    }

    method Init()
      modifies this
      ensures fed == []
    {
      fed := [];
    }

    method Update(data: seq<bv8>)
      modifies this
      ensures fed == old(fed) + data
    {
      fed := fed + data;
    }

    method Final(p: Params) returns (digest: seq<bv8>)
      modifies this
      ensures digest == p.hash(old(fed))
    {
      digest := p.hash(fed);
      fed := [];
    }
  }

  lemma XorAt(k: seq<bv8>, pad: bv8, j: nat)
    requires j < |k|
    ensures XorAll(k, pad)[j] == k[j] ^ pad
  {
  }

  lemma XorSnoc(k: seq<bv8>, i: nat, pad: bv8)
    requires i < |k|
    ensures XorAll(k[..i + 1], pad) == XorAll(k[..i], pad) + [k[i] ^ pad]
  {
    var a, b := XorAll(k[..i + 1], pad), XorAll(k[..i], pad) + [k[i] ^ pad];
    forall j | 0 <= j < |a|
      ensures a[j] == b[j]
    {
      XorAt(k[..i + 1], pad, j);
      if j < i {
        XorAt(k[..i], pad, j);
      }
    }
  }

  lemma ZeroXor(pad: bv8)
    ensures 0 ^ pad == pad
  {
  }

  /** Feeds the key, byte by byte and filled up with zeros, to both contexts. */
  method Prime(inner: HashContext, outer: HashContext, hkey: seq<bv8>, maxKeyLen: nat)
    requires inner != outer && |hkey| <= maxKeyLen
    modifies inner, outer
    ensures inner.fed == XorAll(hkey + Zeros(maxKeyLen - |hkey|), IPAD)
    ensures outer.fed == XorAll(hkey + Zeros(maxKeyLen - |hkey|), OPAD)
  {
    ghost var full := hkey + Zeros(maxKeyLen - |hkey|);
    assert XorAll(full[..0], IPAD) == XorAll(full[..0], OPAD) == [];
    ZeroXor(IPAD);
    ZeroXor(OPAD);
    hide XorAll;
    inner.Init();
    outer.Init();
    var i := 0;
    while i < |hkey|
      invariant i <= |hkey| && inner.fed == XorAll(full[..i], IPAD) && outer.fed == XorAll(full[..i], OPAD)
    {
      XorSnoc(full, i, IPAD);
      XorSnoc(full, i, OPAD);
      inner.Update([hkey[i] ^ IPAD]);
      outer.Update([hkey[i] ^ OPAD]);
      i := i + 1;
    }
    while i < maxKeyLen
      invariant |hkey| <= i <= maxKeyLen
      invariant inner.fed == XorAll(full[..i], IPAD) && outer.fed == XorAll(full[..i], OPAD)
    {
      XorSnoc(full, i, IPAD);
      XorSnoc(full, i, OPAD);
      inner.Update([IPAD]);
      outer.Update([OPAD]);
      i := i + 1;
    }
    assert full[..i] == full;
  }

  class HmacContext {
    const params: Params
    const inner: HashContext
    const outer: HashContext
    /** The key, and the message so far. */
    ghost const key: seq<bv8>
    ghost var message: seq<bv8>

    ghost predicate Valid()
      reads this, inner, outer
    {
      && Good(params) && inner != outer
      && inner.fed == XorAll(BlockKey(params, key), IPAD) + message
      && outer.fed == XorAll(BlockKey(params, key), OPAD)
    }

    constructor (p: Params, k: seq<bv8>)
      requires Good(p)
      ensures Valid() && params == p && key == k && message == [] && fresh(inner) && fresh(outer)
    {
      params := p;
      key := k;
      message := [];
      inner := new HashContext();
      outer := new HashContext();
      new;
      var hkey := k;
      if |k| > p.maxKeyLen {
        inner.Init();
        inner.Update(k);
        assert inner.fed == k;
        hkey := inner.Final(p);
      }
      Prime(inner, outer, hkey, p.maxKeyLen);
      assert inner.fed == inner.fed + [];
    }

    method Update(data: seq<bv8>)
      requires Valid()
      modifies this`message, inner
      ensures Valid() && message == old(message) + data
    {
      inner.Update(data);
      message := message + data;
    }

    /** The digest of everything that was fed; the context is used up. */
    method Final() returns (result: seq<bv8>)
      requires Valid()
      modifies inner, outer
      ensures result == Mac(params, key, message)
    {
      result := inner.Final(params);
      outer.Update(result);
      result := outer.Final(params);
    }
  }

  /** However a message is split over calls, the result is that of the whole message. */
  method Digest(p: Params, key: seq<bv8>, chunks: seq<seq<bv8>>) returns (result: seq<bv8>)
    requires Good(p)
    ensures result == Mac(p, key, Flatten(chunks))
  {
    var ctxt := new HmacContext(p, key);
    var i := 0;
    assert chunks[i..] == chunks;
    while i < |chunks|
      invariant i <= |chunks| && ctxt.Valid() && fresh(ctxt) && fresh(ctxt.inner) && fresh(ctxt.outer)
      invariant ctxt.params == p && ctxt.key == key
      invariant ctxt.message + Flatten(chunks[i..]) == Flatten(chunks)
    {
      assert chunks[i..][1..] == chunks[i + 1..];
      ctxt.Update(chunks[i]);
      i := i + 1;
    }
    assert chunks[i..] == [];
    assert ctxt.message == Flatten(chunks);
    result := ctxt.Final();
  }
}
