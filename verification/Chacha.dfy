/**
 The counter-nonce cipher under every encrypted transport.

 The AEAD itself is a parameter. `Sound` is the only thing ever asked of it: opening undoes
 sealing and a sealed text is sixteen bytes longer.
 */
module Chacha {
  import opened Bytes
  import opened Wrappers

  type Key = seq<byte>
  const NONCE_LENGTH: nat := 12
  const AUTH_TAG_LENGTH: nat := 16

  datatype Aead = Aead(seal: (Key, seq<byte>, seq<byte>, seq<byte>) -> Option<seq<byte>>,
                       open: (Key, seq<byte>, seq<byte>, seq<byte>) -> Option<seq<byte>>)

  ghost predicate Sound(a: Aead) {
    forall k, n, data, aad :: a.seal(k, n, data, aad).Some? ==>
      && |a.seal(k, n, data, aad).value| == |data| + AUTH_TAG_LENGTH
      && a.open(k, n, a.seal(k, n, data, aad).value, aad) == Some(data)
  }

  datatype Error = AeadFailed | CounterExhausted

  // ----- Nonces ----------------------------------------------------------------------

  datatype NonceLayout = PaddedCounter | BareCounter {
    function ZeroPrefixLen(): nat {
      match this
      case PaddedCounter => 4
      case BareCounter => 0
    }

    /** Twelve zero bytes with the counter copied over them after the prefix. */
    function Nonce(counter: u64): (n: seq<byte>)
      ensures |n| == NONCE_LENGTH
    {
      ZeroBytes(ZeroPrefixLen()) + Le(counter, 8) + ZeroBytes(NONCE_LENGTH - ZeroPrefixLen() - 8)
    }
  }

  /** Under either layout, different counters give different nonces. */
  lemma NonceInjective(layout: NonceLayout, a: u64, b: u64)
    ensures layout.Nonce(a) == layout.Nonce(b) <==> a == b
  {
    hide Le;
    var start := layout.ZeroPrefixLen();
    assert layout.Nonce(a)[start..start + 8] == Le(a, 8);
    assert layout.Nonce(b)[start..start + 8] == Le(b, 8);
    Pow256Values();
    LeRoundTrip(a, 8);
    LeRoundTrip(b, 8);
  }

  lemma {:induction false} LeOfZero(w: nat)
    ensures Le(0, w) == ZeroBytes(w)
  {
    if w == 0 {
    } else {
      LeOfZero(w - 1);
    }
  }

  lemma {:induction false} LeWiden(n: nat, w: nat, extra: nat)
    requires n < Pow256(w)
    ensures Le(n, w + extra) == Le(n, w) + ZeroBytes(extra)
  {
    if w == 0 {
      LeOfZero(extra);
    } else {
      LeWiden(n / 0x100, w - 1, extra);
    }
  }

  /** The bare layout is the counter as one twelve-byte little-endian number. */
  lemma BareNonceIsWideCounter(counter: u64)
    ensures BareCounter.Nonce(counter) == Le(counter, NONCE_LENGTH)
  {
    Pow256Values();
    LeWiden(counter, 8, 4);
    assert ZeroBytes(0) == [];
  }

  // ----- The cipher ------------------------------------------------------------------------

  datatype Cipher = Cipher(outKey: Key, inKey: Key, outCounter: u64, inCounter: u64, layout: NonceLayout) {
    function OutNonce(): seq<byte> {
      layout.Nonce(outCounter)
    }

    function InNonce(): seq<byte> {
      layout.Nonce(inCounter)
    }
  }

  function NextCounter(counter: u64): Result<u64, Error> {
    if counter == U64_LIMIT - 1 then Err(CounterExhausted) else Ok(counter + 1)
  }

  /** The outbound counter moves before the seal, so a failed seal still burns a nonce. */
  function Encrypted(a: Aead, c: Cipher, data: seq<byte>, aad: seq<byte>): (Cipher, Result<seq<byte>, Error>) {
    match NextCounter(c.outCounter)
    case Err(e) => (c, Err(e))
    case Ok(next) =>
      (c.(outCounter := next),
       match a.seal(c.outKey, c.OutNonce(), data, aad)
       case Some(ct) => Ok(ct)
       case None => Err(AeadFailed))
  }

  function Decrypted(a: Aead, c: Cipher, data: seq<byte>, aad: seq<byte>): (Cipher, Result<seq<byte>, Error>) {
    match NextCounter(c.inCounter)
    case Err(e) => (c, Err(e))
    case Ok(next) =>
      (c.(inCounter := next),
       match a.open(c.inKey, c.InNonce(), data, aad)
       case Some(pt) => Ok(pt)
       case None => Err(AeadFailed))
  }

  /** One direction of a link: what `tx` seals next is what `rx` opens next. */
  predicate InStep(tx: Cipher, rx: Cipher) {
    tx.outKey == rx.inKey && tx.outCounter == rx.inCounter && tx.layout == rx.layout
  }

  /** A sealed message opens on the other side, and the two stay in step. */
  lemma SealedOpens(a: Aead, tx: Cipher, rx: Cipher, data: seq<byte>, aad: seq<byte>)
    requires Sound(a) && InStep(tx, rx)
    requires Encrypted(a, tx, data, aad).1.Ok?
    ensures var (tx', ct) := Encrypted(a, tx, data, aad);
            var (rx', pt) := Decrypted(a, rx, ct.value, aad);
            pt == Ok(data) && InStep(tx', rx') && |ct.value| == |data| + AUTH_TAG_LENGTH
  {
  }

  class Chacha20Cipher {
    const aead: Aead
    const outKey: Key
    const inKey: Key
    const layout: NonceLayout
    var outCounter: u64
    var inCounter: u64

    function Now(): Cipher
      reads this
    {
      Cipher(outKey, inKey, outCounter, inCounter, layout)
    }

    constructor (aead: Aead, outKey: Key, inKey: Key, layout: NonceLayout)
      ensures this.aead == aead && Now() == Cipher(outKey, inKey, 0, 0, layout)
    {
      this.aead, this.outKey, this.inKey, this.layout := aead, outKey, inKey, layout;
      outCounter, inCounter := 0, 0;
    }

    method Encrypt(data: seq<byte>, aad: seq<byte>) returns (r: Result<seq<byte>, Error>)
      modifies this`outCounter
      ensures (Now(), r) == Encrypted(aead, old(Now()), data, aad)
    {
      var nonce := layout.Nonce(outCounter);
      outCounter :- NextCounter(outCounter);
      var sealed := aead.seal(outKey, nonce, data, aad);
      return if sealed.Some? then Ok(sealed.value) else Err(AeadFailed);
    }

    method Decrypt(data: seq<byte>, aad: seq<byte>) returns (r: Result<seq<byte>, Error>)
      modifies this`inCounter
      ensures (Now(), r) == Decrypted(aead, old(Now()), data, aad)
    {
      var nonce := layout.Nonce(inCounter);
      inCounter :- NextCounter(inCounter);
      var unsealed := aead.open(inKey, nonce, data, aad);
      return if unsealed.Some? then Ok(unsealed.value) else Err(AeadFailed);
    }
  }

  // ----- Nonce freshness over runs ------------------------------------------------------------

  /** One call on the cipher. */
  datatype Call = Encrypt(data: seq<byte>, aad: seq<byte>) | Decrypt(data: seq<byte>, aad: seq<byte>)

  function Step(a: Aead, c: Cipher, call: Call): Cipher {
    match call
    case Encrypt(data, aad) => Encrypted(a, c, data, aad).0
    case Decrypt(data, aad) => Decrypted(a, c, data, aad).0
  }

  /** The nonce a call hands to the seal operation, if it reaches it. */
  function SealNonce(c: Cipher, call: Call): seq<seq<byte>> {
    if call.Encrypt? && NextCounter(c.outCounter).Ok? then [c.OutNonce()] else []
  }

  /** The nonce a call hands to the open operation, if it reaches it. */
  function OpenNonce(c: Cipher, call: Call): seq<seq<byte>> {
    if call.Decrypt? && NextCounter(c.inCounter).Ok? then [c.InNonce()] else []
  }

  function Run(a: Aead, c: Cipher, calls: seq<Call>): Cipher
    decreases |calls|
  {
    if calls == [] then c else Run(a, Step(a, c, calls[0]), calls[1..])
  }

  function SealNonces(a: Aead, c: Cipher, calls: seq<Call>): seq<seq<byte>>
    decreases |calls|
  {
    if calls == [] then [] else SealNonce(c, calls[0]) + SealNonces(a, Step(a, c, calls[0]), calls[1..])
  }

  function OpenNonces(a: Aead, c: Cipher, calls: seq<Call>): seq<seq<byte>>
    decreases |calls|
  {
    if calls == [] then [] else OpenNonce(c, calls[0]) + OpenNonces(a, Step(a, c, calls[0]), calls[1..])
  }

  lemma StepCounts(a: Aead, c: Cipher, call: Call)
    ensures c.outCounter + |SealNonce(c, call)| < U64_LIMIT && c.inCounter + |OpenNonce(c, call)| < U64_LIMIT
    ensures Step(a, c, call) == c.(outCounter := c.outCounter + |SealNonce(c, call)|,
                                   inCounter := c.inCounter + |OpenNonce(c, call)|)
    ensures SealNonce(c, call) == [] || SealNonce(c, call) == [c.layout.Nonce(c.outCounter)]
    ensures OpenNonce(c, call) == [] || OpenNonce(c, call) == [c.layout.Nonce(c.inCounter)]
  {
  }

  /** The nonces of the counters from `start` on, none of them the very last counter. */
  ghost predicate Consecutive(layout: NonceLayout, start: nat, nonces: seq<seq<byte>>) {
    start + |nonces| < U64_LIMIT
    && forall i :: 0 <= i < |nonces| ==> nonces[i] == layout.Nonce(start + i)
  }

  /** A run uses consecutive counters from where it started, and stops at the last one. */
  lemma {:induction false} RunCounts(a: Aead, c: Cipher, calls: seq<Call>)
    ensures var sealed, unsealed, end := SealNonces(a, c, calls), OpenNonces(a, c, calls), Run(a, c, calls);
            && end == c.(outCounter := end.outCounter, inCounter := end.inCounter)
            && end.outCounter == c.outCounter + |sealed|
            && end.inCounter == c.inCounter + |unsealed|
            && Consecutive(c.layout, c.outCounter, sealed)
            && Consecutive(c.layout, c.inCounter, unsealed)
    decreases |calls|
  {
    hide Step, SealNonce, OpenNonce, NonceLayout.Nonce;
    if calls == [] {
    } else {
      hide Consecutive;
      var c1 := Step(a, c, calls[0]);
      StepCounts(a, c, calls[0]);
      RunCounts(a, c1, calls[1..]);
      Shifted(c.layout, c.outCounter, SealNonce(c, calls[0]), SealNonces(a, c1, calls[1..]));
      Shifted(c.layout, c.inCounter, OpenNonce(c, calls[0]), OpenNonces(a, c1, calls[1..]));
      assert Run(a, c, calls) == Run(a, c1, calls[1..]);
    }
  }

  lemma Shifted(layout: NonceLayout, start: nat, first: seq<seq<byte>>, rest: seq<seq<byte>>)
    requires start < U64_LIMIT && (first == [] || first == [layout.Nonce(start)])
    requires Consecutive(layout, start + |first|, rest)
    ensures Consecutive(layout, start, first + rest)
  {
    hide NonceLayout.Nonce;
    forall i | 0 <= i < |first + rest|
      ensures (first + rest)[i] == layout.Nonce(start + i)
    {
      if i >= |first| {
        assert (first + rest)[i] == rest[i - |first|];
      }
    }
  }

  /**
   Over any run of calls, failing ones included, no two seals and no two opens under this
   cipher's keys use the same nonce, and an exhausted counter refuses rather than wraps.
   */
  lemma NoncesNeverRepeat(a: Aead, c: Cipher, calls: seq<Call>)
    ensures var sealed := SealNonces(a, c, calls); forall i, j :: 0 <= i < j < |sealed| ==> sealed[i] != sealed[j]
    ensures var unsealed := OpenNonces(a, c, calls); forall i, j :: 0 <= i < j < |unsealed| ==> unsealed[i] != unsealed[j]
  {
    hide NonceLayout.Nonce;
    RunCounts(a, c, calls);
    var sealed, unsealed := SealNonces(a, c, calls), OpenNonces(a, c, calls);
    forall i, j | 0 <= i < j < |sealed|
      ensures sealed[i] != sealed[j]
    {
      NonceInjective(c.layout, c.outCounter + i, c.outCounter + j);
    }
    forall i, j | 0 <= i < j < |unsealed|
      ensures unsealed[i] != unsealed[j]
    {
      NonceInjective(c.layout, c.inCounter + i, c.inCounter + j);
    }
  }

  function CountEncrypts(calls: seq<Call>): nat {
    if calls == [] then 0 else (if calls[0].Encrypt? then 1 else 0) + CountEncrypts(calls[1..])
  }

  /** Exactly the encrypts that fit below the last counter value reach the seal operation. */
  lemma {:induction false} SealsUntilExhausted(a: Aead, c: Cipher, calls: seq<Call>)
    ensures var left := U64_LIMIT - 1 - c.outCounter;
            |SealNonces(a, c, calls)| == if CountEncrypts(calls) < left then CountEncrypts(calls) else left
    decreases |calls|
  {
    if calls == [] {
    } else {
      SealsUntilExhausted(a, Step(a, c, calls[0]), calls[1..]);
    }
  }
}
