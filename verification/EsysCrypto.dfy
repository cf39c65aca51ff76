/** The functions of esys_crypto.c that drive a hash or HMAC context from start to finish. */
module EsysCrypto {
  import opened Tss
  import opened Bytes
  import opened Primitives
  import opened ContextMachine
  import opened Backends
  import opened CryptoBackend
  import opened Sessions
  import opened AuthMessages
  import opened Kdf

  /** The updates of iesys_crypto_pHash in order, up to the first that fails. */
  method FeedPHash(cb: Backend, ctx: Option<Handle>, p: PHashParts, ghost t: nat, ghost before: State, ghost s: Session)
    returns (rc: RC)
    requires cb.Valid() && Feeding(cb, t, before, s, 0, [])
    requires s.kind == HashKind && s.updates == PHashUpdates(p) && ctx == Some(before.next)
    modifies cb
    ensures cb.Valid()
    ensures rc == Success ==> Feeding(cb, t, before, s, s.updates, PHashMessage(p))
    ensures rc != Success ==> AtError(cb, t, before, s, rc, ctx)
  {
    hide Feeding, AtError, Backend.Valid;
    ghost var n, msg := OptCount(p.rc), Opt(p.rc);
    assert [] + msg == msg;
    rc := FeedOpt(cb, HashKind, ctx, p.rc, t, before, s, 0, []);
    if rc != Success {
      return;
    }
    rc := Feed(cb, HashKind, ctx, p.cc, t, before, s, n, msg);
    if rc != Success {
      return;
    }
    n, msg := n + 1, msg + p.cc;
    rc := FeedOpt(cb, HashKind, ctx, p.name1, t, before, s, n, msg);
    if rc != Success {
      return;
    }
    n, msg := n + OptCount(p.name1), msg + Opt(p.name1);
    rc := FeedOpt(cb, HashKind, ctx, p.name2, t, before, s, n, msg);
    if rc != Success {
      return;
    }
    n, msg := n + OptCount(p.name2), msg + Opt(p.name2);
    rc := FeedOpt(cb, HashKind, ctx, p.name3, t, before, s, n, msg);
    if rc != Success {
      return;
    }
    n, msg := n + OptCount(p.name3), msg + Opt(p.name3);
    rc := Feed(cb, HashKind, ctx, p.buffer, t, before, s, n, msg);
  }

  /** iesys_crypto_pHash; the buffer is only written within the size claimed for it. */
  method PHash(cb: Backend, alg: AlgId, rcBuffer: Option<seq<byte>>, ccBuffer: Option<seq<byte>>,
               name1: Option<seq<byte>>, name2: Option<seq<byte>>, name3: Option<seq<byte>>,
               pBuffer: Option<seq<byte>>, pHash: array?<byte>, pHashSize: Option<nat>)
    returns (rc: RC, size': Option<nat>)
    requires cb.Valid()
    requires (rcBuffer.Some? ==> |rcBuffer.value| == 4) && (ccBuffer.Some? ==> |ccBuffer.value| == 4)
    requires pHash != null && pHashSize.Some? ==> pHashSize.value <= pHash.Length
    modifies cb, pHash
    ensures cb.Valid() && (cb.Bound(HashKind, AbortOp) ==> cb.live == old(cb.live))
    ensures ccBuffer.None? || pBuffer.None? || pHash == null || pHashSize.None? ==>
              rc == BadReference && cb.live == old(cb.live) && (pHash != null ==> pHash[..] == old(pHash[..]))
    ensures ccBuffer.Some? && pBuffer.Some? && pHash != null && pHashSize.Some? ==>
              var parts := PHashParts(rcBuffer, ccBuffer.value, name1, name2, name3, pBuffer.value);
              var session := Session(HashKind, alg, None, PHashUpdates(parts), pHashSize, HashKind);
              && Done(cb, old(cb.tick), old(cb.State()), session, rc)
              && (rc == Success ==>
                    var digest := cb.env.crypto.hash(alg,
                      Opt(rcBuffer) + ccBuffer.value + Opt(name1) + Opt(name2) + Opt(name3) + pBuffer.value);
                    && size' == DigestSize(alg) == Some(|digest|)
                    && |digest| <= pHash.Length && pHash[..] == Splice(old(pHash[..]), 0, digest))
              && (rc != Success ==> SameOutside(old(pHash[..]), pHash[..], 0, pHashSize.value))
  {
    hide Feeding, AtError, Done, Backend.Valid;
    size' := pHashSize;
    if ccBuffer.None? || pBuffer.None? || pHash == null || pHashSize.None? {
      return BadReference, pHashSize;
    }
    var parts := PHashParts(rcBuffer, ccBuffer.value, name1, name2, name3, pBuffer.value);
    ghost var s := Session(HashKind, alg, None, PHashUpdates(parts), pHashSize, HashKind);
    ghost var t, before := cb.tick, cb.State();
    var ctx;
    rc, ctx := Begin(cb, HashKind, alg, None, s);
    if rc != Success {
      return;
    }
    label error: {
      rc := FeedPHash(cb, ctx, parts, t, before, s);
      if rc != Success {
        break error;
      }
      rc, ctx, size' := End(cb, HashKind, ctx, pHash, 0, pHashSize, t, before, s, PHashMessage(parts));
      if rc != Success {
        break error;
      }
      return;
    }
    Quit(cb, HashKind, ctx, t, before, s, rc);
  }

  /** The updates of iesys_crypto_authHmac in order, up to the first that fails. */
  method FeedAuth(cb: Backend, ctx: Option<Handle>, p: AuthParts, ghost t: nat, ghost before: State, ghost s: Session)
    returns (rc: RC)
    requires cb.Valid() && Feeding(cb, t, before, s, 0, [])
    requires s.kind == HmacKind && s.updates == AuthUpdates(p) && ctx == Some(before.next)
    modifies cb
    ensures cb.Valid()
    ensures rc == Success ==> Feeding(cb, t, before, s, s.updates, AuthMessage(p))
    ensures rc != Success ==> AtError(cb, t, before, s, rc, ctx)
  {
    hide Feeding, AtError, Backend.Valid;
    ghost var n, msg := 1, p.pHash;
    assert [] + msg == msg;
    rc := Feed(cb, HmacKind, ctx, p.pHash, t, before, s, 0, []);
    if rc != Success {
      return;
    }
    rc := Feed(cb, HmacKind, ctx, p.newer, t, before, s, n, msg);
    if rc != Success {
      return;
    }
    n, msg := n + 1, msg + p.newer;
    rc := Feed(cb, HmacKind, ctx, p.older, t, before, s, n, msg);
    if rc != Success {
      return;
    }
    n, msg := n + 1, msg + p.older;
    rc := FeedOpt(cb, HmacKind, ctx, p.decrypt, t, before, s, n, msg);
    if rc != Success {
      return;
    }
    n, msg := n + OptCount(p.decrypt), msg + Opt(p.decrypt);
    rc := FeedOpt(cb, HmacKind, ctx, p.encrypt, t, before, s, n, msg);
    if rc != Success {
      return;
    }
    n, msg := n + OptCount(p.encrypt), msg + Opt(p.encrypt);
    rc := Feed(cb, HmacKind, ctx, [p.attributes], t, before, s, n, msg);
  }

  /** iesys_crypto_authHmac. hmac and hmacSize are the buffer and size of the TPM2B_AUTH; the error
      label calls the hash abort although the context is an HMAC context. */
  method AuthHmac(cb: Backend, alg: AlgId, hmacKey: Option<seq<byte>>, pHash: Option<seq<byte>>,
                  nonceNewer: Option<seq<byte>>, nonceOlder: Option<seq<byte>>,
                  nonceDecrypt: Option<seq<byte>>, nonceEncrypt: Option<seq<byte>>,
                  sessionAttributes: byte, hmac: array?<byte>, hmacSize: uint16)
    returns (rc: RC, size': nat)
    requires cb.Valid()
    requires hmac != null ==> hmacSize <= hmac.Length
    modifies cb, hmac
    ensures cb.Valid()
    ensures hmacKey.None? || pHash.None? || nonceNewer.None? || nonceOlder.None? || hmac == null ==>
              rc == BadReference && cb.live == old(cb.live) && (hmac != null ==> hmac[..] == old(hmac[..]))
    ensures hmacKey.Some? && pHash.Some? && nonceNewer.Some? && nonceOlder.Some? && hmac != null ==>
              var parts := AuthParts(pHash.value, nonceNewer.value, nonceOlder.value,
                                     nonceDecrypt, nonceEncrypt, sessionAttributes);
              var session := Session(HmacKind, alg, hmacKey, AuthUpdates(parts), Some(hmacSize), HashKind);
              && Done(cb, old(cb.tick), old(cb.State()), session, rc)
              && (rc == Success ==>
                    var digest := cb.env.crypto.hmac(alg, hmacKey.value,
                      pHash.value + nonceNewer.value + nonceOlder.value + Opt(nonceDecrypt) + Opt(nonceEncrypt)
                      + [sessionAttributes]);
                    && Some(size') == DigestSize(alg) == Some(|digest|)
                    && |digest| <= hmac.Length && hmac[..] == Splice(old(hmac[..]), 0, digest))
              && (rc != Success ==> SameOutside(old(hmac[..]), hmac[..], 0, hmacSize))
  {
    hide Feeding, AtError, Done, Backend.Valid;
    size' := hmacSize;
    if hmacKey.None? || pHash.None? || nonceNewer.None? || nonceOlder.None? || hmac == null {
      return BadReference, hmacSize;
    }
    var parts := AuthParts(pHash.value, nonceNewer.value, nonceOlder.value,
                           nonceDecrypt, nonceEncrypt, sessionAttributes);
    ghost var s := Session(HmacKind, alg, hmacKey, AuthUpdates(parts), Some(hmacSize), HashKind);
    ghost var t, before := cb.tick, cb.State();
    var ctx;
    rc, ctx := Begin(cb, HmacKind, alg, hmacKey, s);
    if rc != Success {
      return;
    }
    label error: {
      rc := FeedAuth(cb, ctx, parts, t, before, s);
      if rc != Success {
        break error;
      }
      var size;
      rc, ctx, size := End(cb, HmacKind, ctx, hmac, 0, Some(hmacSize), t, before, s, AuthMessage(parts));
      if rc != Success {
        break error;
      }
      return rc, size.value;
    }
    Quit(cb, HashKind, ctx, t, before, s, rc);
  }

  // ---------------------------------------------------------------- key derivation

  /** The session that computes one block of a derivation. KDFe's error label calls the HMAC abort
      although the context is a hash context. */
  function BlockSession(src: Source, room: Option<nat>): Session {
    match src
    case KdfaInput(alg, key, _, _, _, _) => Session(HmacKind, alg, Some(key), UpdateCount(src), room, HmacKind)
    case KdfeInput(alg, _, _, _, _) => Session(HashKind, alg, None, UpdateCount(src), room, HmacKind)
  }

  /** What a pointer to a buffer leads to, nothing when it is NULL. */
  ghost function Content(buffer: array?<byte>): seq<byte>
    reads buffer
  {
    if buffer == null then [] else buffer[..]
  }

  /** The size with which a block is finished: a NULL buffer has none. */
  function RoomIn(buffer: array?<byte>, room: Option<nat>): Option<nat> {
    if buffer == null then None else room
  }

  /** The updates of iesys_crypto_KDFaHmac in order, up to the first that fails. */
  method FeedKdfa(cb: Backend, ctx: Option<Handle>, src: Source, counter: uint32,
                  ghost t: nat, ghost before: State, ghost s: Session)
    returns (rc: RC)
    requires cb.Valid() && Feeding(cb, t, before, s, 0, []) && src.KdfaInput?
    requires s.kind == HmacKind && s.updates == UpdateCount(src) && ctx == Some(before.next)
    modifies cb
    ensures cb.Valid()
    ensures rc == Success ==> Feeding(cb, t, before, s, s.updates, Message(src, counter))
    ensures rc != Success ==> AtError(cb, t, before, s, rc, ctx)
  {
    hide Feeding, AtError, Backend.Valid, Be32;
    ghost var n, msg := 1, Be32(counter);
    assert [] + msg == msg;
    rc := Feed(cb, HmacKind, ctx, Be32(counter), t, before, s, 0, []);
    if rc != Success {
      return;
    }
    rc := FeedOpt(cb, HmacKind, ctx, LabelPart(src.lab), t, before, s, n, msg);
    if rc != Success {
      return;
    }
    n, msg := n + OptCount(LabelPart(src.lab)), msg + LabelBytes(src.lab);
    rc := Feed(cb, HmacKind, ctx, src.u, t, before, s, n, msg);
    if rc != Success {
      return;
    }
    n, msg := n + 1, msg + src.u;
    rc := Feed(cb, HmacKind, ctx, src.v, t, before, s, n, msg);
    if rc != Success {
      return;
    }
    n, msg := n + 1, msg + src.v;
    rc := Feed(cb, HmacKind, ctx, Be32(src.bits), t, before, s, n, msg);
  }

  /** iesys_crypto_KDFaHmac, writing at hmac[off..] */
  method KDFaHmac(cb: Backend, alg: AlgId, hmacKey: Option<seq<byte>>, counter: uint32, lab: Option<CString>,
                  contextU: Option<seq<byte>>, contextV: Option<seq<byte>>, bits: uint32,
                  hmac: array?<byte>, off: nat, room: Option<nat>)
    returns (rc: RC, size': Option<nat>)
    requires cb.Valid()
    requires hmacKey.Some? && contextU.Some? && contextV.Some? && hmac != null && room.Some? ==>
               off + room.value <= hmac.Length
    modifies cb, hmac
    ensures cb.Valid() && (cb.Bound(HmacKind, AbortOp) ==> cb.live == old(cb.live))
    ensures hmacKey.None? || contextU.None? || contextV.None? ==>
              rc == BadReference && cb.State() == old(cb.State()) && (hmac != null ==> hmac[..] == old(hmac[..]))
    ensures hmacKey.Some? && contextU.Some? && contextV.Some? ==>
              var src := KdfaInput(alg, hmacKey.value, lab, contextU.value, contextV.value, bits);
              var digest := Block(cb.env.crypto, src, counter);
              && Done(cb, old(cb.tick), old(cb.State()), BlockSession(src, RoomIn(hmac, room)), rc)
              && (rc == Success ==>
                    && size' == DigestSize(alg) == Some(|digest|) && hmac != null && off + |digest| <= hmac.Length
                    && digest == cb.env.crypto.hmac(alg, hmacKey.value,
                         Be32(counter) + (if lab.Some? then lab.value + [0] else [])
                         + contextU.value + contextV.value + Be32(bits))
                    && hmac[..] == Splice(old(hmac[..]), off, digest))
              && (rc != Success && hmac != null ==> SameOutside(old(hmac[..]), hmac[..], off, SizeOrZero(room)))
  {
    hide Feeding, AtError, Done, Backend.Valid, Message;
    size' := room;
    if hmacKey.None? || contextU.None? || contextV.None? {
      return BadReference, room;
    }
    var src := KdfaInput(alg, hmacKey.value, lab, contextU.value, contextV.value, bits);
    KdfaBlock(cb.env.crypto, src, counter);
    ghost var s := BlockSession(src, RoomIn(hmac, room));
    ghost var t, before := cb.tick, cb.State();
    var ctx;
    rc, ctx := Begin(cb, HmacKind, alg, hmacKey, s);
    if rc != Success {
      return;
    }
    label error: {
      rc := FeedKdfa(cb, ctx, src, counter, t, before, s);
      if rc != Success {
        break error;
      }
      rc, ctx, size' := End(cb, HmacKind, ctx, hmac, off, room, t, before, s, Message(src, counter));
      if rc != Success {
        break error;
      }
      return;
    }
    Quit(cb, HmacKind, ctx, t, before, s, rc);
  }

  /** The updates of one round of iesys_crypto_KDFe in order, up to the first that fails. */
  method FeedKdfe(cb: Backend, ctx: Option<Handle>, src: Source, counter: uint32,
                  ghost t: nat, ghost before: State, ghost s: Session)
    returns (rc: RC)
    requires cb.Valid() && Feeding(cb, t, before, s, 0, []) && src.KdfeInput?
    requires s.kind == HashKind && s.updates == UpdateCount(src) && ctx == Some(before.next)
    modifies cb
    ensures cb.Valid()
    ensures rc == Success ==> Feeding(cb, t, before, s, s.updates, Message(src, counter))
    ensures rc != Success ==> AtError(cb, t, before, s, rc, ctx)
  {
    hide Feeding, AtError, Backend.Valid, Be32;
    ghost var n, msg := 1, Be32(counter);
    assert [] + msg == msg;
    rc := Feed(cb, HashKind, ctx, Be32(counter), t, before, s, 0, []);
    if rc != Success {
      return;
    }
    rc := FeedOpt(cb, HashKind, ctx, src.z, t, before, s, n, msg);
    if rc != Success {
      return;
    }
    n, msg := n + OptCount(src.z), msg + Opt(src.z);
    rc := FeedOpt(cb, HashKind, ctx, LabelPart(src.lab), t, before, s, n, msg);
    if rc != Success {
      return;
    }
    n, msg := n + OptCount(LabelPart(src.lab)), msg + LabelBytes(src.lab);
    rc := FeedOpt(cb, HashKind, ctx, src.partyU, t, before, s, n, msg);
    if rc != Success {
      return;
    }
    n, msg := n + OptCount(src.partyU), msg + Opt(src.partyU);
    rc := FeedOpt(cb, HashKind, ctx, src.partyV, t, before, s, n, msg);
  }

  /** One round of iesys_crypto_KDFe, writing at key[off..] */
  method KDFeRound(cb: Backend, src: Source, counter: uint32, key: array?<byte>, off: nat, room: nat)
    returns (rc: RC, size': nat)
    requires cb.Valid() && src.KdfeInput? && (key != null ==> off + room <= key.Length)
    modifies cb, key
    ensures cb.Valid()
    ensures Done(cb, old(cb.tick), old(cb.State()), BlockSession(src, RoomIn(key, Some(room))), rc)
    ensures rc == Success ==>
              var digest := Block(cb.env.crypto, src, counter);
              && Some(size') == DigestSize(src.alg) == Some(|digest|) && key != null && off + |digest| <= key.Length
              && digest == cb.env.crypto.hash(src.alg,
                   Be32(counter) + Opt(src.z) + (if src.lab.Some? then src.lab.value + [0] else [])
                   + Opt(src.partyU) + Opt(src.partyV))
              && key[..] == Splice(old(key[..]), off, digest)
    ensures rc != Success ==> SameOutside(old(Content(key)), Content(key), off, room)
  {
    hide Feeding, AtError, Done, Backend.Valid, Message;
    size' := room;
    KdfeBlock(cb.env.crypto, src, counter);
    ghost var s := BlockSession(src, RoomIn(key, Some(room)));
    ghost var t, before := cb.tick, cb.State();
    var ctx;
    rc, ctx := Begin(cb, HashKind, src.alg, None, s);
    if rc != Success {
      return;
    }
    label error: {
      rc := FeedKdfe(cb, ctx, src, counter, t, before, s);
      if rc != Success {
        break error;
      }
      var size;
      rc, ctx, size := End(cb, HashKind, ctx, key, off, Some(room), t, before, s, Message(src, counter));
      if rc != Success {
        break error;
      }
      return rc, size.value;
    }
    Quit(cb, HmacKind, ctx, t, before, s, rc);
  }

  /** The clock when block i of a derivation begun at t is computed, all blocks before it done. */
  ghost function BlockTime(e: Env, t: nat, s: Session, i: nat): nat {
    t + i * SessionCost(e.flavour, s.kind, s.updates)
  }

  /** How a derivation of n blocks ended: done blocks were computed; if that is not all of them, block
      number done failed with rc. The context table is as before, except for what the failed block
      leaves behind. */
  ghost predicate Derived(cb: Backend, t: nat, before: State, s: Session, n: nat, done: nat, rc: RC)
    reads cb
  {
    && done <= n
    && (forall i :: 0 <= i < done ==> SessionRc(cb.env, BlockTime(cb.env, t, s, i), s) == Success)
    && (rc == Success <==> done == n)
    && if done == n then
         cb.State() == State(before.live, before.next + n) && cb.tick == BlockTime(cb.env, t, s, n)
       else
         Done(cb, BlockTime(cb.env, t, s, done), State(before.live, before.next + done), s, rc)
  }

  /** done blocks of the derivation have been computed, all well so far, and this is the state now. */
  ghost predicate Deriving(e: Env, t: nat, before: State, s: Session, done: nat, now: State, tick: nat)
  {
    && (forall i :: 0 <= i < done ==> SessionRc(e, BlockTime(e, t, s, i), s) == Success)
    && now == State(before.live, before.next + done)
    && tick == BlockTime(e, t, s, done)
  }

  lemma OneMoreBlock(cb: Backend, t: nat, before: State, s: Session, n: nat, done: nat, now: State, tick: nat, rc: RC)
    requires done < n
    requires Deriving(cb.env, t, before, s, done, now, tick)
    requires Done(cb, tick, now, s, rc)
    ensures rc == Success ==> Deriving(cb.env, t, before, s, done + 1, cb.State(), cb.tick)
    ensures rc != Success ==> Derived(cb, t, before, s, n, done, rc)
  {
    hide SessionRc, Leaks, StartedRc;
    assert BlockTime(cb.env, t, s, done + 1)
        == BlockTime(cb.env, t, s, done) + SessionCost(cb.env.flavour, s.kind, s.updates);
    if rc == Success {
      SuccessLeavesNothing(cb.env, tick, s);
    }
  }

  lemma SuccessLeavesNothing(e: Env, t: nat, s: Session)
    requires SessionRc(e, t, s) == Success
    ensures !Leaks(e, t, s) && StartedRc(e, t, s.kind, s.alg, s.key) == Success
  {
  }

  /** Where block j begins in the output. */
  function Offset(j: nat, h: nat): nat {
    j * h
  }

  /** The output buffer when done of n blocks were computed: those blocks are in place and nothing
      outside the block being written is touched; when all are done the first byte is masked. */
  ghost predicate Filled(c: Crypto, src: Source, c0: uint32, bytes: nat, bits: nat, done: nat, before: seq<byte>,
                         after: seq<byte>)
    requires Supported(src)
  {
    var h := HLen(src);
    if done == Blocks(bytes, h) then
      && Offset(Blocks(bytes, h), h) <= |before|
      && after == Splice(before, 0, Output(c, src, c0, bytes, bits))
    else
      && |Stream(c, src, c0, done)| == Offset(done, h) <= |before|
      && SameOutside(Splice(before, 0, Stream(c, src, c0, done)), after, Offset(done, h), h)
  }

  /** The fill loop of iesys_crypto_KDFa, for a key of the given number of bytes. */
  method FillKdfa(cb: Backend, alg: AlgId, hmacKey: Option<seq<byte>>, lab: Option<CString>,
                  contextU: Option<seq<byte>>, contextV: Option<seq<byte>>, bits: uint32, c0: uint32,
                  outKey: array?<byte>, size: nat)
    returns (rc: RC, counter: uint32, ghost done: nat)
    requires cb.Valid() && DigestSize(alg).Some?
    requires hmacKey.Some? && contextU.Some? && contextV.Some? && outKey != null ==>
               outKey.Length >= Offset(Blocks(size, DigestSize(alg).value), DigestSize(alg).value)
    modifies cb, outKey
    ensures cb.Valid() && (cb.Bound(HmacKind, AbortOp) ==> cb.live == old(cb.live))
    ensures hmacKey.None? || contextU.None? || contextV.None? ==>
              rc == BadReference && cb.State() == old(cb.State()) && Content(outKey) == old(Content(outKey))
    ensures hmacKey.Some? && contextU.Some? && contextV.Some? ==>
              var src := KdfaInput(alg, hmacKey.value, lab, contextU.value, contextV.value, bits);
              var s := BlockSession(src, RoomIn(outKey, DigestSize(alg)));
              var n := Blocks(size, DigestSize(alg).value);
              && (rc != Success ==>
                    && Derived(cb, old(cb.tick), old(cb.State()), s, n, done, rc)
                    && (outKey == null ==> done == 0)
                    && Filled(cb.env.crypto, src, c0, size, bits, done, old(Content(outKey)), Content(outKey)))
              && (rc == Success ==>
                    && done == n && counter == (c0 + n) % TWO32 && outKey != null
                    && Deriving(cb.env, old(cb.tick), old(cb.State()), s, n, cb.State(), cb.tick)
                    && |Stream(cb.env.crypto, src, c0, n)| <= outKey.Length
                    && outKey[..] == Splice(old(outKey[..]), 0, Stream(cb.env.crypto, src, c0, n)))
  {
    hide Offset, Done, Deriving, Derived, Filled, Stream, Splice, SameOutside;
    hide Backend.Valid, Block, CounterAt, BlockSession, DigestSize;
    var hlen: nat := DigestSize(alg).value;
    var bytes: nat, subKey: nat := size, 0;
    counter, done := c0, 0;
    ghost var h, n := hlen, Blocks(size, hlen);
    ghost var src := KdfaInput(alg, Opt(hmacKey), lab, Opt(contextU), Opt(contextV), bits);
    ghost var s := BlockSession(src, RoomIn(outKey, DigestSize(alg)));
    ghost var t, before, buffer := cb.tick, cb.State(), Content(outKey);
    NothingDerived(cb, t, s, h);
    EmptyStream(cb.env.crypto, src, c0, buffer);
    while true
      invariant cb.Valid() && Deriving(cb.env, t, before, s, done, cb.State(), cb.tick)
      invariant cb.Bound(HmacKind, AbortOp) ==> cb.live == before.live
      invariant hlen == h && subKey == Offset(done, h) && Blocks(bytes, h) == n - done
      invariant counter == (c0 + done) % TWO32
      invariant |Stream(cb.env.crypto, src, c0, done)| == subKey <= |buffer|
      invariant Content(outKey) == Splice(buffer, 0, Stream(cb.env.crypto, src, c0, done))
      invariant done > 0 ==> hmacKey.Some? && contextU.Some? && contextV.Some? && outKey != null
      invariant done == 0 ==> cb.State() == before && Content(outKey) == buffer
      decreases bytes
    {
      RoomForBlock(done, n, h);
      counter := (counter + 1) % TWO32;
      NextCounter(c0, done);
      ghost var now, tick := cb.State(), cb.tick;
      var out;
      rc, out := KDFaHmac(cb, alg, hmacKey, counter, lab, contextU, contextV, bits, outKey, subKey, Some(hlen));
      if hmacKey.Some? && contextU.Some? && contextV.Some? {
        OneMoreBlock(cb, t, before, s, n, done, now, tick, rc);
      }
      if rc != Success {
        if hmacKey.Some? && contextU.Some? && contextV.Some? {
          PartlyFilled(cb.env.crypto, src, c0, size, bits, done, buffer, Content(outKey));
        }
        return;
      }
      StreamStep(cb.env.crypto, src, c0, done, buffer);
      hlen, done := out.value, done + 1;
      if bytes <= hlen {
        break;
      }
      subKey, bytes := subKey + hlen, bytes - hlen;
    }
  }

  /** iesys_crypto_KDFa. done is the number of blocks computed. */
  method KDFa(cb: Backend, alg: AlgId, hmacKey: Option<seq<byte>>, lab: Option<CString>,
              contextU: Option<seq<byte>>, contextV: Option<seq<byte>>, bits: uint32,
              counterInOut: Option<uint32>, outKey: array?<byte>, useDigestSize: bool)
    returns (rc: RC, counterInOut': Option<uint32>, ghost done: nat)
    requires cb.Valid()
    requires DigestSize(alg).Some? && hmacKey.Some? && contextU.Some? && contextV.Some? && outKey != null ==>
               outKey.Length >= Offset(KdfaBlocks(alg, bits, useDigestSize), DigestSize(alg).value)
    modifies cb, outKey
    ensures cb.Valid() && (cb.Bound(HmacKind, AbortOp) ==> cb.live == old(cb.live))
    ensures DigestSize(alg).None? ==> rc == BadValue
    ensures DigestSize(alg).Some? && (hmacKey.None? || contextU.None? || contextV.None?) ==> rc == BadReference
    ensures DigestSize(alg).None? || hmacKey.None? || contextU.None? || contextV.None? ==>
              cb.State() == old(cb.State()) && Content(outKey) == old(Content(outKey)) && counterInOut' == counterInOut
    ensures DigestSize(alg).Some? && hmacKey.Some? && contextU.Some? && contextV.Some? ==>
              var src := KdfaInput(alg, hmacKey.value, lab, contextU.value, contextV.value, bits);
              var bytes := if useDigestSize then DigestSize(alg).value else Bytes32(bits);
              var n := Blocks(bytes, DigestSize(alg).value);
              var c0 := if counterInOut.Some? then counterInOut.value else 0;
              var session := BlockSession(src, RoomIn(outKey, DigestSize(alg)));
              && Derived(cb, old(cb.tick), old(cb.State()), session, n, done, rc)
              && Filled(cb.env.crypto, src, c0, bytes, bits, done, old(Content(outKey)), Content(outKey))
              && (outKey == null ==> done == 0 && rc != Success)
              && counterInOut' == (if rc == Success && counterInOut.Some? then Some((c0 + n) % TWO32) else counterInOut)
  {
    hide Offset, Deriving, Derived, Filled, Stream, Splice, Backend.Valid;
    hide BlockSession, LowMask, Bytes32, DigestSize, BitAnd;
    counterInOut', done := counterInOut, 0;
    if DigestSize(alg).None? {
      return BadValue, counterInOut, 0;
    }
    var c0: uint32 := if counterInOut.Some? then counterInOut.value else 0;
    var bytes: nat := if useDigestSize then DigestSize(alg).value else Bytes32(bits);
    ghost var src := KdfaInput(alg, Opt(hmacKey), lab, Opt(contextU), Opt(contextV), bits);
    ghost var t, before, buffer := cb.tick, cb.State(), Content(outKey);
    var counter;
    rc, counter, done := FillKdfa(cb, alg, hmacKey, lab, contextU, contextV, bits, c0, outKey, bytes);
    if rc != Success {
      return;
    }
    AllDerived(cb, t, before, BlockSession(src, RoomIn(outKey, DigestSize(alg))), done);
    AllFilled(cb.env.crypto, src, c0, bytes, bits, buffer);
    if bits % 8 != 0 {
      outKey[0] := BitAnd(outKey[0], LowMask(bits % 8));
    }
    if counterInOut.Some? {
      counterInOut' := Some(counter);
    }
  }

  lemma NothingDerived(cb: Backend, t: nat, s: Session, h: nat)
    requires t == cb.tick
    ensures Deriving(cb.env, t, cb.State(), s, 0, cb.State(), cb.tick) && Offset(0, h) == 0
  {
  }

  lemma AllDerived(cb: Backend, t: nat, before: State, s: Session, n: nat)
    requires Deriving(cb.env, t, before, s, n, cb.State(), cb.tick)
    ensures Derived(cb, t, before, s, n, n, Success)
  {
  }

  lemma EmptyStream(c: Crypto, src: Source, c0: uint32, buffer: seq<byte>)
    ensures Stream(c, src, c0, 0) == [] && Splice(buffer, 0, []) == buffer
  {
  }

  lemma StreamStep(c: Crypto, src: Source, c0: uint32, done: nat, buffer: seq<byte>)
    requires |Stream(c, src, c0, done)| + |Block(c, src, CounterAt(c0, done))| <= |buffer|
    ensures |Stream(c, src, c0, done + 1)| == |Stream(c, src, c0, done)| + |Block(c, src, CounterAt(c0, done))|
    ensures Splice(Splice(buffer, 0, Stream(c, src, c0, done)), |Stream(c, src, c0, done)|,
                   Block(c, src, CounterAt(c0, done)))
         == Splice(buffer, 0, Stream(c, src, c0, done + 1))
  {
    SpliceAppend(buffer, Stream(c, src, c0, done), Block(c, src, CounterAt(c0, done)));
  }

  lemma PartlyFilled(c: Crypto, src: Source, c0: uint32, bytes: nat, bits: nat, done: nat, before: seq<byte>,
                     after: seq<byte>)
    requires Supported(src) && done < Blocks(bytes, HLen(src))
    requires |Stream(c, src, c0, done)| == Offset(done, HLen(src)) <= |before|
    requires SameOutside(Splice(before, 0, Stream(c, src, c0, done)), after, Offset(done, HLen(src)), HLen(src))
    ensures Filled(c, src, c0, bytes, bits, done, before, after)
  {
  }

  lemma AllFilled(c: Crypto, src: Source, c0: uint32, bytes: nat, bits: nat, before: seq<byte>)
    requires Supported(src) && Offset(Blocks(bytes, HLen(src)), HLen(src)) <= |before|
    ensures var n := Blocks(bytes, HLen(src));
            var stream := Stream(c, src, c0, n);
            && 0 < |stream| == Offset(n, HLen(src)) <= |before|
            && Splice(before, 0, stream)[0] == stream[0]
            && Filled(c, src, c0, bytes, bits, n, before,
                      if bits % 8 == 0 then Splice(before, 0, stream)
                      else Splice(before, 0, stream)[0 := BitAnd(stream[0], LowMask(bits % 8))])
  {
    var n := Blocks(bytes, HLen(src));
    StreamLength(c, src, c0, n);
    MulMonotone(1, n, HLen(src));
    if bits % 8 != 0 {
      MaskSplice(before, Stream(c, src, c0, n), bits);
    }
  }

  lemma RoomForBlock(done: nat, n: nat, h: nat)
    requires done < n
    ensures Offset(done, h) + h <= Offset(n, h) && Offset(done + 1, h) == Offset(done, h) + h
  {
    MulMonotone(done + 1, n, h);
  }

  lemma NextCounter(c0: uint32, done: nat)
    ensures ((c0 + done) % TWO32 + 1) % TWO32 == CounterAt(c0, done) == (c0 + (done + 1)) % TWO32
  {
  }

  function KdfaBytes(alg: AlgId, bits: uint32, useDigestSize: bool): nat
    requires DigestSize(alg).Some?
  {
    if useDigestSize then DigestSize(alg).value else Bytes32(bits)
  }

  function KdfaBlocks(alg: AlgId, bits: uint32, useDigestSize: bool): nat
    requires DigestSize(alg).Some?
  {
    Blocks(KdfaBytes(alg, bits, useDigestSize), DigestSize(alg).value)
  }

  /** iesys_crypto_KDFe. done is the number of blocks computed. */
  method KDFe(cb: Backend, alg: AlgId, z: Option<seq<byte>>, lab: Option<CString>, partyU: Option<seq<byte>>,
              partyV: Option<seq<byte>>, bits: uint32, key: array?<byte>)
    returns (rc: RC, ghost done: nat)
    requires cb.Valid()
    requires DigestSize(alg).Some? && Bytes32(bits) > 0 && key != null ==>
               key.Length >= Offset(Blocks(Bytes32(bits), DigestSize(alg).value), DigestSize(alg).value)
    modifies cb, key
    ensures cb.Valid()
    ensures DigestSize(alg).None? || bits == 0 || bits >= TWO32 - 7 ==>
              rc == BadValue && cb.State() == old(cb.State()) && Content(key) == old(Content(key))
    ensures DigestSize(alg).Some? && 0 < bits < TWO32 - 7 ==>
              var src := KdfeInput(alg, z, lab, partyU, partyV);
              var n := Blocks(BytesFor(bits), DigestSize(alg).value);
              var session := BlockSession(src, RoomIn(key, DigestSize(alg)));
              && Derived(cb, old(cb.tick), old(cb.State()), session, n, done, rc)
              && Filled(cb.env.crypto, src, 0, BytesFor(bits), bits, done, old(Content(key)), Content(key))
              && (key == null ==> done == 0 && rc != Success)
  {
    hide Offset, Done, Deriving, Derived, Filled, Stream, Splice, SameOutside, Backend.Valid;
    hide Block, CounterAt, BlockSession, LowMask, Bytes32, DigestSize, BitAnd;
    done := 0;
    var byteSize: nat := Bytes32(bits);
    Bytes32Wraps(bits);
    if DigestSize(alg).None? {
      return BadValue, 0;
    }
    var hashLen: nat := DigestSize(alg).value;
    if alg == ALG_NULL || byteSize == 0 {
      return BadValue, 0;
    }
    var counter, stream := 0, 0;
    var src := KdfeInput(alg, z, lab, partyU, partyV);
    ghost var h, n := hashLen, Blocks(byteSize, hashLen);
    ghost var s := BlockSession(src, RoomIn(key, DigestSize(alg)));
    ghost var t, before, buffer := cb.tick, cb.State(), Content(key);
    NothingDerived(cb, t, s, h);
    EmptyStream(cb.env.crypto, src, 0, buffer);
    while true
      invariant cb.Valid() && Deriving(cb.env, t, before, s, done, cb.State(), cb.tick)
      invariant hashLen == h && stream == Offset(done, h) && Blocks(byteSize, h) == n - done
      invariant counter == done % TWO32
      invariant |Stream(cb.env.crypto, src, 0, done)| == stream <= |buffer|
      invariant Content(key) == Splice(buffer, 0, Stream(cb.env.crypto, src, 0, done))
      invariant done > 0 ==> key != null
      decreases byteSize
    {
      RoomForBlock(done, n, h);
      counter := (counter + 1) % TWO32;
      NextCounter(0, done);
      ghost var now, tick := cb.State(), cb.tick;
      var size;
      rc, size := KDFeRound(cb, src, counter, key, stream, hashLen);
      OneMoreBlock(cb, t, before, s, n, done, now, tick, rc);
      if rc != Success {
        PartlyFilled(cb.env.crypto, src, 0, BytesFor(bits), bits, done, buffer, Content(key));
        return;
      }
      StreamStep(cb.env.crypto, src, 0, done, buffer);
      hashLen, done := size, done + 1;
      if byteSize <= hashLen {
        break;
      }
      stream, byteSize := stream + hashLen, byteSize - hashLen;
    }
    AllDerived(cb, t, before, s, n);
    AllFilled(cb.env.crypto, src, 0, BytesFor(bits), bits, buffer);
    if bits % 8 != 0 {
      key[0] := BitAnd(key[0], LowMask(bits % 8));
    }
  }

  // ---------------------------------------------------------------- XOR obfuscation

  /** data[pos..pos+k] ^= key[..k], byte by byte */
  method XorInto(data: array<byte>, pos: nat, key: array<byte>, k: nat)
    requires data != key && pos + k <= data.Length && k <= key.Length
    modifies data
    ensures data[..] == Splice(old(data[..]), pos, XorBytes(old(data[..])[pos..pos + k], key[..]))
  {
    hide BitXor;
    var i := 0;
    while i < k
      invariant i <= k
      invariant forall j :: 0 <= j < i ==> data[pos + j] == BitXor(old(data[..])[pos + j], key[j])
      invariant forall j :: 0 <= j < pos || pos + i <= j < data.Length ==> data[j] == old(data[..])[j]
    {
      data[pos + i] := BitXor(data[pos + i], key[i]);
      i := i + 1;
    }
    var want := Splice(old(data[..]), pos, XorBytes(old(data[..])[pos..pos + k], key[..]));
    forall j | 0 <= j < data.Length
      ensures data[j] == want[j]
    {
      if pos <= j < pos + k {
        assert data[pos + (j - pos)] == BitXor(old(data[..])[pos + (j - pos)], key[j - pos]);
      }
    }
  }

  /** data when the first m bytes have been obfuscated. */
  ghost function Obfuscating(data: seq<byte>, ks: seq<byte>, m: nat): seq<byte>
    requires m <= |data| && m <= |ks|
  {
    Splice(data, 0, XorBytes(data[..m], ks))
  }

  lemma ObfuscateMore(data: seq<byte>, ks: seq<byte>, m: nat, k: nat, block: seq<byte>)
    requires m + k <= |data| && m + k <= |ks| && k <= |block| && ks[m..m + k] == block[..k]
    ensures Splice(Obfuscating(data, ks, m), m, XorBytes(Obfuscating(data, ks, m)[m..m + k], block))
         == Obfuscating(data, ks, m + k)
  {
    hide BitXor;
    var now := Obfuscating(data, ks, m);
    assert now[m..m + k] == data[m..m + k];
    forall i | 0 <= i < k
      ensures ks[m + i] == block[i]
    {
      assert ks[m..m + k][i] == block[..k][i];
    }
  }

  function Min(a: nat, b: nat): nat {
    if a < b then a else b
  }

  /** The number of bytes covered by done chunks. */
  function Covered(done: nat, h: nat, size: nat): nat {
    Min(Offset(done, h), size)
  }

  /** A one-block derivation is one session. */
  lemma OneBlockDerived(cb: Backend, t: nat, before: State, s: Session, done: nat, rc: RC)
    requires Derived(cb, t, before, s, 1, done, rc)
    ensures Done(cb, t, before, s, rc) && (rc == Success ==> done == 1)
  {
    hide SessionRc, Leaks, StartedRc;
    assert BlockTime(cb.env, t, s, 0) == t;
    if done == 1 {
      SuccessLeavesNothing(cb.env, t, s);
    }
  }

  ghost function XorSession(alg: AlgId, key: seq<byte>, u: seq<byte>, v: seq<byte>, size: nat): Session {
    BlockSession(XorSource(alg, key, u, v, size), DigestSize(alg))
  }

  /** One round of iesys_xor_parameter_obfuscation: the k bytes of the data that meet block number done. */
  method XorChunk(cb: Backend, alg: AlgId, key: seq<byte>, contextU: Option<seq<byte>>, contextV: Option<seq<byte>>,
                  bits: uint32, counter: uint32, kdfaResult: array<byte>, data: array<byte>, pos: nat, k: nat,
                  ghost size: nat, ghost done: nat, ghost buffer: seq<byte>, ghost ks: seq<byte>,
                  ghost t: nat, ghost before: State)
    returns (rc: RC, counter': uint32)
    requires cb.Valid() && kdfaResult != data && kdfaResult.Length == 1024 && DigestSize(alg).Some?
    requires bits == 8 * size % TWO32 && counter == done % TWO32
    requires done < Pieces(size, DigestSize(alg).value) && pos == Offset(done, DigestSize(alg).value)
    requires k <= DigestSize(alg).value && pos + k <= size <= |buffer| == data.Length
    requires ks == Keystream(cb.env.crypto, alg, key, Opt(contextU), Opt(contextV), size)
    requires Deriving(cb.env, t, before, XorSession(alg, key, Opt(contextU), Opt(contextV), size),
                      done, cb.State(), cb.tick)
    requires data[..] == Obfuscating(buffer, ks, pos)
    modifies cb, kdfaResult, data
    ensures cb.Valid() && (cb.Bound(HmacKind, AbortOp) ==> cb.live == old(cb.live))
    ensures rc != Success ==> data[..] == old(data[..])
    ensures contextU.None? || contextV.None? ==> rc == BadReference && cb.State() == old(cb.State())
    ensures contextU.Some? && contextV.Some? ==>
              var s := XorSession(alg, key, contextU.value, contextV.value, size);
              && (rc == Success ==>
                    && Deriving(cb.env, t, before, s, done + 1, cb.State(), cb.tick)
                    && counter' == (done + 1) % TWO32
                    && data[..] == Obfuscating(buffer, ks, pos + k))
              && (rc != Success ==> Derived(cb, t, before, s, Pieces(size, DigestSize(alg).value), done, rc))
  {
    hide Offset, Done, Deriving, Derived, Filled, Splice, SameOutside, XorBytes, Obfuscating, Keystream, Pieces;
    hide Backend.Valid, Block, CounterAt, BlockSession, DigestSize, KdfaBlocks, Blocks, Bytes32;
    ghost var now, tick, scratch := cb.State(), cb.tick, kdfaResult[..];
    ghost var src := XorSource(alg, key, Opt(contextU), Opt(contextV), size);
    ghost var s := BlockSession(src, DigestSize(alg));
    ghost var n := Pieces(size, DigestSize(alg).value);
    OneBlockFits(alg, bits, done);
    counter' := counter;
    var counterOut;
    ghost var one;
    rc, counterOut, one := KDFa(cb, alg, Some(key), Some(XOR_LABEL), contextU, contextV, bits,
                                Some(counter), kdfaResult, true);
    if contextU.Some? && contextV.Some? {
      OneBlockDerived(cb, tick, now, s, one, rc);
      OneMoreBlock(cb, t, before, s, n, done, now, tick, rc);
    }
    if rc != Success {
      return;
    }
    counter' := counterOut.value;
    OneBlockFilled(cb.env.crypto, src, done, scratch, kdfaResult[..]);
    KeystreamChunk(cb.env.crypto, alg, key, contextU.value, contextV.value, size, done, k, kdfaResult[..]);
    ObfuscateMore(buffer, ks, pos, k, kdfaResult[..]);
    XorInto(data, pos, kdfaResult, k);
  }

  /** iesys_xor_parameter_obfuscation. done is the number of digest-sized chunks completed. */
  method XorObfuscation(cb: Backend, alg: AlgId, key: Option<seq<byte>>, contextU: Option<seq<byte>>,
                        contextV: Option<seq<byte>>, data: array?<byte>, size: nat)
    returns (rc: RC, ghost done: nat)
    requires cb.Valid()
    requires data != null ==> size <= data.Length
    modifies cb, data
    ensures cb.Valid() && (cb.Bound(HmacKind, AbortOp) ==> cb.live == old(cb.live))
    ensures key.None? || data == null ==> rc == BadReference
    ensures key.Some? && data != null && DigestSize(alg).None? ==> rc == BadValue
    ensures key.Some? && data != null && DigestSize(alg).Some? && (contextU.None? || contextV.None?) ==>
              rc == if size == 0 then Success else BadReference
    ensures key.None? || data == null || DigestSize(alg).None? || contextU.None? || contextV.None? ==>
              cb.State() == old(cb.State()) && (data != null ==> data[..] == old(data[..]))
    ensures key.Some? && data != null && DigestSize(alg).Some? && contextU.Some? && contextV.Some? ==>
              var h := DigestSize(alg).value;
              var session := XorSession(alg, key.value, contextU.value, contextV.value, size);
              var ks := Keystream(cb.env.crypto, alg, key.value, contextU.value, contextV.value, size);
              && Derived(cb, old(cb.tick), old(cb.State()), session, Pieces(size, h), done, rc)
              && data[..] == Obfuscating(old(data[..]), ks, Covered(done, h, size))
  {
    hide Offset, Deriving, Derived, Backend.Valid, XorSession, Obfuscating, Keystream, DigestSize, KdfaBlocks;
    done := 0;
    if key.None? || data == null {
      return BadReference, 0;
    }
    if DigestSize(alg).None? {
      return BadValue, 0;
    }
    var digestSize: nat := DigestSize(alg).value;
    var counter: uint32, pos: nat, restSize: nat := 0, 0, size;
    var bits: uint32 := 8 * size % TWO32;
    var kdfaResult := new byte[1024];
    ghost var h, n := digestSize, Pieces(size, digestSize);
    ghost var s := XorSession(alg, key.value, Opt(contextU), Opt(contextV), size);
    ghost var ks := Keystream(cb.env.crypto, alg, key.value, Opt(contextU), Opt(contextV), size);
    ghost var t, before, buffer := cb.tick, cb.State(), data[..];
    NothingDerived(cb, t, s, h);
    NothingObfuscated(buffer, ks);
    rc := Success;
    while restSize > 0
      invariant cb.Valid() && rc == Success && fresh(kdfaResult) && kdfaResult.Length == 1024
      invariant Deriving(cb.env, t, before, s, done, cb.State(), cb.tick)
      invariant cb.Bound(HmacKind, AbortOp) ==> cb.live == before.live
      invariant restSize <= size && pos == size - restSize && Pieces(restSize, h) == n - done
      invariant restSize > 0 ==> pos == Offset(done, h)
      invariant counter == done % TWO32
      invariant data[..] == Obfuscating(buffer, ks, pos)
      invariant done > 0 ==> contextU.Some? && contextV.Some?
      invariant done == 0 ==> cb.State() == before && data[..] == buffer
      decreases restSize
    {
      OneBlockFits(alg, bits, done);
      var k := if digestSize < restSize then digestSize else restSize;
      rc, counter := XorChunk(cb, alg, key.value, contextU, contextV, bits, counter, kdfaResult, data, pos, k,
                              size, done, buffer, ks, t, before);
      if rc != Success {
        return;
      }
      pos, done := pos + k, done + 1;
      restSize := if restSize < digestSize then 0 else restSize - digestSize;
    }
    PiecesCover(size, h);
    AllDerived(cb, t, before, s, n);
  }

  lemma NothingObfuscated(data: seq<byte>, ks: seq<byte>)
    ensures Obfuscating(data, ks, 0) == data
  {
    assert XorBytes(data[..0], ks) == [];
    SpliceNothing(data, 0);
  }

  lemma OneBlockFits(alg: AlgId, bits: uint32, done: nat)
    requires DigestSize(alg).Some?
    ensures KdfaBlocks(alg, bits, true) == Blocks(DigestSize(alg).value, DigestSize(alg).value) == 1
    ensures Offset(1, DigestSize(alg).value) == DigestSize(alg).value
    ensures Offset(done + 1, DigestSize(alg).value) == Offset(done, DigestSize(alg).value) + DigestSize(alg).value
  {
  }

  lemma OneBlockFilled(c: Crypto, src: Source, done: nat, before: seq<byte>, after: seq<byte>)
    requires Supported(src) && src.KdfaInput? && src.bits % 8 == 0
    requires Filled(c, src, done % TWO32, HLen(src), src.bits, 1, before, after)
    ensures HLen(src) <= |after| && after[..HLen(src)] == Block(c, src, CounterAt(0, done))
  {
    hide Block, CounterAt, DigestSize;
    var c0, h := done % TWO32, HLen(src);
    assert CounterAt(c0, 0) == CounterAt(0, done) by {
      CounterThreaded(0, done, 0);
    }
    var block := Block(c, src, CounterAt(c0, 0));
    assert Stream(c, src, c0, 0) == [] && Stream(c, src, c0, 1) == block;
    assert Output(c, src, c0, h, src.bits) == block;
    assert after == block + before[h..];
  }

  /** Chunk number done of the keystream is block number done of the derivation. */
  lemma KeystreamChunk(c: Crypto, alg: AlgId, key: seq<byte>, u: seq<byte>, v: seq<byte>, size: nat,
                       done: nat, k: nat, block: seq<byte>)
    requires DigestSize(alg).Some?
    requires done < Pieces(size, DigestSize(alg).value)
    requires k <= DigestSize(alg).value && Offset(done, DigestSize(alg).value) + k <= size
    requires DigestSize(alg).value <= |block|
    requires block[..DigestSize(alg).value] == Block(c, XorSource(alg, key, u, v, size), CounterAt(0, done))
    ensures var pos := Offset(done, DigestSize(alg).value);
            var ks := Keystream(c, alg, key, u, v, size);
            pos + k <= |ks| && ks[pos..pos + k] == block[..k]
  {
    hide Block, CounterAt;
    var src := XorSource(alg, key, u, v, size);
    var h := HLen(src);
    var pos, ks := Offset(done, h), Keystream(c, alg, key, u, v, size);
    StreamBlock(c, src, 0, Pieces(size, h), done);
    assert ks[pos..pos + k] == ks[pos..pos + h][..k];
    assert block[..k] == block[..h][..k];
  }

  lemma PiecesCover(size: nat, h: nat)
    requires h > 0
    ensures Offset(Pieces(size, h), h) >= size
  {
    BlocksIsCeiling(size, h);
  }
}
