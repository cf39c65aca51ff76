/** What the contracts of the ESAPI crypto functions amount to for their callers. */
module Results {
  import opened Tss
  import opened Bytes
  import opened Primitives
  import opened ContextMachine
  import opened Backends
  import opened CryptoBackend
  import opened Sessions
  import opened Kdf
  import opened EsysCrypto

  // ---------------------------------------------------------------- contexts left behind

  /** authHmac and one round of KDFe, whose error label calls the other kind's abort: the live
      contexts are as before exactly when no context is held at the label, and otherwise there is
      exactly one more. */
  lemma MismatchedSessionAccounts(cb: Backend, t: nat, before: State, s: Session, rc: RC)
    requires Done(cb, t, before, s, rc) && s.abort != s.kind && before.next !in before.live
    ensures cb.live == before.live <==> !Held(cb.env, t, s)
    ensures Held(cb.env, t, s) ==> cb.live.Keys == before.live.Keys + {before.next}
    ensures rc == Success ==> cb.live == before.live
  {
    if Held(cb.env, t, s) {
      assert (cb.live - {before.next}).Keys == cb.live.Keys - {before.next};
    }
  }

  /** Likewise for a whole KDFe run: the failed round's context, or none, is left over. */
  lemma MismatchedDerivationAccounts(cb: Backend, t: nat, before: State, s: Session, n: nat, done: nat, rc: RC)
    requires Derived(cb, t, before, s, n, done, rc) && s.abort != s.kind && ContextMachine.Valid(before)
    ensures cb.live == before.live <==> done == n || !Held(cb.env, BlockTime(cb.env, t, s, done), s)
    ensures done < n && Held(cb.env, BlockTime(cb.env, t, s, done), s) ==>
              cb.live.Keys == before.live.Keys + {before.next + done}
  {
    if done < n {
      MismatchedSessionAccounts(cb, BlockTime(cb.env, t, s, done), State(before.live, before.next + done), s, rc);
    }
  }

  /** Without a library failure the mismatched abort costs a context exactly when the start goes
      through and then the table lacks update or finish, or the output buffer is missing or too small
      for the digest: all things a caller can check. */
  lemma LeaksWithoutFaultsIff(e: Env, t: nat, s: Session)
    requires Faultless(e) && s.abort != s.kind
    ensures Leaks(e, t, s) <==>
              && Slot(s.kind, StartOp) in e.bound && Implements(e.flavour, s.alg)
              && (s.kind == HmacKind ==> s.key.Some?)
              && (|| Slot(s.kind, UpdateOp) !in e.bound || Slot(s.kind, FinishOp) !in e.bound
                  || s.room.None? || s.room.value < DigestSize(s.alg).value)
  {
    StartRcWithoutFaults(e, t, s.kind, s.alg);
    MismatchedAbortLeaksIff(e, t, s);
  }

  /** KDFe with a complete table, a known algorithm and no library failure succeeds and leaves nothing
      behind exactly when it has a key buffer; it passes the digest size itself. With a NULL buffer it
      answers BAD_REFERENCE and leaves one context. */
  lemma KdfeWithoutFaults(cb: Backend, t: nat, before: State, src: Source, room: Option<nat>, n: nat, done: nat, rc: RC)
    requires Faultless(cb.env) && src.KdfeInput? && Implements(cb.env.flavour, src.alg) && n > 0
    requires forall op :: op != AbortOp ==> Slot(HashKind, op) in cb.env.bound
    requires (room.Some? ==> room == DigestSize(src.alg)) && ContextMachine.Valid(before)
    requires Derived(cb, t, before, BlockSession(src, room), n, done, rc)
    ensures rc == (if room.Some? then Success else BadReference)
    ensures cb.live == before.live <==> room.Some?
    ensures room.None? ==> cb.live.Keys == before.live.Keys + {before.next}
  {
    var s := BlockSession(src, room);
    RoundWithoutFaults(cb.env, BlockTime(cb.env, t, s, 0), s);
    RoundWithoutFaults(cb.env, BlockTime(cb.env, t, s, done), s);
    hide SessionRc, Held, BlockTime;
    MismatchedDerivationAccounts(cb, t, before, s, n, done, rc);
  }

  lemma RoundWithoutFaults(e: Env, t: nat, s: Session)
    requires Faultless(e) && s.kind == HashKind && Implements(e.flavour, s.alg)
    requires forall op :: op != AbortOp ==> Slot(HashKind, op) in e.bound
    requires s.room.Some? ==> s.room == DigestSize(s.alg)
    ensures SessionRc(e, t, s) == if s.room.Some? then Success else BadReference
    ensures Held(e, t, s) <==> s.room.None?
  {
    StartRcWithoutFaults(e, t, s.kind, s.alg);
  }

  /** authHmac into a TPM2B of size zero, with no library failure at all: the only context there has
      ever been is still live when the call returns. */
  method AuthHmacLeakExample(crypto: Crypto, bound: set<Slot>) returns (cb: Backend, rc: RC)
    requires Slot(HmacKind, StartOp) in bound && Slot(HmacKind, UpdateOp) in bound && Slot(HmacKind, FinishOp) in bound
    ensures fresh(cb) && rc == BadSize && cb.live.Keys == {0} && cb.live[0].kind == HmacKind
  {
    hide Backend.Valid, Digest, Splice, Done, SameOutside;
    cb := new Backend(Env(Ossl, crypto, t => false, t => [], bound));
    var hmac := new byte[0];
    var size;
    rc, size := AuthHmac(cb, ALG_SHA256, Some([]), Some([]), Some([]), Some([]), None, None, 0, hmac, 0);
    ghost var s := Session(HmacKind, ALG_SHA256, Some([]), 4, Some(0), HashKind);
    TooSmallLeaks(cb, s, rc);
  }

  lemma TooSmallLeaks(cb: Backend, s: Session, rc: RC)
    requires Done(cb, 0, State(map[], 0), s, rc) && s.abort != s.kind && Faultless(cb.env)
    requires Implements(cb.env.flavour, s.alg) && s.kind == HmacKind && s.key.Some? && s.room == Some(0)
    requires forall op :: op != AbortOp ==> Slot(HmacKind, op) in cb.env.bound
    ensures rc == BadSize && cb.live.Keys == {0} && cb.live[0].kind == HmacKind
  {
    StartRcWithoutFaults(cb.env, 0, s.kind, s.alg);
    LeaksWithoutFaultsIff(cb.env, 0, s);
    MismatchedSessionAccounts(cb, 0, State(map[], 0), s, rc);
  }

  /** KDFe for one block, its first update failing in OpenSSL (the sixth library call): likewise. */
  method KdfeLeakExample(crypto: Crypto, bound: set<Slot>) returns (cb: Backend, rc: RC)
    requires Slot(HashKind, StartOp) in bound && Slot(HashKind, UpdateOp) in bound && Slot(HashKind, FinishOp) in bound
    ensures fresh(cb) && rc == GeneralFailure && cb.live.Keys == {0} && cb.live[0].kind == HashKind
  {
    hide Backend.Valid, Filled, Derived;
    cb := new Backend(Env(Ossl, crypto, t => t == 5, t => [], bound));
    var key := new byte[32];
    ghost var done;
    rc, done := KDFe(cb, ALG_SHA256, None, None, None, None, 256, key);
    ghost var s := BlockSession(KdfeInput(ALG_SHA256, None, None, None, None), Some(32));
    assert Derived(cb, 0, State(map[], 0), s, 1, done, rc);
    FirstUpdateFails(cb.env, s);
    FirstRoundLeaks(cb, s, done, rc);
  }

  /** KDFe with a NULL key and no library failure, in either backend: likewise. */
  method KdfeNullKeyExample(flavour: Flavour, crypto: Crypto, bound: set<Slot>) returns (cb: Backend, rc: RC)
    requires forall op :: op != AbortOp ==> Slot(HashKind, op) in bound
    ensures fresh(cb) && rc == BadReference && cb.live.Keys == {0}
  {
    hide Backend.Valid, Filled, Derived;
    cb := new Backend(Env(flavour, crypto, t => false, t => [], bound));
    ghost var done;
    rc, done := KDFe(cb, ALG_SHA256, None, None, None, None, 256, null);
    KdfeWithoutFaults(cb, 0, State(map[], 0), KdfeInput(ALG_SHA256, None, None, None, None), None, 1, done, rc);
  }

  lemma FirstRoundLeaks(cb: Backend, s: Session, done: nat, rc: RC)
    requires Derived(cb, 0, State(map[], 0), s, 1, done, rc) && s.abort != s.kind
    requires SessionRc(cb.env, 0, s) == GeneralFailure && Held(cb.env, 0, s)
    ensures rc == GeneralFailure && cb.live.Keys == {0} && cb.live[0].kind == s.kind
  {
    hide SessionRc, Held, StartedRc;
    assert BlockTime(cb.env, 0, s, 0) == 0;
    MismatchedDerivationAccounts(cb, 0, State(map[], 0), s, 1, done, rc);
  }

  lemma FirstUpdateFails(e: Env, s: Session)
    requires e.flavour == Ossl && s.kind == HashKind && s.updates > 0 && Implements(Ossl, s.alg)
    requires forall t :: e.faults(t) <==> t == 5
    requires Slot(HashKind, StartOp) in e.bound && Slot(HashKind, UpdateOp) in e.bound
    ensures SessionRc(e, 0, s) == GeneralFailure && Held(e, 0, s)
  {
    assert e.faults(FeedTime(e, 0, s));
    assert !Quiet(e, FeedTime(e, 0, s), FinishTime(e, 0, s));
  }

  // ---------------------------------------------------------------- derived keys

  /** A completed KDFa or KDFe buffer, read as a big-endian number over its first ceil(bits/8) bytes,
      is the block stream's prefix modulo 2^bits. */
  lemma DerivedKeyValue(c: Crypto, src: Source, c0: uint32, bits: uint32, before: seq<byte>, after: seq<byte>)
    requires Supported(src) && bits <= TWO32 - 8
    requires Filled(c, src, c0, Bytes32(bits), bits, Blocks(Bytes32(bits), HLen(src)), before, after)
    ensures var n := BytesFor(bits);
            var stream := Stream(c, src, c0, Blocks(n, HLen(src)));
            && n <= |after| && n <= |stream|
            && Value(after[..n]) == Value(stream[..n]) % Pow2(bits)
            && Value(after[..n]) < Pow2(bits)
  {
    hide Stream, Output, Value, Bytes32, DigestSize;
    var n, out := BytesFor(bits), Output(c, src, c0, Bytes32(bits), bits);
    DerivedKeyIsTruncatedStream(c, src, c0, bits);
    assert after[..n] == out[..n];
  }

  /** Block j of a derivation, spelled out: the HMAC, for KDFa, or hash, for KDFe, of the counter and
      the parts in their order. */
  ghost predicate IsBlock(c: Crypto, src: Source, c0: uint32, j: nat, digest: seq<byte>) {
    var counter := Be32((c0 + j + 1) % TWO32);
    var lab := if src.lab.Some? then src.lab.value + [0] else [];
    match src
    case KdfaInput(alg, key, _, u, v, bits) =>
      digest == c.hmac(alg, key, counter + lab + u + v + Be32(bits))
    case KdfeInput(alg, z, _, u, v) =>
      digest == c.hash(alg, counter + Opt(z) + lab + Opt(u) + Opt(v))
  }

  lemma BlockIsBlock(c: Crypto, src: Source, c0: uint32, j: nat)
    ensures IsBlock(c, src, c0, j, Block(c, src, CounterAt(c0, j)))
  {
    if src.KdfaInput? {
      KdfaBlock(c, src, CounterAt(c0, j));
    } else {
      KdfeBlock(c, src, CounterAt(c0, j));
    }
  }

  /** Every byte of a completed buffer beyond the blocks is as it was, and every byte of block j is that
      of the block's digest, the very first one reduced to the odd bits when there are any. */
  lemma DerivedBlocks(c: Crypto, src: Source, c0: uint32, bytes: nat, bits: nat, before: seq<byte>,
                      after: seq<byte>, j: nat, i: nat) returns (digest: seq<byte>)
    requires Supported(src) && Filled(c, src, c0, bytes, bits, Blocks(bytes, HLen(src)), before, after)
    requires j < Blocks(bytes, HLen(src)) && i < HLen(src)
    ensures |after| == |before|
    ensures after[Blocks(bytes, HLen(src)) * HLen(src)..] == before[Blocks(bytes, HLen(src)) * HLen(src)..]
    ensures IsBlock(c, src, c0, j, digest) && |digest| == HLen(src) && j * HLen(src) + i < |after|
    ensures after[j * HLen(src) + i] == if j == i == 0 && bits % 8 != 0 then digest[0] % Pow2(bits % 8) else digest[i]
  {
    hide Stream, Block, DigestSize, MaskFirst, IsBlock, CounterAt;
    digest := Block(c, src, CounterAt(c0, j));
    BlockIsBlock(c, src, c0, j);
    var h, n := HLen(src), Blocks(bytes, HLen(src));
    var out, stream := Output(c, src, c0, bytes, bits), Stream(c, src, c0, Blocks(bytes, HLen(src)));
    StreamBlock(c, src, c0, n, j);
    StreamLength(c, src, c0, n);
    RoomForBlock(j, n, h);
    var k := Offset(j, h) + i;
    assert stream[Offset(j, h)..Offset(j, h) + h][i] == stream[k];
    assert after[k] == out[k];
    MaskedByte(stream, bits, k);
    assert k == 0 <==> j == i == 0 by {
      MulMonotone(if j > 0 then 1 else 0, j, h);
    }
  }

  lemma MaskedByte(s: seq<byte>, bits: nat, k: nat)
    requires k < |s|
    ensures MaskFirst(s, bits)[k] == if k == 0 && bits % 8 != 0 then s[0] % Pow2(bits % 8) else s[k]
  {
    MaskIsMod(s[0], bits % 8);
  }

  /** A derivation that failed at block done has left the blocks before it in place and unmasked, and
      has touched nothing after it. */
  lemma BlocksBeforeFailure(c: Crypto, src: Source, c0: uint32, bytes: nat, bits: nat, done: nat, before: seq<byte>,
                            after: seq<byte>, j: nat, i: nat) returns (digest: seq<byte>)
    requires Supported(src) && Filled(c, src, c0, bytes, bits, done, before, after)
    requires j < done < Blocks(bytes, HLen(src)) && i < HLen(src)
    ensures |after| == |before|
    ensures forall k :: (done + 1) * HLen(src) <= k < |after| ==> after[k] == before[k]
    ensures IsBlock(c, src, c0, j, digest) && |digest| == HLen(src)
    ensures j * HLen(src) + i < |after| && after[j * HLen(src) + i] == digest[i]
  {
    hide Stream, Block, DigestSize, IsBlock, CounterAt;
    digest := Block(c, src, CounterAt(c0, j));
    BlockIsBlock(c, src, c0, j);
    var h := HLen(src);
    var stream := Stream(c, src, c0, done);
    StreamBlock(c, src, c0, done, j);
    RoomForBlock(j, done, h);
    RoomForBlock(done, done + 1, h);
    var k := Offset(j, h) + i;
    assert stream[Offset(j, h)..Offset(j, h) + h][i] == stream[k];
    assert Splice(before, 0, stream)[k] == stream[k];
  }

  /** One call of KDFa that succeeds: the first ceil(bits/8) bytes are the block stream's modulo
      2^bits, for every bit length whose size does not wrap. */
  method DeriveKey(cb: Backend, alg: AlgId, key: seq<byte>, lab: Option<CString>, u: seq<byte>, v: seq<byte>,
                   bits: uint32, out: array<byte>)
    returns (rc: RC)
    requires cb.Valid() && DigestSize(alg).Some? && bits <= TWO32 - 8
    requires out.Length >= Offset(KdfaBlocks(alg, bits, false), DigestSize(alg).value)
    modifies cb, out
    ensures cb.Valid()
    ensures rc == Success ==>
              var n := BytesFor(bits);
              var src := KdfaInput(alg, key, lab, u, v, bits);
              var stream := Stream(cb.env.crypto, src, 0, Blocks(n, DigestSize(alg).value));
              && n <= out.Length && n <= |stream|
              && Value(out[..n]) == Value(stream[..n]) % Pow2(bits)
  {
    hide Backend.Valid, Derived, Filled, Stream, Value, DigestSize, Bytes32;
    ghost var src := KdfaInput(alg, key, lab, u, v, bits);
    ghost var t, before, buffer := cb.tick, cb.State(), out[..];
    var counter;
    ghost var done;
    rc, counter, done := KDFa(cb, alg, Some(key), lab, Some(u), Some(v), bits, None, out, false);
    SuccessIsAll(cb, t, before, BlockSession(src, DigestSize(alg)),
                 Blocks(Bytes32(bits), DigestSize(alg).value), done, rc);
    if rc == Success {
      DerivedKeyValue(cb.env.crypto, src, 0, bits, buffer, out[..]);
    }
  }

  // ---------------------------------------------------------------- XOR obfuscation

  /** A completed XOR run applies Obfuscated to the data and touches nothing after it; a second
      completed run restores the buffer. */
  lemma XorRunTwiceRestores(c: Crypto, alg: AlgId, key: seq<byte>, u: seq<byte>, v: seq<byte>, data: seq<byte>,
                            size: nat)
    requires DigestSize(alg).Some? && size <= |data|
    ensures var ks := Keystream(c, alg, key, u, v, size);
            var h := DigestSize(alg).value;
            && Covered(Pieces(size, h), h, size) == size
            && Obfuscating(data, ks, size) == Splice(data, 0, Obfuscated(c, alg, key, u, v, data[..size]))
            && |Obfuscating(data, ks, size)| == |data|
            && Obfuscating(Obfuscating(data, ks, size), ks, size) == data
  {
    hide Keystream, DigestSize, XorBytes, Obfuscating, Splice;
    PiecesCover(size, DigestSize(alg).value);
    var ks := Keystream(c, alg, key, u, v, size);
    assert |data[..size]| == size;
    ObfuscatingTwice(data, ks, size);
  }

  lemma ObfuscatingTwice(data: seq<byte>, ks: seq<byte>, m: nat)
    requires m <= |data| && m <= |ks|
    ensures Obfuscating(data, ks, m) == Splice(data, 0, XorBytes(data[..m], ks))
    ensures |Obfuscating(data, ks, m)| == |data|
    ensures Obfuscating(Obfuscating(data, ks, m), ks, m) == data
  {
    hide XorBytes;
    var x := XorBytes(data[..m], ks);
    var once := x + data[m..];
    assert Obfuscating(data, ks, m) == once && once[..m] == x && once[m..] == data[m..];
    XorTwice(data[..m], ks);
    assert data == data[..m] + data[m..];
  }

  /** What every HMAC message of an XOR run has after its counter: "XOR" and its NUL, the contexts and
      the size in bits, modulo 2^32. */
  function XorTail(u: seq<byte>, v: seq<byte>, size: nat): (tail: seq<byte>)
    ensures tail == [0x58, 0x4F, 0x52, 0] + u + v + Be32(8 * size % TWO32)
  {
    XOR_LABEL + [0] + u + v + Be32(8 * size % TWO32)
  }

  /** Bit b of byte i is the old one exclusive or that of byte i % h of the HMAC whose counter is the
      number of the piece, from 1 on. */
  ghost predicate BitPadded(c: Crypto, alg: AlgId, key: seq<byte>, tail: seq<byte>, h: nat, i: nat, b: nat,
                            was: byte, now: byte)
    requires h > 0
  {
    var pad := c.hmac(alg, key, Be32((i / h + 1) % TWO32) + tail);
    |pad| == h && now / Pow2(b) % 2 == if was / Pow2(b) % 2 == pad[i % h] / Pow2(b) % 2 then 0 else 1
  }

  /** The data after done pieces: every bit of them is padded, every byte after them is the old one. */
  lemma ObfuscatedBits(c: Crypto, alg: AlgId, key: seq<byte>, u: seq<byte>, v: seq<byte>, data: seq<byte>, size: nat,
                       done: nat, i: nat, b: nat)
    requires DigestSize(alg).Some? && size <= |data| && i < |data| && b < 8
    requires done <= Pieces(size, DigestSize(alg).value)
    ensures var h := DigestSize(alg).value;
            var now := Obfuscating(data, Keystream(c, alg, key, u, v, size), Covered(done, h, size));
            && |now| == |data|
            && if i < size && i < done * h then BitPadded(c, alg, key, XorTail(u, v, size), h, i, b, data[i], now[i])
               else now[i] == data[i]
  {
    hide DigestSize, BitXor, XorTail, Keystream, BitPadded, Pow2;
    var h, m := DigestSize(alg).value, Covered(done, DigestSize(alg).value, size);
    var ks := Keystream(c, alg, key, u, v, size);
    if i < size && i < done * h {
      var digest := KeystreamByte(c, alg, key, u, v, size, i);
      assert data[..m][i] == data[i];
      XoredIsPadded(c, alg, key, XorTail(u, v, size), h, i, b, data[i], digest);
    }
  }

  lemma XoredIsPadded(c: Crypto, alg: AlgId, key: seq<byte>, tail: seq<byte>, h: nat, i: nat, b: nat, was: byte,
                      digest: seq<byte>)
    requires h == |digest| > 0 && b < 8
    requires digest == c.hmac(alg, key, Be32((i / h + 1) % TWO32) + tail)
    ensures BitPadded(c, alg, key, tail, h, i, b, was, BitXor(was, digest[i % h]))
  {
    hide BitXor, Pow2;
    BitXorBits(was, digest[i % h], b);
  }

  /** Byte i of the keystream is byte i % h of the HMAC with counter i / h + 1. */
  lemma KeystreamByte(c: Crypto, alg: AlgId, key: seq<byte>, u: seq<byte>, v: seq<byte>, size: nat, i: nat)
    returns (digest: seq<byte>)
    requires DigestSize(alg).Some? && i < size
    ensures var h := DigestSize(alg).value;
            && digest == c.hmac(alg, key, Be32((i / h + 1) % TWO32) + XorTail(u, v, size))
            && |digest| == h && Keystream(c, alg, key, u, v, size)[i] == digest[i % h]
  {
    hide DigestSize, Keystream, Block, Be32, Offset, XorTail;
    var h := DigestSize(alg).value;
    var j, r := i / h, i % h;
    assert i == Offset(j, h) + r by {
      OffsetOf(i, h);
    }
    KeystreamAt(c, alg, key, u, v, size, j, r);
    XorBlock(c, alg, key, u, v, size, j);
    digest := Block(c, XorSource(alg, key, u, v, size), CounterAt(0, j));
  }

  lemma OffsetOf(i: nat, h: nat)
    requires h > 0
    ensures i == Offset(i / h, h) + i % h
  {
  }

  lemma KeystreamAt(c: Crypto, alg: AlgId, key: seq<byte>, u: seq<byte>, v: seq<byte>, size: nat, j: nat, r: nat)
    requires DigestSize(alg).Some? && r < DigestSize(alg).value && Offset(j, DigestSize(alg).value) + r < size
    ensures var i := Offset(j, DigestSize(alg).value) + r;
            var digest := Block(c, XorSource(alg, key, u, v, size), CounterAt(0, j));
            |digest| == DigestSize(alg).value && Keystream(c, alg, key, u, v, size)[i] == digest[r]
  {
    hide DigestSize, Stream, Block, CounterAt;
    var src := XorSource(alg, key, u, v, size);
    var h, n := DigestSize(alg).value, Pieces(size, DigestSize(alg).value);
    PiecesAtMost(size, h, j);
    StreamBlock(c, src, 0, n, j);
    hide Pieces;
    assert Stream(c, src, 0, n)[j * h..j * h + h][r] == Stream(c, src, 0, n)[j * h + r];
  }

  lemma XorBlock(c: Crypto, alg: AlgId, key: seq<byte>, u: seq<byte>, v: seq<byte>, size: nat, j: nat)
    ensures Block(c, XorSource(alg, key, u, v, size), CounterAt(0, j))
         == c.hmac(alg, key, Be32((j + 1) % TWO32) + XorTail(u, v, size))
  {
    hide Be32;
    KdfaBlock(c, XorSource(alg, key, u, v, size), CounterAt(0, j));
    var head, lab, bits := Be32((j + 1) % TWO32), [0x58, 0x4F, 0x52, 0], Be32(8 * size % TWO32);
    assert XOR_LABEL + [0] == lab && XorTail(u, v, size) == lab + u + v + bits;
    assert head + lab + u + v + bits == head + (lab + u + v + bits);
  }

  lemma SuccessIsAll(cb: Backend, t: nat, before: State, s: Session, n: nat, done: nat, rc: RC)
    requires Derived(cb, t, before, s, n, done, rc)
    ensures rc == Success <==> done == n
  {
  }

  /** One call that succeeds: every bit of the data is the old bit exclusive or the HMAC's, and nothing
      after the data has changed. */
  method ObfuscateOnce(cb: Backend, alg: AlgId, key: seq<byte>, u: seq<byte>, v: seq<byte>, data: array<byte>,
                       size: nat)
    returns (rc: RC)
    requires cb.Valid() && size <= data.Length
    modifies cb, data
    ensures cb.Valid() && (DigestSize(alg).None? ==> rc == BadValue)
    ensures rc == Success ==> data[size..] == old(data[size..])
    ensures rc == Success ==>
              forall i, b :: 0 <= i < size && 0 <= b < 8 ==>
                BitPadded(cb.env.crypto, alg, key, XorTail(u, v, size), DigestSize(alg).value, i, b,
                          old(data[i]), data[i])
  {
    hide Backend.Valid, Derived, Obfuscating, Keystream, DigestSize, XorTail, BitPadded;
    ghost var t, before := cb.tick, cb.State();
    ghost var done;
    rc, done := XorObfuscation(cb, alg, Some(key), Some(u), Some(v), data, size);
    if rc == Success {
      SuccessIsAll(cb, t, before, XorSession(alg, key, u, v, size), Pieces(size, DigestSize(alg).value), done, rc);
      ObfuscatedAll(cb.env.crypto, alg, key, u, v, old(data[..]), size, data[..]);
      assert forall i :: 0 <= i < data.Length ==> data[i] == data[..][i] && old(data[i]) == old(data[..])[i];
    }
  }

  lemma ObfuscatedAll(c: Crypto, alg: AlgId, key: seq<byte>, u: seq<byte>, v: seq<byte>, data: seq<byte>, size: nat,
                      now: seq<byte>)
    requires DigestSize(alg).Some? && size <= |data| == |now|
    requires var h := DigestSize(alg).value;
             now == Obfuscating(data, Keystream(c, alg, key, u, v, size), Covered(Pieces(size, h), h, size))
    ensures now[size..] == data[size..]
    ensures forall i, b :: 0 <= i < size && 0 <= b < 8 ==>
              BitPadded(c, alg, key, XorTail(u, v, size), DigestSize(alg).value, i, b, data[i], now[i])
  {
    hide Obfuscating, Keystream, DigestSize, Pieces, XorTail, BitPadded;
    var h, n := DigestSize(alg).value, Pieces(size, DigestSize(alg).value);
    PiecesAtMost(size, h, n);
    forall i, b | 0 <= i < size && 0 <= b < 8
      ensures BitPadded(c, alg, key, XorTail(u, v, size), h, i, b, data[i], now[i])
    {
      ObfuscatedBits(c, alg, key, u, v, data, size, n, i, b);
    }
    forall i | size <= i < |data|
      ensures now[i] == data[i]
    {
      ObfuscatedBits(c, alg, key, u, v, data, size, n, i, 0);
    }
  }

  /** Two calls with the same arguments: the second undoes the first whenever both get equally far,
      in particular when both succeed. */
  method XorTwiceRestores(cb: Backend, alg: AlgId, key: Option<seq<byte>>, u: Option<seq<byte>>, v: Option<seq<byte>>,
                          data: array<byte>, size: nat)
    returns (rc: RC, rc': RC, ghost done: nat, ghost done': nat)
    requires cb.Valid() && size <= data.Length
    modifies cb, data
    ensures cb.Valid()
    ensures done == done' ==> data[..] == old(data[..])
    ensures rc == rc' == Success ==> data[..] == old(data[..])
  {
    hide Backend.Valid, Derived, Obfuscating, Keystream, DigestSize;
    rc, done := XorObfuscation(cb, alg, key, u, v, data, size);
    if key.Some? && DigestSize(alg).Some? && u.Some? && v.Some? {
      SuccessIsAll(cb, old(cb.tick), old(cb.State()), XorSession(alg, key.value, u.value, v.value, size),
                   Pieces(size, DigestSize(alg).value), done, rc);
    }
    ghost var t, before := cb.tick, cb.State();
    rc', done' := XorObfuscation(cb, alg, key, u, v, data, size);
    if key.Some? && DigestSize(alg).Some? && u.Some? && v.Some? {
      var h := DigestSize(alg).value;
      SuccessIsAll(cb, t, before, XorSession(alg, key.value, u.value, v.value, size), Pieces(size, h), done', rc');
      ObfuscatingTwice(old(data[..]), Keystream(cb.env.crypto, alg, key.value, u.value, v.value, size),
                       Covered(done, h, size));
    }
  }

  /** One call of KDFa for the bit length and key material of an XOR run gives that run's keystream. */
  method DeriveKeystream(cb: Backend, alg: AlgId, key: seq<byte>, u: seq<byte>, v: seq<byte>, size: nat,
                         out: array<byte>)
    returns (rc: RC)
    requires cb.Valid() && DigestSize(alg).Some? && 8 * size < TWO32
    requires out.Length >= Offset(KdfaBlocks(alg, 8 * size, false), DigestSize(alg).value)
    modifies cb, out
    ensures cb.Valid()
    ensures rc == Success ==>
              size <= out.Length && out[..size] == Keystream(cb.env.crypto, alg, key, u, v, size)[..size]
  {
    hide Backend.Valid, Derived, Filled, Output, Keystream, DigestSize, Bytes32;
    ghost var src := KdfaInput(alg, key, Some(XOR_LABEL), u, v, 8 * size);
    ghost var t, before, buffer := cb.tick, cb.State(), out[..];
    var counter;
    ghost var done;
    rc, counter, done := KDFa(cb, alg, Some(key), Some(XOR_LABEL), Some(u), Some(v), 8 * size, None, out, false);
    KeystreamIsOneShot(cb.env.crypto, alg, key, u, v, size);
    SuccessIsAll(cb, t, before, BlockSession(src, DigestSize(alg)), KdfaBlocks(alg, 8 * size, false), done, rc);
    if rc == Success {
      CompletedPrefix(cb.env.crypto, src, 0, Bytes32(8 * size), 8 * size, buffer, out[..], size);
    }
  }

  lemma CompletedPrefix(c: Crypto, src: Source, c0: uint32, bytes: nat, bits: nat,
                        before: seq<byte>, after: seq<byte>, k: nat)
    requires Supported(src) && Filled(c, src, c0, bytes, bits, Blocks(bytes, HLen(src)), before, after)
    requires k <= |Output(c, src, c0, bytes, bits)|
    ensures k <= |after| && after[..k] == Output(c, src, c0, bytes, bits)[..k]
  {
    hide Output, DigestSize;
  }

  /** A whole run uses the counters 1, 2, ... without wrapping exactly when it has less than 2^32
      pieces, and repeats no HMAC message exactly when it has at most 2^32. */
  lemma XorRunNeverRepeats(alg: AlgId, key: seq<byte>, u: seq<byte>, v: seq<byte>, size: nat)
    requires DigestSize(alg).Some?
    ensures var src := XorSource(alg, key, u, v, size);
            var h := DigestSize(alg).value;
            var n := Pieces(size, h);
            && ((forall j :: 0 <= j < n ==> CounterAt(0, j) == j + 1) <==> n < TWO32)
            && (n < TWO32 <==> size <= (TWO32 - 1) * h)
            && ((forall i, j :: 0 <= i < j < n ==> Message(src, CounterAt(0, i)) != Message(src, CounterAt(0, j)))
                 <==> n <= TWO32)
            && (n <= TWO32 <==> size <= TWO32 * h)
  {
    hide Message, DigestSize;
    var h := DigestSize(alg).value;
    var n := Pieces(size, h);
    PiecesAtMost(size, h, TWO32 - 1);
    PiecesAtMost(size, h, TWO32);
    if n >= TWO32 {
      assert CounterAt(0, TWO32 - 1) == 0;
    }
    MessagesDistinctIff(XorSource(alg, key, u, v, size), 0, n);
  }

  /** At most m pieces exactly when m digests cover the data. */
  lemma PiecesAtMost(size: nat, h: nat, m: nat)
    requires h > 0
    ensures Pieces(size, h) <= m <==> size <= m * h
  {
    var n := Pieces(size, h);
    BlocksIsCeiling(size, h);
    if n <= m {
      MulMonotone(n, m, h);
    } else {
      MulMonotone(m, n - 1, h);
    }
  }
}
