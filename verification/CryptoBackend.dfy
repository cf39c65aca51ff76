/** The heap, the crypto library and the callback table behind ESYS_CRYPTO_CALLBACKS. */
module CryptoBackend {
  import opened Tss
  import opened Bytes
  import opened ContextMachine
  import opened Backends

  class Backend {
    const env: Env
    var live: map<Handle, Blob>
    var next: Handle
    /** How many library calls have been made. */
    var tick: nat
    /** The objects handed out by malloc and the library and not yet freed: context structs, OpenSSL
        library contexts, fetched digests, digest contexts and MAC key objects. */
    var structs: nat
    var libCtxs: nat
    var mds: nat
    var mdCtxs: nat
    var pKeys: nat

    ghost function State(): ContextMachine.State
      reads this
    {
      ContextMachine.State(live, next)
    }

    /** The objects not yet freed are exactly those of n finished contexts. */
    ghost predicate OwnedBy(n: nat)
      reads this
    {
      && structs == mdCtxs == n
      && libCtxs == mds == (if env.flavour == Ossl then n else 0)
      && pKeys == 0
    }

    ghost predicate Valid()
      reads this
    {
      ContextMachine.Valid(State()) && OwnedBy(|live|)
    }

    constructor (env: Env)
      ensures Valid() && this.env == env && live == map[] && next == 0 && tick == 0
    {
      this.env := env;
      live, next, tick := map[], 0, 0;
      structs, libCtxs, mds, mdCtxs, pKeys := 0, 0, 0, 0, 0;
    }

    /** One call into the library or the allocator. */
    method LibraryCall() returns (ok: bool)
      modifies this`tick
      ensures ok == !env.faults(old(tick)) && tick == old(tick) + 1
      ensures old(Valid()) ==> Valid()
    {
      ok := !env.faults(tick);
      tick := tick + 1;
    }

    /** The new context is entered under the next address. */
    method Publish(blob: Blob) returns (ctx: Option<Handle>)
      requires ContextMachine.Valid(State()) && DigestSize(blob.alg) == Some(blob.len) && OwnedBy(|live| + 1)
      modifies this`live, this`next
      ensures Valid() && ctx == Some(old(next))
      ensures State() == ContextMachine.State(old(live)[old(next) := blob], old(next) + 1)
    {
      ctx := Some(next);
      live, next := live[next := blob], next + 1;
    }

    /** The digest state of a live context becomes that of the given message. */
    method SetAbsorbed(h: Handle, msg: seq<byte>)
      requires Valid() && h in live
      modifies this`live
      ensures Valid() && live == old(live)[h := old(live)[h].(absorbed := msg)]
    {
      live := live[h := live[h].(absorbed := msg)];
    }

    // -------------------------------------------------------------- OpenSSL

    /** iesys_cryptossl_context_new */
    method OsslContextNew() returns (ok: bool)
      modifies this`tick, this`structs, this`libCtxs
      ensures ok == !(env.faults(old(tick)) || env.faults(old(tick) + 1))
      ensures tick >= old(tick) && (ok ==> tick == old(tick) + 2)
      ensures structs == old(structs) + (if ok then 1 else 0) && libCtxs == old(libCtxs) + (if ok then 1 else 0)
    {
      hide Valid;
      ok := LibraryCall();
      if ok {
        structs := structs + 1;
        ok := LibraryCall();
        if ok {
          libCtxs := libCtxs + 1;
        } else {
          structs := structs - 1;
        }
      }
    }

    /** iesys_cryptossl_context_free; hasMd and hasMdCtx say which pointers are not NULL. */
    method OsslContextFree(hasMd: bool, hasMdCtx: bool)
      requires structs > 0 && libCtxs > 0 && (hasMd ==> mds > 0) && (hasMdCtx ==> mdCtxs > 0)
      modifies this`structs, this`libCtxs, this`mds, this`mdCtxs
      ensures structs == old(structs) - 1 && libCtxs == old(libCtxs) - 1
      ensures mds == old(mds) - (if hasMd then 1 else 0) && mdCtxs == old(mdCtxs) - (if hasMdCtx then 1 else 0)
    {
      if hasMdCtx {
        mdCtxs := mdCtxs - 1;
      }
      if hasMd {
        mds := mds - 1;
      }
      libCtxs, structs := libCtxs - 1, structs - 1;
    }

    /** Everything between the argument checks and the assignment of the out pointer: whichever call
        fails, exactly what was taken until then is given back. */
    method OsslPrepare(kind: Kind, alg: AlgId) returns (rc: RC)
      requires env.flavour == Ossl
      modifies this`tick, this`structs, this`libCtxs, this`mds, this`mdCtxs, this`pKeys
      ensures rc == StartRc(env, old(tick), kind, alg)
      ensures tick >= old(tick) && (rc == Success ==> tick == old(tick) + StartCost(Ossl, kind))
      ensures var taken := if rc == Success then 1 else 0;
              && structs == old(structs) + taken && libCtxs == old(libCtxs) + taken
              && mds == old(mds) + taken && mdCtxs == old(mdCtxs) + taken && pKeys == old(pKeys)
    {
      hide Valid, OwnedBy, Implements;
      var ok := OsslContextNew();
      if !ok {
        return Memory;
      }
      var hasMd, hasMdCtx, hkey;
      rc, hasMd, hasMdCtx, hkey := OsslFetch(kind, alg);
      if hkey {
        pKeys := pKeys - 1;
      }
      if rc != Success {
        OsslContextFree(hasMd, hasMdCtx);
      }
    }

    /** The steps after iesys_cryptossl_context_new, each left at its first failure: the digest, the
        digest context, the MAC key of an HMAC, EVP_DigestInit or EVP_DigestSignInit. The flags say
        what has been taken. */
    method OsslFetch(kind: Kind, alg: AlgId) returns (rc: RC, hasMd: bool, hasMdCtx: bool, hkey: bool)
      modifies this`tick, this`mds, this`mdCtxs, this`pKeys
      ensures var t := old(tick);
              rc == if !Implements(Ossl, alg) || env.faults(t) then NotImplemented
                    else if env.faults(t + 1) || env.faults(t + 2) || (kind == HmacKind && env.faults(t + 3))
                         then GeneralFailure
                    else Success
      ensures rc == Success ==> hasMd && hasMdCtx && tick == old(tick) + (if kind == HmacKind then 4 else 3)
      ensures tick >= old(tick) && mds == old(mds) + (if hasMd then 1 else 0)
      ensures mdCtxs == old(mdCtxs) + (if hasMdCtx then 1 else 0) && pKeys == old(pKeys) + (if hkey then 1 else 0)
    {
      hide Valid, OwnedBy, Implements;
      hasMd, hasMdCtx, hkey := false, false, false;
      if !Implements(Ossl, alg) {
        return NotImplemented, hasMd, hasMdCtx, hkey;
      }
      var ok := LibraryCall();
      if !ok {
        return NotImplemented, hasMd, hasMdCtx, hkey;
      }
      mds, hasMd := mds + 1, true;
      ok := LibraryCall();
      if !ok {
        return GeneralFailure, hasMd, hasMdCtx, hkey;
      }
      mdCtxs, hasMdCtx := mdCtxs + 1, true;
      if kind == HmacKind {
        ok := LibraryCall();
        if !ok {
          return GeneralFailure, hasMd, hasMdCtx, hkey;
        }
        pKeys, hkey := pKeys + 1, true;
      }
      ok := LibraryCall();
      return if ok then Success else GeneralFailure, hasMd, hasMdCtx, hkey;
    }

    /** Frees a finished context with everything it owns. */
    method Release(h: Handle)
      requires Valid() && h in live
      modifies this`live, this`structs, this`libCtxs, this`mds, this`mdCtxs
      ensures Valid() && live == old(live) - {h}
    {
      assert |live.Keys| > 0;
      if env.flavour == Ossl {
        OsslContextFree(true, true);
      } else {
        mdCtxs, structs := mdCtxs - 1, structs - 1;
      }
      assert (live - {h}).Keys == live.Keys - {h};
      live := live - {h};
    }

    /** iesys_cryptossl_hash_start and iesys_cryptossl_hmac_start */
    method OsslStart(kind: Kind, hasOut: bool, alg: AlgId, key: Option<seq<byte>>) returns (rc: RC, ctx: Option<Handle>)
      requires Valid() && env.flavour == Ossl
      modifies this
      ensures Valid() && (rc == Success ==> tick == old(tick) + StartCost(Ossl, kind))
      ensures var c := Call.Start(kind, alg, key, hasOut);
              var (s, r) := Step(env.crypto, old(State()), c, Decide(env, old(tick), old(State()), c));
              State() == s && rc == r.rc && ctx == r.ctx
    {
      if !hasOut || (kind == HmacKind && key.None?) {
        return BadReference, None;
      }
      rc := OsslPrepare(kind, alg);
      if rc != Success {
        return rc, None;
      }
      ctx := Publish(Blob(kind, alg, if kind == HmacKind then key.value else [], DigestSize(alg).value, []));
    }

    /** iesys_cryptossl_hash_update and iesys_cryptossl_hmac_update, which differ in the tag only */
    method OsslUpdate(kind: Kind, ctx: Option<Handle>, data: Option<seq<byte>>) returns (rc: RC)
      requires Valid() && env.flavour == Ossl
      requires ctx.Some? ==> ctx.value in live
      modifies this
      ensures Valid() && (rc == Success ==> tick == old(tick) + 1)
      ensures var c := Call.Update(kind, ctx, data);
              var (s, r) := Step(env.crypto, old(State()), c, Decide(env, old(tick), old(State()), c));
              State() == s && rc == r.rc
    {
      hide Valid;
      if ctx.None? || data.None? {
        return BadReference;
      }
      var blob := live[ctx.value];
      if blob.kind != kind {
        return BadReference;
      }
      var ok := LibraryCall();
      if !ok {
        SetAbsorbed(ctx.value, env.debris(tick - 1));
        return GeneralFailure;
      }
      SetAbsorbed(ctx.value, blob.absorbed + data.value);
      return Success;
    }

    /** iesys_cryptossl_hash_finish: on failure the context stays with the caller. out is what the
        library puts in the buffer. */
    method OsslHashFinish(ctx: Option<Handle>, room: Option<nat>) returns (rc: RC, ctx': Option<Handle>, out: seq<byte>)
      requires Valid() && env.flavour == Ossl
      requires ctx.Some? ==> ctx.value in live
      modifies this
      ensures Valid() && (rc == Success ==> tick == old(tick) + FinishCost(Ossl, HashKind))
      ensures var c := Call.Finish(HashKind, ctx, room);
              var (s, r) := Step(env.crypto, old(State()), c, Decide(env, old(tick), old(State()), c));
              State() == s && rc == r.rc && ctx' == r.ctx && out == r.out
    {
      hide Valid, Step, Decide, Debris, BlobDigest;
      FinishCases(env, tick, State(), HashKind, ctx, room);
      if ctx.None? || room.None? {
        return BadReference, ctx, [];
      }
      var blob := live[ctx.value];
      if blob.kind != HashKind {
        return BadReference, ctx, [];
      }
      if room.value < blob.len {
        return BadSize, ctx, [];
      }
      var t := tick;
      var ok := LibraryCall();
      if ok {
        // the digest size that EVP_DigestFinal reports may still be wrong
        ok := LibraryCall();
      }
      if ok {
        rc, ctx', out := Success, None, BlobDigest(env.crypto, blob);
        Release(ctx.value);
      } else {
        rc, ctx', out := GeneralFailure, ctx, Debris(env, t, blob.len);
        SetAbsorbed(ctx.value, out);
      }
    }

    /** iesys_cryptossl_hmac_finish: the context is freed whether or not the library fails. */
    method OsslHmacFinish(ctx: Option<Handle>, room: Option<nat>) returns (rc: RC, ctx': Option<Handle>, out: seq<byte>)
      requires Valid() && env.flavour == Ossl
      requires ctx.Some? ==> ctx.value in live
      modifies this
      ensures Valid() && (rc == Success ==> tick == old(tick) + FinishCost(Ossl, HmacKind))
      ensures var c := Call.Finish(HmacKind, ctx, room);
              var (s, r) := Step(env.crypto, old(State()), c, Decide(env, old(tick), old(State()), c));
              State() == s && rc == r.rc && ctx' == r.ctx && out == r.out
    {
      hide Valid, Step, Decide, Debris, BlobDigest;
      FinishCases(env, tick, State(), HmacKind, ctx, room);
      if ctx.None? || room.None? {
        return BadReference, ctx, [];
      }
      var blob := live[ctx.value];
      if blob.kind != HmacKind {
        return BadReference, ctx, [];
      }
      if room.value < blob.len {
        return BadSize, ctx, [];
      }
      var t := tick;
      var ok := LibraryCall();
      rc, out := if ok then Success else GeneralFailure,
        if ok then BlobDigest(env.crypto, blob) else Debris(env, t, blob.len);
      Release(ctx.value);
      ctx' := None;
    }

    /** The two abort functions: a context of the other kind is left alone. */
    method OsslAbort(kind: Kind, ctx: Option<Handle>) returns (ctx': Option<Handle>)
      requires Valid() && env.flavour == Ossl
      requires ctx.Some? ==> ctx.value in live
      modifies this
      ensures Valid() && tick == old(tick)
      ensures var (s, r) := Step(env.crypto, old(State()), Call.Abort(kind, ctx), Works);
              State() == s && ctx' == r.ctx
    {
      if ctx.None? {
        return ctx;
      }
      if live[ctx.value].kind != kind {
        return ctx;
      }
      Release(ctx.value);
      return None;
    }

    // -------------------------------------------------------------- mbedTLS

    method MbedPrepare(kind: Kind, alg: AlgId) returns (rc: RC)
      requires env.flavour == Mbed
      modifies this`tick, this`structs, this`mdCtxs
      ensures rc == StartRc(env, old(tick), kind, alg)
      ensures tick >= old(tick) && (rc == Success ==> tick == old(tick) + StartCost(Mbed, kind))
      ensures var taken := if rc == Success then 1 else 0;
              structs == old(structs) + taken && mdCtxs == old(mdCtxs) + taken
    {
      hide Valid, OwnedBy, Implements;
      var ok := LibraryCall();
      if !ok {
        return Memory;
      }
      structs := structs + 1;
      var hasMdCtx := false;
      label cleanup: {
        // an algorithm outside the switch is never looked up
        if !Implements(Mbed, alg) {
          rc := NotImplemented;
          break cleanup;
        }
        ok := LibraryCall();
        if !ok {
          rc := NotImplemented;
          break cleanup;
        }
        ok := LibraryCall();
        if !ok {
          rc := GeneralFailure;
          break cleanup;
        }
        mdCtxs, hasMdCtx := mdCtxs + 1, true;
        ok := LibraryCall();
        if !ok {
          rc := GeneralFailure;
          break cleanup;
        }
        return Success;
      }
      if hasMdCtx {
        mdCtxs := mdCtxs - 1;
      }
      structs := structs - 1;
    }

    /** iesys_cryptmbed_hash_start and iesys_cryptmbed_hmac_start */
    method MbedStart(kind: Kind, hasOut: bool, alg: AlgId, key: Option<seq<byte>>) returns (rc: RC, ctx: Option<Handle>)
      requires Valid() && env.flavour == Mbed
      modifies this
      ensures Valid() && (rc == Success ==> tick == old(tick) + StartCost(Mbed, kind))
      ensures var c := Call.Start(kind, alg, key, hasOut);
              var (s, r) := Step(env.crypto, old(State()), c, Decide(env, old(tick), old(State()), c));
              State() == s && rc == r.rc && ctx == r.ctx
    {
      if !hasOut || (kind == HmacKind && key.None?) {
        return BadReference, None;
      }
      rc := MbedPrepare(kind, alg);
      if rc != Success {
        return rc, None;
      }
      ctx := Publish(Blob(kind, alg, if kind == HmacKind then key.value else [], DigestSize(alg).value, []));
    }

    /** iesys_cryptmbed_hash_update and iesys_cryptmbed_hmac_update */
    method MbedUpdate(kind: Kind, ctx: Option<Handle>, data: Option<seq<byte>>) returns (rc: RC)
      requires Valid() && env.flavour == Mbed
      requires ctx.Some? ==> ctx.value in live
      modifies this
      ensures Valid() && (rc == Success ==> tick == old(tick) + 1)
      ensures var c := Call.Update(kind, ctx, data);
              var (s, r) := Step(env.crypto, old(State()), c, Decide(env, old(tick), old(State()), c));
              State() == s && rc == r.rc
    {
      hide Valid;
      if ctx.None? || data.None? {
        return BadReference;
      }
      var blob := live[ctx.value];
      if blob.kind != kind {
        return BadReference;
      }
      var ok := LibraryCall();
      if !ok {
        SetAbsorbed(ctx.value, env.debris(tick - 1));
        return GeneralFailure;
      }
      SetAbsorbed(ctx.value, blob.absorbed + data.value);
      return Success;
    }

    /** iesys_cryptmbed_hash_finish and iesys_cryptmbed_hmac_finish: the context is always freed. */
    method MbedFinish(kind: Kind, ctx: Option<Handle>, room: Option<nat>)
      returns (rc: RC, ctx': Option<Handle>, out: seq<byte>)
      requires Valid() && env.flavour == Mbed
      requires ctx.Some? ==> ctx.value in live
      modifies this
      ensures Valid() && (rc == Success ==> tick == old(tick) + FinishCost(Mbed, kind))
      ensures var c := Call.Finish(kind, ctx, room);
              var (s, r) := Step(env.crypto, old(State()), c, Decide(env, old(tick), old(State()), c));
              State() == s && rc == r.rc && ctx' == r.ctx && out == r.out
    {
      hide Valid, Step, Decide, Debris, BlobDigest;
      FinishCases(env, tick, State(), kind, ctx, room);
      if ctx.None? || room.None? {
        return BadReference, ctx, [];
      }
      var blob := live[ctx.value];
      if blob.kind != kind {
        return BadReference, ctx, [];
      }
      if room.value < blob.len {
        return BadSize, ctx, [];
      }
      var t := tick;
      var ok := LibraryCall();
      if ok {
        rc, out := Success, BlobDigest(env.crypto, blob);
      } else {
        rc, out := GeneralFailure, Debris(env, t, blob.len);
      }
      Release(ctx.value);
      ctx' := None;
    }

    /** iesys_cryptmbed_hash_abort and iesys_cryptmbed_hmac_abort */
    method MbedAbort(kind: Kind, ctx: Option<Handle>) returns (ctx': Option<Handle>)
      requires Valid() && env.flavour == Mbed
      requires ctx.Some? ==> ctx.value in live
      modifies this
      ensures Valid() && tick == old(tick)
      ensures var (s, r) := Step(env.crypto, old(State()), Call.Abort(kind, ctx), Works);
              State() == s && ctx' == r.ctx
    {
      if ctx.None? {
        return ctx;
      }
      if live[ctx.value].kind != kind {
        return ctx;
      }
      Release(ctx.value);
      return None;
    }

    // -------------------------------------------------------------- the callback table

    predicate Bound(kind: Kind, op: Op) {
      Slot(kind, op) in env.bound
    }

    /** iesys_crypto_hash_start and iesys_crypto_hmac_start */
    method Start(kind: Kind, alg: AlgId, key: Option<seq<byte>>) returns (rc: RC, ctx: Option<Handle>)
      requires Valid()
      modifies this
      ensures Valid() && rc == StartedRc(env, old(tick), kind, alg, key)
      ensures rc == if !Bound(kind, StartOp) then CallbackNull
                    else if kind == HmacKind && key.None? then BadReference
                    else StartRc(env, old(tick), kind, alg)
      ensures rc == Success ==>
                && ctx == Some(old(next)) && next == old(next) + 1
                && DigestSize(alg).Some?
                && old(next) in live && live - {old(next)} == old(live)
                && live[old(next)]
                     == Blob(kind, alg, if kind == HmacKind then key.value else [], DigestSize(alg).value, [])
                && tick == old(tick) + StartCost(env.flavour, kind)
      ensures rc != Success ==> live == old(live) && next == old(next)
    {
      if !Bound(kind, StartOp) {
        return CallbackNull, None;
      }
      match env.flavour {
        case Ossl => rc, ctx := OsslStart(kind, true, alg, key);
        case Mbed => rc, ctx := MbedStart(kind, true, alg, key);
      }
      StartEffect(env, old(tick), old(State()), kind, alg, key);
    }

    /** iesys_crypto_hash_update and iesys_crypto_hmac_update */
    method Update(kind: Kind, ctx: Option<Handle>, data: Option<seq<byte>>) returns (rc: RC)
      requires Valid()
      requires ctx.Some? ==> ctx.value in live
      modifies this
      ensures Valid() && next == old(next)
      ensures rc == if !Bound(kind, UpdateOp) then CallbackNull
                    else if ctx.None? || data.None? || old(live)[ctx.value].kind != kind then BadReference
                    else if env.faults(old(tick)) then GeneralFailure
                    else Success
      ensures rc == CallbackNull || rc == BadReference ==> live == old(live)
      ensures ctx.Some? ==>
                && ctx.value in live && live - {ctx.value} == old(live) - {ctx.value}
                && live[ctx.value].kind == old(live)[ctx.value].kind
      ensures rc == Success ==>
                && tick == old(tick) + 1
                && live[ctx.value] == old(live)[ctx.value].(absorbed := old(live)[ctx.value].absorbed + data.value)
    {
      hide Valid, DigestSize;
      ghost var before := live;
      if !Bound(kind, UpdateOp) {
        return CallbackNull;
      }
      match env.flavour {
        case Ossl => rc := OsslUpdate(kind, ctx, data);
        case Mbed => rc := MbedUpdate(kind, ctx, data);
      }
      assert ctx.Some? ==> live - {ctx.value} == before - {ctx.value};
    }

    /** The finish of whichever backend is linked; out is what it puts in the buffer. */
    method FinishInternal(kind: Kind, ctx: Option<Handle>, room: Option<nat>)
      returns (rc: RC, ctx': Option<Handle>, out: seq<byte>)
      requires Valid()
      requires ctx.Some? ==> ctx.value in live
      modifies this
      ensures Valid() && next == old(next)
      ensures rc == FinishRc(env, old(tick), old(State()), kind, ctx, room)
      ensures rc == Success ==>
                && ctx' == None && live == old(live) - {ctx.value}
                && tick == old(tick) + FinishCost(env.flavour, kind)
                && |out| == old(live)[ctx.value].len
                && out == BlobDigest(env.crypto, old(live)[ctx.value])
      ensures rc == GeneralFailure ==> |out| <= old(live)[ctx.value].len
      ensures rc == BadReference || rc == BadSize ==> out == [] && live == old(live)
      ensures rc != Success ==> KeptOrFreed(env.flavour, kind, ctx, ctx', rc, old(live), live)
    {
      if env.flavour == Ossl {
        if kind == HashKind {
          rc, ctx', out := OsslHashFinish(ctx, room);
        } else {
          rc, ctx', out := OsslHmacFinish(ctx, room);
        }
      } else {
        rc, ctx', out := MbedFinish(kind, ctx, room);
      }
      FinishEffect(env, old(tick), old(State()), kind, ctx, room);
    }

    /** iesys_crypto_hash_finish and iesys_crypto_hmac_finish. Nothing but at most hash_len bytes of
        the buffer from off is written. */
    method Finish(kind: Kind, ctx: Option<Handle>, buffer: array?<byte>, off: nat, room: Option<nat>)
      returns (rc: RC, ctx': Option<Handle>, size': Option<nat>)
      requires Valid()
      requires ctx.Some? ==> ctx.value in live
      requires buffer != null && room.Some? ==> off + room.value <= buffer.Length
      modifies this, buffer
      ensures Valid() && next == old(next)
      ensures rc == if !Bound(kind, FinishOp) then CallbackNull
                    else FinishRc(env, old(tick), old(State()), kind, ctx, if buffer == null then None else room)
      ensures rc == Success ==>
                && ctx' == None && live == old(live) - {ctx.value}
                && tick == old(tick) + FinishCost(env.flavour, kind)
                && size' == Some(old(live)[ctx.value].len)
                && |BlobDigest(env.crypto, old(live)[ctx.value])| == old(live)[ctx.value].len
                && buffer[..] == Splice(old(buffer[..]), off, BlobDigest(env.crypto, old(live)[ctx.value]))
      ensures rc != Success ==> KeptOrFreed(env.flavour, kind, ctx, ctx', rc, old(live), live)
      ensures rc == GeneralFailure ==> SameOutside(old(buffer[..]), buffer[..], off, old(live)[ctx.value].len)
      ensures rc != Success && rc != GeneralFailure && buffer != null ==> buffer[..] == old(buffer[..])
      ensures rc != Success && !(rc == GeneralFailure && env.flavour == Ossl && kind == HmacKind) ==> size' == room
    {
      hide Valid, DigestSize, Digest, FinishFaults;
      ctx', size' := ctx, room;
      if !Bound(kind, FinishOp) {
        return CallbackNull, ctx, room;
      }
      var out;
      rc, ctx', out := FinishInternal(kind, ctx, if buffer == null then None else room);
      if out != [] {
        Write(buffer, off, out);
      }
      // EVP_DigestSignFinal has the pointer to the size itself
      if rc == Success || (rc == GeneralFailure && env.flavour == Ossl && kind == HmacKind) {
        size' := Some(|out|);
      }
    }

    /** What the library puts in the output buffer. */
    method Write(buffer: array<byte>, off: nat, bytes: seq<byte>)
      requires off + |bytes| <= buffer.Length
      modifies buffer
      ensures buffer[..] == Splice(old(buffer[..]), off, bytes)
    {
      forall i | 0 <= i < |bytes| {
        buffer[off + i] := bytes[i];
      }
    }

    /** iesys_crypto_hash_abort and iesys_crypto_hmac_abort */
    method Abort(kind: Kind, ctx: Option<Handle>) returns (rc: RC, ctx': Option<Handle>)
      requires Valid()
      requires ctx.Some? ==> ctx.value in live
      modifies this
      ensures Valid() && next == old(next) && tick == old(tick)
      ensures rc == if Bound(kind, AbortOp) then Success else CallbackNull
      ensures live == if ctx.Some? && rc == Success && old(live)[ctx.value].kind == kind then old(live) - {ctx.value}
                      else old(live)
      ensures ctx' == if ctx.Some? && rc == Success && old(live)[ctx.value].kind == kind then None else ctx
    {
      if !Bound(kind, AbortOp) {
        return CallbackNull, ctx;
      }
      rc := Success;
      match env.flavour {
        case Ossl => ctx' := OsslAbort(kind, ctx);
        case Mbed => ctx' := MbedAbort(kind, ctx);
      }
    }
  }
}
