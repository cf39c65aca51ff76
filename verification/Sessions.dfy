/** The calls of one start-to-finish computation, with what each establishes about the whole of it:
    t and before are the clock and the contexts when the computation began. */
module Sessions {
  import opened Tss
  import opened Bytes
  import opened ContextMachine
  import opened Backends
  import opened CryptoBackend

  ghost function KeyBytes(s: Session): seq<byte> {
    if s.kind == HmacKind then Opt(s.key) else []
  }

  function SizeOrZero(n: Option<nat>): nat {
    if n.Some? then n.value else 0
  }

  /** n updates have succeeded and the session's context has absorbed msg. */
  ghost predicate Feeding(cb: Backend, t: nat, before: State, s: Session, n: nat, msg: seq<byte>)
    reads cb
  {
    && StartedRc(cb.env, t, s.kind, s.alg, s.key) == Success && DigestSize(s.alg).Some?
    && (n > 0 ==> Slot(s.kind, UpdateOp) in cb.env.bound)
    && Quiet(cb.env, FeedTime(cb.env, t, s), FeedTime(cb.env, t, s) + n)
    && cb.tick == FeedTime(cb.env, t, s) + n
    && cb.next == before.next + 1
    && before.next in cb.live && cb.live - {before.next} == before.live
    && cb.live[before.next] == Blob(s.kind, s.alg, KeyBytes(s), DigestSize(s.alg).value, msg)
  }

  /** A call has failed with rc and the error label is next; ctx is what the pointer holds there. */
  ghost predicate AtError(cb: Backend, t: nat, before: State, s: Session, rc: RC, ctx: Option<Handle>)
    reads cb
  {
    && rc == SessionRc(cb.env, t, s) != Success
    && StartedRc(cb.env, t, s.kind, s.alg, s.key) == Success
    && cb.next == before.next + 1
    && ctx == (if Held(cb.env, t, s) then Some(before.next) else None)
    && (ctx.None? ==> cb.live == before.live)
    && (ctx.Some? ==> before.next in cb.live && cb.live[before.next].kind == s.kind
                      && cb.live - {before.next} == before.live)
  }

  /** The session is over with rc. */
  ghost predicate Done(cb: Backend, t: nat, before: State, s: Session, rc: RC)
    reads cb
  {
    rc == SessionRc(cb.env, t, s) && Accounted(cb.env, t, s, before, cb.State(), cb.tick)
  }

  method Begin(cb: Backend, kind: Kind, alg: AlgId, key: Option<seq<byte>>, ghost s: Session)
    returns (rc: RC, ctx: Option<Handle>)
    requires cb.Valid() && s.kind == kind && s.alg == alg && s.key == key
    modifies cb
    ensures cb.Valid()
    ensures rc == Success ==> Feeding(cb, old(cb.tick), old(cb.State()), s, 0, []) && ctx == Some(old(cb.next))
    ensures rc != Success ==> Done(cb, old(cb.tick), old(cb.State()), s, rc) && cb.live == old(cb.live)
  {
    rc, ctx := cb.Start(kind, alg, key);
  }

  method Feed(cb: Backend, kind: Kind, ctx: Option<Handle>, data: seq<byte>,
              ghost t: nat, ghost before: State, ghost s: Session, ghost n: nat, ghost msg: seq<byte>)
    returns (rc: RC)
    requires cb.Valid() && Feeding(cb, t, before, s, n, msg) && n < s.updates
    requires kind == s.kind && ctx == Some(before.next)
    modifies cb
    ensures cb.Valid()
    ensures rc == Success ==> Feeding(cb, t, before, s, n + 1, msg + data)
    ensures rc != Success ==> AtError(cb, t, before, s, rc, ctx)
  {
    hide Backend.Valid, StartRc, StartedRc, StartCost, DigestSize;
    rc := cb.Update(kind, ctx, Some(data));
    if rc == GeneralFailure {
      assert cb.env.faults(FeedTime(cb.env, t, s) + n);
      assert !Quiet(cb.env, FeedTime(cb.env, t, s), FinishTime(cb.env, t, s));
    }
  }

  /** An update made only when the pointer to its data is not NULL. */
  method FeedOpt(cb: Backend, kind: Kind, ctx: Option<Handle>, data: Option<seq<byte>>,
                 ghost t: nat, ghost before: State, ghost s: Session, ghost n: nat, ghost msg: seq<byte>)
    returns (rc: RC)
    requires cb.Valid() && Feeding(cb, t, before, s, n, msg) && n + OptCount(data) <= s.updates
    requires kind == s.kind && ctx == Some(before.next)
    modifies cb
    ensures cb.Valid()
    ensures rc == Success ==> Feeding(cb, t, before, s, n + OptCount(data), msg + Opt(data))
    ensures rc != Success ==> AtError(cb, t, before, s, rc, ctx)
  {
    if data.Some? {
      rc := Feed(cb, kind, ctx, data.value, t, before, s, n, msg);
    } else {
      rc := Success;
      assert msg + Opt(data) == msg;
    }
  }

  method End(cb: Backend, kind: Kind, ctx: Option<Handle>, buffer: array?<byte>, off: nat, room: Option<nat>,
             ghost t: nat, ghost before: State, ghost s: Session, ghost msg: seq<byte>)
    returns (rc: RC, ctx': Option<Handle>, size': Option<nat>)
    requires cb.Valid() && 0 < s.updates && Feeding(cb, t, before, s, s.updates, msg)
    requires kind == s.kind && ctx == Some(before.next) && s.room == (if buffer == null then None else room)
    requires buffer != null && room.Some? ==> off + room.value <= buffer.Length
    modifies cb, buffer
    ensures cb.Valid()
    ensures rc == Success ==>
              var digest := Digest(cb.env.crypto, s.kind, s.alg, KeyBytes(s), msg);
              && Done(cb, t, before, s, rc) && cb.live == before.live && size' == DigestSize(s.alg) == Some(|digest|)
              && buffer != null && off + |digest| <= buffer.Length
              && buffer[..] == Splice(old(buffer[..]), off, digest)
    ensures rc != Success ==> AtError(cb, t, before, s, rc, ctx')
    ensures rc != Success && buffer != null ==>
              SameOutside(old(buffer[..]), buffer[..], off, SizeOrZero(room))
  {
    hide Backend.Valid, Splice, StartRc, StartedRc, StartCost, DigestSize;
    rc, ctx', size' := cb.Finish(kind, ctx, buffer, off, room);
  }

  method Quit(cb: Backend, kind: Kind, ctx: Option<Handle>, ghost t: nat, ghost before: State, ghost s: Session,
              ghost rc: RC)
    requires cb.Valid() && AtError(cb, t, before, s, rc, ctx) && kind == s.abort
    modifies cb
    ensures cb.Valid() && Done(cb, t, before, s, rc)
    ensures s.abort == s.kind && cb.Bound(s.kind, AbortOp) ==> cb.live == before.live
  {
    var _, _ := cb.Abort(kind, ctx);
  }
}
