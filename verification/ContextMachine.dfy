/** The hash/HMAC context protocol (start, update, finish, abort) as one machine on values.
    Both built-in backends are proved to be instances of it in module Backends. */
module ContextMachine {
  import opened Tss
  import opened Bytes
  import opened Primitives

  datatype Kind = HashKind | HmacKind

  /** The address of a heap context; addresses are never handed out twice. */
  type Handle = nat

  /** A live context: its type tag, algorithm, key, hash_len and the bytes absorbed so far. */
  datatype Blob = Blob(kind: Kind, alg: AlgId, key: seq<byte>, len: nat, absorbed: seq<byte>)

  datatype State = State(live: map<Handle, Blob>, next: Handle)

  ghost predicate Valid(s: State) {
    forall h :: h in s.live ==> h < s.next && DigestSize(s.live[h].alg) == Some(s.live[h].len)
  }

  function Digest(c: Crypto, kind: Kind, alg: AlgId, key: seq<byte>, msg: seq<byte>): seq<byte> {
    match kind
    case HashKind => c.hash(alg, msg)
    case HmacKind => c.hmac(alg, key, msg)
  }

  function BlobDigest(c: Crypto, b: Blob): seq<byte> {
    Digest(c, b.kind, b.alg, b.key, b.absorbed)
  }

  /** A call, with None for a NULL pointer. room is what *size claims of the output buffer, None
      when buffer or size is NULL; hasOut says that start was given somewhere to store the context. */
  datatype Call =
    | Start(kind: Kind, alg: AlgId, key: Option<seq<byte>>, hasOut: bool)
    | Update(kind: Kind, ctx: Option<Handle>, data: Option<seq<byte>>)
    | Finish(kind: Kind, ctx: Option<Handle>, room: Option<nat>)
    | Abort(kind: Kind, ctx: Option<Handle>)

  /** What a call returns: its code, the context pointer afterwards, the bytes put in the buffer. */
  datatype Reply = Reply(rc: RC, ctx: Option<Handle>, out: seq<byte>)

  /** What the crypto library does once a call has reached it. A failure may leave any debris in
      the digest state and the output buffer, and may or may not free the context. */
  datatype Verdict = Works | Breaks(rc: RC, freed: bool, debris: seq<byte>)

  /** The argument checks made before the library is touched: Some(rc) refuses the call. A handle
      that is not live is a dangling pointer: C leaves it undefined, the class methods exclude it, and
      module PointerCells shows that no caller ever comes to hold one. Here it is refused. */
  function Refusal(s: State, c: Call): Option<RC> {
    match c
    case Start(kind, _, key, hasOut) =>
      if !hasOut || (kind == HmacKind && key.None?) then Some(BadReference) else None
    case Update(kind, ctx, data) =>
      if ctx.None? || data.None? || ctx.value !in s.live || s.live[ctx.value].kind != kind then Some(BadReference)
      else None
    case Finish(kind, ctx, room) =>
      if ctx.None? || room.None? || ctx.value !in s.live || s.live[ctx.value].kind != kind then Some(BadReference)
      else if room.value < s.live[ctx.value].len then Some(BadSize)
      else None
    case Abort(kind, ctx) =>
      if ctx.None? || ctx.value !in s.live || s.live[ctx.value].kind != kind then Some(Success)
      else None
  }

  function CtxOf(c: Call): Option<Handle> {
    if c.Start? then None else c.ctx
  }

  function Step(p: Crypto, s: State, c: Call, v: Verdict): (State, Reply) {
    var refusal := Refusal(s, c);
    if refusal.Some? then (s, Reply(refusal.value, CtxOf(c), []))
    else match c
      case Start(kind, alg, key, _) =>
        if v.Breaks? then (s, Reply(v.rc, None, []))
        else if DigestSize(alg).None? then (s, Reply(NotImplemented, None, []))
        else
          var blob := Blob(kind, alg, if kind == HmacKind then key.value else [], DigestSize(alg).value, []);
          (State(s.live[s.next := blob], s.next + 1), Reply(Success, Some(s.next), []))
      case Update(_, ctx, data) =>
        var b := s.live[ctx.value];
        if v.Breaks? then (s.(live := s.live[ctx.value := b.(absorbed := v.debris)]), Reply(v.rc, ctx, []))
        else (s.(live := s.live[ctx.value := b.(absorbed := b.absorbed + data.value)]), Reply(Success, ctx, []))
      case Finish(_, ctx, _) =>
        var b := s.live[ctx.value];
        if v.Works? then (s.(live := s.live - {ctx.value}), Reply(Success, None, BlobDigest(p, b)))
        else if v.freed then (s.(live := s.live - {ctx.value}), Reply(v.rc, None, v.debris))
        else (s.(live := s.live[ctx.value := b.(absorbed := v.debris)]), Reply(v.rc, ctx, v.debris))
      case Abort(_, ctx) =>
        (s.(live := s.live - {ctx.value}), Reply(Success, None, []))
  }

  /** A start without an out pointer, an HMAC start without a key, and calls with a NULL pointer or a
      context of the other kind are answered with BAD_REFERENCE, a finish into too small a buffer
      with BAD_SIZE, and an abort of the other kind is ignored; none of them changes any context,
      whatever the library would have done. */
  lemma RefusedCallsChangeNothing(p: Crypto, s: State, kind: Kind, ctx: Option<Handle>, v: Verdict)
    requires ctx.Some? ==> ctx.value in s.live
    ensures ctx.None? || s.live[ctx.value].kind != kind ==>
              && (forall data :: Step(p, s, Update(kind, ctx, data), v) == (s, Reply(BadReference, ctx, [])))
              && (forall room :: Step(p, s, Finish(kind, ctx, room), v) == (s, Reply(BadReference, ctx, [])))
              && Step(p, s, Abort(kind, ctx), v) == (s, Reply(Success, ctx, []))
    ensures Step(p, s, Update(kind, ctx, None), v) == (s, Reply(BadReference, ctx, []))
    ensures Step(p, s, Finish(kind, ctx, None), v) == (s, Reply(BadReference, ctx, []))
    ensures ctx.Some? && s.live[ctx.value].kind == kind ==>
              forall room: nat :: room < s.live[ctx.value].len ==>
                Step(p, s, Finish(kind, ctx, Some(room)), v) == (s, Reply(BadSize, ctx, []))
    ensures forall alg: AlgId, key: Option<seq<byte>>, hasOut: bool :: !hasOut || (kind == HmacKind && key.None?) ==>
              Step(p, s, Start(kind, alg, key, hasOut), v) == (s, Reply(BadReference, None, []))
  {
  }

  function Run(p: Crypto, s: State, calls: seq<Call>, vs: seq<Verdict>): (State, seq<Reply>)
    requires |calls| == |vs|
    decreases |calls|
  {
    if calls == [] then (s, [])
    else
      var (s1, r) := Step(p, s, calls[0], vs[0]);
      var (s2, rs) := Run(p, s1, calls[1..], vs[1..]);
      (s2, [r] + rs)
  }

  lemma {:induction false} RunKeepsValid(p: Crypto, s: State, calls: seq<Call>, vs: seq<Verdict>)
    requires |calls| == |vs| && Valid(s)
    ensures Valid(Run(p, s, calls, vs).0)
    ensures s.next <= Run(p, s, calls, vs).0.next
    decreases |calls|
  {
    if calls != [] {
      RunKeepsValid(p, Step(p, s, calls[0], vs[0]).0, calls[1..], vs[1..]);
    }
  }

  // ---------------------------------------------------------------- the digest is that of the whole message

  /** The call gets past the argument checks and acts on context h. */
  predicate Reaches(s: State, c: Call, h: Handle) {
    CtxOf(c) == Some(h) && Refusal(s, c).None?
  }

  /** Between start and finish of h only successful updates reach h. Refused calls (NULL, wrong
      kind, too small a buffer) and calls on any other context are unrestricted. */
  predicate OnlyFed(p: Crypto, s: State, h: Handle, calls: seq<Call>, vs: seq<Verdict>)
    requires |calls| == |vs|
    decreases |calls|
  {
    calls != [] ==>
      && (Reaches(s, calls[0], h) ==> calls[0].Update? && vs[0].Works?)
      && OnlyFed(p, Step(p, s, calls[0], vs[0]).0, h, calls[1..], vs[1..])
  }

  /** The concatenation of what those updates carried. */
  function Fed(p: Crypto, s: State, h: Handle, calls: seq<Call>, vs: seq<Verdict>): seq<byte>
    requires |calls| == |vs|
    decreases |calls|
  {
    if calls == [] then []
    else
      (if Reaches(s, calls[0], h) && calls[0].Update? then calls[0].data.value else [])
      + Fed(p, Step(p, s, calls[0], vs[0]).0, h, calls[1..], vs[1..])
  }

  lemma {:induction false} MessageAccumulates(p: Crypto, s: State, h: Handle, calls: seq<Call>, vs: seq<Verdict>)
    requires |calls| == |vs| && Valid(s) && h in s.live && OnlyFed(p, s, h, calls, vs)
    ensures var s' := Run(p, s, calls, vs).0;
            && h in s'.live
            && s'.live[h] == s.live[h].(absorbed := s.live[h].absorbed + Fed(p, s, h, calls, vs))
    decreases |calls|
  {
    hide Step, Reaches;
    if calls != [] {
      var s1 := Step(p, s, calls[0], vs[0]).0;
      StepFeeds(p, s, h, calls[0], vs[0]);
      MessageAccumulates(p, s1, h, calls[1..], vs[1..]);
    } else {
      assert Fed(p, s, h, calls, vs) == [];
    }
  }

  lemma StepFeeds(p: Crypto, s: State, h: Handle, c: Call, v: Verdict)
    requires Valid(s) && h in s.live && (Reaches(s, c, h) ==> c.Update? && v.Works?)
    ensures var s' := Step(p, s, c, v).0;
            var piece := if Reaches(s, c, h) && c.Update? then c.data.value else [];
            && Valid(s') && h in s'.live
            && s'.live[h] == s.live[h].(absorbed := s.live[h].absorbed + piece)
  {
    if !Reaches(s, c, h) {
      assert s.live[h].absorbed + [] == s.live[h].absorbed;
    }
  }

  /** Start, any interleaved run, finish: the digest written is that of the concatenated updates,
      however they were partitioned, and the context is gone. */
  lemma WholeRunDigest(p: Crypto, s: State, kind: Kind, alg: AlgId, key: Option<seq<byte>>,
                       started: State, calls: seq<Call>, vs: seq<Verdict>, room: nat)
    requires Valid(s) && |calls| == |vs|
    requires DigestSize(alg).Some? && (kind == HmacKind ==> key.Some?) && room >= DigestSize(alg).value
    requires started == Step(p, s, Start(kind, alg, key, true), Works).0
    requires OnlyFed(p, started, s.next, calls, vs)
    ensures var fed := Run(p, started, calls, vs).0;
            Step(p, fed, Finish(kind, Some(s.next), Some(room)), Works) ==
            (State(fed.live - {s.next}, fed.next),
             Reply(Success, None, Digest(p, kind, alg, if kind == HmacKind then key.value else [],
                                         Fed(p, started, s.next, calls, vs))))
  {
    var h, msg := s.next, Fed(p, started, s.next, calls, vs);
    var blob := Blob(kind, alg, if kind == HmacKind then key.value else [], DigestSize(alg).value, []);
    assert Valid(started) && h in started.live && started.live[h] == blob;
    var fed := Run(p, started, calls, vs).0;
    assert h in fed.live && fed.live[h] == blob.(absorbed := msg) by {
      MessageAccumulates(p, started, h, calls, vs);
      assert [] + msg == msg;
    }
    FinishReply(p, fed, h, room);
  }

  lemma FinishReply(p: Crypto, s: State, h: Handle, room: nat)
    requires h in s.live && room >= s.live[h].len
    ensures Step(p, s, Finish(s.live[h].kind, Some(h), Some(room)), Works)
         == (State(s.live - {h}, s.next), Reply(Success, None, BlobDigest(p, s.live[h])))
  {
  }

  function Updates(kind: Kind, h: Handle, pieces: seq<seq<byte>>): (calls: seq<Call>)
    ensures |calls| == |pieces|
  {
    if pieces == [] then [] else [Update(kind, Some(h), Some(pieces[0]))] + Updates(kind, h, pieces[1..])
  }

  function AllWork(n: nat): (vs: seq<Verdict>)
    ensures |vs| == n
  {
    if n == 0 then [] else [Works] + AllWork(n - 1)
  }

  /** A run of plain updates feeds exactly its pieces, so two partitions of one message agree. */
  lemma {:induction false} UpdatesFeedPieces(p: Crypto, s: State, h: Handle, pieces: seq<seq<byte>>)
    requires Valid(s) && h in s.live
    ensures var calls := Updates(s.live[h].kind, h, pieces);
            && OnlyFed(p, s, h, calls, AllWork(|pieces|))
            && Fed(p, s, h, calls, AllWork(|pieces|)) == Concat(pieces)
    decreases |pieces|
  {
    if pieces != [] {
      var calls := Updates(s.live[h].kind, h, pieces);
      UpdatesFeedPieces(p, Step(p, s, calls[0], Works).0, h, pieces[1..]);
      assert calls[1..] == Updates(s.live[h].kind, h, pieces[1..]);
      assert AllWork(|pieces|)[1..] == AllWork(|pieces| - 1);
    }
  }
}
