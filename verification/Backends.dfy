/** The OpenSSL and mbedTLS backends: every foreign call may fail, as an arbitrary schedule says. */
module Backends {
  import opened Tss
  import opened Bytes
  import opened Primitives
  import opened ContextMachine

  datatype Flavour = Ossl | Mbed

  datatype Op = StartOp | UpdateOp | FinishOp | AbortOp
  datatype Slot = Slot(kind: Kind, op: Op)

  /** What the environment decides: the linked library, its functions, which of its calls fail
      (the n-th when faults(n)), what a failing call leaves behind, and which of the eight
      hash/HMAC entries of the callback table are non-NULL. */
  datatype Env = Env(
    flavour: Flavour,
    crypto: Crypto,
    faults: nat -> bool,
    debris: nat -> seq<byte>,
    bound: set<Slot>)

  /** What the library call failing at time t leaves in an output buffer of the given size. */
  function Debris(e: Env, t: nat, len: nat): (d: seq<byte>)
    ensures |d| <= len
  {
    if |e.debris(t)| <= len then e.debris(t) else e.debris(t)[..len]
  }

  ghost predicate Faultless(e: Env) {
    forall t :: !e.faults(t)
  }

  /** The algorithms a backend maps to a library digest; only OpenSSL knows SM3. */
  predicate Implements(flavour: Flavour, alg: AlgId) {
    match flavour
    case Ossl => DigestSize(alg).Some?
    case Mbed => alg == ALG_SHA1 || alg == ALG_SHA256 || alg == ALG_SHA384 || alg == ALG_SHA512
  }

  /** The number of library calls a successful start, or finish, makes. */
  function StartCost(flavour: Flavour, kind: Kind): nat {
    match flavour
    case Ossl => if kind == HashKind then 5 else 6
    case Mbed => 4
  }

  function FinishCost(flavour: Flavour, kind: Kind): nat {
    if flavour == Ossl && kind == HashKind then 2 else 1
  }

  /** The code of a start that reached the library at time t. */
  function StartRc(e: Env, t: nat, kind: Kind, alg: AlgId): RC {
    match e.flavour
    case Ossl =>
      if e.faults(t) || e.faults(t + 1) then Memory
      else if !Implements(Ossl, alg) || e.faults(t + 2) then NotImplemented
      else if e.faults(t + 3) || e.faults(t + 4) || (kind == HmacKind && e.faults(t + 5)) then GeneralFailure
      else Success
    case Mbed =>
      if e.faults(t) then Memory
      else if !Implements(Mbed, alg) || e.faults(t + 1) then NotImplemented
      else if e.faults(t + 2) || e.faults(t + 3) then GeneralFailure
      else Success
  }

  /** The code in terms of the first step that does not go through, step number k of the start: MEMORY
      while the context is being allocated, NOT_IMPLEMENTED for the look-up of the digest, which also
      fails for an unknown algorithm, GENERAL_FAILURE for the steps after it. */
  lemma StartRcOfFirstFailure(e: Env, t: nat, kind: Kind, alg: AlgId, k: nat)
    requires var lookUp := if e.flavour == Ossl then 2 else 1;
             && k <= StartCost(e.flavour, kind) && Quiet(e, t, t + k)
             && (lookUp < k ==> Implements(e.flavour, alg))
             && (k < StartCost(e.flavour, kind) ==> e.faults(t + k) || (k == lookUp && !Implements(e.flavour, alg)))
    ensures var lookUp := if e.flavour == Ossl then 2 else 1;
            StartRc(e, t, kind, alg) == if k == StartCost(e.flavour, kind) then Success
                                        else if k < lookUp then Memory
                                        else if k == lookUp then NotImplemented
                                        else GeneralFailure
  {
    assert Quiet(e, t, t + k);
  }

  /** A finish at time t fails in the library. OpenSSL's hash finish also fails when the digest size
      that the library reports is wrong. */
  predicate FinishFaults(e: Env, t: nat, kind: Kind) {
    e.faults(t) || (e.flavour == Ossl && kind == HashKind && e.faults(t + 1))
  }

  /** What the library does with a call made at time t that gets past the argument checks. The
      two backends differ in start, and in who frees the context when finish fails: only
      OpenSSL's hash finish leaves it to the caller. */
  ghost function Decide(e: Env, t: nat, s: State, c: Call): Verdict {
    match c
    case Start(kind, alg, _, _) =>
      var rc := StartRc(e, t, kind, alg);
      if rc == Success then Works else Breaks(rc, false, [])
    case Update(_, ctx, data) =>
      if e.faults(t) then Breaks(GeneralFailure, false, e.debris(t)) else Works
    case Finish(kind, ctx, _) =>
      var len := if ctx.Some? && ctx.value in s.live then s.live[ctx.value].len else 0;
      if !FinishFaults(e, t, kind) then Works
      else Breaks(GeneralFailure, !(e.flavour == Ossl && kind == HashKind), Debris(e, t, len))
    case Abort(_, _) => Works
  }

  // ---------------------------------------------------------------- the backends agree

  /** How far the clock of library calls moves over one call that meets no fault. */
  ghost function Elapsed(e: Env, s: State, c: Call): nat {
    if Refusal(s, c).Some? then 0
    else match c
      case Start(kind, alg, _, _) => StartCost(e.flavour, kind)
      case Update(_, _, _) => 1
      case Finish(kind, _, _) => FinishCost(e.flavour, kind)
      case Abort(_, _) => 0
  }

  /** The verdicts a whole call sequence gets from one backend when no library call fails. */
  ghost function Decisions(e: Env, t: nat, s: State, calls: seq<Call>): (vs: seq<Verdict>)
    requires Faultless(e)
    ensures |vs| == |calls|
    decreases |calls|
  {
    if calls == [] then []
    else
      var v := Decide(e, t, s, calls[0]);
      [v] + Decisions(e, t + Elapsed(e, s, calls[0]), Step(e.crypto, s, calls[0], v).0, calls[1..])
  }

  ghost function BackendRun(e: Env, t: nat, s: State, calls: seq<Call>): (State, seq<Reply>)
    requires Faultless(e)
  {
    Run(e.crypto, s, calls, Decisions(e, t, s, calls))
  }

  /** A start of the one algorithm that only OpenSSL implements. */
  predicate StartsSm3(c: Call) {
    c.Start? && c.alg == ALG_SM3_256 && c.hasOut && (c.kind == HmacKind ==> c.key.Some?)
  }

  lemma StartRcWithoutFaults(e: Env, t: nat, kind: Kind, alg: AlgId)
    requires Faultless(e)
    ensures StartRc(e, t, kind, alg) == (if Implements(e.flavour, alg) then Success else NotImplemented)
  {
  }

  lemma DecideWithoutFaults(e: Env, t: nat, s: State, c: Call)
    requires Faultless(e)
    ensures Decide(e, t, s, c)
         == if c.Start? && !Implements(e.flavour, c.alg) then Breaks(NotImplemented, false, []) else Works
  {
    if c.Start? {
      StartRcWithoutFaults(e, t, c.kind, c.alg);
    }
  }

  /** One call without a library failure has the same effect on both, unless it starts SM3. */
  lemma SameStep(o: Env, m: Env, to: nat, tm: nat, s: State, c: Call)
    requires o.flavour == Ossl && m.flavour == Mbed && o.crypto == m.crypto
    requires Faultless(o) && Faultless(m)
    ensures !StartsSm3(c) ==>
              Step(o.crypto, s, c, Decide(o, to, s, c)) == Step(m.crypto, s, c, Decide(m, tm, s, c))
    ensures StartsSm3(c) ==>
              && Step(o.crypto, s, c, Decide(o, to, s, c)).1.rc == Success
              && Step(m.crypto, s, c, Decide(m, tm, s, c)).1.rc == NotImplemented
  {
    DecideWithoutFaults(o, to, s, c);
    DecideWithoutFaults(m, tm, s, c);
  }

  lemma {:induction false} AgreeWithoutSm3(o: Env, m: Env, to: nat, tm: nat, s: State, calls: seq<Call>)
    requires o.flavour == Ossl && m.flavour == Mbed && o.crypto == m.crypto
    requires Faultless(o) && Faultless(m)
    requires forall i :: 0 <= i < |calls| ==> !StartsSm3(calls[i])
    ensures BackendRun(o, to, s, calls) == BackendRun(m, tm, s, calls)
    decreases |calls|
  {
    if calls != [] {
      var c := calls[0];
      SameStep(o, m, to, tm, s, c);
      var s1 := Step(o.crypto, s, c, Decide(o, to, s, c)).0;
      AgreeWithoutSm3(o, m, to + Elapsed(o, s, c), tm + Elapsed(m, s, c), s1, calls[1..]);
      RunFront(o, to, s, calls);
      RunFront(m, tm, s, calls);
    }
  }

  lemma RunFront(e: Env, t: nat, s: State, calls: seq<Call>)
    requires Faultless(e) && calls != []
    ensures var (s1, r) := Step(e.crypto, s, calls[0], Decide(e, t, s, calls[0]));
            var (s2, rs) := BackendRun(e, t + Elapsed(e, s, calls[0]), s1, calls[1..]);
            BackendRun(e, t, s, calls) == (s2, [r] + rs)
  {
    var vs := Decisions(e, t, s, calls);
    var s1 := Step(e.crypto, s, calls[0], Decide(e, t, s, calls[0])).0;
    assert vs[1..] == Decisions(e, t + Elapsed(e, s, calls[0]), s1, calls[1..]);
  }

  lemma {:induction false} DisagreeOnSm3(o: Env, m: Env, to: nat, tm: nat, s: State, calls: seq<Call>, k: nat)
    requires o.flavour == Ossl && m.flavour == Mbed && o.crypto == m.crypto
    requires Faultless(o) && Faultless(m)
    requires k < |calls| && StartsSm3(calls[k]) && forall i :: 0 <= i < k ==> !StartsSm3(calls[i])
    ensures BackendRun(o, to, s, calls).1 != BackendRun(m, tm, s, calls).1
    decreases |calls|
  {
    var c := calls[0];
    var so, ro := Step(o.crypto, s, c, Decide(o, to, s, c)).0, Step(o.crypto, s, c, Decide(o, to, s, c)).1;
    var sm, rm := Step(m.crypto, s, c, Decide(m, tm, s, c)).0, Step(m.crypto, s, c, Decide(m, tm, s, c)).1;
    var eo, em := to + Elapsed(o, s, c), tm + Elapsed(m, s, c);
    SameStep(o, m, to, tm, s, c);
    RunFront(o, to, s, calls);
    RunFront(m, tm, s, calls);
    if k > 0 {
      DisagreeOnSm3(o, m, eo, em, so, calls[1..], k - 1);
    }
    ConsDiffers(ro, BackendRun(o, eo, so, calls[1..]).1, rm, BackendRun(m, em, sm, calls[1..]).1);
  }

  lemma ConsDiffers(x: Reply, xs: seq<Reply>, y: Reply, ys: seq<Reply>)
    requires x != y || xs != ys
    ensures [x] + xs != [y] + ys
  {
    assert ([x] + xs)[0] == x && ([x] + xs)[1..] == xs;
    assert ([y] + ys)[0] == y && ([y] + ys)[1..] == ys;
  }

  /** On every call sequence without a library failure the two backends give the same replies and
      end with the same live contexts, exactly when the sequence starts no SM3 context. */
  lemma BackendsAgreeIff(o: Env, m: Env, s: State, calls: seq<Call>)
    requires o.flavour == Ossl && m.flavour == Mbed && o.crypto == m.crypto
    requires Faultless(o) && Faultless(m)
    ensures BackendRun(o, 0, s, calls) == BackendRun(m, 0, s, calls)
      <==> forall i :: 0 <= i < |calls| ==> !StartsSm3(calls[i])
  {
    if forall i :: 0 <= i < |calls| ==> !StartsSm3(calls[i]) {
      AgreeWithoutSm3(o, m, 0, 0, s, calls);
    } else {
      var k := FirstSm3(calls);
      DisagreeOnSm3(o, m, 0, 0, s, calls, k);
    }
  }

  lemma FirstSm3(calls: seq<Call>) returns (k: nat)
    requires exists i :: 0 <= i < |calls| && StartsSm3(calls[i])
    ensures k < |calls| && StartsSm3(calls[k]) && forall i :: 0 <= i < k ==> !StartsSm3(calls[i])
  {
    k := 0;
    while !StartsSm3(calls[k])
      invariant k < |calls| && forall i :: 0 <= i < k ==> !StartsSm3(calls[i])
      decreases |calls| - k
    {
      k := k + 1;
    }
  }

  /** Whatever the library does to a finish, the matching abort leaves no context behind. */
  lemma FinishThenAbortFrees(e: Env, t: nat, s: State, h: Handle, room: Option<nat>)
    requires h in s.live
    ensures var f := Finish(s.live[h].kind, Some(h), room);
            var (s1, r) := Step(e.crypto, s, f, Decide(e, t, s, f));
            Step(e.crypto, s1, Abort(s.live[h].kind, r.ctx), Works).0.live == s.live - {h}
  {
    var f := Finish(s.live[h].kind, Some(h), room);
    var (s1, r) := Step(e.crypto, s, f, Decide(e, t, s, f));
    if r.ctx.Some? {
      assert s1.live - {h} == s.live - {h};
    }
  }

  // ---------------------------------------------------------------- one computation from start to finish

  /** The code of a start made through the callback table. */
  function StartedRc(e: Env, t: nat, kind: Kind, alg: AlgId, key: Option<seq<byte>>): RC {
    if Slot(kind, StartOp) !in e.bound then CallbackNull
    else if kind == HmacKind && key.None? then BadReference
    else StartRc(e, t, kind, alg)
  }

  /** The code of a finish made by the linked backend. */
  function FinishRc(e: Env, t: nat, s: State, kind: Kind, ctx: Option<Handle>, room: Option<nat>): RC {
    if ctx.None? || room.None? || ctx.value !in s.live || s.live[ctx.value].kind != kind then BadReference
    else if room.value < s.live[ctx.value].len then BadSize
    else if FinishFaults(e, t, kind) then GeneralFailure
    else Success
  }

  lemma StartEffect(e: Env, t: nat, s: State, kind: Kind, alg: AlgId, key: Option<seq<byte>>)
    requires Valid(s)
    ensures var c := Start(kind, alg, key, true);
            var (s', r) := Step(e.crypto, s, c, Decide(e, t, s, c));
            && r.rc == (if kind == HmacKind && key.None? then BadReference else StartRc(e, t, kind, alg))
            && (r.rc != Success ==> s' == s)
            && (r.rc == Success ==>
                  && DigestSize(alg).Some? && r.ctx == Some(s.next) && s'.next == s.next + 1
                  && s.next in s'.live && s'.live - {s.next} == s.live
                  && s'.live[s.next]
                       == Blob(kind, alg, if kind == HmacKind then key.value else [], DigestSize(alg).value, []))
  {
    var c := Start(kind, alg, key, true);
    var s' := Step(e.crypto, s, c, Decide(e, t, s, c)).0;
    assert s' != s ==> s'.live - {s.next} == s.live;
  }

  /** A finish of the linked backend, case by case. */
  lemma FinishCases(e: Env, t: nat, s: State, kind: Kind, ctx: Option<Handle>, room: Option<nat>)
    requires ctx.Some? ==> ctx.value in s.live
    ensures var c := Finish(kind, ctx, room);
            Step(e.crypto, s, c, Decide(e, t, s, c)) ==
            match FinishRc(e, t, s, kind, ctx, room)
            case Success =>
              (s.(live := s.live - {ctx.value}), Reply(Success, None, BlobDigest(e.crypto, s.live[ctx.value])))
            case GeneralFailure =>
              var debris := Debris(e, t, s.live[ctx.value].len);
              if e.flavour == Ossl && kind == HashKind then
                (s.(live := s.live[ctx.value := s.live[ctx.value].(absorbed := debris)]),
                 Reply(GeneralFailure, ctx, debris))
              else (s.(live := s.live - {ctx.value}), Reply(GeneralFailure, None, debris))
            case rc => (s, Reply(rc, ctx, []))
  {
  }

  lemma FinishEffect(e: Env, t: nat, s: State, kind: Kind, ctx: Option<Handle>, room: Option<nat>)
    requires Valid(s) && (ctx.Some? ==> ctx.value in s.live)
    ensures var c := Finish(kind, ctx, room);
            var (s', r) := Step(e.crypto, s, c, Decide(e, t, s, c));
            && r.rc == FinishRc(e, t, s, kind, ctx, room) && s'.next == s.next
            && (r.rc == Success ==>
                  && r.ctx == None && s'.live == s.live - {ctx.value}
                  && |r.out| == s.live[ctx.value].len && r.out == BlobDigest(e.crypto, s.live[ctx.value]))
            && (r.rc == GeneralFailure ==> |r.out| <= s.live[ctx.value].len)
            && (r.rc == BadReference || r.rc == BadSize ==> r.out == [] && s' == s)
            && (r.rc != Success ==> KeptOrFreed(e.flavour, kind, ctx, r.ctx, r.rc, s.live, s'.live))
  {
  }

  /** After a failed finish the other contexts are as before, and the finished one is either still
      there, with the pointer to it, or freed and the pointer NULL: freed exactly when the library
      failed and it was not OpenSSL's hash finish. */
  ghost predicate KeptOrFreed(flavour: Flavour, kind: Kind, ctx: Option<Handle>, ctx': Option<Handle>, rc: RC,
                              before: map<Handle, Blob>, after: map<Handle, Blob>)
  {
    && ctx' == (if rc == GeneralFailure && !(flavour == Ossl && kind == HashKind) then None else ctx)
    && (ctx.Some? && ctx.value in before ==>
          if ctx'.None? then after == before - {ctx.value}
          else ctx.value in after && after[ctx.value].kind == before[ctx.value].kind
               && after - {ctx.value} == before - {ctx.value})
  }

  /** One start, a number of updates, one finish into a buffer of the given room, and the kind of
      abort that the function's error label calls. */
  datatype Session = Session(kind: Kind, alg: AlgId, key: Option<seq<byte>>, updates: nat, room: Option<nat>,
                             abort: Kind)

  ghost predicate Quiet(e: Env, lo: nat, hi: nat) {
    forall t :: lo <= t < hi ==> !e.faults(t)
  }

  function SessionCost(flavour: Flavour, kind: Kind, updates: nat): nat {
    StartCost(flavour, kind) + updates + FinishCost(flavour, kind)
  }

  ghost function FeedTime(e: Env, t: nat, s: Session): nat {
    t + StartCost(e.flavour, s.kind)
  }

  ghost function FinishTime(e: Env, t: nat, s: Session): nat {
    FeedTime(e, t, s) + s.updates
  }

  /** The finish call is made and passes its argument checks. */
  ghost predicate FinishReached(e: Env, t: nat, s: Session) {
    && StartedRc(e, t, s.kind, s.alg, s.key) == Success
    && Slot(s.kind, UpdateOp) in e.bound && Quiet(e, FeedTime(e, t, s), FinishTime(e, t, s))
    && Slot(s.kind, FinishOp) in e.bound
    && s.room.Some? && DigestSize(s.alg).Some? && s.room.value >= DigestSize(s.alg).value
  }

  /** The code of a whole session begun at time t, read off the schedule and the arguments alone. */
  ghost function SessionRc(e: Env, t: nat, s: Session): RC {
    var start := StartedRc(e, t, s.kind, s.alg, s.key);
    if start != Success then start
    else if Slot(s.kind, UpdateOp) !in e.bound then CallbackNull
    else if !Quiet(e, FeedTime(e, t, s), FinishTime(e, t, s)) then GeneralFailure
    else if Slot(s.kind, FinishOp) !in e.bound then CallbackNull
    else if s.room.None? then BadReference
    else if DigestSize(s.alg).Some? && s.room.value < DigestSize(s.alg).value then BadSize
    else if FinishFaults(e, FinishTime(e, t, s), s.kind) then GeneralFailure
    else Success
  }

  /** The context is still held when the error label is reached. */
  ghost predicate Held(e: Env, t: nat, s: Session) {
    && StartedRc(e, t, s.kind, s.alg, s.key) == Success
    && SessionRc(e, t, s) != Success
    && (FinishReached(e, t, s) ==> e.flavour == Ossl && s.kind == HashKind)
  }

  /** The error label does not free it. */
  ghost predicate Leaks(e: Env, t: nat, s: Session) {
    Held(e, t, s) && !(s.abort == s.kind && Slot(s.abort, AbortOp) in e.bound)
  }

  /** What a session leaves on the heap: the live contexts are those before it, plus its own one,
      unfreed, exactly when it leaks. */
  ghost predicate Accounted(e: Env, t: nat, s: Session, before: State, after: State, t': nat) {
    && (SessionRc(e, t, s) == Success ==> t' == t + SessionCost(e.flavour, s.kind, s.updates))
    && after.next == before.next + (if StartedRc(e, t, s.kind, s.alg, s.key) == Success then 1 else 0)
    && if Leaks(e, t, s) then
         && before.next in after.live && after.live[before.next].kind == s.kind
         && after.live - {before.next} == before.live
       else after.live == before.live
  }

  /** A session whose error label calls the matching, bound abort never leaks. */
  lemma MatchingAbortNeverLeaks(e: Env, t: nat, s: Session)
    requires s.abort == s.kind && Slot(s.kind, AbortOp) in e.bound
    ensures !Leaks(e, t, s)
  {
  }

  /** With the other kind's abort a session leaks exactly when it started and then an update failed,
      the buffer or its size was missing or too small, OpenSSL failed to finish a hash, or the table
      has no update or no finish. */
  lemma MismatchedAbortLeaksIff(e: Env, t: nat, s: Session)
    requires s.abort != s.kind
    ensures Leaks(e, t, s) <==>
              && StartedRc(e, t, s.kind, s.alg, s.key) == Success
              && (|| Slot(s.kind, UpdateOp) !in e.bound || Slot(s.kind, FinishOp) !in e.bound
                  || !Quiet(e, FeedTime(e, t, s), FinishTime(e, t, s))
                  || s.room.None? || (DigestSize(s.alg).Some? && s.room.value < DigestSize(s.alg).value)
                  || (e.flavour == Ossl && s.kind == HashKind && FinishFaults(e, FinishTime(e, t, s), s.kind)))
  {
  }
}
