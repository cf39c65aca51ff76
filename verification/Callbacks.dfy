/** The crypto callback table: ieys_set_crypto_callbacks over every sequence of set calls. */
module Callbacks {
  import opened Tss
  import opened Backends

  datatype Field =
    | AesDecrypt | AesEncrypt | Sm4Encrypt | Sm4Decrypt | GetEcdhPoint | GetRandom2b | RsaPkEncrypt
    | HashAbort | HashFinish | HashStart | HashUpdate
    | HmacAbort | HmacFinish | HmacStart | HmacUpdate
    | Init

  /** A function pointer: one of the build's own functions or one the application registered. */
  datatype Fn = Internal(field: Field) | User(id: nat)

  /** The table; a field that is not in fns is NULL. */
  datatype Table = Table(fns: map<Field, Fn>, userdata: Option<nat>)

  /** The order in which the setter looks at the fields of the user's table. */
  const ORDER: seq<Field> := [
    AesDecrypt, AesEncrypt, Sm4Encrypt, Sm4Decrypt, GetEcdhPoint, GetRandom2b, RsaPkEncrypt,
    HashAbort, HashFinish, HashStart, HashUpdate, HmacAbort, HmacFinish, HmacStart, HmacUpdate]

  predicate Optional(f: Field) {
    f == Sm4Encrypt || f == Sm4Decrypt || f == Init
  }

  predicate Required(f: Field) {
    !Optional(f)
  }

  /** The fields for which the build provides a function of its own. A build with a crypto library
      provides all required ones. */
  ghost predicate HasCrypto(internals: set<Field>) {
    forall f :: Required(f) ==> f in internals
  }

  /** The table that Esys_Initialize builds. */
  function Initial(internals: set<Field>): Table {
    Table(map f | f in internals :: Internal(f), None)
  }

  function Put(fns: map<Field, Fn>, f: Field, fn: Option<Fn>): map<Field, Fn> {
    if fn.Some? then fns[f := fn.value] else fns - {f}
  }

  function Lookup(fns: map<Field, Fn>, f: Field): Option<Fn> {
    if f in fns then Some(fns[f]) else None
  }

  /** What the setter stores in a field it gets to. */
  function Chosen(internals: set<Field>, user: Table, f: Field): Option<Fn> {
    if f in user.fns then Some(user.fns[f])
    else if Optional(f) && f in internals then Some(Internal(f))
    else None
  }

  /** The setter over the remaining fields: it stops at the first required one the user's table lacks. */
  function SetAll(internals: set<Field>, fns: map<Field, Fn>, user: Table, order: seq<Field>): (map<Field, Fn>, RC)
    decreases |order|
  {
    if order == [] then (fns, Success)
    else if Required(order[0]) && order[0] !in user.fns then (fns, CallbackNull)
    else SetAll(internals, Put(fns, order[0], Chosen(internals, user, order[0])), user, order[1..])
  }

  /** ieys_set_crypto_callbacks; None is a NULL user table. */
  function Set(internals: set<Field>, table: Table, user: Option<Table>): (Table, RC) {
    match user
    case None => (Initial(internals), Success)
    case Some(u) =>
      var (fns, rc) := SetAll(internals, table.fns, u, ORDER);
      if rc == Success then (Table(Put(fns, Init, Lookup(u.fns, Init)), u.userdata), rc)
      else (table.(fns := fns), rc)
  }

  // ---------------------------------------------------------------- one call

  /** How many fields are rewritten before the setter stops. */
  function Reached(user: Table, order: seq<Field>): (k: nat)
    ensures k <= |order|
  {
    if order == [] || (Required(order[0]) && order[0] !in user.fns) then 0
    else 1 + Reached(user, order[1..])
  }

  ghost predicate Distinct(order: seq<Field>) {
    forall i, j :: 0 <= i < j < |order| ==> order[i] != order[j]
  }

  function Position(f: Field): (i: nat)
    ensures f != Init ==> i < |ORDER| && ORDER[i] == f
  {
    match f
    case AesDecrypt => 0
    case AesEncrypt => 1
    case Sm4Encrypt => 2
    case Sm4Decrypt => 3
    case GetEcdhPoint => 4
    case GetRandom2b => 5
    case RsaPkEncrypt => 6
    case HashAbort => 7
    case HashFinish => 8
    case HashStart => 9
    case HashUpdate => 10
    case HmacAbort => 11
    case HmacFinish => 12
    case HmacStart => 13
    case HmacUpdate => 14
    case Init => 15
  }

  /** The ciphers, key agreement, random numbers and RSA first, then the hash entries, then the HMAC
      entries, each of these by name. */
  lemma FieldsInOrder()
    ensures Position(AesDecrypt) < Position(AesEncrypt) < Position(Sm4Encrypt) < Position(Sm4Decrypt)
    ensures Position(Sm4Decrypt) < Position(GetEcdhPoint) < Position(GetRandom2b) < Position(RsaPkEncrypt)
    ensures Position(RsaPkEncrypt) < Position(HashAbort) < Position(HashFinish) < Position(HashStart)
    ensures Position(HashStart) < Position(HashUpdate) < Position(HmacAbort) < Position(HmacFinish)
    ensures Position(HmacFinish) < Position(HmacStart) < Position(HmacUpdate)
  {
  }

  lemma OrderIsComplete()
    ensures Distinct(ORDER) && forall f :: f in ORDER <==> f != Init
  {
    forall i | 0 <= i < |ORDER|
      ensures Position(ORDER[i]) == i && ORDER[i] != Init
    {
    }
    forall f: Field | f != Init
      ensures f in ORDER
    {
      assert ORDER[Position(f)] == f;
    }
  }

  lemma {:induction false} ReachedAll(user: Table, order: seq<Field>)
    ensures Reached(user, order) == |order| <==> forall f :: f in order && Required(f) ==> f in user.fns
    ensures forall f :: f in order[..Reached(user, order)] && Required(f) ==> f in user.fns
  {
    if order != [] {
      var rest := order[1..];
      ReachedAll(user, rest);
      assert order == [order[0]] + rest;
      if Reached(user, order) > 0 {
        assert order[..1 + Reached(user, rest)] == [order[0]] + rest[..Reached(user, rest)];
      }
    }
  }

  lemma {:induction false} SetAllRc(internals: set<Field>, fns: map<Field, Fn>, user: Table, order: seq<Field>)
    ensures SetAll(internals, fns, user, order).1 == if Reached(user, order) == |order| then Success else CallbackNull
    decreases |order|
  {
    if order != [] && Reached(user, order) > 0 {
      SetAllRc(internals, Put(fns, order[0], Chosen(internals, user, order[0])), user, order[1..]);
    }
  }

  /** The setter rewrites exactly a prefix of the order. */
  lemma {:induction false} SetAllField(internals: set<Field>, fns: map<Field, Fn>, user: Table, order: seq<Field>,
                                       f: Field)
    requires Distinct(order)
    ensures Lookup(SetAll(internals, fns, user, order).0, f)
         == if f in order[..Reached(user, order)] then Chosen(internals, user, f) else Lookup(fns, f)
    decreases |order|
  {
    if order != [] && Reached(user, order) > 0 {
      var rest := order[1..];
      SetAllField(internals, Put(fns, order[0], Chosen(internals, user, order[0])), user, rest, f);
      assert order[..1 + Reached(user, rest)] == [order[0]] + rest[..Reached(user, rest)];
      assert order[0] !in rest;
    }
  }

  /** The fields that a set call with a user table gets to rewrite. */
  ghost function Written(user: Table): seq<Field> {
    ORDER[..Reached(user, ORDER)]
  }

  /** A set call with a user table succeeds exactly when the table has every required function, and
      only then takes over the userdata. */
  lemma SetRc(internals: set<Field>, table: Table, user: Table)
    ensures var (table', rc) := Set(internals, table, Some(user));
            && (rc == Success || rc == CallbackNull)
            && (rc == Success <==> forall f :: f != Sm4Encrypt && f != Sm4Decrypt && f != Init ==> f in user.fns)
            && table'.userdata == (if rc == Success then user.userdata else table.userdata)
  {
    hide SetAll, Reached, Position;
    OrderIsComplete();
    SetAllRc(internals, table.fns, user, ORDER);
    ReachedAll(user, ORDER);
  }

  /** The setter gets to f: no required function is missing from the user's table up to f. */
  ghost predicate GetsTo(user: Table, f: Field) {
    forall g :: Position(g) <= Position(f) && Required(g) ==> g in user.fns
  }

  lemma {:induction false} ReachedIff(user: Table, order: seq<Field>, k: nat)
    requires k < |order|
    ensures k < Reached(user, order) <==> forall i :: 0 <= i <= k && Required(order[i]) ==> order[i] in user.fns
  {
    if Required(order[0]) && order[0] !in user.fns {
      assert Reached(user, order) == 0;
    } else if k > 0 {
      ReachedIff(user, order[1..], k - 1);
      assert forall i :: 0 < i <= k ==> order[i] == order[1..][i - 1];
    }
  }

  lemma WrittenIffGetsTo(user: Table, f: Field)
    requires f != Init
    ensures f in Written(user) <==> GetsTo(user, f)
  {
    hide Reached;
    OrderIsComplete();
    ReachedIff(user, ORDER, Position(f));
    assert ORDER[Position(f)] == f;
    var n := Reached(user, ORDER);
    assert f in Written(user) <==> Position(f) < n by {
      if Position(f) < n {
        assert ORDER[..n][Position(f)] == f;
      }
      if f in Written(user) {
        var i :| 0 <= i < n && ORDER[..n][i] == f;
        assert i == Position(f);
      }
    }
  }

  /** What it does to any field. Those before the first missing required one already hold the user's
      function (an absent SM4 one the build's own, or NULL if there is none); the others hold the old
      one. init is taken over, NULL or not, when nothing is missing. */
  lemma SetField(internals: set<Field>, table: Table, user: Table, f: Field)
    ensures var (table', rc) := Set(internals, table, Some(user));
            && (f != Init ==>
                  Lookup(table'.fns, f)
                    == if !GetsTo(user, f) then Lookup(table.fns, f)
                       else if f in user.fns then Some(user.fns[f])
                       else if f in internals then Some(Internal(f))
                       else None)
            && (f != Init && f != Sm4Encrypt && f != Sm4Decrypt && GetsTo(user, f) ==> f in user.fns)
            && (rc == Success && f != Init ==> GetsTo(user, f))
            && (f == Init ==> Lookup(table'.fns, f) == Lookup(if rc == Success then user.fns else table.fns, f))
  {
    FieldChosen(internals, table, user, f);
    if f != Init {
      WrittenIffGetsTo(user, f);
      assert GetsTo(user, f) && Required(f) ==> f in user.fns;
    }
  }

  lemma FieldChosen(internals: set<Field>, table: Table, user: Table, f: Field)
    ensures var (table', rc) := Set(internals, table, Some(user));
            && (f != Init ==>
                  Lookup(table'.fns, f)
                    == if f in Written(user) then Chosen(internals, user, f) else Lookup(table.fns, f))
            && (rc == Success && f != Init ==> f in Written(user))
            && (f == Init ==> Lookup(table'.fns, f) == Lookup(if rc == Success then user.fns else table.fns, f))
  {
    hide SetAll, Reached, Position, Chosen, Distinct;
    OrderIsComplete();
    SetAllRc(internals, table.fns, user, ORDER);
    SetAllField(internals, table.fns, user, ORDER, f);
    ReachedAll(user, ORDER);
    assert ORDER[..|ORDER|] == ORDER;
    if f == Init {
      assert f !in ORDER && f !in Written(user);
    }
  }

  // ---------------------------------------------------------------- every sequence of calls

  ghost predicate RequiredBound(table: Table) {
    forall f :: Required(f) ==> f in table.fns
  }

  function SetRun(internals: set<Field>, table: Table, calls: seq<Option<Table>>): Table
    decreases |calls|
  {
    if calls == [] then table else SetRun(internals, Set(internals, table, calls[0]).0, calls[1..])
  }

  lemma SetKeepsRequired(internals: set<Field>, table: Table, user: Option<Table>)
    requires HasCrypto(internals) && RequiredBound(table)
    ensures RequiredBound(Set(internals, table, user).0)
  {
    if user.Some? {
      forall f | Required(f)
        ensures f in Set(internals, table, user).0.fns
      {
        SetField(internals, table, user.value, f);
      }
    }
  }

  /** In a build with a crypto library no sequence of set calls, failed ones included, ever leaves a
      required callback NULL. */
  lemma {:induction false} RunKeepsRequired(internals: set<Field>, table: Table, calls: seq<Option<Table>>)
    requires HasCrypto(internals) && RequiredBound(table)
    ensures RequiredBound(SetRun(internals, table, calls))
    decreases |calls|
  {
    if calls != [] {
      SetKeepsRequired(internals, table, calls[0]);
      RunKeepsRequired(internals, Set(internals, table, calls[0]).0, calls[1..]);
    }
  }

  /** After any sequence of calls a NULL table restores exactly what Esys_Initialize built. */
  lemma {:induction false} ResetRestores(internals: set<Field>, table: Table, calls: seq<Option<Table>>)
    ensures SetRun(internals, table, calls + [None]) == Initial(internals)
    ensures Initial(internals).userdata == None && Initial(internals).fns.Keys == internals
    ensures forall f :: f in internals ==> Initial(internals).fns[f] == Internal(f)
    decreases |calls|
  {
    var all := calls + [None];
    if calls == [] {
      assert all[1..] == [];
    } else {
      assert all[1..] == calls[1..] + [None];
      ResetRestores(internals, Set(internals, table, calls[0]).0, calls[1..]);
    }
  }

  function FieldOf(slot: Slot): Field {
    match slot
    case Slot(HashKind, StartOp) => HashStart
    case Slot(HashKind, UpdateOp) => HashUpdate
    case Slot(HashKind, FinishOp) => HashFinish
    case Slot(HashKind, AbortOp) => HashAbort
    case Slot(HmacKind, StartOp) => HmacStart
    case Slot(HmacKind, UpdateOp) => HmacUpdate
    case Slot(HmacKind, FinishOp) => HmacFinish
    case Slot(HmacKind, AbortOp) => HmacAbort
  }

  /** So in such a build the abort entry a session needs is never NULL, whatever set calls came before,
      and a session whose error label calls the matching abort does not leak (registered functions
      being taken to keep the protocol of the built-in ones). */
  lemma BoundAbortAfterAnyRun(internals: set<Field>, calls: seq<Option<Table>>, e: Env, t: nat, s: Session)
    requires HasCrypto(internals) && s.abort == s.kind
    requires forall slot :: slot in e.bound <==> FieldOf(slot) in SetRun(internals, Initial(internals), calls).fns
    ensures !Leaks(e, t, s)
  {
    RunKeepsRequired(internals, Initial(internals), calls);
    MatchingAbortNeverLeaks(e, t, s);
  }

  // ---------------------------------------------------------------- the code

  /** The crypto_backend member of an ESYS_CONTEXT. */
  class CryptoBackendTable {
    const internals: set<Field>
    var fns: map<Field, Fn>
    var userdata: Option<nat>

    ghost function Contents(): Table
      reads this
    {
      Table(fns, userdata)
    }

    /** Allocated by calloc: every pointer NULL. */
    constructor (internals: set<Field>)
      ensures this.internals == internals && fns == map[] && userdata == None
    {
      this.internals := internals;
      fns, userdata := map[], None;
    }

    /** TEST_AND_SET_CALLBACK and its optional form over the fields in order, up to the first required
        one that the user's table lacks. */
    method TestAndSet(u: Table, order: seq<Field>) returns (rc: RC)
      modifies this`fns
      ensures (fns, rc) == SetAll(internals, old(fns), u, order)
    {
      var i := 0;
      while i < |order|
        invariant 0 <= i <= |order|
        invariant SetAll(internals, fns, u, order[i..]) == SetAll(internals, old(fns), u, order)
      {
        var f := order[i];
        assert order[i..][0] == f && order[i..][1..] == order[i + 1..];
        if f in u.fns {
          fns := fns[f := u.fns[f]];
        } else if Optional(f) {
          fns := Put(fns, f, Chosen(internals, u, f));
        } else {
          return CallbackNull;
        }
        i := i + 1;
      }
      return Success;
    }

    /** ieys_set_crypto_callbacks */
    method SetCallbacks(user: Option<Table>) returns (rc: RC)
      modifies this
      ensures (Contents(), rc) == Set(internals, old(Contents()), user)
    {
      if user.None? {
        fns, userdata := map f | f in internals :: Internal(f), None;
        return Success;
      }
      var u := user.value;
      hide SetAll;
      rc := TestAndSet(u, ORDER);
      if rc != Success {
        return;
      }
      fns, userdata := Put(fns, Init, Lookup(u.fns, Init)), u.userdata;
      return Success;
    }

  }

  /** iesys_initialize_crypto_backend, and so Esys_SetCryptoCallbacks. initRc is what the init callback
      returns when there is one; its failure does not undo the set. */
  method InitializeCryptoBackend(cb: CryptoBackendTable?, user: Option<Table>, initRc: RC) returns (rc: RC)
    modifies cb
    ensures cb == null ==> rc == BadReference
    ensures cb != null ==>
              && cb.Contents() == Set(cb.internals, old(cb.Contents()), user).0
              && rc == if Set(cb.internals, old(cb.Contents()), user).1 != Success then CallbackNull
                       else if Init in cb.fns then initRc
                       else Success
  {
    if cb == null {
      return BadReference;
    }
    if user.Some? {
      SetRc(cb.internals, cb.Contents(), user.value);
    }
    rc := cb.SetCallbacks(user);
    if rc != Success {
      return;
    }
    if Init in cb.fns {
      rc := initRc;
    }
  }
}
