/** Esys_Initialize, Esys_Finalize and Esys_GetTcti: who owns the TCTI and the memory. */
module EsysLifecycle {
  import opened Tss

  /** A TCTI context: the application's own, or one that the TCTI loader created. */
  datatype Tcti = App(id: nat) | Loaded(id: nat)

  /** What is acquired and has to be given back: an ESYS_CONTEXT struct, a SYS context block, a TCTI. */
  datatype Resource = Struct(id: nat) | Block(id: nat) | Conn(tcti: Tcti)

  function Id(r: Resource): nat {
    match r
    case Struct(id) => id
    case Block(id) => id
    case Conn(tcti) => tcti.id
  }

  /** The content of an ESYS_CONTEXT: the application's tcti argument, its SYS block, the TCTI in use. */
  datatype Ctx = Ctx(appParam: Option<Tcti>, sys: nat, tcti: Tcti)

  /** The caller's ESYS_CONTEXT pointers (one that is not in cells is NULL), the contexts by address,
      the resources not yet given back, and every free and finalization that has happened.
      Addresses are never reused. */
  datatype World = World(cells: map<nat, nat>, ctxs: map<nat, Ctx>, held: set<Resource>,
                         released: multiset<Resource>, next: nat)

  const EMPTY := World(map[], map[], {}, multiset{}, 0)

  /** The step of Esys_Initialize that fails, if any, with its code where a lower layer chooses it. */
  datatype Fault = NoFault | EsysAlloc | SysAlloc | LoaderInit(rc: RC) | SysInit(rc: RC) | CryptoInit(rc: RC)

  /** A call through the address of a caller's pointer, None for a NULL address. */
  datatype Op =
    | Initialize(cell: Option<nat>, tcti: Option<Tcti>, fault: Fault)
    | Finalize(cell: Option<nat>, sysFails: bool)

  /** The codes that lower layers return with a failure are failures, and an application's TCTI is
      its own. */
  predicate Sensible(op: Op) {
    match op
    case Initialize(_, tcti, fault) =>
      && (tcti.Some? ==> tcti.value.App?)
      && (fault.LoaderInit? || fault.SysInit? || fault.CryptoInit? ==> fault.rc != Success)
    case Finalize(_, _) => true
  }

  /** The failing step is not skipped: the loader is used only without an application TCTI. */
  predicate Fails(tcti: Option<Tcti>, fault: Fault) {
    !fault.NoFault? && !(fault.LoaderInit? && tcti.Some?)
  }

  function FaultRc(fault: Fault): RC {
    match fault
    case NoFault => Success
    case EsysAlloc => Memory
    case SysAlloc => Memory
    case LoaderInit(rc) => rc
    case SysInit(rc) => rc
    case CryptoInit(rc) => rc
  }

  /** What an Esys_Initialize acquires before it succeeds or meets the failing step. */
  function Taken(n: nat, tcti: Option<Tcti>, fault: Fault): set<Resource> {
    if fault.EsysAlloc? then {}
    else if fault.SysAlloc? then {Struct(n)}
    else if tcti.Some? || fault.LoaderInit? then {Struct(n), Block(n + 1)}
    else {Struct(n), Block(n + 1), Conn(Loaded(n + 2))}
  }

  /** Initialize: on success what it took stays allocated and the pointer leads to it, on failure all
      of it is released again and the pointer is NULL. */
  function InitSpec(w: World, cell: Option<nat>, tcti: Option<Tcti>, fault: Fault): (World, RC) {
    var taken := Taken(w.next, tcti, fault);
    if cell.None? then (w, BadReference)
    else if Fails(tcti, fault) then
      (w.(cells := w.cells - {cell.value}, released := w.released + multiset(taken), next := w.next + 3),
       FaultRc(fault))
    else
      var used := if tcti.Some? then tcti.value else Loaded(w.next + 2);
      (World(w.cells[cell.value := w.next], w.ctxs[w.next := Ctx(tcti, w.next + 1, used)],
             w.held + taken, w.released, w.next + 3),
       Success)
  }

  /** Out of memory is answered with MEMORY, and the code of the loader (which is not asked when the
      application gave a TCTI), of the SYS layer or of the crypto backend is handed up unaltered. The
      pointer leads to a new context with the application's argument exactly on success; otherwise it
      is NULL and neither contexts nor allocations have changed. */
  lemma InitializeOutcome(w: World, cell: Option<nat>, tcti: Option<Tcti>, fault: Fault)
    requires Sensible(Initialize(cell, tcti, fault)) && w.next !in w.ctxs
    ensures var (w', rc) := InitSpec(w, cell, tcti, fault);
            && (cell.None? ==> rc == BadReference && w' == w)
            && (cell.Some? && (fault.EsysAlloc? || fault.SysAlloc?) ==> rc == Memory)
            && (cell.Some? && fault.LoaderInit? ==> rc == if tcti.None? then fault.rc else Success)
            && (cell.Some? && (fault.SysInit? || fault.CryptoInit?) ==> rc == fault.rc)
            && (cell.Some? && fault.NoFault? ==> rc == Success)
            && (cell.Some? && rc != Success ==> cell.value !in w'.cells && w'.ctxs == w.ctxs && w'.held == w.held)
            && (cell.Some? && rc == Success ==>
                  && cell.value in w'.cells && w'.cells[cell.value] !in w.ctxs
                  && w'.cells[cell.value] in w'.ctxs && w'.ctxs[w'.cells[cell.value]].appParam == tcti)
            && (forall k :: k in w.cells && cell != Some(k) ==> k in w'.cells && w'.cells[k] == w.cells[k])
  {
  }

  /** What belongs to the context at address c: its TCTI only when the application gave none. */
  function Holdings(c: nat, x: Ctx): set<Resource> {
    {Struct(c), Block(x.sys)} + (if x.appParam.None? then {Conn(x.tcti)} else {})
  }

  /** What Finalize cannot give back: the loader's TCTI, when the SYS layer fails to name it. */
  function Lost(x: Ctx, sysFails: bool): set<Resource> {
    if sysFails && x.appParam.None? then {Conn(x.tcti)} else {}
  }

  /** Finalize: the context gives back what belongs to it and the pointer becomes NULL. Through a
      dangling pointer the struct would be freed once more. */
  function FinSpec(w: World, cell: Option<nat>, sysFails: bool): World {
    if cell.None? || cell.value !in w.cells then w
    else
      var c := w.cells[cell.value];
      var left := w.(cells := w.cells - {cell.value});
      if c !in w.ctxs then left.(released := w.released + multiset{Struct(c)})
      else
        var back := Holdings(c, w.ctxs[c]) - Lost(w.ctxs[c], sysFails);
        left.(ctxs := w.ctxs - {c}, held := w.held - back, released := w.released + multiset(back))
  }

  /** After Esys_Finalize the pointer is NULL and its context gone; every other pointer and context is
      as before. */
  lemma FinalizeOutcome(w: World, cell: nat, sysFails: bool)
    requires cell in w.cells && w.cells[cell] in w.ctxs
    ensures var w' := FinSpec(w, Some(cell), sysFails);
            && cell !in w'.cells && w.cells[cell] !in w'.ctxs
            && (forall k :: k in w.cells && k != cell ==> k in w'.cells && w'.cells[k] == w.cells[k])
            && (forall c :: c in w.ctxs && c != w.cells[cell] ==> c in w'.ctxs && w'.ctxs[c] == w.ctxs[c])
  {
  }

  function Step(w: World, op: Op): World {
    match op
    case Initialize(cell, tcti, fault) => InitSpec(w, cell, tcti, fault).0
    case Finalize(cell, sysFails) => FinSpec(w, cell, sysFails)
  }

  function Run(w: World, ops: seq<Op>): World
    decreases |ops|
  {
    if ops == [] then w else Run(Step(w, ops[0]), ops[1..])
  }

  /** What one call acquires, given back since or not. */
  function Created(w: World, op: Op): set<Resource> {
    if op.Initialize? && op.cell.Some? then Taken(w.next, op.tcti, op.fault) else {}
  }

  function CreatedBy(w: World, ops: seq<Op>): set<Resource>
    decreases |ops|
  {
    if ops == [] then {} else Created(w, ops[0]) + CreatedBy(Step(w, ops[0]), ops[1..])
  }

  /** The loader TCTI that one call forgets without finalizing it. */
  function Stranded(w: World, op: Op): set<Resource> {
    if op.Finalize? && op.cell.Some? && op.cell.value in w.cells && w.cells[op.cell.value] in w.ctxs
    then Lost(w.ctxs[w.cells[op.cell.value]], op.sysFails)
    else {}
  }

  function StrandedBy(w: World, ops: seq<Op>): set<Resource>
    decreases |ops|
  {
    if ops == [] then {} else Stranded(w, ops[0]) + StrandedBy(Step(w, ops[0]), ops[1..])
  }

  // ---------------------------------------------------------------- what every call keeps

  /** r belongs to the context at address c. */
  predicate Has(w: World, c: nat, r: Resource) {
    c in w.ctxs && r in Holdings(c, w.ctxs[c])
  }

  ghost predicate Owned(w: World, r: Resource) {
    exists c :: Has(w, c, r)
  }

  /** The TCTI in use is the application's or, when it gave none, one of the loader's. */
  predicate RightTcti(x: Ctx) {
    match x.appParam
    case Some(tcti) => tcti.App? && x.tcti == tcti
    case None => x.tcti.Loaded?
  }

  /** No two pointers lead to the same context, and none to a context that is gone. */
  ghost predicate PointersSound(cells: map<nat, nat>, ctxs: map<nat, Ctx>) {
    && (forall k :: k in cells ==> cells[k] in ctxs)
    && (forall j, k :: j in cells && k in cells && j != k ==> cells[j] != cells[k])
  }

  /** What belongs to a context is allocated and belongs to no other, and what is allocated belongs
      to a context unless it is in stray. */
  ghost predicate Sound(w: World, stray: set<Resource>) {
    && PointersSound(w.cells, w.ctxs)
    && (forall c :: c in w.ctxs ==> RightTcti(w.ctxs[c]))
    && (forall c, r :: Has(w, c, r) ==> r in w.held && r !in stray)
    && (forall c, d, r :: Has(w, c, r) && Has(w, d, r) ==> c == d)
    && (forall r :: r in w.held ==> Id(r) < w.next && (r in stray || Owned(w, r)))
    && (forall r :: r in stray ==> r in w.held)
  }

  /** A live context has its own struct, so its address is below next. */
  lemma LiveIsOld(w: World, stray: set<Resource>, c: nat)
    requires Sound(w, stray) && c in w.ctxs
    ensures c < w.next
  {
    assert Has(w, c, Struct(c));
  }

  lemma AddedHas(w: World, cell: nat, tcti: Option<Tcti>, c: nat, r: Resource)
    requires w.next !in w.ctxs
    ensures Has(InitSpec(w, Some(cell), tcti, NoFault).0, c, r)
       <==> Has(w, c, r) || (c == w.next && r in Taken(w.next, tcti, NoFault))
  {
  }

  /** The world with one more context, as a successful Esys_Initialize leaves it. */
  lemma AddedKeepsSound(w: World, stray: set<Resource>, cell: nat, tcti: Option<Tcti>)
    requires Sound(w, stray) && (tcti.Some? ==> tcti.value.App?)
    ensures Sound(InitSpec(w, Some(cell), tcti, NoFault).0, stray)
  {
    var w' := InitSpec(w, Some(cell), tcti, NoFault).0;
    var taken := Taken(w.next, tcti, NoFault);
    forall c | c in w.ctxs
      ensures c < w.next
    {
      LiveIsOld(w, stray, c);
    }
    forall c, r
      ensures Has(w', c, r) <==> Has(w, c, r) || (c == w.next && r in taken)
    {
      AddedHas(w, cell, tcti, c, r);
    }
    assert forall c, r :: Has(w, c, r) ==> c in w.ctxs;
    assert forall r :: r in taken ==> w.next <= Id(r) < w'.next && Has(w', w.next, r);
    hide Has, Taken, Id;
    forall r | r in w'.held && r !in stray
      ensures Owned(w', r)
    {
      if r in w.held {
        var c :| Has(w, c, r);
        assert Has(w', c, r);
      }
    }
  }

  /** A failed Esys_Initialize leaves contexts and allocations as they were. */
  lemma FailedKeepsSound(w: World, stray: set<Resource>, w': World)
    requires Sound(w, stray)
    requires w'.ctxs == w.ctxs && w'.held == w.held && w.next <= w'.next
    requires w'.cells.Keys <= w.cells.Keys && forall k :: k in w'.cells ==> w'.cells[k] == w.cells[k]
    ensures Sound(w', stray)
  {
    assert forall c, r :: Has(w', c, r) <==> Has(w, c, r);
    hide Has;
    assert forall r :: Owned(w, r) ==> Owned(w', r);
  }

  lemma FinalizedHas(w: World, cell: nat, sysFails: bool, c: nat, r: Resource)
    requires cell in w.cells && w.cells[cell] in w.ctxs
    ensures Has(FinSpec(w, Some(cell), sysFails), c, r) <==> Has(w, c, r) && c != w.cells[cell]
    ensures r in FinSpec(w, Some(cell), sysFails).held
       <==> r in w.held && (Has(w, w.cells[cell], r) ==> r in Lost(w.ctxs[w.cells[cell]], sysFails))
    ensures r in Lost(w.ctxs[w.cells[cell]], sysFails) ==> Has(w, w.cells[cell], r)
  {
  }

  lemma FinalizedKeepsSound(w: World, stray: set<Resource>, cell: nat, sysFails: bool)
    requires Sound(w, stray) && cell in w.cells
    ensures Sound(FinSpec(w, Some(cell), sysFails), stray + Lost(w.ctxs[w.cells[cell]], sysFails))
  {
    var w', gone := FinSpec(w, Some(cell), sysFails), w.cells[cell];
    var lost := Lost(w.ctxs[gone], sysFails);
    forall c, r
      ensures Has(w', c, r) <==> Has(w, c, r) && c != gone
    {
      FinalizedHas(w, cell, sysFails, c, r);
    }
    forall r
      ensures r in w'.held <==> r in w.held && (Has(w, gone, r) ==> r in lost)
      ensures r in lost ==> Has(w, gone, r)
    {
      FinalizedHas(w, cell, sysFails, gone, r);
    }
    hide Has, Lost, Holdings, Id;
    forall r | r in w'.held && r !in stray + lost
      ensures Owned(w', r)
    {
      var c :| Has(w, c, r);
      assert Has(w', c, r);
    }
  }

  lemma StepKeepsSound(w: World, stray: set<Resource>, op: Op)
    requires Sound(w, stray) && Sensible(op)
    ensures Sound(Step(w, op), stray + Stranded(w, op))
  {
    hide Lost, Holdings, Has, Owned;
    assert stray + {} == stray;
    match op
    case Initialize(cell, tcti, fault) =>
      if cell.Some? {
        if Fails(tcti, fault) {
          FailedKeepsSound(w, stray, Step(w, op));
        } else {
          AddedKeepsSound(w, stray, cell.value, tcti);
        }
      }
    case Finalize(cell, sysFails) =>
      if cell.Some? && cell.value in w.cells {
        FinalizedKeepsSound(w, stray, cell.value, sysFails);
      }
  }

  function Count(w: World, r: Resource): nat {
    if r in w.held then 1 else 0
  }

  lemma FinalizeAccounts(w: World, stray: set<Resource>, cell: nat, sysFails: bool, r: Resource)
    requires Sound(w, stray) && cell in w.cells
    ensures var w' := FinSpec(w, Some(cell), sysFails);
            Count(w', r) + w'.released[r] == Count(w, r) + w.released[r]
  {
    var back := Holdings(w.cells[cell], w.ctxs[w.cells[cell]]) - Lost(w.ctxs[w.cells[cell]], sysFails);
    assert r in back ==> Has(w, w.cells[cell], r);
    hide Sound, Has, Holdings, Lost;
    assert multiset(back)[r] == if r in back then 1 else 0;
  }

  /** Each call balances: what is acquired is allocated or released, and only what was allocated is
      released. */
  lemma StepAccounts(w: World, stray: set<Resource>, op: Op, r: Resource)
    requires Sound(w, stray)
    ensures Count(Step(w, op), r) + Step(w, op).released[r]
         == Count(w, r) + w.released[r] + (if r in Created(w, op) then 1 else 0)
    ensures w.next <= Step(w, op).next
    ensures r in Created(w, op) ==> w.next <= Id(r) < Step(w, op).next
  {
    match op
    case Initialize(cell, tcti, fault) =>
      assert r in Created(w, op) ==> r !in w.held;
    case Finalize(cell, sysFails) =>
      if cell.Some? && cell.value in w.cells {
        FinalizeAccounts(w, stray, cell.value, sysFails, r);
      }
  }

  // ---------------------------------------------------------------- what every run keeps

  /** Over every run, with a failure injected at any step of any call: no pointer ever dangles,
      contexts share nothing, and whatever is held belongs to a context or was stranded. */
  lemma {:induction false} RunKeepsOwnership(w: World, stray: set<Resource>, ops: seq<Op>)
    requires Sound(w, stray) && forall i :: 0 <= i < |ops| ==> Sensible(ops[i])
    ensures Sound(Run(w, ops), stray + StrandedBy(w, ops))
    decreases |ops|
  {
    hide Sound, Step, Stranded, Sensible;
    if ops == [] {
      assert stray + StrandedBy(w, ops) == stray;
    } else {
      StepKeepsSound(w, stray, ops[0]);
      RunKeepsOwnership(Step(w, ops[0]), stray + Stranded(w, ops[0]), ops[1..]);
      assert stray + StrandedBy(w, ops) == stray + Stranded(w, ops[0]) + StrandedBy(Step(w, ops[0]), ops[1..]);
    }
  }

  /** Over every run: of each resource, what is allocated and what has been released add up to what
      there was and what the run created. */
  lemma {:induction false} RunAccounts(w: World, stray: set<Resource>, ops: seq<Op>, r: Resource)
    requires Sound(w, stray) && forall i :: 0 <= i < |ops| ==> Sensible(ops[i])
    ensures Count(Run(w, ops), r) + Run(w, ops).released[r]
         == Count(w, r) + w.released[r] + (if r in CreatedBy(w, ops) then 1 else 0)
    ensures r in CreatedBy(w, ops) ==> w.next <= Id(r)
    decreases |ops|
  {
    hide Sound, Step, Created, Stranded, Sensible, Count, Id;
    if ops != [] {
      StepKeepsSound(w, stray, ops[0]);
      StepAccounts(w, stray, ops[0], r);
      RunAccounts(Step(w, ops[0]), stray + Stranded(w, ops[0]), ops[1..], r);
    }
  }

  lemma EmptyIsSound()
    ensures Sound(EMPTY, {})
  {
  }

  /** Whatever a run creates is, at its end, one of three: owned by a live context, released exactly
      once, or stranded by a failing Tss2_Sys_GetTctiContext. Nothing else is ever released, in
      particular no TCTI of the application. */
  lemma EveryResourceAccounted(ops: seq<Op>, r: Resource)
    requires forall i :: 0 <= i < |ops| ==> Sensible(ops[i])
    ensures var w := Run(EMPTY, ops);
            && (if Owned(w, r) then 1 else 0) + (if r in StrandedBy(EMPTY, ops) then 1 else 0) + w.released[r]
                 == (if r in CreatedBy(EMPTY, ops) then 1 else 0)
            && (r.Conn? && r.tcti.App? ==> r !in CreatedBy(EMPTY, ops))
            && (forall c, d :: Has(w, c, r) && Has(w, d, r) ==> c == d)
  {
    hide Run, StrandedBy, CreatedBy, Has, Id;
    EmptyIsSound();
    RunKeepsOwnership(EMPTY, {}, ops);
    RunAccounts(EMPTY, {}, ops, r);
    if r.Conn? && r.tcti.App? {
      OnlyLoaderTctisCreated(EMPTY, ops, r);
    }
    var w, stray := Run(EMPTY, ops), StrandedBy(EMPTY, ops);
    assert {} + stray == stray;
  }

  lemma {:induction false} OnlyLoaderTctisCreated(w: World, ops: seq<Op>, r: Resource)
    requires r.Conn? && r.tcti.App?
    ensures r !in CreatedBy(w, ops)
    decreases |ops|
  {
    if ops != [] {
      OnlyLoaderTctisCreated(Step(w, ops[0]), ops[1..], r);
    }
  }

  /** When the last context is gone, every struct, block and TCTI that was created has been released
      exactly once if and only if none was stranded. */
  lemma AllReleasedIff(ops: seq<Op>)
    requires forall i :: 0 <= i < |ops| ==> Sensible(ops[i])
    requires Run(EMPTY, ops).ctxs == map[]
    ensures (forall r :: r in CreatedBy(EMPTY, ops) ==> Run(EMPTY, ops).released[r] == 1)
            <==> StrandedBy(EMPTY, ops) == {}
    ensures (forall i :: 0 <= i < |ops| ==> !(ops[i].Finalize? && ops[i].sysFails)) ==> StrandedBy(EMPTY, ops) == {}
  {
    hide Run, StrandedBy, CreatedBy;
    forall r
      ensures r in CreatedBy(EMPTY, ops) ==> (Run(EMPTY, ops).released[r] == 1 <==> r !in StrandedBy(EMPTY, ops))
      ensures r in StrandedBy(EMPTY, ops) ==> r in CreatedBy(EMPTY, ops)
    {
      EveryResourceAccounted(ops, r);
    }
    if forall i :: 0 <= i < |ops| ==> !(ops[i].Finalize? && ops[i].sysFails) {
      NoFailureStrandsNothing(EMPTY, ops);
    }
  }

  lemma {:induction false} NoFailureStrandsNothing(w: World, ops: seq<Op>)
    requires forall i :: 0 <= i < |ops| ==> !(ops[i].Finalize? && ops[i].sysFails)
    ensures StrandedBy(w, ops) == {}
    decreases |ops|
  {
    if ops != [] {
      NoFailureStrandsNothing(Step(w, ops[0]), ops[1..]);
    }
  }

  /** Tss2_Sys_GetTctiContext: only a NULL argument makes it fail. */
  function GetTctiContextRc(hasSys: bool, hasOut: bool): RC {
    if !hasSys || !hasOut then BadReference else Success
  }

  /** Esys_Finalize calls it on the SYS block of a live context and with the address of a variable. */
  predicate SysAsWritten(op: Op) {
    op.Finalize? ==> (op.sysFails <==> GetTctiContextRc(true, true) != Success)
  }

  /** With the SYS layer as it is written nothing is ever stranded: once no context is left, nothing is
      allocated and the releases are exactly the structs, blocks and loader TCTIs created, each once. */
  lemma AllReleased(ops: seq<Op>)
    requires forall i :: 0 <= i < |ops| ==> Sensible(ops[i]) && SysAsWritten(ops[i])
    requires Run(EMPTY, ops).ctxs == map[]
    ensures Run(EMPTY, ops).held == {} && Run(EMPTY, ops).released == multiset(CreatedBy(EMPTY, ops))
  {
    NoFailureStrandsNothing(EMPTY, ops);
    hide Run, StrandedBy, CreatedBy;
    EmptyIsSound();
    RunKeepsOwnership(EMPTY, {}, ops);
    var w, created := Run(EMPTY, ops), CreatedBy(EMPTY, ops);
    assert forall r :: !Owned(w, r);
    forall r: Resource
      ensures w.released[r] == multiset(created)[r]
    {
      EveryResourceAccounted(ops, r);
    }
  }

  /** A failing GetTctiContext while finalizing strands the TCTI exactly when the application gave
      none. */
  lemma SysFailureStrandsTcti(w: World, cell: nat)
    requires Sound(w, {}) && cell in w.cells
    ensures Sound(FinSpec(w, Some(cell), true), {}) <==> w.ctxs[w.cells[cell]].appParam.Some?
  {
    var w', c := FinSpec(w, Some(cell), true), w.cells[cell];
    FinalizedKeepsSound(w, {}, cell, true);
    if w.ctxs[c].appParam.None? {
      var lost := Conn(w.ctxs[c].tcti);
      assert Has(w, c, lost) && lost in w'.held;
      forall d
        ensures !Has(w', d, lost)
      {
        FinalizedHas(w, cell, true, d, lost);
      }
      assert !Owned(w', lost);
    } else {
      assert {} + Lost(w.ctxs[c], true) == {};
    }
  }

  /** Esys_GetTcti on a live context */
  function TctiOf(w: World, c: nat): Option<Tcti>
    requires c in w.ctxs
  {
    w.ctxs[c].appParam
  }

  /** It answers with the argument Esys_Initialize was given for as long as the context lives. */
  lemma {:induction false} GetTctiIsStable(w: World, c: nat, ops: seq<Op>)
    requires c < w.next && c in w.ctxs && c in Run(w, ops).ctxs
    ensures TctiOf(Run(w, ops), c) == TctiOf(w, c)
    decreases |ops|
  {
    if ops != [] {
      var w1 := Step(w, ops[0]);
      assert c < w1.next && (c in w1.ctxs ==> w1.ctxs[c] == w.ctxs[c]);
      if c in w1.ctxs {
        GetTctiIsStable(w1, c, ops[1..]);
      } else {
        GoneStaysGone(w1, c, ops[1..]);
      }
    }
  }

  /** So after a successful Esys_Initialize it answers with that call's argument, NULL when none was
      given, whatever happens to other contexts in between. */
  lemma GetTctiAnswersArgument(w: World, cell: nat, tcti: Option<Tcti>, fault: Fault, ops: seq<Op>)
    requires !Fails(tcti, fault)
    requires w.next in Run(InitSpec(w, Some(cell), tcti, fault).0, ops).ctxs
    ensures TctiOf(Run(InitSpec(w, Some(cell), tcti, fault).0, ops), w.next) == tcti
  {
    GetTctiIsStable(InitSpec(w, Some(cell), tcti, fault).0, w.next, ops);
  }

  lemma {:induction false} GoneStaysGone(w: World, c: nat, ops: seq<Op>)
    requires c < w.next && c !in w.ctxs
    ensures c !in Run(w, ops).ctxs
    decreases |ops|
  {
    if ops != [] {
      GoneStaysGone(Step(w, ops[0]), c, ops[1..]);
    }
  }

  // ---------------------------------------------------------------- the code

  lemma AddressesAreFresh(w: World, stray: set<Resource>)
    requires Sound(w, stray)
    ensures Struct(w.next) !in w.held && Block(w.next + 1) !in w.held && Conn(Loaded(w.next + 2)) !in w.held
  {
  }

  /** What Esys_Finalize gives back, spelled out. */
  lemma BackIs(c: nat, x: Ctx, sysFails: bool)
    ensures Holdings(c, x) - Lost(x, sysFails)
         == Given(c, Some(x.sys), if x.appParam.None? && !sysFails then Some(x.tcti) else None)
  {
  }

  /** The struct, and of the others those that are there. */
  function Given(esys: nat, sys: Option<nat>, own: Option<Tcti>): set<Resource> {
    {Struct(esys)} + (if sys.Some? then {Block(sys.value)} else {}) + (if own.Some? then {Conn(own.value)} else {})
  }

  lemma GivenOneByOne(h: set<Resource>, l: multiset<Resource>, esys: nat, sys: Option<nat>, own: Option<Tcti>)
    requires Given(esys, sys, own) <= h
    ensures Struct(esys) in h && (sys.Some? ==> Block(sys.value) in h) && (own.Some? ==> Conn(own.value) in h)
    ensures var h1 := if own.Some? then h - {Conn(own.value)} else h;
            var h2 := if sys.Some? then h1 - {Block(sys.value)} else h1;
            h - Given(esys, sys, own) == h2 - {Struct(esys)}
    ensures var l1 := if own.Some? then l + multiset{Conn(own.value)} else l;
            var l2 := if sys.Some? then l1 + multiset{Block(sys.value)} else l1;
            l + multiset(Given(esys, sys, own)) == l2 + multiset{Struct(esys)}
  {
    assert Given(esys, sys, own) == {Struct(esys)} + (if sys.Some? then {Block(sys.value)} else {})
             + (if own.Some? then {Conn(own.value)} else {});
  }

  lemma TakenWithStruct(h: set<Resource>, n: nat, tcti: Option<Tcti>, fault: Fault)
    requires Struct(n) !in h && Block(n + 1) !in h && Conn(Loaded(n + 2)) !in h && fault != EsysAlloc
    ensures h + {Struct(n)} + Taken(n, tcti, fault) == h + Taken(n, tcti, fault)
    ensures h + Taken(n, tcti, fault) - Taken(n, tcti, fault) == h
  {
  }

  lemma InitFailed(w: World, cell: nat, tcti: Option<Tcti>, fault: Fault)
    requires Fails(tcti, fault)
    ensures InitSpec(w, Some(cell), tcti, fault)
         == (World(w.cells - {cell}, w.ctxs, w.held, w.released + multiset(Taken(w.next, tcti, fault)), w.next + 3),
             FaultRc(fault))
  {
  }

  lemma InitSucceeded(w: World, cell: nat, tcti: Option<Tcti>, fault: Fault)
    requires !Fails(tcti, fault)
    ensures InitSpec(w, Some(cell), tcti, fault)
         == (World(w.cells[cell := w.next],
                   w.ctxs[w.next := Ctx(tcti, w.next + 1, if tcti.Some? then tcti.value else Loaded(w.next + 2))],
                   w.held + Taken(w.next, tcti, fault), w.released, w.next + 3), Success)
  {
  }

  lemma PointerRewritten(cells: map<nat, nat>, k: nat, c: nat)
    ensures (cells - {k})[k := c] == cells[k := c] && (cells - {k}) - {k} == cells - {k} == cells[k := c] - {k}
  {
  }

  class Esapi {
    var cells: map<nat, nat>
    var ctxs: map<nat, Ctx>
    var held: set<Resource>
    var released: multiset<Resource>
    var next: nat

    ghost function Contents(): World
      reads this
    {
      World(cells, ctxs, held, released, next)
    }

    constructor ()
      ensures Contents() == EMPTY
    {
      cells, ctxs, held, released, next := map[], map[], {}, multiset{}, 0;
    }

    /** calloc, Tss2_TctiLdr_Initialize */
    method Acquire(r: Resource)
      requires r !in held
      modifies this`held
      ensures Contents() == old(Contents()).(held := old(held) + {r})
    {
      held := held + {r};
    }

    /** free, Tss2_TctiLdr_Finalize: only of what is there */
    method Release(r: Resource)
      requires r in held
      modifies this`held, this`released
      ensures Contents() == old(Contents()).(held := old(held) - {r}, released := old(released) + multiset{r})
    {
      held, released := held - {r}, released + multiset{r};
    }

    /** Esys_Initialize; fault says which of its steps fails. */
    method Initialize(cell: Option<nat>, tcti: Option<Tcti>, fault: Fault, ghost stray: set<Resource>) returns (rc: RC)
      requires Sound(Contents(), stray) && Sensible(Op.Initialize(cell, tcti, fault))
      modifies this
      ensures (Contents(), rc) == InitSpec(old(Contents()), cell, tcti, fault)
    {
      if cell.None? {
        return BadReference;
      }
      AddressesAreFresh(Contents(), stray);
      hide Sound, PointersSound, InitSpec;
      PointerRewritten(cells, cell.value, next);
      cells := cells - {cell.value};
      // three addresses for what this call may create
      var esys := next;
      next := next + 3;
      if fault == EsysAlloc {
        InitFailed(old(Contents()), cell.value, tcti, fault);
        assert released == old(released) + multiset(Taken(esys, tcti, fault));
        return Memory;
      }
      if Fails(tcti, fault) {
        InitFailed(old(Contents()), cell.value, tcti, fault);
      } else {
        InitSucceeded(old(Contents()), cell.value, tcti, fault);
      }
      hide Taken, Fails, FaultRc;
      rc := Construct(cell.value, esys, tcti, fault);
    }

    /** Esys_Initialize once it has memory for the struct. */
    method Construct(cell: nat, esys: nat, tcti: Option<Tcti>, fault: Fault) returns (rc: RC)
      requires fault != EsysAlloc && Sensible(Op.Initialize(Some(cell), tcti, fault))
      requires Struct(esys) !in held && Block(esys + 1) !in held && Conn(Loaded(esys + 2)) !in held
      modifies this
      ensures rc == if Fails(tcti, fault) then FaultRc(fault) else Success
      ensures Contents() ==
                if Fails(tcti, fault) then
                  old(Contents()).(cells := old(cells) - {cell},
                                   released := old(released) + multiset(Taken(esys, tcti, fault)))
                else
                  var used := if tcti.Some? then tcti.value else Loaded(esys + 2);
                  old(Contents()).(cells := old(cells)[cell := esys],
                                   ctxs := old(ctxs)[esys := Ctx(tcti, esys + 1, used)],
                                   held := old(held) + Taken(esys, tcti, fault))
    {
      TakenWithStruct(held, esys, tcti, fault);
      PointerRewritten(cells, cell, esys);
      Acquire(Struct(esys));
      cells := cells[cell := esys];
      var sys, used;
      rc, sys, used := Build(esys, tcti, fault);
      hide Taken, Given;
      Settle(cell, esys, tcti, rc, sys, used);
    }

    /** The end of Esys_Initialize: the context as built or, after a failure, cleanup_return. */
    method Settle(cell: nat, esys: nat, tcti: Option<Tcti>, rc: RC, sys: Option<nat>, used: Option<Tcti>)
      requires rc == Success ==> sys.Some? && used.Some?
      requires Given(esys, sys, if tcti.None? then used else None) <= held
      modifies this
      ensures var given := Given(esys, sys, if tcti.None? then used else None);
              Contents() ==
                if rc == Success then
                  old(Contents()).(ctxs := old(ctxs)[esys := Ctx(tcti, sys.value, used.value)])
                else
                  old(Contents()).(cells := old(cells) - {cell}, held := old(held) - given,
                                   released := old(released) + multiset(given))
    {
      if rc == Success {
        ctxs := ctxs[esys := Ctx(tcti, sys.value, used.value)];
        return;
      }
      CleanUp(esys, sys, if tcti.None? then used else None);
      cells := cells - {cell};
    }

    /** The steps of Esys_Initialize from the SYS block on, each left at its first failure: the block,
        the loader's TCTI when the application gave none, the SYS layer, the crypto backend. */
    method Build(esys: nat, tcti: Option<Tcti>, fault: Fault) returns (rc: RC, sys: Option<nat>, used: Option<Tcti>)
      requires fault != EsysAlloc && Sensible(Op.Initialize(None, tcti, fault))
      requires Struct(esys) in held && Block(esys + 1) !in held && Conn(Loaded(esys + 2)) !in held
      modifies this`held
      ensures rc == if Fails(tcti, fault) then FaultRc(fault) else Success
      ensures sys == if fault == SysAlloc then None else Some(esys + 1)
      ensures used == if tcti.None? && fault != SysAlloc && !fault.LoaderInit? then Some(Loaded(esys + 2)) else tcti
      ensures Taken(esys, tcti, fault) == Given(esys, sys, if tcti.None? then used else None)
      ensures Contents() == old(Contents()).(held := old(held) + Taken(esys, tcti, fault))
    {
      sys, used := None, tcti;
      if fault == SysAlloc {
        return Memory, sys, used;
      }
      Acquire(Block(esys + 1));
      sys := Some(esys + 1);
      if used.None? {
        if fault.LoaderInit? {
          return fault.rc, sys, used;
        }
        Acquire(Conn(Loaded(esys + 2)));
        used := Some(Loaded(esys + 2));
      }
      if fault.SysInit? {
        return fault.rc, sys, used;
      }
      if fault.CryptoInit? {
        return fault.rc, sys, used;
      }
      return Success, sys, used;
    }

    /** The end of Esys_Initialize's cleanup_return: the TCTI it created, if any, the SYS block, if
        any, and the struct. */
    method CleanUp(esys: nat, sys: Option<nat>, own: Option<Tcti>)
      requires Given(esys, sys, own) <= held
      modifies this`held, this`released
      ensures var given := Given(esys, sys, own);
              Contents() == old(Contents()).(held := old(held) - given, released := old(released) + multiset(given))
    {
      GivenOneByOne(held, released, esys, sys, own);
      hide Given;
      if own.Some? {
        Release(Conn(own.value));
      }
      if sys.Some? {
        Release(Block(sys.value));
      }
      Release(Struct(esys));
    }

    /** Esys_Finalize; sysFails says whether Tss2_Sys_GetTctiContext fails. */
    method Finalize(cell: Option<nat>, sysFails: bool, ghost stray: set<Resource>)
      requires Sound(Contents(), stray)
      modifies this
      ensures Contents() == FinSpec(old(Contents()), cell, sysFails)
    {
      if cell.None? || cell.value !in cells {
        return;
      }
      var esys := cells[cell.value];
      var c := ctxs[esys];
      assert forall r :: r in Holdings(esys, c) ==> Has(Contents(), esys, r);
      assert Holdings(esys, c) <= held;
      hide Sound, Has, PointersSound, Holdings, Lost, Given;
      var tcti := None;
      if c.appParam.None? {
        tcti := if sysFails then None else Some(c.tcti);
      }
      BackIs(esys, c, sysFails);
      GiveBack(esys, c.sys, tcti);
      ctxs := ctxs - {esys};
      cells := cells - {cell.value};
    }

    /** The releases of Esys_Finalize in order. */
    method GiveBack(esys: nat, sys: nat, tcti: Option<Tcti>)
      requires Given(esys, Some(sys), tcti) <= held
      modifies this`held, this`released
      ensures var given := Given(esys, Some(sys), tcti);
              Contents() == old(Contents()).(held := old(held) - given, released := old(released) + multiset(given))
    {
      GivenOneByOne(held, released, esys, Some(sys), tcti);
      hide Given;
      Release(Block(sys));
      if tcti.Some? {
        Release(Conn(tcti.value));
      }
      Release(Struct(esys));
    }

    /** Esys_GetTcti; hasOut says that the caller gave somewhere to store the answer. */
    method GetTcti(ctx: Option<nat>, hasOut: bool) returns (rc: RC, tcti: Option<Tcti>)
      requires ctx.Some? ==> ctx.value in ctxs
      ensures rc == if ctx.None? || !hasOut then BadReference else Success
      ensures rc == Success ==> tcti == ctxs[ctx.value].appParam == TctiOf(Contents(), ctx.value)
    {
      if ctx.None? || !hasOut {
        return BadReference, None;
      }
      return Success, ctxs[ctx.value].appParam;
    }
  }
}
