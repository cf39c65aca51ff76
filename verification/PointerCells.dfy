/** The context pointers a caller holds. Start stores into one, finish and abort write it back, update
    reads it; nothing else touches it. */
module PointerCells {
  import opened Tss
  import opened Bytes
  import opened Primitives
  import opened ContextMachine
  import opened Backends

  /** The contexts and the caller's pointer variables; a variable that is not in cells is NULL. */
  datatype Cells = Cells(s: State, cells: map<nat, Handle>)

  /** A call on a pointer variable. cell is the address of the variable, None for a NULL address. */
  datatype CellCall =
    | StartAt(cell: Option<nat>, kind: Kind, alg: AlgId, key: Option<seq<byte>>)
    | UpdateAt(cell: Option<nat>, kind: Kind, data: Option<seq<byte>>)
    | FinishAt(cell: Option<nat>, kind: Kind, room: Option<nat>)
    | AbortAt(cell: Option<nat>, kind: Kind)

  function Pointer(m: Cells, cell: Option<nat>): Option<Handle> {
    if cell.Some? && cell.value in m.cells then Some(m.cells[cell.value]) else None
  }

  /** The call the backend sees. */
  function Resolve(m: Cells, c: CellCall): Call {
    match c
    case StartAt(cell, kind, alg, key) => Start(kind, alg, key, cell.Some?)
    case UpdateAt(cell, kind, data) => Update(kind, Pointer(m, cell), data)
    case FinishAt(cell, kind, room) => Finish(kind, Pointer(m, cell), room)
    case AbortAt(cell, kind) => Abort(kind, Pointer(m, cell))
  }

  function Store(cells: map<nat, Handle>, cell: Option<nat>, ptr: Option<Handle>): map<nat, Handle> {
    if cell.None? then cells
    else if ptr.Some? then cells[cell.value := ptr.value]
    else cells - {cell.value}
  }

  /** Start assigns *context only when it made a context; finish and abort leave in it what their reply says;
      update gets the pointer by value. */
  function StepAt(p: Crypto, m: Cells, c: CellCall, v: Verdict): Cells {
    var (s, r) := Step(p, m.s, Resolve(m, c), v);
    match c
    case StartAt(cell, _, _, _) => Cells(s, if r.ctx.Some? then Store(m.cells, cell, r.ctx) else m.cells)
    case UpdateAt(_, _, _) => Cells(s, m.cells)
    case FinishAt(cell, _, _) => Cells(s, Store(m.cells, cell, r.ctx))
    case AbortAt(cell, _) => Cells(s, Store(m.cells, cell, r.ctx))
  }

  function RunAt(p: Crypto, m: Cells, calls: seq<CellCall>, vs: seq<Verdict>): Cells
    requires |calls| == |vs|
    decreases |calls|
  {
    if calls == [] then m else RunAt(p, StepAt(p, m, calls[0], vs[0]), calls[1..], vs[1..])
  }

  /** The call would reach through a pointer to a context that is no longer there. */
  predicate Dangles(s: State, c: Call) {
    CtxOf(c).Some? && CtxOf(c).value !in s.live
  }

  /** The context on which the code calls its context_free, if any. Through a dangling pointer both
      abort and finish count as freeing again: C gives no assurance that they do not. */
  function FreeTarget(s: State, c: Call, v: Verdict): Option<Handle> {
    if CtxOf(c).None? then None
    else if Dangles(s, c) then (if c.Update? then None else CtxOf(c))
    else if Refusal(s, c).Some? then None
    else match c
      case Finish(_, ctx, _) => if v.Works? || v.freed then ctx else None
      case Abort(_, ctx) => ctx
      case _ => None
  }

  function OneOrNone(h: Option<Handle>): multiset<Handle> {
    if h.Some? then multiset{h.value} else multiset{}
  }

  /** Every context_free of a run, once for each time it is called. */
  function FreedBy(p: Crypto, m: Cells, calls: seq<CellCall>, vs: seq<Verdict>): multiset<Handle>
    requires |calls| == |vs|
    decreases |calls|
  {
    if calls == [] then multiset{}
    else OneOrNone(FreeTarget(m.s, Resolve(m, calls[0]), vs[0]))
         + FreedBy(p, StepAt(p, m, calls[0], vs[0]), calls[1..], vs[1..])
  }

  /** The context that a call hands out. */
  function Created(p: Crypto, m: Cells, c: CellCall, v: Verdict): Option<Handle> {
    if c.StartAt? then Step(p, m.s, Resolve(m, c), v).1.ctx else None
  }

  function CreatedBy(p: Crypto, m: Cells, calls: seq<CellCall>, vs: seq<Verdict>): multiset<Handle>
    requires |calls| == |vs|
    decreases |calls|
  {
    if calls == [] then multiset{}
    else OneOrNone(Created(p, m, calls[0], vs[0])) + CreatedBy(p, StepAt(p, m, calls[0], vs[0]), calls[1..], vs[1..])
  }

  predicate NeverDangles(p: Crypto, m: Cells, calls: seq<CellCall>, vs: seq<Verdict>)
    requires |calls| == |vs|
    decreases |calls|
  {
    calls != [] ==>
      !Dangles(m.s, Resolve(m, calls[0])) && NeverDangles(p, StepAt(p, m, calls[0], vs[0]), calls[1..], vs[1..])
  }

  /** Every pointer that is not NULL points to a live context, and no two to the same one. */
  ghost predicate Sound(m: Cells) {
    Valid(m.s) && PointersSound(m.cells, m.s.live.Keys)
  }

  ghost predicate PointersSound(cells: map<nat, Handle>, live: set<Handle>) {
    && (forall k :: k in cells ==> cells[k] in live)
    && (forall j, k :: j in cells && k in cells && j != k ==> cells[j] != cells[k])
  }

  // ---------------------------------------------------------------- one call

  /** Which contexts a call adds or takes away, and the pointer it hands back. */
  lemma StepKeys(p: Crypto, s: State, c: Call, v: Verdict)
    requires Valid(s) && !Dangles(s, c)
    ensures var (s', r) := Step(p, s, c, v);
            && Valid(s') && s.next <= s'.next
            && (c.Start? ==>
                  if r.ctx.Some? then r.ctx == Some(s.next) && s'.live.Keys == s.live.Keys + {s.next}
                                      && s.next < s'.next
                  else s' == s)
            && (c.Start? && !c.hasOut ==> r.ctx == None)
            && (c.Update? ==> FreeTarget(s, c, v) == None)
            && (!c.Start? ==>
                  match FreeTarget(s, c, v)
                  case Some(h) => CtxOf(c) == Some(h) && r.ctx == None && s'.live.Keys == s.live.Keys - {h}
                  case None => r.ctx == CtxOf(c) && s'.live.Keys == s.live.Keys)
  {
  }

  lemma StepAtKeepsSound(p: Crypto, m: Cells, c: CellCall, v: Verdict)
    requires Sound(m)
    ensures Sound(StepAt(p, m, c, v)) && !Dangles(m.s, Resolve(m, c))
  {
    hide Step, Valid, FreeTarget, PointersSound;
    PointersAreLive(m.cells, m.s.live.Keys);
    StepKeys(p, m.s, Resolve(m, c), v);
    OldHandles(m.s);
    match c
    case StartAt(cell, _, _, _) =>
      if cell.Some? {
        StoreKeeps(m.cells, m.s.live.Keys, cell.value, m.s.next);
      }
    case UpdateAt(cell, _, _) =>
    case FinishAt(cell, _, _) =>
      StoreBackKeeps(m.cells, m.s.live.Keys, cell);
    case AbortAt(cell, _) =>
      StoreBackKeeps(m.cells, m.s.live.Keys, cell);
  }

  lemma PointersAreLive(cells: map<nat, Handle>, live: set<Handle>)
    requires PointersSound(cells, live)
    ensures forall k :: k in cells ==> cells[k] in live
  {
  }

  lemma StoreKeeps(cells: map<nat, Handle>, live: set<Handle>, k: nat, h: Handle)
    requires PointersSound(cells, live) && h !in live
    ensures PointersSound(cells[k := h], live + {h})
  {
  }

  /** Writing back the pointer as it was, or NULL when its context went. */
  lemma StoreBackKeeps(cells: map<nat, Handle>, live: set<Handle>, cell: Option<nat>)
    requires PointersSound(cells, live)
    ensures Store(cells, cell, Pointer(Cells(State(map[], 0), cells), cell)) == cells
    ensures cell.Some? && cell.value in cells ==> PointersSound(cells - {cell.value}, live - {cells[cell.value]})
  {
  }

  lemma OldHandles(s: State)
    requires Valid(s)
    ensures forall h :: h in s.live.Keys ==> h < s.next
  {
  }

  /** The pointer after each call: the new context after a start that made one, NULL after a finish or
      abort that freed the context, and otherwise what it was. */
  lemma PointerAfter(p: Crypto, m: Cells, c: CellCall, v: Verdict)
    requires Sound(m)
    ensures var m' := StepAt(p, m, c, v);
            var freed := FreeTarget(m.s, Resolve(m, c), v);
            match Created(p, m, c, v)
            case Some(h) => c.cell.Some? && m'.cells == m.cells[c.cell.value := h]
            case None =>
              && (freed.None? ==> m'.cells == m.cells)
              && (freed.Some? ==> Pointer(m, c.cell) == freed && m'.cells == m.cells - {c.cell.value})
  {
    hide Step, Valid, FreeTarget, PointersSound;
    PointersAreLive(m.cells, m.s.live.Keys);
    StepKeys(p, m.s, Resolve(m, c), v);
    assert c.StartAt? ==> FreeTarget(m.s, Resolve(m, c), v) == None by {
      StartFreesNothing(m.s, Resolve(m, c), v);
    }
    StoreBackKeeps(m.cells, m.s.live.Keys, c.cell);
  }

  lemma StartFreesNothing(s: State, c: Call, v: Verdict)
    ensures c.Start? ==> FreeTarget(s, c, v) == None
  {
  }

  /** How often h is live: once or not at all. */
  function Count(s: State, h: Handle): nat {
    if h in s.live then 1 else 0
  }

  /** A call creates, frees, or does neither; what it creates is new, what it frees was live. */
  lemma StepAtAccounts(p: Crypto, m: Cells, c: CellCall, v: Verdict, h: Handle)
    requires Sound(m)
    ensures Count(m.s, h) + OneOrNone(Created(p, m, c, v))[h]
         == Count(StepAt(p, m, c, v).s, h) + OneOrNone(FreeTarget(m.s, Resolve(m, c), v))[h]
    ensures m.s.next <= StepAt(p, m, c, v).s.next
    ensures Created(p, m, c, v) == Some(h) ==> m.s.next <= h < StepAt(p, m, c, v).s.next
    ensures FreeTarget(m.s, Resolve(m, c), v) == Some(h) ==> h in m.s.live
  {
    var call := Resolve(m, c);
    assert c.StartAt? <==> call.Start?;
    assert c.StartAt? ==> FreeTarget(m.s, call, v) == None;
    hide Step, Valid, FreeTarget, PointersSound, Resolve, Dangles, Store;
    StepAtKeepsSound(p, m, c, v);
    StepKeys(p, m.s, call, v);
    OldHandles(m.s);
    var s' := Step(p, m.s, call, v).0;
    assert StepAt(p, m, c, v).s == s' && (h in s'.live <==> h in s'.live.Keys)
           && (h in m.s.live <==> h in m.s.live.Keys);
  }

  // ---------------------------------------------------------------- every run

  /** Over every run through pointer variables, whatever the library does at each call: no call ever
      receives a dangling pointer, the variables stay sound, and for each context the times it is
      created and freed balance with whether it is live. */
  lemma {:induction false} RunAtIsSafe(p: Crypto, m: Cells, calls: seq<CellCall>, vs: seq<Verdict>, h: Handle)
    requires |calls| == |vs| && Sound(m)
    ensures NeverDangles(p, m, calls, vs) && Sound(RunAt(p, m, calls, vs))
    ensures Count(m.s, h) + CreatedBy(p, m, calls, vs)[h]
         == Count(RunAt(p, m, calls, vs).s, h) + FreedBy(p, m, calls, vs)[h]
    ensures CreatedBy(p, m, calls, vs)[h] <= (if h >= m.s.next then 1 else 0)
    decreases |calls|
  {
    hide StepAt, Created, FreeTarget, Dangles, Sound;
    if calls != [] {
      StepAtKeepsSound(p, m, calls[0], vs[0]);
      StepAtAccounts(p, m, calls[0], vs[0], h);
      RunAtIsSafe(p, StepAt(p, m, calls[0], vs[0]), calls[1..], vs[1..], h);
    }
  }

  /** So no context is freed twice, and each that is freed was live before the run or created by it. */
  lemma FreedAtMostOnce(p: Crypto, m: Cells, calls: seq<CellCall>, vs: seq<Verdict>, h: Handle)
    requires |calls| == |vs| && Sound(m)
    ensures FreedBy(p, m, calls, vs)[h] <= 1
    ensures h in FreedBy(p, m, calls, vs) ==>
              && (h in m.s.live || h in CreatedBy(p, m, calls, vs))
              && h !in RunAt(p, m, calls, vs).s.live
    ensures h in CreatedBy(p, m, calls, vs) && h !in FreedBy(p, m, calls, vs) ==> h in RunAt(p, m, calls, vs).s.live
  {
    RunAtIsSafe(p, m, calls, vs, h);
  }

  /** The verdicts of one backend on its own schedule, its clock standing at times[i] for call i. */
  ghost function VerdictsOf(e: Env, m: Cells, calls: seq<CellCall>, times: seq<nat>): (vs: seq<Verdict>)
    requires |calls| == |times|
    ensures |vs| == |calls|
    decreases |calls|
  {
    if calls == [] then []
    else
      var v := Decide(e, times[0], m.s, Resolve(m, calls[0]));
      [v] + VerdictsOf(e, StepAt(e.crypto, m, calls[0], v), calls[1..], times[1..])
  }

  /** In either backend, on every schedule of failing library calls, starting from NULL pointers: no
      call gets a dangling pointer and each context created is freed once or still live. */
  lemma BackendCellsAreSafe(e: Env, calls: seq<CellCall>, times: seq<nat>, h: Handle)
    requires |calls| == |times|
    ensures var m := Cells(State(map[], 0), map[]);
            var vs := VerdictsOf(e, m, calls, times);
            var s := RunAt(e.crypto, m, calls, vs).s;
            && NeverDangles(e.crypto, m, calls, vs)
            && CreatedBy(e.crypto, m, calls, vs)[h] == FreedBy(e.crypto, m, calls, vs)[h] + Count(s, h) <= 1
  {
    hide NeverDangles, CreatedBy, FreedBy, RunAt, VerdictsOf;
    var m := Cells(State(map[], 0), map[]);
    RunAtIsSafe(e.crypto, m, calls, VerdictsOf(e, m, calls, times), h);
  }
}
