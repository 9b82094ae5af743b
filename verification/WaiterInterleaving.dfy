/** The buddy waiter protocol (src/async_alloc.rs) as any number of threads interleaving
    atomic steps: each queue operation under its mutex, each atomic load, store,
    compare-exchange, add and subtract, and each take of a sender is one step.

    A wake may be given any list of orders, which covers whatever `score_orders` reads
    while others run. `place`, `sub` and `claim` of an entry are history variables: where
    the entry is, who owes its count a decrement, and who may take its sender.
 */
module WaiterInterleaving {
  import opened Words
  import opened Bitmaps
  import opened Waiters

  datatype Place = New | Pushed(t: nat) | Queued | Popped(t: nat) | Gone

  datatype Sub = Waiting | Due(t: nat) | Settled

  datatype Claim = Unclaimed | ClaimedBy(t: nat) | TakenOnce

  datatype Entry = Entry(state: EntryState, tx: bool, order: nat, timestamp: nat, place: Place, sub: Sub, claim: Claim)

  datatype Slot = Slot(queue: seq<nat>, count: int, head: nat, lock: Option<nat>)

  datatype Reg = Reg(pending: bool, registered: bool, busy: Option<nat>)

  /** The orders a wake has still to visit, after the current one, and the pops it has used. */
  datatype Plan = Plan(o: nat, rest: seq<nat>, pops: nat)

  datatype Pc =
    | Idle
      // prepare
    | PrepLock(id: nat)
    | PrepPush(id: nat)
    | PrepAdd(id: nat)
    | PrepHead(id: nat)
    | PrepUnlock(id: nat)
      // revoke and drop
    | RevCas(id: nat, dropping: bool)
    | RevTake(id: nat, dropping: bool)
    | RevSub(id: nat, dropping: bool)
    | RevEnd(id: nat, dropping: bool)
      // wake
    | WakeLock(plan: Plan)
    | WakePop(plan: Plan)
    | WakeLoad(plan: Plan, id: nat)
    | WakeCas(plan: Plan, id: nat)
    | WakeSub(plan: Plan, id: nat)
    | WakeScan(plan: Plan, id: nat, i: nat)
    | WakeStore(plan: Plan, id: nat, ts: nat)
    | WakeUnlock(plan: Plan, won: Option<nat>)
    | WakeTake(plan: Plan, id: nat)

  datatype State = State(
    slots: seq<Slot>,
    entries: map<nat, Entry>,
    regs: map<nat, Reg>,
    threads: map<nat, Pc>,
    underflow: bool,      // a count was decremented below zero
    emptyTake: bool       // a sender was taken that was no longer there
  ) {
    function At(t: nat): Pc { if t in threads then threads[t] else Idle }
  }

  datatype Event =
    | Register(id: nat, order: nat, timestamp: nat)
    | StartPrepare(t: nat, id: nat)
    | StartRevoke(t: nat, id: nat, dropping: bool)
    | PollReady(id: nat)
    | StartWake(t: nat, orders: seq<nat>)
    | Step(t: nat)

  predicate LiveEntry(s: State, id: nat)
  {
    id in s.entries && s.entries[id].state == LIVE
  }

  /** The next candidate order, or the end of the wake. */
  function NextOrder(rest: seq<nat>, pops: nat): Pc
  {
    if rest == [] || pops >= MAX_POPS_PER_WAKE then Idle else WakeLock(Plan(rest[0], rest[1..], pops))
  }

  /** What one atomic step does: new contents for one entry, one order and one registration,
      and the next program counter. */
  datatype Effect = Effect(
    id: nat,
    entry: Option<Entry>,
    o: nat,
    slot: Option<Slot>,
    reg: Option<Reg>,
    dropped: bool,
    underflow: bool,
    emptyTake: bool,
    pc: Pc)

  function Local(pc: Pc): Effect
  {
    Effect(0, None, 0, None, None, false, false, false, pc)
  }

  function Enact(s: State, t: nat, f: Effect): State
  {
    State.State(
      if f.slot.Some? && f.o < |s.slots| then s.slots[f.o := f.slot.value] else s.slots,
      if f.entry.Some? then s.entries[f.id := f.entry.value] else s.entries,
      if f.dropped then s.regs - {f.id} else if f.reg.Some? then s.regs[f.id := f.reg.value] else s.regs,
      s.threads[t := f.pc],
      s.underflow || f.underflow,
      s.emptyTake || f.emptyTake)
  }

  /** Sender taken out of the entry. */
  function TakeTx(s: State, id: nat, pc: Pc): Effect
    requires id in s.entries
  {
    Local(pc).(id := id, entry := Some(s.entries[id].(tx := false, claim := TakenOnce)), emptyTake := !s.entries[id].tx)
  }

  /** `fetch_sub(1)` on the entry's order. */
  function SubCount(s: State, id: nat, pc: Pc): Effect
    requires id in s.entries && s.entries[id].order < |s.slots|
  {
    var o := s.entries[id].order;
    Local(pc).(id := id, entry := Some(s.entries[id].(sub := Settled)),
               o := o, slot := Some(s.slots[o].(count := s.slots[o].count - 1)), underflow := s.slots[o].count <= 0)
  }

  function SetLock(s: State, o: nat, lock: Option<nat>, pc: Pc): Effect
    requires o < |s.slots|
  {
    Local(pc).(o := o, slot := Some(s.slots[o].(lock := lock)))
  }

  /** What a step reads exists; the invariant shows it always does. */
  predicate Meaningful(s: State, pc: Pc)
  {
    match pc
    case Idle => true
    case PrepLock(id) => Known(s, id)
    case PrepPush(id) => Known(s, id)
    case PrepAdd(id) => Known(s, id)
    case PrepHead(id) => Known(s, id)
    case PrepUnlock(id) => Known(s, id)
    case RevCas(id, _) => Known(s, id)
    case RevTake(id, _) => Known(s, id)
    case RevSub(id, _) => Known(s, id)
    case RevEnd(id, _) => Known(s, id)
    case WakeLock(plan) => plan.o < |s.slots|
    case WakePop(plan) => plan.o < |s.slots| && QueueKnown(s, plan.o)
    case WakeLoad(plan, id) => plan.o < |s.slots| && id in s.entries
    case WakeCas(plan, id) => plan.o < |s.slots| && id in s.entries
    case WakeSub(plan, id) => plan.o < |s.slots| && id in s.entries && s.entries[id].order == plan.o
    case WakeScan(plan, id, _) => plan.o < |s.slots| && id in s.entries && QueueKnown(s, plan.o)
    case WakeStore(plan, id, _) => plan.o < |s.slots| && id in s.entries
    case WakeUnlock(plan, won) => plan.o < |s.slots| && (won.Some? ==> won.value in s.entries)
    case WakeTake(plan, id) => id in s.entries
  }

  predicate Known(s: State, id: nat)
  {
    id in s.entries && s.entries[id].order < |s.slots| && id in s.regs
  }

  predicate QueueKnown(s: State, o: nat)
    requires o < |s.slots|
  {
    forall id :: id in s.slots[o].queue ==> id in s.entries
  }

  /** One atomic step of thread `t`, which is at `pc`. */
  function EffectOf(s: State, t: nat, pc: Pc): Effect
    requires Meaningful(s, pc)
  {
    match pc
    case Idle => Local(Idle)
    // src/async_alloc.rs:509-526
    case PrepLock(id) =>
      if s.slots[s.entries[id].order].lock.None?
      then SetLock(s, s.entries[id].order, Some(t), PrepPush(id)) else Local(pc)
    case PrepPush(id) =>
      var o := s.entries[id].order;
      Local(PrepAdd(id)).(id := id, entry := Some(s.entries[id].(place := Pushed(t))),
                          o := o, slot := Some(s.slots[o].(queue := s.slots[o].queue + [id])))
    case PrepAdd(id) =>
      var o := s.entries[id].order;
      Local(if s.slots[o].count == 0 then PrepHead(id) else PrepUnlock(id))
        .(id := id, entry := Some(s.entries[id].(place := Queued)),
          o := o, slot := Some(s.slots[o].(count := s.slots[o].count + 1)))
    case PrepHead(id) =>
      var o := s.entries[id].order;
      Local(PrepUnlock(id)).(o := o, slot := Some(s.slots[o].(head := s.entries[id].timestamp)))
    case PrepUnlock(id) =>
      SetLock(s, s.entries[id].order, None, Idle).(id := id, reg := Some(s.regs[id].(registered := true, busy := None)))
    // src/async_alloc.rs:528-550 and 573-594
    case RevCas(id, dropping) =>
      if s.entries[id].state == LIVE
      then Local(RevTake(id, dropping))
             .(id := id, entry := Some(s.entries[id].(state := REVOKED, sub := Due(t), claim := ClaimedBy(t))))
      else Local(RevEnd(id, dropping))
    case RevTake(id, dropping) => TakeTx(s, id, RevSub(id, dropping))
    case RevSub(id, dropping) => SubCount(s, id, RevEnd(id, dropping))
    case RevEnd(id, dropping) =>
      if dropping then Local(Idle).(id := id, dropped := true)
      else Local(Idle).(id := id, reg := Some(s.regs[id].(registered := false, busy := None)))
    // src/async_alloc.rs:329-376
    case WakeLock(plan) =>
      if s.slots[plan.o].lock.None? then SetLock(s, plan.o, Some(t), WakePop(plan)) else Local(pc)
    case WakePop(plan) =>
      var q := s.slots[plan.o].queue;
      if plan.pops >= MAX_POPS_PER_WAKE || q == [] then Local(WakeUnlock(plan, None))
      else Local(WakeLoad(plan.(pops := plan.pops + 1), q[0]))
             .(id := q[0], entry := Some(s.entries[q[0]].(place := Popped(t))),
               o := plan.o, slot := Some(s.slots[plan.o].(queue := q[1..])))
    case WakeLoad(plan, id) =>
      if s.entries[id].state == LIVE then Local(WakeCas(plan, id))
      else Local(WakePop(plan)).(id := id, entry := Some(s.entries[id].(place := Gone)))
    case WakeCas(plan, id) =>
      if s.entries[id].state == LIVE
      then Local(WakeSub(plan, id)).(id := id, entry := Some(s.entries[id].(state := WOKEN, place := Gone,
        sub := Due(t), claim := ClaimedBy(t))))
      else Local(WakePop(plan)).(id := id, entry := Some(s.entries[id].(place := Gone)))
    case WakeSub(plan, id) => SubCount(s, id, WakeScan(plan, id, 0))
    case WakeScan(plan, id, i) =>
      var q := s.slots[plan.o].queue;
      Local(if i >= |q| then WakeStore(plan, id, NO_WAITERS_TIMESTAMP)
            else if s.entries[q[i]].state == LIVE then WakeStore(plan, id, s.entries[q[i]].timestamp)
            else WakeScan(plan, id, i + 1))
    case WakeStore(plan, id, ts) =>
      Local(WakeUnlock(plan, Some(id))).(o := plan.o, slot := Some(s.slots[plan.o].(head := ts)))
    case WakeUnlock(plan, won) =>
      SetLock(s, plan.o, None, if won.Some? then WakeTake(plan, won.value) else NextOrder(plan.rest, plan.pops))
    case WakeTake(plan, id) => TakeTx(s, id, NextOrder(plan.rest, plan.pops))
  }

  function Apply(s: State, e: Event): State
  {
    match e
    case Register(id, order, timestamp) =>
      if id in s.entries || id in s.regs || s.slots == [] || timestamp >= NO_WAITERS_TIMESTAMP then s
      else
        var o := if order < |s.slots| then order else |s.slots| - 1;
        s.(entries := s.entries[id := Entry.Entry(LIVE, true, o, timestamp, New, Waiting, Unclaimed)],
           regs := s.regs[id := Reg(true, false, None)])
    case StartPrepare(t, id) =>
      if s.At(t).Idle? && id in s.regs && s.regs[id].busy.None? && !s.regs[id].registered && s.regs[id].pending
      then s.(regs := s.regs[id := s.regs[id].(pending := false, busy := Some(t))],
              threads := s.threads[t := PrepLock(id)])
      else s
    case StartRevoke(t, id, dropping) =>
      if s.At(t).Idle? && id in s.regs && s.regs[id].busy.None? && s.regs[id].registered
      then s.(regs := s.regs[id := s.regs[id].(busy := Some(t))], threads := s.threads[t := RevCas(id, dropping)])
      else s
    case PollReady(id) =>
      if id in s.regs && s.regs[id].busy.None? && id in s.entries && !s.entries[id].tx
      then s.(regs := s.regs[id := s.regs[id].(registered := false)])
      else s
    case StartWake(t, orders) =>
      if s.At(t).Idle? && forall i :: 0 <= i < |orders| ==> orders[i] < |s.slots|
      then s.(threads := s.threads[t := NextOrder(orders, 0)])
      else s
    case Step(t) =>
      if Meaningful(s, s.At(t)) then Enact(s, t, EffectOf(s, t, s.At(t))) else s
  }

  function Run(s: State, es: seq<Event>): State
  {
    if es == [] then s else Apply(Run(s, es[..|es| - 1]), es[|es| - 1])
  }

  function Init(orders: nat): State
  {
    State.State(seq(orders, i => Slot.Slot([], 0, NO_WAITERS_TIMESTAMP, None)), map[], map[], map[], false, false)
  }

  // ----- the invariant

  ghost predicate PcOk(s: State, t: nat)
  {
    var pc := s.At(t);
    Meaningful(s, pc) &&
    match pc
    case Idle => true
    case PrepLock(id) => s.regs[id].busy == Some(t) && s.entries[id].place == New && !s.regs[id].registered
    case PrepPush(id) =>
      s.regs[id].busy == Some(t) && s.entries[id].place == New && !s.regs[id].registered && Locked(s, id, t)
    case PrepAdd(id) =>
      && s.regs[id].busy == Some(t) && s.entries[id].place == Pushed(t) && !s.regs[id].registered
      && Locked(s, id, t) && LiveEntry(s, id)
    case PrepHead(id) =>
      s.regs[id].busy == Some(t) && s.entries[id].place == Queued && !s.regs[id].registered && Locked(s, id, t)
    case PrepUnlock(id) =>
      s.regs[id].busy == Some(t) && s.entries[id].place == Queued && !s.regs[id].registered && Locked(s, id, t)
    case RevCas(id, _) => s.regs[id].busy == Some(t) && s.regs[id].registered
    case RevTake(id, _) => s.regs[id].busy == Some(t) && s.entries[id].sub == Due(t) && Claims(s, id, t)
    case RevSub(id, _) => s.regs[id].busy == Some(t) && s.entries[id].sub == Due(t)
    case RevEnd(id, _) => s.regs[id].busy == Some(t)
    case WakeLock(plan) => PlanOk(s, plan)
    case WakePop(plan) => PlanOk(s, plan) && s.slots[plan.o].lock == Some(t)
    case WakeLoad(plan, id) => PlanOk(s, plan) && HoldsPopped(s, plan, id, t)
    case WakeCas(plan, id) => PlanOk(s, plan) && HoldsPopped(s, plan, id, t)
    case WakeSub(plan, id) =>
      PlanOk(s, plan) && s.slots[plan.o].lock == Some(t) && s.entries[id].sub == Due(t) && Claims(s, id, t)
    case WakeScan(plan, id, _) => PlanOk(s, plan) && s.slots[plan.o].lock == Some(t) && Claims(s, id, t)
    case WakeStore(plan, id, _) => PlanOk(s, plan) && s.slots[plan.o].lock == Some(t) && Claims(s, id, t)
    case WakeUnlock(plan, won) =>
      PlanOk(s, plan) && s.slots[plan.o].lock == Some(t) && (won.Some? ==> Claims(s, won.value, t))
    case WakeTake(plan, id) => PlanOk(s, plan) && Claims(s, id, t)
  }

  predicate Locked(s: State, id: nat, t: nat)
    requires id in s.entries && s.entries[id].order < |s.slots|
  {
    s.slots[s.entries[id].order].lock == Some(t)
  }

  predicate Claims(s: State, id: nat, t: nat)
    requires id in s.entries
  {
    s.entries[id].claim == ClaimedBy(t) && s.entries[id].tx
  }

  predicate HoldsPopped(s: State, plan: Plan, id: nat, t: nat)
    requires plan.o < |s.slots| && id in s.entries
  {
    s.slots[plan.o].lock == Some(t) && s.entries[id].place == Popped(t) && s.entries[id].order == plan.o
  }

  predicate PlanOk(s: State, plan: Plan)
  {
    && plan.o < |s.slots| && plan.pops <= MAX_POPS_PER_WAKE
    && forall i :: 0 <= i < |plan.rest| ==> plan.rest[i] < |s.slots|
  }

  /** Where an entry is agrees with its queue and with the thread that moves it, and an entry
      leaves LIVE together with one owner of its decrement and of its sender. */
  ghost predicate EntryOk(s: State, id: nat)
    requires id in s.entries
  {
    var e := s.entries[id];
    && e.order < |s.slots| && e.timestamp < NO_WAITERS_TIMESTAMP
    && (e.state == LIVE <==> e.sub == Waiting) && (e.state == LIVE <==> e.claim == Unclaimed)
    && (e.state == LIVE ==> e.tx)
    && (e.place.Pushed? ==> s.At(e.place.t) == PrepAdd(id))
    && (e.place.Popped? ==> var pc := s.At(e.place.t); (pc.WakeLoad? || pc.WakeCas?) && pc.id == id)
    && (e.sub.Due? ==> var pc := s.At(e.sub.t); (pc.RevTake? || pc.RevSub? || pc.WakeSub?) && pc.id == id)
    && (e.claim.ClaimedBy? ==> WillTake(s.At(e.claim.t), id)) && (e.claim == TakenOnce ==> !e.tx)
    && (e.place == Gone ==> e.state != LIVE)
    && (e.place.Pushed? || e.place == Queued <==> id in s.slots[e.order].queue)
    && (e.place == New || e.place.Pushed? ==> e.state == LIVE)
  }

  /** The thread at `pc` has won entry `id` and goes on to take its sender. */
  predicate WillTake(pc: Pc, id: nat)
  {
    match pc
    case RevTake(x, _) => x == id
    case WakeSub(_, x) => x == id
    case WakeScan(_, x, _) => x == id
    case WakeStore(_, x, _) => x == id
    case WakeUnlock(_, won) => won == Some(id)
    case WakeTake(_, x) => x == id
    case _ => false
  }

  ghost predicate QueueOk(s: State, o: nat)
    requires o < |s.slots|
  {
    Distinct(s.slots[o].queue) && forall id :: id in s.slots[o].queue ==> id in s.entries && s.entries[id].order == o
  }

  /** Live entries that are queued and added, or popped and undecided, and entries whose
      winner has still to subtract. */
  predicate Active(e: Entry)
  {
    (e.state == LIVE && (e.place == Queued || e.place.Popped?)) || e.sub.Due?
  }

  ghost function Counted(s: State, o: nat): set<nat>
  {
    set id | id in s.entries && s.entries[id].order == o && Active(s.entries[id])
  }

  ghost predicate RegOk(s: State, id: nat)
    requires id in s.regs
  {
    && id in s.entries
    && (s.regs[id].pending ==> s.entries[id].place == New && !s.regs[id].registered && s.regs[id].busy.None?)
    && (s.regs[id].registered ==> s.entries[id].place != New && !s.entries[id].place.Pushed?)
  }

  ghost predicate Inv(s: State)
  {
    && (forall t: nat :: PcOk(s, t))
    && (forall id :: id in s.entries ==> EntryOk(s, id))
    && (forall o: nat :: o < |s.slots| ==> QueueOk(s, o))
    && (forall o: nat :: o < |s.slots| ==> s.slots[o].count == |Counted(s, o)|)
    && (forall id :: id in s.regs ==> RegOk(s, id))
    && !s.underflow && !s.emptyTake
  }

  lemma InvInitial(orders: nat)
    ensures Inv(Init(orders))
  {
    var s := Init(orders);
    forall o: nat | o < |s.slots| ensures s.slots[o].count == |Counted(s, o)| { assert Counted(s, o) == {}; }
  }

  // ----- one step at a time

  /** How a step may change the entry it works on: only the owner of a place, of a decrement
      or of a sender moves it on, and places in a queue change under its lock. */
  ghost predicate EntryChange(s: State, t: nat, a: Entry, b: Entry)
    requires a.order < |s.slots|
  {
    var mine := s.slots[a.order].lock == Some(t);
    && b.order == a.order && b.timestamp == a.timestamp
    && (b.state == a.state || a.state == LIVE)
    && (b.state == LIVE <==> b.sub == Waiting) && (b.state == LIVE <==> b.claim == Unclaimed)
    && (b.state == LIVE ==> b.tx)
    && (b.sub == a.sub || (a.sub == Waiting && b.sub == Due(t)) || (a.sub == Due(t) && b.sub == Settled))
    && ((b.claim == a.claim && b.tx == a.tx)
        || (a.claim == Unclaimed && b.claim == ClaimedBy(t) && b.tx == a.tx)
        || (a.claim == ClaimedBy(t) && b.claim == TakenOnce && !b.tx))
    && (b.place == a.place
        || (a.place == New && b.place == Pushed(t) && mine)
        || (a.place == Pushed(t) && b.place == Queued && mine)
        || (a.place == Queued && b.place == Popped(t) && mine)
        || (a.place == Popped(t) && b.place == Gone && b.state != LIVE))
    && (a.place == New || a.place.Pushed? ==> b.state == LIVE)
  }

  /** What every step of the protocol satisfies. */
  ghost predicate EffectOk(s: State, t: nat, f: Effect)
  {
    && !f.underflow && !f.emptyTake
    && (f.entry.Some? ==>
          && f.id in s.entries && s.entries[f.id].order < |s.slots|
          && EntryChange(s, t, s.entries[f.id], f.entry.value))
    && (f.entry.Some? && s.entries[f.id].place == New && f.entry.value.place != New ==>
          f.id in s.regs && s.regs[f.id].busy == Some(t))
    && (f.slot.Some? ==> f.o < |s.slots| && LockChange(s.slots[f.o].lock, f.slot.value.lock, t))
    && QueueChange(s, t, f)
    && CountChange(s, f)
    && (f.dropped || f.reg.Some? ==> f.id in s.regs && s.regs[f.id].busy == Some(t) && f.entry.None?)
    && (f.reg.Some? ==>
          && !f.reg.value.pending
          && (f.reg.value.registered ==> f.id in s.entries && s.entries[f.id].place == Queued))
  }

  predicate LockChange(a: Option<nat>, b: Option<nat>, t: nat)
  {
    b == a || (a.None? && b == Some(t)) || (a == Some(t) && b.None?)
  }

  ghost predicate QueueChange(s: State, t: nat, f: Effect)
  {
    var moves := f.entry.Some? && f.id in s.entries && f.slot.Some? && s.entries[f.id].order == f.o && f.o < |s.slots|;
    var q := if f.slot.Some? && f.o < |s.slots| then s.slots[f.o].queue else [];
    var q' := if f.slot.Some? then f.slot.value.queue else [];
    if moves && f.entry.value.place == Pushed(t) && s.entries[f.id].place == New then q' == q + [f.id]
    else if moves && f.entry.value.place == Popped(t) && s.entries[f.id].place == Queued then q == [f.id] + q'
    else q' == q && (f.entry.Some? && f.id in s.entries ==>
           (f.entry.value.place.Pushed? || f.entry.value.place == Queued
            <==> s.entries[f.id].place.Pushed? || s.entries[f.id].place == Queued))
  }

  function Weigh(e: Entry): int { if Active(e) then 1 else 0 }

  ghost predicate CountChange(s: State, f: Effect)
  {
    var change := if f.slot.Some? && f.o < |s.slots| then f.slot.value.count - s.slots[f.o].count else 0;
    if f.entry.Some? && f.id in s.entries
    then && change == Weigh(f.entry.value) - Weigh(s.entries[f.id])
         && (f.slot.Some? ==> s.entries[f.id].order == f.o || change == 0)
         && (f.slot.None? ==> change == 0)
    else change == 0
  }

  /** Each step of the protocol is such a step. */
  lemma StepEffectOk(s: State, t: nat)
    requires Inv(s)
    ensures Meaningful(s, s.At(t)) && EffectOk(s, t, EffectOf(s, t, s.At(t)))
  {
    hide Inv, EffectOk;
    var pc := s.At(t);
    At(s, t);
    if pc.PrepLock? || pc.PrepPush? || pc.PrepAdd? || pc.PrepHead? || pc.PrepUnlock? {
      PrepareEffectOk(s, t);
    } else if pc.RevCas? || pc.RevTake? || pc.RevSub? || pc.RevEnd? {
      RevokeEffectOk(s, t);
    } else if pc.WakeLock? || pc.WakePop? || pc.WakeLoad? || pc.WakeCas? {
      PopEffectOk(s, t);
    } else {
      SettleEffectOk(s, t);
    }
  }

  lemma At(s: State, t: nat)
    requires Inv(s)
    ensures PcOk(s, t)
  {
  }

  lemma EntryAt(s: State, id: nat)
    requires Inv(s) && id in s.entries
    ensures EntryOk(s, id) && (id in s.regs ==> RegOk(s, id))
  {
  }

  lemma PrepareEffectOk(s: State, t: nat)
    requires Inv(s)
    requires var pc := s.At(t); pc.PrepLock? || pc.PrepPush? || pc.PrepAdd? || pc.PrepHead? || pc.PrepUnlock?
    ensures Meaningful(s, s.At(t)) && EffectOk(s, t, EffectOf(s, t, s.At(t)))
  {
    hide Inv;
    At(s, t);
    EntryAt(s, s.At(t).id);
  }

  lemma RevokeEffectOk(s: State, t: nat)
    requires Inv(s)
    requires var pc := s.At(t); pc.RevCas? || pc.RevTake? || pc.RevSub? || pc.RevEnd?
    ensures Meaningful(s, s.At(t)) && EffectOk(s, t, EffectOf(s, t, s.At(t)))
  {
    hide Inv;
    At(s, t);
    EntryAt(s, s.At(t).id);
    if s.At(t).RevSub? { DueIsCounted(s, s.At(t).id); }
  }

  lemma PopEffectOk(s: State, t: nat)
    requires Inv(s)
    requires var pc := s.At(t); pc.WakeLock? || pc.WakePop? || pc.WakeLoad? || pc.WakeCas?
    ensures Meaningful(s, s.At(t)) && EffectOk(s, t, EffectOf(s, t, s.At(t)))
  {
    hide Inv, NextOrder;
    At(s, t);
    match s.At(t) {
      case WakePop(plan) => FrontIsQueued(s, t, plan);
      case WakeLoad(_, id) => EntryAt(s, id);
      case WakeCas(_, id) => EntryAt(s, id);
      case _ =>
    }
  }

  lemma SettleEffectOk(s: State, t: nat)
    requires Inv(s)
    requires var pc := s.At(t);
             pc.Idle? || pc.WakeSub? || pc.WakeScan? || pc.WakeStore? || pc.WakeUnlock? || pc.WakeTake?
    ensures Meaningful(s, s.At(t)) && EffectOk(s, t, EffectOf(s, t, s.At(t)))
  {
    hide Inv, NextOrder;
    At(s, t);
    match s.At(t) {
      case WakeSub(_, id) => DueIsCounted(s, id);
      case WakeTake(_, id) => EntryAt(s, id);
      case _ =>
    }
  }

  /** A push in progress holds the lock of its queue. */
  lemma PushedOwner(s: State, id: nat)
    requires Inv(s) && id in s.entries && s.entries[id].place.Pushed?
    ensures s.At(s.entries[id].place.t) == PrepAdd(id) && EntryOk(s, id) && Locked(s, id, s.entries[id].place.t)
  {
    EntryAt(s, id);
    At(s, s.entries[id].place.t);
  }

  /** A thread that holds a queue's lock pops only entries whose push is complete. */
  lemma FrontIsQueued(s: State, t: nat, plan: Plan)
    requires Inv(s) && s.At(t) == WakePop(plan)
    ensures plan.o < |s.slots|
    ensures var q := s.slots[plan.o].queue;
            q != [] ==>
              && q[0] in s.entries && EntryOk(s, q[0])
              && s.entries[q[0]].place == Queued && s.entries[q[0]].order == plan.o
  {
    hide Inv;
    At(s, t);
    var q := s.slots[plan.o].queue;
    if q != [] {
      QueueAt(s, plan.o, 0);
      EntryAt(s, q[0]);
      if s.entries[q[0]].place.Pushed? { PushedOwner(s, q[0]); }
    }
  }

  lemma QueueAt(s: State, o: nat, i: nat)
    requires Inv(s) && o < |s.slots| && i < |s.slots[o].queue|
    ensures var id := s.slots[o].queue[i]; id in s.slots[o].queue && id in s.entries && s.entries[id].order == o
    ensures QueueOk(s, o)
  {
    assert QueueOk(s, o);
    assert s.slots[o].queue[i] in s.slots[o].queue;
  }

  /** The decrement an entry's winner owes is still in the count. */
  lemma DueIsCounted(s: State, id: nat)
    requires Inv(s) && id in s.entries && s.entries[id].sub.Due?
    ensures EntryOk(s, id) && s.slots[s.entries[id].order].count > 0
  {
    EntryAt(s, id);
    assert id in Counted(s, s.entries[id].order);
  }

  // ----- such steps keep the invariant

  /** What an entry owes to thread `t` agrees with where `t` is. */
  predicate Linked(e: Entry, id: nat, t: nat, pc: Pc)
  {
    && (e.place == Pushed(t) ==> pc == PrepAdd(id))
    && (e.place == Popped(t) ==> (pc.WakeLoad? || pc.WakeCas?) && pc.id == id)
    && (e.sub == Due(t) ==> (pc.RevTake? || pc.RevSub? || pc.WakeSub?) && pc.id == id)
    && (e.claim == ClaimedBy(t) ==> WillTake(pc, id))
  }

  lemma StepLinks(s: State, t: nat, x: nat)
    requires Inv(s) && x in s.entries
    ensures Meaningful(s, s.At(t))
    ensures var f := EffectOf(s, t, s.At(t)); Linked(Enact(s, t, f).entries[x], x, t, f.pc)
  {
    hide Inv, EffectOf, Linked, Enact;
    StepEffectOk(s, t);
    if s.At(t).PrepLock? || s.At(t).PrepPush? || s.At(t).PrepAdd? || s.At(t).PrepHead? || s.At(t).PrepUnlock? {
      PrepareLinks(s, t, x);
    } else if s.At(t).Idle? || s.At(t).RevCas? || s.At(t).RevTake? || s.At(t).RevSub? || s.At(t).RevEnd? {
      RevokeLinks(s, t, x);
    } else if s.At(t).WakeLock? || s.At(t).WakePop? || s.At(t).WakeLoad? || s.At(t).WakeCas? {
      PopLinks(s, t, x);
    } else if s.At(t).WakeSub? || s.At(t).WakeTake? {
      SettleLinks(s, t, x);
    } else {
      HeadLinks(s, t, x);
    }
  }

  lemma PrepareLinks(s: State, t: nat, x: nat)
    requires Inv(s) && x in s.entries && Meaningful(s, s.At(t))
    requires s.At(t).PrepLock? || s.At(t).PrepPush? || s.At(t).PrepAdd? || s.At(t).PrepHead? || s.At(t).PrepUnlock?
    ensures var f := EffectOf(s, t, s.At(t)); Linked(Enact(s, t, f).entries[x], x, t, f.pc)
  {
    hide Inv;
    At(s, t);
    EntryAt(s, x);
    assert Linked(s.entries[x], x, t, s.At(t));
  }

  lemma RevokeLinks(s: State, t: nat, x: nat)
    requires Inv(s) && x in s.entries && Meaningful(s, s.At(t))
    requires s.At(t).Idle? || s.At(t).RevCas? || s.At(t).RevTake? || s.At(t).RevSub? || s.At(t).RevEnd?
    ensures var f := EffectOf(s, t, s.At(t)); Linked(Enact(s, t, f).entries[x], x, t, f.pc)
  {
    hide Inv, NextOrder;
    At(s, t);
    EntryAt(s, x);
    assert Linked(s.entries[x], x, t, s.At(t));
  }

  lemma PopLinks(s: State, t: nat, x: nat)
    requires Inv(s) && x in s.entries && Meaningful(s, s.At(t))
    requires s.At(t).WakeLock? || s.At(t).WakePop? || s.At(t).WakeLoad? || s.At(t).WakeCas?
    ensures var f := EffectOf(s, t, s.At(t)); Linked(Enact(s, t, f).entries[x], x, t, f.pc)
  {
    hide Inv, NextOrder;
    At(s, t);
    EntryAt(s, x);
    assert Linked(s.entries[x], x, t, s.At(t));
    if s.At(t).WakePop? { FrontIsQueued(s, t, s.At(t).plan); }
  }

  lemma SettleLinks(s: State, t: nat, x: nat)
    requires Inv(s) && x in s.entries && Meaningful(s, s.At(t)) && (s.At(t).WakeSub? || s.At(t).WakeTake?)
    ensures var f := EffectOf(s, t, s.At(t)); Linked(Enact(s, t, f).entries[x], x, t, f.pc)
  {
    hide Inv, NextOrder, PcOk, QueueKnown;
    EntryAt(s, x);
    assert Linked(s.entries[x], x, t, s.At(t));
    if s.At(t).WakeTake? { At(s, t); }
  }

  lemma HeadLinks(s: State, t: nat, x: nat)
    requires Inv(s) && x in s.entries && Meaningful(s, s.At(t))
    requires s.At(t).WakeScan? || s.At(t).WakeStore? || s.At(t).WakeUnlock?
    ensures var f := EffectOf(s, t, s.At(t)); Linked(Enact(s, t, f).entries[x], x, t, f.pc)
  {
    hide Inv, NextOrder, PcOk, QueueKnown;
    EntryAt(s, x);
    assert Linked(s.entries[x], x, t, s.At(t));
  }

  lemma EntryKept(s: State, t: nat, f: Effect, x: nat)
    requires Inv(s) && EffectOk(s, t, f) && x in s.entries && Linked(Enact(s, t, f).entries[x], x, t, f.pc)
    ensures EntryOk(Enact(s, t, f), x)
  {
    hide Inv, EffectOk, EntryOk, Linked;
    if f.entry.Some? && f.id == x { EntryMoved(s, t, f); } else { EntryUntouched(s, t, f, x); }
  }

  lemma EntryMoved(s: State, t: nat, f: Effect)
    requires Inv(s) && EffectOk(s, t, f) && f.entry.Some? && f.id in s.entries && Linked(f.entry.value, f.id, t, f.pc)
    ensures EntryOk(Enact(s, t, f), f.id)
  {
    hide Inv, CountChange, QueueChange, WillTake;
    var s' := Enact(s, t, f);
    EntryAt(s, f.id);
    QueueMembership(s, t, f, f.id);
    assert forall o: nat :: o != t ==> s'.At(o) == s.At(o);
  }

  lemma EntryUntouched(s: State, t: nat, f: Effect, x: nat)
    requires Inv(s) && EffectOk(s, t, f) && x in s.entries
    requires !(f.entry.Some? && f.id == x) && Linked(s.entries[x], x, t, f.pc)
    ensures EntryOk(Enact(s, t, f), x)
  {
    hide Inv, CountChange, QueueChange, WillTake, EntryChange, LockChange;
    var s' := Enact(s, t, f);
    EntryAt(s, x);
    QueueMembership(s, t, f, x);
    assert forall o: nat :: o != t ==> s'.At(o) == s.At(o);
  }

  /** Queue membership follows the place of an entry. */
  lemma QueueMembership(s: State, t: nat, f: Effect, x: nat)
    requires Inv(s) && EffectOk(s, t, f) && x in s.entries
    ensures var s' := Enact(s, t, f);
            && s'.entries[x].order == s.entries[x].order < |s.slots| == |s'.slots|
            && (s'.entries[x].place.Pushed? || s'.entries[x].place == Queued <==>
                  x in s'.slots[s.entries[x].order].queue)
  {
    hide Inv, CountChange;
    EntryAt(s, x);
    var s' := Enact(s, t, f);
    var o := s.entries[x].order;
    if f.slot.Some? && f.o == o { QueueShape(s, t, f, x); }
  }

  lemma QueueShape(s: State, t: nat, f: Effect, x: nat)
    requires Inv(s) && EffectOk(s, t, f) && x in s.entries && EntryOk(s, x) && f.slot.Some? && f.o == s.entries[x].order
    ensures var s' := Enact(s, t, f);
            s'.entries[x].place.Pushed? || s'.entries[x].place == Queued <==> x in s'.slots[f.o].queue
  {
    hide Inv, CountChange;
    var q, q' := s.slots[f.o].queue, f.slot.value.queue;
    if q == [f.id] + q' && f.entry.Some? && f.entry.value.place == Popped(t) && s.entries[f.id].place == Queued {
      QueueAt(s, f.o, 0);
      PoppedFront(q, f.id, q', x);
    }
  }

  lemma PoppedFront(q: seq<nat>, id: nat, q': seq<nat>, x: nat)
    requires q == [id] + q' && Distinct(q)
    ensures x in q' <==> x in q && x != id
  {
    if x in q' { var k :| 0 <= k < |q'| && q'[k] == x; assert q[k + 1] == x; assert q[0] == id; }
  }

  lemma QueueKept(s: State, t: nat, f: Effect, o: nat)
    requires Inv(s) && EffectOk(s, t, f) && o < |s.slots|
    ensures QueueOk(Enact(s, t, f), o)
  {
    hide Inv, CountChange, Distinct;
    var s' := Enact(s, t, f);
    QueueOkAt(s, o);
    var q, q' := s.slots[o].queue, s'.slots[o].queue;
    if q' != q {
      EntryAt(s, f.id);
      if q' == q + [f.id] && s.entries[f.id].place == New {
        PushedDistinct(q, f.id);
      } else {
        PoppedDistinct(q, f.id, q');
      }
    }
  }

  lemma PushedDistinct(q: seq<nat>, id: nat)
    requires Distinct(q) && id !in q
    ensures Distinct(q + [id]) && forall x :: x in q + [id] <==> x in q || x == id
  {
  }

  lemma PoppedDistinct(q: seq<nat>, id: nat, q': seq<nat>)
    requires Distinct(q) && q == [id] + q'
    ensures Distinct(q') && forall x :: x in q' ==> x in q
  {
    forall i, j | 0 <= i < j < |q'| ensures q'[i] != q'[j] { assert q[i + 1] == q'[i] && q[j + 1] == q'[j]; }
    forall x ensures x in q' ==> x in q { PoppedFront(q, id, q', x); }
  }

  lemma QueueOkAt(s: State, o: nat)
    requires Inv(s) && o < |s.slots|
    ensures QueueOk(s, o) && s.slots[o].count == |Counted(s, o)|
  {
  }

  lemma CountKept(s: State, t: nat, f: Effect, o: nat)
    requires Inv(s) && EffectOk(s, t, f) && o < |s.slots|
    ensures var s' := Enact(s, t, f); s'.slots[o].count == |Counted(s', o)|
  {
    hide Inv, QueueChange, Active, EntryOk;
    var s' := Enact(s, t, f);
    QueueOkAt(s, o);
    var c, c' := Counted(s, o), Counted(s', o);
    if f.entry.Some? {
      EntryAt(s, f.id);
      var a, b := s.entries[f.id], f.entry.value;
      forall x ensures x in c' <==> if x == f.id then b.order == o && Active(b) else x in c {}
      if a.order == o {
        OneMember(c, c', f.id);
      } else {
        assert c' == c;
      }
    } else {
      assert c' == c;
    }
  }

  lemma RegKept(s: State, t: nat, f: Effect, x: nat)
    requires Inv(s) && EffectOk(s, t, f) && x in Enact(s, t, f).regs
    ensures RegOk(Enact(s, t, f), x)
  {
    hide Inv, QueueChange, CountChange;
    RegAt(s, x);
    var s' := Enact(s, t, f);
    if f.entry.Some? && f.id == x { EntryAt(s, x); }
  }

  lemma RegAt(s: State, x: nat)
    requires Inv(s) && x in s.regs
    ensures RegOk(s, x) && EntryOk(s, x)
  {
    assert RegOk(s, x);
  }

  /** No step disturbs what another thread relies on. */
  lemma OtherPcKept(s: State, t: nat, f: Effect, u: nat)
    requires Inv(s) && EffectOk(s, t, f) && u != t
    ensures PcOk(Enact(s, t, f), u)
  {
    hide Inv, EffectOk, PcOk, Enact;
    var pc := s.At(u);
    if pc.PrepLock? || pc.PrepPush? || pc.PrepAdd? || pc.PrepHead? || pc.PrepUnlock?
      || pc.RevCas? || pc.RevTake? || pc.RevSub? || pc.RevEnd? {
      OtherCallerKept(s, t, f, u);
    } else {
      OtherWakerKept(s, t, f, u);
    }
  }

  lemma OtherCallerKept(s: State, t: nat, f: Effect, u: nat)
    requires Inv(s) && EffectOk(s, t, f) && u != t
    requires var pc := s.At(u);
             pc.PrepLock? || pc.PrepPush? || pc.PrepAdd? || pc.PrepHead? || pc.PrepUnlock?
               || pc.RevCas? || pc.RevTake? || pc.RevSub? || pc.RevEnd?
    ensures PcOk(Enact(s, t, f), u)
  {
    hide Inv, CountChange, QueueChange;
    At(s, u);
    assert Enact(s, t, f).At(u) == s.At(u);
    if f.entry.Some? { EntryAt(s, f.id); }
  }

  lemma OtherWakerKept(s: State, t: nat, f: Effect, u: nat)
    requires Inv(s) && EffectOk(s, t, f) && u != t
    requires var pc := s.At(u);
             pc.Idle? || pc.WakeLock? || pc.WakePop? || pc.WakeLoad? || pc.WakeCas?
               || pc.WakeSub? || pc.WakeScan? || pc.WakeStore? || pc.WakeUnlock? || pc.WakeTake?
    ensures PcOk(Enact(s, t, f), u)
  {
    hide Inv, CountChange, QueueChange;
    var pc := s.At(u);
    At(s, u);
    assert Enact(s, t, f).At(u) == pc;
    if pc.WakePop? || pc.WakeScan? { QueueKept(s, t, f, pc.plan.o); }
  }

  lemma OwnPcKept(s: State, t: nat)
    requires Inv(s) && Meaningful(s, s.At(t)) && EffectOk(s, t, EffectOf(s, t, s.At(t)))
    ensures PcOk(Apply(s, Step(t)), t)
  {
    hide Inv, EffectOk, PcOk;
    var pc := s.At(t);
    if pc.PrepLock? || pc.PrepPush? || pc.PrepAdd? || pc.PrepHead? || pc.PrepUnlock? {
      PreparePcKept(s, t);
    } else if pc.RevCas? || pc.RevTake? || pc.RevSub? || pc.RevEnd? {
      RevokePcKept(s, t);
    } else {
      WakePcKept(s, t);
    }
  }

  lemma PreparePcKept(s: State, t: nat)
    requires Inv(s) && Meaningful(s, s.At(t))
    requires var pc := s.At(t); pc.PrepLock? || pc.PrepPush? || pc.PrepAdd? || pc.PrepHead? || pc.PrepUnlock?
    ensures PcOk(Apply(s, Step(t)), t)
  {
    hide Inv;
    At(s, t);
    EntryAt(s, s.At(t).id);
  }

  lemma RevokePcKept(s: State, t: nat)
    requires Inv(s) && Meaningful(s, s.At(t))
    requires var pc := s.At(t); pc.RevCas? || pc.RevTake? || pc.RevSub? || pc.RevEnd?
    ensures PcOk(Apply(s, Step(t)), t)
  {
    hide Inv;
    At(s, t);
    EntryAt(s, s.At(t).id);
  }

  lemma WakePcKept(s: State, t: nat)
    requires Inv(s) && Meaningful(s, s.At(t))
    requires var pc := s.At(t);
             pc.Idle? || pc.WakeLock? || pc.WakePop? || pc.WakeLoad? || pc.WakeCas?
               || pc.WakeSub? || pc.WakeScan? || pc.WakeStore? || pc.WakeUnlock? || pc.WakeTake?
    ensures PcOk(Apply(s, Step(t)), t)
  {
    hide Inv, PcOk, EffectOf;
    var pc := s.At(t);
    if pc.WakeLock? || pc.WakePop? {
      PopPcKept(s, t);
    } else if pc.WakeLoad? || pc.WakeCas? || pc.WakeSub? {
      DecidePcKept(s, t);
    } else {
      FinishPcKept(s, t);
    }
  }

  lemma PopPcKept(s: State, t: nat)
    requires Inv(s) && Meaningful(s, s.At(t)) && (s.At(t).WakeLock? || s.At(t).WakePop?)
    ensures PcOk(Apply(s, Step(t)), t)
  {
    hide Inv;
    At(s, t);
    QueueOkAt(s, s.At(t).plan.o);
    if s.At(t).WakePop? { FrontIsQueued(s, t, s.At(t).plan); }
  }

  lemma DecidePcKept(s: State, t: nat)
    requires Inv(s) && Meaningful(s, s.At(t)) && (s.At(t).WakeLoad? || s.At(t).WakeCas? || s.At(t).WakeSub?)
    ensures PcOk(Apply(s, Step(t)), t)
  {
    hide Inv, EffectOf, PcOk;
    if s.At(t).WakeSub? { SubtractPcKept(s, t); } else { ClaimPcKept(s, t); }
  }

  lemma ClaimPcKept(s: State, t: nat)
    requires Inv(s) && Meaningful(s, s.At(t)) && (s.At(t).WakeLoad? || s.At(t).WakeCas?)
    ensures PcOk(Apply(s, Step(t)), t)
  {
    hide Inv;
    At(s, t);
    QueueOkAt(s, s.At(t).plan.o);
    EntryAt(s, s.At(t).id);
  }

  lemma SubtractPcKept(s: State, t: nat)
    requires Inv(s) && Meaningful(s, s.At(t)) && s.At(t).WakeSub?
    ensures PcOk(Apply(s, Step(t)), t)
  {
    hide Inv;
    At(s, t);
    QueueOkAt(s, s.At(t).plan.o);
  }

  lemma FinishPcKept(s: State, t: nat)
    requires Inv(s) && Meaningful(s, s.At(t))
    requires var pc := s.At(t); pc.Idle? || pc.WakeScan? || pc.WakeStore? || pc.WakeUnlock? || pc.WakeTake?
    ensures PcOk(Apply(s, Step(t)), t)
  {
    hide Inv;
    At(s, t);
  }

  // ----- whole runs

  lemma StepKeeps(s: State, t: nat)
    requires Inv(s)
    ensures Inv(Apply(s, Step(t)))
  {
    StepEffectOk(s, t);
    StepParts(s, t);
    assert !s.underflow && !s.emptyTake;
  }

  lemma StepParts(s: State, t: nat)
    requires Inv(s) && Meaningful(s, s.At(t)) && EffectOk(s, t, EffectOf(s, t, s.At(t)))
    ensures var s' := Apply(s, Step(t));
            && (forall u: nat :: PcOk(s', u))
            && (forall id :: id in s'.entries ==> EntryOk(s', id))
            && |s'.slots| == |s.slots|
            && (forall o: nat :: o < |s'.slots| ==> QueueOk(s', o) && s'.slots[o].count == |Counted(s', o)|)
            && (forall id :: id in s'.regs ==> RegOk(s', id))
            && s'.underflow == s.underflow && s'.emptyTake == s.emptyTake
  {
    hide Inv, PcOk, EntryOk, QueueOk, Counted, RegOk, EffectOf;
    var f := EffectOf(s, t, s.At(t));
    var s' := Enact(s, t, f);
    forall u: nat ensures PcOk(s', u) { if u == t { OwnPcKept(s, t); } else { OtherPcKept(s, t, f, u); } }
    forall id | id in s'.entries ensures EntryOk(s', id) { StepLinks(s, t, id); EntryKept(s, t, f, id); }
    forall o: nat | o < |s'.slots| ensures QueueOk(s', o) && s'.slots[o].count == |Counted(s', o)| {
      QueueKept(s, t, f, o);
      CountKept(s, t, f, o);
    }
    forall id | id in s'.regs ensures RegOk(s', id) { RegKept(s, t, f, id); }
  }

  lemma RegisterKeeps(s: State, e: Event)
    requires Inv(s) && e.Register?
    ensures Inv(Apply(s, e))
  {
    hide PcOk, EntryOk, QueueOk, Counted, RegOk;
    var s' := Apply(s, e);
    if s' != s {
      forall id | id in s'.entries ensures EntryOk(s', id) { RegisterEntry(s, e, id); }
      forall u: nat ensures PcOk(s', u) { RegisterPc(s, e, u); }
      forall o: nat | o < |s'.slots| ensures QueueOk(s', o) && s'.slots[o].count == |Counted(s', o)| {
        RegisterQueue(s, e, o);
      }
      forall id | id in s'.regs ensures RegOk(s', id) { RegisterReg(s, e, id); }
    }
  }

  lemma RegisterEntry(s: State, e: Event, id: nat)
    requires Inv(s) && e.Register? && Apply(s, e) != s && id in Apply(s, e).entries
    ensures EntryOk(Apply(s, e), id)
  {
    hide Inv;
    if id == e.id { NotQueued(s, id); } else { EntryAt(s, id); }
  }

  lemma RegisterPc(s: State, e: Event, u: nat)
    requires Inv(s) && e.Register? && Apply(s, e) != s
    ensures PcOk(Apply(s, e), u)
  {
    hide Inv;
    At(s, u);
  }

  lemma RegisterQueue(s: State, e: Event, o: nat)
    requires Inv(s) && e.Register? && Apply(s, e) != s && o < |s.slots|
    ensures var s' := Apply(s, e); QueueOk(s', o) && s'.slots[o].count == |Counted(s', o)|
  {
    hide Inv;
    QueueOkAt(s, o);
    NotQueued(s, e.id);
    assert Counted(Apply(s, e), o) == Counted(s, o);
  }

  lemma RegisterReg(s: State, e: Event, id: nat)
    requires Inv(s) && e.Register? && Apply(s, e) != s && id in Apply(s, e).regs
    ensures RegOk(Apply(s, e), id)
  {
    hide Inv;
    if id != e.id { RegAt(s, id); }
  }

  lemma NotQueued(s: State, id: nat)
    requires Inv(s) && id !in s.entries
    ensures forall o: nat :: o < |s.slots| ==> id !in s.slots[o].queue
  {
    forall o: nat | o < |s.slots| ensures id !in s.slots[o].queue { assert QueueOk(s, o); }
  }

  /** Starting an operation changes only a registration and an idle thread. */
  lemma StartKeeps(s: State, e: Event)
    requires Inv(s) && (e.StartPrepare? || e.StartRevoke? || e.StartWake? || e.PollReady?)
    ensures Inv(Apply(s, e))
  {
    hide PcOk, EntryOk, QueueOk, Counted, RegOk;
    var s' := Apply(s, e);
    forall id | id in s'.entries ensures EntryOk(s', id) { StartEntry(s, e, id); }
    forall u: nat ensures PcOk(s', u) { StartPcKept(s, e, u); }
    forall o: nat | o < |s'.slots| ensures QueueOk(s', o) && s'.slots[o].count == |Counted(s', o)| {
      StartQueue(s, e, o);
    }
    forall id | id in s'.regs ensures RegOk(s', id) { StartReg(s, e, id); }
  }

  lemma StartEntry(s: State, e: Event, id: nat)
    requires Inv(s) && (e.StartPrepare? || e.StartRevoke? || e.StartWake? || e.PollReady?) && id in s.entries
    ensures EntryOk(Apply(s, e), id)
  {
    hide Inv, NextOrder;
    EntryAt(s, id);
  }

  lemma StartQueue(s: State, e: Event, o: nat)
    requires Inv(s) && (e.StartPrepare? || e.StartRevoke? || e.StartWake? || e.PollReady?) && o < |s.slots|
    ensures var s' := Apply(s, e); QueueOk(s', o) && s'.slots[o].count == |Counted(s', o)|
  {
    hide Inv, NextOrder;
    QueueOkAt(s, o);
    assert Counted(Apply(s, e), o) == Counted(s, o);
  }

  lemma StartReg(s: State, e: Event, id: nat)
    requires Inv(s) && (e.StartPrepare? || e.StartRevoke? || e.StartWake? || e.PollReady?) && id in Apply(s, e).regs
    ensures RegOk(Apply(s, e), id)
  {
    hide Inv, NextOrder;
    RegAt(s, id);
  }

  lemma StartPcKept(s: State, e: Event, u: nat)
    requires Inv(s) && (e.StartPrepare? || e.StartRevoke? || e.StartWake? || e.PollReady?)
    ensures PcOk(Apply(s, e), u)
  {
    hide Inv, Apply, PcOk;
    if e.StartPrepare? || e.StartRevoke? { CallPcKept(s, e, u); } else { PollPcKept(s, e, u); }
  }

  lemma CallPcKept(s: State, e: Event, u: nat)
    requires Inv(s) && (e.StartPrepare? || e.StartRevoke?)
    ensures PcOk(Apply(s, e), u)
  {
    hide Inv;
    At(s, u);
    if e.id in s.regs { RegAt(s, e.id); }
  }

  lemma PollPcKept(s: State, e: Event, u: nat)
    requires Inv(s) && (e.StartWake? || e.PollReady?)
    ensures PcOk(Apply(s, e), u)
  {
    hide Inv;
    At(s, u);
    if e.PollReady? && e.id in s.regs { RegAt(s, e.id); }
  }

  lemma InvStep(s: State, e: Event)
    requires Inv(s)
    ensures Inv(Apply(s, e))
  {
    hide Inv;
    match e {
      case Register(_, _, _) => RegisterKeeps(s, e);
      case Step(t) => StepKeeps(s, t);
      case _ => StartKeeps(s, e);
    }
  }

  lemma {:induction false} InvRun(orders: nat, es: seq<Event>)
    ensures Inv(Run(Init(orders), es))
  {
    hide Inv, Apply;
    if es == [] {
      InvInitial(orders);
    } else {
      InvRun(orders, es[..|es| - 1]);
      InvStep(Run(Init(orders), es[..|es| - 1]), es[|es| - 1]);
    }
  }

  // ----- what holds after any interleaving

  predicate PushingAt(s: State, t: nat, id: nat) { s.At(t) == PrepAdd(id) }

  predicate DecidingAt(s: State, t: nat, id: nat) { (s.At(t).WakeLoad? || s.At(t).WakeCas?) && s.At(t).id == id }

  predicate OwingAt(s: State, t: nat, id: nat)
  {
    (s.At(t).RevTake? || s.At(t).RevSub? || s.At(t).WakeSub?) && s.At(t).id == id
  }

  /** An entry is in the count of its order: live and queued with its push added, live and
      popped with its fate undecided, or won with the decrement still to come. */
  ghost predicate InCount(s: State, id: nat)
  {
    && id in s.entries && s.entries[id].order < |s.slots|
    && (|| (LiveEntry(s, id) && id in s.slots[s.entries[id].order].queue && !exists t: nat :: PushingAt(s, t, id))
        || (LiveEntry(s, id) && exists t: nat :: DecidingAt(s, t, id))
        || (exists t: nat :: OwingAt(s, t, id)))
  }

  lemma CountedIffInCount(s: State, id: nat)
    requires Inv(s) && id in s.entries
    ensures Active(s.entries[id]) <==> InCount(s, id)
  {
    hide Inv;
    EntryAt(s, id);
    var e := s.entries[id];
    forall t: nat ensures PushingAt(s, t, id) ==> e.place == Pushed(t) { At(s, t); }
    forall t: nat ensures DecidingAt(s, t, id) ==> e.place == Popped(t) { At(s, t); }
    forall t: nat ensures OwingAt(s, t, id) ==> e.sub == Due(t) { At(s, t); }
    if e.place.Pushed? { assert PushingAt(s, e.place.t, id); }
    if e.place.Popped? { assert DecidingAt(s, e.place.t, id); }
    if e.sub.Due? { assert OwingAt(s, e.sub.t, id); }
  }

  /** After any interleaving the count of an order is the number of its entries that are in
      the count; it never underflows, and no sender is taken twice. */
  lemma RunCounts(orders: nat, es: seq<Event>, o: nat, ids: set<nat>)
    requires o < |Run(Init(orders), es).slots|
    requires var s := Run(Init(orders), es);
             forall id :: id in ids <==> id in s.entries && s.entries[id].order == o && InCount(s, id)
    ensures var s := Run(Init(orders), es); s.slots[o].count == |ids| && !s.underflow && !s.emptyTake
  {
    InvRun(orders, es);
    var s := Run(Init(orders), es);
    forall id ensures id in ids <==> id in Counted(s, o) { if id in s.entries { CountedIffInCount(s, id); } }
    assert ids == Counted(s, o);
  }

  /** An entry leaves LIVE at most once: no later event changes its outcome. */
  lemma OutcomeIsFinal(s: State, e: Event, id: nat)
    requires Inv(s) && id in s.entries && s.entries[id].state != LIVE
    ensures var s' := Apply(s, e); id in s'.entries && s'.entries[id].state == s.entries[id].state
  {
    hide Inv;
    if e.Step? { StepEffectOk(s, e.t); }
  }

  lemma {:induction false} OutcomeIsFinalRun(orders: nat, es: seq<Event>, more: seq<Event>, id: nat)
    requires var s := Run(Init(orders), es); id in s.entries && s.entries[id].state != LIVE
    ensures var s := Run(Init(orders), es);
            var s' := Run(Init(orders), es + more);
            id in s'.entries && s'.entries[id].state == s.entries[id].state
  {
    hide Inv, Apply;
    if more == [] {
      assert es + more == es;
    } else {
      var init, e := more[..|more| - 1], more[|more| - 1];
      OutcomeIsFinalRun(orders, es, init, id);
      assert (es + more)[..|es + more| - 1] == es + init && (es + more)[|es + more| - 1] == e;
      InvRun(orders, es + init);
      OutcomeIsFinal(Run(Init(orders), es + init), e, id);
    }
  }

  /** Once no thread is at work, an order's count is the number of live entries in its queue,
      and the sender of every entry that was woken or revoked has been taken. */
  lemma RunSettles(orders: nat, es: seq<Event>, o: nat, ids: set<nat>)
    requires var s := Run(Init(orders), es);
             && (forall t: nat :: s.At(t) == Idle) && o < |s.slots|
             && forall id :: id in ids <==> id in s.slots[o].queue && LiveEntry(s, id)
    ensures var s := Run(Init(orders), es);
            && s.slots[o].count == |ids|
            && forall id :: id in s.entries && s.entries[id].state != LIVE ==> !s.entries[id].tx
  {
    hide Inv;
    InvRun(orders, es);
    var s := Run(Init(orders), es);
    QueueOkAt(s, o);
    forall id | id in s.entries
      ensures (id in ids <==> id in Counted(s, o)) && (s.entries[id].state != LIVE ==> !s.entries[id].tx)
    {
      EntryAt(s, id);
    }
    assert ids == Counted(s, o);
  }

  /** A registered entry that is live is in its queue, or in the hands of a wake that has not
      decided it: a popped entry is a tombstone or gets woken. */
  lemma RunNoStranded(orders: nat, es: seq<Event>, id: nat)
    ensures var s := Run(Init(orders), es);
            id in s.regs && s.regs[id].registered && LiveEntry(s, id) ==>
              s.entries[id].order < |s.slots|
              && (id in s.slots[s.entries[id].order].queue || exists t: nat :: DecidingAt(s, t, id))
  {
    hide Inv;
    InvRun(orders, es);
    var s := Run(Init(orders), es);
    if id in s.regs {
      RegAt(s, id);
      if s.entries[id].place.Popped? { assert DecidingAt(s, s.entries[id].place.t, id); }
    }
  }

  // ----- when an order advertises its waiters

  /** The thread at `pc` is between taking and giving back the lock of order `o`. */
  predicate HoldsLock(s: State, pc: Pc, o: nat)
  {
    match pc
    case PrepPush(id) => id in s.entries && s.entries[id].order == o
    case PrepAdd(id) => id in s.entries && s.entries[id].order == o
    case PrepHead(id) => id in s.entries && s.entries[id].order == o
    case PrepUnlock(id) => id in s.entries && s.entries[id].order == o
    case WakePop(plan) => plan.o == o
    case WakeLoad(plan, _) => plan.o == o
    case WakeCas(plan, _) => plan.o == o
    case WakeSub(plan, _) => plan.o == o
    case WakeScan(plan, _, _) => plan.o == o
    case WakeStore(plan, _, _) => plan.o == o
    case WakeUnlock(plan, _) => plan.o == o
    case _ => false
  }

  /** What the scan for the new head has passed over holds no live entry. */
  predicate ScanOk(s: State, pc: Pc)
  {
    match pc
    case WakeScan(plan, _, i) =>
      && plan.o < |s.slots|
      && forall j :: 0 <= j < i && j < |s.slots[plan.o].queue| ==> !LiveEntry(s, s.slots[plan.o].queue[j])
    case WakeStore(plan, _, ts) =>
      plan.o < |s.slots|
      && (ts == NO_WAITERS_TIMESTAMP ==>
            forall j :: 0 <= j < |s.slots[plan.o].queue| ==> !LiveEntry(s, s.slots[plan.o].queue[j]))
    case _ => true
  }

  predicate LockOk(s: State, o: nat)
    requires o < |s.slots|
  {
    s.slots[o].lock.Some? ==> HoldsLock(s, s.At(s.slots[o].lock.value), o)
  }

  ghost predicate Locks(s: State)
  {
    && (forall o: nat :: o < |s.slots| ==> LockOk(s, o))
    && (forall t: nat :: ScanOk(s, s.At(t)))
  }

  /** The holder of the lock is about to write a head that is not the sentinel, or to decide
      which head to write. */
  predicate Fixing(s: State, o: nat)
    requires o < |s.slots|
  {
    s.slots[o].lock.Some?
    && var pc := s.At(s.slots[o].lock.value);
       pc.PrepHead? || pc.WakeSub? || pc.WakeScan? || (pc.WakeStore? && pc.ts != NO_WAITERS_TIMESTAMP)
  }

  predicate VisibleAt(s: State, id: nat)
    requires id in s.entries
  {
    var e := s.entries[id];
    e.state == LIVE && e.place == Queued ==>
      e.order < |s.slots| && (s.slots[e.order].head != NO_WAITERS_TIMESTAMP || Fixing(s, e.order))
  }

  /** Every live queued entry is advertised by the head of its order. */
  ghost predicate Visible(s: State)
  {
    forall id :: id in s.entries ==> VisibleAt(s, id)
  }

  /** A prepare that finds the count nonzero while the head is the sentinel: it leaves the
      head alone, and its entry is not advertised. */
  predicate Hides(s: State, e: Event)
  {
    e.Step? && s.At(e.t).PrepAdd? && Meaningful(s, s.At(e.t))
    && var slot := s.slots[s.entries[s.At(e.t).id].order];
       slot.count != 0 && slot.head == NO_WAITERS_TIMESTAMP
  }

  lemma LockAt(s: State, o: nat, t: nat)
    requires Locks(s)
    ensures (o < |s.slots| ==> LockOk(s, o)) && ScanOk(s, s.At(t))
  {
  }

  /** A step by another thread leaves a locked queue alone. */
  lemma LockedQueueKept(s: State, t: nat, f: Effect, o: nat)
    requires Inv(s) && EffectOk(s, t, f) && o < |s.slots| && s.slots[o].lock.Some? && s.slots[o].lock != Some(t)
    ensures Enact(s, t, f).slots[o].queue == s.slots[o].queue && Enact(s, t, f).slots[o].lock == s.slots[o].lock
  {
    hide Inv, CountChange;
  }

  lemma ScanKept(s: State, t: nat, f: Effect, u: nat)
    requires Inv(s) && Locks(s) && EffectOk(s, t, f) && u != t
    ensures ScanOk(Enact(s, t, f), s.At(u))
  {
    hide Inv, Locks, QueueChange, CountChange, Meaningful;
    LockAt(s, 0, u);
    var pc := s.At(u);
    if pc.WakeScan? || pc.WakeStore? {
      ScannerHolds(s, u);
      LockedQueueKept(s, t, f, pc.plan.o);
      var s' := Enact(s, t, f);
      forall j | 0 <= j < |s.slots[pc.plan.o].queue| && !LiveEntry(s, s.slots[pc.plan.o].queue[j])
        ensures !LiveEntry(s', s.slots[pc.plan.o].queue[j])
      {
        QueueAt(s, pc.plan.o, j);
      }
    }
  }

  lemma ScannerHolds(s: State, u: nat)
    requires Inv(s) && (s.At(u).WakeScan? || s.At(u).WakeStore?)
    ensures s.At(u).plan.o < |s.slots| && s.slots[s.At(u).plan.o].lock == Some(u)
  {
    At(s, u);
  }

  lemma OwnScan(s: State, t: nat)
    requires Inv(s) && Locks(s) && Meaningful(s, s.At(t))
    ensures ScanOk(Enact(s, t, EffectOf(s, t, s.At(t))), EffectOf(s, t, s.At(t)).pc)
  {
    hide Inv, Locks, NextOrder, EffectOf, Enact, ScanOk;
    At(s, t);
    if s.At(t).WakeScan? { ScanStep(s, t); } else { ScanBegins(s, t); }
  }

  lemma ScanStep(s: State, t: nat)
    requires Inv(s) && Locks(s) && Meaningful(s, s.At(t)) && s.At(t).WakeScan?
    ensures ScanOk(Enact(s, t, EffectOf(s, t, s.At(t))), EffectOf(s, t, s.At(t)).pc)
  {
    hide Inv, Locks, NextOrder;
    LockAt(s, 0, t);
    At(s, t);
    var pc := s.At(t);
    var q := s.slots[pc.plan.o].queue;
    if pc.i < |q| { QueueAt(s, pc.plan.o, pc.i); EntryAt(s, q[pc.i]); }
  }

  lemma ScanBegins(s: State, t: nat)
    requires PcOk(s, t) && !s.At(t).WakeScan?
    ensures ScanOk(Enact(s, t, EffectOf(s, t, s.At(t))), EffectOf(s, t, s.At(t)).pc)
  {
  }

  lemma LockKept(s: State, t: nat, o: nat)
    requires Inv(s) && Locks(s) && Meaningful(s, s.At(t)) && EffectOk(s, t, EffectOf(s, t, s.At(t))) && o < |s.slots|
    ensures LockOk(Enact(s, t, EffectOf(s, t, s.At(t))), o)
  {
    hide Inv, Locks, EffectOf, EffectOk, Meaningful;
    var f := EffectOf(s, t, s.At(t));
    if Enact(s, t, f).slots[o].lock == Some(t) {
      OwnLockKept(s, t, o);
    } else {
      OtherLockKept(s, t, f, o);
    }
  }

  lemma OtherLockKept(s: State, t: nat, f: Effect, o: nat)
    requires Inv(s) && Locks(s) && EffectOk(s, t, f) && o < |s.slots| && Enact(s, t, f).slots[o].lock != Some(t)
    ensures LockOk(Enact(s, t, f), o)
  {
    hide Inv, Locks, QueueChange, CountChange;
    LockAt(s, o, t);
  }

  predicate Waking(pc: Pc)
  {
    || pc.WakeLock? || pc.WakePop? || pc.WakeLoad? || pc.WakeCas? || pc.WakeSub?
    || pc.WakeScan? || pc.WakeStore? || pc.WakeUnlock? || pc.WakeTake?
  }

  lemma OwnLockKept(s: State, t: nat, o: nat)
    requires Inv(s) && Locks(s) && Meaningful(s, s.At(t)) && o < |s.slots|
    requires Enact(s, t, EffectOf(s, t, s.At(t))).slots[o].lock == Some(t)
    ensures HoldsLock(Enact(s, t, EffectOf(s, t, s.At(t))), EffectOf(s, t, s.At(t)).pc, o)
  {
    hide Inv, Locks, PcOk, EffectOf, Enact, HoldsLock, Meaningful, ScanOk;
    LockAt(s, o, t);
    if s.At(t).PrepUnlock? || s.At(t).WakeUnlock? { UnlocksOwn(s, t, o); }
    if Waking(s.At(t)) { WakerHolds(s, t, o); } else { CallerHolds(s, t, o); }
  }

  lemma CallerHolds(s: State, t: nat, o: nat)
    requires Meaningful(s, s.At(t)) && o < |s.slots| && LockOk(s, o) && !Waking(s.At(t))
    requires s.At(t).PrepUnlock? ==> (s.slots[o].lock == Some(t) <==> s.entries[s.At(t).id].order == o)
    requires Enact(s, t, EffectOf(s, t, s.At(t))).slots[o].lock == Some(t)
    ensures HoldsLock(Enact(s, t, EffectOf(s, t, s.At(t))), EffectOf(s, t, s.At(t)).pc, o)
  {
  }

  lemma WakerHolds(s: State, t: nat, o: nat)
    requires Meaningful(s, s.At(t)) && o < |s.slots| && LockOk(s, o) && Waking(s.At(t))
    requires s.At(t).WakeUnlock? ==> (s.slots[o].lock == Some(t) <==> s.At(t).plan.o == o)
    requires Enact(s, t, EffectOf(s, t, s.At(t))).slots[o].lock == Some(t)
    ensures HoldsLock(Enact(s, t, EffectOf(s, t, s.At(t))), EffectOf(s, t, s.At(t)).pc, o)
  {
  }

  lemma UnlocksOwn(s: State, t: nat, o: nat)
    requires Inv(s) && Locks(s) && o < |s.slots| && (s.At(t).PrepUnlock? || s.At(t).WakeUnlock?)
    ensures var pc := s.At(t);
            && (pc.PrepUnlock? ==> pc.id in s.entries && (s.slots[o].lock == Some(t) <==> s.entries[pc.id].order == o))
            && (pc.WakeUnlock? ==> (s.slots[o].lock == Some(t) <==> pc.plan.o == o))
  {
    hide Inv, Locks;
    LockAt(s, o, t);
    At(s, t);
  }

  lemma LocksStep(s: State, e: Event)
    requires Inv(s) && Locks(s)
    ensures Locks(Apply(s, e))
  {
    hide Inv, EffectOk, EffectOf, Meaningful, ScanOk, LockOk;
    if e.Step? {
      StepEffectOk(s, e.t);
      var f := EffectOf(s, e.t, s.At(e.t));
      var s' := Enact(s, e.t, f);
      forall o: nat | o < |s'.slots| ensures LockOk(s', o) { LockKept(s, e.t, o); }
      forall u: nat ensures ScanOk(s', s'.At(u)) { if u == e.t { OwnScan(s, u); } else { ScanKept(s, e.t, f, u); } }
    } else {
      var s' := Apply(s, e);
      forall o: nat | o < |s'.slots| ensures LockOk(s', o) { StartLock(s, e, o); }
      forall u: nat ensures ScanOk(s', s'.At(u)) { StartScan(s, e, u); }
    }
  }

  lemma StartLock(s: State, e: Event, o: nat)
    requires Inv(s) && Locks(s) && !e.Step? && o < |s.slots|
    ensures o < |Apply(s, e).slots| && LockOk(Apply(s, e), o)
  {
    hide Inv, Locks, NextOrder;
    LockAt(s, o, 0);
  }

  lemma StartScan(s: State, e: Event, u: nat)
    requires Inv(s) && Locks(s) && !e.Step?
    ensures ScanOk(Apply(s, e), Apply(s, e).At(u))
  {
    hide Inv, Locks, Apply, Meaningful;
    LockAt(s, 0, u);
    StartKeepsSlots(s, e, u);
    var pc := s.At(u);
    if pc.WakeScan? || pc.WakeStore? {
      ScannerHolds(s, u);
      forall j | 0 <= j < |s.slots[pc.plan.o].queue| && !LiveEntry(s, s.slots[pc.plan.o].queue[j])
        ensures !LiveEntry(Apply(s, e), s.slots[pc.plan.o].queue[j])
      {
        QueueAt(s, pc.plan.o, j);
        OutcomeIsFinal(s, e, s.slots[pc.plan.o].queue[j]);
      }
    }
  }

  lemma StartKeepsSlots(s: State, e: Event, u: nat)
    requires !e.Step?
    ensures var s' := Apply(s, e);
            s'.slots == s.slots && if s'.At(u).WakeScan? || s'.At(u).WakeStore? then s'.At(u) == s.At(u) else true
  {
  }

  lemma VisibleEntry(s: State, id: nat)
    requires Visible(s) && id in s.entries
    ensures VisibleAt(s, id)
  {
  }

  lemma VisibleKept(s: State, t: nat, x: nat)
    requires Inv(s) && Locks(s) && Visible(s) && !Hides(s, Step(t)) && x in s.entries
    requires Meaningful(s, s.At(t)) && EffectOk(s, t, EffectOf(s, t, s.At(t)))
    ensures VisibleAt(Enact(s, t, EffectOf(s, t, s.At(t))), x)
  {
    hide Inv, Locks, Visible, EffectOk, EffectOf, Meaningful, VisibleAt;
    var pc := s.At(t);
    if pc.PrepLock? || pc.PrepPush? || pc.PrepAdd? || pc.PrepHead? || pc.PrepUnlock? {
      PrepareVisible(s, t, x);
    } else if pc.RevCas? || pc.RevTake? || pc.RevSub? || pc.RevEnd? {
      RevokeVisible(s, t, x);
    } else if pc.WakeLock? || pc.WakePop? || pc.WakeLoad? || pc.WakeCas? {
      PopVisible(s, t, x);
    } else {
      FinishVisible(s, t, x);
    }
  }

  lemma PrepareVisible(s: State, t: nat, x: nat)
    requires Inv(s) && Locks(s) && Visible(s) && !Hides(s, Step(t)) && x in s.entries && Meaningful(s, s.At(t))
    requires var pc := s.At(t); pc.PrepLock? || pc.PrepPush? || pc.PrepAdd? || pc.PrepHead? || pc.PrepUnlock?
    ensures VisibleAt(Enact(s, t, EffectOf(s, t, s.At(t))), x)
  {
    hide Inv, Locks, Visible;
    VisibleEntry(s, x);
    EntryAt(s, x);
    At(s, t);
    LockAt(s, s.entries[x].order, t);
    EntryAt(s, s.At(t).id);
  }

  lemma RevokeVisible(s: State, t: nat, x: nat)
    requires Inv(s) && Locks(s) && Visible(s) && x in s.entries && Meaningful(s, s.At(t))
    requires var pc := s.At(t); pc.RevCas? || pc.RevTake? || pc.RevSub? || pc.RevEnd?
    ensures VisibleAt(Enact(s, t, EffectOf(s, t, s.At(t))), x)
  {
    hide Inv, Locks, Visible;
    VisibleEntry(s, x);
    EntryAt(s, x);
    LockAt(s, s.entries[x].order, t);
  }

  lemma PopVisible(s: State, t: nat, x: nat)
    requires Inv(s) && Locks(s) && Visible(s) && x in s.entries && Meaningful(s, s.At(t))
    requires var pc := s.At(t); pc.WakeLock? || pc.WakePop? || pc.WakeLoad? || pc.WakeCas?
    ensures VisibleAt(Enact(s, t, EffectOf(s, t, s.At(t))), x)
  {
    hide Inv, Locks, Visible;
    VisibleEntry(s, x);
    EntryAt(s, x);
    At(s, t);
    LockAt(s, s.entries[x].order, t);
  }

  lemma FinishVisible(s: State, t: nat, x: nat)
    requires Inv(s) && Locks(s) && Visible(s) && x in s.entries && Meaningful(s, s.At(t))
    requires var pc := s.At(t);
             pc.Idle? || pc.WakeSub? || pc.WakeScan? || pc.WakeStore? || pc.WakeUnlock? || pc.WakeTake?
    ensures VisibleAt(Enact(s, t, EffectOf(s, t, s.At(t))), x)
  {
    hide Inv, Locks, Visible, NextOrder;
    VisibleEntry(s, x);
    EntryAt(s, x);
    At(s, t);
    LockAt(s, s.entries[x].order, t);
    if s.At(t).WakeStore? { NoneLeft(s, t, x); }
    if s.At(t).WakeScan? { ScanEnds(s, t, x); }
  }

  /** The sentinel is stored only over a queue without live entries. */
  lemma NoneLeft(s: State, t: nat, x: nat)
    requires Inv(s) && Locks(s) && x in s.entries && s.At(t).WakeStore?
    ensures var pc, e := s.At(t), s.entries[x];
            pc.ts == NO_WAITERS_TIMESTAMP && e.order == pc.plan.o && e.place == Queued ==> e.state != LIVE
  {
    hide Inv, Locks;
    LockAt(s, 0, t);
    EntryAt(s, x);
    if s.entries[x].order == s.At(t).plan.o && s.entries[x].place == Queued {
      var q := s.slots[s.entries[x].order].queue;
      var j :| 0 <= j < |q| && q[j] == x;
      assert s.At(t).ts == NO_WAITERS_TIMESTAMP ==> !LiveEntry(s, q[j]);
    }
  }

  lemma ScanEnds(s: State, t: nat, x: nat)
    requires Inv(s) && Locks(s) && x in s.entries && s.At(t).WakeScan? && Meaningful(s, s.At(t))
    ensures var pc, e := EffectOf(s, t, s.At(t)).pc, s.entries[x];
            pc.WakeStore? && pc.ts == NO_WAITERS_TIMESTAMP && e.order == pc.plan.o && e.place == Queued ==>
              e.state != LIVE
  {
    hide Inv, Locks;
    var plan, i := s.At(t).plan, s.At(t).i;
    var q := s.slots[plan.o].queue;
    LockAt(s, 0, t);
    EntryAt(s, x);
    if i < |q| { QueueAt(s, plan.o, i); EntryAt(s, q[i]); }
    if s.entries[x].order == plan.o && s.entries[x].place == Queued {
      var j :| 0 <= j < |q| && q[j] == x;
      assert j < i ==> !LiveEntry(s, q[j]);
    }
  }

  lemma StartVisible(s: State, e: Event, x: nat)
    requires Inv(s) && Locks(s) && Visible(s) && !e.Step? && x in Apply(s, e).entries
    ensures VisibleAt(Apply(s, e), x)
  {
    hide Inv, Locks, Visible, NextOrder;
    if x in s.entries {
      VisibleEntry(s, x);
      EntryAt(s, x);
      LockAt(s, s.entries[x].order, 0);
    }
  }

  /** A step keeps every live queued entry advertised exactly when it is not such a prepare. */
  lemma VisibleStep(s: State, e: Event)
    requires Inv(s) && Locks(s) && Visible(s)
    ensures Visible(Apply(s, e)) <==> !Hides(s, e)
  {
    hide Inv, Locks, EffectOk, EffectOf, Meaningful, VisibleAt;
    var s' := Apply(s, e);
    if Hides(s, e) {
      HiddenAfter(s, e);
    } else if e.Step? {
      StepEffectOk(s, e.t);
      forall x | x in s'.entries ensures VisibleAt(s', x) { StepDomain(s, e.t, x); VisibleKept(s, e.t, x); }
    } else {
      forall x | x in s'.entries ensures VisibleAt(s', x) { StartVisible(s, e, x); }
    }
  }

  lemma StepDomain(s: State, t: nat, x: nat)
    requires Inv(s) && x in Apply(s, Step(t)).entries
    ensures x in s.entries
  {
    hide Inv;
    StepEffectOk(s, t);
  }

  lemma HiddenAfter(s: State, e: Event)
    requires Inv(s) && Hides(s, e)
    ensures var s' := Apply(s, e);
            var id := s.At(e.t).id;
            && id in s'.entries && !VisibleAt(s', id) && LiveEntry(s', id)
            && s.entries[id].order < |s'.slots| && id in s'.slots[s.entries[id].order].queue
  {
    hide Inv;
    At(s, e.t);
    EntryAt(s, s.At(e.t).id);
  }

  predicate RevokingAt(s: State, t: nat, o: nat)
  {
    (s.At(t).RevTake? || s.At(t).RevSub?) && s.At(t).id in s.entries && s.entries[s.At(t).id].order == o
  }

  /** Only a revoke or drop between its compare-exchange and its decrement makes that possible. */
  lemma HidingNeedsRevoker(s: State, e: Event)
    requires Inv(s) && Locks(s) && Visible(s) && Hides(s, e)
    ensures exists u: nat :: RevokingAt(s, u, s.entries[s.At(e.t).id].order)
  {
    hide Inv, Locks, Visible;
    var o := s.entries[s.At(e.t).id].order;
    At(s, e.t);
    QueueOkAt(s, o);
    LockAt(s, o, e.t);
    var y :| y in Counted(s, o);
    VisibleEntry(s, y);
    EntryAt(s, y);
    var ye := s.entries[y];
    if ye.place.Popped? { At(s, ye.place.t); }
    if ye.sub.Due? {
      At(s, ye.sub.t);
      assert RevokingAt(s, ye.sub.t, o);
    }
  }

  lemma {:induction false} LocksRun(orders: nat, es: seq<Event>)
    ensures Locks(Run(Init(orders), es))
  {
    hide Inv, Apply;
    if es != [] {
      InvRun(orders, es[..|es| - 1]);
      LocksRun(orders, es[..|es| - 1]);
      LocksStep(Run(Init(orders), es[..|es| - 1]), es[|es| - 1]);
    }
  }

  ghost predicate NeverHides(orders: nat, es: seq<Event>)
  {
    forall k :: 0 <= k < |es| ==> !Hides(Run(Init(orders), es[..k]), es[k])
  }

  lemma {:induction false} VisibleRun(orders: nat, es: seq<Event>)
    requires NeverHides(orders, es)
    ensures Visible(Run(Init(orders), es))
  {
    hide Inv, Apply, Locks, Visible, Hides;
    if es == [] {
      InitVisible(orders);
    } else {
      var init := es[..|es| - 1];
      forall k | 0 <= k < |init| ensures !Hides(Run(Init(orders), init[..k]), init[k]) { assert init[..k] == es[..k]; }
      InvRun(orders, init);
      LocksRun(orders, init);
      VisibleRun(orders, init);
      VisibleStep(Run(Init(orders), init), es[|es| - 1]);
    }
  }

  lemma InitVisible(orders: nat)
    ensures Visible(Init(orders))
  {
  }

  lemma PrefixNeverHides(orders: nat, es: seq<Event>, n: nat)
    requires NeverHides(orders, es) && n <= |es|
    ensures NeverHides(orders, es[..n])
  {
    hide Hides, Run;
    forall k | 0 <= k < n ensures !Hides(Run(Init(orders), es[..n][..k]), es[..n][k]) {
      assert es[..n][..k] == es[..k];
    }
  }

  /** Over any run, every live queued entry is advertised at every point if and only if no
      prepare hides one. */
  lemma AlwaysVisibleIff(orders: nat, es: seq<Event>)
    ensures (forall n :: 0 <= n <= |es| ==> Visible(Run(Init(orders), es[..n]))) <==> NeverHides(orders, es)
  {
    hide Inv, Apply, Locks, Visible, Hides, Run;
    if NeverHides(orders, es) {
      forall n | 0 <= n <= |es| ensures Visible(Run(Init(orders), es[..n])) {
        PrefixNeverHides(orders, es, n);
        VisibleRun(orders, es[..n]);
      }
    }
    if forall n :: 0 <= n <= |es| ==> Visible(Run(Init(orders), es[..n])) {
      forall k | 0 <= k < |es| ensures !Hides(Run(Init(orders), es[..k]), es[k]) {
        assert Visible(Run(Init(orders), es[..k])) && Visible(Run(Init(orders), es[..k + 1]));
        RunNext(orders, es, k);
        InvRun(orders, es[..k]);
        LocksRun(orders, es[..k]);
        VisibleStep(Run(Init(orders), es[..k]), es[k]);
      }
    }
  }

  lemma RunNext(orders: nat, es: seq<Event>, k: nat)
    requires k < |es|
    ensures Run(Init(orders), es[..k + 1]) == Apply(Run(Init(orders), es[..k]), es[k])
  {
    assert es[..k + 1][..k] == es[..k];
  }

  /** A prepare adds to the count of an order while a revoke or drop of an entry of that order
      is between its compare-exchange and its decrement. */
  ghost predicate AddsDuringRevoke(s: State, e: Event)
  {
    && e.Step? && s.At(e.t).PrepAdd? && s.At(e.t).id in s.entries
    && exists u: nat :: RevokingAt(s, u, s.entries[s.At(e.t).id].order)
  }

  /** Runs in which no prepare adds during a revoke of its order never hide a waiter. */
  lemma {:induction false} SeparateRevokesShow(orders: nat, es: seq<Event>)
    requires forall k :: 0 <= k < |es| ==> !AddsDuringRevoke(Run(Init(orders), es[..k]), es[k])
    ensures NeverHides(orders, es)
  {
    hide Inv, Apply, Locks, Visible, Hides, AddsDuringRevoke, Run;
    if es != [] {
      var init, n := es[..|es| - 1], |es| - 1;
      forall k | 0 <= k < n ensures !AddsDuringRevoke(Run(Init(orders), init[..k]), init[k]) {
        assert init[..k] == es[..k];
      }
      SeparateRevokesShow(orders, init);
      InvRun(orders, init);
      LocksRun(orders, init);
      VisibleRun(orders, init);
      NotHiding(Run(Init(orders), init), es[n]);
      forall k | 0 <= k < |es| ensures !Hides(Run(Init(orders), es[..k]), es[k]) {
        if k < n { assert init[..k] == es[..k] && init[k] == es[k]; }
      }
    }
  }

  lemma NotHiding(s: State, e: Event)
    requires Inv(s) && Locks(s) && Visible(s) && !AddsDuringRevoke(s, e)
    ensures !Hides(s, e)
  {
    hide Inv, Locks, Visible;
    if Hides(s, e) { HidingNeedsRevoker(s, e); }
  }

  /** In every run without a hiding prepare: once the lock of its order is free, a live
      registered waiter is counted and its order advertises a head, so the scoring sees it. */
  lemma RunShowsWaiters(orders: nat, es: seq<Event>, id: nat)
    requires NeverHides(orders, es)
    ensures var s := Run(Init(orders), es);
            id in s.regs && s.regs[id].registered && LiveEntry(s, id) ==>
              var o := s.entries[id].order;
              && o < |s.slots|
              && (s.slots[o].lock.None? ==> s.slots[o].count > 0 && s.slots[o].head != NO_WAITERS_TIMESTAMP)
  {
    hide Inv, Visible;
    InvRun(orders, es);
    VisibleRun(orders, es);
    var s := Run(Init(orders), es);
    if id in s.regs && s.regs[id].registered && LiveEntry(s, id) {
      RegAt(s, id);
      VisibleEntry(s, id);
      QueueOkAt(s, s.entries[id].order);
      if s.entries[id].place.Popped? { At(s, s.entries[id].place.t); }
      assert Active(s.entries[id]) && id in Counted(s, s.entries[id].order);
    }
  }
}
