/** The fork guard: descriptor slots under a spin lock, a generation counter that is odd while a slot
changes, three atfork hooks and a poison flag that is never cleared.

One step is one atomic operation of one thread, and the operations are sequentially consistent.  A
fork copies the whole guard and the calling thread.  The model starts once the guard is initialised;
the counters do not wrap.
*/
module ForkGuard {
  import opened Bytes

  const SLOTS := 128
  const EMPTY := -1

  type Tid = nat
  type Pid = nat

  /** The shared variables; `closed` records the descriptors this process closed through the guard. */
  datatype Guard = Guard(
    poisoned: bool, epoch: nat, generation: nat, prepareGeneration: nat, prepareEpoch: nat,
    active: nat, slots: seq<int>, locked: bool, closed: seq<int>)

  // Where a thread is inside each operation, with its live local variables.  Each constructor is
  // named for the atomic operation that comes next.

  datatype RegisterAt = Lock | Recheck | Scan(slot: nat, empty: nat) | Begin(empty: nat) | Store(empty: nat) | End

  datatype CloseAt = CloseLock | Load | Mismatch | CloseBegin | Close | Failed | Clear | CloseEnd

  datatype PrepareAt = Added(prior: nat) | LoadGeneration | Noted(noted: nat, at: NotedAt)

  datatype NotedAt = StoreGeneration | LoadEpoch | StoreEpoch(epoch: nat) | Fork

  datatype ParentAt =
    | LoadPrepared
    | Reload(before: nat)
    | Compare(before: nat, after: nat, at: CompareAt)

  datatype CompareAt =
    | LoadPreparedEpoch
    | ReloadEpoch(beforeEpoch: nat)
    | LoadActive(beforeEpoch: nat, afterEpoch: nat)
    | Check(beforeEpoch: nat, afterEpoch: nat, prepares: nat)
    | Subtract

  datatype ChildAt = BumpEpoch | Poison | Reset | CloseSlot(slot: nat)

  /** `noted` is the generation this thread's prepare hook loaded, `child` the process it forked. */
  datatype Pc =
    | Idle
    | Registering(fd: int, register: RegisterAt)
    | Closing(slot: nat, fd: int, close: CloseAt)
    | Unlocking
    | Preparing(prepare: PrepareAt)
    | Parent(noted: nat, child: Option<Pid>, parent: ParentAt)
    | Child(hook: ChildAt)

  /** Inside the spin lock. */
  predicate Holds(p: Pc) {
    match p
    case Registering(_, r) => !r.Lock?
    case Closing(_, _, c) => !c.CloseLock?
    case Unlocking => true
    case _ => false
  }

  /** Between begin and end of a table mutation. */
  predicate Mutating(p: Pc) {
    match p
    case Registering(_, r) => r.Store? || r.End?
    case Closing(_, _, c) => c.Close? || c.Failed? || c.Clear? || c.CloseEnd?
    case _ => false
  }

  predicate Suspicious(before: nat, after: nat, beforeEpoch: nat, afterEpoch: nat, prepares: nat) {
    before % 2 != 0 || after % 2 != 0 || before != after || beforeEpoch != afterEpoch || prepares != 1
  }

  // ---------------------------------------------------------------- steps

  /** What a thread outside the guard may start; registering is refused once the guard is poisoned. */
  ghost predicate CallStep(s: Guard, s': Guard, p': Pc) {
    || (s' == s && p'.Registering? && p'.register.Lock? && p'.fd >= 0 && !s.poisoned)
    || (s' == s && p'.Closing? && p'.close.CloseLock? && p'.slot < SLOTS && p'.fd >= 0)
    || (s' == s.(active := s.active + 1) && p' == Preparing(Added(s.active)))
  }

  /** One atomic step of register_fd. */
  ghost predicate RegisterStep(s: Guard, fd: int, r: RegisterAt, s': Guard, p': Pc) {
    match r
    case Lock => !s.locked && s' == s.(locked := true) && p' == Registering(fd, Recheck)
    case Recheck => s' == s && p' == if s.poisoned then Unlocking else Registering(fd, Scan(0, SLOTS))
    case Scan(slot, empty) =>
      && s' == s
      && p' == if slot < |s.slots| then
                 if s.slots[slot] == fd then Unlocking
                 else Registering(fd, Scan(slot + 1, if s.slots[slot] == EMPTY && empty == SLOTS then slot else empty))
               else if empty == SLOTS then Unlocking else Registering(fd, Begin(empty))
    case Begin(empty) => s' == s.(generation := s.generation + 1) && p' == Registering(fd, Store(empty))
    case Store(empty) => empty < |s.slots| && s' == s.(slots := s.slots[empty := fd]) && p' == Registering(fd, End)
    case End => s' == s.(generation := s.generation + 1) && p' == Unlocking
  }

  /** One atomic step of close_fd; close(2) itself may fail. */
  ghost predicate CloseStep(s: Guard, slot: nat, fd: int, c: CloseAt, s': Guard, p': Pc) {
    match c
    case CloseLock => !s.locked && s' == s.(locked := true) && p' == Closing(slot, fd, Load)
    case Load =>
      s' == s && p' == Closing(slot, fd, if slot < |s.slots| && s.slots[slot] == fd then CloseBegin else Mismatch)
    case Mismatch => s' == s.(poisoned := true) && p' == Unlocking
    case CloseBegin => s' == s.(generation := s.generation + 1) && p' == Closing(slot, fd, Close)
    case Close =>
      || (s' == s.(closed := s.closed + [fd]) && p' == Closing(slot, fd, Clear))
      || (s' == s && p' == Closing(slot, fd, Failed))
    case Failed => s' == s.(poisoned := true) && p' == Closing(slot, fd, CloseEnd)
    case Clear => slot < |s.slots| && s' == s.(slots := s.slots[slot := EMPTY]) && p' == Closing(slot, fd, CloseEnd)
    case CloseEnd => s' == s.(generation := s.generation + 1) && p' == Unlocking
  }

  /** One atomic step of the prepare hook; the fork that follows it is not a step of one process. */
  ghost predicate PrepareStep(s: Guard, at: PrepareAt, s': Guard, p': Pc) {
    match at
    case Added(prior) => s' == (if prior != 0 then s.(poisoned := true) else s) && p' == Preparing(LoadGeneration)
    case LoadGeneration => s' == s && p' == Preparing(Noted(s.generation, StoreGeneration))
    case Noted(n, StoreGeneration) => s' == s.(prepareGeneration := n) && p' == Preparing(Noted(n, LoadEpoch))
    case Noted(n, LoadEpoch) => s' == s && p' == Preparing(Noted(n, StoreEpoch(s.epoch)))
    case Noted(n, StoreEpoch(e)) => s' == s.(prepareEpoch := e) && p' == Preparing(Noted(n, Fork))
    case Noted(_, Fork) => false
  }

  /** One atomic step of the parent hook. */
  ghost predicate ParentStep(s: Guard, n: nat, c: Option<Pid>, at: ParentAt, s': Guard, p': Pc) {
    match at
    case LoadPrepared => s' == s && p' == Parent(n, c, Reload(s.prepareGeneration))
    case Reload(b) => s' == s && p' == Parent(n, c, Compare(b, s.generation, LoadPreparedEpoch))
    case Compare(b, a, at) => CompareStep(s, n, c, b, a, at, s', p')
  }

  ghost predicate CompareStep(s: Guard, n: nat, c: Option<Pid>, b: nat, a: nat, at: CompareAt, s': Guard, p': Pc) {
    match at
    case LoadPreparedEpoch => s' == s && p' == Parent(n, c, Compare(b, a, ReloadEpoch(s.prepareEpoch)))
    case ReloadEpoch(be) => s' == s && p' == Parent(n, c, Compare(b, a, LoadActive(be, s.epoch)))
    case LoadActive(be, ae) => s' == s && p' == Parent(n, c, Compare(b, a, Check(be, ae, s.active)))
    case Check(be, ae, k) =>
      s' == (if Suspicious(b, a, be, ae, k) then s.(poisoned := true) else s)
      && p' == Parent(n, c, Compare(b, a, Subtract))
    case Subtract =>
      s' == (if s.active == 0 then s.(poisoned := true) else s.(active := s.active - 1)) && p' == Idle
  }

  /** One atomic step of the child hook. */
  ghost predicate ChildStep(s: Guard, at: ChildAt, s': Guard, p': Pc) {
    match at
    case BumpEpoch => s' == s.(epoch := s.epoch + 1) && p' == Child(Poison)
    case Poison => s' == s.(poisoned := true) && p' == Child(Reset)
    case Reset => s' == s.(active := 0) && p' == Child(CloseSlot(0))
    case CloseSlot(slot) =>
      if slot < |s.slots| then
        && s' == s.(slots := s.slots[slot := EMPTY], closed := s.closed + Registered(s.slots[slot..slot + 1]))
        && p' == Child(CloseSlot(slot + 1))
      else s' == s && p' == Idle
  }

  ghost predicate Move(s: Guard, p: Pc, s': Guard, p': Pc) {
    match p
    case Idle => CallStep(s, s', p')
    case Registering(fd, r) => RegisterStep(s, fd, r, s', p')
    case Closing(slot, fd, c) => CloseStep(s, slot, fd, c, s', p')
    case Unlocking => s' == s.(locked := false) && p' == Idle
    case Preparing(at) => PrepareStep(s, at, s', p')
    case Parent(n, c, at) => ParentStep(s, n, c, at, s', p')
    case Child(at) => ChildStep(s, at, s', p')
  }

  /** The descriptors in a table, in slot order. */
  function Registered(slots: seq<int>): (r: seq<int>)
    ensures forall fd :: fd in r <==> fd in slots && fd >= 0
  {
    if slots == [] then []
    else
      var n := |slots| - 1;
      Registered(slots[..n]) + if slots[n] >= 0 then [slots[n]] else []
  }

  type Threads = map<Tid, Pc>

  /** `inherited` is the table the process was forked with. */
  datatype Process = Process(guard: Guard, threads: Threads, inherited: Option<seq<int>>)

  type World = map<Pid, Process>

  ghost predicate ThreadStep(w: World, pid: Pid, t: Tid, s': Guard, p': Pc, w': World) {
    && pid in w && t in w[pid].threads
    && Move(w[pid].guard, w[pid].threads[t], s', p')
    && w' == w[pid := Process(s', w[pid].threads[t := p'], w[pid].inherited)]
  }

  ghost predicate SpawnStep(w: World, pid: Pid, t: Tid, u: Tid, w': World) {
    && pid in w && t in w[pid].threads && w[pid].threads[t].Idle? && u !in w[pid].threads
    && w' == w[pid := w[pid].(threads := w[pid].threads[u := Idle])]
  }

  predicate IsForking(p: Pc) {
    p.Preparing? && p.prepare.Noted? && p.prepare.at.Fork?
  }

  function Returned(q: Process, t: Tid, child: Option<Pid>): Process
    requires t in q.threads && IsForking(q.threads[t])
  {
    q.(threads := q.threads[t := Parent(q.threads[t].prepare.noted, child, LoadPrepared)])
  }

  ghost predicate ForkFails(w: World, pid: Pid, t: Tid, w': World) {
    && pid in w && t in w[pid].threads && IsForking(w[pid].threads[t])
    && w' == w[pid := Returned(w[pid], t, None)]
  }

  /** The child: a copy of the guard and one thread, about to run the child hook. */
  function Forked(q: Process, t: Tid): Process {
    Process(q.guard.(closed := []), map[t := Child(BumpEpoch)], Some(q.guard.slots))
  }

  ghost predicate ForkStep(w: World, pid: Pid, t: Tid, child: Pid, w': World) {
    && pid in w && t in w[pid].threads && IsForking(w[pid].threads[t]) && child !in w
    && w' == w[pid := Returned(w[pid], t, Some(child))][child := Forked(w[pid], t)]
  }

  ghost predicate Next(w: World, w': World) {
    || (exists pid, t, s', p' :: ThreadStep(w, pid, t, s', p', w'))
    || (exists pid, t, u :: SpawnStep(w, pid, t, u, w'))
    || (exists pid, t :: ForkFails(w, pid, t, w'))
    || (exists pid, t, child :: ForkStep(w, pid, t, child, w'))
  }

  /** Every guard has just been initialised and no thread is inside one. */
  ghost predicate Init(w: World) {
    forall pid :: pid in w ==> Fresh(w[pid])
  }

  ghost predicate Fresh(q: Process) {
    && q.inherited.None?
    && q.guard ==
       Guard(false, 1, 2, q.guard.prepareGeneration, q.guard.prepareEpoch, 0, seq(SLOTS, _ => EMPTY), false, [])
    && forall t :: t in q.threads ==> q.threads[t].Idle?
  }

  // ---------------------------------------------------------------- the lock and the generation

  predicate LockInv(s: Guard, ts: Threads) {
    && (forall t :: t in ts && Holds(ts[t]) ==> s.locked)
    && (forall t, u :: t in ts && u in ts && t != u ==> !(Holds(ts[t]) && Holds(ts[u])))
    && (!s.locked ==> s.generation % 2 == 0)
    && (forall t :: t in ts && Mutating(ts[t]) ==> s.generation % 2 == 1)
    && (forall t :: t in ts && Holds(ts[t]) && !Mutating(ts[t]) ==> s.generation % 2 == 0)
  }

  /** What a step does to the lock and the generation. */
  predicate LockEffect(s: Guard, p: Pc, s': Guard, p': Pc) {
    || (!s.locked && s'.locked && !Holds(p) && Holds(p') && !Mutating(p') && s'.generation == s.generation)
    || (!s'.locked && Holds(p) && !Mutating(p) && !Holds(p') && s'.generation == s.generation)
    || (s'.locked == s.locked && Holds(p) && Holds(p') && Mutating(p) != Mutating(p')
        && s'.generation == s.generation + 1)
    || (s'.locked == s.locked && Holds(p) == Holds(p') && Mutating(p) == Mutating(p') && s'.generation == s.generation)
  }

  lemma LockEffects(s: Guard, p: Pc, s': Guard, p': Pc)
    requires Move(s, p, s', p')
    ensures LockEffect(s, p, s', p')
    ensures s'.slots == s.slots || Mutating(p) || p.Child?
  {
  }

  lemma MutatingHolds(p: Pc)
    ensures Mutating(p) ==> Holds(p)
  {
  }

  lemma LockKept(s: Guard, ts: Threads, t: Tid, s': Guard, p': Pc)
    requires LockInv(s, ts) && t in ts && Move(s, ts[t], s', p')
    ensures LockInv(s', ts[t := p'])
  {
    hide Move, Holds, Mutating;
    LockEffects(s, ts[t], s', p');
    forall p: Pc
      ensures Mutating(p) ==> Holds(p)
    {
      MutatingHolds(p);
    }
  }

  /** A generation that stays even keeps the table; only the child hook writes it otherwise. */
  lemma EvenGenerationKeepsTable(s: Guard, ts: Threads, t: Tid, s': Guard, p': Pc)
    requires LockInv(s, ts) && t in ts && Move(s, ts[t], s', p') && !ts[t].Child?
    ensures s.generation <= s'.generation
    ensures s.generation % 2 == 0 ==> s'.slots == s.slots
  {
    hide Move, Holds, Mutating;
    LockEffects(s, ts[t], s', p');
  }

  // ---------------------------------------------------------------- the table

  predicate Distinct(slots: seq<int>) {
    forall i, j :: 0 <= i < j < |slots| && slots[i] >= 0 ==> slots[i] != slots[j]
  }

  predicate FirstEmpty(slots: seq<int>, end: nat, empty: nat)
    requires end <= |slots|
  {
    if empty == SLOTS then EMPTY !in slots[..end] else empty < end && slots[empty] == EMPTY && EMPTY !in slots[..empty]
  }

  /** What a thread inside the lock has learned about the table. */
  predicate Learned(slots: seq<int>, p: Pc)
    requires |slots| == SLOTS
  {
    match p
    case Registering(fd, Scan(slot, empty)) => slot <= SLOTS && fd !in slots[..slot] && FirstEmpty(slots, slot, empty)
    case Registering(fd, Begin(empty)) => fd !in slots && empty < SLOTS && FirstEmpty(slots, SLOTS, empty)
    case Registering(fd, Store(empty)) => fd !in slots && empty < SLOTS && FirstEmpty(slots, SLOTS, empty)
    case Closing(slot, fd, c) => c.CloseBegin? || c.Close? || c.Clear? ==> slot < SLOTS && slots[slot] == fd
    case _ => true
  }

  predicate TableInv(s: Guard, ts: Threads) {
    && |s.slots| == SLOTS && Distinct(s.slots)
    && forall t :: t in ts ==> Learned(s.slots, ts[t])
  }

  lemma RegisterTable(s: Guard, fd: int, r: RegisterAt, s': Guard, p': Pc)
    requires |s.slots| == SLOTS && Distinct(s.slots) && Learned(s.slots, Registering(fd, r))
    requires RegisterStep(s, fd, r, s', p')
    ensures |s'.slots| == SLOTS && Distinct(s'.slots) && Learned(s'.slots, p')
  {
  }

  lemma CloseTable(s: Guard, slot: nat, fd: int, c: CloseAt, s': Guard, p': Pc)
    requires |s.slots| == SLOTS && Distinct(s.slots) && Learned(s.slots, Closing(slot, fd, c))
    requires CloseStep(s, slot, fd, c, s', p')
    ensures |s'.slots| == SLOTS && Distinct(s'.slots) && Learned(s'.slots, p')
  {
  }

  lemma TableStep(s: Guard, p: Pc, s': Guard, p': Pc)
    requires |s.slots| == SLOTS && Distinct(s.slots) && Learned(s.slots, p) && Move(s, p, s', p')
    ensures |s'.slots| == SLOTS && Distinct(s'.slots) && Learned(s'.slots, p')
  {
    hide RegisterStep, CloseStep, FirstEmpty;
    match p
    case Registering(fd, r) => RegisterTable(s, fd, r, s', p');
    case Closing(slot, fd, c) => CloseTable(s, slot, fd, c, s', p');
    case _ =>
  }

  lemma OutsideLearnsNothing(slots: seq<int>, p: Pc)
    requires |slots| == SLOTS && !Holds(p)
    ensures Learned(slots, p)
  {
  }

  /** A thread runs the child hook only in a process with no other thread. */
  predicate HookAlone(ts: Threads) {
    forall t, u :: t in ts && u in ts && ts[t].Child? ==> t == u
  }

  lemma TableKept(s: Guard, ts: Threads, t: Tid, s': Guard, p': Pc)
    requires LockInv(s, ts) && TableInv(s, ts) && HookAlone(ts)
    requires t in ts && Move(s, ts[t], s', p')
    ensures TableInv(s', ts[t := p'])
  {
    hide Move, Holds, Mutating, Learned, Distinct;
    TableStep(s, ts[t], s', p');
    LockEffects(s, ts[t], s', p');
    MutatingHolds(ts[t]);
    forall u | u in ts && u != t
      ensures Learned(s'.slots, ts[u])
    {
      if s'.slots != s.slots {
        OutsideLearnsNothing(s'.slots, ts[u]);
      }
    }
  }

  lemma HookAloneKept(s: Guard, ts: Threads, t: Tid, s': Guard, p': Pc)
    requires HookAlone(ts) && t in ts && Move(s, ts[t], s', p')
    ensures HookAlone(ts[t := p'])
  {
  }

  // ---------------------------------------------------------------- concurrent forks

  /** Counted in active_prepares. */
  predicate InFork(p: Pc) {
    p.Preparing? || p.Parent?
  }

  /** Counted, and not about to poison the guard for having found another fork. */
  predicate Entered(p: Pc) {
    InFork(p) && !(p.Preparing? && p.prepare.Added? && p.prepare.prior != 0)
  }

  ghost function Forkers(ts: Threads): set<Tid> {
    set t | t in ts && InFork(ts[t])
  }

  predicate Resetting(p: Pc) {
    p.Child? && !p.hook.CloseSlot?
  }

  predicate Settled(ts: Threads) {
    forall t :: t in ts ==> !Resetting(ts[t])
  }

  /** What the only entered thread knows while the guard is unpoisoned. */
  predicate Prepared(s: Guard, p: Pc) {
    match p
    case Preparing(Noted(n, at)) =>
      && (at.LoadEpoch? ==> s.prepareGeneration == n)
      && (at.StoreEpoch? ==> s.prepareGeneration == n && at.epoch == s.epoch)
      && (at.Fork? ==> s.prepareGeneration == n && s.prepareEpoch == s.epoch)
    case Parent(n, _, at) =>
      && s.prepareGeneration == n && s.prepareEpoch == s.epoch
      && (!at.LoadPrepared? ==> at.before == n)
      && (at.Compare? ==> Agreed(s, n, at.after, at.at))
    case _ => true
  }

  predicate Agreed(s: Guard, n: nat, a: nat, at: CompareAt) {
    match at
    case LoadPreparedEpoch => true
    case ReloadEpoch(be) => be == s.epoch
    case LoadActive(be, ae) => be == s.epoch == ae
    case Check(be, ae, _) => be == s.epoch == ae
    case Subtract => a == n && n % 2 == 0
  }

  ghost predicate ForkInv(s: Guard, ts: Threads) {
    && (Settled(ts) ==> s.active == |Forkers(ts)|)
    && (!s.poisoned ==>
          && (forall t, u :: t in ts && u in ts && t != u ==> !(Entered(ts[t]) && Entered(ts[u])))
          && (forall t :: t in ts && Entered(ts[t]) ==> Prepared(s, ts[t])))
  }

  predicate SamePrepare(s: Guard, s': Guard) {
    s'.prepareGeneration == s.prepareGeneration && s'.prepareEpoch == s.prepareEpoch && s'.epoch == s.epoch
  }

  /** What a step does to the fork variables. */
  predicate ForkEffect(s: Guard, p: Pc, s': Guard, p': Pc) {
    && (s.poisoned ==> s'.poisoned)
    && (!InFork(p) && !InFork(p') && !Resetting(p) ==> s'.active == s.active)
    && (!InFork(p) && InFork(p') ==> s'.active == s.active + 1 && p' == Preparing(Added(s.active)) && p.Idle?)
    && (InFork(p) && !InFork(p') ==>
        s'.active == (if s.active == 0 then 0 else s.active - 1) && (s.active == 0 ==> s'.poisoned))
    && (InFork(p) && InFork(p') ==> s'.active == s.active && (!s'.poisoned ==> Entered(p)))
    && (!Entered(p) && !p.Child? ==> SamePrepare(s, s'))
  }

  lemma ForkEffects(s: Guard, p: Pc, s': Guard, p': Pc)
    requires Move(s, p, s', p')
    ensures ForkEffect(s, p, s', p')
  {
  }

  lemma PreparedStep(s: Guard, p: Pc, s': Guard, p': Pc)
    requires Move(s, p, s', p') && !s'.poisoned && Entered(p') && (Entered(p) ==> Prepared(s, p))
    ensures Prepared(s', p')
  {
  }

  lemma ForkersStep(ts: Threads, t: Tid, p': Pc)
    requires t in ts
    ensures Forkers(ts[t := p']) == if InFork(p') then Forkers(ts) + {t} else Forkers(ts) - {t}
  {
  }

  lemma ActiveKept(s: Guard, ts: Threads, t: Tid, s': Guard, p': Pc)
    requires ForkInv(s, ts) && HookAlone(ts) && t in ts && Move(s, ts[t], s', p')
    ensures Settled(ts[t := p']) ==> s'.active == |Forkers(ts[t := p'])|
  {
    hide Move;
    ForkersStep(ts, t, p');
    if Resetting(ts[t]) {
      ResettingStep(s, ts[t], s', p');
      assert Forkers(ts) == {};
    } else {
      ForkEffects(s, ts[t], s', p');
      assert t in Forkers(ts) <==> InFork(ts[t]);
    }
  }

  lemma ResettingStep(s: Guard, p: Pc, s': Guard, p': Pc)
    requires Move(s, p, s', p') && Resetting(p)
    ensures p'.Child? && (!Resetting(p') ==> s'.active == 0)
  {
  }

  lemma ForkKept(s: Guard, ts: Threads, t: Tid, s': Guard, p': Pc)
    requires ForkInv(s, ts) && HookAlone(ts) && t in ts && Move(s, ts[t], s', p')
    ensures ForkInv(s', ts[t := p'])
  {
    ActiveKept(s, ts, t, s', p');
    ForkEffects(s, ts[t], s', p');
    if !s'.poisoned {
      forall u | u in ts && u != t && Entered(ts[u])
        ensures !Entered(p') && Prepared(s', ts[u])
      {
        OthersKeepPrepared(s, ts, t, s', p', u);
      }
      if Entered(p') {
        PreparedStep(s, ts[t], s', p');
      }
    }
  }

  lemma OthersKeepPrepared(s: Guard, ts: Threads, t: Tid, s': Guard, p': Pc, u: Tid)
    requires ForkInv(s, ts) && HookAlone(ts) && t in ts && ForkEffect(s, ts[t], s', p') && !s'.poisoned
    requires u in ts && u != t && Entered(ts[u])
    ensures !Entered(p') && Prepared(s', ts[u])
  {
    assert u in Forkers(ts);
  }

  // ---------------------------------------------------------------- child processes

  predicate Harmless(p: Pc) {
    match p
    case Registering(_, _) => false
    case Closing(_, fd, c) => fd >= 0 && (c.CloseLock? || c.Load? || c.Mismatch?)
    case Child(_) => false
    case _ => true
  }

  /** How far the child hook is through the inherited table. */
  ghost predicate Closed(s: Guard, inherited: seq<int>, slot: nat) {
    && |inherited| == |s.slots| == SLOTS && slot <= SLOTS
    && (forall i :: 0 <= i < slot ==> s.slots[i] == EMPTY)
    && s.slots[slot..] == inherited[slot..]
    && s.closed == Registered(inherited[..slot])
  }

  ghost predicate HookProgress(s: Guard, inherited: seq<int>, at: ChildAt) {
    match at
    case BumpEpoch => Closed(s, inherited, 0)
    case Poison => Closed(s, inherited, 0)
    case Reset => Closed(s, inherited, 0) && s.poisoned
    case CloseSlot(slot) => Closed(s, inherited, slot) && s.poisoned
  }

  /** The hook has run: poisoned, the table empty, every inherited descriptor closed once. */
  ghost predicate Sealed(s: Guard, inherited: seq<int>) {
    Closed(s, inherited, SLOTS) && s.poisoned
  }

  ghost predicate ChildInv(q: Process) {
    if q.inherited.None? then
      q.guard.epoch == 1 && forall t :: t in q.threads ==> !q.threads[t].Child?
    else
      forall t :: t in q.threads ==>
        if q.threads[t].Child? then HookProgress(q.guard, q.inherited.value, q.threads[t].hook)
        else Sealed(q.guard, q.inherited.value) && Harmless(q.threads[t])
  }

  lemma HookStep(s: Guard, inherited: seq<int>, at: ChildAt, s': Guard, p': Pc)
    requires HookProgress(s, inherited, at) && ChildStep(s, at, s', p')
    ensures if p'.Child? then HookProgress(s', inherited, p'.hook) else Sealed(s', inherited) && Harmless(p')
  {
    if at.CloseSlot? && at.slot < SLOTS {
      SlotClosed(s, inherited, at.slot, s');
    }
    hide Closed;
  }

  lemma SlotClosed(s: Guard, inherited: seq<int>, k: nat, s': Guard)
    requires Closed(s, inherited, k) && k < SLOTS
    requires s'.slots == s.slots[k := EMPTY] && s'.closed == s.closed + Registered(s.slots[k..k + 1])
    ensures Closed(s', inherited, k + 1)
  {
    assert s.slots[k] == s.slots[k..][0] == inherited[k..][0] == inherited[k];
    RegisteredNext(inherited, k);
    assert s.slots[k..k + 1] == inherited[k..k + 1];
    assert s'.slots[k + 1..] == s.slots[k..][1..] == inherited[k..][1..] == inherited[k + 1..];
  }

  lemma RegisteredNext(slots: seq<int>, k: nat)
    requires k < |slots|
    ensures Registered(slots[..k + 1]) == Registered(slots[..k]) + Registered(slots[k..k + 1])
  {
    assert slots[..k + 1][..k] == slots[..k] && slots[k..k + 1] == [slots[k]];
    assert [slots[k]][..0] == [];
  }

  lemma SealedStep(s: Guard, inherited: seq<int>, p: Pc, s': Guard, p': Pc)
    requires Sealed(s, inherited) && Harmless(p) && Move(s, p, s', p')
    ensures Sealed(s', inherited) && Harmless(p') && s'.slots == s.slots && s'.closed == s.closed
  {
  }

  lemma ChildKept(q: Process, t: Tid, s': Guard, p': Pc)
    requires ChildInv(q) && HookAlone(q.threads) && t in q.threads && Move(q.guard, q.threads[t], s', p')
    ensures ChildInv(Process(s', q.threads[t := p'], q.inherited))
  {
    var p := q.threads[t];
    if q.inherited.None? {
      OriginalStep(q.guard, p, s', p');
    } else if p.Child? {
      HookStep(q.guard, q.inherited.value, p.hook, s', p');
    } else {
      SealedStep(q.guard, q.inherited.value, p, s', p');
    }
  }

  lemma OriginalStep(s: Guard, p: Pc, s': Guard, p': Pc)
    requires Move(s, p, s', p') && !p.Child?
    ensures !p'.Child? && s'.epoch == s.epoch
  {
  }

  // ---------------------------------------------------------------- every reachable world

  ghost predicate ProcessInv(q: Process) {
    LockInv(q.guard, q.threads) && TableInv(q.guard, q.threads) && HookAlone(q.threads)
    && ForkInv(q.guard, q.threads) && ChildInv(q)
  }

  ghost predicate WorldInv(w: World) {
    forall pid :: pid in w ==> ProcessInv(w[pid])
  }

  lemma MoveInv(q: Process, t: Tid, s': Guard, p': Pc)
    requires ProcessInv(q) && t in q.threads && Move(q.guard, q.threads[t], s', p')
    ensures ProcessInv(Process(s', q.threads[t := p'], q.inherited))
  {
    hide LockInv, TableInv, HookAlone, ForkInv, ChildInv, Move;
    LockKept(q.guard, q.threads, t, s', p');
    TableKept(q.guard, q.threads, t, s', p');
    HookAloneKept(q.guard, q.threads, t, s', p');
    ForkKept(q.guard, q.threads, t, s', p');
    ChildKept(q, t, s', p');
  }

  lemma SpawnInv(q: Process, t: Tid, u: Tid)
    requires ProcessInv(q) && t in q.threads && q.threads[t].Idle? && u !in q.threads
    ensures ProcessInv(q.(threads := q.threads[u := Idle]))
  {
    assert Forkers(q.threads[u := Idle]) == Forkers(q.threads);
    assert forall v :: v in q.threads ==> q.threads[v].Child? ==> v == t;
  }

  lemma ReturnedLock(s: Guard, ts: Threads, t: Tid, p': Pc)
    requires LockInv(s, ts) && t in ts && IsForking(ts[t]) && p'.Parent?
    ensures LockInv(s, ts[t := p'])
  {
    assert !Holds(p') && !Mutating(p');
    hide Holds, Mutating;
  }

  lemma ReturnedTable(s: Guard, ts: Threads, t: Tid, p': Pc)
    requires TableInv(s, ts) && t in ts && p'.Parent?
    ensures TableInv(s, ts[t := p'])
  {
    assert Learned(s.slots, p');
    hide Learned, Distinct;
  }

  lemma ReturnedFork(s: Guard, ts: Threads, t: Tid, child: Option<Pid>)
    requires ForkInv(s, ts) && t in ts && IsForking(ts[t])
    ensures ForkInv(s, ts[t := Parent(ts[t].prepare.noted, child, LoadPrepared)])
  {
    var p' := Parent(ts[t].prepare.noted, child, LoadPrepared);
    var ts' := ts[t := p'];
    assert Forkers(ts') == Forkers(ts);
    assert Entered(ts[t]) && Entered(p') && !Resetting(ts[t]);
    assert !s.poisoned ==> Prepared(s, p');
    assert forall u :: u in ts && u != t ==> ts'[u] == ts[u];
    assert Settled(ts') ==> Settled(ts);
    hide Entered, Resetting, Prepared;
  }

  lemma ReturnedChild(q: Process, t: Tid, child: Option<Pid>)
    requires HookAlone(q.threads) && ChildInv(q) && t in q.threads && IsForking(q.threads[t])
    ensures HookAlone(Returned(q, t, child).threads) && ChildInv(Returned(q, t, child))
  {
    hide Sealed, HookProgress;
  }

  lemma ReturnedInv(q: Process, t: Tid, child: Option<Pid>)
    requires ProcessInv(q) && t in q.threads && IsForking(q.threads[t])
    ensures ProcessInv(Returned(q, t, child))
  {
    hide LockInv, TableInv, ForkInv, ChildInv, HookAlone;
    var p' := Parent(q.threads[t].prepare.noted, child, LoadPrepared);
    ReturnedLock(q.guard, q.threads, t, p');
    ReturnedTable(q.guard, q.threads, t, p');
    ReturnedFork(q.guard, q.threads, t, child);
    ReturnedChild(q, t, child);
  }

  lemma ForkedInv(q: Process, t: Tid)
    requires ProcessInv(q)
    ensures ProcessInv(Forked(q, t))
  {
    var ts := Forked(q, t).threads;
    assert t in ts && Resetting(ts[t]);
  }

  lemma NextInv(w: World, w': World)
    requires WorldInv(w) && Next(w, w')
    ensures WorldInv(w')
  {
    hide ProcessInv, Move, Returned, Forked;
    if pid, t, s', p' :| ThreadStep(w, pid, t, s', p', w') {
      MoveInv(w[pid], t, s', p');
    } else if pid, t, u :| SpawnStep(w, pid, t, u, w') {
      SpawnInv(w[pid], t, u);
    } else if pid, t :| ForkFails(w, pid, t, w') {
      ReturnedInv(w[pid], t, None);
    } else {
      var pid, t, child :| ForkStep(w, pid, t, child, w');
      ReturnedInv(w[pid], t, Some(child));
      ForkedInv(w[pid], t);
    }
  }

  type Run = seq<World>

  ghost predicate IsRun(r: Run) {
    |r| > 0 && Init(r[0]) && forall i :: 0 <= i < |r| - 1 ==> Next(r[i], r[i + 1])
  }

  lemma {:induction false} RunInv(r: Run, k: nat)
    requires IsRun(r) && k < |r|
    ensures WorldInv(r[k])
  {
    hide WorldInv, Next;
    if k == 0 {
      InitInv(r[0]);
    } else {
      RunInv(r, k - 1);
      assert Next(r[k - 1], r[k - 1 + 1]);
      NextInv(r[k - 1], r[k]);
    }
  }

  lemma InitInv(w: World)
    requires Init(w)
    ensures WorldInv(w)
  {
  }

  // ---------------------------------------------------------------- one process over a run

  /** How a step of the world looks to thread t of one process. */
  ghost predicate Evolves(q: Process, t: Tid, q': Process)
    requires t in q.threads && t in q'.threads
  {
    || (q'.guard == q.guard && q'.threads[t] == q.threads[t])
    || (q'.threads[t] == q.threads[t] && exists u, p' :: u in q.threads && Move(q.guard, q.threads[u], q'.guard, p'))
    || Move(q.guard, q.threads[t], q'.guard, q'.threads[t])
    || (&& q'.guard == q.guard && IsForking(q.threads[t])
        && exists child :: q'.threads[t] == Parent(q.threads[t].prepare.noted, child, LoadPrepared))
  }

  lemma ProcessStep(w: World, w': World, pid: Pid, t: Tid)
    requires Next(w, w') && pid in w && t in w[pid].threads
    ensures pid in w' && t in w'[pid].threads && w'[pid].inherited == w[pid].inherited
    ensures Evolves(w[pid], t, w'[pid])
  {
    hide Move;
    if x, u, s', p' :| ThreadStep(w, x, u, s', p', w') {
    } else if x, u, v :| SpawnStep(w, x, u, v, w') {
    } else if x, u :| ForkFails(w, x, u, w') {
    } else {
      var x, u, child :| ForkStep(w, x, u, child, w');
    }
  }

  /** The generation never falls, and while it is even the table stands still. */
  lemma GuardStep(w: World, w': World, pid: Pid, t: Tid)
    requires WorldInv(w) && Next(w, w') && pid in w && t in w[pid].threads && !w[pid].threads[t].Child?
    ensures pid in w' && w[pid].guard.generation <= w'[pid].guard.generation
    ensures w[pid].guard.generation % 2 == 0 ==> w'[pid].guard.slots == w[pid].guard.slots
  {
    hide Move, Next, LockInv, TableInv, ForkInv, ChildInv;
    ProcessStep(w, w', pid, t);
    assert ProcessInv(w[pid]);
    var q, q' := w[pid], w'[pid];
    if Move(q.guard, q.threads[t], q'.guard, q'.threads[t]) {
      EvenGenerationKeepsTable(q.guard, q.threads, t, q'.guard, q'.threads[t]);
    } else if u, p' :| u in q.threads && Move(q.guard, q.threads[u], q'.guard, p') {
      EvenGenerationKeepsTable(q.guard, q.threads, u, q'.guard, p');
    }
  }

  predicate HasNoted(p: Pc) {
    p.Parent? || (p.Preparing? && p.prepare.Noted?)
  }

  function NotedBy(p: Pc): nat
    requires HasNoted(p)
  {
    if p.Parent? then p.noted else p.prepare.noted
  }

  predicate HasReloaded(p: Pc) {
    p.Parent? && p.parent.Compare?
  }

  /** In world i thread t is about to load the generation in its prepare hook, and from then until
      world j it is in the same fork. */
  ghost predicate Window(r: Run, pid: Pid, t: Tid, i: nat, j: nat) {
    && i < j < |r|
    && pid in r[i] && t in r[i][pid].threads && r[i][pid].threads[t] == Preparing(LoadGeneration)
    && forall k :: i < k <= j ==> pid in r[k] && t in r[k][pid].threads && HasNoted(r[k][pid].threads[t])
  }

  ghost predicate NoMutation(q: Process) {
    forall u :: u in q.threads ==> !Mutating(q.threads[u])
  }

  /** From world i until the parent hook of t reloads the generation, no mutation is in flight and the
      table is that of world i. */
  ghost predicate Quiet(r: Run, pid: Pid, t: Tid, i: nat, j: nat)
    requires Window(r, pid, t, i, j)
  {
    && NoMutation(r[i][pid])
    && forall k :: i < k <= j && !HasReloaded(r[k][pid].threads[t]) ==> StillAt(r[i][pid], r[k][pid])
  }

  ghost predicate StillAt(q: Process, q': Process) {
    NoMutation(q') && q'.guard.slots == q.guard.slots
  }

  /** The generation as the parent hook of p sees it is still the noted one, and even. */
  predicate Unmoved(s: Guard, p: Pc)
    requires HasNoted(p)
  {
    NotedBy(p) % 2 == 0 && NotedBy(p) == if HasReloaded(p) then p.parent.after else s.generation
  }

  /** The child of p, if it has one, was forked with the given table. */
  ghost predicate ChildHas(w: World, p: Pc, slots: seq<int>) {
    p.Parent? && p.child.Some? ==> p.child.value in w && w[p.child.value].inherited == Some(slots)
  }

  lemma EvenMeansNoMutation(q: Process)
    requires ProcessInv(q) && q.guard.generation % 2 == 0
    ensures NoMutation(q)
  {
  }

  lemma NotedFirst(q: Process, t: Tid, q': Process)
    requires t in q.threads && t in q'.threads && Evolves(q, t, q')
    requires q.threads[t] == Preparing(LoadGeneration) && HasNoted(q'.threads[t])
    ensures q'.threads[t] == Preparing(Noted(q.guard.generation, StoreGeneration)) && q'.guard == q.guard
  {
  }

  lemma NotedStep(q: Process, t: Tid, q': Process)
    requires t in q.threads && t in q'.threads && Evolves(q, t, q')
    requires HasNoted(q.threads[t]) && HasNoted(q'.threads[t])
    ensures var p, p' := q.threads[t], q'.threads[t];
            && NotedBy(p') == NotedBy(p)
            && (HasReloaded(p) ==> HasReloaded(p') && p'.parent.after == p.parent.after)
            && (!HasReloaded(p) && HasReloaded(p') ==> p'.parent.after == q.guard.generation && q'.guard == q.guard)
            && (p.Parent? ==> p'.Parent? && p'.child == p.child)
  {
  }

  lemma ForkGivesTable(w: World, w': World, pid: Pid, t: Tid)
    requires Next(w, w') && pid in w && t in w[pid].threads && IsForking(w[pid].threads[t])
    requires pid in w' && t in w'[pid].threads
    ensures ChildHas(w', w'[pid].threads[t], w[pid].guard.slots)
  {
    hide RegisterStep, CloseStep, ChildStep, CallStep;
    if x, u, s', p' :| ThreadStep(w, x, u, s', p', w') {
    } else if x, u, v :| SpawnStep(w, x, u, v, w') {
    } else if x, u :| ForkFails(w, x, u, w') {
    } else {
      var x, u, child :| ForkStep(w, x, u, child, w');
    }
  }

  lemma ChildHasKept(w: World, w': World, pid: Pid, t: Tid, slots: seq<int>)
    requires WorldInv(w) && Next(w, w') && pid in w && t in w[pid].threads && pid in w' && t in w'[pid].threads
    requires HasNoted(w[pid].threads[t]) && HasNoted(w'[pid].threads[t])
    requires ChildHas(w, w[pid].threads[t], slots) && (!w[pid].threads[t].Parent? ==> w[pid].guard.slots == slots)
    ensures ChildHas(w', w'[pid].threads[t], slots)
  {
    hide Next, WorldInv;
    var p, p' := w[pid].threads[t], w'[pid].threads[t];
    ProcessStep(w, w', pid, t);
    NotedStep(w[pid], t, w'[pid]);
    if p.Parent? {
      if p.child.Some? {
        InheritedStep(w, w', p.child.value);
      }
    } else if p'.Parent? {
      ParentAfterFork(w[pid], t, w'[pid]);
      ForkGivesTable(w, w', pid, t);
    }
  }

  lemma ParentAfterFork(q: Process, t: Tid, q': Process)
    requires t in q.threads && t in q'.threads && Evolves(q, t, q')
    requires HasNoted(q.threads[t]) && !q.threads[t].Parent? && q'.threads[t].Parent?
    ensures IsForking(q.threads[t])
  {
  }

  lemma InheritedStep(w: World, w': World, pid: Pid)
    requires Next(w, w') && pid in w
    ensures pid in w' && w'[pid].inherited == w[pid].inherited
  {
  }

  /** What the generation tells thread t about the run since its prepare hook. */
  ghost predicate Witnessed(r: Run, pid: Pid, t: Tid, i: nat, k: nat)
    requires Window(r, pid, t, i, k)
  {
    var n, q, p := r[i][pid].guard.generation, r[k][pid], r[k][pid].threads[t];
    && NotedBy(p) == n <= q.guard.generation
    && (Unmoved(q.guard, p) ==> Quiet(r, pid, t, i, k) && ChildHas(r[k], p, r[i][pid].guard.slots))
  }

  lemma WitnessedFirst(r: Run, pid: Pid, t: Tid, i: nat)
    requires IsRun(r) && Window(r, pid, t, i, i + 1)
    ensures Witnessed(r, pid, t, i, i + 1)
  {
    hide Next, WorldInv;
    assert Next(r[i], r[i + 1]);
    ProcessStep(r[i], r[i + 1], pid, t);
    NotedFirst(r[i][pid], t, r[i + 1][pid]);
    if Unmoved(r[i + 1][pid].guard, r[i + 1][pid].threads[t]) {
      EvenAt(r, i, pid);
      EvenAt(r, i + 1, pid);
    }
  }

  lemma EvenAt(r: Run, k: nat, pid: Pid)
    requires IsRun(r) && k < |r| && pid in r[k] && r[k][pid].guard.generation % 2 == 0
    ensures NoMutation(r[k][pid])
  {
    hide IsRun, ProcessInv;
    RunInv(r, k);
    EvenMeansNoMutation(r[k][pid]);
  }

  lemma WitnessedNext(r: Run, pid: Pid, t: Tid, i: nat, k: nat)
    requires IsRun(r) && k + 1 < |r| && Window(r, pid, t, i, k) && Window(r, pid, t, i, k + 1)
    requires Witnessed(r, pid, t, i, k)
    ensures Witnessed(r, pid, t, i, k + 1)
  {
    hide Next, WorldInv, Evolves, NoMutation, ChildHas;
    var w, w' := r[k], r[k + 1];
    assert Next(w, w');
    RunInv(r, k);
    ProcessStep(w, w', pid, t);
    NotedStep(w[pid], t, w'[pid]);
    GuardStep(w, w', pid, t);
    if Unmoved(w'[pid].guard, w'[pid].threads[t]) {
      assert Unmoved(w[pid].guard, w[pid].threads[t]);
      ChildHasKept(w, w', pid, t, r[i][pid].guard.slots);
      if !HasReloaded(w'[pid].threads[t]) {
        EvenAt(r, k + 1, pid);
      }
    }
  }

  lemma {:induction false} WindowWitnessed(r: Run, pid: Pid, t: Tid, i: nat, j: nat)
    requires IsRun(r) && Window(r, pid, t, i, j)
    ensures Witnessed(r, pid, t, i, j)
    decreases j
  {
    hide IsRun, Witnessed;
    if j == i + 1 {
      WitnessedFirst(r, pid, t, i);
    } else {
      WindowWitnessed(r, pid, t, i, j - 1);
      WitnessedNext(r, pid, t, i, j - 1);
    }
  }

  // ---------------------------------------------------------------- the theorems

  /** Poison never clears. */
  lemma {:induction false} PoisonStays(r: Run, pid: Pid, i: nat, j: nat)
    requires IsRun(r) && i <= j < |r| && pid in r[i]
    ensures pid in r[j] && r[j][pid].inherited == r[i][pid].inherited
    ensures r[i][pid].guard.poisoned ==> r[j][pid].guard.poisoned
    decreases j
  {
    hide Next;
    if i < j {
      PoisonStays(r, pid, i, j - 1);
      assert Next(r[j - 1], r[j - 1 + 1]);
      PoisonStep(r[j - 1], r[j], pid);
    }
  }

  lemma PoisonStep(w: World, w': World, pid: Pid)
    requires Next(w, w') && pid in w
    ensures pid in w' && w'[pid].inherited == w[pid].inherited
    ensures w[pid].guard.poisoned ==> w'[pid].guard.poisoned
  {
    hide Move;
    if x, u, s', p' :| ThreadStep(w, x, u, s', p', w') {
      ForkEffects(w[x].guard, w[x].threads[u], s', p');
    }
  }

  /** Every forked process, once its hook has run, is poisoned for good with an empty table, and has
      closed exactly the descriptors it inherited, each once. */
  lemma ChildSealed(r: Run, k: nat, pid: Pid, t: Tid)
    requires IsRun(r) && k < |r| && pid in r[k] && t in r[k][pid].threads && !r[k][pid].threads[t].Child?
    requires r[k][pid].inherited.Some?
    ensures r[k][pid].guard.poisoned && r[k][pid].guard.slots == seq(SLOTS, _ => EMPTY)
    ensures r[k][pid].guard.closed == Registered(r[k][pid].inherited.value)
  {
    hide IsRun, LockInv, TableInv, HookAlone, ForkInv;
    RunInv(r, k);
    assert ProcessInv(r[k][pid]);
    var inherited := r[k][pid].inherited.value;
    assert inherited[..SLOTS] == inherited;
  }

  /** At the end of the parent hook an unpoisoned guard vouches for the fork. */
  lemma UnpoisonedMeansUnmoved(q: Process, t: Tid)
    requires ProcessInv(q) && t in q.threads && !q.guard.poisoned
    requires HasReloaded(q.threads[t]) && q.threads[t].parent.at.Subtract?
    ensures Unmoved(q.guard, q.threads[t])
  {
  }

  /** Fork safety.  If a parent hook ends with the guard unpoisoned, then from the moment its prepare
      hook noted the generation no table mutation was in flight, the table did not change, and the
      child, whenever its own hook is done, has closed exactly the descriptors then registered. */
  lemma ForkSafety(r: Run, pid: Pid, t: Tid, i: nat, j: nat)
    requires IsRun(r) && Window(r, pid, t, i, j) && !r[j][pid].guard.poisoned
    requires HasReloaded(r[j][pid].threads[t]) && r[j][pid].threads[t].parent.at.Subtract?
    ensures Quiet(r, pid, t, i, j)
    ensures ChildHas(r[j], r[j][pid].threads[t], r[i][pid].guard.slots)
  {
    hide IsRun, ProcessInv, Quiet, ChildHas;
    RunInv(r, j);
    UnpoisonedMeansUnmoved(r[j][pid], t);
    WindowWitnessed(r, pid, t, i, j);
  }

  lemma ForkSafetyInChild(r: Run, pid: Pid, t: Tid, i: nat, j: nat, k: nat, u: Tid)
    requires IsRun(r) && Window(r, pid, t, i, j) && !r[j][pid].guard.poisoned && j <= k < |r|
    requires HasReloaded(r[j][pid].threads[t]) && r[j][pid].threads[t].parent.at.Subtract?
    requires r[j][pid].threads[t].child.Some?
    ensures var child := r[j][pid].threads[t].child.value;
            && child in r[k]
            && (u in r[k][child].threads && !r[k][child].threads[u].Child? ==>
                  r[k][child].guard.closed == Registered(r[i][pid].guard.slots))
  {
    hide IsRun, Quiet;
    var child := r[j][pid].threads[t].child.value;
    ForkSafety(r, pid, t, i, j);
    PoisonStays(r, child, j, k);
    if u in r[k][child].threads && !r[k][child].threads[u].Child? {
      ChildSealed(r, k, child, u);
    }
  }

  function Lone(s: Guard, p: Pc): Process {
    Process(s, map[0 := p], None)
  }

  lemma LoneStep(s: Guard, p: Pc, s': Guard, p': Pc)
    requires Move(s, p, s', p')
    ensures Next(map[0 := Lone(s, p)], map[0 := Lone(s', p')])
  {
    var w, w': World := map[0 := Lone(s, p)], map[0 := Lone(s', p')];
    assert map[0 := p][0 := p'] == map[0 := p'];
    assert ThreadStep(w, 0, 0, s', p', w');
  }

  lemma LoneStepBeside(s: Guard, p: Pc, s': Guard, p': Pc, child: Process)
    requires Move(s, p, s', p')
    ensures Next(map[0 := Lone(s, p), 1 := child], map[0 := Lone(s', p'), 1 := child])
  {
    var w, w': World := map[0 := Lone(s, p), 1 := child], map[0 := Lone(s', p'), 1 := child];
    assert map[0 := p][0 := p'] == map[0 := p'];
    assert ThreadStep(w, 0, 0, s', p', w');
  }

  lemma LoneFork(s: Guard, n: nat)
    ensures var p := Preparing(Noted(n, Fork));
            Next(map[0 := Lone(s, p)], map[0 := Lone(s, Parent(n, Some(1), LoadPrepared)), 1 := Forked(Lone(s, p), 0)])
  {
    var p := Preparing(Noted(n, Fork));
    var w: World := map[0 := Lone(s, p)];
    var w': World := map[0 := Lone(s, Parent(n, Some(1), LoadPrepared)), 1 := Forked(Lone(s, p), 0)];
    assert Returned(w[0], 0, Some(1)) == w'[0];
    assert ForkStep(w, 0, 0, 1, w');
  }

  function LonePrepare(s: Guard): seq<(Guard, Pc)> {
    var s1 := s.(active := 1);
    var s2 := s1.(prepareGeneration := s.generation);
    var s3 := s2.(prepareEpoch := s.epoch);
    [(s, Idle), (s1, Preparing(Added(0))), (s1, Preparing(LoadGeneration)),
     (s1, Preparing(Noted(s.generation, StoreGeneration))), (s2, Preparing(Noted(s.generation, LoadEpoch))),
     (s2, Preparing(Noted(s.generation, StoreEpoch(s.epoch)))), (s3, Preparing(Noted(s.generation, Fork)))]
  }

  function LoneParent(n: nat, e: nat): seq<Pc> {
    var c := Some(1);
    [Parent(n, c, LoadPrepared), Parent(n, c, Reload(n)), Parent(n, c, Compare(n, n, LoadPreparedEpoch)),
     Parent(n, c, Compare(n, n, ReloadEpoch(e))), Parent(n, c, Compare(n, n, LoadActive(e, e))),
     Parent(n, c, Compare(n, n, Check(e, e, 1))), Parent(n, c, Compare(n, n, Subtract))]
  }

  lemma LonePrepareMoves(s: Guard, i: nat)
    requires s.active == 0 && i < 6
    ensures var m := LonePrepare(s); Move(m[i].0, m[i].1, m[i + 1].0, m[i + 1].1)
  {
  }

  lemma LoneParentMoves(s: Guard, i: nat)
    requires s.active == 1 && s.generation % 2 == 0 && s.prepareGeneration == s.generation && s.prepareEpoch == s.epoch
             && i < 6
    ensures var m := LoneParent(s.generation, s.epoch); Move(s, m[i], s, m[i + 1])
  {
  }

  /** Fork safety is not empty: a lone thread that forks leaves the guard unpoisoned. */
  lemma LoneForkPasses() returns (r: Run)
    ensures IsRun(r) && |r| == 14 && Window(r, 0, 0, 2, 13) && !r[13][0].guard.poisoned
    ensures r[13][0].threads[0] == Parent(2, Some(1), Compare(2, 2, Subtract))
  {
    hide Move, LonePrepare, LoneParent, Next;
    var s := Guard(false, 1, 2, 0, 0, 0, seq(SLOTS, _ => EMPTY), false, []);
    var prepare, parent := LonePrepare(s), LoneParent(2, 1);
    LoneSequences(s);
    var t := prepare[6].0;
    var child := Forked(Lone(t, prepare[6].1), 0);
    r := seq(14, i requires 0 <= i < 14 =>
      if i < 7 then map[0 := Lone(prepare[i].0, prepare[i].1)] else map[0 := Lone(t, parent[i - 7]), 1 := child]);
    forall i | 0 <= i < 14
      ensures 0 in r[i] && r[i][0] == if i < 7 then Lone(prepare[i].0, prepare[i].1) else Lone(t, parent[i - 7])
    {
      if i < 7 {
        assert r[i] == map[0 := Lone(prepare[i].0, prepare[i].1)];
      } else {
        assert r[i] == map[0 := Lone(t, parent[i - 7]), 1 := child];
      }
    }
    forall i | 0 <= i < 13
      ensures Next(r[i], r[i + 1])
    {
      if i < 6 {
        LonePrepareMoves(s, i);
        LoneStep(prepare[i].0, prepare[i].1, prepare[i + 1].0, prepare[i + 1].1);
      } else if i == 6 {
        LoneFork(t, 2);
      } else {
        LoneParentMoves(t, i - 7);
        LoneStepBeside(t, parent[i - 7], t, parent[i - 6], child);
      }
    }
  }

  lemma LoneSequences(s: Guard)
    ensures var m, q := LonePrepare(s), LoneParent(s.generation, s.epoch);
            && |m| == |q| == 7 && m[0] == (s, Idle) && m[2].1 == Preparing(LoadGeneration)
            && m[6] == (s.(active := 1, prepareGeneration := s.generation, prepareEpoch := s.epoch),
                        Preparing(Noted(s.generation, Fork)))
            && q[0] == Parent(s.generation, Some(1), LoadPrepared)
            && q[6] == Parent(s.generation, Some(1), Compare(s.generation, s.generation, Subtract))
            && (forall i :: 3 <= i < 7 ==> HasNoted(m[i].1)) && forall i :: 0 <= i < 7 ==> HasNoted(q[i])
  {
  }

  /** The parent hook poisons a clean guard exactly when the noted generation was odd, it has moved,
      or another fork is under way; the epochs never differ. */
  lemma CheckExact(r: Run, k: nat, pid: Pid, t: Tid)
    requires IsRun(r) && k < |r| && pid in r[k] && t in r[k][pid].threads && !r[k][pid].guard.poisoned
    requires HasReloaded(r[k][pid].threads[t]) && r[k][pid].threads[t].parent.at.Check?
    ensures var p := r[k][pid].threads[t]; var c := p.parent;
            Suspicious(c.before, c.after, c.at.beforeEpoch, c.at.afterEpoch, c.at.prepares)
            <==> p.noted % 2 != 0 || c.after != p.noted || c.at.prepares != 1
  {
    hide IsRun, LockInv, TableInv, HookAlone, ChildInv;
    RunInv(r, k);
    assert ProcessInv(r[k][pid]);
    assert Entered(r[k][pid].threads[t]);
  }

  /** The count of active prepares is never zero when a parent hook takes itself off it. */
  lemma SubtractNeverUnderflows(r: Run, k: nat, pid: Pid, t: Tid)
    requires IsRun(r) && k < |r| && pid in r[k] && t in r[k][pid].threads && InFork(r[k][pid].threads[t])
    ensures r[k][pid].guard.active > 0
  {
    hide IsRun, LockInv, TableInv, ChildInv;
    RunInv(r, k);
    var q := r[k][pid];
    assert ProcessInv(q);
    assert t in Forkers(q.threads);
    assert forall u :: u in q.threads && q.threads[u].Child? ==> u == t;
  }

  /** Registered descriptors are pairwise distinct in every reachable table. */
  lemma TableDistinct(r: Run, k: nat, pid: Pid)
    requires IsRun(r) && k < |r| && pid in r[k]
    ensures |r[k][pid].guard.slots| == SLOTS && Distinct(r[k][pid].guard.slots)
  {
    hide IsRun, LockInv, ForkInv, HookAlone, ChildInv;
    RunInv(r, k);
    assert ProcessInv(r[k][pid]);
  }

  /** So closing the registered descriptors closes each of them once. */
  lemma {:induction false} RegisteredOnce(slots: seq<int>, i: nat, j: nat)
    requires Distinct(slots) && i < j < |Registered(slots)|
    ensures Registered(slots)[i] != Registered(slots)[j]
  {
    var n := |slots| - 1;
    if j < |Registered(slots[..n])| {
      RegisteredOnce(slots[..n], i, j);
    } else {
      assert Registered(slots)[i] in Registered(slots[..n]);
    }
  }

  // ---------------------------------------------------------------- identities

  datatype Identity = Identity(pid: Pid, tid: Tid, epoch: nat)

  /** Capturing loads the poison flag in one world and the epoch in a later one. */
  function CaptureIdentity(w: World, w': World, pid: Pid, t: Tid): Option<Identity>
    requires pid in w && pid in w'
  {
    if w[pid].guard.poisoned then None else Some(Identity(pid, t, w'[pid].guard.epoch))
  }

  /** So does requiring. */
  predicate AcceptsIdentity(w: World, w': World, pid: Pid, t: Tid, identity: Identity)
    requires pid in w && pid in w'
  {
    !w[pid].guard.poisoned && identity == Identity(pid, t, w'[pid].guard.epoch)
  }

  /** An unpoisoned process whose thread is not in the child hook was never forked, and keeps its epoch. */
  lemma OriginalEpoch(r: Run, i: nat, j: nat, pid: Pid, t: Tid)
    requires IsRun(r) && i <= j < |r| && pid in r[i] && !r[i][pid].guard.poisoned
    requires t in r[i][pid].threads && !r[i][pid].threads[t].Child?
    ensures pid in r[j] && r[j][pid].guard.epoch == 1
  {
    hide IsRun, LockInv, TableInv, ForkInv, HookAlone;
    PoisonStays(r, pid, i, j);
    RunInv(r, i);
    RunInv(r, j);
    assert ProcessInv(r[i][pid]) && ProcessInv(r[j][pid]);
  }

  /** An identity is accepted from its own thread of its own process while the guard is unpoisoned,
      and nowhere else, whatever happens between the two loads of either operation; in particular never
      after a fork in the child. */
  lemma IdentityExact(r: Run, i: nat, i': nat, j: nat, j': nat, pid: Pid, t: Tid, pid': Pid, t': Tid)
    requires IsRun(r) && i <= i' <= j <= j' < |r|
    requires pid in r[i] && t in r[i][pid].threads && !r[i][pid].threads[t].Child? && !r[i][pid].guard.poisoned
    requires pid' in r[j]
    ensures pid in r[i'] && pid in r[j] && pid' in r[j']
    ensures AcceptsIdentity(r[j], r[j'], pid', t', CaptureIdentity(r[i], r[i'], pid, t).value)
            <==> pid' == pid && t' == t && !r[j][pid].guard.poisoned
  {
    hide IsRun;
    OriginalEpoch(r, i, i', pid, t);
    OriginalEpoch(r, i, j, pid, t);
    OriginalEpoch(r, i, j', pid, t);
    PoisonStays(r, pid', j, j');
  }
}
