/**
 sleep() and wakeup() under their locks (kernel/proc.c, kernel/sleeplock.c): sleep locks, and
 exit() and wait().  Every process is a program counter between lock operations; a step runs
 one process from one acquire or release of a lock to the next.
 */
module SleepWakeup {
  import opened Options

  datatype ProcState = UNUSED | USED | SLEEPING | RUNNABLE | RUNNING | ZOMBIE

  // The spin lock of a sleep lock, and wait_lock.
  datatype Lk = SL(l: nat) | WL

  datatype Chan = LockChan(l: nat) | ProcChan(p: nat)

  datatype Pc =
    | Free                       // an unused slot of proc[]
    | New                        // a child that has not run yet
    | Idle                       // outside the modelled code
    | Acq(l: nat)                // acquiresleep: holds the spin lock, at the while test
    | Sleep1(k: Lk)              // sleep: about to acquire p->lock
    | Sleep2(k: Lk)              // holds p->lock, about to release k
    | Sleep3(k: Lk)              // about to set chan and state and call sched()
    | Sleep4(k: Lk)              // switched out
    | Sleep5(k: Lk)              // switched in, holds p->lock
    | Sleep6(k: Lk)              // about to reacquire k
    | Rel(l: nat, i: nat)        // releasesleep: in wakeup(), next process i
    | Scan(i: nat, kids: bool)   // wait: scanning the table
    | Rep(i: nat)                // exit: in reparent()
    | RepWake(i: nat, j: nat)    // reparent: in wakeup(initproc)
    | WakeParent(j: nat)         // exit: in wakeup(p->parent)
    | Die1                       // about to acquire p->lock
    | Die2                       // about to set ZOMBIE
    | Die3                       // about to release wait_lock
    | Die4                       // about to call sched()
    | Dead
    | ForkParent(c: nat)         // fork: about to set the child's parent
    | ForkRun(c: nat)            // about to make the child RUNNABLE

  // `lock` is p->lock, which only p holds across steps; `held` are the sleep locks p has.
  datatype Proc = Proc(st: ProcState, chan: Option<Chan>, parent: Option<nat>, killed: bool,
                       lock: bool, pc: Pc, held: set<nat>)

  datatype SleepLock = SleepLock(spin: Option<nat>, locked: bool, owner: nat)

  datatype State = State(procs: seq<Proc>, locks: seq<SleepLock>, wait: Option<nat>)

  // What a step does: a process continues (or its copyout() in wait() fails), starts an
  // operation, is switched out or in, or kills.
  datatype Act =
    | Go | Fail | StartAcquire(l: nat) | StartRelease(l: nat) | StartWait | StartExit | StartFork(c: nat)
    | Preempt | Schedule | Kill(i: nat)

  // ---------- locks ----------

  function Holder(s: State, k: Lk): Option<nat> {
    match k
    case SL(l) => if l < |s.locks| then s.locks[l].spin else None
    case WL => s.wait
  }

  function SetHolder(s: State, k: Lk, h: Option<nat>): State {
    match k
    case SL(l) => if l < |s.locks| then s.(locks := s.locks[l := s.locks[l].(spin := h)]) else s
    case WL => s.(wait := h)
  }

  function SetLocked(s: State, l: nat, locked: bool, owner: nat): State
    requires l < |s.locks|
  {
    s.(locks := s.locks[l := s.locks[l].(locked := locked, owner := owner)])
  }

  function SetProc(s: State, p: nat, q: Proc): State
    requires p < |s.procs|
  {
    s.(procs := s.procs[p := q])
  }

  function ChanOf(k: Lk, p: nat): Chan {
    match k
    case SL(l) => LockChan(l)
    case WL => ProcChan(p)
  }

  // One turn of wakeup(c) by p, on process i: None while p->lock of i is taken.
  function Wake(s: State, p: nat, i: nat, c: Chan): Option<State>
    requires i < |s.procs|
  {
    if i == p then Some(s)
    else if s.procs[i].lock then None
    else if s.procs[i].st == SLEEPING && s.procs[i].chan == Some(c)
    then Some(SetProc(s, i, s.procs[i].(st := RUNNABLE)))
    else Some(s)
  }

  function Bind(r: Option<State>, p: nat, pc: Pc): Option<State> {
    if r.Some? && p < |r.value.procs| then Some(SetProc(r.value, p, r.value.procs[p].(pc := pc))) else None
  }

  // ---------- steps ----------

  function At(s: State, p: nat, pc: Pc): State
    requires p < |s.procs|
  {
    SetProc(s, p, s.procs[p].(pc := pc))
  }

  // p takes the free lock k and goes on at pc.
  function Enter(s: State, p: nat, k: Lk, pc: Pc): State
    requires p < |s.procs|
  {
    At(SetHolder(s, k, Some(p)), p, pc)
  }

  // p goes on at pc and releases k.
  function Leave(s: State, p: nat, k: Lk, pc: Pc): State
    requires p < |s.procs|
  {
    SetHolder(At(s, p, pc), k, None)
  }

  // acquiresleep() holding the spin lock: sleep, or take the lock and release the spin lock.
  function AcqStep(s: State, p: nat, l: nat): Option<State>
    requires p < |s.procs|
  {
    if l >= |s.locks| then None
    else if s.locks[l].locked then Some(At(s, p, Sleep1(SL(l))))
    else
      var t := SetLocked(s, l, true, p);
      Some(SetHolder(SetProc(t, p, t.procs[p].(pc := Idle, held := t.procs[p].held + {l})), SL(l), None))
  }

  function RelStep(s: State, p: nat, l: nat, i: nat): Option<State>
    requires p < |s.procs|
  {
    if i >= |s.procs| then Some(Leave(s, p, SL(l), Idle))
    else Bind(Wake(s, p, i, LockChan(l)), p, Rel(l, i + 1))
  }

  function SleepStep(s: State, p: nat): Option<State>
    requires p < |s.procs|
  {
    var q := s.procs[p];
    match q.pc
    case Sleep1(k) => if q.lock then None else Some(SetProc(s, p, q.(lock := true, pc := Sleep2(k))))
    case Sleep2(k) => Some(Leave(s, p, k, Sleep3(k)))
    case Sleep3(k) =>
      Some(SetProc(s, p, q.(chan := Some(ChanOf(k, p)), st := SLEEPING, lock := false, pc := Sleep4(k))))
    case Sleep5(k) => Some(SetProc(s, p, q.(chan := None, lock := false, pc := Sleep6(k))))
    case Sleep6(k) =>
      if Holder(s, k).Some? then None
      else Some(Enter(s, p, k, if k.SL? then Acq(k.l) else Scan(0, false)))
    case _ => None
  }

  // wait(): look at process i, reap it, give up, or sleep.
  function ScanStep(s: State, p: nat, i: nat, kids: bool): Option<State>
    requires p < |s.procs|
  {
    if i >= |s.procs| then
      if !kids || s.procs[p].killed then Some(Leave(s, p, WL, Idle))
      else Some(At(s, p, Sleep1(WL)))
    else if s.procs[i].parent != Some(p) then Some(At(s, p, Scan(i + 1, kids)))
    else if s.procs[i].lock then None
    else if s.procs[i].st == ZOMBIE then
      Some(Leave(SetProc(s, i, Proc(UNUSED, None, None, false, false, Free, {})), p, WL, Idle))
    else Some(At(s, p, Scan(i + 1, true)))
  }

  function Adopt(s: State, c: nat, q: nat): State
    requires c < |s.procs|
  {
    SetProc(s, c, s.procs[c].(parent := Some(q)))
  }

  // reparent(): process i, if it is a child of p, becomes a child of init.
  function RepStep(s: State, p: nat, init: nat, i: nat): Option<State>
    requires p < |s.procs|
  {
    if i >= |s.procs| then Some(At(s, p, WakeParent(0)))
    else if s.procs[i].parent == Some(p)
    then Some(Adopt(At(s, p, RepWake(i, 0)), i, init))
    else Some(At(s, p, Rep(i + 1)))
  }

  function RepWakeStep(s: State, p: nat, init: nat, i: nat, j: nat): Option<State>
    requires p < |s.procs|
  {
    if j >= |s.procs| then Some(At(s, p, Rep(i + 1)))
    else Bind(Wake(s, p, j, ProcChan(init)), p, RepWake(i, j + 1))
  }

  function WakeParentStep(s: State, p: nat, j: nat): Option<State>
    requires p < |s.procs|
  {
    if j >= |s.procs| then Some(At(s, p, Die1))
    else if s.procs[p].parent.None? then Some(At(s, p, WakeParent(j + 1)))
    else Bind(Wake(s, p, j, ProcChan(s.procs[p].parent.value)), p, WakeParent(j + 1))
  }

  // The end of exit().
  function DieStep(s: State, p: nat): Option<State>
    requires p < |s.procs|
  {
    var q := s.procs[p];
    match q.pc
    case Die1 => if q.lock then None else Some(SetProc(s, p, q.(lock := true, pc := Die2)))
    case Die2 => Some(SetProc(s, p, q.(st := ZOMBIE, pc := Die3)))
    case Die3 => Some(Leave(s, p, WL, Die4))
    case Die4 => Some(SetProc(s, p, q.(lock := false, pc := Dead)))
    case _ => None
  }

  // fork() after allocproc(): the parent pointer under wait_lock, then the state under p->lock.
  function ForkStep(s: State, p: nat): Option<State>
    requires p < |s.procs|
  {
    match s.procs[p].pc
    case ForkParent(c) =>
      if s.wait.Some? || c >= |s.procs| then None
      else Some(Adopt(At(s, p, ForkRun(c)), c, p))
    case ForkRun(c) =>
      if c >= |s.procs| || s.procs[c].lock then None
      else Some(At(SetProc(s, c, s.procs[c].(st := RUNNABLE)), p, Idle))
    case _ => None
  }

  function Continue(s: State, p: nat, init: nat): Option<State>
    requires p < |s.procs|
  {
    match s.procs[p].pc
    case Acq(l) => AcqStep(s, p, l)
    case Rel(l, i) => RelStep(s, p, l, i)
    case Scan(i, kids) => ScanStep(s, p, i, kids)
    case Sleep1(_) => SleepStep(s, p)
    case Sleep2(_) => SleepStep(s, p)
    case Sleep3(_) => SleepStep(s, p)
    case Sleep5(_) => SleepStep(s, p)
    case Sleep6(_) => SleepStep(s, p)
    case ForkParent(_) => ForkStep(s, p)
    case ForkRun(_) => ForkStep(s, p)
    case Rep(i) => RepStep(s, p, init, i)
    case RepWake(i, j) => RepWakeStep(s, p, init, i, j)
    case WakeParent(j) => WakeParentStep(s, p, j)
    case _ => DieStep(s, p)
  }

  // A process holds no spin lock, so an interrupt may switch it out.
  predicate Interruptible(pc: Pc) {
    pc.Idle? || pc.Sleep6? || pc.ForkParent? || pc.ForkRun?
  }

  function Step(s: State, p: nat, init: nat, a: Act): Option<State> {
    if p >= |s.procs| then None
    else
      var q := s.procs[p];
      match a
      case Go => if q.st == RUNNING || q.pc == Die3 || q.pc == Die4 then Continue(s, p, init) else None
      case Fail =>
        if q.st == RUNNING && q.pc.Scan? && q.pc.i < |s.procs| && s.procs[q.pc.i].parent == Some(p)
           && !s.procs[q.pc.i].lock && s.procs[q.pc.i].st == ZOMBIE
        then Some(Leave(s, p, WL, Idle)) else None
      case StartAcquire(l) =>
        if q.st == RUNNING && q.pc == Idle && l < |s.locks| && s.locks[l].spin.None?
        then Some(Enter(s, p, SL(l), Acq(l))) else None
      case StartRelease(l) =>
        if q.st == RUNNING && q.pc == Idle && l < |s.locks| && s.locks[l].spin.None? && l in q.held
        then Some(SetLocked(SetProc(SetHolder(s, SL(l), Some(p)), p, q.(pc := Rel(l, 0), held := q.held - {l})),
                            l, false, 0))
        else None
      case StartWait =>
        if q.st == RUNNING && q.pc == Idle && s.wait.None?
        then Some(Enter(s, p, WL, Scan(0, false))) else None
      case StartExit =>
        if q.st == RUNNING && q.pc == Idle && s.wait.None? && p != init
        then Some(Enter(s, p, WL, Rep(0))) else None
      case StartFork(c) =>
        if q.st == RUNNING && q.pc == Idle && c < |s.procs| && s.procs[c].st == UNUSED && !s.procs[c].lock
        then Some(At(SetProc(s, c, Proc(USED, None, None, false, false, New, {})), p, ForkParent(c)))
        else None
      case Preempt =>
        if q.st == RUNNING && !q.lock && Interruptible(q.pc) then Some(SetProc(s, p, q.(st := RUNNABLE))) else None
      case Schedule =>
        if q.st != RUNNABLE || q.lock then None
        else if q.pc.Sleep4? then Some(SetProc(s, p, q.(st := RUNNING, lock := true, pc := Sleep5(q.pc.k))))
        else Some(SetProc(s, p, q.(st := RUNNING, pc := if q.pc == New then Idle else q.pc)))
      case Kill(i) =>
        if i < |s.procs| && !s.procs[i].lock && s.procs[i].st != UNUSED
        then Some(SetProc(s, i, s.procs[i].(killed := true,
                                            st := if s.procs[i].st == SLEEPING then RUNNABLE else s.procs[i].st)))
        else None
  }

  // ---------- invariant ----------

  // The lock, other than p->lock, that a process holds at pc.
  function Needs(pc: Pc): Option<Lk> {
    match pc
    case Acq(l) => Some(SL(l))
    case Rel(l, _) => Some(SL(l))
    case Sleep1(k) => Some(k)
    case Sleep2(k) => Some(k)
    case Scan(_, _) => Some(WL)
    case Rep(_) => Some(WL)
    case RepWake(_, _) => Some(WL)
    case WakeParent(_) => Some(WL)
    case Die1 => Some(WL)
    case Die2 => Some(WL)
    case Die3 => Some(WL)
    case _ => None
  }

  predicate HoldsOwn(pc: Pc) {
    pc.Sleep2? || pc.Sleep3? || pc.Sleep5? || pc.Die2? || pc.Die3? || pc.Die4?
  }

  predicate Exiting(pc: Pc) {
    pc.Rep? || pc.RepWake? || pc.WakeParent? || pc.Die1? || pc.Die2? || pc.Die3? || pc.Die4? || pc.Dead?
  }

  // A process sleeps on the channel that goes with k, or can no longer avoid to.
  predicate Asleep(q: Proc, k: Lk) {
    q.pc == Sleep3(k) || (q.pc == Sleep4(k) && q.st == SLEEPING)
  }

  // The locks a process holds, and its fields, fit its program counter.
  predicate Fits(s: State, init: nat, p: nat)
    requires p < |s.procs|
  {
    var q := s.procs[p];
    && (Needs(q.pc).Some? ==> Holder(s, Needs(q.pc).value) == Some(p))
    && (HoldsOwn(q.pc) ==> q.lock)
    && (q.st == SLEEPING ==> q.pc.Sleep4?)
    && (q.pc.Sleep4? ==> q.chan == Some(ChanOf(q.pc.k, p)))
    && (q.st == ZOMBIE ==> q.pc.Die3? || q.pc.Die4? || q.pc.Dead?)
    && (q.st == UNUSED ==> q.pc == Free)
    && ((q.pc.Sleep3? || q.pc.Sleep4? || q.pc.Sleep5? || q.pc.Sleep6?) && q.pc.k.SL? ==> q.pc.k.l < |s.locks|)
    && q.parent != Some(p)
    && (q.pc.ForkParent? ==> q.pc.c != p && q.pc.c != init)
    && (p == init ==> q.parent == None && q.st != UNUSED && !Exiting(q.pc))
  }

  // releasesleep() has cleared the lock and its wakeup() has still to look at p.
  predicate Waking(s: State, l: nat, p: nat)
    requires l < |s.locks|
  {
    var h := s.locks[l].spin;
    h.Some? && h.value < |s.procs| && s.procs[h.value].pc.Rel? && s.procs[h.value].pc.l == l
    && s.procs[h.value].pc.i <= p
  }

  // A process sleeps on a sleep lock only while it is locked or it is about to be woken.
  ghost predicate LockSide(s: State, p: nat)
    requires p < |s.procs|
  {
    var q := s.procs[p];
    && (q.pc.Sleep1? && q.pc.k.SL? ==> q.pc.k.l < |s.locks| && s.locks[q.pc.k.l].locked)
    && (q.pc.Sleep2? && q.pc.k.SL? ==> q.pc.k.l < |s.locks| && s.locks[q.pc.k.l].locked)
    && ((q.pc.Sleep3? || (q.pc.Sleep4? && q.st == SLEEPING)) && q.pc.k.SL? ==>
          q.pc.k.l < |s.locks| && (s.locks[q.pc.k.l].locked || Waking(s, q.pc.k.l, p)))
    && (forall l: nat :: l in q.held ==> l < |s.locks| && s.locks[l].locked && s.locks[l].owner == p)
  }

  ghost predicate NoZombies(s: State, p: nat, n: nat) {
    forall c: nat :: c < n && c < |s.procs| && s.procs[c].parent == Some(p) ==> s.procs[c].st != ZOMBIE
  }

  // reparent() has given init a child and its wakeup() has still to look at init.
  predicate WakingInit(s: State, init: nat) {
    s.wait.Some? && s.wait.value < |s.procs| && s.procs[s.wait.value].pc.RepWake?
    && s.procs[s.wait.value].pc.j <= init
  }

  // A process sleeps in wait() only while it has no zombie child or it is about to be woken, and
  // the parent of an exiting process is awake once wakeup() has passed it.
  ghost predicate ChildSide(s: State, init: nat, p: nat)
    requires p < |s.procs|
  {
    var q := s.procs[p];
    && (q.pc.Scan? ==> NoZombies(s, p, q.pc.i))
    && (q.pc == Sleep1(WL) || q.pc == Sleep2(WL) ==> NoZombies(s, p, |s.procs|))
    && (Asleep(q, WL) ==> NoZombies(s, p, |s.procs|) || (p == init && WakingInit(s, init)))
    && (q.parent.Some? && q.parent.value < |s.procs|
        && (q.pc.Die1? || q.pc.Die2? || (q.pc.WakeParent? && q.parent.value < q.pc.j)) ==>
          !Asleep(s.procs[q.parent.value], WL))
  }

  ghost predicate Ok(s: State, init: nat, p: nat)
    requires p < |s.procs|
  {
    Fits(s, init, p) && LockSide(s, p) && ChildSide(s, init, p)
  }

  ghost predicate Inv(s: State, init: nat) {
    init < |s.procs| && forall p: nat :: p < |s.procs| ==> Ok(s, init, p)
  }

  // ---------- what single changes keep ----------

  lemma Each(s: State, init: nat, p: nat)
    requires Inv(s, init) && p < |s.procs|
    ensures Fits(s, init, p) && LockSide(s, p) && ChildSide(s, init, p)
  {
    assert Ok(s, init, p);
  }

  // A free lock is taken.
  lemma TakeKeeps(s: State, init: nat, k: Lk, p: nat)
    requires Inv(s, init) && Holder(s, k).None?
    ensures Inv(SetHolder(s, k, Some(p)), init)
  {
    var t := SetHolder(s, k, Some(p));
    forall x: nat | x < |t.procs| ensures Ok(t, init, x) { Each(s, init, x); }
  }

  // A lock is released by a process that is past needing it.
  lemma DropKeeps(s: State, init: nat, k: Lk, p: nat)
    requires Inv(s, init) && Holder(s, k) == Some(p) && p < |s.procs| && Needs(s.procs[p].pc) != Some(k)
    ensures Inv(SetHolder(s, k, None), init)
  {
    var t := SetHolder(s, k, None);
    forall x: nat | x < |t.procs| ensures Ok(t, init, x) { Each(s, init, x); }
  }

  // The wakeups that p has still to do are not skipped by its change from q to r.
  ghost predicate Remembers(s: State, init: nat, q: Proc, r: Proc)
    requires init < |s.procs|
  {
    && (q.pc.Rel? ==> forall x: nat :: x < |s.procs| && q.pc.i <= x && Asleep(s.procs[x], SL(q.pc.l)) ==>
                        r.pc.Rel? && r.pc.l == q.pc.l && r.pc.i <= x)
    && (q.pc.RepWake? && q.pc.j <= init && Asleep(s.procs[init], WL) ==> r.pc.RepWake? && r.pc.j <= init)
  }

  // One process's record changes, without a new zombie or a new parent.
  lemma MoveKeeps(s: State, init: nat, p: nat, r: Proc)
    requires Inv(s, init) && p < |s.procs| && Ok(SetProc(s, p, r), init, p)
    requires r.parent == s.procs[p].parent || r.parent == None
    requires r.st == ZOMBIE ==> s.procs[p].st == ZOMBIE
    requires Asleep(r, WL) ==> Asleep(s.procs[p], WL) || s.wait == Some(p)
    requires Remembers(s, init, s.procs[p], r)
    ensures Inv(SetProc(s, p, r), init)
  {
    var t := SetProc(s, p, r);
    forall x: nat | x < |t.procs| ensures Ok(t, init, x) {
      Each(s, init, x);
      Each(s, init, p);
    }
  }

  // exit() sets ZOMBIE.
  lemma ZombieKeeps(s: State, init: nat, p: nat)
    requires Inv(s, init) && p < |s.procs| && s.procs[p].pc == Die2
    ensures Inv(SetProc(s, p, s.procs[p].(st := ZOMBIE, pc := Die3)), init)
  {
    var t := SetProc(s, p, s.procs[p].(st := ZOMBIE, pc := Die3));
    forall x: nat | x < |t.procs| ensures Ok(t, init, x) {
      Each(s, init, x);
      Each(s, init, p);
    }
  }

  // q becomes the parent of c.
  lemma AdoptKeeps(s: State, init: nat, c: nat, q: nat)
    requires Inv(s, init) && c < |s.procs| && q < |s.procs| && c != q && c != init
    requires Needs(s.procs[c].pc) != Some(WL) && Needs(s.procs[q].pc) != Some(WL)
    requires Asleep(s.procs[q], WL) ==> q == init && WakingInit(s, init)
    ensures Inv(Adopt(s, c, q), init)
  {
    var t := Adopt(s, c, q);
    forall x: nat | x < |t.procs| ensures Ok(t, init, x) {
      Each(s, init, x);
      AdoptChildSide(s, init, c, q, x);
    }
  }

  lemma AdoptChildSide(s: State, init: nat, c: nat, q: nat, x: nat)
    requires x < |s.procs| && c < |s.procs| && q < |s.procs| && ChildSide(s, init, x)
    requires Needs(s.procs[c].pc) != Some(WL) && Needs(s.procs[q].pc) != Some(WL)
    requires Asleep(s.procs[q], WL) ==> q == init && WakingInit(s, init)
    ensures ChildSide(Adopt(s, c, q), init, x)
  {
    var t := Adopt(s, c, q);
    assert x != q ==> forall n :: NoZombies(s, x, n) ==> NoZombies(t, x, n);
  }

  lemma LockKeeps(s: State, init: nat, l: nat, p: nat)
    requires Inv(s, init) && l < |s.locks| && !s.locks[l].locked
    ensures Inv(SetLocked(s, l, true, p), init)
  {
    var t := SetLocked(s, l, true, p);
    forall x: nat | x < |t.procs| ensures Ok(t, init, x) { Each(s, init, x); }
  }

  lemma UnlockKeeps(s: State, init: nat, l: nat, p: nat)
    requires Inv(s, init) && l < |s.locks| && p < |s.procs| && s.procs[p].pc == Rel(l, 0)
    requires s.locks[l].owner == p && l !in s.procs[p].held
    ensures Inv(SetLocked(s, l, false, 0), init)
  {
    var t := SetLocked(s, l, false, 0);
    forall x: nat | x < |t.procs| ensures Ok(t, init, x) {
      Each(s, init, x);
      Each(s, init, p);
    }
  }

  // ---------- what every step keeps ----------

  lemma LeaveKeeps(s: State, init: nat, p: nat, k: Lk, pc: Pc)
    requires Inv(s, init) && p < |s.procs| && Needs(s.procs[p].pc) == Some(k) && Needs(pc) != Some(k)
    requires Ok(At(s, p, pc), init, p) && Remembers(s, init, s.procs[p], s.procs[p].(pc := pc))
    requires Asleep(s.procs[p].(pc := pc), WL) ==> k == WL
    ensures Inv(Leave(s, p, k, pc), init)
  {
    Each(s, init, p);
    MoveKeeps(s, init, p, s.procs[p].(pc := pc));
    DropKeeps(At(s, p, pc), init, k, p);
  }

  lemma EnterKeeps(s: State, init: nat, p: nat, k: Lk, pc: Pc)
    requires Inv(s, init) && p < |s.procs| && Holder(s, k).None? && (k.SL? ==> k.l < |s.locks|)
    requires s.procs[p].st == RUNNING && (s.procs[p].pc == Idle || s.procs[p].pc == Sleep6(k))
    requires (k.SL? && pc == Acq(k.l)) || (k.WL? && pc == Scan(0, false)) || (k.WL? && pc == Rep(0) && p != init)
    ensures Inv(Enter(s, p, k, pc), init)
  {
    hide Inv;
    TakeKeeps(s, init, k, p);
    var t := SetHolder(s, k, Some(p));
    Each(t, init, p);
    MoveKeeps(t, init, p, t.procs[p].(pc := pc));
  }

  lemma AcqKeeps(s: State, init: nat, p: nat, l: nat)
    requires Inv(s, init) && p < |s.procs| && s.procs[p].pc == Acq(l) && s.procs[p].st == RUNNING
    ensures var r := AcqStep(s, p, l); r.Some? ==> Inv(r.value, init)
  {
    hide Inv;
    Each(s, init, p);
    if s.locks[l].locked {
      MoveKeeps(s, init, p, s.procs[p].(pc := Sleep1(SL(l))));
    } else {
      LockKeeps(s, init, l, p);
      var t := SetLocked(s, l, true, p);
      var q := t.procs[p].(pc := Idle, held := t.procs[p].held + {l});
      MoveKeeps(t, init, p, q);
      DropKeeps(SetProc(t, p, q), init, SL(l), p);
    }
  }

  lemma ReleaseKeeps(s: State, init: nat, p: nat, l: nat)
    requires Inv(s, init) && p < |s.procs| && s.procs[p].pc == Idle && s.procs[p].st == RUNNING
    requires l < |s.locks| && s.locks[l].spin.None? && l in s.procs[p].held
    ensures var r := Step(s, p, init, StartRelease(l)); r.Some? && Inv(r.value, init)
  {
    hide Inv;
    Each(s, init, p);
    TakeKeeps(s, init, SL(l), p);
    var t := SetHolder(s, SL(l), Some(p));
    var q := t.procs[p].(pc := Rel(l, 0), held := t.procs[p].held - {l});
    Each(t, init, p);
    MoveKeeps(t, init, p, q);
    UnlockKeeps(SetProc(t, p, q), init, l, p);
  }

  // One turn of wakeup(): after it the process looked at is awake.
  lemma WakeKeeps(s: State, init: nat, p: nat, i: nat, k: Lk, c: Chan)
    requires Inv(s, init) && p < |s.procs| && i < |s.procs| && Needs(s.procs[p].pc).Some?
    requires (k.SL? && c == LockChan(k.l)) || (k == WL && c == ProcChan(i))
    ensures var r := Wake(s, p, i, c);
            r.Some? ==> Inv(r.value, init) && !Asleep(r.value.procs[i], k) && r.value.procs[p] == s.procs[p]
                        && |r.value.procs| == |s.procs|
  {
    hide Inv;
    Each(s, init, i);
    Each(s, init, p);
    if i != p && s.procs[i].st == SLEEPING {
      MoveKeeps(s, init, i, s.procs[i].(st := RUNNABLE));
    }
  }

  lemma RelKeeps(s: State, init: nat, p: nat, l: nat, i: nat)
    requires Inv(s, init) && p < |s.procs| && s.procs[p].pc == Rel(l, i) && s.procs[p].st == RUNNING
    ensures var r := RelStep(s, p, l, i); r.Some? ==> Inv(r.value, init)
  {
    hide Inv, Wake;
    if i >= |s.procs| {
      Each(s, init, p);
      LeaveKeeps(s, init, p, SL(l), Idle);
    } else {
      WakeKeeps(s, init, p, i, SL(l), LockChan(l));
      var r := Wake(s, p, i, LockChan(l));
      if r.Some? { RelMoves(r.value, init, p, l, i); }
    }
  }

  lemma RelMoves(s: State, init: nat, p: nat, l: nat, i: nat)
    requires Inv(s, init) && p < |s.procs| && s.procs[p].pc == Rel(l, i) && s.procs[p].st == RUNNING
    requires i < |s.procs| && !Asleep(s.procs[i], SL(l))
    ensures Inv(At(s, p, Rel(l, i + 1)), init)
  {
    hide Inv;
    Each(s, init, p);
    MoveKeeps(s, init, p, s.procs[p].(pc := Rel(l, i + 1)));
  }

  lemma SleepKeeps(s: State, init: nat, p: nat)
    requires Inv(s, init) && p < |s.procs| && s.procs[p].st == RUNNING
    ensures var r := SleepStep(s, p); r.Some? ==> Inv(r.value, init)
  {
    hide Inv;
    var q := s.procs[p];
    match q.pc
    case Sleep1(k) =>
      Each(s, init, p);
      if !q.lock { MoveKeeps(s, init, p, q.(lock := true, pc := Sleep2(k))); }
    case Sleep2(k) => SleepReleases(s, init, p, k);
    case Sleep3(k) =>
      Each(s, init, p);
      MoveKeeps(s, init, p, q.(chan := Some(ChanOf(k, p)), st := SLEEPING, lock := false, pc := Sleep4(k)));
    case Sleep5(k) =>
      Each(s, init, p);
      MoveKeeps(s, init, p, q.(chan := None, lock := false, pc := Sleep6(k)));
    case Sleep6(k) => SleepReturns(s, init, p, k);
    case _ =>
  }

  lemma SleepReleases(s: State, init: nat, p: nat, k: Lk)
    requires Inv(s, init) && p < |s.procs| && s.procs[p].st == RUNNING && s.procs[p].pc == Sleep2(k)
    ensures Inv(Leave(s, p, k, Sleep3(k)), init)
  {
    hide Inv;
    Each(s, init, p);
    LeaveKeeps(s, init, p, k, Sleep3(k));
  }

  lemma SleepReturns(s: State, init: nat, p: nat, k: Lk)
    requires Inv(s, init) && p < |s.procs| && s.procs[p].st == RUNNING && s.procs[p].pc == Sleep6(k)
    ensures Holder(s, k).None? ==> Inv(Enter(s, p, k, if k.SL? then Acq(k.l) else Scan(0, false)), init)
  {
    hide Inv;
    Each(s, init, p);
    if Holder(s, k).None? { EnterKeeps(s, init, p, k, if k.SL? then Acq(k.l) else Scan(0, false)); }
  }

  // wait() gives up.
  lemma FailKeeps(s: State, init: nat, p: nat)
    requires Inv(s, init) && p < |s.procs| && s.procs[p].st == RUNNING && s.procs[p].pc.Scan?
    ensures Inv(Leave(s, p, WL, Idle), init)
  {
    hide Inv;
    Each(s, init, p);
    LeaveKeeps(s, init, p, WL, Idle);
  }

  // freeproc() of a zombie: it no longer runs.
  lemma ReapKeeps(s: State, init: nat, p: nat, i: nat)
    requires Inv(s, init) && i < |s.procs| && s.procs[i].st == ZOMBIE && !s.procs[i].lock
    requires p < |s.procs| && s.procs[p].pc.Scan?
    ensures var t := SetProc(s, i, Proc(UNUSED, None, None, false, false, Free, {}));
            Inv(t, init) && t.procs[p] == s.procs[p]
  {
    hide Inv;
    Each(s, init, i);
    MoveKeeps(s, init, i, Proc(UNUSED, None, None, false, false, Free, {}));
  }

  lemma ScanKeeps(s: State, init: nat, p: nat, i: nat, kids: bool)
    requires Inv(s, init) && p < |s.procs| && s.procs[p].pc == Scan(i, kids) && s.procs[p].st == RUNNING
    ensures var r := ScanStep(s, p, i, kids); r.Some? ==> Inv(r.value, init)
  {
    hide Inv, Ok, Leave;
    if i >= |s.procs| {
      if !kids || s.procs[p].killed {
        FailKeeps(s, init, p);
      } else {
        ScanMoves(s, init, p, i, kids);
      }
    } else if s.procs[i].parent != Some(p) {
      ScanMoves(s, init, p, i, kids);
    } else if !s.procs[i].lock {
      if s.procs[i].st == ZOMBIE {
        ReapKeeps(s, init, p, i);
        FailKeeps(SetProc(s, i, Proc(UNUSED, None, None, false, false, Free, {})), init, p);
      } else {
        ScanMoves(s, init, p, i, true);
      }
    }
  }

  lemma ScanMoves(s: State, init: nat, p: nat, i: nat, kids: bool)
    requires Inv(s, init) && p < |s.procs| && s.procs[p].pc.Scan? && s.procs[p].pc.i == i
    requires s.procs[p].st == RUNNING
    ensures i >= |s.procs| ==> Inv(At(s, p, Sleep1(WL)), init)
    ensures i < |s.procs| && (s.procs[i].parent == Some(p) ==> s.procs[i].st != ZOMBIE) ==>
              Inv(At(s, p, Scan(i + 1, kids)), init)
  {
    hide Inv;
    Each(s, init, p);
    if i >= |s.procs| {
      MoveKeeps(s, init, p, s.procs[p].(pc := Sleep1(WL)));
    } else if s.procs[i].parent == Some(p) ==> s.procs[i].st != ZOMBIE {
      MoveKeeps(s, init, p, s.procs[p].(pc := Scan(i + 1, kids)));
    }
  }

  lemma RepKeeps(s: State, init: nat, p: nat, i: nat)
    requires Inv(s, init) && init < |s.procs| && p < |s.procs| && s.procs[p].pc == Rep(i)
    ensures var r := RepStep(s, p, init, i); r.Some? ==> Inv(r.value, init)
  {
    hide Inv;
    Each(s, init, p);
    if i >= |s.procs| {
      MoveKeeps(s, init, p, s.procs[p].(pc := WakeParent(0)));
    } else if s.procs[i].parent != Some(p) {
      MoveKeeps(s, init, p, s.procs[p].(pc := Rep(i + 1)));
    } else {
      MoveKeeps(s, init, p, s.procs[p].(pc := RepWake(i, 0)));
      Each(s, init, i);
      Each(s, init, init);
      AdoptKeeps(At(s, p, RepWake(i, 0)), init, i, init);
    }
  }

  lemma RepWakeKeeps(s: State, init: nat, p: nat, i: nat, j: nat)
    requires Inv(s, init) && init < |s.procs| && p < |s.procs| && s.procs[p].pc == RepWake(i, j)
    ensures var r := RepWakeStep(s, p, init, i, j); r.Some? ==> Inv(r.value, init)
  {
    hide Inv;
    Each(s, init, p);
    if j >= |s.procs| {
      MoveKeeps(s, init, p, s.procs[p].(pc := Rep(i + 1)));
    } else {
      WakeAnyKeeps(s, init, p, j, init);
      var r := Wake(s, p, j, ProcChan(init));
      if r.Some? {
        Each(r.value, init, p);
        MoveKeeps(r.value, init, p, s.procs[p].(pc := RepWake(i, j + 1)));
      }
    }
  }

  // One turn of wakeup(q) on process j: q is awake once it has been looked at.
  lemma WakeAnyKeeps(s: State, init: nat, p: nat, j: nat, q: nat)
    requires Inv(s, init) && p < |s.procs| && j < |s.procs| && Needs(s.procs[p].pc) == Some(WL)
    ensures var r := Wake(s, p, j, ProcChan(q));
            r.Some? ==> Inv(r.value, init) && (j == q ==> !Asleep(r.value.procs[j], WL))
                        && r.value.procs[p] == s.procs[p] && |r.value.procs| == |s.procs|
                        && (j != q ==> r.value == s)
  {
    hide Inv;
    Each(s, init, j);
    if j == q { WakeKeeps(s, init, p, j, WL, ProcChan(j)); }
  }

  lemma WakeParentKeeps(s: State, init: nat, p: nat, j: nat)
    requires Inv(s, init) && init < |s.procs| && p < |s.procs| && s.procs[p].pc == WakeParent(j)
    ensures var r := WakeParentStep(s, p, j); r.Some? ==> Inv(r.value, init)
  {
    hide Inv;
    Each(s, init, p);
    if j >= |s.procs| {
      MoveKeeps(s, init, p, s.procs[p].(pc := Die1));
    } else if s.procs[p].parent.None? {
      MoveKeeps(s, init, p, s.procs[p].(pc := WakeParent(j + 1)));
    } else {
      WakeAnyKeeps(s, init, p, j, s.procs[p].parent.value);
      var r := Wake(s, p, j, ProcChan(s.procs[p].parent.value));
      if r.Some? {
        Each(r.value, init, p);
        MoveKeeps(r.value, init, p, s.procs[p].(pc := WakeParent(j + 1)));
      }
    }
  }

  lemma DieKeeps(s: State, init: nat, p: nat)
    requires Inv(s, init) && init < |s.procs| && p < |s.procs|
    ensures var r := DieStep(s, p); r.Some? ==> Inv(r.value, init)
  {
    hide Inv;
    Each(s, init, p);
    var q := s.procs[p];
    match q.pc
    case Die1 => if !q.lock { MoveKeeps(s, init, p, q.(lock := true, pc := Die2)); }
    case Die2 => ZombieKeeps(s, init, p);
    case Die3 => LeaveKeeps(s, init, p, WL, Die4);
    case Die4 => MoveKeeps(s, init, p, q.(lock := false, pc := Dead));
    case _ =>
  }

  lemma ForkRunKeeps(s: State, init: nat, p: nat, c: nat)
    requires Inv(s, init) && p < |s.procs| && s.procs[p].st == RUNNING && s.procs[p].pc == ForkRun(c)
    requires c < |s.procs|
    ensures Inv(At(SetProc(s, c, s.procs[c].(st := RUNNABLE)), p, Idle), init)
  {
    hide Inv;
    Each(s, init, c);
    MoveKeeps(s, init, c, s.procs[c].(st := RUNNABLE));
    var t := SetProc(s, c, s.procs[c].(st := RUNNABLE));
    Each(t, init, p);
    MoveKeeps(t, init, p, t.procs[p].(pc := Idle));
  }

  lemma ForkKeeps(s: State, init: nat, p: nat)
    requires Inv(s, init) && init < |s.procs| && p < |s.procs| && s.procs[p].st == RUNNING
    ensures var r := ForkStep(s, p); r.Some? ==> Inv(r.value, init)
  {
    hide Inv;
    Each(s, init, p);
    match s.procs[p].pc
    case ForkParent(c) =>
      if s.wait.None? && c < |s.procs| {
        MoveKeeps(s, init, p, s.procs[p].(pc := ForkRun(c)));
        Each(s, init, c);
        AdoptKeeps(At(s, p, ForkRun(c)), init, c, p);
      }
    case ForkRun(c) => if c < |s.procs| { ForkRunKeeps(s, init, p, c); }
    case _ =>
  }

  lemma ContinueKeeps(s: State, init: nat, p: nat)
    requires Inv(s, init) && init < |s.procs| && p < |s.procs|
    requires s.procs[p].st == RUNNING || s.procs[p].pc == Die3 || s.procs[p].pc == Die4
    ensures var r := Continue(s, p, init); r.Some? ==> Inv(r.value, init)
  {
    hide Inv, AcqStep, RelStep, ScanStep, SleepStep, ForkStep, RepStep, RepWakeStep, WakeParentStep, DieStep;
    match s.procs[p].pc
    case Acq(l) => AcqKeeps(s, init, p, l);
    case Rel(l, i) => RelKeeps(s, init, p, l, i);
    case Scan(i, kids) => ScanKeeps(s, init, p, i, kids);
    case Sleep1(_) => SleepKeeps(s, init, p);
    case Sleep2(_) => SleepKeeps(s, init, p);
    case Sleep3(_) => SleepKeeps(s, init, p);
    case Sleep5(_) => SleepKeeps(s, init, p);
    case Sleep6(_) => SleepKeeps(s, init, p);
    case ForkParent(_) => ForkKeeps(s, init, p);
    case ForkRun(_) => ForkKeeps(s, init, p);
    case Rep(i) => RepKeeps(s, init, p, i);
    case RepWake(i, j) => RepWakeKeeps(s, init, p, i, j);
    case WakeParent(j) => WakeParentKeeps(s, init, p, j);
    case _ => DieKeeps(s, init, p);
  }

  lemma StartForkKeeps(s: State, init: nat, p: nat, c: nat)
    requires Inv(s, init) && init < |s.procs| && p < |s.procs|
    ensures var r := Step(s, p, init, StartFork(c)); r.Some? ==> Inv(r.value, init)
  {
    hide Inv;
    Each(s, init, p);
    if s.procs[p].st == RUNNING && s.procs[p].pc == Idle && c < |s.procs| && s.procs[c].st == UNUSED
       && !s.procs[c].lock
    {
      Each(s, init, c);
      var r := Proc(USED, None, None, false, false, New, {});
      MoveKeeps(s, init, c, r);
      var t := SetProc(s, c, r);
      Each(t, init, p);
      MoveKeeps(t, init, p, t.procs[p].(pc := ForkParent(c)));
    }
  }

  lemma ScheduleKeeps(s: State, init: nat, p: nat)
    requires Inv(s, init) && init < |s.procs| && p < |s.procs|
    ensures var r := Step(s, p, init, Schedule); r.Some? ==> Inv(r.value, init)
    ensures var r := Step(s, p, init, Preempt); r.Some? ==> Inv(r.value, init)
  {
    hide Inv;
    Each(s, init, p);
    var q := s.procs[p];
    if q.st == RUNNABLE && !q.lock {
      if q.pc.Sleep4? {
        MoveKeeps(s, init, p, q.(st := RUNNING, lock := true, pc := Sleep5(q.pc.k)));
      } else {
        MoveKeeps(s, init, p, q.(st := RUNNING, pc := if q.pc == New then Idle else q.pc));
      }
    } else if q.st == RUNNING && !q.lock && Interruptible(q.pc) {
      MoveKeeps(s, init, p, q.(st := RUNNABLE));
    }
  }

  lemma KillKeeps(s: State, init: nat, p: nat, i: nat)
    requires Inv(s, init) && init < |s.procs|
    ensures var r := Step(s, p, init, Kill(i)); r.Some? ==> Inv(r.value, init)
  {
    hide Inv;
    if i < |s.procs| && !s.procs[i].lock && s.procs[i].st != UNUSED {
      Each(s, init, i);
      var q := s.procs[i];
      MoveKeeps(s, init, i, q.(killed := true, st := if q.st == SLEEPING then RUNNABLE else q.st));
    }
  }

  // Every step of every process keeps the invariant.
  lemma StepKeeps(s: State, init: nat, p: nat, a: Act)
    requires Inv(s, init)
    ensures var r := Step(s, p, init, a); r.Some? ==> Inv(r.value, init)
  {
    assert init < |s.procs|;
    hide Inv, Continue, Ok;
    if p < |s.procs| {
      var q := s.procs[p];
      match a
      case Go => if q.st == RUNNING || q.pc == Die3 || q.pc == Die4 { ContinueKeeps(s, init, p); }
      case Fail => if Step(s, p, init, a).Some? { FailKeeps(s, init, p); }
      case StartAcquire(l) =>
        if Step(s, p, init, a).Some? { EnterKeeps(s, init, p, SL(l), Acq(l)); }
      case StartRelease(l) => if Step(s, p, init, a).Some? { ReleaseKeeps(s, init, p, l); }
      case StartWait => if Step(s, p, init, a).Some? { EnterKeeps(s, init, p, WL, Scan(0, false)); }
      case StartExit => if Step(s, p, init, a).Some? { EnterKeeps(s, init, p, WL, Rep(0)); }
      case StartFork(c) => StartForkKeeps(s, init, p, c);
      case Preempt => ScheduleKeeps(s, init, p);
      case Schedule => ScheduleKeeps(s, init, p);
      case Kill(i) => KillKeeps(s, init, p, i);
    }
  }

  // ---------- whole runs ----------

  // After userinit(): one process, RUNNABLE, and every lock free.
  ghost predicate Start(s: State, init: nat) {
    && init < |s.procs| && s.wait == None
    && s.procs[init] == Proc(RUNNABLE, None, None, false, false, New, {})
    && (forall p: nat :: p < |s.procs| && p != init ==>
          s.procs[p] == Proc(UNUSED, None, None, false, false, Free, {}))
    && (forall l: nat :: l < |s.locks| ==> s.locks[l] == SleepLock(None, false, 0))
  }

  ghost predicate Next(s: State, t: State, init: nat) {
    exists p: nat, a: Act :: Step(s, p, init, a) == Some(t)
  }

  ghost predicate IsRun(run: seq<State>, init: nat) {
    |run| > 0 && Start(run[0], init) && forall i: nat :: i + 1 < |run| ==> Next(run[i], run[i + 1], init)
  }

  lemma {:induction false} RunKeeps(run: seq<State>, init: nat, i: nat)
    requires IsRun(run, init) && i < |run|
    ensures Inv(run[i], init)
  {
    if i > 0 {
      RunKeeps(run, init, i - 1);
      assert Next(run[i - 1], run[i - 1 + 1], init);
      var p, a :| Step(run[i - 1], p, init, a) == Some(run[i]);
      StepKeeps(run[i - 1], init, p, a);
    }
  }

  // At most one process has a sleep lock.
  lemma MutualExclusion(run: seq<State>, init: nat, i: nat, p: nat, q: nat, l: nat)
    requires IsRun(run, init) && i < |run| && p < |run[i].procs| && q < |run[i].procs|
    requires l in run[i].procs[p].held && l in run[i].procs[q].held
    ensures p == q && l < |run[i].locks| && run[i].locks[l].locked && run[i].locks[l].owner == p
  {
    RunKeeps(run, init, i);
    Each(run[i], init, p);
    Each(run[i], init, q);
  }

  // No wakeup is lost: while a sleep lock and its spin lock are free, no process sleeps on it.
  lemma NoLostWakeup(run: seq<State>, init: nat, i: nat, p: nat, l: nat)
    requires IsRun(run, init) && i < |run| && p < |run[i].procs| && l < |run[i].locks|
    requires run[i].locks[l].spin.None? && !run[i].locks[l].locked
    ensures !(run[i].procs[p].st == SLEEPING && run[i].procs[p].chan == Some(LockChan(l)))
    ensures !Asleep(run[i].procs[p], SL(l))
  {
    RunKeeps(run, init, i);
    Each(run[i], init, p);
  }

  // No exit is missed: while wait_lock is free, no process sleeps in wait() with a zombie child.
  lemma NoLostExit(run: seq<State>, init: nat, i: nat, p: nat, c: nat)
    requires IsRun(run, init) && i < |run| && p < |run[i].procs| && c < |run[i].procs|
    requires run[i].wait.None? && run[i].procs[c].parent == Some(p) && run[i].procs[c].st == ZOMBIE
    ensures !(run[i].procs[p].st == SLEEPING && run[i].procs[p].chan == Some(ProcChan(p)))
    ensures !Asleep(run[i].procs[p], WL)
  {
    RunKeeps(run, init, i);
    Each(run[i], init, p);
  }

  // wait() frees only a process that has left its kernel stack, and never init.
  lemma ReapedIsDead(run: seq<State>, init: nat, i: nat, c: nat)
    requires IsRun(run, init) && i < |run| && c < |run[i].procs|
    requires run[i].procs[c].st == ZOMBIE && !run[i].procs[c].lock
    ensures run[i].procs[c].pc == Dead && c != init
  {
    RunKeeps(run, init, i);
    Each(run[i], init, c);
  }
}
