/**
 The locks of sleep(), wakeup(), wait(), exit(), fork(), acquiresleep() and releasesleep() never
 deadlock (kernel/proc.c, kernel/sleeplock.c).
 */
module SleepProgress {
  import opened Options
  import opened SleepWakeup
  import opened SleepLaws

  // ---------- who holds what ----------

  // Within an operation and not switched out.
  predicate Busy(pc: Pc) {
    (Needs(pc).Some? && !pc.Die3?) || pc.Sleep3? || pc.Sleep5?
  }

  // A process has its own lock exactly at these points, and its state fits its program counter.
  predicate Sits(q: Proc) {
    && (q.lock <==> HoldsOwn(q.pc))
    && (Busy(q.pc) ==> q.st == RUNNING)
    && (Interruptible(q.pc) ==> q.st == RUNNING || q.st == RUNNABLE)
    && (q.pc.Sleep4? ==> q.st == SLEEPING || q.st == RUNNABLE)
    && (q.pc.New? ==> q.st == USED || q.st == RUNNABLE)
    && (q.pc.Die3? || q.pc.Die4? || q.pc.Dead? ==> q.st == ZOMBIE)
    && (q.pc.Free? ==> q.st == UNUSED)
  }

  // Whoever has a lock is where it needs it.
  ghost predicate HeldByNeed(s: State, k: Lk) {
    Holder(s, k).Some? ==>
      Holder(s, k).value < |s.procs| && Needs(s.procs[Holder(s, k).value].pc) == Some(k)
  }

  ghost predicate Orderly(s: State) {
    && (forall p: nat :: p < |s.procs| ==> Sits(s.procs[p]))
    && (forall k: Lk :: HeldByNeed(s, k))
  }

  // ---------- what every step keeps ----------

  lemma TouchedSits(x: Proc, y: Proc, q: nat, init: nat)
    requires Sits(x) && Touched(x, y, q, init)
    ensures Sits(y) && (Needs(x.pc).Some? ==> y.pc == x.pc)
  {
  }

  // The locks that q has after its step are those it needs there, and it takes none from others.
  ghost predicate OwnLocks(s: State, t: State, q: nat)
    requires q < |s.procs| == |t.procs|
  {
    && Sits(t.procs[q])
    && forall k: Lk :: OwnLock(s, t, q, k)
  }

  predicate OwnLock(s: State, t: State, q: nat, k: Lk)
    requires q < |s.procs| == |t.procs|
  {
    && (Holder(t, k) == Holder(s, k) || Holder(t, k) == None || Holder(t, k) == Some(q))
    && (Holder(t, k) == Some(q) ==> Needs(t.procs[q].pc) == Some(k))
  }

  lemma OwnKeeps(s: State, t: State, q: nat, init: nat)
    requires Orderly(s) && q < |s.procs| == |t.procs| && OwnLocks(s, t, q) && TouchesOnly(s, t, q, init)
    ensures Orderly(t)
  {
    forall p: nat | p < |t.procs| ensures Sits(t.procs[p]) {
      if p != q { TouchedSits(s.procs[p], t.procs[p], q, init); }
    }
    forall k: Lk ensures HeldByNeed(t, k) {
      assert OwnLock(s, t, q, k) && HeldByNeed(s, k);
      if Holder(t, k).Some? && Holder(t, k).value != q {
        var h := Holder(t, k).value;
        TouchedSits(s.procs[h], t.procs[h], q, init);
      }
    }
  }

  lemma Facts(s: State, q: nat)
    requires Orderly(s) && q < |s.procs|
    ensures Sits(s.procs[q]) && forall k: Lk :: Holder(s, k) == Some(q) ==> Needs(s.procs[q].pc) == Some(k)
  {
    forall k: Lk | Holder(s, k) == Some(q) ensures Needs(s.procs[q].pc) == Some(k) { assert HeldByNeed(s, k); }
  }

  lemma SleepOwns(s: State, q: nat)
    requires Orderly(s) && q < |s.procs| && s.procs[q].st == RUNNING
    ensures var r := SleepStep(s, q); r.Some? ==> |r.value.procs| == |s.procs| && OwnLocks(s, r.value, q)
  {
    Facts(s, q);
    hide Orderly;
  }

  lemma ScanOwns(s: State, q: nat, i: nat, kids: bool)
    requires Orderly(s) && q < |s.procs| && s.procs[q].pc == Scan(i, kids) && !IsChild(s, q, q)
    ensures var r := ScanStep(s, q, i, kids); r.Some? ==> |r.value.procs| == |s.procs| && OwnLocks(s, r.value, q)
  {
    Facts(s, q);
    hide Orderly;
  }

  lemma WakeOwns(s: State, q: nat, i: nat, c: Chan, pc: Pc)
    requires Orderly(s) && q < |s.procs| && i < |s.procs| && s.procs[q].st == RUNNING
    requires Needs(s.procs[q].pc).Some? && Needs(pc) == Needs(s.procs[q].pc) && HoldsOwn(pc) == HoldsOwn(s.procs[q].pc)
    requires !pc.Die3?
    ensures var r := Bind(Wake(s, q, i, c), q, pc); r.Some? ==> |r.value.procs| == |s.procs| && OwnLocks(s, r.value, q)
  {
    Facts(s, q);
    hide Orderly;
  }

  lemma AcqOwns(s: State, q: nat, l: nat)
    requires Orderly(s) && q < |s.procs| && s.procs[q].pc == Acq(l)
    ensures var r := AcqStep(s, q, l); r.Some? ==> |r.value.procs| == |s.procs| && OwnLocks(s, r.value, q)
  {
    Facts(s, q);
    hide Orderly;
  }

  lemma RepOwns(s: State, q: nat, init: nat, i: nat)
    requires Orderly(s) && q < |s.procs| && s.procs[q].parent != Some(q) && s.procs[q].pc == Rep(i)
    ensures var r := RepStep(s, q, init, i); r.Some? ==> |r.value.procs| == |s.procs| && OwnLocks(s, r.value, q)
  {
    Facts(s, q);
    hide Orderly;
  }

  lemma DieOwns(s: State, q: nat)
    requires Orderly(s) && q < |s.procs|
    ensures var r := DieStep(s, q); r.Some? ==> |r.value.procs| == |s.procs| && OwnLocks(s, r.value, q)
  {
    Facts(s, q);
    hide Orderly;
  }

  lemma ForkOwns(s: State, q: nat)
    requires Orderly(s) && q < |s.procs| && s.procs[q].st == RUNNING
    requires Forks(s.procs[q].pc).Some? && Forks(s.procs[q].pc) != Some(q)
    ensures var r := ForkStep(s, q); r.Some? ==> |r.value.procs| == |s.procs| && OwnLocks(s, r.value, q)
  {
    Facts(s, q);
    hide Orderly;
  }

  lemma ContinueOwns(s: State, init: nat, q: nat)
    requires Orderly(s) && Inv(s, init) && Family(s, init) && q < |s.procs|
    requires s.procs[q].st == RUNNING || s.procs[q].pc == Die3 || s.procs[q].pc == Die4
    ensures var r := Continue(s, q, init); r.Some? ==> |r.value.procs| == |s.procs| && OwnLocks(s, r.value, q)
  {
    hide Orderly, Inv, Family, AcqStep, ScanStep, SleepStep, RepStep, DieStep, ForkStep, Wake, OwnLocks, Bind;
    hide LockSide, ChildSide, At, Leave;
    Each(s, init, q);
    if s.procs[q].st == RUNNING { NotItsOwn(s, init, q); }
    match s.procs[q].pc
    case Rel(l, i) =>
      if i < |s.procs| { WakeOwns(s, q, i, LockChan(l), Rel(l, i + 1)); } else { LeaveOwns(s, q, SL(l)); }
    case Scan(i, kids) => ScanOwns(s, q, i, kids);
    case RepWake(i, j) =>
      if j < |s.procs| { WakeOwns(s, q, j, ProcChan(init), RepWake(i, j + 1)); } else { MoveOwns(s, q, Rep(i + 1)); }
    case WakeParent(j) =>
      if j >= |s.procs| {
        MoveOwns(s, q, Die1);
      } else if s.procs[q].parent.None? {
        MoveOwns(s, q, WakeParent(j + 1));
      } else {
        WakeOwns(s, q, j, ProcChan(s.procs[q].parent.value), WakeParent(j + 1));
      }
    case ForkParent(c) => ForkOwns(s, q);
    case ForkRun(c) => ForkOwns(s, q);
    case Acq(l) => AcqOwns(s, q, l);
    case Rep(i) => RepOwns(s, q, init, i);
    case Sleep1(_) => SleepOwns(s, q);
    case Sleep2(_) => SleepOwns(s, q);
    case Sleep3(_) => SleepOwns(s, q);
    case Sleep5(_) => SleepOwns(s, q);
    case Sleep6(_) => SleepOwns(s, q);
    case _ => DieOwns(s, q);
  }

  lemma MoveOwns(s: State, q: nat, pc: Pc)
    requires Orderly(s) && q < |s.procs| && s.procs[q].st == RUNNING && !pc.Die3?
    requires Needs(s.procs[q].pc).Some? && Needs(pc) == Needs(s.procs[q].pc) && HoldsOwn(pc) == HoldsOwn(s.procs[q].pc)
    ensures |At(s, q, pc).procs| == |s.procs| && OwnLocks(s, At(s, q, pc), q)
  {
    Facts(s, q);
    hide Orderly;
  }

  lemma LeaveOwns(s: State, q: nat, k: Lk)
    requires Orderly(s) && q < |s.procs| && s.procs[q].st == RUNNING && Needs(s.procs[q].pc) == Some(k)
    requires !HoldsOwn(s.procs[q].pc) && Holder(s, k) == Some(q)
    ensures |Leave(s, q, k, Idle).procs| == |s.procs| && OwnLocks(s, Leave(s, q, k, Idle), q)
  {
    Facts(s, q);
    hide Orderly;
  }

  lemma NotItsOwn(s: State, init: nat, q: nat)
    requires Inv(s, init) && Family(s, init) && q < |s.procs| && s.procs[q].st == RUNNING
    ensures Forks(s.procs[q].pc) != Some(q)
  {
    OfFamily(s, init, q);
  }

  lemma SwitchOwns(s: State, init: nat, q: nat, a: Act)
    requires Orderly(s) && (a.StartFork? || a.Preempt? || a.Schedule? || a.Kill?)
    ensures var r := Step(s, q, init, a);
            r.Some? ==> q < |s.procs| && |r.value.procs| == |s.procs| && OwnLocks(s, r.value, q)
  {
    if q < |s.procs| { Facts(s, q); }
    hide Orderly, Continue;
  }

  lemma StartOwns(s: State, init: nat, q: nat, a: Act)
    requires Orderly(s) && (a.Fail? || a.StartAcquire? || a.StartRelease? || a.StartWait? || a.StartExit?)
    ensures var r := Step(s, q, init, a);
            r.Some? ==> q < |s.procs| && |r.value.procs| == |s.procs| && OwnLocks(s, r.value, q)
  {
    if q < |s.procs| { Facts(s, q); }
    hide Orderly, Continue;
  }

  lemma StepOrderly(s: State, init: nat, q: nat, a: Act)
    requires Orderly(s) && Inv(s, init) && Family(s, init)
    ensures var r := Step(s, q, init, a); r.Some? ==> Orderly(r.value)
  {
    hide Orderly, Inv, Family, Step, OwnLocks, TouchesOnly;
    var r := Step(s, q, init, a);
    if r.Some? {
      Interference(s, q, init, a);
      if a == Go {
        GoContinues(s, init, q, r.value);
        ContinueOwns(s, init, q);
      } else if a.StartFork? || a.Preempt? || a.Schedule? || a.Kill? {
        SwitchOwns(s, init, q, a);
      } else {
        StartOwns(s, init, q, a);
      }
      OwnKeeps(s, r.value, q, init);
    }
  }

  lemma {:induction false} RunOrderly(run: seq<State>, init: nat, n: nat)
    requires IsRun(run, init) && n < |run|
    ensures Orderly(run[n]) && Inv(run[n], init) && Family(run[n], init)
  {
    hide Inv, Family, Step;
    RunFamily(run, init, n);
    if n > 0 {
      RunOrderly(run, init, n - 1);
      assert Next(run[n - 1], run[n - 1 + 1], init);
      hide Orderly;
      var p, a :| Step(run[n - 1], p, init, a) == Some(run[n]);
      StepOrderly(run[n - 1], init, p, a);
    }
  }

  // ---------- progress ----------

  predicate CanGo(s: State, p: nat, init: nat) {
    Step(s, p, init, Go).Some?
  }

  // The lock that p is about to acquire in an operation, as the process whose own lock it is.
  function OwnWanted(s: State, p: nat): Option<nat>
    requires p < |s.procs|
  {
    match s.procs[p].pc
    case Rel(_, i) => if i < |s.procs| && i != p then Some(i) else None
    case RepWake(_, j) => if j < |s.procs| && j != p then Some(j) else None
    case WakeParent(j) => if j < |s.procs| && j != p && s.procs[p].parent.Some? then Some(j) else None
    case Scan(i, _) => if i < |s.procs| && s.procs[i].parent == Some(p) then Some(i) else None
    case ForkRun(c) => Some(c)
    case _ => None
  }

  // h has the lock that p waits for.
  predicate Blocks(s: State, h: nat, p: nat)
    requires p < |s.procs|
  {
    && h < |s.procs| && h != p
    && ((OwnWanted(s, p) == Some(h) && s.procs[h].lock)
        || (s.procs[p].pc.Sleep6? && Holder(s, s.procs[p].pc.k) == Some(h))
        || (s.procs[p].pc.ForkParent? && s.wait == Some(h)))
  }

  // A process that has its own lock can go on.
  lemma OwnerGoes(s: State, init: nat, h: nat)
    requires h < |s.procs| && Sits(s.procs[h]) && s.procs[h].lock
    ensures CanGo(s, h, init)
  {
  }

  // A process that runs in an operation can go on, or waits for a lock that another has.
  lemma GoesOrWaits(s: State, init: nat, p: nat)
    requires Orderly(s) && Inv(s, init) && Family(s, init) && p < |s.procs|
    requires s.procs[p].st == RUNNING && s.procs[p].pc != Idle
    ensures CanGo(s, p, init) || exists h: nat :: Blocks(s, h, p)
  {
    hide Inv, Family;
    Each(s, init, p);
    OfFamily(s, init, p);
    assert Sits(s.procs[p]);
    match s.procs[p].pc
    case Rel(_, i) => assert CanGo(s, p, init) || Blocks(s, i, p);
    case RepWake(_, j) => assert CanGo(s, p, init) || Blocks(s, j, p);
    case WakeParent(j) => assert CanGo(s, p, init) || Blocks(s, j, p);
    case Scan(i, _) => assert CanGo(s, p, init) || Blocks(s, i, p);
    case ForkRun(c) => assert CanGo(s, p, init) || Blocks(s, c, p);
    case Sleep6(k) =>
      assert HeldByNeed(s, k);
      assert CanGo(s, p, init) || Blocks(s, Holder(s, k).value, p);
    case ForkParent(_) =>
      assert HeldByNeed(s, WL);
      assert CanGo(s, p, init) || Blocks(s, s.wait.value, p);
    case _ =>
  }

  // Whoever has the lock can go on, or waits for a process that can.
  lemma HolderGoes(s: State, init: nat, h: nat, p: nat)
    requires Orderly(s) && Inv(s, init) && Family(s, init) && p < |s.procs| && Blocks(s, h, p)
    ensures CanGo(s, h, init) || exists i: nat :: Blocks(s, i, h) && CanGo(s, i, init)
  {
    hide Inv, Family, CanGo;
    assert Sits(s.procs[h]);
    if s.procs[h].lock {
      OwnerGoes(s, init, h);
    } else {
      assert HeldByNeed(s, if s.procs[p].pc.Sleep6? then s.procs[p].pc.k else WL);
      GoesOrWaits(s, init, h);
      if i: nat :| Blocks(s, i, h) { OwnerGoes(s, init, i); }
    }
  }

  // In every reachable state a process that runs in an operation can go on, or a process whose lock
  // it waits for can, or one whose lock that one waits for.
  lemma NoDeadlock(run: seq<State>, init: nat, n: nat, p: nat)
    requires IsRun(run, init) && n < |run| && p < |run[n].procs|
    requires run[n].procs[p].st == RUNNING && run[n].procs[p].pc != Idle
    ensures || CanGo(run[n], p, init)
            || exists h: nat :: Blocks(run[n], h, p)
                 && (CanGo(run[n], h, init) || exists i: nat :: Blocks(run[n], i, h) && CanGo(run[n], i, init))
  {
    RunOrderly(run, init, n);
    hide Inv, Family, Orderly, CanGo, Blocks, IsRun;
    GoesOrWaits(run[n], init, p);
    if h: nat :| Blocks(run[n], h, p) { HolderGoes(run[n], init, h, p); }
  }

  // In every reachable state a RUNNABLE process can be scheduled, and an exiting one goes on to the end.
  lemma CanRun(run: seq<State>, init: nat, n: nat, p: nat)
    requires IsRun(run, init) && n < |run| && p < |run[n].procs|
    ensures run[n].procs[p].st == RUNNABLE ==> Step(run[n], p, init, Schedule).Some?
    ensures run[n].procs[p].st == ZOMBIE ==> run[n].procs[p].pc == Dead || CanGo(run[n], p, init)
  {
    RunOrderly(run, init, n);
    assert Sits(run[n].procs[p]);
    Each(run[n], init, p);
    hide Inv, Family, Orderly, IsRun, Continue;
    if run[n].procs[p].st == ZOMBIE && run[n].procs[p].lock { OwnerGoes(run[n], init, p); }
  }

  // A process outside the operations can start each as soon as the lock that it takes first is
  // free, and is then at its beginning with that lock; it can kill any process that is not in the
  // middle of switching.
  lemma CanStart(s: State, init: nat, p: nat, i: nat)
    requires p < |s.procs| && s.procs[p].st == RUNNING && s.procs[p].pc == Idle
    ensures i < |s.locks| && s.locks[i].spin.None? ==> Starts(s, p, init, StartAcquire(i), SL(i), Acq(i))
    ensures i < |s.locks| && s.locks[i].spin.None? && i in s.procs[p].held ==>
              Starts(s, p, init, StartRelease(i), SL(i), Rel(i, 0))
    ensures s.wait.None? ==> Starts(s, p, init, StartWait, WL, Scan(0, false))
    ensures s.wait.None? && p != init ==> Starts(s, p, init, StartExit, WL, Rep(0))
    ensures i < |s.procs| && s.procs[i].st == UNUSED && !s.procs[i].lock ==> StartsFork(s, p, init, i)
    ensures i < |s.procs| && s.procs[i].st != UNUSED && !s.procs[i].lock ==> Step(s, p, init, Kill(i)).Some?
  {
    hide Continue;
  }

  predicate StartsFork(s: State, p: nat, init: nat, i: nat) {
    var r := Step(s, p, init, StartFork(i));
    r.Some? && p < |r.value.procs| && r.value.procs[p].pc == ForkParent(i)
    && i < |r.value.procs| && r.value.procs[i].st == USED
  }

  predicate Starts(s: State, p: nat, init: nat, a: Act, k: Lk, pc: Pc) {
    var r := Step(s, p, init, a);
    r.Some? && p < |r.value.procs| && r.value.procs[p].pc == pc && Holder(r.value, k) == Some(p)
  }
}
