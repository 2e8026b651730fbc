/**
 What wait(), exit(), fork(), acquiresleep(), releasesleep() and kill() do for their callers, in
 every state that a run can reach (kernel/proc.c, kernel/sleeplock.c).
 */
module SleepLaws {
  import opened Options
  import opened SleepWakeup

  // ---------- children ----------

  // A process below n has p for its parent.
  ghost predicate HasChild(s: State, p: nat, n: nat) {
    exists c: nat :: c < n && c < |s.procs| && s.procs[c].parent == Some(p)
  }

  predicate IsChild(s: State, c: nat, p: nat) {
    c < |s.procs| && s.procs[c].parent == Some(p)
  }

  function Forks(pc: Pc): Option<nat> {
    match pc
    case ForkParent(c) => Some(c)
    case ForkRun(c) => Some(c)
    case _ => None
  }

  // Past reparent(), or not yet started.
  predicate Alone(pc: Pc) {
    pc.WakeParent? || pc.Die1? || pc.Die2? || pc.Die3? || pc.Die4? || pc.Dead? || pc.Free? || pc.New?
  }

  // wait() has seen a child just if there is one below its index, reparent() has left none below
  // its index, and a process in fork() has its new process to itself.
  ghost predicate Kin(s: State, init: nat, p: nat)
    requires p < |s.procs|
  {
    var q := s.procs[p];
    && (q.pc.Scan? ==> (q.pc.kids <==> HasChild(s, p, q.pc.i)))
    && (q.pc.Rep? ==> !HasChild(s, p, q.pc.i))
    && (q.pc.RepWake? ==> !HasChild(s, p, q.pc.i + 1))
    && (Alone(q.pc) && p != init ==> !HasChild(s, p, |s.procs|))
    && (q.st == UNUSED ==> q.parent == None)
    && (q.st == USED ==> q.pc == New)
    && (q.pc.Die3? || q.pc.Die4? || q.pc.Dead? ==> q.st == ZOMBIE)
    && (q.pc.Rel? ==> q.pc.l < |s.locks| && !s.locks[q.pc.l].locked)
    && (Forks(q.pc).Some? ==> HasNew(s, p, Forks(q.pc).value))
    && (q.pc.ForkRun? ==> IsChild(s, q.pc.c, p))
  }

  ghost predicate HasNew(s: State, p: nat, c: nat) {
    c < |s.procs| && s.procs[c].st == USED
    && forall x: nat :: x < |s.procs| && x != p ==> Forks(s.procs[x].pc) != Some(c)
  }

  ghost predicate Family(s: State, init: nat) {
    forall p: nat :: p < |s.procs| ==> Kin(s, init, p)
  }

  lemma OfFamily(s: State, init: nat, p: nat)
    requires Family(s, init) && p < |s.procs|
    ensures Kin(s, init, p)
  {
  }

  // ---------- what every step keeps ----------

  predicate Steady(q: Proc, r: Proc) {
    && r.pc == q.pc && r.parent == q.parent && (r.st == UNUSED <==> q.st == UNUSED)
    && (r.st == USED <==> q.st == USED) && (r.st == ZOMBIE <==> q.st == ZOMBIE)
  }

  ghost predicate SameParents(s: State, t: State) {
    |t.procs| == |s.procs| && forall c: nat :: c < |s.procs| ==> t.procs[c].parent == s.procs[c].parent
  }

  lemma SameChildren(s: State, t: State, p: nat, n: nat)
    requires SameParents(s, t)
    ensures HasChild(t, p, n) == HasChild(s, p, n)
  {
    if c: nat :| c < n && c < |s.procs| && s.procs[c].parent == Some(p) { assert t.procs[c].parent == Some(p); }
    if c: nat :| c < n && c < |t.procs| && t.procs[c].parent == Some(p) { assert s.procs[c].parent == Some(p); }
  }

  lemma OneMore(s: State, p: nat, i: nat)
    requires i < |s.procs|
    ensures HasChild(s, p, i + 1) <==> HasChild(s, p, i) || s.procs[i].parent == Some(p)
  {
    if s.procs[i].parent == Some(p) { assert i < i + 1; }
    if c: nat :| c < i && c < |s.procs| && s.procs[c].parent == Some(p) { assert c < i + 1; }
  }

  lemma NoMore(s: State, p: nat, i: nat)
    requires i >= |s.procs|
    ensures HasChild(s, p, i) <==> HasChild(s, p, |s.procs|)
  {
    if c: nat :| c < i && c < |s.procs| && s.procs[c].parent == Some(p) { assert c < |s.procs|; }
    if c: nat :| c < |s.procs| && s.procs[c].parent == Some(p) { assert c < i; }
  }

  // A process that stays where it is, while every parent stays.
  lemma StaysKin(s: State, t: State, init: nat, p: nat, x: nat)
    requires SameParents(s, t) && p < |s.procs| && x < |s.procs| && x != p && Kin(s, init, x)
    requires Steady(s.procs[x], t.procs[x])
    requires Forks(s.procs[x].pc).Some? && Forks(s.procs[x].pc).value < |s.procs| ==>
               (t.procs[Forks(s.procs[x].pc).value].st == USED)
               && forall y: nat :: y < |s.procs| && y != x && Forks(t.procs[y].pc) == Forks(s.procs[x].pc) ==>
                    Forks(s.procs[y].pc) == Forks(s.procs[x].pc)
    requires s.procs[x].pc.Rel? ==> s.procs[x].pc.l < |t.locks| && !t.locks[s.procs[x].pc.l].locked
    ensures Kin(t, init, x)
  {
    var q := s.procs[x];
    SameChildren(s, t, x, if q.pc.Scan? || q.pc.Rep? then q.pc.i else if q.pc.RepWake? then q.pc.i + 1 else 0);
    SameChildren(s, t, x, |s.procs|);
  }

  // One process goes on, every parent stays, and no other process starts or ends.
  lemma QuietKeeps(s: State, t: State, init: nat, p: nat)
    requires Family(s, init) && SameParents(s, t) && p < |s.procs| && Kin(t, init, p)
    requires forall x: nat :: x < |s.procs| && x != p ==> Steady(s.procs[x], t.procs[x])
    requires s.procs[p].st == USED <==> t.procs[p].st == USED
    requires Forks(t.procs[p].pc) == None || Forks(t.procs[p].pc) == Forks(s.procs[p].pc)
    requires forall x: nat :: x < |s.procs| && x != p && s.procs[x].pc.Rel? ==>
               s.procs[x].pc.l < |t.locks| && (t.locks[s.procs[x].pc.l].locked ==>
                 s.procs[x].pc.l < |s.locks| && s.locks[s.procs[x].pc.l].locked)
    ensures Family(t, init)
  {
    forall x: nat | x < |t.procs| ensures Kin(t, init, x) {
      if x != p {
        OfFamily(s, init, x);
        StaysKin(s, t, init, p, x);
      }
    }
  }

  lemma AcqFamily(s: State, init: nat, p: nat, l: nat)
    requires Inv(s, init) && Family(s, init) && p < |s.procs| && s.procs[p].pc == Acq(l) && s.procs[p].st == RUNNING
    ensures var r := AcqStep(s, p, l); r.Some? ==> Family(r.value, init)
  {
    hide Inv, Family;
    var r := AcqStep(s, p, l);
    if r.Some? {
      Each(s, init, p);
      forall x: nat | x < |s.procs| && x != p && s.procs[x].pc.Rel?
        ensures s.procs[x].pc.l != l && s.procs[x].pc.l < |s.locks|
      {
        Each(s, init, x);
        OfFamily(s, init, x);
      }
      QuietKeeps(s, r.value, init, p);
    }
  }

  lemma WakeSteady(s: State, p: nat, i: nat, c: Chan)
    requires i < |s.procs| && p < |s.procs|
    ensures var r := Wake(s, p, i, c);
            r.Some? ==> SameParents(s, r.value) && r.value.locks == s.locks && r.value.procs[p] == s.procs[p]
                        && forall x: nat :: x < |s.procs| ==> Steady(s.procs[x], r.value.procs[x])
  {
  }

  // A step of wakeup() within releasesleep(), reparent() or exit(), or any step of p alone.
  lemma MovesFamily(s: State, t: State, init: nat, p: nat)
    requires Family(s, init) && SameParents(s, t) && p < |s.procs| && Kin(t, init, p)
    requires forall x: nat :: x < |s.procs| && x != p ==> Steady(s.procs[x], t.procs[x])
    requires s.procs[p].st != USED && t.procs[p].st != USED
    requires Forks(t.procs[p].pc) == None || Forks(t.procs[p].pc) == Forks(s.procs[p].pc)
    requires |t.locks| == |s.locks|
    requires forall l: nat :: l < |s.locks| && t.locks[l].locked ==> s.locks[l].locked
    ensures Family(t, init)
  {
    hide Family;
    forall x: nat | x < |s.procs| && x != p && s.procs[x].pc.Rel? ensures s.procs[x].pc.l < |s.locks| {
      OfFamily(s, init, x);
    }
    QuietKeeps(s, t, init, p);
  }

  lemma RelFamily(s: State, init: nat, p: nat, l: nat, i: nat)
    requires Family(s, init) && p < |s.procs| && s.procs[p].pc == Rel(l, i) && s.procs[p].st == RUNNING
    ensures var r := RelStep(s, p, l, i); r.Some? ==> Family(r.value, init)
  {
    hide Family, Wake;
    OfFamily(s, init, p);
    var r := RelStep(s, p, l, i);
    if r.Some? {
      if i < |s.procs| { WakeSteady(s, p, i, LockChan(l)); }
      MovesFamily(s, r.value, init, p);
    }
  }

  // The next place of a process in sleep().
  function Onward(pc: Pc): Pc {
    match pc
    case Sleep1(k) => Sleep2(k)
    case Sleep2(k) => Sleep3(k)
    case Sleep3(k) => Sleep4(k)
    case Sleep5(k) => Sleep6(k)
    case Sleep6(k) => if k.SL? then Acq(k.l) else Scan(0, false)
    case _ => pc
  }

  lemma SleepFamily(s: State, init: nat, p: nat)
    requires Family(s, init) && p < |s.procs| && s.procs[p].st == RUNNING
    ensures var r := SleepStep(s, p); r.Some? ==> Family(r.value, init)
  {
    hide Family;
    OfFamily(s, init, p);
    var r := SleepStep(s, p);
    if r.Some? {
      SleepMoves(s, p);
      hide SleepStep;
      assert !HasChild(r.value, p, 0);
      MovesFamily(s, r.value, init, p);
    }
  }

  lemma SleepMoves(s: State, p: nat)
    requires p < |s.procs| && s.procs[p].st == RUNNING
    ensures var r := SleepStep(s, p);
            r.Some? ==>
              && SameParents(s, r.value) && |r.value.locks| == |s.locks|
              && (forall x: nat :: x < |s.procs| && x != p ==> r.value.procs[x] == s.procs[x])
              && (forall l: nat :: l < |s.locks| ==> r.value.locks[l].locked == s.locks[l].locked)
              && var q := r.value.procs[p];
                 (q.st == RUNNING || q.st == SLEEPING)
                 && q.pc == Onward(s.procs[p].pc)
                 && q.parent == s.procs[p].parent
                 && (q.pc.Sleep4? ==> q.st == SLEEPING && q.chan == Some(ChanOf(q.pc.k, p)))
  {
  }

  // Only one process is in the code that wait_lock protects.
  lemma OneWaits(s: State, init: nat, p: nat, x: nat)
    requires Inv(s, init) && p < |s.procs| && x < |s.procs| && x != p && Needs(s.procs[p].pc) == Some(WL)
    ensures Needs(s.procs[x].pc) != Some(WL)
  {
    Each(s, init, p);
    Each(s, init, x);
  }

  // No process in wait() or reparent(): parents may change, but a process past reparent() gets no child.
  lemma ChangeKin(s: State, t: State, init: nat, x: nat)
    requires |t.procs| == |s.procs| && x < |s.procs| && Kin(s, init, x) && Needs(s.procs[x].pc) != Some(WL)
    requires Steady(s.procs[x].(parent := None), t.procs[x].(parent := None)) && t.locks == s.locks
    requires s.procs[x].st == UNUSED ==> t.procs[x].parent == None
    requires Alone(s.procs[x].pc) && x != init ==>
               forall c: nat :: c < |s.procs| && t.procs[c].parent == Some(x) ==> s.procs[c].parent == Some(x)
    requires Forks(s.procs[x].pc).Some? ==> HasNew(t, x, Forks(s.procs[x].pc).value)
    requires s.procs[x].pc.ForkRun? ==> IsChild(t, s.procs[x].pc.c, x)
    ensures Kin(t, init, x)
  {
  }

  // wait() reaps i.
  lemma ReapFamily(s: State, init: nat, p: nat, i: nat)
    requires Inv(s, init) && Family(s, init) && p < |s.procs| && s.procs[p].pc.Scan? && s.procs[p].st == RUNNING
    requires i < |s.procs| && s.procs[i].parent == Some(p) && s.procs[i].st == ZOMBIE && !s.procs[i].lock
    ensures Family(Leave(SetProc(s, i, Proc(UNUSED, None, None, false, false, Free, {})), p, WL, Idle), init)
  {
    hide Inv, Family;
    var t := Leave(SetProc(s, i, Proc(UNUSED, None, None, false, false, Free, {})), p, WL, Idle);
    forall x: nat | x < |t.procs| ensures Kin(t, init, x) {
      OfFamily(s, init, x);
      Each(s, init, i);
      if x == i {
        assert forall c: nat :: c < |s.procs| && t.procs[c].parent == Some(i) ==> s.procs[c].parent == Some(i);
      } else if x != p {
        OneWaits(s, init, p, x);
        ChangeKin(s, t, init, x);
      }
    }
    IsFamily(t, init);
  }

  lemma ScanOn(s: State, init: nat, p: nat, i: nat, kids: bool)
    requires Family(s, init) && p < |s.procs| && s.procs[p].pc == Scan(i, kids) && s.procs[p].st == RUNNING
    requires i < |s.procs|
    ensures Family(At(s, p, Scan(i + 1, kids || s.procs[i].parent == Some(p))), init)
  {
    hide Family;
    var t := At(s, p, Scan(i + 1, kids || s.procs[i].parent == Some(p)));
    OfFamily(s, init, p);
    OneMore(s, p, i);
    SameChildren(s, t, p, i + 1);
    MovesFamily(s, t, init, p);
  }

  lemma ScanFamily(s: State, init: nat, p: nat, i: nat, kids: bool)
    requires Inv(s, init) && Family(s, init) && p < |s.procs| && s.procs[p].pc == Scan(i, kids)
    requires s.procs[p].st == RUNNING
    ensures var r := ScanStep(s, p, i, kids); r.Some? ==> Family(r.value, init)
  {
    hide Inv, Family;
    if i < |s.procs| {
      ScanOn(s, init, p, i, kids);
      if s.procs[i].parent == Some(p) && s.procs[i].st == ZOMBIE && !s.procs[i].lock { ReapFamily(s, init, p, i); }
    } else {
      OfFamily(s, init, p);
      MovesFamily(s, ScanStep(s, p, i, kids).value, init, p);
    }
  }

  // reparent() gives i to init.
  lemma AdoptFamily(s: State, init: nat, p: nat, i: nat)
    requires Inv(s, init) && Family(s, init) && p < |s.procs| && s.procs[p].pc == Rep(i)
    requires i < |s.procs| && s.procs[i].parent == Some(p)
    ensures Family(Adopt(At(s, p, RepWake(i, 0)), i, init), init)
  {
    hide Inv, Family;
    var t := Adopt(At(s, p, RepWake(i, 0)), i, init);
    Each(s, init, p);
    OfFamily(s, init, p);
    OfFamily(s, init, i);
    forall x: nat | x < |t.procs| ensures Kin(t, init, x) {
      if x != p {
        OfFamily(s, init, x);
        OneWaits(s, init, p, x);
        ChangeKin(s, t, init, x);
      } else {
        OneMore(t, p, i);
        assert forall c: nat :: c < i && t.procs[c].parent == Some(p) ==> s.procs[c].parent == Some(p);
      }
    }
    IsFamily(t, init);
  }

  lemma RepFamily(s: State, init: nat, p: nat, i: nat)
    requires Inv(s, init) && Family(s, init) && p < |s.procs| && s.procs[p].pc == Rep(i) && s.procs[p].st == RUNNING
    ensures var r := RepStep(s, p, init, i); r.Some? ==> Family(r.value, init)
  {
    hide Inv, Family;
    OfFamily(s, init, p);
    var r := RepStep(s, p, init, i);
    if i < |s.procs| && s.procs[i].parent == Some(p) {
      AdoptFamily(s, init, p, i);
    } else {
      if i < |s.procs| {
        OneMore(s, p, i);
        SameChildren(s, r.value, p, i + 1);
      } else {
        NoMore(s, p, i);
        SameChildren(s, r.value, p, |s.procs|);
      }
      MovesFamily(s, r.value, init, p);
    }
  }

  lemma RepWakeFamily(s: State, init: nat, p: nat, i: nat, j: nat)
    requires Family(s, init) && p < |s.procs| && s.procs[p].pc == RepWake(i, j) && s.procs[p].st == RUNNING
    ensures var r := RepWakeStep(s, p, init, i, j); r.Some? ==> Family(r.value, init)
  {
    hide Family, Wake;
    OfFamily(s, init, p);
    var r := RepWakeStep(s, p, init, i, j);
    if r.Some? {
      if j < |s.procs| { WakeSteady(s, p, j, ProcChan(init)); }
      SameChildren(s, r.value, p, i + 1);
      MovesFamily(s, r.value, init, p);
    }
  }

  lemma WakeParentFamily(s: State, init: nat, p: nat, j: nat)
    requires Family(s, init) && p < |s.procs| && s.procs[p].pc == WakeParent(j) && s.procs[p].st == RUNNING
    ensures var r := WakeParentStep(s, p, j); r.Some? ==> Family(r.value, init)
  {
    hide Family, Wake;
    OfFamily(s, init, p);
    var r := WakeParentStep(s, p, j);
    if r.Some? {
      if j < |s.procs| && s.procs[p].parent.Some? { WakeSteady(s, p, j, ProcChan(s.procs[p].parent.value)); }
      SameChildren(s, r.value, p, |s.procs|);
      MovesFamily(s, r.value, init, p);
    }
  }

  lemma DieFamily(s: State, init: nat, p: nat)
    requires Family(s, init) && p < |s.procs| && s.procs[p].st != USED && s.procs[p].st != UNUSED
    ensures var r := DieStep(s, p); r.Some? ==> Family(r.value, init)
  {
    hide Family;
    OfFamily(s, init, p);
    var r := DieStep(s, p);
    if r.Some? {
      SameChildren(s, r.value, p, |s.procs|);
      MovesFamily(s, r.value, init, p);
    }
  }

  // fork() sets the child's parent.
  lemma BirthFamily(s: State, init: nat, p: nat, c: nat)
    requires Inv(s, init) && Family(s, init) && p < |s.procs| && s.procs[p].pc == ForkParent(c) && s.wait.None?
    requires s.procs[p].st == RUNNING && c < |s.procs|
    ensures Family(Adopt(At(s, p, ForkRun(c)), c, p), init)
  {
    hide Inv, Family;
    var t := Adopt(At(s, p, ForkRun(c)), c, p);
    OfFamily(s, init, p);
    Each(s, init, p);
    forall x: nat | x < |t.procs| ensures Kin(t, init, x) {
      if x != p {
        OfFamily(s, init, x);
        Each(s, init, x);
        ChangeKin(s, t, init, x);
      }
    }
    IsFamily(t, init);
  }

  lemma ForkRunFamily(s: State, init: nat, p: nat, c: nat)
    requires Family(s, init) && p < |s.procs| && s.procs[p].pc == ForkRun(c)
    requires s.procs[p].st == RUNNING && c < |s.procs|
    ensures Family(At(SetProc(s, c, s.procs[c].(st := RUNNABLE)), p, Idle), init)
  {
    hide Family;
    var t := At(SetProc(s, c, s.procs[c].(st := RUNNABLE)), p, Idle);
    OfFamily(s, init, p);
    forall x: nat | x < |t.procs| ensures Kin(t, init, x) {
      OfFamily(s, init, x);
      if x == c {
        SameChildren(s, t, c, |s.procs|);
      } else if x != p {
        StaysKin(s, t, init, p, x);
      }
    }
    IsFamily(t, init);
  }

  lemma IsFamily(s: State, init: nat)
    requires forall p: nat :: p < |s.procs| ==> Kin(s, init, p)
    ensures Family(s, init)
  {
  }

  lemma ContinueFamily(s: State, init: nat, p: nat)
    requires Inv(s, init) && Family(s, init) && p < |s.procs|
    requires s.procs[p].st == RUNNING || s.procs[p].pc == Die3 || s.procs[p].pc == Die4
    ensures var r := Continue(s, p, init); r.Some? ==> Family(r.value, init)
  {
    hide Inv, Family, AcqStep, RelStep, ScanStep, SleepStep, RepStep, RepWakeStep, WakeParentStep, DieStep;
    Each(s, init, p);
    OfFamily(s, init, p);
    match s.procs[p].pc
    case Acq(l) => AcqFamily(s, init, p, l);
    case Rel(l, i) => RelFamily(s, init, p, l, i);
    case Scan(i, kids) => ScanFamily(s, init, p, i, kids);
    case Sleep1(_) => SleepFamily(s, init, p);
    case Sleep2(_) => SleepFamily(s, init, p);
    case Sleep3(_) => SleepFamily(s, init, p);
    case Sleep5(_) => SleepFamily(s, init, p);
    case Sleep6(_) => SleepFamily(s, init, p);
    case ForkParent(c) => if s.wait.None? && c < |s.procs| { BirthFamily(s, init, p, c); }
    case ForkRun(c) => if c < |s.procs| { ForkRunFamily(s, init, p, c); }
    case Rep(i) => RepFamily(s, init, p, i);
    case RepWake(i, j) => RepWakeFamily(s, init, p, i, j);
    case WakeParent(j) => WakeParentFamily(s, init, p, j);
    case _ => DieFamily(s, init, p);
  }

  // fork() takes a free slot for its child.
  lemma AllocFamily(s: State, init: nat, p: nat, c: nat)
    requires Inv(s, init) && Family(s, init) && p < |s.procs| && s.procs[p].st == RUNNING && s.procs[p].pc == Idle
    requires c < |s.procs| && s.procs[c].st == UNUSED
    ensures Family(At(SetProc(s, c, Proc(USED, None, None, false, false, New, {})), p, ForkParent(c)), init)
  {
    hide Inv, Family;
    var t := At(SetProc(s, c, Proc(USED, None, None, false, false, New, {})), p, ForkParent(c));
    OfFamily(s, init, p);
    OfFamily(s, init, c);
    Each(s, init, c);
    SameChildren(s, t, c, |s.procs|);
    forall x: nat | x < |s.procs| ensures Forks(s.procs[x].pc) != Some(c) { OfFamily(s, init, x); }
    forall x: nat | x < |t.procs| ensures Kin(t, init, x) {
      OfFamily(s, init, x);
      if x != c && x != p { StaysKin(s, t, init, p, x); }
    }
    IsFamily(t, init);
  }

  // acquiresleep(), releasesleep(), wait() and exit() start, and wait() gives up in copyout().
  lemma StartFamily(s: State, init: nat, p: nat, a: Act)
    requires Inv(s, init) && Family(s, init)
    requires a.Fail? || a.StartAcquire? || a.StartRelease? || a.StartWait? || a.StartExit?
    ensures var r := Step(s, p, init, a); r.Some? ==> Family(r.value, init)
  {
    hide Inv, Family, Continue;
    var r := Step(s, p, init, a);
    if r.Some? {
      OfFamily(s, init, p);
      StartMoves(s, init, p, a);
      hide Step;
      assert !HasChild(r.value, p, 0);
      MovesFamily(s, r.value, init, p);
    }
  }

  lemma StartMoves(s: State, init: nat, p: nat, a: Act)
    requires a.Fail? || a.StartAcquire? || a.StartRelease? || a.StartWait? || a.StartExit?
    ensures var r := Step(s, p, init, a);
            r.Some? ==>
              && p < |s.procs| && s.procs[p].st == RUNNING
              && SameParents(s, r.value) && |r.value.locks| == |s.locks|
              && (forall x: nat :: x < |s.procs| && x != p ==> r.value.procs[x] == s.procs[x])
              && (forall l: nat :: l < |s.locks| && r.value.locks[l].locked ==> s.locks[l].locked)
              && var q := r.value.procs[p];
                 && q.st == RUNNING && q.parent == s.procs[p].parent
                 && (q.pc == Idle || q.pc.Acq? || q.pc == Scan(0, false) || q.pc == Rep(0)
                     || (q.pc.Rel? && q.pc.l < |s.locks| && !r.value.locks[q.pc.l].locked))
  {
    hide Continue;
  }

  lemma SwitchFamily(s: State, init: nat, p: nat, a: Act)
    requires Inv(s, init) && Family(s, init) && (a.Preempt? || a.Schedule?)
    ensures var r := Step(s, p, init, a); r.Some? ==> Family(r.value, init)
  {
    hide Inv, Family, Continue;
    var r := Step(s, p, init, a);
    if r.Some? {
      OfFamily(s, init, p);
      SameChildren(s, r.value, p, |s.procs|);
      var pc := s.procs[p].pc;
      SameChildren(s, r.value, p, if pc.Scan? || pc.Rep? then pc.i else if pc.RepWake? then pc.i + 1 else 0);
      MovesFamily(s, r.value, init, p);
    }
  }

  lemma KillFamily(s: State, init: nat, p: nat, i: nat)
    requires Family(s, init)
    ensures var r := Step(s, p, init, Kill(i)); r.Some? ==> Family(r.value, init)
  {
    hide Family, Continue;
    var r := Step(s, p, init, Kill(i));
    if r.Some? {
      var t := r.value;
      forall x: nat | x < |t.procs| ensures Kin(t, init, x) {
        OfFamily(s, init, x);
        var pc := s.procs[x].pc;
        SameChildren(s, t, x, |s.procs|);
        SameChildren(s, t, x, if pc.Scan? || pc.Rep? then pc.i else if pc.RepWake? then pc.i + 1 else 0);
      }
      IsFamily(t, init);
    }
  }

  lemma StepFamily(s: State, init: nat, p: nat, a: Act)
    requires Inv(s, init) && Family(s, init)
    ensures var r := Step(s, p, init, a); r.Some? ==> Family(r.value, init)
  {
    hide Inv, Family, Continue;
    match a
    case Go => if Step(s, p, init, Go).Some? { ContinueFamily(s, init, p); }
    case StartFork(c) => if Step(s, p, init, a).Some? { AllocFamily(s, init, p, c); }
    case Preempt => SwitchFamily(s, init, p, a);
    case Schedule => SwitchFamily(s, init, p, a);
    case Kill(i) => KillFamily(s, init, p, i);
    case _ => StartFamily(s, init, p, a);
  }

  // ---------- whole runs ----------

  lemma {:induction false} RunFamily(run: seq<State>, init: nat, n: nat)
    requires IsRun(run, init) && n < |run|
    ensures Inv(run[n], init) && Family(run[n], init)
  {
    hide Inv, Step;
    RunKeeps(run, init, n);
    if n > 0 {
      RunFamily(run, init, n - 1);
      assert Next(run[n - 1], run[n - 1 + 1], init);
      var p, a :| Step(run[n - 1], p, init, a) == Some(run[n]);
      StepFamily(run[n - 1], init, p, a);
    }
  }

  // A scan that has found a child but none that has exited makes its caller sleep, unless it is killed.
  lemma WaitSleeps(run: seq<State>, init: nat, n: nat, p: nat, c: nat)
    requires IsRun(run, init) && n < |run| && p < |run[n].procs| && run[n].procs[p].pc.Scan?
    requires run[n].procs[p].pc.i >= |run[n].procs| && run[n].procs[p].st == RUNNING
    requires IsChild(run[n], c, p) && !run[n].procs[p].killed
    ensures Step(run[n], p, init, Go) == Some(At(run[n], p, Sleep1(WL)))
    ensures forall x: nat :: IsChild(run[n], x, p) ==> run[n].procs[x].st != ZOMBIE
  {
    hide Inv, IsRun;
    RunFamily(run, init, n);
    OfFamily(run[n], init, p);
    Each(run[n], init, p);
    hide Family;
    assert HasChild(run[n], p, run[n].procs[p].pc.i);
  }

  // What a step of q may do to the record of another process.
  predicate Touched(x: Proc, y: Proc, q: nat, init: nat) {
    || y == x
    || (x.st == SLEEPING && y == x.(st := RUNNABLE))                                    // wakeup()
    || (x.st != UNUSED && y == x.(killed := true, st := if x.st == SLEEPING then RUNNABLE else x.st))  // kill()
    || (x.parent == Some(q) && x.pc == Dead && y == Proc(UNUSED, None, None, false, false, Free, {}))  // wait()
    || (x.parent == Some(q) && y == x.(parent := Some(init)))                           // exit()
    || (x.st == UNUSED && y == Proc(USED, None, None, false, false, New, {}))           // fork()
    || (x.st == USED && y == x.(parent := Some(q)))
    || (x.st == USED && y == x.(st := RUNNABLE))
  }

  ghost predicate TouchesOnly(s: State, t: State, q: nat, init: nat) {
    |t.procs| == |s.procs|
    && forall p: nat :: p < |s.procs| && p != q ==> Touched(s.procs[p], t.procs[p], q, init)
  }

  lemma ScanTouches(s: State, q: nat, init: nat, i: nat, kids: bool)
    requires Inv(s, init) && q < |s.procs|
    ensures var r := ScanStep(s, q, i, kids); r.Some? ==> TouchesOnly(s, r.value, q, init)
  {
    hide Inv;
    if i < |s.procs| { Each(s, init, i); }
  }

  lemma ForkTouches(s: State, q: nat, init: nat)
    requires Family(s, init) && q < |s.procs|
    ensures var r := ForkStep(s, q); r.Some? ==> TouchesOnly(s, r.value, q, init)
  {
    hide Family;
    OfFamily(s, init, q);
  }

  lemma ContinueTouches(s: State, q: nat, init: nat)
    requires Inv(s, init) && Family(s, init) && q < |s.procs|
    ensures var r := Continue(s, q, init); r.Some? ==> TouchesOnly(s, r.value, q, init)
  {
    hide Inv, Family, ScanStep, ForkStep;
    match s.procs[q].pc
    case Scan(i, kids) => ScanTouches(s, q, init, i, kids);
    case ForkParent(c) => ForkTouches(s, q, init);
    case ForkRun(c) => ForkTouches(s, q, init);
    case _ =>
  }

  // Every step of q leaves every other process as it is, but for these.
  lemma Interference(s: State, q: nat, init: nat, a: Act)
    requires Inv(s, init) && Family(s, init)
    ensures var r := Step(s, q, init, a); r.Some? ==> TouchesOnly(s, r.value, q, init)
  {
    hide Inv, Family, Continue;
    if a == Go && q < |s.procs| { ContinueTouches(s, q, init); }
  }

  // A step of q does not move another process, unless it frees or takes its slot.
  lemma OthersStay(s: State, init: nat, q: nat, a: Act, p: nat, t: State)
    requires Inv(s, init) && Family(s, init) && Step(s, q, init, a) == Some(t) && p < |s.procs| == |t.procs|
    requires q != p && !s.procs[p].pc.Free? && !s.procs[p].pc.Dead?
    ensures t.procs[p].pc == s.procs[p].pc
  {
    hide Inv, Family, Step;
    Each(s, init, p);
    Interference(s, q, init, a);
  }

  // A process moves within an operation by Go alone, but for the scheduler and a failing copyout().
  lemma OwnMoves(s: State, init: nat, p: nat, a: Act, t: State)
    requires Step(s, p, init, a) == Some(t) && a != Go && s.procs[p].pc != Idle && s.procs[p].pc != New
    ensures |t.procs| == |s.procs|
    ensures || t.procs[p].pc == s.procs[p].pc
            || (s.procs[p].pc.Sleep4? && t.procs[p].pc == Sleep5(s.procs[p].pc.k))
            || (a == Fail && s.procs[p].pc.Scan? && t.procs == s.procs[p := s.procs[p].(pc := Idle)] && t.wait == None
                && IsChild(s, s.procs[p].pc.i, p) && s.procs[s.procs[p].pc.i].st == ZOMBIE)
  {
    hide Continue;
  }

  lemma GoContinues(s: State, init: nat, p: nat, t: State)
    requires Step(s, p, init, Go) == Some(t)
    ensures p < |s.procs| && Continue(s, p, init) == Some(t)
    ensures s.procs[p].st == RUNNING || s.procs[p].pc == Die3 || s.procs[p].pc == Die4
  {
    hide Continue;
  }

  // Whatever step is taken, a process that has begun to sleep stays or goes on to sleep, and sleeps
  // on its sleep lock's channel or, in wait(), on its own.
  lemma SleepIsReached(s: State, init: nat, q: nat, a: Act, p: nat, t: State)
    requires Inv(s, init) && Family(s, init) && Step(s, q, init, a) == Some(t) && p < |s.procs| == |t.procs|
    requires s.procs[p].pc.Sleep1? || s.procs[p].pc.Sleep2? || s.procs[p].pc.Sleep3?
    ensures t.procs[p].pc == s.procs[p].pc || t.procs[p].pc == Onward(s.procs[p].pc)
    ensures t.procs[p].pc.Sleep4? ==>
              t.procs[p].st == SLEEPING
              && t.procs[p].chan == Some(if s.procs[p].pc.k.WL? then ProcChan(p) else LockChan(s.procs[p].pc.k.l))
  {
    hide Inv, Family, SleepStep, Step;
    if q != p {
      OthersStay(s, init, q, a, p, t);
    } else if a != Go {
      OwnMoves(s, init, p, a, t);
    } else {
      GoContinues(s, init, p, t);
      SleepMoves(s, p);
    }
  }

  predicate InSleep(pc: Pc, k: Lk) {
    && (pc.Sleep1? || pc.Sleep2? || pc.Sleep3? || pc.Sleep4? || pc.Sleep5? || pc.Sleep6?)
    && pc.k == k
  }

  // The steps that a process in sleep() can take are those of sleep().
  lemma InSleepStays(s: State, init: nat, q: nat, a: Act, p: nat, t: State, k: Lk)
    requires Inv(s, init) && Family(s, init) && Step(s, q, init, a) == Some(t) && p < |s.procs| == |t.procs|
    requires InSleep(s.procs[p].pc, k)
    ensures InSleep(t.procs[p].pc, k) || t.procs[p].pc == if k.WL? then Scan(0, false) else Acq(k.l)
  {
    hide Inv, Family, SleepStep, Step;
    if q != p {
      OthersStay(s, init, q, a, p, t);
    } else if a != Go {
      OwnMoves(s, init, p, a, t);
    } else {
      GoContinues(s, init, p, t);
      SleepMoves(s, p);
    }
  }

  // After reparent() no process has the exiting one for its parent, until its slot is free again.
  lemma Reparented(run: seq<State>, init: nat, n: nat, p: nat, c: nat)
    requires IsRun(run, init) && n < |run| && p < |run[n].procs| && p != init && Alone(run[n].procs[p].pc)
    ensures !IsChild(run[n], c, p)
  {
    RunFamily(run, init, n);
    OfFamily(run[n], init, p);
    assert forall x: nat :: x < |run[n].procs| ==> !IsChild(run[n], x, p);
  }

  // fork() returns when its child, and only its, can run.
  lemma ForkReturns(run: seq<State>, init: nat, n: nat, p: nat, t: State)
    requires IsRun(run, init) && n < |run| && p < |run[n].procs| && run[n].procs[p].pc.ForkRun?
    requires Step(run[n], p, init, Go) == Some(t)
    ensures var c := run[n].procs[p].pc.c;
            c != p && IsChild(t, c, p) && t.procs[c].st == RUNNABLE && t.procs[c].pc == New && t.procs[p].pc == Idle
  {
    hide Inv, IsRun;
    RunFamily(run, init, n);
    OfFamily(run[n], init, p);
    OfFamily(run[n], init, run[n].procs[p].pc.c);
  }

  // wait() is left only by its own process, and only if it was killed, has no child, or has got or
  // failed to copy out one that had exited.
  lemma WaitReturns(run: seq<State>, init: nat, n: nat, q: nat, a: Act, p: nat, t: State)
    requires IsRun(run, init) && n < |run| && p < |run[n].procs| == |t.procs|
    requires Step(run[n], q, init, a) == Some(t)
    requires InSleep(run[n].procs[p].pc, WL) || run[n].procs[p].pc.Scan?
    ensures || InSleep(t.procs[p].pc, WL) || t.procs[p].pc.Scan?
            || (q == p && t.procs[p].pc == Idle && t.wait == None && MayReturn(run[n], a, p, t))
  {
    hide Inv, IsRun, Step, MayReturn;
    RunFamily(run, init, n);
    if InSleep(run[n].procs[p].pc, WL) {
      InSleepStays(run[n], init, q, a, p, t, WL);
    } else {
      ScanReturns(run[n], init, q, a, p, t);
    }
  }

  ghost predicate MayReturn(s: State, a: Act, p: nat, t: State)
    requires p < |s.procs| == |t.procs|
  {
    || s.procs[p].killed
    || (forall c: nat :: !IsChild(s, c, p))
    || (exists c: nat :: IsChild(s, c, p) && s.procs[c].st == ZOMBIE
                         && (if a == Fail then t.procs[c] == s.procs[c] else t.procs[c].st == UNUSED))
  }

  lemma ScanGoes(s: State, init: nat, p: nat, t: State)
    requires p < |s.procs| == |t.procs| && s.procs[p].pc.Scan? && Kin(s, init, p) && !IsChild(s, p, p)
    requires Continue(s, p, init) == Some(t)
    ensures t.procs[p].pc.Scan? || t.procs[p].pc == Sleep1(WL)
            || (t.procs[p].pc == Idle && t.wait == None && MayReturn(s, Go, p, t))
  {
    var i := s.procs[p].pc.i;
    if i < |s.procs| {
      assert t.procs[p].pc == Idle ==> IsChild(s, i, p) && s.procs[i].st == ZOMBIE && t.procs[i].st == UNUSED;
    } else {
      NoMore(s, p, i);
      forall c: nat ensures !HasChild(s, p, |s.procs|) ==> !IsChild(s, c, p) { }
    }
  }

  lemma ScanReturns(s: State, init: nat, q: nat, a: Act, p: nat, t: State)
    requires Inv(s, init) && Family(s, init) && p < |s.procs| == |t.procs| && s.procs[p].pc.Scan?
    requires Step(s, q, init, a) == Some(t)
    ensures t.procs[p].pc.Scan? || t.procs[p].pc == Sleep1(WL)
            || (q == p && t.procs[p].pc == Idle && t.wait == None && MayReturn(s, a, p, t))
  {
    hide Inv, Family, Step;
    Each(s, init, p);
    if q != p {
      OthersStay(s, init, q, a, p, t);
    } else if a != Go {
      OwnMoves(s, init, p, a, t);
    } else {
      GoContinues(s, init, p, t);
      OfFamily(s, init, p);
      ScanGoes(s, init, p, t);
    }
  }

  // acquiresleep() is left only by its own process, with the lock that was free now its own alone.
  lemma AcquireReturns(run: seq<State>, init: nat, n: nat, q: nat, a: Act, p: nat, t: State, l: nat)
    requires IsRun(run, init) && n < |run| && p < |run[n].procs| == |t.procs|
    requires Step(run[n], q, init, a) == Some(t)
    requires InSleep(run[n].procs[p].pc, SL(l)) || run[n].procs[p].pc == Acq(l)
    ensures || InSleep(t.procs[p].pc, SL(l)) || t.procs[p].pc == Acq(l)
            || (q == p && t.procs[p].pc == Idle && l in t.procs[p].held && l < |run[n].locks| == |t.locks|
                && !run[n].locks[l].locked && t.locks[l] == SleepLock(None, true, p)
                && forall x: nat :: x < |t.procs| && l in t.procs[x].held ==> x == p)
  {
    hide Inv, IsRun, Step;
    RunFamily(run, init, n);
    if InSleep(run[n].procs[p].pc, SL(l)) {
      InSleepStays(run[n], init, q, a, p, t, SL(l));
    } else {
      AcqReturns(run[n], init, q, a, p, t, l);
      StepKeeps(run[n], init, q, a);
      OneHas(t, init, l);
    }
  }

  lemma OneHas(s: State, init: nat, l: nat)
    requires Inv(s, init)
    ensures forall x: nat :: x < |s.procs| && l in s.procs[x].held ==> l < |s.locks| && s.locks[l].owner == x
  {
    hide Inv;
    forall x: nat | x < |s.procs| && l in s.procs[x].held ensures l < |s.locks| && s.locks[l].owner == x {
      Each(s, init, x);
    }
  }

  lemma AcqReturns(s: State, init: nat, q: nat, a: Act, p: nat, t: State, l: nat)
    requires Inv(s, init) && Family(s, init) && p < |s.procs| == |t.procs| && s.procs[p].pc == Acq(l)
    requires Step(s, q, init, a) == Some(t)
    ensures || t.procs[p].pc == Sleep1(SL(l)) || t.procs[p].pc == Acq(l)
            || (q == p && t.procs[p].pc == Idle && l in t.procs[p].held && l < |s.locks| == |t.locks|
                && !s.locks[l].locked && t.locks[l] == SleepLock(None, true, p))
  {
    hide Inv, Family, Step;
    if q != p {
      OthersStay(s, init, q, a, p, t);
    } else if a != Go {
      OwnMoves(s, init, p, a, t);
    } else {
      GoContinues(s, init, p, t);
      Each(s, init, p);
    }
  }

  lemma ExitMoves(s: State, init: nat, q: nat, a: Act, p: nat, t: State)
    requires Inv(s, init) && Family(s, init) && p < |s.procs| == |t.procs| && Exiting(s.procs[p].pc)
    requires Step(s, q, init, a) == Some(t)
    ensures || Exiting(t.procs[p].pc)
            || (s.procs[p].pc == Dead && IsChild(s, p, q) && t.procs[p].pc == Free)
  {
    hide Inv, Family, Step;
    if q != p {
      if s.procs[p].pc.Dead? { DeadStays(s, init, q, a, p, t); } else { OthersStay(s, init, q, a, p, t); }
    } else if a != Go {
      OwnMoves(s, init, p, a, t);
    } else {
      GoContinues(s, init, p, t);
    }
  }

  lemma DeadStays(s: State, init: nat, q: nat, a: Act, p: nat, t: State)
    requires Inv(s, init) && Family(s, init) && p < |s.procs| == |t.procs| && s.procs[p].pc == Dead && q != p
    requires Step(s, q, init, a) == Some(t)
    ensures t.procs[p].pc == Dead
            || (IsChild(s, p, q) && t.procs[p].pc == Free)
  {
    hide Inv, Family, Step;
    OfFamily(s, init, p);
    Interference(s, q, init, a);
  }

  // exit() is never left: its process ends as a zombie, and only a step of its parent frees it.
  lemma ExitStays(run: seq<State>, init: nat, n: nat, q: nat, a: Act, p: nat, t: State)
    requires IsRun(run, init) && n < |run| && p < |run[n].procs| == |t.procs| && Exiting(run[n].procs[p].pc)
    requires Step(run[n], q, init, a) == Some(t)
    ensures || (Exiting(t.procs[p].pc) && (t.procs[p].pc == Dead ==> t.procs[p].st == ZOMBIE))
            || (run[n].procs[p].pc == Dead && IsChild(run[n], p, q) && t.procs[p].pc == Free)
  {
    hide Inv, IsRun, Step;
    RunFamily(run, init, n);
    ExitMoves(run[n], init, q, a, p, t);
    StepFamily(run[n], init, q, a);
    OfFamily(t, init, p);
  }

  // releasesleep() returns with the lock free, and nobody asleep on it.
  lemma ReleaseReturns(run: seq<State>, init: nat, n: nat, p: nat, t: State, q: nat)
    requires IsRun(run, init) && n < |run| && p < |run[n].procs| && run[n].procs[p].pc.Rel?
    requires Step(run[n], p, init, Go) == Some(t) && t.procs[p].pc == Idle && q < |t.procs|
    ensures var l := run[n].procs[p].pc.l;
            l < |t.locks| && t.locks[l].spin == None && !t.locks[l].locked
            && !Asleep(t.procs[q], SL(l)) && !(t.procs[q].st == SLEEPING && t.procs[q].chan == Some(LockChan(l)))
  {
    RunFamily(run, init, n);
    OfFamily(run[n], init, p);
    StepKeeps(run[n], init, p, Go);
    Each(t, init, q);
    hide IsRun, Family, Inv;
  }

  // kill() leaves its process killed and awake.
  lemma KillWakes(s: State, q: nat, init: nat, i: nat, t: State)
    requires Step(s, q, init, Kill(i)) == Some(t)
    ensures i < |t.procs| && t.procs[i].killed && t.procs[i].st != SLEEPING
    ensures t.locks == s.locks && t.wait == s.wait && |t.procs| == |s.procs|
    ensures forall x: nat :: x < |s.procs| && x != i ==> t.procs[x] == s.procs[x]
  {
  }
}
