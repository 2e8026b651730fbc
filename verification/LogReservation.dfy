/**
 begin_op(), log_write() and end_op() of kernel/log.c as steps taken under log.lock:
 how much log space the running operations may still claim, and when log_write() panics.
 */
module LogReservation {
  import opened Options
  import opened Seqs

  // logSize is LOGSIZE, maxOp is MAXOPBLOCKS, nlog the superblock's log length, nproc NPROC.
  datatype Config = Config(logSize: nat, maxOp: nat, nlog: nat, nproc: nat)

  // blocks is log.lh.block[0..n); used[p] is the number of new blocks added so far by the
  // operation process p is in.
  datatype State = State(blocks: seq<int>, used: seq<Option<nat>>, committing: bool)

  datatype Event = Begin(p: nat) | Append(p: nat, b: int) | End(p: nat) | Commit

  datatype Outcome = Done(s: State) | Sleep | TooBig | OutsideTrans | CommitRunning

  function Outstanding(used: seq<Option<nat>>): nat {
    if used == [] then 0
    else Outstanding(used[..|used| - 1]) + if used[|used| - 1].Some? then 1 else 0
  }

  // What the running operations may still add, at maxOp blocks each.
  function Unused(used: seq<Option<nat>>, maxOp: int): int {
    if used == [] then 0
    else
      var last := used[|used| - 1];
      Unused(used[..|used| - 1], maxOp) + if last.Some? then maxOp - last.value else 0
  }

  predicate MayAppend(c: Config, s: State, p: nat, b: int) {
    p < |s.used| && s.used[p].Some? && (b in s.blocks || s.used[p].value < c.maxOp)
  }

  predicate Enabled(c: Config, s: State, e: Event) {
    match e
    case Begin(p) => p < |s.used| && s.used[p].None?
    case Append(p, b) => MayAppend(c, s, p, b)
    case End(p) => p < |s.used| && s.used[p].Some?
    case Commit => s.committing
  }

  // The test of begin_op(): with one more operation, everything still fits in the log.
  predicate Fits(c: Config, s: State) {
    |s.blocks| + (Outstanding(s.used) + 1) * c.maxOp <= c.logSize
  }

  // The first test of log_write().
  predicate LogFull(c: Config, s: State) {
    |s.blocks| >= c.logSize || |s.blocks| >= c.nlog - 1
  }

  // log_write() of a block that is already logged changes nothing (log absorption).
  function Appended(s: State, p: nat, b: int): State
    requires p < |s.used| && s.used[p].Some?
  {
    if b in s.blocks then s
    else s.(blocks := s.blocks + [b], used := s.used[p := Some(s.used[p].value + 1)])
  }

  function Ended(s: State, p: nat): State
    requires p < |s.used|
  {
    var used := s.used[p := None];
    s.(used := used, committing := Outstanding(used) == 0)
  }

  function Step(c: Config, s: State, e: Event): Outcome
    requires Enabled(c, s, e)
  {
    match e
    case Begin(p) =>
      if s.committing || !Fits(c, s) then Sleep
      else Done(s.(used := s.used[p := Some(0)]))
    case Append(p, b) =>
      if LogFull(c, s) then TooBig
      else if Outstanding(s.used) < 1 then OutsideTrans
      else Done(Appended(s, p, b))
    case End(p) =>
      if s.committing then CommitRunning else Done(Ended(s, p))
    case Commit => Done(s.(blocks := [], committing := false))
  }

  ghost predicate Inv(c: Config, s: State) {
    && |s.used| == c.nproc
    && (forall p :: 0 <= p < |s.used| && s.used[p].Some? ==> s.used[p].value <= c.maxOp)
    && |s.blocks| + Unused(s.used, c.maxOp) <= c.logSize
    && (|s.blocks| == 0 || |s.blocks| <= c.nlog - 1)
    && Distinct(s.blocks)
    && (s.committing ==> Outstanding(s.used) == 0)
    && (Outstanding(s.used) == 0 && !s.committing ==> s.blocks == [])
  }

  // ---------- sums over the process table ----------

  lemma {:induction false} SumsAfterUpdate(used: seq<Option<nat>>, p: nat, v: Option<nat>, m: int)
    requires p < |used|
    ensures var used' := used[p := v];
            && Outstanding(used') == Outstanding(used)
                 - (if used[p].Some? then 1 else 0) + (if v.Some? then 1 else 0)
            && Unused(used', m) == Unused(used, m)
                 - (if used[p].Some? then m - used[p].value else 0)
                 + (if v.Some? then m - v.value else 0)
  {
    var n := |used| - 1;
    var used' := used[p := v];
    if p == n {
      assert used'[..n] == used[..n];
    } else {
      assert used'[..n] == used[..n][p := v];
      SumsAfterUpdate(used[..n], p, v, m);
    }
  }

  lemma {:induction false} UnusedAtMost(used: seq<Option<nat>>, m: nat)
    requires forall p :: 0 <= p < |used| && used[p].Some? ==> used[p].value <= m
    ensures 0 <= Unused(used, m) <= Outstanding(used) * m
  {
    if used != [] {
      var rest := used[..|used| - 1];
      UnusedAtMost(rest, m);
      OneMore(Outstanding(rest), m);
    }
  }

  lemma OneMore(n: nat, m: nat)
    ensures (n + 1) * m == n * m + m
  {
  }

  lemma {:induction false} UnusedAtLeast(used: seq<Option<nat>>, m: nat, p: nat)
    requires forall q :: 0 <= q < |used| && used[q].Some? ==> used[q].value <= m
    requires p < |used| && used[p].Some?
    ensures m - used[p].value <= Unused(used, m) && 1 <= Outstanding(used)
  {
    UnusedAtMost(used[..|used| - 1], m);
    if p < |used| - 1 {
      UnusedAtLeast(used[..|used| - 1], m, p);
    }
  }

  // ---------- what every step keeps ----------

  lemma BeginKeepsInv(c: Config, s: State, p: nat)
    requires Inv(c, s) && p < |s.used| && s.used[p].None? && !s.committing && Fits(c, s)
    ensures Inv(c, s.(used := s.used[p := Some(0)]))
    ensures Outstanding(s.used[p := Some(0)]) == Outstanding(s.used) + 1
  {
    UnusedAtMost(s.used, c.maxOp);
    SumsAfterUpdate(s.used, p, Some(0), c.maxOp);
    OneMore(Outstanding(s.used), c.maxOp);
  }

  lemma AppendKeepsInv(c: Config, s: State, p: nat, b: int)
    requires Inv(c, s) && MayAppend(c, s, p, b)
    ensures !LogFull(c, s) ==> Inv(c, Appended(s, p, b))
    ensures Outstanding(Appended(s, p, b).used) == Outstanding(s.used) >= 1 && !s.committing
  {
    UnusedAtLeast(s.used, c.maxOp, p);
    SumsAfterUpdate(s.used, p, Some(s.used[p].value + 1), c.maxOp);
  }

  lemma EndKeepsInv(c: Config, s: State, p: nat)
    requires Inv(c, s) && p < |s.used| && s.used[p].Some?
    ensures Inv(c, Ended(s, p)) && !s.committing
    ensures Outstanding(Ended(s, p).used) == Outstanding(s.used) - 1
  {
    UnusedAtLeast(s.used, c.maxOp, p);
    SumsAfterUpdate(s.used, p, None, c.maxOp);
  }

  lemma CommitKeepsInv(c: Config, s: State)
    requires Inv(c, s) && s.committing
    ensures Inv(c, s.(blocks := [], committing := false))
  {
    UnusedAtMost(s.used, c.maxOp);
  }

  lemma StepKeepsInv(c: Config, s: State, e: Event)
    requires Inv(c, s) && Enabled(c, s, e)
    ensures Step(c, s, e).Done? ==> Inv(c, Step(c, s, e).s)
    ensures Step(c, s, e) != OutsideTrans && Step(c, s, e) != CommitRunning
  {
    match e
    case Begin(p) => if !s.committing && Fits(c, s) { BeginKeepsInv(c, s, p); }
    case Append(p, b) => AppendKeepsInv(c, s, p, b);
    case End(p) => EndKeepsInv(c, s, p);
    case Commit => CommitKeepsInv(c, s);
  }

  // ---------- whole runs ----------

  function Initial(c: Config): State {
    State([], seq(c.nproc, i => None), false)
  }

  // The state after a run in which every step is enabled and completes.
  function Run(c: Config, es: seq<Event>): Option<State> {
    if es == [] then Some(Initial(c))
    else
      var s := Run(c, es[..|es| - 1]);
      var e := es[|es| - 1];
      if s.Some? && Enabled(c, s.value, e) && Step(c, s.value, e).Done?
      then Some(Step(c, s.value, e).s) else None
  }

  lemma {:induction false} NobodyYet(n: nat, m: int)
    ensures Outstanding(seq(n, i => None)) == 0 && Unused(seq(n, i => None), m) == 0
  {
    if n > 0 {
      var s := seq(n, i => Option<nat>.None);
      assert s[..n - 1] == seq(n - 1, i => Option<nat>.None);
      NobodyYet(n - 1, m);
    }
  }

  /** Over every run, the logged blocks plus what the running operations may still add fit in
      LOGSIZE, logged blocks are distinct and fit the on-disk log, and no operation is
      running while a commit is. */
  lemma {:induction false} ReservationHolds(c: Config, es: seq<Event>)
    requires Run(c, es).Some?
    ensures Inv(c, Run(c, es).value)
  {
    if es == [] {
      NobodyYet(c.nproc, c.maxOp);
    } else {
      ReservationHolds(c, es[..|es| - 1]);
      StepKeepsInv(c, Run(c, es[..|es| - 1]).value, es[|es| - 1]);
    }
  }

  // ---------- when "too big a transaction" can be reached ----------

  ghost predicate Reachable(c: Config, s: State) {
    exists es :: Run(c, es) == Some(s)
  }

  // In s, a write of b by process p, which may make it, meets the panic of log_write().
  predicate WritePanics(c: Config, s: State, p: nat, b: int) {
    Enabled(c, s, Append(p, b)) && Step(c, s, Append(p, b)).TooBig?
  }

  // Some run leads to a write that is within its operation's budget and panics.
  ghost predicate WriteCanPanic(c: Config) {
    exists s, p, b :: Reachable(c, s) && WritePanics(c, s, p, b)
  }

  // Some run leads to an operation that is within its budget and is refused a new block.
  ghost predicate NewBlockCanPanic(c: Config) {
    exists s, p, b :: Reachable(c, s) && WritePanics(c, s, p, b) && b !in s.blocks
  }

  predicate TwoFit(c: Config) {
    0 < c.maxOp && 2 <= c.nproc && 2 * c.maxOp <= c.logSize
  }

  // The most blocks that can be logged while an operation runs, in a log that is long enough:
  // when only one operation fits, it commits at its end and the next one finds the log empty.
  function Reach(c: Config): (n: nat)
    ensures n <= c.logSize
  {
    if TwoFit(c) then c.logSize
    else if 1 <= c.nproc && c.maxOp <= c.logSize then c.maxOp
    else 0
  }

  // ---------- what only one operation at a time can log ----------

  ghost predicate OneAtATime(c: Config, s: State) {
    forall p :: 0 <= p < |s.used| && s.used[p].Some? ==>
      && |s.blocks| <= s.used[p].value && c.maxOp <= c.logSize
      && (0 < c.maxOp ==> Alone(s.used, p))
  }

  predicate Alone(used: seq<Option<nat>>, p: int) {
    forall q :: 0 <= q < |used| && used[q].Some? ==> q == p
  }

  lemma {:induction false} SomeoneRuns(used: seq<Option<nat>>) returns (p: nat)
    requires 0 < Outstanding(used)
    ensures p < |used| && used[p].Some?
  {
    p := |used| - 1;
    if used[p].None? {
      p := SomeoneRuns(used[..p]);
    }
  }

  lemma BeginsAlone(c: Config, s: State, p: nat)
    requires !TwoFit(c) && Inv(c, s) && OneAtATime(c, s)
    requires p < |s.used| && s.used[p].None? && !s.committing && Fits(c, s)
    ensures s.blocks == [] && c.maxOp <= c.logSize
    ensures 0 < c.maxOp ==> forall q :: 0 <= q < |s.used| ==> s.used[q].None?
  {
    OneMore(Outstanding(s.used), c.maxOp);
    if Outstanding(s.used) > 0 {
      var q := SomeoneRuns(s.used);
      if c.maxOp > 0 {
        TimesMonotone(2, Outstanding(s.used) + 1, c.maxOp);
        assert false;
      }
    } else {
      forall q | 0 <= q < |s.used| && s.used[q].Some?
        ensures false
      {
        UnusedAtLeast(s.used, c.maxOp, q);
      }
    }
  }

  lemma TimesMonotone(a: nat, b: nat, m: nat)
    requires a <= b
    ensures a * m <= b * m
  {
    assert b * m == a * m + (b - a) * m;
  }

  lemma StepKeepsOneAtATime(c: Config, s: State, e: Event)
    requires !TwoFit(c) && Inv(c, s) && OneAtATime(c, s) && Enabled(c, s, e) && Step(c, s, e).Done?
    ensures OneAtATime(c, Step(c, s, e).s)
  {
    match e
    case Begin(p) => BeginsAlone(c, s, p);
    case Append(p, b) =>
    case End(p) =>
    case Commit =>
  }

  lemma {:induction false} RunsOneAtATime(c: Config, es: seq<Event>)
    requires !TwoFit(c) && Run(c, es).Some?
    ensures OneAtATime(c, Run(c, es).value)
  {
    if es != [] {
      var fs := es[..|es| - 1];
      RunsOneAtATime(c, fs);
      ReservationHolds(c, fs);
      StepKeepsOneAtATime(c, Run(c, fs).value, es[|es| - 1]);
    }
  }

  // ---------- runs that fill the log ----------

  lemma StepReaches(c: Config, s: State, e: Event)
    requires Reachable(c, s) && Enabled(c, s, e) && Step(c, s, e).Done?
    ensures Reachable(c, Step(c, s, e).s)
  {
    var es :| Run(c, es) == Some(s);
    assert (es + [e])[..|es|] == es;
    assert Run(c, es + [e]) == Some(Step(c, s, e).s);
  }

  // Blocks 0 to n - 1 are logged, process 0 has added u of them and process 1 is in state o.
  function Filled(c: Config, n: nat, u: nat, o: Option<nat>): State {
    State(seq(n, i => i), seq(c.nproc, p => if p == 0 then Some(u) else if p == 1 then o else None),
          false)
  }

  lemma FilledRuns(c: Config, n: nat, u: nat, o: Option<nat>)
    requires 1 <= c.nproc
    ensures Outstanding(Filled(c, n, u, o).used)
         == if c.nproc >= 2 && o.Some? then 2 else 1
  {
    var none := seq(c.nproc, i => Option<nat>.None);
    NobodyYet(c.nproc, 0);
    SumsAfterUpdate(none, 0, Some(u), 0);
    var one := none[0 := Some(u)];
    if c.nproc >= 2 {
      SumsAfterUpdate(one, 1, o, 0);
      assert one[1 := o] == Filled(c, n, u, o).used;
    } else {
      assert one == Filled(c, n, u, o).used;
    }
  }

  // The state with n blocks logged: process 0 runs all along and adds its blocks last; before
  // it, process 1 adds blocks, in many short operations while begin_op() lets it start anew.
  function Filling(c: Config, n: nat): State {
    if !TwoFit(c) then Filled(c, n, n, None)
    else
      var free := c.logSize - 2 * c.maxOp;
      if n <= free then Filled(c, n, 0, None)
      else if n <= free + c.maxOp then Filled(c, n, 0, Some(n - free))
      else Filled(c, n, n - free - c.maxOp, Some(c.maxOp))
  }

  lemma Starts(c: Config)
    requires 0 < Reach(c)
    ensures Reachable(c, Filling(c, 0))
  {
    assert Run(c, []) == Some(Initial(c));
    NobodyYet(c.nproc, c.maxOp);
    StepReaches(c, Initial(c), Begin(0));
    assert Initial(c).used[0 := Some(0)] == Filling(c, 0).used;
    assert Initial(c).(used := Filling(c, 0).used) == Filling(c, 0);
  }

  lemma BeginsOther(c: Config, n: nat)
    requires TwoFit(c) && n + 2 * c.maxOp <= c.logSize && Reachable(c, Filled(c, n, 0, None))
    ensures Reachable(c, Filled(c, n, 0, Some(0)))
  {
    var s := Filled(c, n, 0, None);
    FilledRuns(c, n, 0, None);
    StepReaches(c, s, Begin(1));
    assert s.used[1 := Some(0)] == Filled(c, n, 0, Some(0)).used;
  }

  lemma AppendsFirst(c: Config, n: nat, u: nat, o: Option<nat>)
    requires 1 <= c.nproc && u < c.maxOp && n < c.logSize && n < c.nlog - 1
    requires Reachable(c, Filled(c, n, u, o))
    ensures Reachable(c, Filled(c, n + 1, u + 1, o))
  {
    var s := Filled(c, n, u, o);
    FilledRuns(c, n, u, o);
    StepReaches(c, s, Append(0, n));
    assert s.used[0 := Some(u + 1)] == Filled(c, n + 1, u + 1, o).used;
    assert s.blocks + [n] == Filled(c, n + 1, u + 1, o).blocks;
  }

  lemma AppendsOther(c: Config, n: nat, u: nat, v: nat)
    requires 2 <= c.nproc && v < c.maxOp && n < c.logSize && n < c.nlog - 1
    requires Reachable(c, Filled(c, n, u, Some(v)))
    ensures Reachable(c, Filled(c, n + 1, u, Some(v + 1)))
  {
    var s := Filled(c, n, u, Some(v));
    FilledRuns(c, n, u, Some(v));
    StepReaches(c, s, Append(1, n));
    assert s.used[1 := Some(v + 1)] == Filled(c, n + 1, u, Some(v + 1)).used;
    assert s.blocks + [n] == Filled(c, n + 1, u, Some(v + 1)).blocks;
  }

  lemma EndsOther(c: Config, n: nat, u: nat, v: nat)
    requires 2 <= c.nproc && Reachable(c, Filled(c, n, u, Some(v)))
    ensures Reachable(c, Filled(c, n, u, None))
  {
    var s := Filled(c, n, u, Some(v));
    FilledRuns(c, n, u, None);
    StepReaches(c, s, End(1));
    assert s.used[1 := None] == Filled(c, n, u, None).used;
  }

  lemma {:induction false} FillsUp(c: Config, n: nat)
    requires n <= Reach(c) && 0 < Reach(c) && (n == 0 || n <= c.nlog - 1)
    ensures Reachable(c, Filling(c, n))
  {
    hide Reachable, Filled;
    if n == 0 {
      Starts(c);
    } else {
      FillsUp(c, n - 1);
      var m, free := n - 1, c.logSize - 2 * c.maxOp;
      if !TwoFit(c) {
        AppendsFirst(c, m, m, None);
      } else if m <= free {
        BeginsOther(c, m);
        AppendsOther(c, m, 0, 0);
        if m < free {
          EndsOther(c, n, 0, 1);
        }
      } else if m < free + c.maxOp {
        AppendsOther(c, m, 0, m - free);
      } else {
        AppendsFirst(c, m, m - free - c.maxOp, Some(c.maxOp));
      }
    }
  }

  // ---------- exactly when it panics ----------

  lemma ReachBounds(c: Config, s: State, p: nat, b: int)
    requires Reachable(c, s) && WritePanics(c, s, p, b)
    ensures Inv(c, s) && 0 < Reach(c) && |s.blocks| <= Reach(c)
    ensures b !in s.blocks ==> |s.blocks| < Reach(c)
  {
    var es :| Run(c, es) == Some(s);
    ReservationHolds(c, es);
    UnusedAtLeast(s.used, c.maxOp, p);
    UnusedAtMost(s.used, c.maxOp);
    if !TwoFit(c) {
      RunsOneAtATime(c, es);
    }
  }

  lemma LongLogTakesNewBlocks(c: Config, s: State, p: nat, b: int)
    requires c.logSize < c.nlog && Reachable(c, s) && b !in s.blocks
    ensures !WritePanics(c, s, p, b)
  {
    if WritePanics(c, s, p, b) {
      ReachBounds(c, s, p, b);
    }
  }

  /** log_write() can refuse a new block to an operation that is within its budget exactly
      when the on-disk log is no longer than the most blocks that can be reserved: the
      reservation counts data blocks, and the header takes one block of the log. */
  lemma NewBlockPanicExactly(c: Config)
    ensures NewBlockCanPanic(c) <==> 0 < Reach(c) && c.nlog <= Reach(c)
  {
    if 0 < Reach(c) && c.nlog <= Reach(c) {
      var n: nat := if c.nlog == 0 then 0 else c.nlog - 1;
      FillsUp(c, n);
      assert WritePanics(c, Filling(c, n), 0, n);
    }
    if NewBlockCanPanic(c) {
      var s, p, b :| Reachable(c, s) && WritePanics(c, s, p, b) && b !in s.blocks;
      ReachBounds(c, s, p, b);
    }
  }

  /** log_write() tests for a full log before it looks for the block in the log, so a write of a
      block that is already logged can panic as well. Some write can panic exactly when the
      reservation lets the log fill up, whatever the length of the on-disk log, or when the
      on-disk log is too short. */
  lemma WritePanicExactly(c: Config)
    ensures WriteCanPanic(c) <==> 0 < Reach(c) && (Reach(c) == c.logSize || c.nlog - 1 <= Reach(c))
  {
    if 0 < Reach(c) && (Reach(c) == c.logSize || c.nlog - 1 <= Reach(c)) {
      var n: nat := if c.nlog <= 1 then 0 else if c.nlog - 1 <= Reach(c) then c.nlog - 1 else Reach(c);
      FillsUp(c, n);
      assert n > 0 ==> Filling(c, n).blocks[0] == 0;
      assert WritePanics(c, Filling(c, n), 0, 0);
    }
    if WriteCanPanic(c) {
      var s, p, b :| Reachable(c, s) && WritePanics(c, s, p, b);
      ReachBounds(c, s, p, b);
    }
  }

  // kernel/param.h and mkfs/mkfs.c choose 30 log blocks, 10 per operation, 64 processes and
  // an on-disk log of 30 blocks.
  const SHIPPED := Config(30, 10, 30, 64)

  // One more block on disk would let every new block in.
  lemma ShippedLogIsOneShort()
    ensures NewBlockCanPanic(SHIPPED) && !NewBlockCanPanic(SHIPPED.(nlog := 31))
  {
    NewBlockPanicExactly(SHIPPED);
    NewBlockPanicExactly(SHIPPED.(nlog := 31));
  }

  // No on-disk log is long enough for a write of a block that is already logged: with all 30
  // blocks logged, process 0 writes block 0 once more.
  lemma ShippedLogRefusesLoggedBlocks(nlog: nat)
    requires 31 <= nlog
    ensures var c := SHIPPED.(nlog := nlog);
            var s := Filling(c, 30);
            Reachable(c, s) && 0 in s.blocks && WritePanics(c, s, 0, 0)
  {
    var c := SHIPPED.(nlog := nlog);
    FillsUp(c, 30);
    assert Filling(c, 30).blocks[0] == 0;
  }
}
