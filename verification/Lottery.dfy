/**
 The lottery draw of the scheduler (kernel/proc.c): partial sums of the tickets of the RUNNABLE
 processes, and a binary search for the winner.
 */
module Lottery {
  import opened Options

  datatype Proc = Proc(runnable: bool, tickets: nat)

  const INT_LIMIT: nat := 0x8000_0000

  function Weight(q: Proc): nat {
    if q.runnable then q.tickets else 0
  }

  // The tickets in play among the first k processes.
  function Sum(procs: seq<Proc>, k: nat): nat
    requires k <= |procs|
  {
    if k == 0 then 0 else Sum(procs, k - 1) + Weight(procs[k - 1])
  }

  function Total(procs: seq<Proc>): nat {
    Sum(procs, |procs|)
  }

  // The first process, from k on, at which the running sum passes w.
  function Scan(procs: seq<Proc>, w: nat, k: nat): (i: nat)
    requires k <= |procs| && Sum(procs, k) <= w < Total(procs)
    ensures k <= i < |procs| && Sum(procs, i) <= w < Sum(procs, i + 1)
    decreases |procs| - k
  {
    if w < Sum(procs, k + 1) then k else Scan(procs, w, k + 1)
  }

  lemma {:induction false} SumGrows(procs: seq<Proc>, i: nat, j: nat)
    requires i <= j <= |procs|
    ensures Sum(procs, i) <= Sum(procs, j)
    decreases j
  {
    if i < j { SumGrows(procs, i, j - 1); }
  }

  // At most one process brackets w.
  lemma BracketUnique(procs: seq<Proc>, w: nat, i: nat, j: nat)
    requires i < |procs| && j < |procs|
    requires Sum(procs, i) <= w < Sum(procs, i + 1) && Sum(procs, j) <= w < Sum(procs, j + 1)
    ensures i == j
  {
    if i < j {
      SumGrows(procs, i + 1, j);
    } else if j < i {
      SumGrows(procs, j + 1, i);
    }
  }

  // tickets_partial_sums[], read under each process's lock; no addition leaves the int range.
  method PartialSums(procs: seq<Proc>) returns (sums: array<int>)
    requires Total(procs) < INT_LIMIT
    ensures sums.Length == |procs| + 1 && forall k :: 0 <= k <= |procs| ==> sums[k] == Sum(procs, k)
  {
    var n := |procs|;
    sums := new int[n + 1];
    sums[0] := 0;
    for i := 0 to n
      invariant forall k :: 0 <= k <= i ==> sums[k] == Sum(procs, k)
    {
      var sum := sums[i];
      if procs[i].runnable {
        sum := sum + procs[i].tickets;
      }
      assert sum == Sum(procs, i + 1);
      SumGrows(procs, i + 1, n);
      assert sum < INT_LIMIT;
      sums[i + 1] := sum;
    }
  }

  // The binary search for the winning process.
  method Search(sums: array<int>, n: nat, winner: int) returns (lo: nat)
    requires 0 < n && sums.Length == n + 1 && sums[0] <= winner < sums[n]
    ensures lo < n && sums[lo] <= winner < sums[lo + 1]
  {
    lo := 0;
    var hi := n;
    while hi - lo > 1
      invariant 0 <= lo < hi <= n
      invariant sums[lo] <= winner < sums[hi]
    {
      var med := (lo + hi) / 2;
      if winner < sums[med] {
        hi := med;
      } else {
        lo := med;
      }
    }
  }

  // One turn of the scheduler's loop up to the choice.
  method Draw(procs: seq<Proc>, rand: nat) returns (chosen: Option<nat>)
    requires Total(procs) < INT_LIMIT
    ensures chosen.None? <==> Total(procs) == 0
    ensures chosen.Some? ==> Total(procs) > 0 && chosen.value == Scan(procs, rand % Total(procs), 0)
  {
    var sums := PartialSums(procs);
    if sums[|procs|] == 0 { return None; }
    var winner := rand % sums[|procs|];
    var lo := Search(sums, |procs|, winner);
    BracketUnique(procs, winner, lo, Scan(procs, winner, 0));
    chosen := Some(lo);
  }

  // The winner values for which process i is chosen.
  ghost function Winners(procs: seq<Proc>, i: nat): set<nat> {
    set w: nat | w < Total(procs) && Scan(procs, w, 0) == i
  }

  lemma {:induction false} IntervalSize(a: nat, b: nat, s: set<nat>)
    requires a <= b && forall w: nat :: w in s <==> a <= w < b
    ensures |s| == b - a
    decreases b
  {
    if a < b {
      IntervalSize(a, b - 1, s - {b - 1});
      assert s == (s - {b - 1}) + {b - 1};
    } else {
      assert s == {};
    }
  }

  // Every process is chosen by exactly as many winner values as it has tickets in play.
  lemma Exact(procs: seq<Proc>, i: nat)
    requires i < |procs|
    ensures |Winners(procs, i)| == if procs[i].runnable then procs[i].tickets else 0
  {
    forall w: nat
      ensures w in Winners(procs, i) <==> Sum(procs, i) <= w < Sum(procs, i + 1)
    {
      SumGrows(procs, i + 1, |procs|);
      if Sum(procs, i) <= w < Sum(procs, i + 1) {
        BracketUnique(procs, w, i, Scan(procs, w, 0));
      }
    }
    IntervalSize(Sum(procs, i), Sum(procs, i + 1), Winners(procs, i));
  }
}
