/**
 The counter `final` of Tasks/+TASKS/synch/pamixad.c, which is stop flag and barrier in one:
 worker threads count in cells of their own until it is not 0 and then add 1 to it, main adds 1
 after a while and spins until it exceeds the number of threads.

 Every access to shared memory is a step of its own; `++*param` is a load and a store. The log
 `work` counts the stores each worker has made.
 */
module Barrier {
  import opened Common

  datatype Worker = Unborn | Check | Load | Store(tmp: int) | Inc | Exited

  datatype Main = Spawning(i: nat) | Spinning | Printing(i: nat) | Freed

  datatype State = State(
    final: nat,
    data: seq<int>,
    work: seq<nat>,
    workers: seq<Worker>,
    main: Main,
    printed: seq<int>)

  datatype Event = Work(i: nat) | MainStep

  predicate Enabled(n: nat, s: State, e: Event) {
    |s.data| == n && |s.work| == n && |s.workers| == n &&
    match e
    case Work(i) => i < n && !s.workers[i].Unborn? && !s.workers[i].Exited?
    case MainStep => !s.main.Freed? && (s.main.Spawning? || s.main.Printing? ==> s.main.i <= n)
  }

  function Next(n: nat, s: State, e: Event): State
    requires Enabled(n, s, e)
  {
    match e
    case Work(i) => WorkerStep(s, i)
    case MainStep =>
      match s.main
      case Spawning(i) =>
        if i < n then s.(workers := s.workers[i := Check], main := Spawning(i + 1))
        else s.(final := s.final + 1, main := Spinning)
      case Spinning => if s.final < n + 1 then s else s.(main := Printing(0))
      case Printing(i) =>
        if i < n then s.(printed := s.printed + [s.data[i]], main := Printing(i + 1))
        else s.(main := Freed)
  }

  function WorkerStep(s: State, i: nat): State
    requires i < |s.workers| == |s.data| == |s.work|
  {
    match s.workers[i]
    case Check => s.(workers := s.workers[i := if s.final == 0 then Load else Inc])
    case Load => s.(workers := s.workers[i := Store(s.data[i])])
    case Store(tmp) =>
      s.(data := s.data[i := U64(tmp + 1)], work := s.work[i := s.work[i] + 1], workers := s.workers[i := Check])
    case Inc => s.(final := s.final + 1, workers := s.workers[i := Exited])
    case _ => s
  }

  function Init(n: nat): State {
    State(0, seq(n, _ => 0), seq(n, _ => 0), seq(n, _ => Unborn), Spawning(0), [])
  }

  predicate StepAt(n: nat, ss: seq<State>, es: seq<Event>, k: nat)
    requires |ss| == |es| + 1 && k < |es|
  {
    Enabled(n, ss[k], es[k]) && ss[k + 1] == Next(n, ss[k], es[k])
  }

  ghost predicate IsRun(n: nat, ss: seq<State>, es: seq<Event>) {
    |ss| == |es| + 1 && ss[0] == Init(n) && forall k :: 0 <= k < |es| ==> StepAt(n, ss, es, k)
  }

  // ------------------------------------------------------------------ the invariant

  /** Whether main has added its 1. */
  predicate Signalled(m: Main) {
    !m.Spawning?
  }

  predicate Passed(m: Main) {
    m.Printing? || m.Freed?
  }

  function Exits(ws: seq<Worker>): seq<int> {
    seq(|ws|, i requires 0 <= i < |ws| => if ws[i].Exited? then 1 else 0)
  }

  predicate WorkerOk(w: Worker, cell: int, work: nat, signalled: bool) {
    && cell == U64(work)
    && (w.Store? ==> w.tmp == cell)
    && (w.Inc? || w.Exited? ==> signalled)
  }

  ghost predicate Inv(n: nat, s: State) {
    && |s.data| == n && |s.work| == n && |s.workers| == n
    && s.final == (if Signalled(s.main) then 1 else 0) + Sum(Exits(s.workers))
    && (forall i :: 0 <= i < n ==> WorkerOk(s.workers[i], s.data[i], s.work[i], Signalled(s.main)))
    && (s.main.Spawning? ==> s.main.i <= n)
    && (forall i :: 0 <= i < n ==> (s.workers[i].Unborn? <==> s.main.Spawning? && i >= s.main.i))
    && (Passed(s.main) ==> forall i :: 0 <= i < n ==> s.workers[i].Exited?)
    && (s.main.Printing? ==> s.main.i <= n && s.printed == s.data[..s.main.i])
    && (s.main.Freed? ==> s.printed == s.data)
    && (!Passed(s.main) ==> s.printed == [])
  }

  lemma ExitsUpdate(ws: seq<Worker>, i: nat, w: Worker)
    requires i < |ws|
    ensures Sum(Exits(ws[i := w])) == Sum(Exits(ws)) - Exits(ws)[i] + (if w.Exited? then 1 else 0)
  {
    SumUpdate(Exits(ws), i, if w.Exited? then 1 else 0);
    assert Exits(ws[i := w]) == Exits(ws)[i := if w.Exited? then 1 else 0];
  }

  /** A sum of zeros and ones is as large as it can be only when all of them are ones. */
  lemma {:induction false} SumOfOnes(s: seq<int>, i: nat)
    requires forall k :: 0 <= k < |s| ==> 0 <= s[k] <= 1
    requires i < |s|
    ensures Sum(s) <= |s| && (Sum(s) == |s| ==> s[i] == 1)
  {
    if |s| > 1 { SumOfOnes(s[1..], if i == 0 then 0 else i - 1); }
  }

  lemma CounterStep(work: nat)
    ensures U64(U64(work) + 1) == U64(work + 1)
  {
  }

  lemma WorkKeepsInv(n: nat, s: State, i: nat)
    requires Inv(n, s) && Enabled(n, s, Work(i))
    ensures Inv(n, Next(n, s, Work(i)))
  {
    assert WorkerOk(s.workers[i], s.data[i], s.work[i], Signalled(s.main));
    ExitsUpdate(s.workers, i, Next(n, s, Work(i)).workers[i]);
    CounterStep(s.work[i]);
    if s.workers[i].Check? && s.final != 0 && !Signalled(s.main) { NobodyOut(n, s); }
  }

  /** Before main's signal nobody has exited. */
  lemma NobodyOut(n: nat, s: State)
    requires Inv(n, s) && !Signalled(s.main)
    ensures s.final == 0
  {
    forall i | 0 <= i < n ensures Exits(s.workers)[i] == 0 {
      assert WorkerOk(s.workers[i], s.data[i], s.work[i], Signalled(s.main));
    }
    SumConstant(Exits(s.workers), 0);
  }

  /** When the counter exceeds the number of workers, all of them have exited. */
  lemma AllOut(n: nat, s: State)
    requires Inv(n, s) && s.final >= n + 1
    ensures Signalled(s.main) && forall i :: 0 <= i < n ==> s.workers[i].Exited?
  {
    if !Signalled(s.main) { NobodyOut(n, s); }
    forall i | 0 <= i < n ensures s.workers[i].Exited? {
      SumOfOnes(Exits(s.workers), i);
    }
  }

  lemma MainKeepsInv(n: nat, s: State)
    requires Inv(n, s) && Enabled(n, s, MainStep)
    ensures Inv(n, Next(n, s, MainStep))
  {
    match s.main
    case Spawning(i) =>
      if i < n {
        ExitsUpdate(s.workers, i, Check);
        assert WorkerOk(s.workers[i], s.data[i], s.work[i], false);
      } else {
        forall j | 0 <= j < n ensures WorkerOk(s.workers[j], s.data[j], s.work[j], true) {
          assert WorkerOk(s.workers[j], s.data[j], s.work[j], false);
        }
      }
    case Spinning => if s.final >= n + 1 { AllOut(n, s); }
    case Printing(i) => assert i < n ==> s.data[..i] + [s.data[i]] == s.data[..i + 1];
  }

  lemma {:induction false} RunKeepsInv(n: nat, ss: seq<State>, es: seq<Event>, k: nat)
    requires IsRun(n, ss, es) && k <= |es|
    ensures Inv(n, ss[k])
  {
    if k == 0 {
      SumConstant(Exits(Init(n).workers), 0);
    } else {
      RunKeepsInv(n, ss, es, k - 1);
      assert StepAt(n, ss, es, k - 1);
      if es[k - 1].Work? { WorkKeepsInv(n, ss[k - 1], es[k - 1].i); } else { MainKeepsInv(n, ss[k - 1]); }
    }
  }

  // ------------------------------------------------------------------ the main results

  /** The counter is main's signal plus the number of exited workers; nobody exits before the signal. */
  lemma FinalCounts(n: nat, ss: seq<State>, es: seq<Event>, k: nat)
    requires IsRun(n, ss, es) && k <= |es|
    ensures ss[k].final == (if Signalled(ss[k].main) then 1 else 0) + Sum(Exits(ss[k].workers))
    ensures |ss[k].workers| == n && forall i :: 0 <= i < n && ss[k].workers[i].Exited? ==> Signalled(ss[k].main)
  {
    RunKeepsInv(n, ss, es, k);
    forall i | 0 <= i < n && ss[k].workers[i].Exited? ensures Signalled(ss[k].main) {
      assert WorkerOk(ss[k].workers[i], ss[k].data[i], ss[k].work[i], Signalled(ss[k].main));
    }
  }

  /** Once main is past its spin no worker ever makes a step again, so the data stays as it is. */
  lemma {:induction false} QuietAfterSpin(n: nat, ss: seq<State>, es: seq<Event>, j: nat, k: nat)
    requires IsRun(n, ss, es) && j <= k <= |es| && Passed(ss[j].main)
    ensures Passed(ss[k].main) && ss[k].data == ss[j].data && ss[k].work == ss[j].work
    ensures forall m :: j <= m < k ==> es[m].MainStep?
  {
    if j < k {
      QuietAfterSpin(n, ss, es, j, k - 1);
      RunKeepsInv(n, ss, es, k - 1);
      assert StepAt(n, ss, es, k - 1);
    }
  }

  /** How many times worker `i` has written its cell in the first `k` events. */
  function Stores(ss: seq<State>, es: seq<Event>, i: nat, k: nat): nat
    requires |ss| == |es| + 1 && k <= |es|
  {
    if k == 0 then 0
    else
      Stores(ss, es, i, k - 1)
      + (if es[k - 1] == Work(i) && i < |ss[k - 1].workers| && ss[k - 1].workers[i].Store? then 1 else 0)
  }

  lemma {:induction false} WorkIsStores(n: nat, ss: seq<State>, es: seq<Event>, i: nat, k: nat)
    requires IsRun(n, ss, es) && k <= |es| && i < n
    ensures |ss[k].work| == n && ss[k].work[i] == Stores(ss, es, i, k)
  {
    if k > 0 {
      WorkIsStores(n, ss, es, i, k - 1);
      RunKeepsInv(n, ss, es, k - 1);
      assert StepAt(n, ss, es, k - 1);
    }
  }

  /** In every run each cell holds the number of times its worker has written it, in 64 bits. */
  lemma CellsCountStores(n: nat, ss: seq<State>, es: seq<Event>, i: nat, k: nat)
    requires IsRun(n, ss, es) && k <= |es| && i < n
    ensures |ss[k].data| == n && ss[k].data[i] == U64(Stores(ss, es, i, k))
  {
    WorkIsStores(n, ss, es, i, k);
    RunKeepsInv(n, ss, es, k);
    assert WorkerOk(ss[k].workers[i], ss[k].data[i], ss[k].work[i], Signalled(ss[k].main));
  }

  /** When main frees the cells it has printed every worker's total, and no worker can still write to them. */
  lemma PrintedTotals(n: nat, ss: seq<State>, es: seq<Event>, k: nat)
    requires IsRun(n, ss, es) && k <= |es| && ss[k].main.Freed?
    ensures |ss[k].printed| == |ss[k].work| == n && forall i :: 0 <= i < n ==> ss[k].printed[i] == U64(ss[k].work[i])
    ensures forall i :: 0 <= i < n ==> ss[k].printed[i] == U64(Stores(ss, es, i, k))
    ensures forall i: nat :: !Enabled(n, ss[k], Work(i))
  {
    RunKeepsInv(n, ss, es, k);
    forall i | 0 <= i < n ensures ss[k].printed[i] == U64(ss[k].work[i]) {
      assert WorkerOk(ss[k].workers[i], ss[k].data[i], ss[k].work[i], true);
    }
    forall i | 0 <= i < n ensures ss[k].printed[i] == U64(Stores(ss, es, i, k)) {
      WorkIsStores(n, ss, es, i, k);
    }
  }

  /** Steps a worker still makes once the counter is not 0. */
  function StepsToExit(w: Worker): nat {
    match w
    case Load => 4
    case Store(_) => 3
    case Check => 2
    case Inc => 1
    case _ => 0
  }

  function WorkLeft(ws: seq<Worker>): seq<int> {
    seq(|ws|, i requires 0 <= i < |ws| => StepsToExit(ws[i]))
  }

  /**
   After the signal the barrier comes down: every step of a worker brings the end nearer, some
   worker can move as long as there is any left, and then main's next look at the counter passes.
   */
  lemma BarrierEnds(n: nat, s: State)
    requires Inv(n, s) && s.main.Spinning?
    ensures forall i: nat :: Enabled(n, s, Work(i)) ==>
              Sum(WorkLeft(Next(n, s, Work(i)).workers)) == Sum(WorkLeft(s.workers)) - 1
    ensures Sum(WorkLeft(s.workers)) <= 4 * n
    ensures (exists i: nat :: Enabled(n, s, Work(i))) || Next(n, s, MainStep).main == Printing(0)
  {
    assert s.final >= 1 by { SumNonNegative(Exits(s.workers)); }
    forall i: nat | Enabled(n, s, Work(i))
      ensures Sum(WorkLeft(Next(n, s, Work(i)).workers)) == Sum(WorkLeft(s.workers)) - 1
    {
      var to := Next(n, s, Work(i)).workers;
      SumUpdate(WorkLeft(s.workers), i, StepsToExit(to[i]));
      assert WorkLeft(to) == WorkLeft(s.workers)[i := StepsToExit(to[i])];
    }
    SumAtMost(WorkLeft(s.workers), 4);
    if forall i: nat :: !Enabled(n, s, Work(i)) {
      forall i | 0 <= i < n ensures Exits(s.workers)[i] == 1 {
        assert !Enabled(n, s, Work(i));
      }
      SumConstant(Exits(s.workers), 1);
    }
  }

  lemma {:induction false} SumAtMost(s: seq<int>, m: nat)
    requires forall i :: 0 <= i < |s| ==> s[i] <= m
    ensures Sum(s) <= m * |s|
  {
    if s != [] {
      SumAtMost(s[1..], m);
      assert m * |s| == m * |s[1..]| + m;
    }
  }
}
