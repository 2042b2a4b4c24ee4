/**
 Nested loops under a semaphore, Tasks/thread/mlock/mlock.c: a chain of worker threads runs
 loop_func, which takes the semaphore and counts `locked++` at recursion level `sync`; every
 thread waits for the thread it started before it reports its own completion.

 A thread's call stack is explicit, so that `down`, the load and the store of `locked++`, each
 iteration, `up` and the return are separate steps that the other threads may interleave with.
 Integers are unbounded: the counters are assumed to fit a C long.
 */
module Mlock {
  import opened Common

  /** The module parameters; `workers` is the number of threads that `num` gives rise to. */
  datatype Params = Params(num: int, rep: int, sync: int, maxLevel: nat) {
    function Workers(): (w: nat)
      ensures w >= 1
    {
      if num >= 1 then num else 1
    }

    /** Number of iterations of `for( i = 0; i < rep; i++ )`. */
    function Reps(): nat {
      if rep > 0 then rep else 0
    }

    /** The level that locks; -1 when there is none. */
    function Level(): int {
      if sync > maxLevel then -1 else sync
    }
  }

  datatype Phase = Enter | Load | Store(tmp: int) | Body | Leave

  /** Activation records of loop_func, the innermost first. */
  datatype Stack = Nil | Call(lvl: nat, phase: Phase, i: nat, n: int, caller: Stack)

  datatype Thread = Unborn | Born | Looping(stack: Stack) | Waiting(n: int) | Completing(n: int) | Done(n: int)

  datatype State = State(sema: nat, locked: int, threads: seq<Thread>, passed: bool)

  datatype Event = Step(k: nat) | MainPasses

  // ------------------------------------------------------------------ one step of one thread

  datatype Outcome = Outcome(sema: nat, locked: int, thread: Thread)

  predicate StackEnabled(p: Params, sema: nat, stack: Stack) {
    stack.Call? && (stack.phase.Enter? && stack.lvl == p.Level() ==> sema > 0)
  }

  /** `Completing` of a finished loop_func stands for the result being returned to thread_func. */
  function StackStep(p: Params, sema: nat, locked: int, s: Stack): Outcome
    requires StackEnabled(p, sema, s)
  {
    match s.phase
    case Enter =>
      if s.lvl == p.Level() then Outcome(sema - 1, locked, Looping(s.(phase := Load)))
      else Outcome(sema, locked, Looping(s.(phase := Body)))
    case Load =>
      Outcome(sema, locked, Looping(s.(phase := Store(locked))))
    case Store(tmp) =>
      Outcome(sema, tmp + 1, Looping(s.(phase := Body)))
    case Body =>
      if s.lvl == 0 then Outcome(sema, locked, Looping(s.(phase := Leave, n := 1)))
      else if s.i < p.rep then Outcome(sema, locked, Looping(Call(s.lvl - 1, Enter, 0, 0, s)))
      else Outcome(sema, locked, Looping(s.(phase := Leave)))
    case Leave =>
      var up := if s.lvl == p.Level() then sema + 1 else sema;
      match s.caller
      case Nil => Outcome(up, locked, Completing(s.n))
      case Call(_, _, _, _, _) =>
        Outcome(up, locked, Looping(s.caller.(n := s.caller.n + s.n, i := s.caller.i + 1)))
  }

  predicate Enabled(p: Params, s: State, e: Event) {
    match e
    case MainPasses => !s.passed && |s.threads| > 0 && s.threads[|s.threads| - 1].Done?
    case Step(k) =>
      k < |s.threads| &&
      match s.threads[k]
      case Unborn => false
      case Born => true
      case Looping(stack) => StackEnabled(p, s.sema, stack)
      case Waiting(_) => k > 0 && s.threads[k - 1].Done?
      case Completing(_) => true
      case Done(_) => false
  }

  /** Thread number `k` starts thread `k - 1`, loops, waits for it if there is one, and completes. */
  function Next(p: Params, s: State, e: Event): State
    requires Enabled(p, s, e)
  {
    match e
    case MainPasses => s.(passed := true)
    case Step(k) =>
      match s.threads[k]
      case Born =>
        var born := if k > 0 then s.threads[k - 1 := Born] else s.threads;
        s.(threads := born[k := Looping(Call(p.maxLevel, Enter, 0, 0, Nil))])
      case Looping(stack) =>
        var r := StackStep(p, s.sema, s.locked, stack);
        var t := if r.thread.Completing? && k > 0 then Waiting(r.thread.n) else r.thread;
        State(r.sema, r.locked, s.threads[k := t], s.passed)
      case Waiting(n) => s.(threads := s.threads[k := Completing(n)])
      case Completing(n) => s.(threads := s.threads[k := Done(n)])
  }

  function Init(p: Params): State {
    State(1, 0, seq(p.Workers(), k => if k == p.Workers() - 1 then Born else Unborn), false)
  }

  predicate StepAt(p: Params, ss: seq<State>, es: seq<Event>, k: nat)
    requires |ss| == |es| + 1 && k < |es|
  {
    Enabled(p, ss[k], es[k]) && ss[k + 1] == Next(p, ss[k], es[k])
  }

  ghost predicate IsRun(p: Params, ss: seq<State>, es: seq<Event>) {
    |ss| == |es| + 1 && ss[0] == Init(p) && forall k :: 0 <= k < |es| ==> StepAt(p, ss, es, k)
  }

  // ------------------------------------------------------------------ what one call does

  /** k * x as k additions, which is how the loop of loop_func gets there. */
  function Times(k: int, x: int): int
    decreases k
  {
    if k <= 0 then 0 else Times(k - 1, x) + x
  }

  lemma {:induction false} TimesIsProduct(k: nat, x: int)
    ensures Times(k, x) == k * x
  {
    if k > 0 {
      TimesIsProduct(k - 1, x);
      assert k * x == (k - 1) * x + x;
    }
  }

  /** How often a call of loop_func at level `lvl` increments `locked`. */
  function Locks(p: Params, lvl: nat): int {
    if p.Level() < 0 || lvl < p.Level() then 0
    else if lvl == p.Level() then 1
    else Times(p.Reps(), Locks(p, lvl - 1))
  }

  lemma {:induction false} LocksIsPower(p: Params, lvl: nat)
    ensures Locks(p, lvl) == if 0 <= p.Level() <= lvl then Pow(p.Reps(), lvl - p.Level()) else 0
  {
    if 0 <= p.Level() < lvl {
      LocksIsPower(p, lvl - 1);
      TimesIsProduct(p.Reps(), Locks(p, lvl - 1));
    }
  }

  /** How many steps a call of loop_func at level `lvl` takes, from entry to return. */
  function Cost(p: Params, lvl: nat): int {
    (if lvl == p.Level() then 4 else 2)
    + (if lvl == 0 then 1 else Times(p.Reps(), 1 + Cost(p, lvl - 1)) + 1)
  }

  // ------------------------------------------------------------------ well-formed stacks

  /** The partial sum held by one activation record. */
  predicate FrameOk(p: Params, s: Stack)
    requires s.Call?
  {
    match s.phase
    case Enter => s.i == 0 && s.n == 0
    case Load => s.i == 0 && s.n == 0 && s.lvl == p.Level()
    case Store(_) => s.i == 0 && s.n == 0 && s.lvl == p.Level()
    case Body => s.i <= p.Reps() && (if s.lvl == 0 then s.n == 0 else s.n == Times(s.i, Pow(p.Reps(), s.lvl - 1)))
    case Leave => s.n == Pow(p.Reps(), s.lvl)
  }

  /** Levels grow by one towards the outermost call, which is at maxLevel; callers are inside their loop. */
  predicate StackOk(p: Params, s: Stack) {
    s.Call? && FrameOk(p, s) && s.lvl <= p.maxLevel &&
    match s.caller
    case Nil => s.lvl == p.maxLevel
    case Call(lvl, phase, i, _, _) => lvl == s.lvl + 1 && phase == Body && i < p.Reps() && StackOk(p, s.caller)
  }

  /** Number of activation records of the stack that are between `down` and `up`. */
  function Held(p: Params, s: Stack): nat {
    match s
    case Nil => 0
    case Call(lvl, phase, _, _, caller) =>
      (if lvl == p.Level() && phase != Enter then 1 else 0) + Held(p, caller)
  }

  /** Increments of `locked` still to come from the loops of the callers. */
  function CallersLocks(p: Params, s: Stack): int {
    match s
    case Nil => 0
    case Call(lvl, _, i, _, caller) =>
      (if lvl == 0 then 0 else Times(p.Reps() - i - 1, Locks(p, lvl - 1))) + CallersLocks(p, caller)
  }

  function FrameLocks(p: Params, s: Stack): int
    requires s.Call?
  {
    match s.phase
    case Enter => Locks(p, s.lvl)
    case Load => 1
    case Store(_) => 1
    case Body => if s.lvl == 0 then 0 else Times(p.Reps() - s.i, Locks(p, s.lvl - 1))
    case Leave => 0
  }

  /** Steps still to come from the loops of the callers. */
  function CallersCost(p: Params, s: Stack): int {
    match s
    case Nil => 0
    case Call(lvl, _, i, _, caller) =>
      (if lvl == 0 then 0 else Times(p.Reps() - i - 1, 1 + Cost(p, lvl - 1)) + 2) + CallersCost(p, caller)
  }

  function FrameCost(p: Params, s: Stack): int
    requires s.Call?
  {
    match s.phase
    case Enter => Cost(p, s.lvl)
    case Load => Cost(p, s.lvl) - 1
    case Store(_) => Cost(p, s.lvl) - 2
    case Body => if s.lvl == 0 then 2 else Times(p.Reps() - s.i, 1 + Cost(p, s.lvl - 1)) + 2
    case Leave => 1
  }

  /** Levels below the locking one cannot lock again. */
  lemma {:induction false} HeldAtMostOnce(p: Params, s: Stack)
    requires StackOk(p, s)
    ensures Held(p, s) == if p.Level() > s.lvl || (p.Level() == s.lvl && s.phase != Enter) then 1 else 0
  {
    if s.caller.Call? { HeldAtMostOnce(p, s.caller); }
  }

  // ------------------------------------------------------------------ measures of a thread

  function ThreadHeld(p: Params, t: Thread): nat {
    if t.Looping? then Held(p, t.stack) else 0
  }

  function ThreadLocks(p: Params, t: Thread): int {
    match t
    case Unborn => Locks(p, p.maxLevel)
    case Born => Locks(p, p.maxLevel)
    case Looping(stack) => if stack.Nil? then 0 else FrameLocks(p, stack) + CallersLocks(p, stack.caller)
    case _ => 0
  }

  /** Steps a thread still has to make; `tail` counts the steps after the loop. */
  function ThreadCost(p: Params, t: Thread, tail: nat): int {
    match t
    case Unborn => 1 + Cost(p, p.maxLevel) + tail
    case Born => 1 + Cost(p, p.maxLevel) + tail
    case Looping(stack) => if stack.Nil? then 0 else FrameCost(p, stack) + CallersCost(p, stack.caller) + tail
    case Waiting(_) => 2
    case Completing(_) => 1
    case Done(_) => 0
  }

  predicate ThreadOk(p: Params, t: Thread, locked: int) {
    match t
    case Looping(stack) => StackOk(p, stack) && (stack.phase.Store? ==> stack.phase.tmp == locked)
    case Waiting(n) => n == Pow(p.Reps(), p.maxLevel)
    case Completing(n) => n == Pow(p.Reps(), p.maxLevel)
    case Done(n) => n == Pow(p.Reps(), p.maxLevel)
    case _ => true
  }

  /** One step inside loop_func conserves the semaphore, the future increments and the step count. */
  predicate Conserves(p: Params, sema: nat, locked: int, s: Stack)
    requires StackEnabled(p, sema, s)
  {
    var r := StackStep(p, sema, locked, s);
    && ThreadOk(p, r.thread, r.locked)
    && (r.thread.Looping? || r.thread.Completing?)
    && r.sema + ThreadHeld(p, r.thread) == sema + Held(p, s)
    && r.locked + ThreadLocks(p, r.thread) == locked + ThreadLocks(p, Looping(s))
    && ThreadCost(p, r.thread, 1) == ThreadCost(p, Looping(s), 1) - 1
    && (r.locked != locked ==> Held(p, s) > 0)
  }

  lemma BodyConserves(p: Params, sema: nat, locked: int, s: Stack)
    requires StackOk(p, s) && StackEnabled(p, sema, s) && s.phase.Body?
    ensures Conserves(p, sema, locked, s)
  {
    if 0 < s.lvl && s.i >= p.rep {
      TimesIsProduct(p.Reps(), Pow(p.Reps(), s.lvl - 1));
    }
  }

  lemma LeaveConserves(p: Params, sema: nat, locked: int, s: Stack)
    requires StackOk(p, s) && StackEnabled(p, sema, s) && s.phase.Leave?
    ensures Conserves(p, sema, locked, s)
  {
  }

  lemma TakeConserves(p: Params, sema: nat, locked: int, s: Stack)
    requires StackOk(p, s) && StackEnabled(p, sema, s) && (s.phase.Store? ==> s.phase.tmp == locked)
    requires !s.phase.Body? && !s.phase.Leave?
    ensures Conserves(p, sema, locked, s)
  {
    TimesIsProduct(p.Reps(), 0);
  }

  lemma StackStepConserves(p: Params, sema: nat, locked: int, s: Stack)
    requires StackOk(p, s) && StackEnabled(p, sema, s) && (s.phase.Store? ==> s.phase.tmp == locked)
    ensures Conserves(p, sema, locked, s)
  {
    match s.phase
    case Body => BodyConserves(p, sema, locked, s);
    case Leave => LeaveConserves(p, sema, locked, s);
    case _ => TakeConserves(p, sema, locked, s);
  }

  // ------------------------------------------------------------------ the invariant

  function Helds(p: Params, ts: seq<Thread>): seq<int> {
    seq(|ts|, k requires 0 <= k < |ts| => ThreadHeld(p, ts[k]))
  }

  function LocksLeft(p: Params, ts: seq<Thread>): seq<int> {
    seq(|ts|, k requires 0 <= k < |ts| => ThreadLocks(p, ts[k]))
  }

  function Costs(p: Params, ts: seq<Thread>): seq<int> {
    seq(|ts|, k requires 0 <= k < |ts| => ThreadCost(p, ts[k], Tail(k)))
  }

  /** Steps of thread number `k` after its loop: complete, and before that a wait if it started a thread. */
  function Tail(k: nat): nat {
    if k > 0 then 2 else 1
  }

  /** Steps that a state still has to make until every thread is done and main has passed its wait. */
  function StepsLeft(p: Params, s: State): int {
    Sum(Costs(p, s.threads)) + (if s.passed then 0 else 1)
  }

  /** Who may be in which stage: threads are started from the top down and end from the bottom up. */
  predicate ChainOk(ts: seq<Thread>) {
    && |ts| >= 1
    && !ts[|ts| - 1].Unborn?
    && !ts[0].Waiting?
    && (forall k :: 0 < k < |ts| ==> LinkOk(ts[k], ts[k - 1]))
  }

  /** A thread and the thread it starts. */
  predicate LinkOk(t: Thread, child: Thread) {
    && (child.Unborn? <==> t.Unborn? || t.Born?)
    && (t.Completing? || t.Done? ==> child.Done?)
  }

  ghost predicate Inv(p: Params, s: State) {
    && |s.threads| == p.Workers()
    && ChainOk(s.threads)
    && (forall k :: 0 <= k < |s.threads| ==> ThreadOk(p, s.threads[k], s.locked))
    && s.sema + Sum(Helds(p, s.threads)) == 1
    && s.locked + Sum(LocksLeft(p, s.threads)) == p.Workers() * Locks(p, p.maxLevel)
    && (s.passed ==> s.threads[|s.threads| - 1].Done?)
  }

  /** Replacing one thread changes each sum by the difference of that thread. */
  lemma SumsUpdate(p: Params, ts: seq<Thread>, k: nat, t: Thread)
    requires k < |ts|
    ensures Sum(Helds(p, ts[k := t])) == Sum(Helds(p, ts)) - ThreadHeld(p, ts[k]) + ThreadHeld(p, t)
    ensures Sum(LocksLeft(p, ts[k := t])) == Sum(LocksLeft(p, ts)) - ThreadLocks(p, ts[k]) + ThreadLocks(p, t)
    ensures Sum(Costs(p, ts[k := t])) == Sum(Costs(p, ts)) - ThreadCost(p, ts[k], Tail(k)) + ThreadCost(p, t, Tail(k))
  {
    SumUpdate(Helds(p, ts), k, ThreadHeld(p, t));
    assert Helds(p, ts[k := t]) == Helds(p, ts)[k := ThreadHeld(p, t)];
    SumUpdate(LocksLeft(p, ts), k, ThreadLocks(p, t));
    assert LocksLeft(p, ts[k := t]) == LocksLeft(p, ts)[k := ThreadLocks(p, t)];
    SumUpdate(Costs(p, ts), k, ThreadCost(p, t, Tail(k)));
    assert Costs(p, ts[k := t]) == Costs(p, ts)[k := ThreadCost(p, t, Tail(k))];
  }

  /** The semaphore excludes: while a thread holds it no other thread does. */
  lemma OneHolder(p: Params, s: State, j: nat, k: nat)
    requires Inv(p, s) && j < |s.threads| && k < |s.threads| && j != k
    ensures ThreadHeld(p, s.threads[j]) == 0 || ThreadHeld(p, s.threads[k]) == 0
  {
    SumBounds(Helds(p, s.threads), if j < k then j else k, if j < k then k else j);
  }

  /** A loop step of thread `k` leaves the other threads' views of `locked` intact. */
  lemma OthersKeepView(p: Params, s: State, k: nat, locked: int)
    requires Inv(p, s) && k < |s.threads| && s.threads[k].Looping?
    requires locked != s.locked ==> ThreadHeld(p, s.threads[k]) > 0
    ensures forall j :: 0 <= j < |s.threads| && j != k ==> ThreadOk(p, s.threads[j], locked)
  {
    forall j | 0 <= j < |s.threads| && j != k ensures ThreadOk(p, s.threads[j], locked) {
      OneHolder(p, s, j, k);
      if s.threads[j].Looping? { HeldAtMostOnce(p, s.threads[j].stack); }
    }
  }

  /** Every step keeps the invariant and uses up exactly one of the steps left. */
  lemma StepKeepsInv(p: Params, s: State, e: Event)
    requires Inv(p, s) && Enabled(p, s, e)
    ensures Inv(p, Next(p, s, e)) && StepsLeft(p, Next(p, s, e)) == StepsLeft(p, s) - 1
  {
    match e
    case MainPasses =>
    case Step(k) =>
      match s.threads[k]
      case Born => BornKeepsInv(p, s, k);
      case Looping(_) => LoopKeepsInv(p, s, k);
      case _ => TailKeepsInv(p, s, k);
  }

  lemma BornKeepsChain(ts: seq<Thread>, k: nat, stack: Stack)
    requires ChainOk(ts) && k < |ts| && ts[k].Born?
    ensures ChainOk((if k > 0 then ts[k - 1 := Born] else ts)[k := Looping(stack)])
  {
    if k > 0 {
      assert LinkOk(ts[k], ts[k - 1]);
      assert k > 1 ==> LinkOk(ts[k - 1], ts[k - 2]);
    }
    assert k + 1 < |ts| ==> LinkOk(ts[k + 1], ts[k]);
  }

  /** A thread that goes on, waits for its child, or has none and completes. */
  lemma MoveKeepsChain(ts: seq<Thread>, k: nat, t: Thread)
    requires ChainOk(ts) && k < |ts| && !ts[k].Unborn? && !ts[k].Born? && !ts[k].Done?
    requires !t.Unborn? && !t.Born? && (t.Waiting? ==> k > 0)
    requires k > 0 && (t.Completing? || t.Done?) ==> ts[k - 1].Done?
    ensures ChainOk(ts[k := t])
  {
    assert k > 0 ==> LinkOk(ts[k], ts[k - 1]);
    assert k + 1 < |ts| ==> LinkOk(ts[k + 1], ts[k]);
  }

  lemma BornKeepsInv(p: Params, s: State, k: nat)
    requires Inv(p, s) && k < |s.threads| && s.threads[k].Born?
    ensures Inv(p, Next(p, s, Step(k))) && StepsLeft(p, Next(p, s, Step(k))) == StepsLeft(p, s) - 1
  {
    var ts := if k > 0 then s.threads[k - 1 := Born] else s.threads;
    if k > 0 {
      assert LinkOk(s.threads[k], s.threads[k - 1]);
      SumsUpdate(p, s.threads, k - 1, Born);
    }
    BornKeepsChain(s.threads, k, Call(p.maxLevel, Enter, 0, 0, Nil));
    var t := Looping(Call(p.maxLevel, Enter, 0, 0, Nil));
    assert Held(p, t.stack) == Held(p, Nil);
    SumsUpdate(p, ts, k, t);
  }

  lemma TailKeepsInv(p: Params, s: State, k: nat)
    requires Inv(p, s) && Enabled(p, s, Step(k)) && (s.threads[k].Waiting? || s.threads[k].Completing?)
    ensures Inv(p, Next(p, s, Step(k))) && StepsLeft(p, Next(p, s, Step(k))) == StepsLeft(p, s) - 1
  {
    assert k > 0 ==> LinkOk(s.threads[k], s.threads[k - 1]);
    MoveKeepsChain(s.threads, k, Next(p, s, Step(k)).threads[k]);
    SumsUpdate(p, s.threads, k, Next(p, s, Step(k)).threads[k]);
  }

  lemma LoopKeepsInv(p: Params, s: State, k: nat)
    requires Inv(p, s) && Enabled(p, s, Step(k)) && s.threads[k].Looping?
    ensures Inv(p, Next(p, s, Step(k))) && StepsLeft(p, Next(p, s, Step(k))) == StepsLeft(p, s) - 1
  {
    var stack := s.threads[k].stack;
    StackStepConserves(p, s.sema, s.locked, stack);
    var r := StackStep(p, s.sema, s.locked, stack);
    OthersKeepView(p, s, k, r.locked);
    MoveKeepsChain(s.threads, k, Next(p, s, Step(k)).threads[k]);
    SumsUpdate(p, s.threads, k, Next(p, s, Step(k)).threads[k]);
  }

  lemma InitHasInv(p: Params)
    ensures Inv(p, Init(p))
  {
    var ts := Init(p).threads;
    SumConstant(Helds(p, ts), 0);
    SumConstant(LocksLeft(p, ts), Locks(p, p.maxLevel));
  }

  lemma {:induction false} RunKeepsInv(p: Params, ss: seq<State>, es: seq<Event>, n: nat)
    requires IsRun(p, ss, es) && n <= |es|
    ensures Inv(p, ss[n]) && StepsLeft(p, ss[n]) == StepsLeft(p, ss[0]) - n
  {
    if n == 0 {
      InitHasInv(p);
    } else {
      RunKeepsInv(p, ss, es, n - 1);
      assert StepAt(p, ss, es, n - 1);
      StepKeepsInv(p, ss[n - 1], es[n - 1]);
    }
  }

  // ------------------------------------------------------------------ the main results

  /** A thread about to take the semaphore does not hold it already. */
  lemma NeverTakenTwice(p: Params, ss: seq<State>, es: seq<Event>, n: nat, k: nat)
    requires IsRun(p, ss, es) && n <= |es| && k < |ss[n].threads| && ss[n].threads[k].Looping?
    requires var s := ss[n].threads[k].stack; s.Call? && s.phase.Enter? && s.lvl == p.Level()
    ensures Held(p, ss[n].threads[k].stack) == 0
  {
    RunKeepsInv(p, ss, es, n);
    HeldAtMostOnce(p, ss[n].threads[k].stack);
  }

  /** The semaphore lets at most one thread in at a time. */
  lemma MutualExclusion(p: Params, ss: seq<State>, es: seq<Event>, n: nat, j: nat, k: nat)
    requires IsRun(p, ss, es) && n <= |es| && j < k < |ss[n].threads|
    ensures ThreadHeld(p, ss[n].threads[j]) + ThreadHeld(p, ss[n].threads[k]) <= 1
  {
    RunKeepsInv(p, ss, es, n);
    SumBounds(Helds(p, ss[n].threads), j, k);
  }

  /** Below a finished thread every thread is finished: nobody signals a completion whose owner is gone. */
  lemma {:induction false} DoneDownwards(p: Params, s: State, k: nat, j: nat)
    requires ChainOk(s.threads) && j <= k < |s.threads| && s.threads[k].Done?
    ensures s.threads[j].Done?
  {
    if j < k {
      assert LinkOk(s.threads[k], s.threads[k - 1]);
      DoneDownwards(p, s, k - 1, j);
    }
  }

  /**
   When test_mlock passes its wait, every thread has done rep^max_level units of work and
   `locked` has counted rep^(max_level - sync) passages for each of them, or none without a lock.
   */
  lemma CountsWhenMainPasses(p: Params, ss: seq<State>, es: seq<Event>, n: nat)
    requires IsRun(p, ss, es) && n <= |es| && ss[n].passed
    ensures ss[n].sema == 1
    ensures p.num >= 1 ==> |ss[n].threads| == p.num
    ensures p.num < 1 ==> |ss[n].threads| == 1
    ensures p.rep >= 0 ==> forall k :: 0 <= k < |ss[n].threads| ==> ss[n].threads[k] == Done(Pow(p.rep, p.maxLevel))
    ensures p.rep < 0 ==> forall k :: 0 <= k < |ss[n].threads| ==> ss[n].threads[k] == Done(Pow(0, p.maxLevel))
    ensures 0 <= p.sync <= p.maxLevel && p.rep >= 0 ==>
              ss[n].locked == |ss[n].threads| * Pow(p.rep, p.maxLevel - p.sync)
    ensures 0 <= p.sync <= p.maxLevel && p.rep < 0 ==> ss[n].locked == |ss[n].threads| * Pow(0, p.maxLevel - p.sync)
    ensures !(0 <= p.sync <= p.maxLevel) ==> ss[n].locked == 0
  {
    RunKeepsInv(p, ss, es, n);
    var ts := ss[n].threads;
    forall k | 0 <= k < |ts| ensures ts[k] == Done(Pow(p.Reps(), p.maxLevel)) {
      DoneDownwards(p, ss[n], |ts| - 1, k);
      assert ThreadOk(p, ts[k], ss[n].locked);
    }
    SumConstant(Helds(p, ts), 0);
    SumConstant(LocksLeft(p, ts), 0);
    LocksIsPower(p, p.maxLevel);
  }

  ghost predicate Finished(s: State) {
    s.passed && forall k :: 0 <= k < |s.threads| ==> s.threads[k].Done?
  }

  /** With thread `k` not done and everything below it done or blocked, some thread can move. */
  lemma {:induction false} SomeoneMoves(p: Params, s: State, k: nat) returns (e: Event)
    requires Inv(p, s) && s.sema == 1 && k < |s.threads|
    requires !s.threads[k].Done? && !s.threads[k].Unborn?
    ensures Enabled(p, s, e)
  {
    e := Step(k);
    assert ThreadOk(p, s.threads[k], s.locked);
    if s.threads[k].Waiting? && !s.threads[k - 1].Done? {
      assert LinkOk(s.threads[k], s.threads[k - 1]);
      e := SomeoneMoves(p, s, k - 1);
    }
  }

  /** No reachable state is stuck before everything is finished. */
  lemma NeverStuck(p: Params, s: State) returns (e: Event)
    requires Inv(p, s) && !Finished(s)
    ensures Enabled(p, s, e)
  {
    var top := |s.threads| - 1;
    if s.threads[top].Done? {
      if s.passed {
        forall k | 0 <= k < |s.threads| ensures s.threads[k].Done? {
          DoneDownwards(p, s, top, k);
        }
      }
      e := MainPasses;
    } else if s.sema == 1 {
      e := SomeoneMoves(p, s, top);
    } else {
      SumNonNegative(Helds(p, s.threads));
      var k := SumPositive(Helds(p, s.threads));
      assert ThreadOk(p, s.threads[k], s.locked);
      HeldAtMostOnce(p, s.threads[k].stack);
      e := Step(k);
    }
  }

  /** The steps of a complete run, whatever the interleaving. */
  function RunLength(p: Params): int {
    StepsLeft(p, Init(p))
  }

  lemma {:induction false} CallersCostNonNegative(p: Params, s: Stack)
    requires s.Call? ==> StackOk(p, s) && s.i < p.Reps()
    ensures CallersCost(p, s) >= 0
  {
    if s.Call? {
      CallersCostNonNegative(p, s.caller);
      if s.lvl > 0 { CostPositive(p, s.lvl - 1); TimesIsProduct(p.Reps() - s.i - 1, 1 + Cost(p, s.lvl - 1)); }
    }
  }

  lemma {:induction false} CostPositive(p: Params, lvl: nat)
    ensures Cost(p, lvl) >= 3
    ensures lvl == p.Level() ==> Cost(p, lvl) >= 5
  {
    if lvl > 0 {
      CostPositive(p, lvl - 1);
      TimesIsProduct(p.Reps(), 1 + Cost(p, lvl - 1));
    }
  }

  lemma FrameCostPositive(p: Params, s: Stack)
    requires StackOk(p, s)
    ensures FrameCost(p, s) > 0
  {
    CostPositive(p, s.lvl);
    if s.lvl > 0 && s.phase.Body? {
      CostPositive(p, s.lvl - 1);
      TimesIsProduct(p.Reps() - s.i, 1 + Cost(p, s.lvl - 1));
    }
  }

  lemma UnfinishedCosts(p: Params, t: Thread, locked: int, tail: nat)
    requires ThreadOk(p, t, locked)
    ensures ThreadCost(p, t, tail) >= 0
    ensures !t.Done? ==> ThreadCost(p, t, tail) > 0
  {
    CostPositive(p, p.maxLevel);
    if t.Looping? {
      FrameCostPositive(p, t.stack);
      CallersCostNonNegative(p, t.stack.caller);
    }
  }

  /**
   Every run is finite, and the number of its steps does not depend on the interleaving: a run
   has at most RunLength steps, and it has exactly that many if and only if all is finished.
   */
  lemma RunsEnd(p: Params, ss: seq<State>, es: seq<Event>)
    requires IsRun(p, ss, es)
    ensures |es| <= RunLength(p)
    ensures |es| == RunLength(p) <==> Finished(ss[|es|])
  {
    var s := ss[|es|];
    RunKeepsInv(p, ss, es, |es|);
    var cs := Costs(p, s.threads);
    forall k | 0 <= k < |cs| ensures cs[k] >= 0 && (!s.threads[k].Done? ==> cs[k] > 0) {
      UnfinishedCosts(p, s.threads[k], s.locked, Tail(k));
    }
    SumNonNegative(cs);
    if Finished(s) {
      SumConstant(cs, 0);
    } else if s.passed {
      var k :| 0 <= k < |cs| && !s.threads[k].Done?;
      SumBound(cs, k);
    }
  }

  // ------------------------------------------------------------------ the recursion itself

  /** The static variables of the module, as seen by a thread that nobody interrupts. */
  class Globals {
    const p: Params
    var sema: nat
    var locked: int

    constructor (p: Params)
      ensures this.p == p && sema == 1 && locked == 0
    {
      this.p := p;
      sema, locked := 1, 0;
    }

    /** down() blocks for ever when the count is 0, so a caller at or above the locking level may not hold it. */
    method LoopFunc(lvl: nat) returns (n: int)
      requires 0 <= p.sync <= lvl && p.sync <= p.maxLevel ==> sema > 0
      modifies this
      ensures n == Pow(p.Reps(), lvl) && locked == old(locked) + Locks(p, lvl)
      ensures p.rep >= 0 ==> n == Pow(p.rep, lvl)
      ensures p.rep >= 0 && 0 <= p.sync <= lvl && p.sync <= p.maxLevel ==>
                locked == old(locked) + Pow(p.rep, lvl - p.sync)
      ensures !(0 <= p.sync <= lvl && p.sync <= p.maxLevel) ==> locked == old(locked)
      ensures sema == old(sema)
      decreases lvl
    {
      n := 0;
      if lvl == p.Level() {
        sema := sema - 1;
        locked := locked + 1;
      }
      ghost var sema0, locked0 := sema, locked;
      if lvl == 0 {
        n := 1;
      } else {
        var i := 0;
        while i < p.rep
          invariant 0 <= i <= p.Reps()
          invariant n == Times(i, Pow(p.Reps(), lvl - 1))
          invariant locked == locked0 + Times(i, Locks(p, lvl - 1))
          invariant sema == sema0
        {
          var m := LoopFunc(lvl - 1);
          n := n + m;
          i := i + 1;
        }
        TimesIsProduct(p.Reps(), Pow(p.Reps(), lvl - 1));
        TimesIsProduct(p.Reps(), 0);
      }
      if lvl == p.Level() { sema := sema + 1; }
      LocksIsPower(p, lvl);
    }
  }
}
