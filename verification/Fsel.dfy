/**
 The poll/notify file system of Tasks/fuse/fsel.c: 16 files of at most 10 bytes, a producer
 thread that fills them round robin, and poll handles that are notified when a byte arrives.

 A bit mask of the source is the set of its one bits. The calls fuse_notify_poll and
 fuse_pollhandle_destroy are recorded in the logs `notified` and `destroyed`; None stands for
 a null handle, so that "no null handle is ever notified" is proved, not built in.
 */
module FselModel {
  import opened Common

  const FILES: int := 16
  const CNT_MAX: nat := 10

  type File = t: int | 0 <= t < FILES

  /** Identity of a struct fuse_pollhandle. */
  type Handle = nat

  datatype Shared = Shared(
    fuse: bool,
    notify: set<File>,
    slot: seq<Option<Handle>>,
    cnt: seq<nat>,
    notified: seq<Option<Handle>>,
    destroyed: seq<Option<Handle>>,
    passed: set<Handle>,
    produced: seq<nat>,
    consumed: seq<nat>)

  predicate Shaped(s: Shared) {
    |s.slot| == FILES && |s.cnt| == FILES && |s.produced| == FILES && |s.consumed| == FILES
  }

  /** One pass of the producer's inner loop body for file `t`. */
  function Visit(s: Shared, t: File): (r: Shared)
    requires Shaped(s)
  {
    if s.cnt[t] == CNT_MAX then s
    else
      var filled := s.(cnt := s.cnt[t := s.cnt[t] + 1], produced := s.produced[t := s.produced[t] + 1]);
      if s.fuse && t in s.notify then
        filled.(notified := s.notified + [s.slot[t]], destroyed := s.destroyed + [s.slot[t]],
                notify := s.notify - {t}, slot := s.slot[t := None])
      else filled
  }

  /** The part of fsel_poll that runs under the mutex. */
  function PollLocked(s: Shared, t: File, ph: Option<Handle>): (r: Shared)
    requires Shaped(s)
  {
    match ph
    case None => s
    case Some(h) =>
      s.(destroyed := if s.slot[t].Some? then s.destroyed + [s.slot[t]] else s.destroyed,
         notify := s.notify + {t}, slot := s.slot[t := ph], passed := s.passed + {h})
  }

  function ReadLocked(s: Shared, t: File, size: nat): (r: Shared)
    requires Shaped(s)
  {
    var n := Min(s.cnt[t], size);
    s.(cnt := s.cnt[t := s.cnt[t] - n], consumed := s.consumed[t := s.consumed[t] + n])
  }

  // ------------------------------------------------------------------ the interleaved machine

  /** The producer either does not hold the mutex or is about to make visit number `i`, to file `t`. */
  datatype PC = Unlocked | Filling(i: nat, t: File)

  /** The number of files the producer fills per tick. */
  type Span = n: int | n == 1 || n == 2 || n == 4 witness 1

  /** `round` counts how often `idx` has wrapped round to 0. */
  datatype State = State(sh: Shared, idx: File, nr: Span, pc: PC, round: nat)

  /** Number of completed producer ticks. */
  function Ticks(s: State): nat {
    FILES * s.round + s.idx
  }

  /** (t + d) % FILES, written without division. */
  function AddFiles(t: File, d: nat): File
    requires d <= FILES
  {
    if t + d < FILES then t + d else t + d - FILES
  }

  lemma AddFilesIsMod(t: File, d: nat)
    requires d <= FILES
    ensures AddFiles(t, d) == (t + d) % FILES
  {
  }

  /** FILES / nr, written without division. */
  function Stride(nr: Span): (d: nat) {
    if nr == 1 then 16 else if nr == 2 then 8 else 4
  }

  lemma StrideIsQuotient(nr: Span)
    ensures Stride(nr) == FILES / nr
  {
  }

  /** The successor of `nr`, at the end of a round. */
  function NextSpan(nr: Span): Span {
    (nr * 2) % 7
  }

  /** EnterPoll is the unlocked first part of fsel_poll; Lock, Fill and Unlock are the producer's. */
  datatype Event =
    | EnterPoll(cxt: bool)
    | Poll(t: File, ph: Option<Handle>)
    | Read(t: File, size: nat)
    | Lock
    | Fill
    | Unlock

  function Init(): State {
    State(Shared(false, {}, seq(FILES, _ => None), seq(FILES, _ => 0), [], [], {},
                 seq(FILES, _ => 0), seq(FILES, _ => 0)),
          0, 1, Unlocked, 0)
  }

  /** A handle passed to poll is fresh; a locked section waits until the producer has unlocked. */
  predicate Enabled(s: State, e: Event) {
    match e
    case EnterPoll(_) => true
    case Poll(_, ph) => s.pc.Unlocked? && (ph.Some? ==> ph.value !in s.sh.passed)
    case Read(_, _) => s.pc.Unlocked?
    case Lock => s.pc.Unlocked?
    case Fill => s.pc.Filling? && s.pc.i < s.nr
    case Unlock => s.pc.Filling? && s.pc.i >= s.nr
  }

  function Next(s: State, e: Event): (r: State)
    requires Shaped(s.sh) && Enabled(s, e)
  {
    match e
    case EnterPoll(cxt) => s.(sh := s.sh.(fuse := s.sh.fuse || cxt))
    case Poll(t, ph) => s.(sh := PollLocked(s.sh, t, ph))
    case Read(t, size) => s.(sh := ReadLocked(s.sh, t, size))
    case Lock => s.(pc := Filling(0, s.idx))
    case Fill => s.(sh := Visit(s.sh, s.pc.t), pc := Filling(s.pc.i + 1, AddFiles(s.pc.t, Stride(s.nr))))
    case Unlock =>
      var idx := AddFiles(s.idx, 1);
      s.(idx := idx, nr := if idx == 0 then NextSpan(s.nr) else s.nr, pc := Unlocked,
         round := if idx == 0 then s.round + 1 else s.round)
  }

  predicate StepAt(ss: seq<State>, es: seq<Event>, k: nat)
    requires |ss| == |es| + 1 && k < |es|
  {
    Shaped(ss[k].sh) && Enabled(ss[k], es[k]) && ss[k + 1] == Next(ss[k], es[k])
  }

  ghost predicate IsRun(ss: seq<State>, es: seq<Event>) {
    |ss| == |es| + 1 && forall k :: 0 <= k < |es| ==> StepAt(ss, es, k)
  }

  // ------------------------------------------------------------------ the invariant

  /** Each handle ever passed in is in exactly one slot or was destroyed exactly once; no other handle is either. */
  ghost predicate Ownership(s: Shared) {
    forall h: Handle ::
      multiset(s.slot)[Some(h)] + multiset(s.destroyed)[Some(h)] == (if h in s.passed then 1 else 0)
  }

  ghost predicate SharedInv(s: Shared) {
    && Shaped(s)
    && (forall t: File :: t in s.notify <==> s.slot[t].Some?)
    && Ownership(s)
    && None !in s.destroyed
    && (forall p :: multiset(s.notified)[p] <= multiset(s.destroyed)[p])
    && (forall t: File :: s.cnt[t] <= CNT_MAX && s.produced[t] == s.consumed[t] + s.cnt[t])
  }

  ghost predicate ScheduleInv(s: State) {
    && s.nr == Width(s.round)
    && (s.pc.Filling? ==> s.pc.i <= s.nr && s.pc.t == FileAt(s.idx, s.nr, s.pc.i))
  }

  ghost predicate Inv(s: State) {
    SharedInv(s.sh) && ScheduleInv(s)
  }

  lemma VisitKeepsInv(s: Shared, t: File)
    requires SharedInv(s)
    ensures SharedInv(Visit(s, t))
  {
    if s.cnt[t] < CNT_MAX && s.fuse && t in s.notify {
      assert s.slot[t] in multiset(s.slot);
    }
  }

  lemma PollKeepsInv(s: Shared, t: File, ph: Option<Handle>)
    requires SharedInv(s) && (ph.Some? ==> ph.value !in s.passed)
    ensures SharedInv(PollLocked(s, t, ph))
  {
    if ph.Some? {
      assert multiset(s.slot)[ph] == 0;
      assert s.slot[t] in multiset(s.slot);
    }
  }

  /** Every step of the machine keeps the invariant. */
  lemma StepKeepsInv(s: State, e: Event)
    requires Inv(s) && Enabled(s, e)
    ensures Inv(Next(s, e))
  {
    match e
    case Poll(t, ph) => PollKeepsInv(s.sh, t, ph);
    case Fill => VisitKeepsInv(s.sh, s.pc.t);
    case Unlock => WidthStep(s.round);
    case _ =>
  }

  /** The invariant holds in every state of every run from the initial state. */
  lemma {:induction false} RunKeepsInv(ss: seq<State>, es: seq<Event>, n: nat)
    requires IsRun(ss, es) && Inv(ss[0]) && n <= |es|
    ensures Inv(ss[n])
  {
    if n > 0 {
      RunKeepsInv(ss, es, n - 1);
      assert StepAt(ss, es, n - 1);
      StepKeepsInv(ss[n - 1], es[n - 1]);
    }
  }

  lemma InitHasInv()
    ensures Inv(Init())
  {
    var s := Init();
    assert forall h: Handle :: Some(h) !in s.sh.slot;
  }

  // ------------------------------------------------------------------ the state from the history

  /** The event fills file `t` and finds room in it. */
  predicate FindsRoom(s: State, e: Event, t: File) {
    e.Fill? && s.pc.Filling? && s.pc.t == t && Shaped(s.sh) && s.sh.cnt[t] < 10
  }

  /** How many bytes the event takes out of file `t`: as many as asked for, or all that there are. */
  function Drawn(s: State, e: Event, t: File): nat {
    if !(e.Read? && e.t == t && Shaped(s.sh)) then 0
    else if e.size <= s.sh.cnt[t] then e.size else s.sh.cnt[t]
  }

  /** Bytes that the first `n` events bring into file `t`, and bytes that they take out. */
  function Entered(ss: seq<State>, es: seq<Event>, t: File, n: nat): nat
    requires |ss| == |es| + 1 && n <= |es|
  {
    if n == 0 then 0 else Entered(ss, es, t, n - 1) + (if FindsRoom(ss[n - 1], es[n - 1], t) then 1 else 0)
  }

  function Left(ss: seq<State>, es: seq<Event>, t: File, n: nat): nat
    requires |ss| == |es| + 1 && n <= |es|
  {
    if n == 0 then 0 else Left(ss, es, t, n - 1) + Drawn(ss[n - 1], es[n - 1], t)
  }

  lemma StepBalance(s: State, e: Event, t: File)
    requires Inv(s) && Enabled(s, e)
    ensures var r := Next(s, e);
            Shaped(r.sh) && r.sh.cnt[t] + Drawn(s, e, t) == s.sh.cnt[t] + (if FindsRoom(s, e, t) then 1 else 0)
  {
  }

  /** In every run the count of a file is what it was at the start, plus what entered, minus what left. */
  lemma {:induction false} CountsBalance(ss: seq<State>, es: seq<Event>, t: File, n: nat)
    requires IsRun(ss, es) && Inv(ss[0]) && n <= |es|
    ensures Shaped(ss[n].sh) && Shaped(ss[0].sh)
    ensures ss[n].sh.cnt[t] + Left(ss, es, t, n) == ss[0].sh.cnt[t] + Entered(ss, es, t, n)
  {
    if n > 0 {
      CountsBalance(ss, es, t, n - 1);
      RunKeepsInv(ss, es, n - 1);
      assert StepAt(ss, es, n - 1);
      StepBalance(ss[n - 1], es[n - 1], t);
    }
  }

  /** The handle that the event announces and destroys: that of a file it fills, once notification is possible. */
  function Announces(s: State, e: Event): seq<Option<Handle>> {
    if e.Fill? && s.pc.Filling? && FindsRoom(s, e, s.pc.t) && s.sh.fuse && s.sh.slot[s.pc.t].Some? then
      [s.sh.slot[s.pc.t]]
    else []
  }

  /** The handle that the event destroys: one announced, or one whose place a new one takes. */
  function Destroys(s: State, e: Event): seq<Option<Handle>> {
    if e.Poll? then if e.ph.Some? && Shaped(s.sh) && s.sh.slot[e.t].Some? then [s.sh.slot[e.t]] else []
    else Announces(s, e)
  }

  function Announced(ss: seq<State>, es: seq<Event>, n: nat): seq<Option<Handle>>
    requires |ss| == |es| + 1 && n <= |es|
  {
    if n == 0 then [] else Announced(ss, es, n - 1) + Announces(ss[n - 1], es[n - 1])
  }

  function Dropped(ss: seq<State>, es: seq<Event>, n: nat): seq<Option<Handle>>
    requires |ss| == |es| + 1 && n <= |es|
  {
    if n == 0 then [] else Dropped(ss, es, n - 1) + Destroys(ss[n - 1], es[n - 1])
  }

  /** The handle of file `t` after the event: a new one, none after an announcement, or the one before. */
  function SlotAfter(s: State, e: Event, t: File): Option<Handle>
    requires Shaped(s.sh)
  {
    if e.Poll? && e.t == t && e.ph.Some? then e.ph
    else if FindsRoom(s, e, t) && s.sh.fuse then None
    else s.sh.slot[t]
  }

  lemma VisitHandles(s: Shared, u: File, t: File)
    requires SharedInv(s)
    ensures var r := Visit(s, u);
            var out := if s.cnt[u] < 10 && s.fuse && s.slot[u].Some? then [s.slot[u]] else [];
            && r.notified == s.notified + out && r.destroyed == s.destroyed + out && r.fuse == s.fuse && Shaped(r)
            && r.slot[t] == if t == u && s.cnt[u] < 10 && s.fuse then None else s.slot[t]
  {
  }

  lemma PollHandles(s: Shared, u: File, ph: Option<Handle>, t: File)
    requires SharedInv(s)
    ensures var r := PollLocked(s, u, ph);
            var out := if ph.Some? && s.slot[u].Some? then [s.slot[u]] else [];
            && r.notified == s.notified && r.destroyed == s.destroyed + out && r.fuse == s.fuse && Shaped(r)
            && r.slot[t] == if t == u && ph.Some? then ph else s.slot[t]
  {
  }

  lemma FillHandles(s: State, t: File)
    requires Inv(s) && Enabled(s, Fill)
    ensures var r := Next(s, Fill);
            && r.sh.notified == s.sh.notified + Announces(s, Fill)
            && r.sh.destroyed == s.sh.destroyed + Announces(s, Fill)
            && Shaped(r.sh) && r.sh.slot[t] == SlotAfter(s, Fill, t) && r.sh.fuse == s.sh.fuse
  {
    VisitHandles(s.sh, s.pc.t, t);
  }

  lemma StepHandles(s: State, e: Event, t: File)
    requires Inv(s) && Enabled(s, e)
    ensures var r := Next(s, e);
            && r.sh.notified == s.sh.notified + Announces(s, e)
            && r.sh.destroyed == s.sh.destroyed + Destroys(s, e)
            && Shaped(r.sh) && r.sh.slot[t] == SlotAfter(s, e, t)
            && (r.sh.fuse <==> s.sh.fuse || e == EnterPoll(true))
  {
    match e
    case Fill => FillHandles(s, t);
    case Poll(u, ph) => PollHandles(s.sh, u, ph, t);
    case _ =>
  }

  lemma AppendLogs(s: seq<Option<Handle>>, a: seq<Option<Handle>>, b: seq<Option<Handle>>)
    ensures (s + a) + b == s + (a + b)
  {
  }

  lemma RunStepHandles(ss: seq<State>, es: seq<Event>, n: nat)
    requires IsRun(ss, es) && Inv(ss[0]) && n < |es|
    ensures ss[n + 1].sh.notified == ss[n].sh.notified + Announces(ss[n], es[n])
    ensures ss[n + 1].sh.destroyed == ss[n].sh.destroyed + Destroys(ss[n], es[n])
    ensures ss[n + 1].sh.fuse <==> ss[n].sh.fuse || es[n] == EnterPoll(true)
  {
    RunKeepsInv(ss, es, n);
    assert StepAt(ss, es, n);
    StepHandles(ss[n], es[n], 0);
  }

  /** In every run the handles notified are, in order, those of the files filled while notification is possible. */
  lemma {:induction false} NotifiedFollowsHistory(ss: seq<State>, es: seq<Event>, n: nat)
    requires IsRun(ss, es) && Inv(ss[0]) && n <= |es|
    ensures ss[n].sh.notified == ss[0].sh.notified + Announced(ss, es, n)
  {
    if n > 0 {
      NotifiedFollowsHistory(ss, es, n - 1);
      RunStepHandles(ss, es, n - 1);
      AppendLogs(ss[0].sh.notified, Announced(ss, es, n - 1), Announces(ss[n - 1], es[n - 1]));
    }
  }

  /** The handles destroyed are those and the ones that a later poll displaced. */
  lemma {:induction false} DestroyedFollowsHistory(ss: seq<State>, es: seq<Event>, n: nat)
    requires IsRun(ss, es) && Inv(ss[0]) && n <= |es|
    ensures ss[n].sh.destroyed == ss[0].sh.destroyed + Dropped(ss, es, n)
  {
    if n > 0 {
      DestroyedFollowsHistory(ss, es, n - 1);
      RunStepHandles(ss, es, n - 1);
      AppendLogs(ss[0].sh.destroyed, Dropped(ss, es, n - 1), Destroys(ss[n - 1], es[n - 1]));
    }
  }

  /** Notification is possible from the first poll on that finds a context. */
  lemma {:induction false} FuseFollowsPolls(ss: seq<State>, es: seq<Event>, n: nat)
    requires IsRun(ss, es) && Inv(ss[0]) && n <= |es|
    ensures ss[n].sh.fuse <==> ss[0].sh.fuse || EnterPoll(true) in es[..n]
  {
    if n > 0 {
      FuseFollowsPolls(ss, es, n - 1);
      RunStepHandles(ss, es, n - 1);
      assert es[..n] == es[..n - 1] + [es[n - 1]];
    }
  }

  /** After every event of a run a file's handle is the one that the history gives. */
  lemma SlotFollowsHistory(ss: seq<State>, es: seq<Event>, t: File, n: nat)
    requires IsRun(ss, es) && Inv(ss[0]) && n < |es|
    ensures Shaped(ss[n].sh) && Shaped(ss[n + 1].sh) && ss[n + 1].sh.slot[t] == SlotAfter(ss[n], es[n], t)
  {
    RunKeepsInv(ss, es, n);
    assert StepAt(ss, es, n);
    StepHandles(ss[n], es[n], t);
  }

  function UnlockCount(es: seq<Event>): nat {
    if es == [] then 0 else UnlockCount(es[..|es| - 1]) + (if es[|es| - 1].Unlock? then 1 else 0)
  }

  /** The ticks that the schedule counts are the times that the producer gives the mutex back. */
  lemma {:induction false} TicksAreUnlocks(ss: seq<State>, es: seq<Event>, n: nat)
    requires IsRun(ss, es) && n <= |es|
    ensures Ticks(ss[n]) == Ticks(ss[0]) + UnlockCount(es[..n])
  {
    if n > 0 {
      TicksAreUnlocks(ss, es, n - 1);
      assert StepAt(ss, es, n - 1);
      assert es[..n][..n - 1] == es[..n - 1];
    }
  }

  // ------------------------------------------------------------------ no lost wakeup

  /** Handle `h` waits in slot `t` of an empty file, and notification is possible. */
  predicate Awaiting(s: State, t: File, h: Handle) {
    Shaped(s.sh) && s.sh.fuse && s.sh.slot[t] == Some(h) && s.sh.cnt[t] == 0
  }

  /** A poll of file `t` that brings a handle of its own. */
  predicate Replaces(e: Event, t: File) {
    e.Poll? && e.t == t && e.ph.Some?
  }

  /** Some event of es[from..to] replaces the handle of file `t`. */
  predicate Replaced(es: seq<Event>, from: nat, to: nat, t: File)
    requires to <= |es|
  {
    exists j :: from <= j < to && Replaces(es[j], t)
  }

  lemma AwaitingStep(s: State, e: Event, t: File, h: Handle)
    requires Awaiting(s, t, h) && t in s.sh.notify && Enabled(s, e)
    ensures var r := Next(s, e);
            Awaiting(r, t, h) || Some(h) in r.sh.notified || Replaces(e, t)
  {
    if e.Fill? && s.pc.t == t {
      assert Next(s, e).sh.notified == s.sh.notified + [Some(h)];
    }
  }

  lemma NotifiedStep(s: State, e: Event, p: Option<Handle>)
    requires Shaped(s.sh) && Enabled(s, e) && p in s.sh.notified
    ensures p in Next(s, e).sh.notified
  {
    assert s.sh.notified <= Next(s, e).sh.notified;
  }

  /**
   A poll that registers a handle on an empty file is never forgotten: at every later point of
   every run the handle still waits on an empty file, or it has been notified, or a later poll
   of that file has replaced it.
   */
  lemma {:induction false} NoLostWakeup(ss: seq<State>, es: seq<Event>, k: nat, n: nat, t: File, h: Handle)
    requires IsRun(ss, es) && Inv(ss[0])
    requires k < n <= |es| && es[k] == Poll(t, Some(h))
    requires Shaped(ss[k].sh) && ss[k].sh.fuse && ss[k].sh.cnt[t] == 0
    ensures Awaiting(ss[n], t, h) || Some(h) in ss[n].sh.notified || Replaced(es, k + 1, n, t)
  {
    assert StepAt(ss, es, n - 1);
    if n > k + 1 {
      NoLostWakeup(ss, es, k, n - 1, t, h);
      RunKeepsInv(ss, es, n - 1);
      if Awaiting(ss[n - 1], t, h) {
        AwaitingStep(ss[n - 1], es[n - 1], t, h);
      } else if Some(h) in ss[n - 1].sh.notified {
        NotifiedStep(ss[n - 1], es[n - 1], Some(h));
      }
    }
  }

  /** Handle `h` is in slot `t` of a file with room that the tick starting at `t` in round `due` has still to visit. */
  ghost predicate Unvisited(s: State, due: nat, t: File, h: Handle) {
    && Shaped(s.sh)
    && s.sh.fuse && s.sh.slot[t] == Some(h) && s.sh.cnt[t] < CNT_MAX
    && Ticks(s) <= FILES * due + t
    && (s.pc.Filling? && s.pc.i > 0 ==> Ticks(s) < FILES * due + t)
  }

  /** A visit to another file cannot be the first visit of the tick that starts at `t`. */
  lemma UnvisitedFill(s: State, due: nat, t: File, h: Handle)
    requires Unvisited(s, due, t, h) && Enabled(s, Fill) && t in s.sh.notify && ScheduleInv(s)
    ensures Unvisited(Next(s, Fill), due, t, h) || Some(h) in Next(s, Fill).sh.notified
  {
    if s.pc.t == t {
      assert Next(s, Fill).sh.notified == s.sh.notified + [Some(h)];
    } else {
      if s.pc.i == 0 {
        assert s.pc.t == s.idx;
        OtherTick(s.round, s.idx, due, t);
      }
      VisitOther(s.sh, s.pc.t, t);
    }
  }

  lemma OtherTick(r: nat, x: File, due: nat, t: File)
    requires x != t
    ensures FILES * r + x != FILES * due + t
  {
  }

  lemma VisitOther(s: Shared, u: File, t: File)
    requires Shaped(s) && u != t
    ensures var r := Visit(s, u);
            r.fuse == s.fuse && r.slot[t] == s.slot[t] && r.cnt[t] == s.cnt[t]
  {
  }

  lemma UnvisitedStep(s: State, e: Event, due: nat, t: File, h: Handle)
    requires Unvisited(s, due, t, h) && Enabled(s, e) && t in s.sh.notify && ScheduleInv(s)
    ensures var r := Next(s, e);
            Unvisited(r, due, t, h) || Some(h) in r.sh.notified || Replaces(e, t)
  {
    match e
    case Fill => UnvisitedFill(s, due, t, h);
    case Unlock => assert s.pc.i > 0;
    case _ =>
  }

  lemma {:induction false} PendingUntilVisited(ss: seq<State>, es: seq<Event>, n: nat, due: nat, t: File, h: Handle)
    requires IsRun(ss, es) && Inv(ss[0]) && n <= |es|
    requires Unvisited(ss[0], due, t, h)
    ensures Unvisited(ss[n], due, t, h) || Some(h) in ss[n].sh.notified || Replaced(es, 0, n, t)
  {
    if n > 0 {
      PendingUntilVisited(ss, es, n - 1, due, t, h);
      assert StepAt(ss, es, n - 1);
      RunKeepsInv(ss, es, n - 1);
      if Unvisited(ss[n - 1], due, t, h) {
        UnvisitedStep(ss[n - 1], es[n - 1], due, t, h);
      } else if Some(h) in ss[n - 1].sh.notified {
        NotifiedStep(ss[n - 1], es[n - 1], Some(h));
      }
    }
  }

  /**
   Whatever else happens in between, a handle pending on a file that is not full is notified
   (or replaced by a later poll of that file) before 16 producer ticks have passed.
   */
  lemma NotifiedWithin16Ticks(ss: seq<State>, es: seq<Event>, t: File, h: Handle)
    requires IsRun(ss, es) && Inv(ss[0]) && ss[0].pc.Unlocked?
    requires ss[0].sh.fuse && ss[0].sh.slot[t] == Some(h) && ss[0].sh.cnt[t] < CNT_MAX
    requires Ticks(ss[|es|]) >= Ticks(ss[0]) + FILES
    ensures Some(h) in ss[|es|].sh.notified || Replaced(es, 0, |es|, t)
  {
    var s := ss[0];
    var due := if t >= s.idx then s.round else s.round + 1;
    assert Ticks(s) <= FILES * due + t < Ticks(s) + FILES;
    PendingUntilVisited(ss, es, |es|, due, t, h);
  }

  /** From any state, the middle of a tick included, seventeen completed ticks are enough. */
  lemma NotifiedWithin17Ticks(ss: seq<State>, es: seq<Event>, t: File, h: Handle)
    requires IsRun(ss, es) && Inv(ss[0])
    requires ss[0].sh.fuse && ss[0].sh.slot[t] == Some(h) && ss[0].sh.cnt[t] < CNT_MAX
    requires Ticks(ss[|es|]) >= Ticks(ss[0]) + FILES + 1
    ensures Some(h) in ss[|es|].sh.notified || Replaced(es, 0, |es|, t)
  {
    var s := ss[0];
    var due := if t > s.idx then s.round else s.round + 1;
    assert Ticks(s) < FILES * due + t <= Ticks(s) + FILES;
    PendingUntilVisited(ss, es, |es|, due, t, h);
  }

  /** A handle that was notified was notified once, destroyed once, and is in no slot any more. */
  lemma NotifiedExactlyOnce(s: State, h: Handle)
    requires Inv(s) && Some(h) in s.sh.notified
    ensures multiset(s.sh.notified)[Some(h)] == 1 == multiset(s.sh.destroyed)[Some(h)]
    ensures Some(h) !in s.sh.slot && h in s.sh.passed
  {
    assert Some(h) in multiset(s.sh.notified);
    assert multiset(s.sh.notified)[Some(h)] <= multiset(s.sh.destroyed)[Some(h)];
    assert Some(h) in s.sh.slot ==> Some(h) in multiset(s.sh.slot);
  }

  // ------------------------------------------------------------------ the producer's schedule

  /** Number of files visited per tick in round `r` of 16 ticks. */
  function Width(r: nat): Span {
    if r % 3 == 0 then 1 else if r % 3 == 1 then 2 else 4
  }

  /** Doubling modulo 7 walks through 1, 2, 4 for ever. */
  lemma WidthStep(r: nat)
    ensures Width(r + 1) == NextSpan(Width(r))
  {
  }

  /** File of visit number `i` of a tick that starts at file `idx` and makes `nr` visits. */
  function FileAt(idx: File, nr: Span, i: nat): File {
    if i == 0 then idx else AddFiles(FileAt(idx, nr, i - 1), Stride(nr))
  }

  /** Tick number `k`, counted from the start of the producer, visits file `t`. */
  ghost predicate Visits(k: nat, t: File) {
    exists i :: 0 <= i < Width(k / FILES) && FileAt(k % FILES, Width(k / FILES), i) == t
  }

  /** The files of a tick that starts at file `x`, by the width of its round. */
  lemma FilesOfTick(x: File)
    ensures FileAt(x, 1, 0) == FileAt(x, 2, 0) == FileAt(x, 4, 0) == x
    ensures FileAt(x, 2, 1) == AddFiles(x, 8) && FileAt(x, 4, 1) == AddFiles(x, 4)
    ensures FileAt(x, 4, 2) == AddFiles(x, 8) && FileAt(x, 4, 3) == AddFiles(x, 12)
  {
    assert FileAt(x, 4, 2) == AddFiles(FileAt(x, 4, 1), 4);
    assert FileAt(x, 4, 3) == AddFiles(FileAt(x, 4, 2), 4);
  }

  /** The files visited in one tick are pairwise distinct. */
  lemma VisitsDistinct(r: nat, x: File, i: nat, j: nat)
    requires i < j < Width(r)
    ensures FileAt(x, Width(r), i) != FileAt(x, Width(r), j)
  {
    FilesOfTick(x);
  }

  /** In a round of width `w`, file `t` is visited by the ticks number Base(t, w) + multiples of 16 / w. */
  function Base(t: File, w: Span): (u: File)
    ensures w == 1 ==> u == t
    ensures w == 2 ==> u < 8 && (t == u || t == u + 8)
    ensures w == 4 ==> u < 4 && (t == u || t == u + 4 || t == u + 8 || t == u + 12)
  {
    t % (FILES / w)
  }

  lemma VisitsIff(r: nat, x: File, t: File)
    ensures var k, w, u := FILES * r + x, Width(r), Base(t, Width(r));
            Visits(k, t) <==> x == u || (w >= 2 && x == u + 8) || (w == 4 && (x == u + 4 || x == u + 12))
  {
    var k, w := FILES * r + x, Width(r);
    assert k / FILES == r && k % FILES == x;
    FilesOfTick(x);
    assert Visits(k, t) <==>
           (|| FileAt(x, w, 0) == t
            || (w >= 2 && FileAt(x, w, 1) == t)
            || (w == 4 && (FileAt(x, w, 2) == t || FileAt(x, w, 3) == t)));
  }

  /** Number of ticks in [a, b) that visit file `t`. */
  ghost function VisitCount(t: File, a: nat, b: nat): nat
    decreases b
  {
    if b <= a then 0 else VisitCount(t, a, b - 1) + (if Visits(b - 1, t) then 1 else 0)
  }

  lemma {:induction false} VisitCountSplit(t: File, a: nat, b: nat, c: nat)
    requires a <= b <= c
    ensures VisitCount(t, a, c) == VisitCount(t, a, b) + VisitCount(t, b, c)
  {
    if b < c { VisitCountSplit(t, a, b, c - 1); }
  }

  /** How many of the ticks Base(t, w) + multiples of 16 / w come before position `n` of the round. */
  function VisitsBefore(t: File, w: Span, n: nat): nat {
    var u := Base(t, w);
    (if u < n then 1 else 0)
    + (if w >= 2 && u + 8 < n then 1 else 0)
    + (if w == 4 && u + 4 < n then 1 else 0)
    + (if w == 4 && u + 12 < n then 1 else 0)
  }

  lemma {:induction false} PartialRoundCount(t: File, r: nat, n: nat)
    requires n <= FILES
    ensures VisitCount(t, FILES * r, FILES * r + n) == VisitsBefore(t, Width(r), n)
  {
    if n > 0 {
      PartialRoundCount(t, r, n - 1);
      VisitsIff(r, n - 1, t);
    }
  }

  /** A round of 16 ticks visits every file exactly Width(r) times. */
  lemma RoundCount(t: File, r: nat)
    ensures VisitCount(t, FILES * r, FILES * r + FILES) == Width(r)
  {
    PartialRoundCount(t, r, FILES);
  }

  lemma PeriodOfVisits(r: nat, x: File, t: File)
    ensures Visits(FILES * r + x, t) <==> Visits(FILES * r + x + 48, t)
  {
    VisitsIff(r, x, t);
    VisitsIff(r + 3, x, t);
    assert FILES * (r + 3) + x == FILES * r + x + 48;
  }

  /** The widths of three consecutive rounds are 1, 2 and 4 in some rotation. */
  lemma ThreeWidths(r: nat)
    ensures Width(r) + Width(r + 1) + Width(r + 2) == 7
  {
    WidthStep(r);
    WidthStep(r + 1);
  }

  lemma ThreeRounds(t: File, r: nat)
    ensures VisitCount(t, FILES * r, FILES * r + 48) == 7
  {
    var a := FILES * r;
    RoundCount(t, r);
    RoundCount(t, r + 1);
    RoundCount(t, r + 2);
    ThreeWidths(r);
    VisitCountSplit(t, a, a + 16, a + 48);
    VisitCountSplit(t, a + 16, a + 32, a + 48);
  }

  /** Any 48 consecutive ticks, wherever they start, visit every file exactly 7 times. */
  lemma {:induction false} SevenIn48(t: File, a: nat)
    ensures VisitCount(t, a, a + 48) == 7
  {
    if a == 0 {
      ThreeRounds(t, a);
    } else {
      SevenIn48(t, a - 1);
      VisitCountSplit(t, a - 1, a, a + 48);
      VisitCountSplit(t, a - 1, a + 47, a + 48);
      SingleTick(t, a - 1);
      SingleTick(t, a + 47);
      PeriodOfVisits((a - 1) / FILES, (a - 1) % FILES, t);
    }
  }

  lemma SingleTick(t: File, k: nat)
    ensures VisitCount(t, k, k + 1) == if Visits(k, t) then 1 else 0
  {
  }

  /** Any 16 consecutive ticks visit every file at least once. */
  lemma VisitedIn16(t: File, a: nat)
    ensures VisitCount(t, a, a + 16) >= 1
  {
    var x := a % FILES;
    var k := if t >= x then a - x + t else a - x + t + FILES;
    assert k == FILES * (if t >= x then a / FILES else a / FILES + 1) + t;
    assert FileAt(k % FILES, Width(k / FILES), 0) == t;
    assert Visits(k, t);
    VisitCountSplit(t, a, k, a + 16);
    VisitCountSplit(t, k, k + 1, a + 16);
  }

  // ------------------------------------------------------------------ the schedule in a run

  /** Among the first `n` events of a run, those that fill file `t`, or find it full. */
  function FillCount(ss: seq<State>, es: seq<Event>, t: File, n: nat): nat
    requires |ss| == |es| + 1 && n <= |es|
  {
    if n == 0 then 0
    else
      FillCount(ss, es, t, n - 1)
      + (if es[n - 1].Fill? && ss[n - 1].pc.Filling? && ss[n - 1].pc.t == t then 1 else 0)
  }

  /** How many of the first `n` visits of a tick are to file `t`. */
  function HitCount(idx: File, nr: Span, n: nat, t: File): nat {
    if n == 0 then 0 else HitCount(idx, nr, n - 1, t) + (if FileAt(idx, nr, n - 1) == t then 1 else 0)
  }

  /** Visits to file `t` in the tick under way. */
  function InTick(s: State, t: File): nat {
    if s.pc.Filling? then HitCount(s.idx, s.nr, s.pc.i, t) else 0
  }

  ghost predicate Hits(x: File, nr: Span, n: nat, t: File) {
    exists i: nat :: i < n && FileAt(x, nr, i) == t
  }

  lemma {:induction false} HitOnce(r: nat, x: File, n: nat, t: File)
    requires n <= Width(r)
    ensures HitCount(x, Width(r), n, t) == if Hits(x, Width(r), n, t) then 1 else 0
  {
    if n > 0 {
      var nr := Width(r);
      HitOnce(r, x, n - 1, t);
      if FileAt(x, nr, n - 1) == t {
        assert Hits(x, nr, n, t);
        forall i: nat | i < n - 1 ensures FileAt(x, nr, i) != t {
          VisitsDistinct(r, x, i, n - 1);
        }
        assert !Hits(x, nr, n - 1, t);
      } else if Hits(x, nr, n, t) {
        var i: nat :| i < n && FileAt(x, nr, i) == t;
        assert i < n - 1;
      }
    }
  }

  lemma WholeTick(r: nat, x: File, t: File)
    ensures HitCount(x, Width(r), Width(r), t) == if Visits(FILES * r + x, t) then 1 else 0
  {
    var k := FILES * r + x;
    HitOnce(r, x, Width(r), t);
    assert k / FILES == r && k % FILES == x;
    if Visits(k, t) {
      var i :| 0 <= i < Width(k / FILES) && FileAt(k % FILES, Width(k / FILES), i) == t;
      assert Hits(x, Width(r), Width(r), t);
    }
    if Hits(x, Width(r), Width(r), t) {
      var i: nat :| i < Width(r) && FileAt(x, Width(r), i) == t;
      assert FileAt(k % FILES, Width(k / FILES), i) == t;
    }
  }

  lemma FillCountStep(s: State, e: Event, t: File)
    requires Inv(s) && Enabled(s, e)
    ensures Ticks(Next(s, e)) == if e.Unlock? then Ticks(s) + 1 else Ticks(s)
    ensures InTick(Next(s, e), t) + (if e.Unlock? && Visits(Ticks(s), t) then 1 else 0)
            == InTick(s, t) + (if e.Fill? && s.pc.t == t then 1 else 0)
  {
    if e.Unlock? {
      WholeTick(s.round, s.idx, t);
    }
  }

  /** In a run that starts between two ticks the fills of a file are its visits by the schedule. */
  lemma {:induction false} FillsFollowSchedule(ss: seq<State>, es: seq<Event>, t: File, n: nat)
    requires IsRun(ss, es) && Inv(ss[0]) && ss[0].pc.Unlocked? && n <= |es|
    ensures Ticks(ss[0]) <= Ticks(ss[n])
    ensures FillCount(ss, es, t, n) == VisitCount(t, Ticks(ss[0]), Ticks(ss[n])) + InTick(ss[n], t)
  {
    if n > 0 {
      FillsFollowSchedule(ss, es, t, n - 1);
      RunKeepsInv(ss, es, n - 1);
      assert StepAt(ss, es, n - 1);
      FillCountStep(ss[n - 1], es[n - 1], t);
    }
  }

  /** The run starts and ends between two ticks, and the producer makes `ticks` ticks in it. */
  ghost predicate TicksRun(ss: seq<State>, es: seq<Event>, ticks: nat) {
    && IsRun(ss, es) && Inv(ss[0]) && ss[0].pc.Unlocked? && ss[|es|].pc.Unlocked?
    && Ticks(ss[|es|]) == Ticks(ss[0]) + ticks
  }

  /** Whatever happens in between, sixteen ticks from file 0 on fill every file exactly nr times. */
  lemma RoundFills(ss: seq<State>, es: seq<Event>, t: File)
    requires TicksRun(ss, es, FILES) && ss[0].idx == 0
    ensures FillCount(ss, es, t, |es|) == ss[0].nr
  {
    FillsFollowSchedule(ss, es, t, |es|);
    RoundCount(t, ss[0].round);
  }

  /** Any 48 ticks in a row fill every file exactly seven times. */
  lemma SevenFillsIn48(ss: seq<State>, es: seq<Event>, t: File)
    requires TicksRun(ss, es, 48)
    ensures FillCount(ss, es, t, |es|) == 7
  {
    FillsFollowSchedule(ss, es, t, |es|);
    SevenIn48(t, Ticks(ss[0]));
  }

  /** Any sixteen ticks in a row fill every file. */
  lemma FilledIn16(ss: seq<State>, es: seq<Event>, t: File)
    requires TicksRun(ss, es, FILES)
    ensures exists k :: 0 <= k < |es| && es[k].Fill? && ss[k].pc.Filling? && ss[k].pc.t == t
  {
    FillsFollowSchedule(ss, es, t, |es|);
    VisitedIn16(t, Ticks(ss[0]));
    var _ := FillExists(ss, es, t, |es|);
  }

  lemma {:induction false} FillExists(ss: seq<State>, es: seq<Event>, t: File, n: nat) returns (k: nat)
    requires |ss| == |es| + 1 && n <= |es| && FillCount(ss, es, t, n) > 0
    ensures k < n && es[k].Fill? && ss[k].pc.Filling? && ss[k].pc.t == t
  {
    k := n - 1;
    if FillCount(ss, es, t, n - 1) > 0 {
      k := FillExists(ss, es, t, n - 1);
    }
  }

  // ------------------------------------------------------------------ a whole tick

  /** The shared state after the first `n` visits of a tick. */
  function Fills(s: Shared, idx: File, nr: Span, n: nat): (r: Shared)
    requires Shaped(s)
    ensures Shaped(r)
  {
    if n == 0 then s else Visit(Fills(s, idx, nr, n - 1), FileAt(idx, nr, n - 1))
  }

  function AfterTick(s: State): State
    requires Shaped(s.sh)
  {
    var idx := AddFiles(s.idx, 1);
    State(Fills(s.sh, s.idx, s.nr, s.nr), idx, if idx == 0 then NextSpan(s.nr) else s.nr, Unlocked,
          if idx == 0 then s.round + 1 else s.round)
  }

  lemma {:induction false} FillsKeepInv(s: Shared, idx: File, nr: Span, n: nat)
    requires SharedInv(s)
    ensures SharedInv(Fills(s, idx, nr, n))
  {
    if n > 0 {
      FillsKeepInv(s, idx, nr, n - 1);
      VisitKeepsInv(Fills(s, idx, nr, n - 1), FileAt(idx, nr, n - 1));
    }
  }

  lemma TickKeepsInv(s: State)
    requires Inv(s) && s.pc.Unlocked?
    ensures Inv(AfterTick(s))
  {
    FillsKeepInv(s.sh, s.idx, s.nr, s.nr);
    WidthStep(s.round);
  }

  /** Both parts of a poll executed one right after the other. */
  lemma PollKeepsView(s: State, t: File, ph: Option<Handle>, cxt: bool)
    requires Inv(s) && s.pc.Unlocked? && (ph.Some? ==> ph.value !in s.sh.passed)
    ensures Inv(Next(Next(s, EnterPoll(cxt)), Poll(t, ph)))
  {
    StepKeepsInv(s, EnterPoll(cxt));
    StepKeepsInv(Next(s, EnterPoll(cxt)), Poll(t, ph));
  }

  function TickEvents(nr: Span): seq<Event> {
    [Lock] + seq(nr, _ => Fill) + [Unlock]
  }

  function TickStates(s: State): seq<State>
    requires Shaped(s.sh)
  {
    [s]
    + seq(s.nr + 1, i requires 0 <= i <= s.nr =>
        s.(sh := Fills(s.sh, s.idx, s.nr, i), pc := Filling(i, FileAt(s.idx, s.nr, i))))
    + [AfterTick(s)]
  }

  /** A tick executed without interruption is a run of the interleaved machine. */
  lemma TickIsRun(s: State)
    requires Shaped(s.sh) && s.pc.Unlocked?
    ensures IsRun(TickStates(s), TickEvents(s.nr))
    ensures TickStates(s)[0] == s && TickStates(s)[s.nr + 2] == AfterTick(s)
  {
    var ss, es := TickStates(s), TickEvents(s.nr);
    assert forall k :: 0 <= k < |es| ==> StepAt(ss, es, k);
  }
}

/**
 Opening and releasing as concurrent calls: fsel_open and fsel_release read and write the open mask
 outside of the mutex, so that the test, the load and the store of the mask are steps of their own.
 */
module FselOpen {
  import FselModel

  type File = FselModel.File

  /** Where one caller is: Passed and Setting inside fsel_open, Clearing inside fsel_release. */
  datatype Caller =
    | Out
    | Passed(t: File)
    | Setting(t: File, tmp: set<File>)
    | Holding(t: File)
    | Clearing(t: File, tmp: set<File>)

  datatype State = State(mask: set<File>, callers: seq<Caller>)

  /** The next step of caller `k`; one that is out opens file `t`. */
  datatype Event = Step(k: nat, t: File)

  function Next(s: State, e: Event): State
    requires e.k < |s.callers|
  {
    match s.callers[e.k]
    case Out => if e.t in s.mask then s else s.(callers := s.callers[e.k := Passed(e.t)])
    case Passed(t) => s.(callers := s.callers[e.k := Setting(t, s.mask)])
    case Setting(t, tmp) => State(tmp + {t}, s.callers[e.k := Holding(t)])
    case Holding(t) => s.(callers := s.callers[e.k := Clearing(t, s.mask)])
    case Clearing(t, tmp) => State(tmp - {t}, s.callers[e.k := Out])
  }

  function Init(n: nat): State {
    State({}, seq(n, _ => Out))
  }

  predicate StepAt(ss: seq<State>, es: seq<Event>, j: nat)
    requires |ss| == |es| + 1 && j < |es|
  {
    es[j].k < |ss[j].callers| && ss[j + 1] == Next(ss[j], es[j])
  }

  ghost predicate IsRun(n: nat, ss: seq<State>, es: seq<Event>) {
    |ss| == |es| + 1 && ss[0] == Init(n) && forall j :: 0 <= j < |es| ==> StepAt(ss, es, j)
  }

  predicate Busy(c: Caller) {
    c.Passed? || c.Setting? || c.Clearing?
  }

  /** At most one caller is inside fsel_open, behind the test, or inside fsel_release. */
  predicate Alone(s: State) {
    forall j, k :: 0 <= j < |s.callers| && 0 <= k < |s.callers| && Busy(s.callers[j]) && Busy(s.callers[k]) ==> j == k
  }

  /** The caller has the file open and has not given it back yet. */
  predicate Has(c: Caller, t: File) {
    (c.Holding? || c.Clearing?) && c.t == t
  }

  predicate CallerOk(mask: set<File>, c: Caller) {
    match c
    case Out => true
    case Passed(t) => t !in mask
    case Setting(t, tmp) => t !in mask && tmp == mask
    case Holding(t) => t in mask
    case Clearing(t, tmp) => t in mask && tmp == mask
  }

  ghost predicate Exclusive(s: State) {
    && (forall k :: 0 <= k < |s.callers| ==> CallerOk(s.mask, s.callers[k]))
    && (forall j, k, t: File ::
          0 <= j < |s.callers| && 0 <= k < |s.callers| && Has(s.callers[j], t) && Has(s.callers[k], t) ==> j == k)
    && (forall t: File :: t in s.mask ==> exists k :: 0 <= k < |s.callers| && Has(s.callers[k], t))
  }

  lemma StepKeepsExclusive(s: State, e: Event)
    requires Exclusive(s) && Alone(s) && e.k < |s.callers|
    ensures Exclusive(Next(s, e))
  {
    var r := Next(s, e);
    assert CallerOk(s.mask, s.callers[e.k]);
    forall k | 0 <= k < |r.callers| ensures CallerOk(r.mask, r.callers[k]) {
      assert CallerOk(s.mask, s.callers[k]);
      if k != e.k && s.callers[k].Holding? && s.callers[e.k].Clearing? {
        assert Has(s.callers[k], s.callers[k].t) && Has(s.callers[e.k], s.callers[e.k].t);
      }
    }
    forall t: File | t in r.mask ensures exists k :: 0 <= k < |r.callers| && Has(r.callers[k], t) {
      if s.callers[e.k].Setting? && t == s.callers[e.k].t {
        assert Has(r.callers[e.k], t);
      } else {
        var k :| 0 <= k < |s.callers| && Has(s.callers[k], t);
        assert Has(r.callers[k], t);
      }
    }
    forall j, k, t: File | 0 <= j < |r.callers| && 0 <= k < |r.callers| && Has(r.callers[j], t) && Has(r.callers[k], t)
      ensures j == k
    {
      assert CallerOk(s.mask, s.callers[j]) && CallerOk(s.mask, s.callers[k]);
      assert j != e.k ==> Has(s.callers[j], t);
      assert k != e.k ==> Has(s.callers[k], t);
    }
  }

  /**
   As long as no two callers are inside at once, the mask holds exactly the open files and each file
   is open once at most.
   */
  lemma {:induction false} SingleOpening(n: nat, ss: seq<State>, es: seq<Event>, m: nat)
    requires IsRun(n, ss, es) && m <= |es| && forall j :: 0 <= j < m ==> Alone(ss[j])
    ensures Exclusive(ss[m])
  {
    if m > 0 {
      SingleOpening(n, ss, es, m - 1);
      assert StepAt(ss, es, m - 1) && Alone(ss[m - 1]);
      StepKeepsExclusive(ss[m - 1], es[m - 1]);
    }
  }

  /** Otherwise two callers can both pass the test, and both have the same file open in the end. */
  lemma OpenedTwice(t: File) returns (ss: seq<State>, es: seq<Event>)
    ensures IsRun(2, ss, es) && |es| == 6 && ss[6].callers == [Holding(t), Holding(t)]
    ensures !Alone(ss[2])
  {
    es := [Step(0, t), Step(1, t), Step(0, t), Step(1, t), Step(0, t), Step(1, t)];
    ss := [
      Init(2),
      State({}, [Passed(t), Out]),
      State({}, [Passed(t), Passed(t)]),
      State({}, [Setting(t, {}), Passed(t)]),
      State({}, [Setting(t, {}), Setting(t, {})]),
      State({t}, [Holding(t), Setting(t, {})]),
      State({t}, [Holding(t), Holding(t)])];
    assert Init(2).callers == [Out, Out];
    assert {} + {t} == {t};
    assert forall j :: 0 <= j < 6 ==> StepAt(ss, es, j);
    assert Busy(ss[2].callers[0]) && Busy(ss[2].callers[1]);
  }
}

/** The file operations and the producer as they run, on the mutable globals of fsel.c. */
module Fsel {
  import opened Common
  import opened FselModel

  const HEX_MAP: string := "0123456789ABCDEF"
  const ENOENT: int := 2
  const EACCES: int := 13
  const EBUSY: int := 16
  const O_RDONLY: nat := 0

  predicate IsXDigit(c: char) {
    '0' <= c <= '9' || 'a' <= c <= 'f' || 'A' <= c <= 'F'
  }

  predicate IsLower(c: char) {
    'a' <= c <= 'z'
  }

  function PathIndex(path: string): Option<File> {
    if |path| != 2 || path[0] != '/' || !IsXDigit(path[1]) || IsLower(path[1]) then None
    else if path[1] <= '9' then Some((path[1] as int) - ('0' as int))
    else Some((path[1] as int) - ('A' as int) + 10)
  }

  /** Exactly the 16 one-digit upper-case names are files, and each names its own file. */
  lemma PathIndexIff(path: string, t: File)
    ensures PathIndex(path) == Some(t) <==> path == ['/', HEX_MAP[t]]
  {
    assert t < 10 ==> HEX_MAP[t] == ((t + ('0' as int)) as char);
    assert t >= 10 ==> HEX_MAP[t] == ((t - 10 + ('A' as int)) as char);
  }

  class Files {
    var openMask: set<File>
    var fuse: bool
    var notify: set<File>
    const slot: array<Option<Handle>>
    const cnt: array<nat>
    var idx: File
    var nr: Span
    ghost var notified: seq<Option<Handle>>
    ghost var destroyed: seq<Option<Handle>>
    ghost var passed: set<Handle>
    ghost var produced: seq<nat>
    ghost var consumed: seq<nat>
    ghost var round: nat

    ghost function Abs(): Shared
      reads this, slot, cnt
    {
      Shared(fuse, notify, slot[..], cnt[..], notified, destroyed, passed, produced, consumed)
    }

    ghost function View(): FselModel.State
      reads this, slot, cnt
    {
      FselModel.State(Abs(), idx, nr, Unlocked, round)
    }

    ghost predicate Valid()
      reads this, slot, cnt
    {
      Inv(View())
    }

    constructor ()
      ensures Valid() && fresh(slot) && fresh(cnt)
      ensures View() == Init() && openMask == {}
    {
      openMask, fuse, notify := {}, false, {};
      slot := new Option<Handle>[16](_ => None);
      cnt := new nat[16](_ => 0);
      idx, nr := 0, 1;
      notified, destroyed, passed, round := [], [], {}, 0;
      produced, consumed := seq(FILES, _ => 0), seq(FILES, _ => 0);
      new;
      assert slot[..] == Init().sh.slot && cnt[..] == Init().sh.cnt;
      InitHasInv();
    }

    /** A second open of a file fails until the file is released. */
    method Open(path: string, accessMode: nat) returns (err: int, fh: File)
      modifies `openMask
      ensures err == (match PathIndex(path)
                      case None => -ENOENT
                      case Some(t) => if accessMode != O_RDONLY then -EACCES
                                      else if t in old(openMask) then -EBUSY
                                      else 0)
      ensures err == 0 ==> PathIndex(path) == Some(fh) && openMask == old(openMask) + {fh} && fh !in old(openMask)
      ensures err != 0 ==> openMask == old(openMask)
      ensures err == 0 <==> accessMode == O_RDONLY && old(Openable(path))
    {
      fh := 0;
      var p := PathIndex(path);
      if p.None? { return -ENOENT, 0; }
      if accessMode != O_RDONLY { return -EACCES, 0; }
      if p.value in openMask { return -EBUSY, 0; }
      openMask := openMask + {p.value};
      return 0, p.value;
    }

    /** Whether opening a path for reading would succeed. */
    predicate Openable(path: string)
      reads `openMask
    {
      PathIndex(path).Some? && PathIndex(path).value !in openMask
    }

    /** The path of the file, and no other path, becomes open to a new opening. */
    method Release(fh: File)
      modifies `openMask
      ensures openMask == old(openMask) - {fh}
      ensures Openable(['/', HEX_MAP[fh]])
      ensures forall path :: path != ['/', HEX_MAP[fh]] ==> Openable(path) == old(Openable(path))
    {
      forall path ensures PathIndex(path) == Some(fh) <==> path == ['/', HEX_MAP[fh]] {
        PathIndexIff(path, fh);
      }
      openMask := openMask - {fh};
    }

    method Read(fh: File, size: nat) returns (buf: string)
      requires Valid()
      modifies this`consumed, cnt
      ensures Valid() && View() == Next(old(View()), FselModel.Read(fh, size))
      ensures |buf| == Min(old(cnt[fh]), size) && forall i :: 0 <= i < |buf| ==> buf[i] == HEX_MAP[fh]
      ensures cnt[fh] == old(cnt[fh]) - |buf| && forall t: File :: t != fh ==> cnt[t] == old(cnt[t])
    {
      ghost var before := View();
      StepKeepsInv(before, FselModel.Read(fh, size));
      var n := if cnt[fh] < size then cnt[fh] else size;
      cnt[fh] := cnt[fh] - n;
      consumed := consumed[fh := consumed[fh] + n];
      buf := seq(n, _ => HEX_MAP[fh]);
      assert cnt[..] == before.sh.cnt[fh := before.sh.cnt[fh] - n];
      assert View() == Next(before, FselModel.Read(fh, size));
    }

    /** `cxt` tells whether fuse_get_context() gives a context; `pollIn` whether POLLIN is raised. */
    method Poll(fh: File, ph: Option<Handle>, cxt: bool) returns (pollIn: bool)
      requires Valid() && (ph.Some? ==> ph.value !in passed)
      modifies this`fuse, this`notify, this`destroyed, this`passed, slot
      ensures Valid()
      ensures View() == Next(Next(old(View()), EnterPoll(cxt)), FselModel.Poll(fh, ph))
      ensures pollIn <==> cnt[fh] > 0
    {
      PollKeepsView(View(), fh, ph, cxt);
      pollIn := PollBody(fh, ph, cxt);
    }

    method PollBody(fh: File, ph: Option<Handle>, cxt: bool) returns (pollIn: bool)
      requires Shaped(Abs()) && (ph.Some? ==> ph.value !in passed)
      modifies this`fuse, this`notify, this`destroyed, this`passed, slot
      ensures View() == Next(Next(old(View()), EnterPoll(cxt)), FselModel.Poll(fh, ph))
      ensures pollIn <==> cnt[fh] > 0
    {
      if !fuse {
        if cxt { fuse := true; }
      }
      RegisterHandle(fh, ph);
      pollIn := cnt[fh] > 0;
    }

    method RegisterHandle(fh: File, ph: Option<Handle>)
      requires Shaped(Abs())
      modifies this`notify, this`destroyed, this`passed, slot
      ensures Abs() == PollLocked(old(Abs()), fh, ph)
    {
      if ph.Some? {
        var oldph := slot[fh];
        if oldph.Some? { destroyed := destroyed + [oldph]; }
        notify := notify + {fh};
        slot[fh] := ph;
        passed := passed + {ph.value};
        assert slot[..] == old(slot[..])[fh := ph];
      }
    }

    /** The body of the producer's inner loop. */
    method Produce(t: File)
      requires Shaped(Abs())
      modifies this`produced, this`notified, this`destroyed, this`notify, slot, cnt
      ensures Abs() == Visit(old(Abs()), t)
    {
      if cnt[t] != CNT_MAX {
        cnt[t] := cnt[t] + 1;
        produced := produced[t := produced[t] + 1];
        assert cnt[..] == old(cnt[..])[t := old(cnt[t]) + 1];
        if fuse && t in notify {
          var ph := slot[t];
          notified := notified + [ph];
          destroyed := destroyed + [ph];
          notify := notify - {t};
          slot[t] := None;
          assert slot[..] == old(slot[..])[t := None];
        }
      }
    }

    /** The producer's inner loop: one visit to each of `nr` files. */
    method FillFiles()
      requires Shaped(Abs())
      modifies this`produced, this`notified, this`destroyed, this`notify, slot, cnt
      ensures Abs() == Fills(old(Abs()), idx, nr, nr)
    {
      var i, t := 0, idx;
      while i < nr
        invariant i <= nr && t == FileAt(idx, nr, i)
        invariant Abs() == Fills(old(Abs()), idx, nr, i)
      {
        Produce(t);
        StrideIsQuotient(nr);
        AddFilesIsMod(t, Stride(nr));
        i, t := i + 1, (t + FILES / nr) % FILES;
      }
    }

    /** One iteration of the producer's endless loop. */
    method Tick()
      requires Valid()
      modifies this, slot, cnt
      ensures Valid() && View() == AfterTick(old(View()))
      ensures openMask == old(openMask)
    {
      TickKeepsInv(View());
      TickBody();
    }

    method TickBody()
      requires Shaped(Abs())
      modifies this`idx, this`nr, this`round, this`produced, this`notified, this`destroyed, this`notify, slot, cnt
      ensures View() == AfterTick(old(View()))
    {
      FillFiles();
      AddFilesIsMod(idx, 1);
      idx := (idx + 1) % FILES;
      if idx == 0 {
        nr := (nr * 2) % 7;
        round := round + 1;
      }
    }
  }
}
