/** What thread_pool_executor does not keep, and exactly when: a task may be left in a queue that nobody looks after, a loop
    may find tasks where it expects none, and a semaphore may be released while it stands at one. */
module PoolFaults {
  import opened Slots
  import opened ThreadPool

  // ---------- what a step does to one worker ----------

  datatype Change =
    | Nothing
    | FlagTaken
    | Accepted(slots: seq<Slot>)
    | Added(g: nat, slots: seq<Slot>)
    | Released
    | Looped(g: nat, done: seq<Slot>)
    | Scanned(g: nat)
    | Gave(g: nat)
    | Refused(g: nat)
    | Stopped(dropped: seq<Slot>)

  ghost predicate Changes(x: Worker, c: Change, size: nat, y: Worker) {
    match c
    case Nothing => y == x
    case FlagTaken => y == x.(flag := false)
    case Accepted(slots) => !x.abort && y == Accept(x, slots)
    case Added(g, slots) => g < |x.loops| && x.loops[g].Running? && y == x.(own := x.own + slots)
    case Released => x.pending > 0 && y == x.(pending := x.pending - 1, sem := x.sem + 1)
    case Looped(g, done) => g < |x.loops| && LoopStep(x, g, size, done, y)
    case Scanned(g) => g < |x.loops| && x.loops[g].Scanning? && GoesOn(x, g, y) && y.loops[g].Scanning?
    case Gave(g) => g < |x.loops| && x.loops[g].Donating? && GoesOn(x, g, y) && y.loops[g].Donating? && y.list == x.list
    case Refused(g) => g < |x.loops| && x.loops[g].Donating? && y == At(x, g, Leaving)
    case Stopped(dropped) => StopStep(x, dropped, y)
  }

  /** Within the search for idle workers and the donation, only the lists and the private queue change. */
  ghost predicate GoesOn(x: Worker, g: nat, y: Worker)
    requires g < |x.loops|
  {
    |y.loops| == |x.loops| && y == x.(list := y.list, own := y.own, loops := x.loops[g := y.loops[g]])
  }

  /** An accepting step: tasks from outside, or a donated range that is not refused. */
  ghost predicate Accepts(s: Pool, step: Step, w: nat) {
    match step
    case Enqueue(v, _) => v == w
    case Donate(v, g) => DonatesTo(s, v, g, w) && !s.workers[w].abort
    case _ => false
  }

  ghost predicate DonatesTo(s: Pool, v: nat, g: nat, w: nat) {
    && IsLoop(s, v, g) && w < |s.workers| && s.workers[v].loops[g].Donating?
    && s.workers[v].loops[g].pos < |s.workers[v].list| && s.workers[v].list[s.workers[v].loops[g].pos] == w
  }

  /** A donation that the worker it was meant for refuses, since it is shutting down. */
  ghost predicate IsRefused(s: Pool, step: Step, w: nat) {
    step.Donate? && step.w == w && exists j: nat :: DonatesTo(s, w, step.g, j) && s.workers[j].abort
  }

  /** Which change a step means for worker `w`. */
  ghost predicate Means(s: Pool, step: Step, w: nat, c: Change) {
    && (c.Accepted? <==> Accepts(s, step, w))
    && (c.Looped? ==> step == Loop(w, c.g, c.done)) && (step.Loop? && step.w == w ==> c.Looped?)
    && (c.Released? <==> step == Release(w)) && (c.Scanned? ==> step == Scan(w, c.g))
    && (c.Refused? <==> IsRefused(s, step, w))
    && (c.Stopped? ==> step == Stop(w, c.dropped)) && (step.Stop? && step.w == w ==> c.Stopped?)
  }

  lemma ScanChanges(s: Pool, v: nat, g: nat, t: Pool, w: nat) returns (c: Change)
    requires Inv(s) && IsLoop(s, v, g) && ScanStep(s, v, g, t) && w < |s.workers|
    ensures |t.workers| == |s.workers| && Changes(s.workers[w], c, |s.workers|, t.workers[w])
    ensures c == Nothing || c == FlagTaken || (c == Scanned(g) && v == w)
  {
    hide Inv, LoopStep, StopStep, Accept;
    c := if w == v then Scanned(g) else if t.workers[w] == s.workers[w] then Nothing else FlagTaken;
  }

  lemma DonateChanges(s: Pool, v: nat, g: nat, t: Pool, w: nat) returns (c: Change)
    requires Inv(s) && IsLoop(s, v, g) && DonateStep(s, v, g, t) && w < |s.workers|
    ensures |t.workers| == |s.workers| && Changes(s.workers[w], c, |s.workers|, t.workers[w])
    ensures Means(s, Donate(v, g), w, c)
  {
    hide Inv, Good, LoopStep, StopStep, Accept, Given;
    var x := s.workers[v];
    var j := x.list[x.loops[g].pos];
    Among(s, v);
    CutsInside(x, g, v, |s.workers|, AbortedSet(s), s.stopping);
    assert DonatesTo(s, v, g, j);
    if s.workers[j].abort {
      c := if w == v then Refused(g) else Nothing;
    } else if w == v {
      c := Gave(g);
    } else if w == j {
      c := Accepted(x.own[x.loops[g].begin..CutEnd(x.loops[g])]);
    } else {
      c := Nothing;
    }
  }

  /** Every step changes a worker in one of these ways, if at all. */
  lemma EveryChange(s: Pool, step: Step, t: Pool, w: nat) returns (c: Change)
    requires Inv(s) && Next(s, step, t) && w < |s.workers|
    ensures |t.workers| == |s.workers| && Changes(s.workers[w], c, |s.workers|, t.workers[w])
    ensures Means(s, step, w, c)
  {
    hide Inv, LoopStep, StopStep, Accept, ScanStep, DonateStep, Full1, DonatesTo;
    match step
    case Enqueue(v, ts) => c := if v == w then Accepted(Full1(ts)) else Nothing;
    case EnqueueLocal(v, g, ts) => c := if v == w then Added(g, Full1(ts)) else Nothing;
    case Acquire(v) => c := if v == w then FlagTaken else Nothing;
    case Release(v) => c := if v == w then Released else Nothing;
    case Loop(v, g, done) => c := if v == w then Looped(g, done) else Nothing;
    case Scan(v, g) => c := ScanChanges(s, v, g, t, w);
    case Donate(v, g) => c := DonateChanges(s, v, g, t, w);
    case Shutdown => c := Nothing;
    case Stop(v, dropped) => c := if v == w then Stopped(dropped) else Nothing;
  }

  // ---------- what a step of the loop does to what matters here ----------

  /** A loop comes to rest with its private queue as it was, and unless it was at rest before, the queue is empty or the
      loop is leaving. */
  ghost predicate Traced(x: Worker, g: nat, y: Worker)
    requires g < |x.loops|
  {
    && |y.loops| == |x.loops| && y.sem <= x.sem
    && (y.list == x.list || y.list == []) && (y.loops[g].Scanning? ==> y.loops[g].i == 0)
    && (Resting(y.loops[g]) ==> y.own == x.own && (Resting(x.loops[g]) || x.own == [] || x.loops[g] == Leaving))
    && (y.loops[g] == Leaving <==> x.loops[g] == Checking && x.atomicAbort)
    && (x.loops[g] == Leaving || x.loops[g] == TimedOut ==> y.loops[g] == Exited && y.own == x.own)
  }

  lemma EnterTraced(x: Worker, g: nat, y: Worker)
    requires g < |x.loops| && x.loops[g] == Top && Enter(x, g, y)
    ensures Traced(x, g, y)
  {}

  lemma MarkIdleTraced(x: Worker, g: nat, y: Worker)
    requires g < |x.loops| && x.loops[g] == Sleepy && MarkIdle(x, g, y)
    ensures Traced(x, g, y)
  {}

  lemma WakeTraced(x: Worker, g: nat, y: Worker)
    requires g < |x.loops| && x.loops[g] == Waiting && Wake(x, g, y)
    ensures Traced(x, g, y)
  {
    if y == At(x, g, TimedOut) { GaveUp(x, g, y); } else { WokenUp(x, g, y); }
    hide Wake, At;
  }

  lemma GaveUp(x: Worker, g: nat, y: Worker)
    requires g < |x.loops| && y == At(x, g, TimedOut)
    ensures |y.loops| == |x.loops| && y.own == x.own && y.sem == x.sem && y.list == x.list && y.loops[g] == TimedOut
  {}

  lemma WokenUp(x: Worker, g: nat, y: Worker)
    requires g < |x.loops| && x.sem > 0 && y == At(x.(sem := x.sem - 1), g, Woken)
    ensures |y.loops| == |x.loops| && y.own == x.own && y.sem <= x.sem && y.list == x.list && y.loops[g] == Woken
  {}

  lemma CheckFlagTraced(x: Worker, g: nat, y: Worker)
    requires g < |x.loops| && x.loops[g] == Woken && CheckFlag(x, g, y)
    ensures Traced(x, g, y)
  {}

  lemma RecheckTraced(x: Worker, g: nat, y: Worker)
    requires g < |x.loops| && x.loops[g] == Found && Recheck(x, g, y)
    ensures Traced(x, g, y)
  {}

  lemma MarkActiveTraced(x: Worker, g: nat, y: Worker)
    requires g < |x.loops| && x.loops[g] == Resuming && MarkActive(x, g, y)
    ensures Traced(x, g, y)
  {}

  lemma TakeWorkTraced(x: Worker, g: nat, y: Worker)
    requires g < |x.loops| && x.loops[g] == Resumed && TakeWork(x, g, y)
    ensures Traced(x, g, y)
  {}

  lemma LeaveTraced(x: Worker, g: nat, y: Worker)
    requires g < |x.loops| && (x.loops[g] == TimedOut || x.loops[g] == Leaving) && Leave(x, g, y)
    ensures Traced(x, g, y)
  {}

  lemma BalanceTraced(x: Worker, g: nat, size: nat, y: Worker)
    requires g < |x.loops| && x.loops[g] == Draining && Balance(x, g, size, y)
    ensures Traced(x, g, y)
  {}

  lemma SplitTraced(x: Worker, g: nat, y: Worker)
    requires g < |x.loops| && x.loops[g].Scanning? && Split(x, g, y)
    ensures Traced(x, g, y)
  {}

  lemma EraseTraced(x: Worker, g: nat, begin: nat, y: Worker)
    requires g < |x.loops| && x.loops[g].Donating? && Erase(x, g, begin, y)
    ensures Traced(x, g, y)
  {}

  lemma PopTraced(x: Worker, g: nat, y: Worker)
    requires g < |x.loops| && x.loops[g] == Checking && Pop(x, g, y)
    ensures Traced(x, g, y)
  {}

  lemma RanTraced(x: Worker, g: nat, y: Worker)
    requires g < |x.loops| && x.loops[g].Running? && Ran(x, g, y)
    ensures Traced(x, g, y)
  {}

  lemma LoopTraced(x: Worker, g: nat, size: nat, done: seq<Slot>, y: Worker)
    requires g < |x.loops| && LoopStep(x, g, size, done, y)
    ensures Traced(x, g, y)
  {
    hide Traced, Enter, MarkIdle, Wake, CheckFlag, Recheck, MarkActive, TakeWork, Leave, Balance, Split, Erase, Pop, Ran;
    match x.loops[g]
    case Top => EnterTraced(x, g, y);
    case Sleepy => MarkIdleTraced(x, g, y);
    case Waiting => WakeTraced(x, g, y);
    case Woken => CheckFlagTraced(x, g, y);
    case Found => RecheckTraced(x, g, y);
    case TimedOut => LeaveTraced(x, g, y);
    case Resuming => MarkActiveTraced(x, g, y);
    case Resumed => TakeWorkTraced(x, g, y);
    case Draining => BalanceTraced(x, g, size, y);
    case Scanning(_, _, _) => SplitTraced(x, g, y);
    case Donating(_, begin, _, _) => EraseTraced(x, g, begin, y);
    case Checking => PopTraced(x, g, y);
    case Running(_) => RanTraced(x, g, y);
    case Leaving => LeaveTraced(x, g, y);
  }

  // ---------- the semaphore ----------

  /** A step that releases the semaphore of worker `w`: an enqueuer's, or shutdown's announcement. */
  ghost predicate Releases(s: Pool, step: Step, w: nat) {
    step == Release(w) || (step.Stop? && step.w == w < |s.workers| && s.workers[w].phase == Announced)
  }

  lemma SignalFrame(x: Worker, y: Worker)
    requires Signal(x, y)
    ensures y.loops == x.loops && y.own == x.own
    ensures y.sem == x.sem + if x.phase == Announced then 1 else 0
  {
    if Rank(x.phase) < 2 { SignalEarly(x, y); } else { SignalLate(x, y); }
    hide Signal;
  }

  lemma SignalEarly(x: Worker, y: Worker)
    requires Signal(x, y) && Rank(x.phase) < 2
    ensures y.loops == x.loops && y.own == x.own && y.sem == x.sem
  {}

  lemma SignalLate(x: Worker, y: Worker)
    requires Signal(x, y) && Rank(x.phase) >= 2
    ensures y.loops == x.loops && y.own == x.own
    ensures y.sem == x.sem + if x.phase == Announced then 1 else 0
  {}

  lemma StopSem(x: Worker, dropped: seq<Slot>, y: Worker)
    requires StopStep(x, dropped, y)
    ensures y.sem == x.sem + if x.phase == Announced then 1 else 0
  {
    hide Signal;
    if x.phase != Joined { SignalFrame(x, y); }
  }

  lemma ChangedSem(x: Worker, c: Change, size: nat, y: Worker)
    requires Changes(x, c, size, y)
    ensures if c.Released? || (c.Stopped? && x.phase == Announced) then y.sem == x.sem + 1 else y.sem <= x.sem
  {
    hide LoopStep, StopStep;
    match c
    case Looped(g, done) => LoopTraced(x, g, size, done, y);
    case Stopped(dropped) => StopSem(x, dropped, y);
    case _ =>
  }

  /** A step takes the count beyond one exactly when it is a release that finds the count at one. */
  lemma CountLeavesOne(s: Pool, step: Step, t: Pool, w: nat)
    requires Inv(s) && Next(s, step, t) && w < |s.workers| && s.workers[w].sem <= 1
    ensures |t.workers| == |s.workers|
    ensures t.workers[w].sem > 1 <==> Releases(s, step, w) && s.workers[w].sem == 1
  {
    hide Inv, Next, Changes, Accepts, IsRefused;
    var c := EveryChange(s, step, t, w);
    ChangedSem(s.workers[w], c, |s.workers|, t.workers[w]);
  }

  ghost predicate WithinOne(s: Pool) {
    forall w :: 0 <= w < |s.workers| ==> s.workers[w].sem <= 1
  }

  /** Every release finds the count at zero. */
  ghost predicate ReleasesAtZero(s: Pool, step: Step) {
    forall w :: 0 <= w < |s.workers| && Releases(s, step, w) ==> s.workers[w].sem == 0
  }

  lemma StaysWithinOne(s: Pool, step: Step, t: Pool)
    requires Inv(s) && Next(s, step, t) && WithinOne(s)
    ensures WithinOne(t) <==> ReleasesAtZero(s, step)
  {
    hide Inv, Next, Releases;
    if |s.workers| == 0 {
      NoWorkers(s);
    } else {
      CountLeavesOne(s, step, t, 0);
    }
    forall w | 0 <= w < |s.workers|
      ensures t.workers[w].sem > 1 <==> Releases(s, step, w) && s.workers[w].sem == 1
    {
      CountLeavesOne(s, step, t, w);
    }
  }

  lemma NoWorkers(s: Pool)
    requires Inv(s)
    ensures s.workers != []
  {}

  lemma {:induction false} KeptWithinOne(run: seq<Pool>, steps: seq<Step>, i: nat)
    requires IsRun(run, steps) && i < |run| && forall k :: 0 <= k < i ==> ReleasesAtZero(run[k], steps[k])
    ensures WithinOne(run[i])
  {
    hide Inv, Next, ReleasesAtZero;
    if i > 0 {
      KeptWithinOne(run, steps, i - 1);
      Invariant(run, steps, i - 1);
      assert Next(run[i - 1], steps[i - 1], run[i - 1 + 1]);
      StaysWithinOne(run[i - 1], steps[i - 1], run[i]);
    }
  }

  /** Over a whole run, no semaphore ever counts beyond one exactly when every release finds it at zero. */
  lemma BinaryExactlyWhen(run: seq<Pool>, steps: seq<Step>)
    requires IsRun(run, steps)
    ensures (forall i :: 0 <= i < |run| ==> WithinOne(run[i]))
       <==> (forall i :: 0 <= i < |steps| ==> ReleasesAtZero(run[i], steps[i]))
  {
    hide Inv, Next, ReleasesAtZero, WithinOne;
    if forall i :: 0 <= i < |steps| ==> ReleasesAtZero(run[i], steps[i]) {
      forall i | 0 <= i < |run| ensures WithinOne(run[i]) { KeptWithinOne(run, steps, i); }
    }
    if forall i :: 0 <= i < |run| ==> WithinOne(run[i]) {
      forall i | 0 <= i < |steps| ensures ReleasesAtZero(run[i], steps[i]) {
        Invariant(run, steps, i);
        assert Next(run[i], steps[i], run[i + 1]);
        StaysWithinOne(run[i], steps[i], run[i + 1]);
      }
    }
  }

  // ---------- tasks left in a private queue ----------

  /** No loop is at work on the private queue, but there are tasks in it. */
  ghost predicate Leftover(x: Worker) {
    x.own != [] && Resting(Last(x))
  }

  /** A loop is about to enter with tasks in the private queue; swapping the queues, it would find them. */
  ghost predicate Reentered(x: Worker) {
    Leftover(x) && Last(x) != Exited
  }

  lemma StopLeaves(x: Worker, dropped: seq<Slot>, y: Worker)
    requires StopStep(x, dropped, y)
    ensures y.loops == x.loops && (y.own == x.own || y.own == [])
  {
    hide Signal;
    if x.phase != Joined { SignalFrame(x, y); }
  }

  lemma AcceptLeaves(x: Worker, slots: seq<Slot>)
    requires Owned(x)
    ensures var y := Accept(x, slots); y.own == x.own && y.loops == (if x.idle then x.loops + [Top] else x.loops)
    ensures x.idle ==> Last(x) == Exited && Last(Accept(x, slots)) == Top
  {}

  lemma MovedTo(x: Worker, g: nat, y: Worker)
    requires Owned(x) && Owned(y) && g < |x.loops| == |y.loops| && x.loops[g] != Exited
    ensures g == |x.loops| - 1 && Last(x) == x.loops[g] && Last(y) == y.loops[g] && !x.idle
  {
    Latest(x, g);
  }

  /** What comes of one worker, for each kind of change. */
  ghost predicate Outcome(x: Worker, c: Change, y: Worker) {
    && (Leftover(y) && !Leftover(x) <==> c.Looped? && c.g < |x.loops| && x.loops[c.g] == Leaving && x.own != [])
    && (Reentered(y) && !Reentered(x) <==> c.Accepted? && x.idle && x.own != [])
    && (Last(y) == Leaving && Last(x) != Leaving <==>
          c.Refused? || (c.Looped? && c.g < |x.loops| && x.loops[c.g] == Checking && x.atomicAbort))
  }

  lemma LoopOutcome(x: Worker, g: nat, done: seq<Slot>, size: nat, y: Worker)
    requires Owned(x) && Owned(y) && g < |x.loops| && LoopStep(x, g, size, done, y)
    ensures Outcome(x, Looped(g, done), y)
  {
    LoopTraced(x, g, size, done, y);
    assert x.loops[g] != Exited;
    hide LoopStep, Owned;
    MovedTo(x, g, y);
    hide Last;
  }

  lemma WithinLoop(x: Worker, c: Change, size: nat, y: Worker)
    requires Owned(x) && Owned(y) && Changes(x, c, size, y) && (c.Scanned? || c.Gave? || c.Refused?)
    ensures Outcome(x, c, y)
  {
    MovedTo(x, c.g, y);
    hide Last, Owned;
  }

  lemma SameLoops(x: Worker, c: Change, y: Worker)
    requires y.loops == x.loops && (y.own == x.own || y.own == []) && !c.Looped? && !c.Accepted? && !c.Refused?
    ensures Outcome(x, c, y)
  {
    assert Last(y) == Last(x);
    hide Last;
  }

  lemma AddedOutcome(x: Worker, c: Change, size: nat, y: Worker)
    requires Owned(x) && Changes(x, c, size, y) && c.Added?
    ensures Outcome(x, c, y)
  {
    Latest(x, c.g);
    assert Last(y) == Last(x);
    hide Last, Owned;
  }

  lemma AcceptedOutcome(x: Worker, slots: seq<Slot>, y: Worker)
    requires Owned(x) && y == Accept(x, slots)
    ensures Outcome(x, Accepted(slots), y)
  {
    AcceptLeaves(x, slots);
    if !x.idle { assert Last(y) == Last(x); AwakeOwned(x); }
    hide Accept, Last;
  }

  lemma AwakeOwned(x: Worker)
    requires Owned(x) && !x.idle
    ensures Last(x) != Exited
  {}

  lemma EveryOutcome(x: Worker, c: Change, size: nat, y: Worker)
    requires Owned(x) && Owned(y) && Changes(x, c, size, y)
    ensures Outcome(x, c, y)
  {
    hide Outcome, LoopStep, StopStep, Accept, Owned;
    match c
    case Looped(g, done) => LoopOutcome(x, g, done, size, y);
    case Stopped(dropped) => StopLeaves(x, dropped, y); SameLoops(x, c, y);
    case Accepted(slots) => AcceptedOutcome(x, slots, y);
    case Added(_, _) => AddedOutcome(x, c, size, y);
    case Scanned(_) => WithinLoop(x, c, size, y);
    case Gave(_) => WithinLoop(x, c, size, y);
    case Refused(_) => WithinLoop(x, c, size, y);
    case _ => SameLoops(x, c, y);
  }

  lemma StepOutcome(s: Pool, step: Step, t: Pool, w: nat) returns (c: Change)
    requires Inv(s) && Next(s, step, t) && w < |s.workers|
    ensures |t.workers| == |s.workers| && Means(s, step, w, c) && Outcome(s.workers[w], c, t.workers[w])
    ensures Changes(s.workers[w], c, |s.workers|, t.workers[w])
  {
    hide Inv, Next, Changes, Means, Outcome, Owned, Wakeable, Phased, Balanced, Tidy;
    c := EveryChange(s, step, t, w);
    NextInv(s, step, t);
    Among(s, w);
    Among(t, w);
    EveryOutcome(s.workers[w], c, |s.workers|, t.workers[w]);
  }

  ghost predicate LoopAt(s: Pool, step: Step, w: nat, pc: Pc) {
    step.Loop? && step.w == w && IsLoop(s, w, step.g) && s.workers[w].loops[step.g] == pc
  }

  /** Tasks are left over exactly when a loop that is leaving ends with tasks in hand. */
  lemma LeftExactlyWhen(s: Pool, step: Step, t: Pool, w: nat)
    requires Inv(s) && Next(s, step, t) && w < |s.workers|
    ensures |t.workers| == |s.workers|
    ensures Leftover(t.workers[w]) && !Leftover(s.workers[w]) <==> LoopAt(s, step, w, Leaving) && s.workers[w].own != []
  {
    hide Inv, Next, Accepts, IsRefused, Leftover, Reentered, Last, LoopStep, StopStep;
    var c := StepOutcome(s, step, t, w);
  }

  /** A loop begins to leave exactly when it finds the atomic flag set before it takes a task, or a worker refuses its
      donation. */
  lemma LeavesExactlyWhen(s: Pool, step: Step, t: Pool, w: nat)
    requires Inv(s) && Next(s, step, t) && w < |s.workers|
    ensures |t.workers| == |s.workers|
    ensures Last(t.workers[w]) == Leaving && Last(s.workers[w]) != Leaving
       <==> IsRefused(s, step, w) || (LoopAt(s, step, w, Checking) && s.workers[w].atomicAbort)
  {
    hide Inv, Next, Accepts, IsRefused, Leftover, Reentered, Last, LoopStep, StopStep;
    var c := StepOutcome(s, step, t, w);
  }

  /** A loop comes to face tasks in its private queue exactly when tasks are accepted by a worker without a loop whose
      private queue is not empty. */
  lemma ReenteredExactlyWhen(s: Pool, step: Step, t: Pool, w: nat)
    requires Inv(s) && Next(s, step, t) && w < |s.workers|
    ensures |t.workers| == |s.workers|
    ensures Reentered(t.workers[w]) && !Reentered(s.workers[w])
       <==> Accepts(s, step, w) && s.workers[w].idle && s.workers[w].own != []
  {
    hide Inv, Next, Accepts, IsRefused, Leftover, Reentered, Last, LoopStep, StopStep;
    var c := StepOutcome(s, step, t, w);
  }

  /** The step swaps the queues of worker `w` while the private one holds tasks, against what drain_queue asserts. */
  ghost predicate SwapFinds(s: Pool, step: Step, t: Pool, w: nat) {
    && (LoopAt(s, step, w, Top) || LoopAt(s, step, w, Resumed)) && s.workers[w].own != []
    && |t.workers| == |s.workers| && step.g < |t.workers[w].loops| && t.workers[w].loops[step.g] == Draining
  }

  ghost predicate AcceptsLeftover(s: Pool, step: Step, w: nat) {
    w < |s.workers| && Accepts(s, step, w) && s.workers[w].idle && s.workers[w].own != []
  }

  ghost predicate LeavesTasks(s: Pool, step: Step, w: nat) {
    w < |s.workers| && LoopAt(s, step, w, Leaving) && s.workers[w].own != []
  }

  lemma {:induction false} ReenteredBefore(run: seq<Pool>, steps: seq<Step>, i: nat, w: nat) returns (k: nat)
    requires IsRun(run, steps) && i < |run| && w < |run[i].workers| && Reentered(run[i].workers[w])
    ensures k < i && AcceptsLeftover(run[k], steps[k], w)
  {
    hide Inv, Next, Reentered, Accepts;
    if i == 0 {
      FreshEmpty(run[0], w);
      assert false;
    } else {
      Invariant(run, steps, i - 1);
      assert Next(run[i - 1], steps[i - 1], run[i - 1 + 1]);
      SameSize(run[i - 1], steps[i - 1], run[i]);
      if Reentered(run[i - 1].workers[w]) {
        k := ReenteredBefore(run, steps, i - 1, w);
      } else {
        ReenteredExactlyWhen(run[i - 1], steps[i - 1], run[i], w);
        k := i - 1;
      }
    }
  }

  lemma FreshEmpty(s: Pool, w: nat)
    requires Init(s) && w < |s.workers|
    ensures !Leftover(s.workers[w]) && !Reentered(s.workers[w])
  {}

  lemma SameSize(s: Pool, step: Step, t: Pool)
    requires Inv(s) && Next(s, step, t)
    ensures |t.workers| == |s.workers|
  {
    hide Next;
    NoWorkers(s);
    var c := EveryChange(s, step, t, 0);
  }

  lemma {:induction false} LeftBefore(run: seq<Pool>, steps: seq<Step>, i: nat, w: nat) returns (k: nat)
    requires IsRun(run, steps) && i < |run| && w < |run[i].workers| && Leftover(run[i].workers[w])
    ensures k < i && LeavesTasks(run[k], steps[k], w)
  {
    hide Inv, Next, Leftover;
    if i == 0 {
      FreshEmpty(run[0], w);
      assert false;
    } else {
      Invariant(run, steps, i - 1);
      assert Next(run[i - 1], steps[i - 1], run[i - 1 + 1]);
      SameSize(run[i - 1], steps[i - 1], run[i]);
      if Leftover(run[i - 1].workers[w]) {
        k := LeftBefore(run, steps, i - 1, w);
      } else {
        LeftExactlyWhen(run[i - 1], steps[i - 1], run[i], w);
        k := i - 1;
      }
    }
  }

  /** Wherever a swap finds tasks, a loop of that worker had left them there, and tasks had been accepted for the worker
      after that. */
  lemma SwapFindsWhatWasLeft(run: seq<Pool>, steps: seq<Step>, i: nat, w: nat) returns (j: nat, k: nat)
    requires IsRun(run, steps) && i < |steps| && w < |run[i].workers| && SwapFinds(run[i], steps[i], run[i + 1], w)
    ensures j < k < i && LeavesTasks(run[j], steps[j], w) && AcceptsLeftover(run[k], steps[k], w)
  {
    hide Inv, Next, Accepts, Owned, Wakeable, Phased, Balanced, Tidy;
    Invariant(run, steps, i);
    Among(run[i], w);
    LoopIsLast(run[i].workers[w], steps[i].g);
    k := ReenteredBefore(run, steps, i, w);
    Invariant(run, steps, k);
    Among(run[k], w);
    IdleExited(run[k].workers[w]);
    j := LeftBefore(run, steps, k, w);
  }

  lemma LoopIsLast(x: Worker, g: nat)
    requires Owned(x) && g < |x.loops| && (x.loops[g] == Top || x.loops[g] == Resumed) && x.own != []
    ensures Reentered(x)
  {
    Latest(x, g);
  }

  lemma IdleExited(x: Worker)
    requires Owned(x) && x.idle && x.own != []
    ensures Leftover(x)
  {}

  // ---------- tasks that nobody looks after ----------

  /** No thread looks after the worker, but its public queue holds a task. */
  ghost predicate Stranded(x: Worker) {
    x.idle && x.queue != []
  }

  lemma LoopGoesOn(x: Worker, g: nat, size: nat, done: seq<Slot>, y: Worker)
    requires g < |x.loops| && LoopStep(x, g, size, done, y) && !x.abort && x.loops[g] != TimedOut && x.loops[g] != Leaving
    ensures |y.loops| == |x.loops| && y.loops[g] != Exited
  {
    hide Enter, MarkIdle, Wake, CheckFlag, Recheck, MarkActive, TakeWork, Leave, Balance, Split, Erase, Pop, Ran;
    match x.loops[g]
    case Top => EnterFrame(x, g, y);
    case Sleepy => MarkIdleFrame(x, g, y);
    case Waiting => WakeFrame(x, g, y);
    case Woken => CheckFlagFrame(x, g, y);
    case Found => RecheckFrame(x, g, y);
    case Resuming => MarkActiveFrame(x, g, y);
    case Resumed => TakeFrame(x, g, y);
    case Draining => BalanceFrame(x, g, size, y);
    case Scanning(_, _, _) => SplitFrame(x, g, y);
    case Donating(_, begin, _, _) => EraseFrame(x, g, begin, y);
    case Checking => PopFrame(x, g, y);
    case Running(_) => RanFrame(x, g, y);
  }

  lemma RanFrame(x: Worker, g: nat, y: Worker)
    requires g < |x.loops| && Ran(x, g, y)
    ensures |y.loops| == |x.loops| && y.loops[g] == Draining
  {}

  lemma LeaveStrands(x: Worker, g: nat, y: Worker)
    requires g < |x.loops| && Leave(x, g, y)
    ensures y.idle && y.queue == x.queue
  {}

  lemma LoopStrands(x: Worker, g: nat, self: nat, size: nat, aborted: set<nat>, done: seq<Slot>, y: Worker)
    requires Good(x, self, size, aborted, false) && g < |x.loops| && LoopStep(x, g, size, done, y)
    ensures Stranded(y) <==> x.loops[g] == TimedOut && x.queue != []
  {
    hide Good, Owned, Leave, Tidy;
    GoodOwned(x, self, size, aborted, false);
    LoopKeeps(x, g, self, size, aborted, false, done, y);
    GoodOwned(y, self, size, aborted, false);
    TidyLoop(x, g);
    if x.loops[g] == TimedOut {
      LeaveStrands(x, g, y);
    } else {
      LoopGoesOn(x, g, size, done, y);
      StillOwned(x, y, g);
    }
  }

  lemma TidyLoop(x: Worker, g: nat)
    requires Owned(x) && Phased(x) && Tidy(x) && g < |x.loops|
    ensures !x.abort && x.loops[g] != Leaving
  {
    hide AllFull;
    if x.loops[g] == Leaving { Latest(x, g); }
  }

  lemma StillOwned(x: Worker, y: Worker, g: nat)
    requires Owned(x) && Owned(y) && g < |x.loops| == |y.loops| && x.loops[g] != Exited && y.loops[g] != Exited
    ensures !y.idle
  {
    Latest(y, g);
  }

  lemma SameStranding(x: Worker, c: Change, size: nat, y: Worker)
    requires Changes(x, c, size, y) && !c.Looped? && !c.Stopped? && !c.Accepted?
    ensures Stranded(y) <==> Stranded(x)
  {
    hide LoopStep, StopStep;
  }

  lemma AcceptNeverStrands(x: Worker, slots: seq<Slot>)
    ensures !Stranded(Accept(x, slots))
  {}

  /** Before shutdown, exactly one kind of step strands a task, whoever takes it: a worker's wait has timed out, and a task
      has come in before it gets its lock back; the queue is not looked at again. */
  lemma TimeoutStrands(s: Pool, step: Step, t: Pool, w: nat)
    requires Inv(s) && Next(s, step, t) && !s.stopping && w < |s.workers|
    ensures |t.workers| == |s.workers|
    ensures Stranded(t.workers[w]) && !Stranded(s.workers[w]) <==> LoopAt(s, step, w, TimedOut) && s.workers[w].queue != []
  {
    hide Inv, Good, Changes, Accepts, IsRefused, Stranded, LoopStep, StopStep, ScanStep, DonateStep, Accept, Owned, Full1;
    var x, size := s.workers[w], |s.workers|;
    var c := EveryChange(s, step, t, w);
    var y := t.workers[w];
    Among(s, w);
    match c
    case Looped(g, done) =>
      LoopingChange(x, c, size, y);
      LoopStrands(x, g, w, size, AbortedSet(s), done, y);
      NotStranded(x, g, w, size, AbortedSet(s));
    case Accepted(slots) =>
      AcceptingChange(x, c, size, y);
      AcceptNeverStrands(x, slots);
    case Stopped(_) =>
      assert false;
    case _ =>
      SameStranding(x, c, size, y);
  }

  lemma LoopingChange(x: Worker, c: Change, size: nat, y: Worker)
    requires Changes(x, c, size, y) && c.Looped?
    ensures c.g < |x.loops| && LoopStep(x, c.g, size, c.done, y) && x.loops[c.g] != Exited
  {
    hide Enter, MarkIdle, Wake, CheckFlag, Recheck, MarkActive, TakeWork, Leave, Balance, Split, Erase, Pop, Ran;
  }

  lemma AcceptingChange(x: Worker, c: Change, size: nat, y: Worker)
    requires Changes(x, c, size, y) && c.Accepted?
    ensures y == Accept(x, c.slots)
  {
    hide Accept;
  }

  lemma NotStranded(x: Worker, g: nat, self: nat, size: nat, aborted: set<nat>)
    requires Good(x, self, size, aborted, false) && g < |x.loops| && x.loops[g] != Exited
    ensures !Stranded(x)
  {
    GoodOwned(x, self, size, aborted, false);
    Latest(x, g);
  }

  // ---------- runs that show it ----------

  /** One worker in a pool of its own. */
  function Alone(x: Worker, accepted: seq<Slot>, executed: seq<Slot>, stopping: bool): Pool {
    Pool([x], stopping, accepted, executed, [])
  }

  lemma LoopAlone(x: Worker, g: nat, done: seq<Slot>, y: Worker, accepted: seq<Slot>, executed: seq<Slot>, after: seq<Slot>, stopping: bool)
    requires g < |x.loops| && LoopStep(x, g, 1, done, y) && after == executed + done
    ensures Next(Alone(x, accepted, executed, stopping), Loop(0, g, done), Alone(y, accepted, after, stopping))
  {
    hide LoopStep;
    assert [x][0 := y] == [y];
  }

  lemma EnqueueAlone(x: Worker, id: nat, y: Worker, accepted: seq<Slot>, after: seq<Slot>, executed: seq<Slot>, stopping: bool)
    requires !x.locked && !x.abort && y == Accept(x, [Full(id)]) && after == accepted + [Full(id)]
    ensures Next(Alone(x, accepted, executed, stopping), Enqueue(0, [id]), Alone(y, after, executed, stopping))
  {
    hide Accept;
    assert Full1([id]) == [Full(id)];
    assert [x][0 := y] == [y];
  }

  /** A worker that is awake, with these queues and its thread there. */
  function Awake(own: seq<Slot>, queue: seq<Slot>, pending: nat, pc: Pc): Worker {
    Worker(own, [], false, queue, 0, pending, false, false, false, queue != [], [pc], true, Open)
  }

  /** A run in which a task is stranded: it comes in between the timeout and the lock. */
  function StrandingRun(): seq<Pool> {
    var a, b := [Full(1)], [Full(1), Full(2)];
    [ Alone(NewWorker(), [], [], false),
      Alone(Awake([], a, 0, Top), a, [], false),
      Alone(Awake(a, [], 0, Draining), a, [], false),
      Alone(Awake(a, [], 0, Checking), a, [], false),
      Alone(Awake([], [], 0, Running(Full(1))), a, [], false),
      Alone(Awake([], [], 0, Draining), a, a, false),
      Alone(Awake([], [], 0, Top), a, a, false),
      Alone(Awake([], [], 0, Sleepy), a, a, false),
      Alone(Awake([], [], 0, Waiting), a, a, false),
      Alone(Awake([], [], 0, TimedOut), a, a, false),
      Alone(Awake([], [Full(2)], 1, TimedOut), b, a, false),
      Alone(Awake([], [Full(2)], 1, Exited).(idle := true), b, a, false) ]
  }

  function StrandingSteps(): seq<Step> {
    [Enqueue(0, [1]), Loop(0, 0, []), Loop(0, 0, []), Loop(0, 0, []), Loop(0, 0, [Full(1)]), Loop(0, 0, []),
     Loop(0, 0, []), Loop(0, 0, []), Loop(0, 0, []), Enqueue(0, [2]), Loop(0, 0, [])]
  }

  lemma FirstAccepted(a: seq<Slot>)
    requires a == [Full(1)]
    ensures Awake([], a, 0, Top) == Accept(NewWorker(), a)
  {}

  lemma FirstTaken(a: seq<Slot>)
    requires a == [Full(1)]
    ensures LoopStep(Awake([], a, 0, Top), 0, 1, [], Awake(a, [], 0, Draining))
  {}

  lemma FirstBalanced(a: seq<Slot>)
    requires a == [Full(1)]
    ensures LoopStep(Awake(a, [], 0, Draining), 0, 1, [], Awake(a, [], 0, Checking))
  {}

  lemma FirstPopped(a: seq<Slot>)
    requires a == [Full(1)]
    ensures LoopStep(Awake(a, [], 0, Checking), 0, 1, [], Awake([], [], 0, Running(Full(1))))
  {}

  lemma StrandingFirst()
    ensures forall i :: 0 <= i < 4 ==> Next(StrandingRun()[i], StrandingSteps()[i], StrandingRun()[i + 1])
  {
    hide Next, LoopStep, Accept;
    var a := [Full(1)];
    FirstAccepted(a);
    FirstTaken(a);
    FirstBalanced(a);
    FirstPopped(a);
    EnqueueAlone(NewWorker(), 1, Awake([], a, 0, Top), [], a, [], false);
    LoopAlone(Awake([], a, 0, Top), 0, [], Awake(a, [], 0, Draining), a, [], [], false);
    LoopAlone(Awake(a, [], 0, Draining), 0, [], Awake(a, [], 0, Checking), a, [], [], false);
    LoopAlone(Awake(a, [], 0, Checking), 0, [], Awake([], [], 0, Running(Full(1))), a, [], [], false);
  }

  lemma StrandingSecond()
    ensures forall i :: 4 <= i < 8 ==> Next(StrandingRun()[i], StrandingSteps()[i], StrandingRun()[i + 1])
  {
    hide Next, Wake, CheckFlag, Recheck, MarkActive, TakeWork, Leave, Split, Erase, Pop;
    var a := [Full(1)];
    LoopAlone(Awake([], [], 0, Running(Full(1))), 0, a, Awake([], [], 0, Draining), a, [], a, false);
    LoopAlone(Awake([], [], 0, Draining), 0, [], Awake([], [], 0, Top), a, a, a, false);
    LoopAlone(Awake([], [], 0, Top), 0, [], Awake([], [], 0, Sleepy), a, a, a, false);
    LoopAlone(Awake([], [], 0, Sleepy), 0, [], Awake([], [], 0, Waiting), a, a, a, false);
  }

  lemma StrandingThird()
    ensures forall i :: 8 <= i < 11 ==> Next(StrandingRun()[i], StrandingSteps()[i], StrandingRun()[i + 1])
  {
    hide Next, Enter, MarkIdle, CheckFlag, Recheck, MarkActive, TakeWork, Balance, Split, Erase, Pop, Ran;
    var a := [Full(1)];
    LoopAlone(Awake([], [], 0, Waiting), 0, [], Awake([], [], 0, TimedOut), a, a, a, false);
    EnqueueAlone(Awake([], [], 0, TimedOut), 2, Awake([], [Full(2)], 1, TimedOut), a, [Full(1), Full(2)], a, false);
    LoopAlone(Awake([], [Full(2)], 1, TimedOut), 0, [], Awake([], [Full(2)], 1, Exited).(idle := true), [Full(1), Full(2)], a, a, false);
  }

  lemma ATaskIsStranded()
    ensures IsRun(StrandingRun(), StrandingSteps())
    ensures var s := StrandingRun()[11]; !s.stopping && Stranded(s.workers[0]) && s.workers[0].loops == [Exited]
  {
    hide Next;
    StrandingFirst();
    StrandingSecond();
    StrandingThird();
  }

  /** A run in which a new loop finds tasks in the private queue: the last one has left it, told to by the flag that
      shutdown sets first, and the public queue has been open until shutdown gets the lock. */
  function LeftoverRun(): seq<Pool> {
    var a, b := [Full(1)], [Full(1), Full(2)];
    var x := Awake(a, [], 0, Checking).(atomicAbort := true, phase := Flagged);
    StrandingRun()[..4] +
    [ Alone(Awake(a, [], 0, Checking), a, [], true),
      Alone(x, a, [], true),
      Alone(x.(loops := [Leaving]), a, [], true),
      Alone(x.(loops := [Exited], idle := true), a, [], true),
      Alone(x.(loops := [Exited, Top], queue := [Full(2)], taskFound := true), b, [], true) ]
  }

  function LeftoverSteps(): seq<Step> {
    StrandingSteps()[..3] + [Shutdown, Stop(0, []), Loop(0, 0, []), Loop(0, 0, []), Enqueue(0, [2])]
  }

  lemma LeftoverFirst()
    ensures forall i :: 0 <= i < 4 ==> Next(LeftoverRun()[i], LeftoverSteps()[i], LeftoverRun()[i + 1])
  {
    hide LoopStep;
    StrandingFirst();
    assert Next(LeftoverRun()[3], LeftoverSteps()[3], LeftoverRun()[4]);
    hide Next;
    forall i | 0 <= i < 3 ensures Next(LeftoverRun()[i], LeftoverSteps()[i], LeftoverRun()[i + 1]) {
      assert Next(StrandingRun()[i], StrandingSteps()[i], StrandingRun()[i + 1]);
    }
  }

  lemma StopAlone(x: Worker, y: Worker, accepted: seq<Slot>)
    requires StopStep(x, [], y)
    ensures Next(Alone(x, accepted, [], true), Stop(0, []), Alone(y, accepted, [], true))
  {
    hide StopStep;
    assert [x][0 := y] == [y];
  }

  lemma LeftoverSecond()
    ensures forall i :: 4 <= i < 8 ==> Next(LeftoverRun()[i], LeftoverSteps()[i], LeftoverRun()[i + 1])
  {
    hide Next, Enter, MarkIdle, Wake, CheckFlag, Recheck, MarkActive, TakeWork, Balance, Split, Erase, Ran;
    var a, b := [Full(1)], [Full(1), Full(2)];
    var x := Awake(a, [], 0, Checking).(atomicAbort := true, phase := Flagged);
    StopAlone(Awake(a, [], 0, Checking), x, a);
    LoopAlone(x, 0, [], x.(loops := [Leaving]), a, [], [], true);
    LoopAlone(x.(loops := [Leaving]), 0, [], x.(loops := [Exited], idle := true), a, [], [], true);
    EnqueueAlone(x.(loops := [Exited], idle := true), 2, x.(loops := [Exited, Top], queue := [Full(2)], taskFound := true), a, b, [], true);
  }

  /** The private queue is not always empty when the queues are swapped, as drain_queue asserts. */
  lemma SwapCanFindTasks()
    ensures IsRun(LeftoverRun(), LeftoverSteps())
    ensures var x := LeftoverRun()[8].workers[0];
            x.loops == [Exited, Top] && x.own != [] && x.queue != [] && !x.abort && !x.locked
  {
    hide Next;
    LeftoverFirst();
    LeftoverSecond();
  }

  /** A run in which the semaphore is released while it stands at one: two tasks have come in, one after the other, while
      the worker was busy, and neither time did it have to wait. */
  function ReleasesRun(): seq<Pool> {
    var a, b, c := [Full(1)], [Full(1), Full(2)], [Full(1), Full(2), Full(3)];
    var x := Awake([Full(2)], [], 0, Draining).(sem := 1);
    StrandingRun()[..5] +
    [ Alone(Awake([], [Full(2)], 1, Running(Full(1))), b, [], false),
      Alone(Awake([], [Full(2)], 0, Running(Full(1))).(sem := 1), b, [], false),
      Alone(Awake([], [Full(2)], 0, Draining).(sem := 1), b, a, false),
      Alone(Awake([], [Full(2)], 0, Top).(sem := 1), b, a, false),
      Alone(x, b, a, false),
      Alone(x.(queue := [Full(3)], taskFound := true, pending := 1), c, a, false),
      Alone(x.(queue := [Full(3)], taskFound := true, sem := 2), c, a, false) ]
  }

  function ReleasesSteps(): seq<Step> {
    StrandingSteps()[..4]
    + [Enqueue(0, [2]), Release(0), Loop(0, 0, [Full(1)]), Loop(0, 0, []), Loop(0, 0, []), Enqueue(0, [3]), Release(0)]
  }

  lemma ReleaseAlone(x: Worker, y: Worker, accepted: seq<Slot>, executed: seq<Slot>)
    requires x.pending > 0 && y == x.(pending := x.pending - 1, sem := x.sem + 1)
    ensures Next(Alone(x, accepted, executed, false), Release(0), Alone(y, accepted, executed, false))
  {
    assert [x][0 := y] == [y];
  }

  lemma ReleasesFirst()
    ensures forall i :: 0 <= i < 4 ==> Next(ReleasesRun()[i], ReleasesSteps()[i], ReleasesRun()[i + 1])
  {
    hide Next;
    StrandingFirst();
    forall i | 0 <= i < 4 ensures Next(ReleasesRun()[i], ReleasesSteps()[i], ReleasesRun()[i + 1]) {
      assert Next(StrandingRun()[i], StrandingSteps()[i], StrandingRun()[i + 1]);
    }
  }

  lemma ReleasesSecond()
    ensures forall i :: 4 <= i < 6 ==> Next(ReleasesRun()[i], ReleasesSteps()[i], ReleasesRun()[i + 1])
  {
    hide Next, Enter, MarkIdle, Wake, CheckFlag, Recheck, MarkActive, TakeWork, Leave, Balance, Split, Erase, Pop, Ran;
    var a, b, q := [Full(1)], [Full(1), Full(2)], [Full(2)];
    EnqueueAlone(Awake([], [], 0, Running(Full(1))), 2, Awake([], q, 1, Running(Full(1))), a, b, [], false);
    ReleaseAlone(Awake([], q, 1, Running(Full(1))), Awake([], q, 0, Running(Full(1))).(sem := 1), b, []);
  }

  lemma ReleasesThird()
    ensures forall i :: 6 <= i < 8 ==> Next(ReleasesRun()[i], ReleasesSteps()[i], ReleasesRun()[i + 1])
  {
    hide Next, Enter, MarkIdle, Wake, CheckFlag, Recheck, MarkActive, TakeWork, Leave, Split, Erase, Pop;
    var a, b, q := [Full(1)], [Full(1), Full(2)], [Full(2)];
    LoopAlone(Awake([], q, 0, Running(Full(1))).(sem := 1), 0, a, Awake([], q, 0, Draining).(sem := 1), b, [], a, false);
    LoopAlone(Awake([], q, 0, Draining).(sem := 1), 0, [], Awake([], q, 0, Top).(sem := 1), b, a, a, false);
  }

  lemma ReleasesFourth()
    ensures forall i :: 8 <= i < 11 ==> Next(ReleasesRun()[i], ReleasesSteps()[i], ReleasesRun()[i + 1])
  {
    hide Next, MarkIdle, Wake, CheckFlag, Recheck, MarkActive, TakeWork, Leave, Balance, Split, Erase, Pop, Ran;
    var a, b, c, q := [Full(1)], [Full(1), Full(2)], [Full(1), Full(2), Full(3)], [Full(2)];
    var x := Awake(q, [], 0, Draining).(sem := 1);
    LoopAlone(Awake([], q, 0, Top).(sem := 1), 0, [], x, b, a, a, false);
    EnqueueAlone(x, 3, x.(queue := [Full(3)], taskFound := true, pending := 1), b, c, a, false);
    ReleaseAlone(x.(queue := [Full(3)], taskFound := true, pending := 1), x.(queue := [Full(3)], taskFound := true, sem := 2), c, a);
  }

  /** The count of the binary semaphore is not kept within one. */
  lemma SemaphoreIsReleasedTwice()
    ensures IsRun(ReleasesRun(), ReleasesSteps()) && !ReleasesRun()[11].stopping && ReleasesRun()[11].workers[0].sem == 2
  {
    hide Next;
    ReleasesFirst();
    ReleasesSecond();
    ReleasesThird();
    ReleasesFourth();
  }
}
