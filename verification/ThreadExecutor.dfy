/** thread_executor: a thread for every task, each joined by the one that retires after it, the last one by shutdown.
    One step per section under the lock or blocking wait. */
module ThreadExecutor {
  /** Where a worker thread is. After it has retired, as number `turn`, it holds what m_last_retired held. */
  datatype Worker = Running | Joining(turn: nat, last: seq<nat>) | Ended(turn: nat)

  /** Where the first call of shutdown is; later calls return at once. */
  datatype Caller = Outside | Requested | Waiting | JoiningLast(last: seq<nat>) | Returned

  datatype State = State(
    threads: seq<Worker>,
    workers: set<nat>,        // m_workers
    lastRetired: seq<nat>,    // m_last_retired
    abort: bool,
    caller: Caller,
    joined: seq<nat>,         // how often each thread has been joined
    retired: seq<nat>)        // the threads that have retired, in order; not part of the program

  datatype Step =
    | Enqueue(count: nat)     // one or more tasks under one lock
    | Retire(t: nat)
    | Join(t: nat)
    | Request
    | Close
    | Emptied
    | JoinLast
    | Return

  function Started(s: State, count: nat): State {
    s.(threads := s.threads + seq(count, _ => Running), joined := s.joined + seq(count, _ => 0),
       workers := s.workers + Numbers(|s.threads|, count))
  }

  function Numbers(from: nat, count: nat): (r: set<nat>)
    ensures forall t: nat :: t in r <==> from <= t < from + count
  {
    if count == 0 then {} else Numbers(from, count - 1) + {from + count - 1}
  }

  function Retired(s: State, t: nat): State
    requires t < |s.threads|
  {
    s.(threads := s.threads[t := Joining(|s.retired|, s.lastRetired)], workers := s.workers - {t}, lastRetired := [t],
       retired := s.retired + [t])
  }

  /** Thread `t` has ended, and what it had to join has been joined. */
  function Done(s: State, t: nat): State
    requires t < |s.threads| && s.threads[t].Joining? && (s.threads[t].last != [] ==> s.threads[t].last[0] < |s.joined|)
  {
    var last := s.threads[t].last;
    s.(threads := s.threads[t := Ended(s.threads[t].turn)],
       joined := if last == [] then s.joined else s.joined[last[0] := s.joined[last[0]] + 1])
  }

  ghost predicate HasEnded(s: State, t: nat) {
    t < |s.threads| && s.threads[t].Ended?
  }

  ghost predicate Next(s: State, step: Step, z: State) {
    match step
    case Enqueue(count) => !s.abort && z == Started(s, count)
    case Retire(t) => t < |s.threads| && s.threads[t].Running? && t in s.workers && z == Retired(s, t)
    case Join(t) =>
      && t < |s.threads| && s.threads[t].Joining? && |s.joined| == |s.threads|
      && (s.threads[t].last != [] ==> HasEnded(s, s.threads[t].last[0])) && z == Done(s, t)
    case Request => s.caller == Outside && z == s.(caller := Requested)
    case Close => s.caller == Requested && z == s.(abort := true, caller := Waiting)
    case Emptied =>
      && s.caller == Waiting && s.workers == {}
      && z == s.(caller := if s.lastRetired == [] then Returned else JoiningLast(s.lastRetired))
    case JoinLast =>
      && s.caller.JoiningLast? && s.caller.last != [] && HasEnded(s, s.caller.last[0]) && |s.joined| == |s.threads|
      && z == s.(caller := Returned, lastRetired := [], joined := s.joined[s.caller.last[0] := s.joined[s.caller.last[0]] + 1])
    case Return => s.caller == Returned && z == s
  }

  ghost predicate Init(s: State) {
    s == State([], {}, [], false, Outside, [], [])
  }

  ghost predicate IsRun(run: seq<State>, steps: seq<Step>) {
    && |run| == |steps| + 1 && Init(run[0])
    && forall i :: 0 <= i < |steps| ==> Next(run[i], steps[i], run[i + 1])
  }

  // ---------- the chain ----------

  /** What thread number `k` in the order of retirement has to join: the one before it. */
  function Before(retired: seq<nat>, k: nat): seq<nat>
    requires k < |retired|
  {
    if k == 0 then [] else [retired[k - 1]]
  }

  /** How often thread number `k` has been joined: once by its successor, when that has ended, or by the caller. */
  ghost function JoinedSoFar(s: State, k: nat): nat
    requires k < |s.retired|
  {
    if (if k + 1 < |s.retired| then HasEnded(s, s.retired[k + 1]) else s.caller == Returned) then 1 else 0
  }

  /** Thread number `k` of the chain. */
  ghost predicate Link(s: State, k: nat)
    requires k < |s.retired|
  {
    var t := s.retired[k];
    && t < |s.threads| == |s.joined| && !s.threads[t].Running? && s.threads[t].turn == k && s.joined[t] == JoinedSoFar(s, k)
    && (s.threads[t].Joining? ==> s.threads[t].last == Before(s.retired, k))
    && (s.threads[t].Ended? && k > 0 ==> HasEnded(s, s.retired[k - 1]))
  }

  /** A thread is on the list, or in its place in the chain. */
  ghost predicate Placed(s: State, t: nat)
    requires t < |s.threads| == |s.joined|
  {
    if s.threads[t].Running? then t in s.workers && s.joined[t] == 0
    else t !in s.workers && s.threads[t].turn < |s.retired| && s.retired[s.threads[t].turn] == t
  }

  ghost predicate Closing(s: State) {
    && (s.abort <==> s.caller != Outside && s.caller != Requested)
    && s.lastRetired == (if s.retired == [] || s.caller == Returned then [] else [s.retired[|s.retired| - 1]])
    && (s.caller.JoiningLast? ==> s.retired != [] && s.caller.last == s.lastRetired)
    && (s.caller.JoiningLast? || s.caller == Returned ==> s.workers == {})
    && (s.caller == Returned && s.retired != [] ==> HasEnded(s, s.retired[|s.retired| - 1]))
  }

  ghost predicate Links(s: State) {
    forall k :: 0 <= k < |s.retired| ==> Link(s, k)
  }

  ghost predicate Places(s: State) {
    |s.joined| == |s.threads| && forall t :: 0 <= t < |s.threads| ==> Placed(s, t)
  }

  ghost predicate Inv(s: State) {
    Links(s) && Places(s) && Closing(s)
  }

  lemma EnqueueKeeps(s: State, count: nat, z: State)
    requires Inv(s) && !s.abort && z == Started(s, count)
    ensures Inv(z)
  {
    forall k | 0 <= k < |z.retired| ensures Link(z, k) {
      assert Link(s, k) && (k > 0 ==> Link(s, k - 1)) && (k + 1 < |s.retired| ==> Link(s, k + 1));
    }
    forall t | 0 <= t < |z.threads| ensures Placed(z, t) {
      assert t < |s.threads| ==> Placed(s, t);
    }
    hide Link, Placed;
  }

  lemma RetireLink(s: State, t: nat, k: nat)
    requires Places(s) && Closing(s) && t < |s.threads| && s.threads[t].Running? && t in s.workers && k <= |s.retired|
    requires k < |s.retired| ==> Link(s, k)
    requires 0 < k ==> Link(s, k - 1)
    requires k + 1 < |s.retired| ==> Link(s, k + 1)
    ensures Link(Retired(s, t), k)
  {
    hide Places;
    assert Placed(s, t) by { Placement(s, t); }
  }

  lemma Placement(s: State, t: nat)
    requires Places(s) && t < |s.threads|
    ensures |s.joined| == |s.threads| && Placed(s, t)
  {}

  lemma RetireKeeps(s: State, t: nat, z: State)
    requires Inv(s) && t < |s.threads| && s.threads[t].Running? && t in s.workers && z == Retired(s, t)
    ensures Inv(z)
  {
    hide Link;
    forall k | 0 <= k < |z.retired| ensures Link(z, k) {
      RetireLink(s, t, k);
    }
    forall u | 0 <= u < |z.threads| ensures Placed(z, u) {
      Placement(s, u);
    }
    hide Placed, Places;
  }

  lemma DoneLink(s: State, t: nat, k: nat)
    requires t < |s.threads| == |s.joined| && s.threads[t].Joining? && s.threads[t].turn < |s.retired|
    requires s.retired[s.threads[t].turn] == t && s.threads[t].last == Before(s.retired, s.threads[t].turn)
    requires s.threads[t].last != [] ==> HasEnded(s, s.threads[t].last[0])
    requires k < |s.retired| && Link(s, k)
    requires 0 < k ==> Link(s, k - 1)
    requires k + 1 < |s.retired| ==> Link(s, k + 1)
    requires s.threads[t].turn > 0 ==> Link(s, s.threads[t].turn - 1)
    ensures Link(Done(s, t), k)
  {}

  lemma JoinKeeps(s: State, t: nat, z: State)
    requires Inv(s) && t < |s.threads| && s.threads[t].Joining? && |s.joined| == |s.threads|
    requires (s.threads[t].last != [] ==> HasEnded(s, s.threads[t].last[0])) && z == Done(s, t)
    ensures Inv(z)
  {
    Placement(s, t);
    assert Link(s, s.threads[t].turn);
    forall k | 0 <= k < |z.retired| ensures Link(z, k) {
      DoneLink(s, t, k);
    }
    if s.threads[t].last != [] {
      assert Link(s, s.threads[t].turn - 1);
    }
    forall u | 0 <= u < |z.threads| ensures Placed(z, u) {
      Placement(s, u);
    }
    hide Link, Placed, Places;
  }

  lemma JoinLastKeeps(s: State, z: State)
    requires Inv(s) && Next(s, JoinLast, z)
    ensures Inv(z)
  {
    var t := s.caller.last[0];
    assert Link(s, |s.retired| - 1);
    forall k | 0 <= k < |z.retired| ensures Link(z, k) {
      assert Link(s, k) && (k > 0 ==> Link(s, k - 1)) && (k + 1 < |s.retired| ==> Link(s, k + 1));
    }
    forall u | 0 <= u < |z.threads| ensures Placed(z, u) {
      Placement(s, u);
    }
    hide Link, Placed, Places;
  }

  lemma CallerKeeps(s: State, step: Step, z: State)
    requires Inv(s) && Next(s, step, z) && (step.Request? || step.Close? || step.Emptied? || step.Return?)
    ensures Inv(z)
  {
    forall k | 0 <= k < |z.retired| ensures Link(z, k) {
      assert Link(s, k) && (k > 0 ==> Link(s, k - 1)) && (k + 1 < |s.retired| ==> Link(s, k + 1));
    }
    forall u | 0 <= u < |z.threads| ensures Placed(z, u) {
      Placement(s, u);
    }
    hide Link, Placed, Places;
  }

  lemma NextInv(s: State, step: Step, z: State)
    requires Inv(s) && Next(s, step, z)
    ensures Inv(z)
  {
    hide Inv, Started, Retired, Done, HasEnded;
    match step
    case Enqueue(count) => EnqueueKeeps(s, count, z);
    case Retire(t) => RetireKeeps(s, t, z);
    case Join(t) => JoinKeeps(s, t, z);
    case JoinLast => JoinLastKeeps(s, z);
    case _ => CallerKeeps(s, step, z);
  }

  lemma {:induction false} Invariant(run: seq<State>, steps: seq<Step>, i: nat)
    requires IsRun(run, steps) && i < |run|
    ensures Inv(run[i])
  {
    hide Next, Links, Places, Closing;
    if i == 0 {
      EmptyInv(run[0]);
    } else {
      Invariant(run, steps, i - 1);
      assert Next(run[i - 1], steps[i - 1], run[i - 1 + 1]);
      NextInv(run[i - 1], steps[i - 1], run[i]);
    }
  }

  lemma EmptyInv(s: State)
    requires Init(s)
    ensures Inv(s)
  {}

  // ---------- the theorems ----------

  /** m_last_retired never holds more than one thread, and no thread is joined twice or before it has retired. */
  lemma JoinedAtMostOnce(run: seq<State>, steps: seq<Step>, i: nat, t: nat)
    requires IsRun(run, steps) && i < |run| && t < |run[i].threads|
    ensures |run[i].lastRetired| <= 1 && t < |run[i].joined|
    ensures run[i].joined[t] <= 1 && (run[i].threads[t].Running? ==> run[i].joined[t] == 0)
  {
    hide IsRun;
    Invariant(run, steps, i);
    Placement(run[i], t);
    if !run[i].threads[t].Running? {
      assert Link(run[i], run[i].threads[t].turn);
    }
  }

  /** A thread waits only for one that retired just before it: the joins form a chain, without a cycle. */
  lemma JoinsGoBack(run: seq<State>, steps: seq<Step>, i: nat, t: nat)
    requires IsRun(run, steps) && i < |run| && t < |run[i].threads| && run[i].threads[t].Joining? && run[i].threads[t].last != []
    ensures var s := run[i]; var before := s.threads[t].last;
            |before| == 1 && before[0] < |s.threads| && !s.threads[before[0]].Running? && s.threads[before[0]].turn + 1 == s.threads[t].turn
  {
    hide IsRun;
    Invariant(run, steps, i);
    var s := run[i];
    Placement(s, t);
    assert Link(s, s.threads[t].turn);
    assert Link(s, s.threads[t].turn - 1);
  }

  lemma {:induction false} FirstJoining(s: State, k: nat) returns (l: nat)
    requires Links(s) && k < |s.retired| && !HasEnded(s, s.retired[k])
    ensures l <= k && Link(s, l) && !HasEnded(s, s.retired[l]) && (l > 0 ==> HasEnded(s, s.retired[l - 1]))
  {
    assert Link(s, k);
    hide Link;
    if k == 0 || HasEnded(s, s.retired[k - 1]) {
      l := k;
    } else {
      l := FirstJoining(s, k - 1);
    }
  }

  /** As long as a retired thread has not ended, the first such thread can end: nobody waits for ever. */
  lemma SomeJoinReturns(run: seq<State>, steps: seq<Step>, i: nat, t: nat)
    requires IsRun(run, steps) && i < |run| && t < |run[i].threads| && run[i].threads[t].Joining?
    ensures exists u, z :: Next(run[i], Join(u), z)
  {
    hide IsRun, Done;
    Invariant(run, steps, i);
    var s := run[i];
    Placement(s, t);
    var l := FirstJoining(s, s.threads[t].turn);
    var u := s.retired[l];
    assert Next(s, Join(u), Done(s, u));
  }

  lemma {:induction false} AllBefore(s: State, k: nat, l: nat)
    requires Links(s) && l <= k < |s.retired| && HasEnded(s, s.retired[k])
    ensures HasEnded(s, s.retired[l])
  {
    assert Link(s, k);
    if l < k { AllBefore(s, k - 1, l); }
  }

  /** When the first call of shutdown has returned, every thread has ended and has been joined exactly once, and both lists
      are empty, as the destructor asserts. */
  lemma AllEndedAndJoined(run: seq<State>, steps: seq<Step>, i: nat, t: nat)
    requires IsRun(run, steps) && i < |run| && run[i].caller == Returned
    ensures run[i].workers == {} && run[i].lastRetired == []
    ensures t < |run[i].threads| ==> t < |run[i].joined| && run[i].threads[t].Ended? && run[i].joined[t] == 1
  {
    hide IsRun;
    Invariant(run, steps, i);
    var s := run[i];
    if t < |s.threads| {
      Placement(s, t);
      var k := s.threads[t].turn;
      assert Link(s, k);
      hide Link;
      AllBefore(s, |s.retired| - 1, k);
      if k + 1 < |s.retired| { AllBefore(s, |s.retired| - 1, k + 1); }
    }
  }

  /** No thread is started once shutdown has the lock: what is running then is what shutdown waits for. */
  lemma ClosedForGood(run: seq<State>, steps: seq<Step>, i: nat, j: nat)
    requires IsRun(run, steps) && i <= j < |run| && run[i].abort
    ensures run[j].abort && |run[j].threads| == |run[i].threads|
    decreases j - i
  {
    if i < j {
      ClosedForGood(run, steps, i, j - 1);
      assert Next(run[j - 1], steps[j - 1], run[j - 1 + 1]);
    }
  }
}
