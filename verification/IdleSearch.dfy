/** The search for idle workers in the thread pool, over whole runs: whoever is found was idle and has been won for this
    search alone, and nobody idle is passed over. */
module IdleSearch {
  import opened Powers
  import opened Slots
  import opened ThreadPool
  import opened PoolFaults

  /** The worker whose turn is `i` in the search of worker `w`. */
  function TurnOf(w: nat, i: nat, size: nat): nat
    requires size > 0
  {
    (w + i) % size
  }

  /** Worker `w` is in its search, at turn `i`. */
  ghost predicate SearchesAt(x: Worker, i: nat) {
    Last(x).Scanning? && Last(x).i == i
  }

  // ---------- one step ----------

  /** A turn of the search: a worker whose flag is set is won and listed, and loses the flag; otherwise nothing changes. */
  lemma EachTurn(s: Pool, w: nat, g: nat, t: Pool)
    requires Inv(s) && Next(s, Scan(w, g), t)
    ensures |t.workers| == |s.workers| > w && Last(s.workers[w]).Scanning?
    ensures var x, y, v := s.workers[w], t.workers[w], TurnOf(w, Last(s.workers[w]).i, |s.workers|);
            && SearchesAt(y, Last(x).i + 1)
            && (if v != w && s.workers[v].flag
                then y.list == x.list + [v] && !t.workers[v].flag
                else y.list == x.list && t.workers[v].flag == s.workers[v].flag)
            && forall u :: 0 <= u < |s.workers| && u != v ==> t.workers[u].flag == s.workers[u].flag
  {
    hide Inv, LoopStep, StopStep, Accept, Balanced, Wakeable, Phased, Tidy;
    Among(s, w);
    Latest(s.workers[w], g);
  }

  lemma SignalList(x: Worker, y: Worker)
    requires Signal(x, y)
    ensures y.list == x.list && y.loops == x.loops
  {}

  lemma StopList(x: Worker, dropped: seq<Slot>, y: Worker)
    requires StopStep(x, dropped, y)
    ensures y.list == x.list && y.loops == x.loops
  {
    hide Signal;
    if x.phase != Joined { SignalList(x, y); }
  }

  /** Outside its own turns a worker's list does not grow, and a search in progress stays where it is. */
  lemma OtherChanges(x: Worker, c: Change, size: nat, y: Worker)
    requires Owned(x) && Owned(y) && Changes(x, c, size, y) && !c.Scanned?
    ensures y.list == x.list || y.list == []
    ensures Last(y).Scanning? ==> Last(y).i == 0 || (Last(x) == Last(y) && y.list == x.list)
  {
    hide LoopStep, StopStep, Owned;
    match c
    case Looped(g, done) =>
      LoopTraced(x, g, size, done, y);
      LoopMoves(x, g, size, done, y);
    case Stopped(dropped) => StopList(x, dropped, y);
    case Accepted(slots) => AcceptList(x, slots);
    case Gave(g) => MovedTo(x, g, y);
    case Refused(g) => MovedTo(x, g, y);
    case _ =>
  }

  lemma LoopMoves(x: Worker, g: nat, size: nat, done: seq<Slot>, y: Worker)
    requires Owned(x) && Owned(y) && g < |x.loops| && LoopStep(x, g, size, done, y) && |y.loops| == |x.loops|
    ensures Last(y) == y.loops[g]
  {
    hide Enter, MarkIdle, Wake, CheckFlag, Recheck, MarkActive, TakeWork, Leave, Balance, Split, Erase, Pop, Ran, Owned, Last;
    MovedTo(x, g, y);
  }

  lemma AcceptList(x: Worker, slots: seq<Slot>)
    requires Owned(x)
    ensures Accept(x, slots).list == x.list && (Last(Accept(x, slots)).Scanning? ==> Last(Accept(x, slots)) == Last(x))
  {
    AcceptLeaves(x, slots);
  }

  /** Whatever the step: a worker comes onto a list only by being won at its turn, its flag having been set until then. */
  lemma ListedOnlyWhenWon(s: Pool, step: Step, t: Pool, w: nat, v: nat)
    requires Inv(s) && Next(s, step, t) && w < |s.workers| == |t.workers|
    requires v in t.workers[w].list && v !in s.workers[w].list
    ensures step.Scan? && step.w == w && v != w && v < |s.workers| && s.workers[v].flag && !t.workers[v].flag
    ensures Last(s.workers[w]).Scanning? && v == TurnOf(w, Last(s.workers[w]).i, |s.workers|)
  {
    hide Inv, Next, Accepts, IsRefused, Owned, Wakeable, Phased, Balanced, Tidy, Last;
    var c := StepOutcome(s, step, t, w);
    NextInv(s, step, t);
    Among(s, w);
    Among(t, w);
    if c.Scanned? {
      EachTurn(s, w, c.g, t);
    } else {
      OtherChanges(s.workers[w], c, |s.workers|, t.workers[w]);
    }
  }

  /** A step that leaves a worker in its search beyond the first turn has either left the search alone or been a turn. */
  lemma SearchGoesOn(s: Pool, step: Step, t: Pool, w: nat)
    requires Inv(s) && Next(s, step, t) && w < |s.workers| == |t.workers| && Last(t.workers[w]).Scanning? && Last(t.workers[w]).i > 0
    ensures Last(s.workers[w]).Scanning?
    ensures if step.Scan? && step.w == w then Last(t.workers[w]).i == Last(s.workers[w]).i + 1
            else Last(t.workers[w]) == Last(s.workers[w]) && t.workers[w].list == s.workers[w].list
  {
    hide Inv, Next, Accepts, IsRefused, Owned, Wakeable, Phased, Balanced, Tidy, Last, LoopStep, StopStep;
    var c := StepOutcome(s, step, t, w);
    NextInv(s, step, t);
    Among(s, w);
    Among(t, w);
    if step.Scan? && step.w == w {
      EachTurn(s, w, step.g, t);
    } else {
      OtherChanges(s.workers[w], c, |s.workers|, t.workers[w]);
    }
  }

  // ---------- whole runs ----------

  lemma {:induction false} SizeKept(run: seq<Pool>, steps: seq<Step>, i: nat)
    requires IsRun(run, steps) && i < |run|
    ensures |run[i].workers| == |run[0].workers| > 0
  {
    hide Next;
    if i > 0 {
      SizeKept(run, steps, i - 1);
      Invariant(run, steps, i - 1);
      assert Next(run[i - 1], steps[i - 1], run[i - 1 + 1]);
      SameSize(run[i - 1], steps[i - 1], run[i]);
    }
  }

  /** Everybody on a list was won, at its turn in that worker's search, by a step that found its flag set and cleared it. */
  lemma {:induction false} ListedWasWon(run: seq<Pool>, steps: seq<Step>, m: nat, w: nat, v: nat) returns (k: nat)
    requires IsRun(run, steps) && m < |run| && w < |run[m].workers| && v in run[m].workers[w].list
    ensures k < m && steps[k].Scan? && steps[k].w == w != v && |run[k].workers| == |run[k + 1].workers| == |run[m].workers| > v
    ensures run[k].workers[v].flag && !run[k + 1].workers[v].flag
  {
    hide Inv, Next;
    if m == 0 {
      assert false;
    } else {
      Invariant(run, steps, m - 1);
      SizeKept(run, steps, m - 1);
      SizeKept(run, steps, m);
      assert Next(run[m - 1], steps[m - 1], run[m - 1 + 1]);
      if v in run[m - 1].workers[w].list {
        k := ListedWasWon(run, steps, m - 1, w, v);
      } else {
        ListedOnlyWhenWon(run[m - 1], steps[m - 1], run[m], w, v);
        k := m - 1;
      }
    }
  }

  /** Every turn before the one a search has come to has been taken in that search: the worker whose turn it was had its
      flag clear, or is on the list. */
  lemma {:induction false} TurnTaken(run: seq<Pool>, steps: seq<Step>, m: nat, w: nat, j: nat) returns (k: nat)
    requires IsRun(run, steps) && m < |run| && w < |run[m].workers|
    requires Last(run[m].workers[w]).Scanning? && j < Last(run[m].workers[w]).i
    ensures k < m && steps[k].Scan? && steps[k].w == w && |run[k].workers| == |run[m].workers| && SearchesAt(run[k].workers[w], j)
    ensures forall l :: k <= l <= m ==> w < |run[l].workers| && Last(run[l].workers[w]).Scanning?
    ensures var v := TurnOf(w, j, |run[m].workers|);
            v == w || !run[k].workers[v].flag || v in run[m].workers[w].list
  {
    hide Inv, Next, Last;
    if m == 0 {
      NobodySearches(run[0], w);
      assert false;
    } else {
      Invariant(run, steps, m - 1);
      SizeKept(run, steps, m - 1);
      SizeKept(run, steps, m);
      assert Next(run[m - 1], steps[m - 1], run[m - 1 + 1]);
      SearchGoesOn(run[m - 1], steps[m - 1], run[m], w);
      if steps[m - 1].Scan? && steps[m - 1].w == w {
        EachTurn(run[m - 1], w, steps[m - 1].g, run[m]);
      }
      if j < Last(run[m - 1].workers[w]).i {
        k := TurnTaken(run, steps, m - 1, w, j);
      } else {
        k := m - 1;
      }
    }
  }

  lemma NobodySearches(s: Pool, w: nat)
    requires Init(s) && w < |s.workers|
    ensures !Last(s.workers[w]).Scanning?
  {}

  /** How many turns after its own worker `w` comes to worker `v`. */
  function TurnsTo(w: nat, v: nat, size: nat): nat
    requires w < size && v < size
  {
    if v >= w then v - w else v + size - w
  }

  lemma TurnsToIsTurn(w: nat, v: nat, size: nat)
    requires w < size && v < size
    ensures TurnsTo(w, v, size) < size && TurnOf(w, TurnsTo(w, v, size), size) == v
  {
    if v >= w {
      DivModUnique(v, 0, v, size);
    } else {
      DivModUnique(v + size, 1, v, size);
    }
  }

  /** A search that ends with fewer workers than it may take has met every other worker in turn, and each of them had its
      flag clear then or has been won. */
  lemma SearchIsThorough(run: seq<Pool>, steps: seq<Step>, m: nat, w: nat, v: nat) returns (k: nat)
    requires IsRun(run, steps) && m < |steps| && w < |run[m].workers| && v < |run[m].workers| && v != w
    requires Last(run[m].workers[w]).Scanning? && steps[m].Loop? && steps[m].w == w
    requires Last(run[m].workers[w]).count < Last(run[m].workers[w]).limit
    ensures k < m && steps[k].Scan? && steps[k].w == w && |run[k].workers| == |run[m].workers|
    ensures SearchesAt(run[k].workers[w], TurnsTo(w, v, |run[m].workers|))
    ensures forall l :: k <= l <= m ==> w < |run[l].workers| && Last(run[l].workers[w]).Scanning?
    ensures !run[k].workers[v].flag || v in run[m].workers[w].list
  {
    hide Inv, Last;
    Invariant(run, steps, m);
    Among(run[m], w);
    assert Next(run[m], steps[m], run[m + 1]);
    SearchEnded(run[m], steps[m], run[m + 1], w);
    TurnsToIsTurn(w, v, |run[m].workers|);
    k := TurnTaken(run, steps, m, w, TurnsTo(w, v, |run[m].workers|));
  }

  /** A search ends after all turns, or with enough workers. */
  lemma SearchEnded(s: Pool, step: Step, t: Pool, w: nat)
    requires Inv(s) && Next(s, step, t) && w < |s.workers| && Last(s.workers[w]).Scanning? && step.Loop? && step.w == w
    ensures Last(s.workers[w]).i >= |s.workers| || Last(s.workers[w]).count >= Last(s.workers[w]).limit
  {
    hide Inv, Wakeable, Phased, Balanced, Tidy, Split, Enter, MarkIdle, Wake, CheckFlag, Recheck, MarkActive, TakeWork, Leave, Balance, Erase, Pop, Ran;
    Among(s, w);
    Latest(s.workers[w], step.g);
  }
}
