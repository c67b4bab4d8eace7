/** idle_worker_set: the flags, the approximate counter, and callers caught between the exchange of a flag and the
    adjustment of the counter. One step per atomic operation. */
module IdleSet {
  import opened Wrappers

  /** What a caller has still to do. */
  datatype Caller = Free | Tested(index: nat) | Owes(delta: int)

  datatype State = State(
    flags: seq<bool>,         // true is idle
    approx: int,              // m_approx_size
    callers: seq<Caller>,
    idled: seq<nat>,          // how often each flag has gone from active to idle
    won: seq<nat>)            // how often a caller has turned each flag from idle to active

  datatype Step =
    | SetIdle(c: nat, index: nat)
    | SetActive(c: nat, index: nat)
    | Test(c: nat, index: nat)        // the load of try_acquire_flag
    | Acquire(c: nat)                 // its exchange
    | Settle(c: nat)                  // fetch_add or fetch_sub

  /** A flag goes from idle to active; `wins` tells whether this caller has done it. */
  function Activate(s: State, c: nat, index: nat): State
    requires c < |s.callers| && index < |s.flags| == |s.won|
  {
    if s.flags[index]
    then s.(flags := s.flags[index := false], won := s.won[index := s.won[index] + 1], callers := s.callers[c := Owes(-1)])
    else s.(callers := s.callers[c := Free])
  }

  ghost predicate Next(s: State, step: Step, t: State) {
    && |s.flags| == |s.idled| == |s.won| && step.c < |s.callers|
    && match step
       case SetIdle(c, index) =>
         && s.callers[c] == Free && index < |s.flags|
         && t == if s.flags[index] then s
                 else s.(flags := s.flags[index := true], idled := s.idled[index := s.idled[index] + 1], callers := s.callers[c := Owes(1)])
       case SetActive(c, index) => s.callers[c] == Free && index < |s.flags| && t == Activate(s, c, index)
       case Test(c, index) =>
         && s.callers[c] == Free && index < |s.flags|
         && t == if s.flags[index] then s.(callers := s.callers[c := Tested(index)]) else s
       case Acquire(c) => s.callers[c].Tested? && s.callers[c].index < |s.flags| && t == Activate(s, c, s.callers[c].index)
       case Settle(c) => s.callers[c].Owes? && t == s.(approx := s.approx + s.callers[c].delta, callers := s.callers[c := Free])
  }

  ghost predicate Init(s: State) {
    && |s.flags| == |s.idled| == |s.won| && s.approx == 0
    && (forall i :: 0 <= i < |s.flags| ==> !s.flags[i] && s.idled[i] == s.won[i] == 0)
    && forall c :: 0 <= c < |s.callers| ==> s.callers[c] == Free
  }

  ghost predicate IsRun(run: seq<State>, steps: seq<Step>) {
    && |run| == |steps| + 1 && Init(run[0])
    && forall i :: 0 <= i < |steps| ==> Next(run[i], steps[i], run[i + 1])
  }

  function IdleFlags(flags: seq<bool>, n: nat): nat
    requires n <= |flags|
  {
    if n == 0 then 0 else IdleFlags(flags, n - 1) + if flags[n - 1] then 1 else 0
  }

  function Owed(callers: seq<Caller>, n: nat): int
    requires n <= |callers|
  {
    if n == 0 then 0 else Owed(callers, n - 1) + if callers[n - 1].Owes? then callers[n - 1].delta else 0
  }

  ghost predicate Inv(s: State) {
    && |s.flags| == |s.idled| == |s.won|
    && s.approx + Owed(s.callers, |s.callers|) == IdleFlags(s.flags, |s.flags|)
    && (forall i :: 0 <= i < |s.flags| ==> s.idled[i] == s.won[i] + if s.flags[i] then 1 else 0)
    && forall c :: 0 <= c < |s.callers| && s.callers[c].Owes? ==> s.callers[c].delta == 1 || s.callers[c].delta == -1
  }

  function Debt(c: Caller): int {
    if c.Owes? then c.delta else 0
  }

  lemma {:induction false} OwedWith(callers: seq<Caller>, c: nat, x: Caller, n: nat)
    requires c < |callers| && n <= |callers|
    ensures Owed(callers[c := x], n) == Owed(callers, n) + if c < n then Debt(x) - Debt(callers[c]) else 0
  {
    if n > 0 { OwedWith(callers, c, x, n - 1); }
  }

  lemma {:induction false} IdleWith(flags: seq<bool>, i: nat, b: bool, n: nat)
    requires i < |flags| && n <= |flags|
    ensures IdleFlags(flags[i := b], n)
         == IdleFlags(flags, n) + if i < n then (if b then 1 else 0) - (if flags[i] then 1 else 0) else 0
  {
    if n > 0 { IdleWith(flags, i, b, n - 1); }
  }

  lemma ActivateKeeps(s: State, c: nat, index: nat)
    requires Inv(s) && c < |s.callers| && index < |s.flags| && !s.callers[c].Owes?
    ensures Inv(Activate(s, c, index))
  {
    hide Owed, IdleFlags;
    OwedWith(s.callers, c, Owes(-1), |s.callers|);
    OwedWith(s.callers, c, Free, |s.callers|);
    IdleWith(s.flags, index, false, |s.flags|);
  }

  lemma NextInv(s: State, step: Step, t: State)
    requires Inv(s) && Next(s, step, t)
    ensures Inv(t) && |t.flags| == |s.flags| && |t.callers| == |s.callers|
  {
    hide Owed, IdleFlags;
    match step
    case SetIdle(c, index) =>
      OwedWith(s.callers, c, Owes(1), |s.callers|);
      IdleWith(s.flags, index, true, |s.flags|);
    case SetActive(c, index) => ActivateKeeps(s, c, index);
    case Test(c, index) => OwedWith(s.callers, c, Tested(index), |s.callers|);
    case Acquire(c) => ActivateKeeps(s, c, s.callers[c].index);
    case Settle(c) => OwedWith(s.callers, c, Free, |s.callers|);
  }

  lemma {:induction false} NothingOwed(callers: seq<Caller>, n: nat)
    requires n <= |callers| && forall c :: 0 <= c < n ==> !callers[c].Owes?
    ensures Owed(callers, n) == 0
  {
    if n > 0 { NothingOwed(callers, n - 1); }
  }

  lemma {:induction false} NoneIdle(flags: seq<bool>, n: nat)
    requires n <= |flags| && forall i :: 0 <= i < n ==> !flags[i]
    ensures IdleFlags(flags, n) == 0
  {
    if n > 0 { NoneIdle(flags, n - 1); }
  }

  lemma {:induction false} Invariant(run: seq<State>, steps: seq<Step>, i: nat)
    requires IsRun(run, steps) && i < |run|
    ensures Inv(run[i])
  {
    hide Next, Owed, IdleFlags;
    if i == 0 {
      NothingOwed(run[0].callers, |run[0].callers|);
      NoneIdle(run[0].flags, |run[0].flags|);
    } else {
      Invariant(run, steps, i - 1);
      assert Next(run[i - 1], steps[i - 1], run[i - 1 + 1]);
      NextInv(run[i - 1], steps[i - 1], run[i]);
    }
  }

  /** The counter and what callers still owe it add up to the number of idle flags; when nobody owes anything the counter
      is that number. */
  lemma CounterIsAccurate(run: seq<State>, steps: seq<Step>, i: nat)
    requires IsRun(run, steps) && i < |run|
    ensures var s := run[i];
            && s.approx + Owed(s.callers, |s.callers|) == IdleFlags(s.flags, |s.flags|)
            && ((forall c :: 0 <= c < |s.callers| ==> !s.callers[c].Owes?) ==> s.approx == IdleFlags(s.flags, |s.flags|))
  {
    hide IsRun, Owed, IdleFlags;
    Invariant(run, steps, i);
    if forall c :: 0 <= c < |run[i].callers| ==> !run[i].callers[c].Owes? {
      NothingOwed(run[i].callers, |run[i].callers|);
    }
  }

  /** Every time a flag has become idle it has been won by exactly one caller since, or by none if it is idle still. */
  lemma OneWinnerEach(run: seq<State>, steps: seq<Step>, i: nat, index: nat)
    requires IsRun(run, steps) && i < |run| && index < |run[i].flags|
    ensures |run[i].idled| == |run[i].won| == |run[i].flags|
    ensures run[i].idled[index] == run[i].won[index] + if run[i].flags[index] then 1 else 0
  {
    hide IsRun, Owed, IdleFlags;
    Invariant(run, steps, i);
  }

  /** The counter can be off by as many as there are callers, in both directions. */
  lemma {:induction false} OwedBound(callers: seq<Caller>, n: nat)
    requires n <= |callers| && forall c :: 0 <= c < n && callers[c].Owes? ==> callers[c].delta == 1 || callers[c].delta == -1
    ensures 0 - n <= Owed(callers, n) <= n
  {
    if n > 0 { OwedBound(callers, n - 1); }
  }

  lemma CounterError(run: seq<State>, steps: seq<Step>, i: nat)
    requires IsRun(run, steps) && i < |run|
    ensures run[i].approx - IdleFlags(run[i].flags, |run[i].flags|) <= |run[i].callers|
    ensures IdleFlags(run[i].flags, |run[i].flags|) - run[i].approx <= |run[i].callers|
  {
    hide IsRun, Owed, IdleFlags;
    Invariant(run, steps, i);
    OwedBound(run[i].callers, |run[i].callers|);
  }

  /** The counter is below zero exactly when callers owe it more than there are idle flags, and not as long as no caller has
      one more to add. */
  lemma NegativeExactlyWhen(run: seq<State>, steps: seq<Step>, i: nat)
    requires IsRun(run, steps) && i < |run|
    ensures var s := run[i];
            && (s.approx < 0 <==> IdleFlags(s.flags, |s.flags|) < Owed(s.callers, |s.callers|))
            && ((forall c :: 0 <= c < |s.callers| ==> s.callers[c] != Owes(1)) ==> s.approx >= 0)
  {
    hide IsRun, Owed, IdleFlags;
    Invariant(run, steps, i);
    if forall c :: 0 <= c < |run[i].callers| ==> run[i].callers[c] != Owes(1) {
      NothingToAdd(run[i].callers, |run[i].callers|);
    }
  }

  lemma {:induction false} NothingToAdd(callers: seq<Caller>, n: nat)
    requires n <= |callers| && forall c :: 0 <= c < n && callers[c].Owes? ==> callers[c].delta == -1
    ensures Owed(callers, n) <= 0
  {
    if n > 0 { NothingToAdd(callers, n - 1); }
  }

  /** Nor does it ever get below zero while no caller takes anything off. */
  lemma {:induction false} NotNegativeWhileAdding(run: seq<State>, steps: seq<Step>, i: nat)
    requires IsRun(run, steps) && i < |run|
    requires forall k, c :: 0 <= k < i && 0 <= c < |run[k].callers| ==> run[k].callers[c] != Owes(-1)
    ensures run[i].approx >= 0
  {
    hide Next;
    if i > 0 {
      NotNegativeWhileAdding(run, steps, i - 1);
      Invariant(run, steps, i - 1);
      assert Next(run[i - 1], steps[i - 1], run[i - 1 + 1]);
      OnlyAdded(run[i - 1], steps[i - 1], run[i]);
    }
  }

  lemma OnlyAdded(s: State, step: Step, t: State)
    requires Inv(s) && Next(s, step, t) && forall c :: 0 <= c < |s.callers| ==> s.callers[c] != Owes(-1)
    ensures t.approx >= s.approx
  {
    hide Owed, IdleFlags;
  }

  /** A run that takes the counter below zero: the flag is won before the one who set it has counted it. */
  function NegativeRun(): seq<State> {
    var s := State([false], 0, [Free, Free], [0], [0]);
    var t := State([false], 0, [Owes(1), Owes(-1)], [1], [1]);
    [ s,
      s.(flags := [true], callers := [Owes(1), Free], idled := [1]),
      t,
      t.(approx := -1, callers := [Owes(1), Free]) ]
  }

  lemma CounterCanBeNegative()
    ensures IsRun(NegativeRun(), [SetIdle(0, 0), SetActive(1, 0), Settle(1)]) && NegativeRun()[3].approx < 0
  {
    var steps := [SetIdle(0, 0), SetActive(1, 0), Settle(1)];
    assert Next(NegativeRun()[0], steps[0], NegativeRun()[1]);
    assert Next(NegativeRun()[1], steps[1], NegativeRun()[2]);
    assert Next(NegativeRun()[2], steps[2], NegativeRun()[3]);
    hide Next;
  }

  // ---------- find_idle_workers ----------

  /** How far flag `x` is behind the caller's, going round. */
  function Distance(caller: nat, x: nat, size: nat): int {
    if x >= caller then x - caller else x + size - caller
  }

  lemma TurnAt(caller: nat, i: nat, size: nat)
    requires caller < size && i < size
    ensures (caller + i) % size < size && Distance(caller, (caller + i) % size, size) == i
  {
    if caller + i < size {
      assert (caller + i) % size == caller + i;
    } else {
      assert (caller + i) % size == caller + i - size;
    }
  }

  /** The flags won in the first `turns` turns, in the order of the turns, as long as there are not enough of them. */
  ghost predicate FoundBy(list: seq<nat>, caller: nat, size: nat, turns: nat, enough: nat, won: seq<bool>)
    requires |won| == size
  {
    && |list| <= enough
    && (forall p :: 0 <= p < |list| ==> list[p] < size && won[list[p]] && 0 < Distance(caller, list[p], size) < turns)
    && (forall p, r :: 0 <= p < r < |list| ==> Distance(caller, list[p], size) < Distance(caller, list[r], size))
    && forall v :: 0 <= v < size && won[v] && 0 < Distance(caller, v, size) < turns ==> v in list
  }

  lemma NextTurn(list: seq<nat>, caller: nat, size: nat, i: nat, enough: nat, won: seq<bool>)
    requires |won| == size && caller < size && i < size && |list| < enough && FoundBy(list, caller, size, i, enough, won)
    ensures var index := (caller + i) % size;
            FoundBy(if index != caller && won[index] then list + [index] else list, caller, size, i + 1, enough, won)
  {
    TurnAt(caller, i, size);
    var index := (caller + i) % size;
    var more := if index != caller && won[index] then list + [index] else list;
    forall v | 0 <= v < size && won[v] && 0 < Distance(caller, v, size) < i + 1 ensures v in more {
      if Distance(caller, v, size) < i {
        assert v in list;
      } else {
        SameTurn(caller, v, index, size);
        assert v == more[|more| - 1];
      }
    }
  }

  lemma SameTurn(caller: nat, v: nat, w: nat, size: nat)
    requires caller < size && v < size && w < size && Distance(caller, v, size) == Distance(caller, w, size)
    ensures v == w
  {}

  /** The search goes round from the caller, trying every other worker's flag in turn, `won[v]` being what try_acquire_flag
      answers for worker `v`. It finds the workers won, in the order of the ring behind the caller, up to the number asked
      for and the number there seem to be: one that is not found although its flag would have been won lies behind all
      that are, and these are enough. */
  method FindIdleWorkers(caller: nat, size: nat, approx: int, maxCount: nat, won: seq<bool>) returns (list: seq<nat>)
    requires caller < size && |won| == size
    ensures |list| <= maxCount && |list| <= if approx > 0 then approx else 0
    ensures forall p :: 0 <= p < |list| ==> list[p] < size && list[p] != caller && won[list[p]]
    ensures forall p, r :: 0 <= p < r < |list| ==> Distance(caller, list[p], size) < Distance(caller, list[r], size)
    ensures forall v :: 0 <= v < size && v != caller && won[v] && v !in list ==>
              (|list| == maxCount || |list| == if approx > 0 then approx else 0)
              && forall p :: 0 <= p < |list| ==> Distance(caller, list[p], size) < Distance(caller, v, size)
  {
    hide FoundBy;
    list := [];
    if approx <= 0 {
      return;
    }
    var maxWaiters := if approx < maxCount then approx else maxCount;
    var i: nat := 0;
    NoTurns(caller, size, maxWaiters, won);
    while i < size && |list| < maxWaiters
      invariant i <= size && FoundBy(list, caller, size, i, maxWaiters, won)
    {
      TurnAt(caller, i, size);
      NextTurn(list, caller, size, i, maxWaiters, won);
      var index := (caller + i) % size;
      if index != caller && won[index] {
        list := list + [index];
      }
      i := i + 1;
    }
    Searched(list, caller, size, i, maxWaiters, won);
  }

  lemma NoTurns(caller: nat, size: nat, enough: nat, won: seq<bool>)
    requires |won| == size
    ensures FoundBy([], caller, size, 0, enough, won)
  {}

  /** What has not been found has not had its turn. */
  lemma Searched(list: seq<nat>, caller: nat, size: nat, turns: nat, enough: nat, won: seq<bool>)
    requires |won| == size && caller < size && turns <= size && FoundBy(list, caller, size, turns, enough, won)
    ensures |list| <= enough
    ensures forall p :: 0 <= p < |list| ==> list[p] < size && list[p] != caller && won[list[p]] && Distance(caller, list[p], size) < turns
    ensures forall p, r :: 0 <= p < r < |list| ==> Distance(caller, list[p], size) < Distance(caller, list[r], size)
    ensures forall v :: 0 <= v < size && v != caller && won[v] && v !in list ==> turns <= Distance(caller, v, size) < size
  {}

  /** The search for one idle worker. A caller that is no worker starts anywhere. */
  method FindIdleWorker(caller: Option<nat>, start: nat, size: nat, approx: int, won: seq<bool>) returns (found: Option<nat>)
    requires start < size && |won| == size && (caller.Some? ==> start == caller.value)
    ensures found.Some? ==> approx > 0 && found.value < size && found != caller && won[found.value]
    ensures found.Some? ==>
              forall v :: 0 <= v < size && Distance(start, v, size) < Distance(start, found.value, size) && won[v] ==> Some(v) == caller
    ensures found.None? && approx > 0 ==> forall v :: 0 <= v < size && won[v] ==> Some(v) == caller
  {
    if approx <= 0 {
      return None;
    }
    var i: nat := 0;
    while i < size
      invariant i <= size && forall v :: 0 <= v < size && Distance(start, v, size) < i && won[v] ==> Some(v) == caller
    {
      TurnAt(start, i, size);
      var index := (start + i) % size;
      if Some(index) != caller && won[index] {
        return Some(index);
      }
      forall v | 0 <= v < size && Distance(start, v, size) == i ensures v == index {
        SameTurn(start, v, index, size);
      }
      i := i + 1;
    }
    found := None;
  }
}
